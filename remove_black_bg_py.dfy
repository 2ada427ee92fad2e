/**
 * The Python icon script: every RGBA pixel whose red, green and blue are
 * all below the threshold becomes fully transparent black; `main` runs
 * that over the `.png` files of the icon set and counts them. Decoding and
 * encoding PNG files are left out: an image is its list of pixels.
 */
module RemoveBlackBgPy {
  import opened JsStrings
  import opened JsArrays
  import opened Wrappers

  type Byte = x: int | 0 <= x < 256

  /** One item of `img.getdata()` after `convert('RGBA')`. */
  datatype Pixel = Pixel(r: Byte, g: Byte, b: Byte, a: Byte)

  /** The default of `threshold`. */
  const DefaultThreshold := 30

  /** `r < threshold and g < threshold and b < threshold`. */
  predicate IsBlack(p: Pixel, threshold: int) {
    p.r < threshold && p.g < threshold && p.b < threshold
  }

  /** The pixel `new_data` receives for `p`. */
  function Cleared(p: Pixel, threshold: int): (q: Pixel)
    ensures IsBlack(p, threshold) ==> q == Pixel(0, 0, 0, 0)
    ensures !IsBlack(p, threshold) ==> q == p
    ensures !IsBlack(q, threshold) || q == Pixel(0, 0, 0, 0)
  {
    if IsBlack(p, threshold) then Pixel(0, 0, 0, 0) else p
  }

  /** The image after the transform: the same number of pixels, in order,
      each qualifying one made transparent black and every other kept. */
  function ClearedAll(data: seq<Pixel>, threshold: int): (r: seq<Pixel>)
    ensures |r| == |data|
    ensures forall i :: 0 <= i < |r| ==> r[i] == if IsBlack(data[i], threshold) then Pixel(0, 0, 0, 0) else data[i]
  {
    seq(|data|, i requires 0 <= i < |data| => Cleared(data[i], threshold))
  }

  /** The loop of `remove_black_background`: builds `new_data` from the pixels of an
      image that opened, or fails (`None`) when it did not. */
  method RemoveBlackBackground(image: Option<seq<Pixel>>, threshold: int) returns (saved: Option<seq<Pixel>>)
    ensures saved.Some? <==> image.Some?
    ensures image.Some? ==> saved.value == ClearedAll(image.value, threshold)
  {
    if image.None? {
      return None;
    }
    var data := image.value;
    var newData: seq<Pixel> := [];
    for i := 0 to |data|
      invariant newData == ClearedAll(data[..i], threshold)
    {
      var item := data[i];
      if item.r < threshold && item.g < threshold && item.b < threshold {
        newData := newData + [Pixel(0, 0, 0, 0)];
      } else {
        newData := newData + [item];
      }
      assert data[..i + 1] == data[..i] + [item];
    }
    assert data[..|data|] == data;
    return Some(newData);
  }

  /** Running the transform twice gives what running it once gives. */
  lemma ClearedAllIdempotent(data: seq<Pixel>, threshold: int)
    ensures ClearedAll(ClearedAll(data, threshold), threshold) == ClearedAll(data, threshold)
  {
    var once := ClearedAll(data, threshold);
    assert forall i :: 0 <= i < |data| ==> ClearedAll(once, threshold)[i] == Cleared(Cleared(data[i], threshold), threshold);
  }

  /** No channel is below zero, so a threshold of zero or less changes nothing. */
  lemma NoThresholdNoChange(data: seq<Pixel>, threshold: int)
    requires threshold <= 0
    ensures ClearedAll(data, threshold) == data
  {
  }

  /** The comparison is strict: at the default threshold a channel of 30 keeps the pixel, 29 in each channel clears it. */
  lemma StrictThreshold()
    ensures Cleared(Pixel(30, 0, 0, 255), DefaultThreshold) == Pixel(30, 0, 0, 255)
    ensures Cleared(Pixel(29, 29, 29, 255), DefaultThreshold) == Pixel(0, 0, 0, 0)
    ensures Cleared(Pixel(10, 5, 20, 255), DefaultThreshold) == Pixel(0, 0, 0, 0)
    ensures Cleared(Pixel(40, 40, 40, 255), DefaultThreshold) == Pixel(40, 40, 40, 255)
  {
  }

  /** `filename.endswith('.png')`. */
  predicate IsPng(name: string) {
    EndsWith(name, ".png")
  }

  /** How `main` ends: `sys.exit(code)`, or after the loop with the count it prints. */
  datatype Exit = Exited(code: int) | Finished(processed: nat)

  /** `main`: `pathExists` stands for `os.path.exists`, `listing` for `os.listdir`, which
      raises (`None`) when the path is not a directory; the uncaught exception ends the
      script with status 1. It returns the names handed to `remove_black_background`;
      whether each of them succeeded plays no part. */
  method ProcessIconset(pathExists: bool, listing: Option<seq<string>>) returns (outcome: Exit, converted: seq<string>)
    ensures !pathExists ==> outcome == Exited(1) && converted == []
    ensures pathExists && listing.None? ==> outcome == Exited(1) && converted == []
    ensures pathExists && listing.Some? ==> converted == Filter(listing.value, IsPng) && outcome == Finished(|converted|)
  {
    if !pathExists || listing.None? {
      return Exited(1), [];
    }
    var names := listing.value;
    var processed := 0;
    converted := [];
    for i := 0 to |names|
      invariant converted == Filter(names[..i], IsPng)
      invariant processed == |converted|
    {
      assert names[..i + 1][..i] == names[..i];
      if EndsWith(names[i], ".png") {
        converted := converted + [names[i]];
        processed := processed + 1;
      }
    }
    assert names[..|names|] == names;
    outcome := Finished(processed);
  }

  /** The count is that of the `.png` names, whichever of them failed. */
  lemma {:induction false} PngCount(names: seq<string>, other: string)
    requires !IsPng(other)
    ensures |Filter(names + [other], IsPng)| == |Filter(names, IsPng)|
    ensures |Filter(names + ["icon.png"], IsPng)| == |Filter(names, IsPng)| + 1
  {
    var n1 := names + [other];
    var n2 := names + ["icon.png"];
    assert n1[..|n1| - 1] == names && n2[..|n2| - 1] == names;
    assert "icon.png"[|"icon.png"| - |".png"|..] == ".png";
  }
}
