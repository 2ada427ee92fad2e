/**
 * The Node icon script: the raw pixel buffer is walked pixel by pixel with
 * stride `channels`, and the alpha byte of every pixel whose red, green and
 * blue are all below the threshold is set to 0 in place. Colour bytes are
 * left as they were. Decoding and encoding through `sharp` are left out.
 */
module RemoveBlackBgJs {
  import opened JsStrings
  import opened JsArrays
  import opened RemoveBlackBgPy
  import opened Wrappers

  /** `r < threshold && g < threshold && b < threshold` for the pixel starting at `i`; a
      read past the end is `undefined`, and `undefined < threshold` is false. */
  predicate Qualifies(s: seq<Byte>, i: int, threshold: int) {
    0 <= i && i + 2 < |s| && s[i] < threshold && s[i + 1] < threshold && s[i + 2] < threshold
  }

  /** One pixel after the loop body: its byte at offset 3 becomes 0 when the pixel qualifies. */
  function ClearPixel(p: seq<Byte>, threshold: int): (q: seq<Byte>)
    ensures |q| == |p|
    ensures forall k :: 0 <= k < |p| && k != 3 ==> q[k] == p[k]
    ensures 3 < |p| ==> q[3] == (if Qualifies(p, 0, threshold) then 0 else p[3])
  {
    if 3 < |p| && Qualifies(p, 0, threshold) then p[3 := 0] else p
  }

  /** The buffer after the loop, pixel by pixel: the first `channels` bytes (fewer at the end) and then the rest. */
  function AlphaCleared(s: seq<Byte>, channels: nat, threshold: int): (r: seq<Byte>)
    requires channels >= 4
    ensures |r| == |s|
    decreases |s|
  {
    if |s| <= channels then ClearPixel(s, threshold)
    else ClearPixel(s[..channels], threshold) + AlphaCleared(s[channels..], channels, threshold)
  }

  /** The loop of `removeBlackBackground`, on the `Uint8ClampedArray` copy of the raw buffer. */
  method RemoveBlackBackground(pixels: array<Byte>, channels: nat, threshold: int)
    requires channels >= 4
    modifies pixels
    ensures pixels[..] == AlphaCleared(old(pixels[..]), channels, threshold)
  {
    ghost var before := pixels[..];
    var i := 0;
    while i < pixels.Length
      invariant 0 <= i
      invariant Turns(pixels[..], i, channels, threshold) == Turns(before, 0, channels, threshold)
      decreases pixels.Length - i
    {
      ghost var cur := pixels[..];
      if i + 2 < pixels.Length && pixels[i] < threshold && pixels[i + 1] < threshold && pixels[i + 2] < threshold {
        if i + 3 < pixels.Length {
          pixels[i + 3] := 0;
        }
      }
      assert pixels[..] == Step(cur, i, threshold);
      i := i + channels;
    }
    TurnsClear(before, 0, channels, threshold);
    assert before[..0] == [] && before[0..] == before;
  }

  /** The buffer after the loop body has run for the pixel at `i`. */
  function Step(cur: seq<Byte>, i: nat, threshold: int): seq<Byte> {
    if i + 3 < |cur| && Qualifies(cur, i, threshold) then cur[i + 3 := 0] else cur
  }

  /** The remaining turns of the loop from offset `i`. */
  function Turns(cur: seq<Byte>, i: nat, channels: nat, threshold: int): seq<Byte>
    requires channels >= 4
    decreases |cur| - i
  {
    if i >= |cur| then cur else Turns(Step(cur, i, threshold), i + channels, channels, threshold)
  }

  /** The loop body touches only the pixel at `i`, which it turns into `ClearPixel` of itself. */
  lemma StepShape(cur: seq<Byte>, i: nat, m: nat, threshold: int)
    requires i + m <= |cur| && 0 < m && (m >= 4 || i + m == |cur|)
    ensures var next := Step(cur, i, threshold);
      |next| == |cur| && next[i + m..] == cur[i + m..]
      && next[..i + m] == cur[..i] + ClearPixel(cur[i..i + m], threshold)
  {
    var next := Step(cur, i, threshold);
    assert Qualifies(cur, i, threshold) == Qualifies(cur[i..i + m], 0, threshold);
    assert next[..i] == cur[..i];
    assert next[i..i + m] == ClearPixel(cur[i..i + m], threshold);
    assert next[..i + m] == next[..i] + next[i..i + m];
  }

  /** The turns from `i` on leave the bytes before `i` and clear the pixels from `i` on. */
  lemma {:induction false} TurnsClear(cur: seq<Byte>, i: nat, channels: nat, threshold: int)
    requires channels >= 4 && i <= |cur|
    ensures Turns(cur, i, channels, threshold) == cur[..i] + AlphaCleared(cur[i..], channels, threshold)
    decreases |cur| - i
  {
    if i == |cur| {
      assert cur[..i] == cur && cur[i..] == [];
      assert AlphaCleared(cur[i..], channels, threshold) == [];
    } else if |cur| <= i + channels {
      LastTurn(cur, i, channels, threshold);
    } else {
      TurnsClear(Step(cur, i, threshold), i + channels, channels, threshold);
      NextTurn(cur, i, channels, threshold, Turns(Step(cur, i, threshold), i + channels, channels, threshold));
    }
  }

  /** The turn for the last pixel, which may be short. */
  lemma LastTurn(cur: seq<Byte>, i: nat, channels: nat, threshold: int)
    requires channels >= 4 && i < |cur| <= i + channels
    ensures Turns(cur, i, channels, threshold) == cur[..i] + AlphaCleared(cur[i..], channels, threshold)
  {
    var m := |cur| - i;
    var next := Step(cur, i, threshold);
    StepShape(cur, i, m, threshold);
    assert Turns(cur, i, channels, threshold) == Turns(next, i + channels, channels, threshold) == next;
    assert cur[i..] == cur[i..i + m];
    assert AlphaCleared(cur[i..], channels, threshold) == ClearPixel(cur[i..i + m], threshold);
    assert next == next[..i + m];
  }

  /** A turn for a whole pixel followed by more bytes. */
  lemma NextTurn(cur: seq<Byte>, i: nat, channels: nat, threshold: int, rest: seq<Byte>)
    requires channels >= 4 && i + channels < |cur|
    requires var next := Step(cur, i, threshold);
      rest == next[..i + channels] + AlphaCleared(next[i + channels..], channels, threshold)
    ensures rest == cur[..i] + AlphaCleared(cur[i..], channels, threshold)
  {
    var next := Step(cur, i, threshold);
    var cleared := ClearPixel(cur[i..i + channels], threshold);
    var after := AlphaCleared(cur[i + channels..], channels, threshold);
    NextTurnParts(cur, i, channels, threshold, next, cleared, after);
    Reassemble(rest, next[..i + channels], after, cur[..i], cleared, AlphaCleared(cur[i..], channels, threshold));
  }

  /** The three pieces `NextTurn` joins: the cleared pixel, the untouched bytes after it, and the split of the spec at `i`. */
  lemma NextTurnParts(cur: seq<Byte>, i: nat, channels: nat, threshold: int, next: seq<Byte>, cleared: seq<Byte>, after: seq<Byte>)
    requires channels >= 4 && i + channels < |cur|
    requires next == Step(cur, i, threshold)
    requires cleared == ClearPixel(cur[i..i + channels], threshold)
    requires after == AlphaCleared(cur[i + channels..], channels, threshold)
    ensures next[..i + channels] == cur[..i] + cleared
    ensures AlphaCleared(next[i + channels..], channels, threshold) == after
    ensures AlphaCleared(cur[i..], channels, threshold) == cleared + after
  {
    StepParts(cur, i, channels, threshold, next, cleared);
    SpecSplit(cur, i, channels, threshold);
  }

  /** One turn clears the pixel at `i` and leaves the bytes after it as they were. */
  lemma StepParts(cur: seq<Byte>, i: nat, channels: nat, threshold: int, next: seq<Byte>, cleared: seq<Byte>)
    requires channels >= 4 && i + channels < |cur|
    requires next == Step(cur, i, threshold)
    requires cleared == ClearPixel(cur[i..i + channels], threshold)
    ensures next[..i + channels] == cur[..i] + cleared
    ensures next[i + channels..] == cur[i + channels..]
  {
    StepShape(cur, i, channels, threshold);
  }

  /** The spec from a whole pixel at `i` on: that pixel cleared, then the rest. */
  lemma SpecSplit(cur: seq<Byte>, i: nat, channels: nat, threshold: int)
    requires channels >= 4 && i + channels < |cur|
    ensures AlphaCleared(cur[i..], channels, threshold)
      == ClearPixel(cur[i..i + channels], threshold) + AlphaCleared(cur[i + channels..], channels, threshold)
  {
    AlphaClearedFrom(cur, i, channels, threshold);
    assert Min(channels, |cur| - i) == channels;
  }

  lemma Reassemble<T>(rest: seq<T>, done: seq<T>, after: seq<T>, pre: seq<T>, cleared: seq<T>, full: seq<T>)
    requires rest == done + after && done == pre + cleared && full == cleared + after
    ensures rest == pre + full
  {
  }

  /** The pixels from offset `i` on: the pixel at `i`, then the pixels after it. */
  lemma AlphaClearedFrom(s: seq<Byte>, i: nat, channels: nat, threshold: int)
    requires channels >= 4 && i < |s|
    ensures var m := Min(channels, |s| - i);
      AlphaCleared(s[i..], channels, threshold)
        == ClearPixel(s[i..i + m], threshold) + AlphaCleared(s[i + m..], channels, threshold)
  {
    var m := Min(channels, |s| - i);
    var rest := s[i..];
    assert rest[..m] == s[i..i + m];
    assert rest[m..] == s[i + m..];
    if |rest| <= channels {
      assert rest == s[i..i + m];
      assert s[i + m..] == [];
    }
  }

  /** The loop keeps the buffer's length and splits it into whole pixels from the front. */
  lemma {:induction false} AlphaClearedSplit(p: seq<Byte>, rest: seq<Byte>, channels: nat, threshold: int)
    requires channels >= 4 && |p| == channels
    ensures |AlphaCleared(p + rest, channels, threshold)| == |p| + |rest|
    ensures AlphaCleared(p + rest, channels, threshold) == ClearPixel(p, threshold) + AlphaCleared(rest, channels, threshold)
  {
    var s := p + rest;
    assert s[..channels] == p && s[channels..] == rest;
    if rest == [] {
      assert s == p;
    }
  }

  /** On four channels: the byte at offset 3 of a qualifying pixel becomes 0, every other byte is kept. */
  lemma {:induction false} AlphaClearedAt(s: seq<Byte>, threshold: int, k: nat)
    requires k < |s|
    ensures |AlphaCleared(s, 4, threshold)| == |s|
    ensures AlphaCleared(s, 4, threshold)[k] == if k % 4 == 3 && Qualifies(s, k - 3, threshold) then 0 else s[k]
    decreases |s|
  {
    if |s| > 4 {
      if k < 4 {
        assert AlphaCleared(s, 4, threshold)[k] == ClearPixel(s[..4], threshold)[k];
        assert Qualifies(s[..4], 0, threshold) == Qualifies(s, 0, threshold);
      } else {
        AlphaClearedAt(s[4..], threshold, k - 4);
        assert AlphaCleared(s, 4, threshold)[k] == AlphaCleared(s[4..], 4, threshold)[k - 4];
        assert k - 4 - 3 >= 0 ==> Qualifies(s[4..], k - 4 - 3, threshold) == Qualifies(s, k - 3, threshold);
      }
    }
  }

  /** Running the loop a second time changes nothing: it reads only colour bytes, which the first run kept. */
  lemma {:induction false} AlphaClearedIdempotent(s: seq<Byte>, channels: nat, threshold: int)
    requires channels >= 4
    ensures AlphaCleared(AlphaCleared(s, channels, threshold), channels, threshold) == AlphaCleared(s, channels, threshold)
    decreases |s|
  {
    var once := AlphaCleared(s, channels, threshold);
    if |s| <= channels {
      assert Qualifies(once, 0, threshold) == Qualifies(s, 0, threshold);
    } else {
      var p, rest := s[..channels], s[channels..];
      var q := ClearPixel(p, threshold);
      assert Qualifies(q, 0, threshold) == Qualifies(p, 0, threshold);
      AlphaClearedIdempotent(rest, channels, threshold);
      AlphaClearedSplit(q, AlphaCleared(rest, channels, threshold), channels, threshold);
    }
  }

  /** The pixel at index `j` of a four-channel buffer. */
  function PixelAt(s: seq<Byte>, j: nat): Pixel
    requires 4 * j + 4 <= |s|
  {
    Pixel(s[4 * j], s[4 * j + 1], s[4 * j + 2], s[4 * j + 3])
  }

  /** On a four-channel buffer a pixel is cleared under the same condition as in the Python
      script and gets the same alpha, but keeps its colour where the Python script writes black. */
  lemma AgreesWithPythonOnAlpha(s: seq<Byte>, threshold: int, j: nat)
    requires 4 * j + 4 <= |s|
    ensures var p := PixelAt(s, j);
      var q := PixelAt(AlphaCleared(s, 4, threshold), j);
      q == (if IsBlack(p, threshold) then p.(a := 0) else p)
      && q.a == Cleared(p, threshold).a
      && (q == Cleared(p, threshold) <==> !IsBlack(p, threshold) || (p.r == 0 && p.g == 0 && p.b == 0))
  {
    var k := 4 * j;
    var r := AlphaCleared(s, 4, threshold);
    PixelBytes(s, threshold, k);
    assert PixelAt(r, j) == Pixel(s[k], s[k + 1], s[k + 2], if Qualifies(s, k, threshold) then 0 else s[k + 3]);
    assert Qualifies(s, k, threshold) <==> IsBlack(PixelAt(s, j), threshold);
  }

  /** The four bytes of the pixel at offset `k`: the colour kept, the alpha cleared when the colour qualifies. */
  lemma PixelBytes(s: seq<Byte>, threshold: int, k: nat)
    requires k % 4 == 0 && k + 4 <= |s|
    ensures var r := AlphaCleared(s, 4, threshold);
      |r| == |s| && r[k] == s[k] && r[k + 1] == s[k + 1] && r[k + 2] == s[k + 2]
      && r[k + 3] == if Qualifies(s, k, threshold) then 0 else s[k + 3]
  {
    assert (k + 1) % 4 == 1 && (k + 2) % 4 == 2 && (k + 3) % 4 == 3;
    AlphaClearedAt(s, threshold, k);
    AlphaClearedAt(s, threshold, k + 1);
    AlphaClearedAt(s, threshold, k + 2);
    AlphaClearedAt(s, threshold, k + 3);
  }

  /** How `main` ends: like the Python script, but an icon set without `.png` files also
      exits with 1. `pathExists` stands for `fs.existsSync`, `listing` for `readdirSync`,
      which throws (`None`) when the path is not a directory; `main().catch` then exits with 1. */
  method ProcessIconset(pathExists: bool, listing: Option<seq<string>>) returns (outcome: Exit, converted: seq<string>)
    ensures !pathExists || listing.None? ==> outcome == Exited(1) && converted == []
    ensures pathExists && listing.Some? && Filter(listing.value, IsPng) == [] ==> outcome == Exited(1) && converted == []
    ensures pathExists && listing.Some? && Filter(listing.value, IsPng) != [] ==>
      converted == Filter(listing.value, IsPng) && outcome == Finished(|converted|)
  {
    if !pathExists || listing.None? {
      return Exited(1), [];
    }
    var files := Filter(listing.value, IsPng);
    if |files| == 0 {
      return Exited(1), [];
    }
    var processed := 0;
    converted := [];
    for i := 0 to |files|
      invariant converted == files[..i] && processed == i
    {
      converted := converted + [files[i]];
      processed := processed + 1;
    }
    assert files[..|files|] == files;
    outcome := Finished(processed);
  }

  /** Every name the script processes ends in `.png`, and every `.png` entry is processed. */
  lemma OnlyPngProcessed(entries: seq<string>, name: string)
    ensures name in Filter(entries, IsPng) <==> name in entries && EndsWith(name, ".png")
  {
    FilterMember(entries, IsPng, name);
  }
}
