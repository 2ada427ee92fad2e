/**
 * The timestamp helpers of the time tool: zero-padding, the fixed
 * `YYYY-MM-DD HH:MM:SS` layout over the fields of a date, and the input
 * checks of the two conversions. Number parsing and the calendar (`Number`,
 * `new Date`) are parameters.
 */
module Time {
  import opened JsStrings
  import opened Wrappers

  predicate AllDigits(s: string) {
    forall i :: 0 <= i < |s| ==> IsDigit(s[i])
  }

  /** `pad(num)`: a leading `0` below ten, the plain decimal otherwise. */
  function Pad(n: nat): (r: string)
    ensures |r| >= 2 && AllDigits(r) && DecimalValue(r) == n
    ensures n < 100 ==> |r| == 2
    ensures n < 10 ==> r[0] == '0'
  {
    if n < 10 then
      var r := ['0', DigitChar(n)];
      assert r[..1] == ['0'] && ['0'][..0] == [];
      r
    else NatToDecimal(n)
  }

  /** What `getFullYear`, `getMonth` (zero-based), `getDate`, `getHours`,
      `getMinutes` and `getSeconds` return. */
  datatype DateFields = DateFields(year: int, month: nat, day: nat, hours: nat, minutes: nat, seconds: nat)

  predicate ValidFields(d: DateFields) {
    d.month < 12 && 1 <= d.day <= 31 && d.hours < 24 && d.minutes < 60 && d.seconds < 60
  }

  /** Everything after the year: `-MM-DD HH:MM:SS`, the month shown one-based. */
  function Tail(d: DateFields): string {
    "-" + Pad(d.month + 1) + "-" + Pad(d.day) + " " + Pad(d.hours) + ":" + Pad(d.minutes) + ":" + Pad(d.seconds)
  }

  /** `formatDate(d)`. The layout loses nothing: a valid date with a
      non-negative year is read back from it unchanged. */
  function FormatDate(d: DateFields): (r: string)
    ensures ValidFields(d) && d.year >= 0 ==> ParseFormatted(r) == Some(d)
  {
    assert ValidFields(d) && d.year >= 0 ==> ParseFormatted(IntToDecimal(d.year) + Tail(d)) == Some(d) by {
      if ValidFields(d) && d.year >= 0 { LayoutReadsBack(d); }
    }
    IntToDecimal(d.year) + Tail(d)
  }

  /** Two decimal digits at `i`. */
  function TwoDigits(s: string, i: nat): Option<nat>
    requires i + 2 <= |s|
  {
    if AllDigits(s[i..i + 2]) then Some(DecimalValue(s[i..i + 2])) else None
  }

  /** Reads the layout back: a year of digits, then the fixed fifteen characters. */
  function ParseFormatted(s: string): Option<DateFields> {
    if |s| < 16 then None
    else
      var k := |s| - 15;
      var year, t := s[..k], s[k..];
      if !AllDigits(year) || t[0] != '-' || t[3] != '-' || t[6] != ' ' || t[9] != ':' || t[12] != ':' then None
      else
        match (TwoDigits(t, 1), TwoDigits(t, 4), TwoDigits(t, 7), TwoDigits(t, 10), TwoDigits(t, 13))
        case (Some(mm), Some(dd), Some(hh), Some(mi), Some(ss)) =>
          if mm == 0 then None else Some(DateFields(DecimalValue(year), mm - 1, dd, hh, mi, ss))
        case _ => None
  }

  /** The tail has its separators at fixed places and a two-digit field between them. */
  lemma TailLayout(d: DateFields)
    requires ValidFields(d)
    ensures var t := Tail(d);
      |t| == 15 && t[0] == '-' && t[3] == '-' && t[6] == ' ' && t[9] == ':' && t[12] == ':'
      && t[1..3] == Pad(d.month + 1) && t[4..6] == Pad(d.day) && t[7..9] == Pad(d.hours)
      && t[10..12] == Pad(d.minutes) && t[13..15] == Pad(d.seconds)
  {
    Layout(Pad(d.month + 1), Pad(d.day), Pad(d.hours), Pad(d.minutes), Pad(d.seconds));
  }

  /** Five two-character fields joined by the separators of the date layout. */
  lemma Layout(m: string, dd: string, h: string, mi: string, s: string)
    requires |m| == 2 && |dd| == 2 && |h| == 2 && |mi| == 2 && |s| == 2
    ensures var t := "-" + m + "-" + dd + " " + h + ":" + mi + ":" + s;
      |t| == 15 && t[0] == '-' && t[3] == '-' && t[6] == ' ' && t[9] == ':' && t[12] == ':'
      && t[1..3] == m && t[4..6] == dd && t[7..9] == h && t[10..12] == mi && t[13..15] == s
  {
    var t := "-" + m + "-" + dd + " " + h + ":" + mi + ":" + s;
    var l := ['-', m[0], m[1], '-', dd[0], dd[1], ' ', h[0], h[1], ':', mi[0], mi[1], ':', s[0], s[1]];
    LayoutIsLiteral(m, dd, h, mi, s);
    assert t == l;
    assert m == [m[0], m[1]];
    assert dd == [dd[0], dd[1]];
    assert h == [h[0], h[1]];
    assert mi == [mi[0], mi[1]];
    assert s == [s[0], s[1]];
    assert l[1..3] == [m[0], m[1]];
    assert l[4..6] == [dd[0], dd[1]];
    assert l[7..9] == [h[0], h[1]];
    assert l[10..12] == [mi[0], mi[1]];
    assert l[13..15] == [s[0], s[1]];
  }

  /** The concatenation of the layout, written out character by character. */
  lemma LayoutIsLiteral(m: string, dd: string, h: string, mi: string, s: string)
    requires |m| == 2 && |dd| == 2 && |h| == 2 && |mi| == 2 && |s| == 2
    ensures "-" + m + "-" + dd + " " + h + ":" + mi + ":" + s
      == ['-', m[0], m[1], '-', dd[0], dd[1], ' ', h[0], h[1], ':', mi[0], mi[1], ':', s[0], s[1]]
  {
    var t1 := "-" + m;
    assert t1 == ['-', m[0], m[1]];
    var t2 := t1 + "-" + dd;
    assert t2 == ['-', m[0], m[1], '-', dd[0], dd[1]];
    var t3 := t2 + " " + h;
    assert t3 == ['-', m[0], m[1], '-', dd[0], dd[1], ' ', h[0], h[1]];
    var t4 := t3 + ":" + mi;
    assert t4 == ['-', m[0], m[1], '-', dd[0], dd[1], ' ', h[0], h[1], ':', mi[0], mi[1]];
    var t := t4 + ":" + s;
    assert t == ['-', m[0], m[1], '-', dd[0], dd[1], ' ', h[0], h[1], ':', mi[0], mi[1], ':', s[0], s[1]];
  }

  /** The decimal year followed by the tail of a valid date reads back as that date. */
  lemma LayoutReadsBack(d: DateFields)
    requires ValidFields(d) && d.year >= 0
    ensures ParseFormatted(IntToDecimal(d.year) + Tail(d)) == Some(d)
  {
    var y := IntToDecimal(d.year);
    var s := y + Tail(d);
    TailLayout(d);
    assert s[..|y|] == y && s[|y|..] == Tail(d);
    assert y == NatToDecimal(d.year);
  }

  /** `timestampToLocalString(input)`. `toNumber` stands for `Number`, with
      `None` for `NaN`; `toDate` for `new Date(ts)` read through the getters,
      with `None` for an invalid date. */
  function TimestampToLocalString(input: string, toNumber: string -> Option<real>, toDate: real -> Option<DateFields>): (r: Result<string, string>)
    ensures input == [] ==> r == Failure("请输入时间戳")
    ensures input != [] && toNumber(Trim(input)).None? ==> r == Failure("时间戳格式错误")
  {
    if input == [] then Failure("请输入时间戳")
    else
      match toNumber(Trim(input))
      case None => Failure("时间戳格式错误")
      case Some(v) =>
        ShowDate(Milliseconds(Trim(input), v), toDate)
  }

  /** A ten-character number counts seconds, any other milliseconds. */
  function Milliseconds(trimmed: string, v: real): (ms: real)
    ensures |trimmed| == 10 ==> ms == v * 1000.0
    ensures |trimmed| != 10 ==> ms == v
  {
    if |trimmed| == 10 then v * 1000.0 else v
  }

  /** `new Date(ts)`, checked and formatted. */
  function ShowDate(ts: real, toDate: real -> Option<DateFields>): (r: Result<string, string>)
    ensures r.Success? <==> toDate(ts).Some?
    ensures r.Success? ==> r.value == FormatDate(toDate(ts).value)
  {
    match toDate(ts)
    case None => Failure("无法解析时间戳")
    case Some(d) => Success(FormatDate(d))
  }

  /** A ten-character input counts seconds: it shows the same date as the
      input of another length whose number is a thousand times larger. */
  lemma SecondsRule(seconds: string, millis: string, toNumber: string -> Option<real>, toDate: real -> Option<DateFields>, v: real)
    requires seconds != [] && millis != []
    requires |Trim(seconds)| == 10 && |Trim(millis)| != 10
    requires toNumber(Trim(seconds)) == Some(v) && toNumber(Trim(millis)) == Some(v * 1000.0)
    ensures TimestampToLocalString(seconds, toNumber, toDate) == TimestampToLocalString(millis, toNumber, toDate)
  {
    assert TimestampToLocalString(seconds, toNumber, toDate) == ShowDate(v * 1000.0, toDate);
    assert TimestampToLocalString(millis, toNumber, toDate) == ShowDate(v * 1000.0, toDate);
  }

  /** The date shown for a number that is not ten characters long is the date of that number of milliseconds. */
  lemma MillisecondsRule(input: string, toNumber: string -> Option<real>, toDate: real -> Option<DateFields>, v: real, d: DateFields)
    requires input != [] && |Trim(input)| != 10
    requires toNumber(Trim(input)) == Some(v) && toDate(v) == Some(d)
    ensures TimestampToLocalString(input, toNumber, toDate) == Success(FormatDate(d))
  {
  }

  /** `dateStringToTimestamp(input)`. `parseDate` stands for `new Date(input).getTime()`, with `None` for `NaN`. */
  function DateStringToTimestamp(input: string, parseDate: string -> Option<int>): (r: Result<int, string>)
    ensures input == [] ==> r == Failure("请输入日期时间")
    ensures input != [] ==> (r.Success? <==> parseDate(input).Some?)
    ensures r.Success? ==> r.value == parseDate(input).value
  {
    if input == [] then Failure("请输入日期时间")
    else
      match parseDate(input)
      case None => Failure("日期格式错误，请使用例如 2025-12-08 12:30:00")
      case Some(ms) => Success(ms)
  }
}
