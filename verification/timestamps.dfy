/**
 The `creationTime` parser of a remote photo: `strptime` with the format
 `%Y-%m-%dT%H:%M:%SZ`, falling back to `%Y-%m-%dT%H:%M:%S.%fZ`.

 Both shapes are modelled at fixed width (four-digit year, two-digit fields,
 six fraction digits). The literal `T` and `Z` match in either case, as
 `strptime` matches its format case-insensitively.
 */
module Timestamps {
  import opened Outcomes
  import opened DateTimes

  predicate IsDigit(c: char) {
    '0' <= c <= '9'
  }

  predicate AllDigits(s: string) {
    forall i :: 0 <= i < |s| ==> IsDigit(s[i])
  }

  function Pow10(n: nat): (p: nat)
    ensures p >= 1
  {
    if n == 0 then 1 else 10 * Pow10(n - 1)
  }

  /** The decimal value of a string of digits. */
  function Number(s: string): nat
    requires AllDigits(s)
  {
    if |s| == 0 then 0
    else Number(s[..|s| - 1]) * 10 + ((s[|s| - 1] as int) - ('0' as int))
  }

  /** `n` written in exactly `width` digits, zero-padded on the left. */
  function Digits(n: nat, width: nat): (s: string)
    ensures |s| == width && AllDigits(s)
  {
    if width == 0 then ""
    else Digits(n / 10, width - 1) + [(('0' as int) + n % 10) as char]
  }

  /** Reading back a zero-padded rendering gives the number again. */
  lemma {:induction false} NumberOfDigits(n: nat, width: nat)
    requires n < Pow10(width)
    ensures Number(Digits(n, width)) == n
  {
    if width > 0 {
      var s := Digits(n, width);
      var q, d := n / 10, n % 10;
      assert n == q * 10 + d;
      assert q < Pow10(width - 1);
      assert s[..|s| - 1] == Digits(q, width - 1);
      assert (s[|s| - 1] as int) - ('0' as int) == d;
      NumberOfDigits(q, width - 1);
      assert Number(s) == Number(Digits(q, width - 1)) * 10 + d;
    }
  }

  /** Rendering the value of a digit string at its own width gives the string back. */
  lemma {:induction false} DigitsOfNumber(s: string)
    requires AllDigits(s)
    ensures Number(s) < Pow10(|s|)
    ensures Digits(Number(s), |s|) == s
  {
    if |s| > 0 {
      var init := s[..|s| - 1];
      DigitsOfNumber(init);
      var d := (s[|s| - 1] as int) - ('0' as int);
      assert Number(s) / 10 == Number(init) && Number(s) % 10 == d;
    }
  }

  predicate IsT(c: char) {
    c == 'T' || c == 't'
  }

  predicate IsZ(c: char) {
    c == 'Z' || c == 'z'
  }

  /** `YYYY-MM-DDThh:mm:ss`, the 19-character stamp both accepted shapes begin with. */
  predicate IsStamp(p: string) {
    && |p| == 19
    && AllDigits(p[0..4]) && p[4] == '-'
    && AllDigits(p[5..7]) && p[7] == '-'
    && AllDigits(p[8..10]) && IsT(p[10])
    && AllDigits(p[11..13]) && p[13] == ':'
    && AllDigits(p[14..16]) && p[16] == ':'
    && AllDigits(p[17..19])
  }

  /** `YYYY-MM-DDThh:mm:ssZ` */
  predicate WholeShape(s: string) {
    |s| == 20 && IsStamp(s[..19]) && IsZ(s[19])
  }

  /** `YYYY-MM-DDThh:mm:ss.ffffffZ` */
  predicate FractionShape(s: string) {
    |s| == 27 && IsStamp(s[..19]) && s[19] == '.' && AllDigits(s[20..26]) && IsZ(s[26])
  }

  /** The datetime a stamp spells, before the constructor's range checks. */
  function FieldsOf(p: string, micro: int): Fields
    requires IsStamp(p)
  {
    Fields(Number(p[0..4]), Number(p[5..7]), Number(p[8..10]),
           Number(p[11..13]), Number(p[14..16]), Number(p[17..19]), micro)
  }

  /** `strptime(s, '%Y-%m-%dT%H:%M:%SZ')`; None where it raises ValueError. */
  function ParseWhole(s: string): (r: Option<DateTime>)
    ensures r.Some? ==> WholeShape(s) && r.value.micro == 0
  {
    if WholeShape(s) && Valid(FieldsOf(s[..19], 0)) then Some(FieldsOf(s[..19], 0)) else None
  }

  /** `strptime(s, '%Y-%m-%dT%H:%M:%S.%fZ')`; None where it raises ValueError. */
  function ParseFraction(s: string): (r: Option<DateTime>)
    ensures r.Some? ==> FractionShape(s)
  {
    if FractionShape(s) && Valid(FieldsOf(s[..19], Number(s[20..26])))
    then Some(FieldsOf(s[..19], Number(s[20..26])))
    else None
  }

  /** The unparsable timestamp, surfaced rather than dropped. */
  datatype ParseError = ParseError(text: string)

  /** `GooglePhoto.date`: the whole-second format first, then the fractional one. */
  function ParseCreationTime(s: string): (r: Result<DateTime, ParseError>)
    ensures r.Err? <==> ParseWhole(s).None? && ParseFraction(s).None?
    ensures r.Err? ==> r.error.text == s
    ensures r.Ok? ==> WholeShape(s) || FractionShape(s)
    ensures r.Ok? ==> SpellsIn(s, r.value)
  {
    match ParseWhole(s)
    case Some(d) =>
      WholeAcceptsOnlyRenderings(s);
      Ok(d)
    case None =>
      match ParseFraction(s)
      case Some(d) =>
        FractionAcceptsOnlyRenderings(s);
        Ok(d)
      case None => Err(ParseError(s))
  }

  /**
   `s` is `d` rendered in one of the two shapes, whatever its date/time
   separator and zone letter; the whole-second shape carries no microseconds.
   */
  predicate SpellsIn(s: string, d: DateTime) {
    || (|s| == 20 && s == RenderWhole(d, s[10], s[19]) && d.micro == 0)
    || (|s| == 27 && s == RenderFraction(d, s[10], s[26]))
  }

  /** `YYYY-MM-DD` */
  function RenderDate(d: DateTime): string {
    Digits(d.year, 4) + "-" + Digits(d.month, 2) + "-" + Digits(d.day, 2)
  }

  /** `hh:mm:ss` */
  function RenderTime(d: DateTime): string {
    Digits(d.hour, 2) + ":" + Digits(d.minute, 2) + ":" + Digits(d.second, 2)
  }

  /** `d` rendered as the shared stamp, with the given date/time separator. */
  function RenderStamp(d: DateTime, t: char): string {
    RenderDate(d) + [t] + RenderTime(d)
  }

  /** `d` rendered in the whole-second shape, with the given zone letter. */
  function RenderWhole(d: DateTime, t: char, z: char): string {
    RenderStamp(d, t) + [z]
  }

  /** `d` rendered in the fractional-second shape. */
  function RenderFraction(d: DateTime, t: char, z: char): string {
    RenderStamp(d, t) + "." + Digits(d.micro, 6) + [z]
  }

  /** The two shapes have different lengths, so no string has both. */
  lemma ShapesAreDisjoint(s: string)
    ensures !(WholeShape(s) && FractionShape(s))
    ensures ParseWhole(s).Some? ==> ParseFraction(s).None?
  {
  }

  /** Three pieces joined by two separators sit at fixed offsets. */
  lemma Joined(a: string, x: char, b: string, y: char, c: string)
    ensures var j := a + [x] + b + [y] + c;
      && |j| == |a| + |b| + |c| + 2
      && j[..|a|] == a && j[|a|] == x
      && j[|a| + 1..|a| + 1 + |b|] == b && j[|a| + 1 + |b|] == y
      && j[|a| + 2 + |b|..] == c
  {
  }

  /** The pieces of a rendered stamp sit at the stamp's fixed offsets. */
  lemma StampPieces(d: DateTime, t: char)
    ensures var p := RenderStamp(d, t);
      && |p| == 19 && p[10] == t
      && p[0..4] == Digits(d.year, 4) && p[5..7] == Digits(d.month, 2)
      && p[8..10] == Digits(d.day, 2) && p[11..13] == Digits(d.hour, 2)
      && p[14..16] == Digits(d.minute, 2) && p[17..19] == Digits(d.second, 2)
      && p[4] == '-' && p[7] == '-' && p[13] == ':' && p[16] == ':'
  {
    var date, time := RenderDate(d), RenderTime(d);
    Joined(Digits(d.year, 4), '-', Digits(d.month, 2), '-', Digits(d.day, 2));
    Joined(Digits(d.hour, 2), ':', Digits(d.minute, 2), ':', Digits(d.second, 2));
    var p := RenderStamp(d, t);
    assert p[..10] == date && p[11..] == time;
    assert p[0..4] == date[..4] && p[5..7] == date[5..7] && p[8..10] == date[8..];
    assert p[11..13] == time[..2] && p[14..16] == time[3..5] && p[17..19] == time[6..];
  }

  /** The stamp of a rendering spells the rendered datetime. */
  lemma RenderedStamp(d: DateTime, t: char)
    requires IsT(t)
    ensures IsStamp(RenderStamp(d, t)) && FieldsOf(RenderStamp(d, t), d.micro) == d
  {
    StampPieces(d, t);
    NumberOfDigits(d.year, 4);
    NumberOfDigits(d.month, 2);
    NumberOfDigits(d.day, 2);
    NumberOfDigits(d.hour, 2);
    NumberOfDigits(d.minute, 2);
    NumberOfDigits(d.second, 2);
  }

  /** Every datetime with no microseconds survives a trip through the first shape. */
  lemma WholeRoundTrip(d: DateTime)
    requires d.micro == 0
    ensures ParseCreationTime(RenderWhole(d, 'T', 'Z')) == Ok(d)
  {
    RenderedStamp(d, 'T');
    assert RenderWhole(d, 'T', 'Z')[..19] == RenderStamp(d, 'T');
  }

  /** Every datetime survives a trip through the fractional shape. */
  lemma FractionRoundTrip(d: DateTime)
    ensures ParseCreationTime(RenderFraction(d, 'T', 'Z')) == Ok(d)
  {
    RenderedStamp(d, 'T');
    var s := RenderFraction(d, 'T', 'Z');
    assert |s| == 27 && s[19] == '.' && s[26] == 'Z';
    assert s[..19] == RenderStamp(d, 'T');
    assert s[20..26] == Digits(d.micro, 6);
    NumberOfDigits(d.micro, 6);
    assert FractionShape(s);
    assert FieldsOf(s[..19], Number(s[20..26])) == d;
    assert ParseWhole(s) == None;
  }

  /** A string is its prefix, the character at `i`, and the rest. */
  lemma SplitAt(x: string, i: nat)
    requires i < |x|
    ensures x == x[..i] + [x[i]] + x[i + 1..]
  {
  }

  /** A stamp is the rendering of the datetime it spells. */
  lemma StampIsRendering(p: string, micro: int)
    requires IsStamp(p) && Valid(FieldsOf(p, micro))
    ensures p == RenderStamp(FieldsOf(p, micro), p[10])
  {
    var d: DateTime := FieldsOf(p, micro);
    DigitsOfNumber(p[0..4]);
    DigitsOfNumber(p[5..7]);
    DigitsOfNumber(p[8..10]);
    DigitsOfNumber(p[11..13]);
    DigitsOfNumber(p[14..16]);
    DigitsOfNumber(p[17..19]);
    var date, time := p[..10], p[11..];
    SplitAt(p, 10);
    SplitAt(date, 4);
    SplitAt(date[5..], 2);
    assert date == p[0..4] + "-" + p[5..7] + "-" + p[8..10];
    SplitAt(time, 2);
    SplitAt(time[3..], 2);
    assert time == p[11..13] + ":" + p[14..16] + ":" + p[17..19];
  }

  /** The first shape accepts nothing but renderings of the datetime it returns. */
  lemma WholeAcceptsOnlyRenderings(s: string)
    requires ParseWhole(s).Some?
    ensures |s| == 20 && s == RenderWhole(ParseWhole(s).value, s[10], s[19])
  {
    StampIsRendering(s[..19], 0);
    assert s == s[..19] + [s[19]];
  }

  /** The fractional shape accepts nothing but renderings of the datetime it returns. */
  lemma FractionAcceptsOnlyRenderings(s: string)
    requires ParseFraction(s).Some?
    ensures |s| == 27 && s == RenderFraction(ParseFraction(s).value, s[10], s[26])
  {
    var d := ParseFraction(s).value;
    StampIsRendering(s[..19], d.micro);
    DigitsOfNumber(s[20..26]);
    assert s == s[..19] + [s[19]] + s[20..26] + [s[26]];
  }
}
