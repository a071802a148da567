/** Range headers: which byte range a `Range` header asks for (section 14.1.2 of RFC 9110). */
module Ranges {
  import opened Bytes
  import opened Results

  datatype ByteRange = ByteRange(start: int, end: int) {
    function Length(): int {
      if start < 0 || end < start then 0 else end - start + 1
    }
  }

  const COMMA: byte := 0x2C
  const MINUS: byte := 0x2D
  const PLUS: byte := 0x2B
  const MAX_INT64: int := 0x7FFF_FFFF_FFFF_FFFF

  const BYTES_UNIT: Str := Ascii("bytes=")

  // ---------------------------------------------------------------------------------------------
  // strconv.ParseInt(s, 10, 64)
  // ---------------------------------------------------------------------------------------------

  predicate IsDigit(c: byte) {
    0x30 <= c <= 0x39
  }

  predicate AllDigits(s: Str) {
    forall i | 0 <= i < |s| :: IsDigit(s[i])
  }

  function DigitsValue(s: Str): nat
    requires AllDigits(s)
  {
    if |s| == 0 then 0 else 10 * DigitsValue(s[..|s| - 1]) + (s[|s| - 1] - 0x30)
  }

  /** An optional sign and at least one digit, within 64 bits. */
  function ParseInt(s: Str): (n: Option<int>)
    ensures n.Some? ==> -MAX_INT64 - 1 <= n.value <= MAX_INT64
  {
    var signed := |s| > 0 && (s[0] == MINUS || s[0] == PLUS);
    var digits := if signed then s[1..] else s;
    if |digits| == 0 || !AllDigits(digits) then None else
      var value: int := if signed && s[0] == MINUS then -(DigitsValue(digits) as int) else DigitsValue(digits);
      if -MAX_INT64 - 1 <= value <= MAX_INT64 then Some(value) else None
  }

  // ---------------------------------------------------------------------------------------------
  // ParseRange
  // ---------------------------------------------------------------------------------------------

  /** The range that the texts before and behind the dash ask for. */
  function RangeOfParts(first: Str, last: Str, size: int): Result<ByteRange>
    requires size > 0
  {
    if first == [] then
      match ParseInt(last)
      case None => Err(InvalidRange)
      case Some(suffix) =>
        if suffix <= 0 then Err(InvalidRange) else
          Ok(ByteRange(size - (if suffix > size then size else suffix), size - 1))
    else
      match ParseInt(first)
      case None => Err(InvalidRange)
      case Some(start) =>
        if start < 0 || start >= size then Err(InvalidRange)
        else if last == [] then Ok(ByteRange(start, size - 1))
        else
          match ParseInt(last)
          case None => Err(InvalidRange)
          case Some(end) =>
            if end < start then Err(InvalidRange)
            else Ok(ByteRange(start, if end >= size then size - 1 else end))
  }

  function ParseRange(header: Str, size: int): Result<ByteRange> {
    if size <= 0 then Err(InvalidRange)
    else if header == [] then Ok(ByteRange(0, size - 1))
    else if !(BYTES_UNIT <= header) then Err(InvalidRange)
    else
      var spec := header[|BYTES_UNIT|..];
      if spec == [] || COMMA in spec then Err(InvalidRange)
      else
        var dash := Index(spec, [MINUS]);
        if dash < 0 then Err(InvalidRange) else RangeOfParts(spec[..dash], spec[dash + 1..], size)
  }

  lemma PartsInBounds(first: Str, last: Str, size: int)
    requires size > 0 && RangeOfParts(first, last, size).Ok?
    ensures var r := RangeOfParts(first, last, size).value; 0 <= r.start <= r.end < size
  {
    hide ParseInt;
  }

  /** Whatever the header says, an accepted range lies within the object. */
  lemma AcceptedInBounds(header: Str, size: int)
    requires ParseRange(header, size).Ok?
    ensures var r := ParseRange(header, size).value;
      0 <= r.start <= r.end < size && r.Length() == r.end - r.start + 1 > 0
  {
    hide RangeOfParts, Index;
    if header != [] {
      var spec := header[|BYTES_UNIT|..];
      var dash := Index(spec, [MINUS]);
      PartsInBounds(spec[..dash], spec[dash + 1..], size);
    }
  }

  /** The header with these texts around its dash. */
  function Header(first: Str, last: Str): Str {
    BYTES_UNIT + first + [MINUS] + last
  }

  /** Without a header the whole object is meant; another unit, several ranges or no dash are refused. */
  lemma OtherHeaders(header: Str, size: int)
    ensures ParseRange([], size) == if size > 0 then Ok(ByteRange(0, size - 1)) else Err(InvalidRange)
    ensures header != []
            && (size <= 0 || !(Ascii("bytes=") <= header) || ',' as int in header || '-' as int !in header) ==>
      ParseRange(header, size) == Err(InvalidRange)
  {
    hide RangeOfParts, Index;
    if size > 0 && Ascii("bytes=") <= header {
      var spec := header[|BYTES_UNIT|..];
      assert header == BYTES_UNIT + spec && COMMA !in BYTES_UNIT;
      assert forall c | c in spec :: c in header;
      assert forall c | c in header :: c in BYTES_UNIT || c in spec;
      if Index(spec, [MINUS]) >= 0 {
        FirstSeparator(spec, MINUS);
      }
    }
  }

  lemma HeaderText(first: Str, last: Str)
    ensures Header(first, last) == Ascii("bytes=") + first + Ascii("-") + last
  {
    assert Ascii("-") == [MINUS];
  }

  /** Only a header of this form is accepted, and it means what its two texts say. */
  lemma ParseHeader(first: Str, last: Str, size: int)
    requires size > 0 && MINUS !in first && COMMA !in first && COMMA !in last
    ensures ParseRange(Header(first, last), size) == RangeOfParts(first, last, size)
  {
    hide RangeOfParts, Index;
    var spec := first + [MINUS] + last;
    assert Header(first, last) == BYTES_UNIT + spec;
    assert Header(first, last)[|BYTES_UNIT|..] == spec;
    FirstByteIndex(first, MINUS, last);
    assert spec[..|first|] == first && spec[|first| + 1..] == last;
  }

  /** An accepted header has the unit and two texts around its first dash, without a comma. */
  lemma AcceptedForm(header: Str, size: int) returns (first: Str, last: Str)
    requires header != [] && ParseRange(header, size).Ok?
    ensures header == Header(first, last) && MINUS !in first && COMMA !in first && COMMA !in last
  {
    hide RangeOfParts, Index;
    var spec := header[|BYTES_UNIT|..];
    var dash := Index(spec, [MINUS]);
    DashSplits(spec);
    first, last := spec[..dash], spec[dash + 1..];
    assert header == BYTES_UNIT + spec;
    NoDashBefore(spec, dash);
  }

  lemma NoDashBefore(spec: Str, dash: nat)
    requires Index(spec, [MINUS]) == dash && dash <= |spec|
    ensures MINUS !in spec[..dash]
  {
    IndexFromIsFirst(spec, [MINUS], 0, dash);
    forall j | 0 <= j < dash ensures spec[j] != MINUS {
      assert !OccursAt(spec, [MINUS], j);
      assert j < |spec| ==> spec[j..j + 1] == [spec[j]];
    }
  }

  lemma DashSplits(spec: Str)
    requires Index(spec, [MINUS]) >= 0
    ensures var dash := Index(spec, [MINUS]); spec == spec[..dash] + [MINUS] + spec[dash + 1..]
  {
    var dash := Index(spec, [MINUS]);
    IndexFromIsFirst(spec, [MINUS], 0, dash);
    assert spec[dash..dash + 1] == [MINUS];
  }

  // ---------------------------------------------------------------------------------------------
  // Printing a range
  // ---------------------------------------------------------------------------------------------

  function Decimal(n: nat): (s: Str)
    ensures |s| > 0 && AllDigits(s)
  {
    if n < 10 then [0x30 + n] else Decimal(n / 10) + [0x30 + n % 10]
  }

  function PowerOfTen(n: nat): nat {
    if n == 0 then 1 else 10 * PowerOfTen(n - 1)
  }

  /** The first digit weighs most. */
  lemma {:induction false} LeadingDigit(d: byte, s: Str)
    requires IsDigit(d) && AllDigits(s)
    ensures AllDigits([d] + s) && DigitsValue([d] + s) == (d - '0' as int) * PowerOfTen(|s|) + DigitsValue(s)
  {
    if |s| == 0 {
      assert ([d] + s)[..0] == [];
    } else {
      var init := s[..|s| - 1];
      LeadingDigit(d, init);
      assert ([d] + s)[..|s|] == [d] + init;
    }
  }

  lemma {:induction false} DecimalValue(n: nat)
    ensures DigitsValue(Decimal(n)) == n
  {
    if n >= 10 {
      DecimalValue(n / 10);
      assert Decimal(n)[..|Decimal(n)| - 1] == Decimal(n / 10);
    } else {
      assert Decimal(n)[..0] == [];
    }
  }

  /** A printed number is read back, unless it does not fit 64 bits. */
  lemma DecimalParses(n: nat)
    ensures ParseInt(Decimal(n)) == if n <= MAX_INT64 then Some(n) else None
    ensures MAX_INT64 == 9223372036854775807
    ensures MINUS !in Decimal(n) && COMMA !in Decimal(n)
  {
    var s := Decimal(n);
    assert IsDigit(s[0]);
    DecimalValue(n);
  }

  /**
   `bytes=s-e`: clipped to the object, and refused exactly when it starts behind the end or runs backwards or its end
   overflows.
   */
  lemma ClosedRange(s: nat, e: nat, size: int)
    requires size <= MAX_INT64
    ensures ParseRange(Header(Decimal(s), Decimal(e)), size) ==
      if s < size && s <= e <= MAX_INT64 then Ok(ByteRange(s, if e < size then e else size - 1)) else Err(InvalidRange)
  {
    hide Decimal, ParseInt, Index;
    DecimalParses(s);
    DecimalParses(e);
    if size > 0 {
      ParseHeader(Decimal(s), Decimal(e), size);
    }
  }

  /** `bytes=s-`: everything from `s`. */
  lemma OpenRange(s: nat, size: int)
    requires size <= MAX_INT64
    ensures ParseRange(Header(Decimal(s), []), size) ==
      if s < size then Ok(ByteRange(s, size - 1)) else Err(InvalidRange)
  {
    hide Decimal, ParseInt, Index;
    DecimalParses(s);
    if size > 0 {
      ParseHeader(Decimal(s), [], size);
    }
  }

  /** `bytes=-n`: the last min(n, size) bytes, refused exactly when n is zero or overflows, or the object is empty. */
  lemma SuffixRange(n: nat, size: int)
    requires size <= MAX_INT64
    ensures ParseRange(Header([], Decimal(n)), size) ==
      if size > 0 && 0 < n <= MAX_INT64 then Ok(ByteRange(if n < size then size - n else 0, size - 1))
      else Err(InvalidRange)
    ensures size > 0 && 0 < n <= MAX_INT64 ==>
      ParseRange(Header([], Decimal(n)), size).value.Length() == if n < size then n else size
  {
    hide Decimal, ParseInt, Index;
    DecimalParses(n);
    if size > 0 {
      ParseHeader([], Decimal(n), size);
    }
  }

  /** Printing any accepted range and parsing it again gives it back. */
  lemma ReprintAccepted(header: Str, size: int)
    requires size <= MAX_INT64 && ParseRange(header, size).Ok?
    ensures var r := ParseRange(header, size).value;
      && r.start >= 0 && r.end >= 0
      && ParseRange(Header(Decimal(r.start), Decimal(r.end)), size) == Ok(r)
  {
    hide ParseRange, Header, Decimal;
    AcceptedInBounds(header, size);
    var r := ParseRange(header, size).value;
    ClosedRange(r.start, r.end, size);
  }

  // ---------------------------------------------------------------------------------------------
  // What the parser takes beyond RFC 9110
  // ---------------------------------------------------------------------------------------------

  /** A number as section 14.1.1 of RFC 9110 writes it. */
  predicate Digits(s: Str) {
    |s| > 0 && AllDigits(s)
  }

  predicate PlusDigits(s: Str) {
    |s| > 1 && s[0] == PLUS && AllDigits(s[1..])
  }

  predicate MinusDigits(s: Str) {
    |s| > 1 && s[0] == MINUS && AllDigits(s[1..])
  }

  /** The magnitude of a number with or without a sign. */
  function Magnitude(s: Str): nat {
    if Digits(s) then DigitsValue(s)
    else if PlusDigits(s) || MinusDigits(s) then DigitsValue(s[1..])
    else 0
  }

  /** What ParseInt reads: digits behind at most one sign. */
  lemma ParseIntMeaning(s: Str)
    ensures ParseInt(s) ==
      if Digits(s) || PlusDigits(s) then (if Magnitude(s) <= MAX_INT64 then Some(Magnitude(s)) else None)
      else if MinusDigits(s) && Magnitude(s) <= MAX_INT64 + 1 then Some(-(Magnitude(s) as int))
      else None
    ensures !(Digits(s) && PlusDigits(s)) && !(Digits(s) && MinusDigits(s)) && !(PlusDigits(s) && MinusDigits(s))
  {
    hide DigitsValue;
    if |s| > 0 && (s[0] == MINUS || s[0] == PLUS) {
      SignIsNoDigit(s);
    }
  }

  lemma SignIsNoDigit(s: Str)
    requires |s| > 0 && (s[0] == MINUS || s[0] == PLUS)
    ensures !AllDigits(s)
  {
    assert !IsDigit(s[0]);
  }

  /** `bytes=` with an int-range or a suffix-range of section 14.1.1 of RFC 9110. */
  ghost predicate InRfcForm(header: Str) {
    exists first, last :: header == Header(first, last) && RfcParts(first, last)
  }

  predicate RfcParts(first: Str, last: Str) {
    (Digits(first) && (last == [] || Digits(last))) || (first == [] && Digits(last))
  }

  /**
   An accepted pair of texts with a sign in it: a plus sign on either side, or a minus sign in front of a zero end.
   */
  predicate SignedParts(first: Str, last: Str, size: int) {
    || (first == [] && PlusDigits(last) && 0 < Magnitude(last) <= MAX_INT64)
    || (PlusDigits(first) && Magnitude(first) < size && last == [])
    || ((Digits(first) || PlusDigits(first)) && Magnitude(first) < size
        && (Digits(last) || PlusDigits(last)) && Magnitude(first) <= Magnitude(last) <= MAX_INT64
        && (PlusDigits(first) || PlusDigits(last)))
    || ((Digits(first) || PlusDigits(first)) && Magnitude(first) == 0 && MinusDigits(last) && Magnitude(last) == 0)
  }

  ghost predicate WithSign(header: Str, size: int) {
    exists first, last :: header == Header(first, last) && SignedParts(first, last, size)
  }

  lemma NumberHasNoDash(s: Str)
    requires s == [] || Digits(s) || PlusDigits(s)
    ensures MINUS !in s && COMMA !in s
  {
    if PlusDigits(s) {
      assert s == [s[0]] + s[1..];
    }
  }

  lemma SignedHasNoComma(s: Str)
    requires MinusDigits(s)
    ensures COMMA !in s
  {
    assert s == [s[0]] + s[1..];
  }

  /** Only one pair of texts makes a header when the first holds no dash. */
  lemma HeaderTexts(a: Str, b: Str, c: Str, d: Str)
    requires MINUS !in a && MINUS !in c && Header(a, b) == Header(c, d)
    ensures a == c && b == d
  {
    var x, y := a + [MINUS] + b, c + [MINUS] + d;
    assert Header(a, b)[|BYTES_UNIT|..] == x && Header(c, d)[|BYTES_UNIT|..] == y;
    FirstByteIndex(a, MINUS, b);
    FirstByteIndex(c, MINUS, d);
    assert x[..|a|] == a && y[..|c|] == c && x[|a| + 1..] == b && y[|c| + 1..] == d;
  }

  /** Which texts are accepted: those of RFC 9110 that fit, and the signed ones. */
  lemma AcceptedPartsIff(first: Str, last: Str, size: int)
    requires 0 < size <= MAX_INT64 && MINUS !in first
    ensures RangeOfParts(first, last, size).Ok? && !RfcParts(first, last) <==> SignedParts(first, last, size)
  {
    hide ParseInt, Magnitude;
    ParseIntMeaning(first);
    ParseIntMeaning(last);
    assert !MinusDigits(first);
    assert !Digits([]) && !PlusDigits([]) && !MinusDigits([]);
    hide Digits, PlusDigits, MinusDigits;
  }

  /**
   The accepted headers that RFC 9110 does not allow are exactly those with a plus sign in front of a number that
   would be accepted without it, and those whose zero end, behind a zero start, carries a minus sign.
   */
  lemma BeyondRfcIff(header: Str, size: int)
    requires 0 < size <= MAX_INT64 && header != []
    ensures ParseRange(header, size).Ok? && !InRfcForm(header) <==> WithSign(header, size)
  {
    hide RangeOfParts, ParseRange, Header, SignedParts, RfcParts, Index;
    if ParseRange(header, size).Ok? && !InRfcForm(header) {
      var first, last := AcceptedForm(header, size);
      ParseHeader(first, last, size);
      AcceptedPartsIff(first, last, size);
    }
    if first, last :| header == Header(first, last) && SignedParts(first, last, size) {
      SignedTexts(first, last, size);
      ParseHeader(first, last, size);
      AcceptedPartsIff(first, last, size);
      forall a, b | header == Header(a, b) && RfcParts(a, b) ensures a == first && b == last {
        RfcTexts(a, b);
        HeaderTexts(a, b, first, last);
      }
    }
  }

  lemma SignedTexts(first: Str, last: Str, size: int)
    requires SignedParts(first, last, size)
    ensures MINUS !in first && COMMA !in first && COMMA !in last
  {
    hide DigitsValue, Magnitude;
    NumberHasNoDash(first);
    if MinusDigits(last) {
      SignedHasNoComma(last);
    } else {
      NumberHasNoDash(last);
    }
  }

  lemma RfcTexts(first: Str, last: Str)
    requires RfcParts(first, last)
    ensures MINUS !in first
  {
    NumberHasNoDash(first);
  }
}
