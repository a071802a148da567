/** The canonical query string of AWS Signature Version 4: decode, re-encode, sort and join. */
module QueryCanonical {
  import opened Bytes
  import opened Results
  import opened Sequences
  import opened Sorting

  const AMPERSAND: byte := 0x26
  const EQUALS: byte := 0x3D
  const PERCENT: byte := 0x25
  const SLASH: byte := 0x2F
  const SIGNATURE_KEY: Str := Ascii("X-Amz-Signature")

  // ---------------------------------------------------------------------------------------------
  // Percent encoding
  // ---------------------------------------------------------------------------------------------

  /** The unreserved characters of section 2.3 of RFC 3986. */
  predicate Unreserved(c: byte) {
    0x41 <= c <= 0x5A || 0x61 <= c <= 0x7A || 0x30 <= c <= 0x39 || c == 0x2D || c == 0x5F || c == 0x2E || c == 0x7E
  }

  function FromHex(c: byte): (digit: Option<int>)
    ensures digit.Some? ==> 0 <= digit.value < 16
  {
    if 0x30 <= c <= 0x39 then Some(c - 0x30)
    else if 0x61 <= c <= 0x66 then Some(c - 0x61 + 10)
    else if 0x41 <= c <= 0x46 then Some(c - 0x41 + 10)
    else None
  }

  /** An upper-case hexadecimal digit, as %02X prints it. */
  function ToHex(digit: int): (c: byte)
    requires 0 <= digit < 16
    ensures FromHex(c) == Some(digit) && Unreserved(c)
  {
    if digit < 10 then 0x30 + digit else 0x41 + digit - 10
  }

  function EncodeByte(c: byte, encodeSlash: bool): Str {
    if Unreserved(c) || (c == SLASH && !encodeSlash) then [c] else [PERCENT, ToHex(c / 16), ToHex(c % 16)]
  }

  function Encode(s: Str, encodeSlash: bool): Str {
    if |s| == 0 then [] else Encode(s[..|s| - 1], encodeSlash) + EncodeByte(s[|s| - 1], encodeSlash)
  }

  /** sigV4Encode. */
  method SigV4Encode(s: Str, encodeSlash: bool) returns (b: Str)
    ensures b == Encode(s, encodeSlash)
  {
    b := [];
    for i := 0 to |s|
      invariant b == Encode(s[..i], encodeSlash)
    {
      assert s[..i + 1][..i] == s[..i];
      var c := s[i];
      if Unreserved(c) {
        b := b + [c];
      } else if c == SLASH && !encodeSlash {
        b := b + [c];
      } else {
        b := b + [PERCENT, ToHex(c / 16), ToHex(c % 16)];
      }
    }
    assert s[..|s|] == s;
  }

  /** An escape at the front: a percent sign and two hexadecimal digits of either case. */
  predicate StartsEscape(raw: Str) {
    |raw| >= 3 && raw[0] == PERCENT && FromHex(raw[1]).Some? && FromHex(raw[2]).Some?
  }

  function Escaped(raw: Str): byte
    requires StartsEscape(raw)
  {
    16 * FromHex(raw[1]).value + FromHex(raw[2]).value
  }

  /** The bytes a query component stands for; what is not an escape stands for itself. */
  function Decode(raw: Str): Str {
    if |raw| == 0 then []
    else if StartsEscape(raw) then [Escaped(raw)] + Decode(raw[3..])
    else [raw[0]] + Decode(raw[1..])
  }

  lemma DecodeAt(raw: Str, i: nat)
    requires i < |raw|
    ensures Decode(raw[i..]) ==
      if StartsEscape(raw[i..]) then [Escaped(raw[i..])] + Decode(raw[i + 3..]) else [raw[i]] + Decode(raw[i + 1..])
    ensures StartsEscape(raw[i..]) <==>
      raw[i] == PERCENT && i + 2 < |raw| && FromHex(raw[i + 1]).Some? && FromHex(raw[i + 2]).Some?
  {
    assert raw[i..][1..] == raw[i + 1..];
    assert i + 3 <= |raw| ==> raw[i..][3..] == raw[i + 3..];
  }

  /** canonicalQueryComponent. */
  method CanonicalQueryComponent(raw: Str) returns (component: Str)
    ensures component == Encode(Decode(raw), true)
  {
    hide Decode;
    var decoded: Str := [];
    var i := 0;
    assert raw[0..] == raw;
    while i < |raw|
      invariant 0 <= i <= |raw| && Decode(raw) == decoded + Decode(raw[i..])
    {
      DecodeAt(raw, i);
      if raw[i] == PERCENT && i + 2 < |raw| && FromHex(raw[i + 1]).Some? && FromHex(raw[i + 2]).Some? {
        var hi, lo := FromHex(raw[i + 1]).value, FromHex(raw[i + 2]).value;
        Associative(decoded, [16 * hi + lo], Decode(raw[i + 3..]));
        decoded := decoded + [16 * hi + lo];
        i := i + 3;
      } else {
        Associative(decoded, [raw[i]], Decode(raw[i + 1..]));
        decoded := decoded + [raw[i]];
        i := i + 1;
      }
    }
    DecodeNothing(raw);
    assert decoded + [] == decoded;
    component := SigV4Encode(decoded, true);
  }

  lemma DecodeNothing(raw: Str)
    ensures Decode(raw[|raw|..]) == []
  {
  }

  lemma EncodeByteDecodes(c: byte, rest: Str)
    ensures Decode(EncodeByte(c, true) + rest) == [c] + Decode(rest)
  {
    var e := EncodeByte(c, true) + rest;
    if Unreserved(c) {
      assert e[1..] == rest;
    } else {
      assert e[3..] == rest;
      assert Escaped(e) == c;
    }
  }

  lemma EncodeAppend(s: Str, c: byte, encodeSlash: bool)
    ensures Encode(s + [c], encodeSlash) == Encode(s, encodeSlash) + EncodeByte(c, encodeSlash)
  {
    assert (s + [c])[..|s|] == s;
  }

  lemma {:induction false} EncodeConcat(a: Str, b: Str, encodeSlash: bool)
    ensures Encode(a + b, encodeSlash) == Encode(a, encodeSlash) + Encode(b, encodeSlash)
  {
    if |b| == 0 {
      assert a + b == a;
    } else {
      hide Encode, EncodeByte;
      var init, last := b[..|b| - 1], b[|b| - 1];
      assert b == init + [last] && a + b == (a + init) + [last];
      EncodeConcat(a, init, encodeSlash);
      EncodeAppend(a + init, last, encodeSlash);
      EncodeAppend(init, last, encodeSlash);
      Associative(Encode(a, encodeSlash), Encode(init, encodeSlash), EncodeByte(last, encodeSlash));
    }
  }

  lemma EncodeOne(c: byte, encodeSlash: bool)
    ensures Encode([c], encodeSlash) == EncodeByte(c, encodeSlash)
  {
    assert [c][..0] == [];
  }

  lemma {:induction false} EncodeThenDecode(s: Str, rest: Str)
    ensures Decode(Encode(s, true) + rest) == s + Decode(rest)
  {
    if |s| == 0 {
      assert Encode(s, true) + rest == rest;
    } else {
      var init, last := s[..|s| - 1], s[|s| - 1];
      hide EncodeByte, Decode;
      assert Encode(s, true) + rest == Encode(init, true) + (EncodeByte(last, true) + rest);
      EncodeThenDecode(init, EncodeByte(last, true) + rest);
      EncodeByteDecodes(last, rest);
      Associative(init, [last], Decode(rest));
      assert s == init + [last];
    }
  }

  /** Decoding inverts encoding on every byte string, so canonical components are fixed points. */
  lemma DecodeInvertsEncode(s: Str)
    ensures Decode(Encode(s, true)) == s
    ensures Encode(Decode(Encode(s, true)), true) == Encode(s, true)
  {
    EncodeThenDecode(s, []);
    assert Encode(s, true) + [] == Encode(s, true) && s + [] == s;
  }

  /** Unreserved characters, and escapes with upper-case digits of bytes that are not unreserved. */
  predicate IsCanonical(e: Str) {
    |e| == 0
    || (Unreserved(e[0]) && IsCanonical(e[1..]))
    || (StartsEscape(e) && !Unreserved(Escaped(e))
        && e[1] == ToHex(FromHex(e[1]).value) && e[2] == ToHex(FromHex(e[2]).value)
        && IsCanonical(e[3..]))
  }

  lemma EncodeCons(c: byte, rest: Str)
    ensures Encode([c] + rest, true) == EncodeByte(c, true) + Encode(rest, true)
  {
    EncodeConcat([c], rest, true);
    EncodeOne(c, true);
  }

  /** An escape at the front survives exactly when it is upper-case and escapes a byte that needs it. */
  lemma EscapeSurvives(e: Str, tail: Str)
    requires StartsEscape(e)
    ensures EncodeByte(Escaped(e), true) + tail == e <==>
      && !Unreserved(Escaped(e)) && e[1] == ToHex(FromHex(e[1]).value) && e[2] == ToHex(FromHex(e[2]).value)
      && tail == e[3..]
  {
    var c := Escaped(e);
    assert c / 16 == FromHex(e[1]).value && c % 16 == FromHex(e[2]).value;
    assert e == [e[0], e[1], e[2]] + e[3..];
    var escape := EncodeByte(c, true);
    assert (escape + tail)[0] == escape[0] && (escape + tail)[|escape|..] == tail;
    if !Unreserved(c) {
      assert (escape + tail)[1] == escape[1] && (escape + tail)[2] == escape[2];
    }
  }

  /** Any other byte survives exactly when it is unreserved. */
  lemma PlainSurvives(e: Str, tail: Str)
    requires |e| > 0 && !StartsEscape(e)
    ensures EncodeByte(e[0], true) + tail == e <==> Unreserved(e[0]) && tail == e[1..]
  {
    var out := EncodeByte(e[0], true) + tail;
    assert e == [e[0]] + e[1..];
    if Unreserved(e[0]) {
      assert out[1..] == tail;
    } else {
      assert out[0] == PERCENT && FromHex(out[1]).Some? && FromHex(out[2]).Some?;
      assert StartsEscape(out);
    }
  }

  /** Canonicalisation leaves exactly the canonical components alone. */
  lemma {:induction false} CanonicalIff(e: Str)
    ensures IsCanonical(e) <==> Encode(Decode(e), true) == e
  {
    if |e| > 0 {
      hide Encode, EncodeByte, Escaped, ToHex, FromHex, Unreserved;
      if StartsEscape(e) {
        PercentReserved();
        EncodeCons(Escaped(e), Decode(e[3..]));
        EscapeSurvives(e, Encode(Decode(e[3..]), true));
        CanonicalIff(e[3..]);
      } else {
        EncodeCons(e[0], Decode(e[1..]));
        PlainSurvives(e, Encode(Decode(e[1..]), true));
        CanonicalIff(e[1..]);
      }
    }
  }

  lemma PercentReserved()
    ensures !Unreserved(PERCENT)
  {
  }

  /** Whatever comes in, the component that comes out is canonical. */
  lemma EncodedIsCanonical(s: Str)
    ensures IsCanonical(Encode(s, true))
  {
    DecodeInvertsEncode(s);
    CanonicalIff(Encode(s, true));
  }

  lemma {:induction false} EncodedAlphabet(s: Str)
    ensures forall c | c in Encode(s, true) :: Unreserved(c) || c == PERCENT
  {
    if |s| > 0 {
      EncodedAlphabet(s[..|s| - 1]);
    }
  }

  // ---------------------------------------------------------------------------------------------
  // The query as a bag of pairs
  // ---------------------------------------------------------------------------------------------

  datatype Pair = Pair(key: Str, value: Str)

  /** strings.Split. */
  function Split(s: Str, sep: byte): (parts: seq<Str>)
    ensures |parts| > 0
    decreases |s|
  {
    var i := Index(s, [sep]);
    if i < 0 then [s] else [s[..i]] + Split(s[i + 1..], sep)
  }

  /** The tokens of a raw query; an empty query has none. */
  function Tokens(raw: Str): seq<Str> {
    if raw == [] then [] else Split(raw, AMPERSAND)
  }

  lemma SplitNone(s: Str, sep: byte)
    requires Index(s, [sep]) < 0
    ensures Split(s, sep) == [s] && sep !in s
    ensures EndToEnd(s + [sep], Terminated(Split(s, sep), sep), [0, |s| + 1])
  {
    AbsentByte(s, sep);
    assert s + [sep] == Terminated(Split(s, sep), sep)[0];
  }

  lemma SplitCons(s: Str, sep: byte)
    requires Index(s, [sep]) >= 0
    ensures var i := Index(s, [sep]);
      && i < |s| && sep !in s[..i] && Split(s, sep) == [s[..i]] + Split(s[i + 1..], sep)
      && s + [sep] == (s[..i] + [sep]) + (s[i + 1..] + [sep])
      && Terminated(Split(s, sep), sep) == [s[..i] + [sep]] + Terminated(Split(s[i + 1..], sep), sep)
  {
    FirstSeparator(s, sep);
    hide Index;
  }

  /** Splitting takes a text apart at every separator and loses nothing. */
  lemma {:induction false} SplitMeaning(s: Str, sep: byte) returns (ends: seq<nat>)
    ensures EndToEnd(s + [sep], Terminated(Split(s, sep), sep), ends)
    ensures forall i | 0 <= i < |Split(s, sep)| :: sep !in Split(s, sep)[i]
    decreases |s|
  {
    hide *;
    var i := Index(s, [sep]);
    if i < 0 {
      SplitNone(s, sep);
      ends := [0, |s| + 1];
    } else {
      SplitCons(s, sep);
      var rest := SplitMeaning(s[i + 1..], sep);
      EndToEndPrepend(s[..i] + [sep], s[i + 1..] + [sep], Terminated(Split(s[i + 1..], sep), sep), rest);
      ends := [0] + seq(|rest|, j requires 0 <= j < |rest| => |s[..i] + [sep]| + rest[j]);
    }
  }

  /** What strings.Cut promises: the text before the first equals sign, and the text behind it if there is one. */
  lemma CutMeaning(token: Str)
    ensures var p := CutToken(token);
      && EQUALS !in p.key
      && token == (if EQUALS in token then p.key + Ascii("=") + p.value else p.key)
      && (EQUALS !in token ==> p.value == [])
  {
    assert Ascii("=") == [EQUALS];
    var i := Index(token, [EQUALS]);
    if i < 0 {
      AbsentByte(token, EQUALS);
    } else {
      FirstSeparator(token, EQUALS);
      assert token == token[..i] + [token[i]] + token[i + 1..];
    }
  }

  /** strings.Cut at the equals sign. */
  function CutToken(token: Str): Pair {
    var i := Index(token, [EQUALS]);
    if i < 0 then Pair(token, []) else Pair(token[..i], token[i + 1..])
  }

  function DecodePair(p: Pair): Pair {
    Pair(Decode(p.key), Decode(p.value))
  }

  function EncodePair(p: Pair): Pair {
    Pair(Encode(p.key, true), Encode(p.value, true))
  }

  /** The decoded pairs of a token: one, or none for the signature when it is excluded. */
  function TokenPairs(token: Str, excludeSignature: bool): seq<Pair> {
    var p := DecodePair(CutToken(token));
    if excludeSignature && p.key == SIGNATURE_KEY then [] else [p]
  }

  function FlatMap<T, U>(f: T -> seq<U>, xs: seq<T>): seq<U> {
    if |xs| == 0 then [] else FlatMap(f, xs[..|xs| - 1]) + f(xs[|xs| - 1])
  }

  function PairsOf(excludeSignature: bool): Str -> seq<Pair> {
    token => TokenPairs(token, excludeSignature)
  }

  function Encoder(): Pair -> seq<Pair> {
    p => [EncodePair(p)]
  }

  function Decoder(): Pair -> seq<Pair> {
    p => [DecodePair(p)]
  }

  /** The decoded key-value pairs of a raw query, without the signature when it is excluded. */
  function DecodedPairs(raw: Str, excludeSignature: bool): seq<Pair> {
    FlatMap(PairsOf(excludeSignature), Tokens(raw))
  }

  function EncodedPairs(pairs: seq<Pair>): seq<Pair> {
    FlatMap(Encoder(), pairs)
  }

  /** By key, and by value for equal keys. */
  predicate PairLess(a: Pair, b: Pair) {
    if a.key == b.key then Less(a.value, b.value) else Less(a.key, b.key)
  }

  function PairText(p: Pair): Str {
    p.key + [EQUALS] + p.value
  }

  function Join(pairs: seq<Pair>): Str {
    if |pairs| == 0 then []
    else if |pairs| == 1 then PairText(pairs[0])
    else PairText(pairs[0]) + [AMPERSAND] + Join(pairs[1..])
  }

  function CanonicalQuery(raw: Str, excludeSignature: bool): Str {
    Join(SortBy(EncodedPairs(DecodedPairs(raw, excludeSignature)), PairLess))
  }

  // ---------------------------------------------------------------------------------------------
  // canonicalQueryString
  // ---------------------------------------------------------------------------------------------

  lemma FlatMapAppend<T, U>(f: T -> seq<U>, xs: seq<T>, x: T)
    ensures FlatMap(f, xs + [x]) == FlatMap(f, xs) + f(x)
  {
    assert (xs + [x])[..|xs|] == xs;
  }

  lemma {:induction false} FlatMapConcat<T, U>(f: T -> seq<U>, xs: seq<T>, ys: seq<T>)
    ensures FlatMap(f, xs + ys) == FlatMap(f, xs) + FlatMap(f, ys)
  {
    if |ys| == 0 {
      assert xs + ys == xs;
    } else {
      var init, last := ys[..|ys| - 1], ys[|ys| - 1];
      assert xs + ys == (xs + init) + [last] && ys == init + [last];
      FlatMapConcat(f, xs, init);
      FlatMapAppend(f, xs + init, last);
      FlatMapAppend(f, init, last);
    }
  }

  /** Encoding distinguishes what decoding distinguishes. */
  lemma EncodeInjective(a: Str, b: Str)
    requires Encode(a, true) == Encode(b, true)
    ensures a == b
  {
    DecodeInvertsEncode(a);
    DecodeInvertsEncode(b);
  }

  lemma SignatureKeyEncodes()
    ensures Encode(SIGNATURE_KEY, true) == SIGNATURE_KEY
  {
    PlainEncodes(SIGNATURE_KEY);
  }

  lemma {:induction false} PlainEncodes(s: Str)
    requires forall i | 0 <= i < |s| :: Unreserved(s[i])
    ensures Encode(s, true) == s
  {
    if |s| > 0 {
      var init, last := s[..|s| - 1], s[|s| - 1];
      PlainEncodes(init);
      assert EncodeByte(last, true) == [last];
      hide Encode, EncodeByte, Unreserved;
      EncodeAppend(init, last, true);
      assert s == init + [last];
    }
  }

  /** One token of canonicalQueryString. */
  method AddToken(token: Str, excludeSignature: bool, pairs0: seq<Pair>, ghost decoded: seq<Pair>)
    returns (pairs: seq<Pair>)
    requires pairs0 == EncodedPairs(decoded)
    ensures pairs == EncodedPairs(decoded + PairsOf(excludeSignature)(token))
  {
    var cut := CutToken(token);
    var key := CanonicalQueryComponent(cut.key);
    SignatureKeyEncodes();
    if key == SIGNATURE_KEY {
      EncodeInjective(Decode(cut.key), SIGNATURE_KEY);
    }
    if excludeSignature && key == SIGNATURE_KEY {
      assert decoded + [] == decoded;
      return pairs0;
    }
    var value := CanonicalQueryComponent(cut.value);
    FlatMapAppend(Encoder(), decoded, DecodePair(cut));
    pairs := pairs0 + [Pair(key, value)];
  }

  /** The loop over the tokens. */
  method CollectPairs(tokens: seq<Str>, excludeSignature: bool) returns (pairs: seq<Pair>)
    ensures pairs == EncodedPairs(FlatMap(PairsOf(excludeSignature), tokens))
  {
    pairs := [];
    ghost var f := PairsOf(excludeSignature);
    assert FlatMap(f, tokens[..0]) == [] && EncodedPairs([]) == [];
    hide *;
    for i := 0 to |tokens|
      invariant pairs == EncodedPairs(FlatMap(f, tokens[..i]))
    {
      assert tokens[..i + 1] == tokens[..i] + [tokens[i]];
      FlatMapAppend(f, tokens[..i], tokens[i]);
      pairs := AddToken(tokens[i], excludeSignature, pairs, FlatMap(f, tokens[..i]));
    }
    assert tokens[..|tokens|] == tokens;
  }

  /** The pieces between the ampersands ascend by what is before their first equals sign, then by what is behind it. */
  ghost predicate PiecesAscend(canonical: Str) {
    forall i, j | 0 <= i < j < |Tokens(canonical)| ::
      var a, b := CutToken(Tokens(canonical)[i]), CutToken(Tokens(canonical)[j]);
      !Less(b.key, a.key) && (a.key == b.key ==> !Less(b.value, a.value))
  }

  /** Every piece is a canonical key, an equals sign and a canonical value, and none is the signature when excluded. */
  ghost predicate PiecesCanonical(canonical: Str, excludeSignature: bool) {
    forall i | 0 <= i < |Tokens(canonical)| ::
      var p := CutToken(Tokens(canonical)[i]);
      && Tokens(canonical)[i] == p.key + Ascii("=") + p.value
      && IsCanonical(p.key) && IsCanonical(p.value)
      && (excludeSignature ==> p.key != Ascii("X-Amz-Signature"))
  }

  /** canonicalQueryString: the decoded pairs of the query, canonical, in order, and without the signature. */
  method CanonicalQueryString(raw: Str, excludeSignature: bool) returns (canonical: Str)
    ensures canonical == CanonicalQuery(raw, excludeSignature)
    ensures PiecesAscend(canonical) && PiecesCanonical(canonical, excludeSignature)
    ensures multiset(DecodedPairs(canonical, false)) == multiset(DecodedPairs(raw, excludeSignature))
  {
    CanonicalPieces(raw, excludeSignature);
    CanonicalIsFixed(raw, excludeSignature);
    hide PiecesAscend, PiecesCanonical;
    if raw == [] {
      EmptyQuery(excludeSignature);
      return [];
    }
    hide SortBy, FlatMap, EncodedPairs, Join, PairsOf, Split;
    var tokens := Split(raw, AMPERSAND);
    var pairs := CollectPairs(tokens, excludeSignature);
    pairs := SortBy(pairs, PairLess);
    canonical := Join(pairs);
  }

  lemma EmptyQuery(excludeSignature: bool)
    ensures CanonicalQuery([], excludeSignature) == []
  {
    hide TokenPairs;
    assert DecodedPairs([], excludeSignature) == [];
    assert EncodedPairs([]) == [];
  }

  // ---------------------------------------------------------------------------------------------
  // Bags survive mapping
  // ---------------------------------------------------------------------------------------------

  lemma BagWithout<T>(ys: seq<T>, j: nat)
    requires j < |ys|
    ensures multiset(ys[..j] + ys[j + 1..]) == multiset(ys) - multiset{ys[j]}
  {
    assert ys == ys[..j] + ([ys[j]] + ys[j + 1..]);
    assert multiset(ys) == multiset(ys[..j]) + (multiset{ys[j]} + multiset(ys[j + 1..]));
  }

  lemma MultisetRemove<T>(xs: seq<T>, ys: seq<T>, j: nat)
    requires |xs| > 0 && j < |ys| && ys[j] == xs[|xs| - 1] && multiset(xs) == multiset(ys)
    ensures multiset(xs[..|xs| - 1]) == multiset(ys[..j] + ys[j + 1..])
  {
    var n := |xs| - 1;
    BagWithout(ys, j);
    BagWithout(xs, n);
    assert xs[..n] + xs[n + 1..] == xs[..n];
  }

  /** The bag of images depends only on the bag of arguments. */
  lemma {:induction false} FlatMapMultiset<T, U>(f: T -> seq<U>, xs: seq<T>, ys: seq<T>)
    requires multiset(xs) == multiset(ys)
    ensures multiset(FlatMap(f, xs)) == multiset(FlatMap(f, ys))
  {
    if |xs| == 0 {
      assert |multiset(ys)| == |ys|;
    } else {
      var n := |xs| - 1;
      assert xs[n] in multiset(ys);
      var j :| 0 <= j < |ys| && ys[j] == xs[n];
      MultisetRemove(xs, ys, j);
      FlatMapMultiset(f, xs[..n], ys[..j] + ys[j + 1..]);
      MiddleOut(f, ys, j);
      assert xs == xs[..n] + [xs[n]];
      assert multiset(FlatMap(f, xs)) == multiset(FlatMap(f, xs[..n])) + multiset(f(xs[n]));
    }
  }

  lemma BagMiddle<U>(a: seq<U>, b: seq<U>, c: seq<U>)
    ensures multiset((a + b) + c) == multiset(a + c) + multiset(b)
  {
  }

  lemma MiddleOut<T, U>(f: T -> seq<U>, ys: seq<T>, j: nat)
    requires j < |ys|
    ensures multiset(FlatMap(f, ys)) == multiset(FlatMap(f, ys[..j] + ys[j + 1..])) + multiset(f(ys[j]))
  {
    hide FlatMap;
    var head, y, tail := ys[..j], ys[j], ys[j + 1..];
    assert ys == (head + [y]) + tail;
    FlatMapConcat(f, head + [y], tail);
    FlatMapAppend(f, head, y);
    FlatMapConcat(f, head, tail);
    BagMiddle(FlatMap(f, head), f(y), FlatMap(f, tail));
  }

  lemma {:induction false} DecodeEncodedPairs(pairs: seq<Pair>)
    ensures FlatMap(Decoder(), EncodedPairs(pairs)) == pairs
  {
    if |pairs| > 0 {
      hide FlatMap, Encode, Decode;
      var init, last := pairs[..|pairs| - 1], pairs[|pairs| - 1];
      assert pairs == init + [last];
      DecodeEncodedPairs(init);
      FlatMapAppend(Encoder(), init, last);
      FlatMapAppend(Decoder(), EncodedPairs(init), EncodePair(last));
      DecodeInvertsEncode(last.key);
      DecodeInvertsEncode(last.value);
    }
  }

  /** Encoded bags are equal exactly when the decoded ones are. */
  lemma EncodedBagsIff(a: seq<Pair>, b: seq<Pair>)
    ensures multiset(EncodedPairs(a)) == multiset(EncodedPairs(b)) <==> multiset(a) == multiset(b)
  {
    if multiset(a) == multiset(b) {
      FlatMapMultiset(Encoder(), a, b);
    }
    if multiset(EncodedPairs(a)) == multiset(EncodedPairs(b)) {
      FlatMapMultiset(Decoder(), EncodedPairs(a), EncodedPairs(b));
      DecodeEncodedPairs(a);
      DecodeEncodedPairs(b);
    }
  }

  // ---------------------------------------------------------------------------------------------
  // Joining is injective
  // ---------------------------------------------------------------------------------------------

  predicate Clean(p: Pair) {
    EQUALS !in p.key && AMPERSAND !in p.key && EQUALS !in p.value && AMPERSAND !in p.value
  }

  ghost predicate AllClean(pairs: seq<Pair>) {
    forall i | 0 <= i < |pairs| :: Clean(pairs[i])
  }

  lemma TextInjective(a: Pair, b: Pair)
    requires Clean(a) && Clean(b) && PairText(a) == PairText(b)
    ensures a == b
  {
    FirstByteIndex(a.key, EQUALS, a.value);
    FirstByteIndex(b.key, EQUALS, b.value);
    var t := PairText(a);
    assert t[..|a.key|] == a.key && t[..|b.key|] == b.key;
    assert t[|a.key| + 1..] == a.value && t[|b.key| + 1..] == b.value;
  }

  lemma JoinHead(pairs: seq<Pair>)
    requires |pairs| > 0 && Clean(pairs[0])
    ensures |Join(pairs)| > 0
    ensures Index(Join(pairs), [AMPERSAND]) == if |pairs| == 1 then -1 else |PairText(pairs[0])|
    ensures |pairs| > 1 ==> Join(pairs)[..|PairText(pairs[0])|] == PairText(pairs[0])
    ensures |pairs| > 1 ==> Join(pairs)[|PairText(pairs[0])| + 1..] == Join(pairs[1..])
  {
    var t := PairText(pairs[0]);
    assert AMPERSAND !in t;
    if |pairs| == 1 {
      NotFound(t, AMPERSAND);
    } else {
      FirstByteIndex(t, AMPERSAND, Join(pairs[1..]));
    }
  }

  lemma OccurrenceHolds(s: Str, c: byte, i: nat)
    requires i < |s|
    ensures OccursAt(s, [c], i) ==> c in s
  {
    assert s[i..i + 1] == [s[i]];
  }

  lemma NotFound(s: Str, c: byte)
    requires c !in s
    ensures Index(s, [c]) == -1
  {
    var i := Index(s, [c]);
    if i >= 0 {
      IndexFromIsFirst(s, [c], 0, i);
      OccurrenceHolds(s, c, i);
    }
  }

  lemma {:induction false} JoinInjective(a: seq<Pair>, b: seq<Pair>)
    requires AllClean(a) && AllClean(b) && Join(a) == Join(b)
    ensures a == b
  {
    if |a| > 0 {
      JoinHead(a);
    }
    if |b| > 0 {
      JoinHead(b);
    }
    if |a| > 0 && |b| > 0 {
      assert (|a| == 1) == (|b| == 1);
      if |a| > 1 {
        JoinInjective(a[1..], b[1..]);
      }
      TextInjective(a[0], b[0]);
      assert a == [a[0]] + a[1..] && b == [b[0]] + b[1..];
    }
  }

  lemma {:induction false} EncodedPairsClean(pairs: seq<Pair>)
    ensures |EncodedPairs(pairs)| == |pairs| && AllClean(EncodedPairs(pairs))
  {
    if |pairs| > 0 {
      var last := pairs[|pairs| - 1];
      EncodedPairsClean(pairs[..|pairs| - 1]);
      EncodedAlphabet(last.key);
      EncodedAlphabet(last.value);
    }
  }

  // ---------------------------------------------------------------------------------------------
  // The main result
  // ---------------------------------------------------------------------------------------------

  lemma PairLessIsOrder()
    ensures IsOrder(PairLess)
  {
    forall a: Pair, b: Pair ensures PairLess(a, b) ==> !PairLess(b, a) {
      if PairLess(a, b) {
        if a.key == b.key {
          LessAsymmetric(a.value, b.value);
        } else {
          LessAsymmetric(a.key, b.key);
        }
      }
    }
    forall a: Pair, b: Pair, c: Pair | !PairLess(c, b) && !PairLess(b, a) ensures !PairLess(c, a) {
      PairNotLess(a, b, c);
    }
  }

  lemma PairTotal(a: Pair, b: Pair)
    ensures PairLess(a, b) || a == b || PairLess(b, a)
  {
    LessTotal(a.key, b.key);
    LessTotal(a.value, b.value);
  }

  lemma PairTransitive(a: Pair, b: Pair, c: Pair)
    requires PairLess(a, b) && PairLess(b, c)
    ensures PairLess(a, c)
  {
    if a.key == b.key && b.key == c.key {
      LessTransitive(a.value, b.value, c.value);
    } else if a.key != b.key && b.key != c.key {
      LessTransitive(a.key, b.key, c.key);
      if a.key == c.key {
        LessIrreflexive(a.key);
      }
    }
  }

  lemma PairNotLess(a: Pair, b: Pair, c: Pair)
    requires !PairLess(c, b) && !PairLess(b, a)
    ensures !PairLess(c, a)
  {
    PairTotal(b, a);
    if PairLess(c, a) && PairLess(a, b) {
      PairTransitive(c, a, b);
    }
  }

  lemma PairsSeparate(pairs: seq<Pair>)
    ensures Separates(PairLess, pairs)
  {
    forall i, j | 0 <= i < |pairs| && 0 <= j < |pairs| && !PairLess(pairs[i], pairs[j]) && !PairLess(pairs[j], pairs[i])
      ensures pairs[i] == pairs[j]
    {
      PairTotal(pairs[i], pairs[j]);
    }
  }

  lemma SortedClean(pairs: seq<Pair>)
    requires AllClean(pairs)
    ensures AllClean(SortBy(pairs, PairLess)) && multiset(SortBy(pairs, PairLess)) == multiset(pairs)
  {
    var sorted := SortBy(pairs, PairLess);
    PairLessIsOrder();
    SortByOrders(pairs, PairLess);
    forall i | 0 <= i < |sorted| ensures Clean(sorted[i]) {
      assert sorted[i] in multiset(pairs);
      assert sorted[i] in pairs;
    }
  }

  /**
   The canonical query string is a complete invariant of the decoded query: two raw queries, signed or presigned,
   get the same string exactly when they decode to the same bag of pairs, leaving the signature out where excluded.
   */
  lemma CanonicalQueryIff(raw1: Str, exclude1: bool, raw2: Str, exclude2: bool)
    ensures CanonicalQuery(raw1, exclude1) == CanonicalQuery(raw2, exclude2) <==>
      multiset(DecodedPairs(raw1, exclude1)) == multiset(DecodedPairs(raw2, exclude2))
  {
    hide DecodedPairs, EncodedPairs;
    var d1, d2 := DecodedPairs(raw1, exclude1), DecodedPairs(raw2, exclude2);
    var e1, e2 := EncodedPairs(d1), EncodedPairs(d2);
    EncodedBagsIff(d1, d2);
    EncodedPairsClean(d1);
    EncodedPairsClean(d2);
    SortedClean(e1);
    SortedClean(e2);
    PairLessIsOrder();
    if multiset(e1) == multiset(e2) {
      PairsSeparate(e2);
      SortByUnique(e1, e2, PairLess);
    }
    if CanonicalQuery(raw1, exclude1) == CanonicalQuery(raw2, exclude2) {
      JoinInjective(SortBy(e1, PairLess), SortBy(e2, PairLess));
    }
  }

  /** The order of the tokens does not matter. */
  lemma TokenOrderIrrelevant(raw1: Str, raw2: Str, excludeSignature: bool)
    requires multiset(Tokens(raw1)) == multiset(Tokens(raw2))
    ensures CanonicalQuery(raw1, excludeSignature) == CanonicalQuery(raw2, excludeSignature)
  {
    FlatMapMultiset(PairsOf(excludeSignature), Tokens(raw1), Tokens(raw2));
    CanonicalQueryIff(raw1, excludeSignature, raw2, excludeSignature);
  }

  // ---------------------------------------------------------------------------------------------
  // The canonical string is its own canonical form
  // ---------------------------------------------------------------------------------------------

  function Texts(pairs: seq<Pair>): (texts: seq<Str>)
    ensures |texts| == |pairs|
  {
    seq(|pairs|, i requires 0 <= i < |pairs| => PairText(pairs[i]))
  }

  lemma {:induction false} SplitJoin(pairs: seq<Pair>)
    requires AllClean(pairs)
    ensures Tokens(Join(pairs)) == Texts(pairs)
  {
    if |pairs| > 0 {
      JoinHead(pairs);
      if |pairs| > 1 {
        SplitJoin(pairs[1..]);
        JoinHead(pairs[1..]);
        assert Texts(pairs) == [PairText(pairs[0])] + Texts(pairs[1..]);
      } else {
        assert Texts(pairs) == [PairText(pairs[0])];
      }
    }
  }

  lemma CutText(p: Pair)
    requires Clean(p)
    ensures CutToken(PairText(p)) == p
  {
    FirstByteIndex(p.key, EQUALS, p.value);
    assert PairText(p)[..|p.key|] == p.key && PairText(p)[|p.key| + 1..] == p.value;
  }

  lemma {:induction false} TextsDecode(pairs: seq<Pair>)
    requires AllClean(pairs)
    ensures FlatMap(PairsOf(false), Texts(pairs)) == FlatMap(Decoder(), pairs)
  {
    if |pairs| > 0 {
      var init, last := pairs[..|pairs| - 1], pairs[|pairs| - 1];
      TextsDecode(init);
      assert Texts(pairs)[..|init|] == Texts(init);
      CutText(last);
    }
  }

  /**
   Reading a canonical query string back gives the pairs it was made of, so canonicalising it again changes nothing.
   */
  lemma CanonicalIsFixed(raw: Str, excludeSignature: bool)
    ensures multiset(DecodedPairs(CanonicalQuery(raw, excludeSignature), false)) ==
      multiset(DecodedPairs(raw, excludeSignature))
    ensures CanonicalQuery(CanonicalQuery(raw, excludeSignature), false) == CanonicalQuery(raw, excludeSignature)
  {
    var d := DecodedPairs(raw, excludeSignature);
    var e := EncodedPairs(d);
    var sorted := SortBy(e, PairLess);
    EncodedPairsClean(d);
    SortedClean(e);
    SplitJoin(sorted);
    TextsDecode(sorted);
    FlatMapMultiset(Decoder(), sorted, e);
    DecodeEncodedPairs(d);
    CanonicalQueryIff(CanonicalQuery(raw, excludeSignature), false, raw, excludeSignature);
  }

  ghost predicate CanonicalPair(p: Pair, excludeSignature: bool) {
    IsCanonical(p.key) && IsCanonical(p.value) && (excludeSignature ==> p.key != Ascii("X-Amz-Signature"))
  }

  lemma TokenCanonical(token: Str, excludeSignature: bool, q: Pair)
    requires q in EncodedPairs(TokenPairs(token, excludeSignature))
    ensures CanonicalPair(q, excludeSignature)
  {
    var p := DecodePair(CutToken(token));
    assert TokenPairs(token, excludeSignature) == [p];
    FlatMapAppend(Encoder(), [], p);
    assert [] + [p] == [p];
    assert EncodedPairs([p]) == [EncodePair(p)];
    hide FlatMap, Encode, IsCanonical, Decode, CutToken;
    EncodedIsCanonical(p.key);
    EncodedIsCanonical(p.value);
    SignatureKeyEncodes();
    if q.key == SIGNATURE_KEY {
      EncodeInjective(p.key, SIGNATURE_KEY);
    }
  }

  lemma {:induction false} PairsCanonical(tokens: seq<Str>, excludeSignature: bool, q: Pair)
    requires q in EncodedPairs(FlatMap(PairsOf(excludeSignature), tokens))
    ensures CanonicalPair(q, excludeSignature)
  {
    var f := PairsOf(excludeSignature);
    if |tokens| > 0 {
      var init, last := tokens[..|tokens| - 1], tokens[|tokens| - 1];
      FlatMapConcat(Encoder(), FlatMap(f, init), f(last));
      assert f(last) == TokenPairs(last, excludeSignature);
      hide CanonicalPair, TokenPairs;
      if q in EncodedPairs(FlatMap(f, init)) {
        PairsCanonical(init, excludeSignature, q);
      } else {
        TokenCanonical(last, excludeSignature, q);
      }
    }
  }

  /** Clean pairs, joined, are found again piece by piece. */
  lemma PieceOf(pairs: seq<Pair>, i: nat)
    requires AllClean(pairs) && i < |pairs|
    ensures |Tokens(Join(pairs))| == |pairs| && CutToken(Tokens(Join(pairs))[i]) == pairs[i]
    ensures Tokens(Join(pairs))[i] == pairs[i].key + Ascii("=") + pairs[i].value
  {
    SplitJoin(pairs);
    hide Tokens, Join;
    CutText(pairs[i]);
    assert Ascii("=") == [EQUALS];
  }

  lemma JoinedAscend(pairs: seq<Pair>)
    requires AllClean(pairs) && Ordered(PairLess, pairs)
    ensures PiecesAscend(Join(pairs))
  {
    hide Join, CutToken, Tokens, Less, AllClean;
    SplitJoin(pairs);
    forall i, j | 0 <= i < j < |pairs|
      ensures var a, b := CutToken(Tokens(Join(pairs))[i]), CutToken(Tokens(Join(pairs))[j]);
        !Less(b.key, a.key) && (a.key == b.key ==> !Less(b.value, a.value))
    {
      PieceOf(pairs, i);
      PieceOf(pairs, j);
      assert !PairLess(pairs[j], pairs[i]);
      PairBehind(pairs[i], pairs[j]);
    }
  }

  lemma PairBehind(a: Pair, b: Pair)
    requires !PairLess(b, a)
    ensures !Less(b.key, a.key) && (a.key == b.key ==> !Less(b.value, a.value))
  {
    LessIrreflexive(a.key);
  }

  lemma JoinedCanonical(pairs: seq<Pair>, excludeSignature: bool)
    requires AllClean(pairs) && forall i | 0 <= i < |pairs| :: CanonicalPair(pairs[i], excludeSignature)
    ensures PiecesCanonical(Join(pairs), excludeSignature)
  {
    hide Join, CutToken, Tokens, AllClean, IsCanonical;
    SplitJoin(pairs);
    forall i | 0 <= i < |pairs|
      ensures var p := CutToken(Tokens(Join(pairs))[i]);
        CanonicalPair(p, excludeSignature) && Tokens(Join(pairs))[i] == p.key + Ascii("=") + p.value
    {
      PieceOf(pairs, i);
    }
  }

  /** What the canonical string looks like, piece by piece. */
  lemma CanonicalPieces(raw: Str, excludeSignature: bool)
    ensures PiecesAscend(CanonicalQuery(raw, excludeSignature))
    ensures PiecesCanonical(CanonicalQuery(raw, excludeSignature), excludeSignature)
  {
    var e := EncodedPairs(DecodedPairs(raw, excludeSignature));
    var sorted := SortBy(e, PairLess);
    EncodedPairsClean(DecodedPairs(raw, excludeSignature));
    SortedClean(e);
    PairLessIsOrder();
    SortByOrders(e, PairLess);
    hide SortBy, Join, EncodedPairs, CanonicalPair, PiecesAscend, PiecesCanonical, Ordered, AllClean, PairLess, IsOrder;
    forall i | 0 <= i < |sorted| ensures CanonicalPair(sorted[i], excludeSignature) {
      assert sorted[i] in multiset(sorted);
      assert sorted[i] in multiset(e);
      PairsCanonical(Tokens(raw), excludeSignature, sorted[i]);
    }
    JoinedAscend(sorted);
    JoinedCanonical(sorted, excludeSignature);
  }

  /**
   The encoding, in characters: what stays is unreserved in section 2.3 of RFC 3986, the rest is %XX in upper case.
   */
  lemma EncodingTable(c: byte)
    ensures Unreserved(c) <==>
      || 'A' as int <= c <= 'Z' as int || 'a' as int <= c <= 'z' as int || '0' as int <= c <= '9' as int
      || c == '-' as int || c == '_' as int || c == '.' as int || c == '~' as int
    ensures !Unreserved(c) ==>
      EncodeByte(c, true) == Ascii("%") + [Ascii("0123456789ABCDEF")[c / 16], Ascii("0123456789ABCDEF")[c % 16]]
    ensures Unreserved(c) ==> EncodeByte(c, true) == [c]
    ensures EncodeByte(c, false) == if c == '/' as int then [c] else EncodeByte(c, true)
  {
    assert Ascii("%") == [PERCENT];
    HexDigit(c / 16);
    HexDigit(c % 16);
    hide ToHex, FromHex;
  }

  lemma HexDigit(d: int)
    requires 0 <= d < 16
    ensures ToHex(d) == Ascii("0123456789ABCDEF")[d]
  {
  }

  /** Hexadecimal digits of either case are read. */
  lemma HexTable(c: byte, d: int)
    requires 0 <= d < 16
    ensures FromHex(c) == Some(d) <==> c == Ascii("0123456789ABCDEF")[d] || c == Ascii("0123456789abcdef")[d]
  {
  }

  /** And nothing else is. */
  lemma HexOnly(c: byte)
    requires forall d | 0 <= d < 16 :: c != Ascii("0123456789ABCDEF")[d] && c != Ascii("0123456789abcdef")[d]
    ensures FromHex(c) == None
  {
    if FromHex(c).Some? {
      HexTable(c, FromHex(c).value);
    }
  }

  /** Bytes other than percent signs, the plus sign among them, stand for themselves. */
  lemma {:induction false} DecodePlain(a: Str, b: Str)
    requires PERCENT !in a
    ensures Decode(a + b) == a + Decode(b)
  {
    if |a| == 0 {
      assert a + b == b;
    } else {
      assert (a + b)[1..] == a[1..] + b;
      DecodePlain(a[1..], b);
    }
  }

  /** An escape stands for its byte, and a percent sign in front of anything else for itself. */
  lemma DecodePercent(hi: byte, lo: byte, rest: Str)
    ensures Decode([PERCENT, hi, lo] + rest) ==
      if FromHex(hi).Some? && FromHex(lo).Some? then [16 * FromHex(hi).value + FromHex(lo).value] + Decode(rest)
      else [PERCENT] + Decode([hi, lo] + rest)
    ensures Decode([PERCENT]) == [PERCENT] && Decode([PERCENT, hi]) == [PERCENT] + Decode([hi])
  {
    assert ([PERCENT, hi, lo] + rest)[3..] == rest && ([PERCENT, hi, lo] + rest)[1..] == [hi, lo] + rest;
    assert [PERCENT][1..] == [] && [PERCENT, hi][1..] == [hi];
  }

  /** One pair for each token, in order: the decoded texts before and behind its first equals sign. */
  lemma {:induction false} TokensDecode(tokens: seq<Str>)
    ensures var pairs := FlatMap(PairsOf(false), tokens);
      && |pairs| == |tokens|
      && forall i | 0 <= i < |tokens| ::
           pairs[i].key == Decode(CutToken(tokens[i]).key) && pairs[i].value == Decode(CutToken(tokens[i]).value)
  {
    hide Decode, CutToken;
    if |tokens| > 0 {
      TokensDecode(tokens[..|tokens| - 1]);
    }
  }

  /** Excluding the signature leaves out the pairs with its name, all of them and nothing else. */
  lemma {:induction false} TokensWithoutSignature(tokens: seq<Str>, p: Pair)
    ensures multiset(FlatMap(PairsOf(true), tokens))[p] ==
      if p.key == Ascii("X-Amz-Signature") then 0 else multiset(FlatMap(PairsOf(false), tokens))[p]
  {
    hide Decode, CutToken;
    if |tokens| > 0 {
      TokensWithoutSignature(tokens[..|tokens| - 1], p);
    }
  }

  /** What a raw query says. */
  lemma DecodedPairsMeaning(raw: Str, p: Pair)
    ensures |DecodedPairs(raw, false)| == |Tokens(raw)|
    ensures forall i | 0 <= i < |Tokens(raw)| ::
      && DecodedPairs(raw, false)[i].key == Decode(CutToken(Tokens(raw)[i]).key)
      && DecodedPairs(raw, false)[i].value == Decode(CutToken(Tokens(raw)[i]).value)
    ensures multiset(DecodedPairs(raw, true))[p] ==
      if p.key == Ascii("X-Amz-Signature") then 0 else multiset(DecodedPairs(raw, false))[p]
  {
    hide FlatMap, Tokens, CutToken, Decode, PairsOf;
    TokensDecode(Tokens(raw));
    TokensWithoutSignature(Tokens(raw), p);
  }
}
