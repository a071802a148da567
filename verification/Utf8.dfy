/**
 The prefix filter on text. SQLite decodes both sides of LIKE and compares code points, while keys and prefixes are
 ordered, cut and concatenated as bytes; on well-formed UTF-8 (RFC 3629, section 3) both views give the same filter.
 */
module Utf8 {
  import opened Bytes
  import opened Like

  /**
   The code points that SQLite's decoder gives back: no NUL, which ends a text, no surrogate, and neither U+FFFE nor
   U+FFFF, which it replaces.
   */
  predicate IsScalar(c: int) {
    0 < c <= 0x10FFFF && !(0xD800 <= c <= 0xDFFF) && c != 0xFFFE && c != 0xFFFF
  }

  ghost predicate WellFormed(text: Text) {
    forall i | 0 <= i < |text| :: IsScalar(text[i])
  }

  /** One code point in one to four bytes. */
  function EncodeChar(c: int): (s: Str)
    requires IsScalar(c)
    ensures 0 < |s| <= 4
  {
    if c < 0x80 then [c]
    else if c < 0x800 then [0xC0 + c / 0x40, 0x80 + c % 0x40]
    else if c < 0x1_0000 then [0xE0 + c / 0x40 / 0x40, 0x80 + c / 0x40 % 0x40, 0x80 + c % 0x40]
    else [0xF0 + c / 0x40 / 0x40 / 0x40, 0x80 + c / 0x40 / 0x40 % 0x40, 0x80 + c / 0x40 % 0x40, 0x80 + c % 0x40]
  }

  /** Six bits a byte behind the first, the most significant ones first (section 3 of RFC 3629). */
  lemma EncodedValue(c: int)
    requires IsScalar(c)
    ensures var s := EncodeChar(c);
      && |s| == (if c < 0x80 then 1 else if c < 0x800 then 2 else if c < 0x1_0000 then 3 else 4)
      && (forall i | 1 <= i < |s| :: 0x80 <= s[i] < 0xC0)
      && (|s| == 1 ==> c == s[0] < 0x80)
      && (|s| == 2 ==> c == Bits(s[0], 0xC0, 0x40) + Bits(s[1], 0x80, 1))
      && (|s| == 3 ==> c == Bits(s[0], 0xE0, 0x1000) + Bits(s[1], 0x80, 0x40) + Bits(s[2], 0x80, 1))
      && (|s| == 4 ==>
            c == Bits(s[0], 0xF0, 0x4_0000) + Bits(s[1], 0x80, 0x1000) + Bits(s[2], 0x80, 0x40) + Bits(s[3], 0x80, 1))
  {
    var q := c / 0x40;
    var r := q / 0x40;
    assert c == q * 0x40 + c % 0x40 && q == r * 0x40 + q % 0x40 && r == r / 0x40 * 0x40 + r % 0x40;
  }

  /** What a byte adds to the code point, without its marker bits. */
  function Bits(b: byte, marker: int, weight: int): int {
    (b as int - marker) * weight
  }

  function Encode(text: Text): Str
    requires WellFormed(text)
  {
    if |text| == 0 then [] else EncodeChar(text[0]) + Encode(text[1..])
  }

  /** No code point's bytes begin another's. */
  lemma EncodeCharPrefixFree(c: int, d: int, x: Str, y: Str)
    requires IsScalar(c) && IsScalar(d) && EncodeChar(c) + x <= EncodeChar(d) + y
    ensures c == d && x <= y
  {
    var a, b := EncodeChar(c), EncodeChar(d);
    assert (a + x)[0] == (b + y)[0];
    assert |a| == |b|;
    hide EncodeChar;
    forall i | 0 <= i < |a| ensures a[i] == b[i] {
      assert (a + x)[i] == (b + y)[i];
    }
    SameBytes(c, d);
    forall i | 0 <= i < |x| ensures x[i] == y[i] {
      assert (a + x)[|a| + i] == (b + y)[|a| + i];
    }
  }

  lemma SameBytes(c: int, d: int)
    requires IsScalar(c) && IsScalar(d) && EncodeChar(c) == EncodeChar(d)
    ensures c == d
  {
    hide EncodeChar;
    EncodedValue(c);
    EncodedValue(d);
  }

  /** A text begins with another exactly when its bytes do. */
  lemma {:induction false} EncodePrefixIff(p: Text, k: Text)
    requires WellFormed(p) && WellFormed(k)
    ensures Encode(p) <= Encode(k) <==> p <= k
  {
    hide EncodeChar;
    if |p| > 0 && |k| > 0 {
      EncodePrefixIff(p[1..], k[1..]);
      ConsPrefix(p[0], p[1..], k[0], k[1..]);
      assert p == [p[0]] + p[1..] && k == [k[0]] + k[1..];
      if Encode(p) <= Encode(k) {
        EncodeCharPrefixFree(p[0], k[0], Encode(p[1..]), Encode(k[1..]));
      }
    }
  }

  lemma FoldCharEncodes(c: int)
    requires IsScalar(c)
    ensures IsScalar(FoldChar(c)) && EncodeChar(FoldChar(c)) == Fold(EncodeChar(c))
  {
  }

  lemma FoldConcat(a: Text, b: Text)
    ensures Fold(a + b) == Fold(a) + Fold(b)
  {
  }

  /** Folding letters commutes with encoding. */
  lemma {:induction false} FoldEncodes(text: Text)
    requires WellFormed(text)
    ensures WellFormed(Fold(text)) && Encode(Fold(text)) == Fold(Encode(text))
  {
    hide EncodeChar;
    forall i | 0 <= i < |text| ensures IsScalar(Fold(text)[i]) {
      FoldCharEncodes(text[i]);
    }
    if |text| > 0 {
      FoldCharEncodes(text[0]);
      FoldEncodes(text[1..]);
      assert Fold(text)[1..] == Fold(text[1..]);
      FoldConcat(EncodeChar(text[0]), Encode(text[1..]));
    }
  }

  lemma {:induction false} EncodeConcat(a: Text, b: Text)
    requires WellFormed(a) && WellFormed(b)
    ensures WellFormed(a + b) && Encode(a + b) == Encode(a) + Encode(b)
  {
    hide EncodeChar;
    if |a| == 0 {
      assert a + b == b;
    } else {
      EncodeConcat(a[1..], b);
      assert (a + b)[1..] == a[1..] + b;
    }
  }

  lemma {:induction false} EscapeConcat(a: Text, b: Text)
    ensures Escape(a + b) == Escape(a) + Escape(b)
  {
    hide EscapeChar;
    if |a| == 0 {
      assert a + b == b;
    } else {
      EscapeConcat(a[1..], b);
      assert (a + b)[1..] == a[1..] + b;
    }
  }

  /** No byte of a longer encoding is special. */
  lemma EscapeCharEncodes(c: int)
    requires IsScalar(c)
    ensures WellFormed(EscapeChar(c)) && Escape(EncodeChar(c)) == Encode(EscapeChar(c))
  {
    if c < 0x80 {
      var head := EscapeChar(c);
      assert EncodeChar(c) == [c] && [c][1..] == [];
      assert Escape([c]) == head;
      assert head[1..] == if IsSpecial(c) then [c] else [];
      assert Encode([c]) == [c];
    } else {
      EscapePlain(EncodeChar(c));
    }
  }

  lemma {:induction false} EscapePlain(s: Text)
    requires forall i | 0 <= i < |s| :: !IsSpecial(s[i])
    ensures Escape(s) == s
  {
    if |s| > 0 {
      EscapePlain(s[1..]);
    }
  }

  /** The pattern built from a prefix's bytes is the pattern of its code points. */
  lemma {:induction false} EscapeEncodes(text: Text)
    requires WellFormed(text)
    ensures WellFormed(Escape(text)) && Escape(Encode(text)) == Encode(Escape(text))
  {
    if |text| > 0 {
      EscapeEncodes(text[1..]);
      EscapeCharEncodes(text[0]);
      hide EscapeChar, EncodeChar;
      EncodeConcat(EscapeChar(text[0]), Escape(text[1..]));
      EscapeConcat(EncodeChar(text[0]), Encode(text[1..]));
    }
  }

  /** On well-formed text the filter on code points, which SQLite computes, is the filter on bytes. */
  lemma KeyLikeOnTextIff(key: Text, prefix: Text)
    requires WellFormed(key) && WellFormed(prefix)
    ensures KeyLike(key, prefix) <==> KeyLike(Encode(key), Encode(prefix))
    ensures WellFormed(Escape(prefix)) && Escape(Encode(prefix)) == Encode(Escape(prefix))
  {
    EscapeEncodes(prefix);
    KeyLikeIsFoldedPrefix(key, prefix);
    KeyLikeIsFoldedPrefix(Encode(key), Encode(prefix));
    FoldEncodes(key);
    FoldEncodes(prefix);
    EncodePrefixIff(Fold(prefix), Fold(key));
  }
}
