/** Go strings as byte sequences, with the byte order that both Go's `<` and SQLite's BINARY collation use. */
module Bytes {

  type byte = b: int | 0 <= b < 0x100

  type Str = seq<byte>

  /** A string literal of the source, given by its ASCII text. */
  function Ascii(text: string): (s: Str)
    requires forall i | 0 <= i < |text| :: text[i] < 256 as char
  {
    seq(|text|, i requires 0 <= i < |text| => text[i] as int)
  }

  /** The 64-bit two's complement value of an exact integer result. */
  function Wrap64(x: int): (w: int)
    ensures -0x8000_0000_0000_0000 <= w < 0x8000_0000_0000_0000
    ensures -0x8000_0000_0000_0000 <= x < 0x8000_0000_0000_0000 ==> w == x
  {
    (x + 0x8000_0000_0000_0000) % 0x1_0000_0000_0000_0000 - 0x8000_0000_0000_0000
  }

  // ---------------------------------------------------------------------------------------------
  // Lexicographic order
  // ---------------------------------------------------------------------------------------------

  predicate Less(a: Str, b: Str) {
    && |b| > 0
    && (|a| == 0 || a[0] < b[0] || (a[0] == b[0] && Less(a[1..], b[1..])))
  }

  predicate AtMost(a: Str, b: Str) {
    a == b || Less(a, b)
  }

  lemma {:induction false} LessIrreflexive(a: Str)
    ensures !Less(a, a)
  {
    if |a| > 0 {
      LessIrreflexive(a[1..]);
    }
  }

  lemma {:induction false} LessTransitive(a: Str, b: Str, c: Str)
    requires Less(a, b) && Less(b, c)
    ensures Less(a, c)
  {
    if |a| > 0 && a[0] == b[0] && b[0] == c[0] {
      LessTransitive(a[1..], b[1..], c[1..]);
    }
  }

  lemma LessAsymmetric(a: Str, b: Str)
    requires Less(a, b)
    ensures !Less(b, a) && a != b
  {
    LessIrreflexive(a);
    if Less(b, a) {
      LessTransitive(a, b, a);
    }
  }

  lemma {:induction false} LessTotal(a: Str, b: Str)
    ensures Less(a, b) || a == b || Less(b, a)
  {
    if |a| > 0 && |b| > 0 && a[0] == b[0] {
      LessTotal(a[1..], b[1..]);
      assert a == [a[0]] + a[1..] && b == [b[0]] + b[1..];
    }
  }

  /** Strings are ordered as their remainders behind a shared prefix are. */
  lemma {:induction false} LessUnderPrefix(p: Str, a: Str, b: Str)
    ensures Less(p + a, p + b) <==> Less(a, b)
  {
    if |p| == 0 {
      assert p + a == a && p + b == b;
    } else {
      assert (p + a)[1..] == p[1..] + a && (p + b)[1..] == p[1..] + b;
      LessUnderPrefix(p[1..], a, b);
    }
  }

  /** A proper extension of a string comes after it. */
  lemma {:induction false} LessExtension(p: Str, x: Str)
    requires |x| > 0
    ensures Less(p, p + x)
  {
    assert p + [] == p;
    LessUnderPrefix(p, [], x);
  }

  /** The strings with a given prefix are contiguous in the order. */
  lemma {:induction false} PrefixContiguous(p: Str, a: Str, b: Str, c: Str)
    requires p <= a && p <= c && Less(a, b) && Less(b, c)
    ensures p <= b
  {
    if |p| > 0 {
      LessTransitive(a, b, c);
      assert a[0] == b[0] == c[0];
      PrefixContiguous(p[1..], a[1..], b[1..], c[1..]);
      assert p == [p[0]] + p[1..] && b == [b[0]] + b[1..];
    }
  }

  /** A string outside a block of strings that share prefix `p`, and before one of them, is before `p` itself. */
  lemma {:induction false} LessThanBlock(a: Str, p: Str, k: Str)
    requires Less(a, k) && p <= k && !(p <= a)
    ensures Less(a, p)
  {
    if |a| > 0 && a[0] == p[0] {
      assert p == [p[0]] + p[1..] && a == [a[0]] + a[1..];
      LessThanBlock(a[1..], p[1..], k[1..]);
    }
  }

  // ---------------------------------------------------------------------------------------------
  // strings.Index and strings.TrimPrefix
  // ---------------------------------------------------------------------------------------------

  predicate OccursAt(s: Str, sub: Str, i: nat) {
    i + |sub| <= |s| && s[i..i + |sub|] == sub
  }

  function IndexFrom(s: Str, sub: Str, from: nat): (i: int)
    requires from <= |s|
    ensures i == -1 || (from <= i && i + |sub| <= |s|)
    decreases |s| - from
  {
    if OccursAt(s, sub, from) then from
    else if from == |s| then -1
    else IndexFrom(s, sub, from + 1)
  }

  /** strings.Index: the first position at which `sub` occurs, or -1. */
  function Index(s: Str, sub: Str): (i: int)
    ensures i == -1 || (0 <= i && i + |sub| <= |s|)
  {
    IndexFrom(s, sub, 0)
  }

  lemma {:induction false} IndexFromIsFirst(s: Str, sub: Str, from: nat, i: nat)
    requires from <= i <= |s|
    ensures IndexFrom(s, sub, from) == i <==> OccursAt(s, sub, i) && forall j | from <= j < i :: !OccursAt(s, sub, j)
    decreases |s| - from
  {
    if from < i {
      IndexFromIsFirst(s, sub, from + 1, i);
    } else if !OccursAt(s, sub, from) && from < |s| {
      assert IndexFrom(s, sub, from) == IndexFrom(s, sub, from + 1);
    }
  }

  lemma {:induction false} IndexFromNone(s: Str, sub: Str, from: nat, j: nat)
    requires from <= j <= |s| && IndexFrom(s, sub, from) == -1
    ensures !OccursAt(s, sub, j)
    decreases |s| - from
  {
    if from < j {
      IndexFromNone(s, sub, from + 1, j);
    }
  }

  /** A byte that does not occur in `first` is found right behind it. */
  lemma FirstByteIndex(first: Str, c: byte, last: Str)
    requires c !in first
    ensures Index(first + [c] + last, [c]) == |first|
  {
    var s := first + [c] + last;
    assert OccursAt(s, [c], |first|);
    forall j | 0 <= j < |first| ensures !OccursAt(s, [c], j) {
      assert s[j..j + 1][0] == first[j];
    }
    IndexFromIsFirst(s, [c], 0, |first|);
  }

  lemma FirstSeparator(s: Str, sep: byte)
    requires Index(s, [sep]) >= 0
    ensures var i := Index(s, [sep]); i < |s| && s[i] == sep && sep !in s[..i]
  {
    var i := Index(s, [sep]);
    IndexFromIsFirst(s, [sep], 0, i);
    assert s[i..i + 1] == [s[i]];
    forall j | 0 <= j < i ensures s[j] != sep {
      assert !OccursAt(s, [sep], j);
      assert s[j..j + 1] == [s[j]];
    }
  }

  lemma PresentByte(s: Str, sep: byte)
    requires sep in s
    ensures Index(s, [sep]) >= 0
  {
    hide Index;
    var j := 0;
    while s[j] != sep
      invariant j < |s| && sep !in s[..j]
      decreases |s| - j
    {
      assert s == s[..j + 1] + s[j + 1..] && s[..j + 1] == s[..j] + [s[j]];
      j := j + 1;
    }
    FirstByteIndex(s[..j], sep, s[j + 1..]);
    assert s == s[..j] + [sep] + s[j + 1..];
  }

  lemma AbsentByte(s: Str, sep: byte)
    requires Index(s, [sep]) < 0
    ensures sep !in s
  {
    if sep in s {
      PresentByte(s, sep);
    }
  }

  /** strings.TrimPrefix: leaves `s` alone when it does not start with `prefix`. */
  function TrimPrefix(s: Str, prefix: Str): Str {
    if prefix <= s then s[|prefix|..] else s
  }

  // ---------------------------------------------------------------------------------------------
  // Ascending sequences of keys
  // ---------------------------------------------------------------------------------------------

  ghost predicate Ascending(keys: seq<Str>) {
    forall i, j | 0 <= i < j < |keys| :: Less(keys[i], keys[j])
  }

  predicate IsLeast(k: Str, keys: set<Str>) {
    k in keys && forall x | x in keys :: AtMost(k, x)
  }

  lemma LeastExists(keys: set<Str>)
    requires keys != {}
    ensures exists k :: IsLeast(k, keys)
  {
    var k :| k in keys;
    var rest := keys - {k};
    if rest == {} {
      assert keys == {k};
      assert IsLeast(k, keys);
    } else {
      LeastExists(rest);
      var m :| IsLeast(m, rest);
      LessTotal(k, m);
      var least := if Less(m, k) then m else k;
      forall x | x in keys ensures AtMost(least, x) {
        if x != k && Less(k, m) && Less(m, x) {
          LessTransitive(k, m, x);
        }
        assert x == k || x in rest;
      }
      assert IsLeast(least, keys);
    }
  }

  lemma LeastUnique(keys: set<Str>)
    ensures forall a, b | IsLeast(a, keys) && IsLeast(b, keys) :: a == b
  {
    forall a, b | IsLeast(a, keys) && IsLeast(b, keys) ensures a == b {
      if a != b {
        LessAsymmetric(a, b);
      }
    }
  }

  /** ORDER BY key ASC over a set of keys. */
  function SortKeys(keys: set<Str>): (sorted: seq<Str>)
    ensures Ascending(sorted)
    ensures forall k :: k in sorted <==> k in keys
    ensures |sorted| == |keys|
  {
    if keys == {} then [] else
      LeastExists(keys);
      LeastUnique(keys);
      var k :| IsLeast(k, keys);
      var rest := SortKeys(keys - {k});
      assert forall x | x in rest :: Less(k, x);
      [k] + rest
  }

  /** An ascending sequence is determined by the set of its elements. */
  lemma {:induction false} AscendingUnique(a: seq<Str>, b: seq<Str>)
    requires Ascending(a) && Ascending(b)
    requires forall k :: k in a <==> k in b
    ensures a == b
  {
    assert forall i | 0 <= i < |a| :: a[i] in b;
    assert forall i | 0 <= i < |b| :: b[i] in a;
    if |a| > 0 && |b| > 0 {
      if a[0] != b[0] {
        assert Less(b[0], a[0]) && Less(a[0], b[0]);
        LessAsymmetric(a[0], b[0]);
      }
      forall k ensures k in a[1..] <==> k in b[1..] {
        LessIrreflexive(a[0]);
        assert k in a <==> k == a[0] || k in a[1..];
        assert k in b <==> k == b[0] || k in b[1..];
        if k == a[0] {
          assert k !in a[1..] && k !in b[1..];
        }
      }
      AscendingUnique(a[1..], b[1..]);
      assert a == [a[0]] + a[1..] && b == [b[0]] + b[1..];
    }
  }
}
