/**
 The metadata store's prefix filter: `key LIKE escape(prefix)% ESCAPE '\'` as SQLite evaluates it. A text is a
 sequence of characters; a string of bytes is one, and so is a string of code points.
 */
module Like {
  import opened Bytes

  type Text = seq<int>

  const PERCENT: byte := 0x25
  const UNDERSCORE: byte := 0x5F
  const BACKSLASH: byte := 0x5C

  /** LIKE compares ASCII letters without regard to case. */
  function FoldChar(c: int): int {
    if 0x41 <= c <= 0x5A then c + 0x20 else c
  }

  function Fold(s: Text): (f: Text)
    ensures |f| == |s|
  {
    seq(|s|, i requires 0 <= i < |s| => FoldChar(s[i]))
  }

  /** Folding takes for equal exactly the two cases of an ASCII letter. */
  lemma FoldCharIff(c: int, d: int)
    ensures FoldChar(c) == FoldChar(d) <==>
      || c == d
      || ('A' as int <= c <= 'Z' as int && d == c - 'A' as int + 'a' as int)
      || ('A' as int <= d <= 'Z' as int && c == d - 'A' as int + 'a' as int)
  {
  }

  /** SQLite's LIKE with ESCAPE '\', character by character. */
  predicate Matches(pattern: Text, text: Text)
    decreases |pattern| + |text|
  {
    if |pattern| == 0 then |text| == 0
    else if pattern[0] == PERCENT then
      Matches(pattern[1..], text) || (|text| > 0 && Matches(pattern, text[1..]))
    else if pattern[0] == BACKSLASH then
      && |pattern| > 1 && |text| > 0
      && FoldChar(pattern[1]) == FoldChar(text[0]) && Matches(pattern[2..], text[1..])
    else
      && |text| > 0
      && (pattern[0] == UNDERSCORE || FoldChar(pattern[0]) == FoldChar(text[0]))
      && Matches(pattern[1..], text[1..])
  }

  predicate IsSpecial(c: int) {
    c == PERCENT || c == UNDERSCORE || c == BACKSLASH
  }

  function EscapeChar(c: int): Text {
    if IsSpecial(c) then [BACKSLASH, c] else [c]
  }

  /** escapeSQLiteLikePattern. */
  function Escape(value: Text): Text {
    if |value| == 0 then [] else EscapeChar(value[0]) + Escape(value[1..])
  }

  /** The WHERE clause's filter on the key. */
  predicate KeyLike(key: Text, prefix: Text) {
    Matches(Escape(prefix) + [PERCENT], key)
  }

  lemma {:induction false} PercentMatchesAll(text: Text)
    ensures Matches([PERCENT], text)
  {
    if |text| > 0 {
      PercentMatchesAll(text[1..]);
    }
  }

  lemma ConsPrefix(a: int, x: Text, b: int, y: Text)
    ensures [a] + x <= [b] + y <==> a == b && x <= y
  {
    if [a] + x <= [b] + y {
      assert ([a] + x)[0] == ([b] + y)[0];
      forall i | 0 <= i < |x| ensures x[i] == y[i] {
        assert ([a] + x)[i + 1] == ([b] + y)[i + 1];
      }
    }
    if a == b && x <= y {
      assert ([b] + y)[..|x| + 1] == [a] + x;
    }
  }

  /** No character of the prefix acts as a wildcard: the filter is a case-folded prefix test. */
  lemma {:induction false} KeyLikeIsFoldedPrefix(key: Text, prefix: Text)
    ensures KeyLike(key, prefix) <==> Fold(prefix) <= Fold(key)
  {
    var pattern := Escape(prefix) + [PERCENT];
    if |prefix| == 0 {
      assert pattern == [PERCENT] && Fold(prefix) == [];
      PercentMatchesAll(key);
    } else {
      var rest := Escape(prefix[1..]) + [PERCENT];
      var head := EscapeChar(prefix[0]);
      assert pattern == head + rest;
      assert pattern[|head|..] == rest;
      if |key| > 0 {
        KeyLikeIsFoldedPrefix(key[1..], prefix[1..]);
        ConsPrefix(FoldChar(prefix[0]), Fold(prefix[1..]), FoldChar(key[0]), Fold(key[1..]));
        assert Fold(key) == [FoldChar(key[0])] + Fold(key[1..]);
        assert Fold(prefix) == [FoldChar(prefix[0])] + Fold(prefix[1..]);
      }
    }
  }

  /** Every key with the prefix passes the filter. */
  lemma PrefixIsLike(key: Text, prefix: Text)
    requires prefix <= key
    ensures KeyLike(key, prefix)
  {
    KeyLikeIsFoldedPrefix(key, prefix);
  }
}
