/** The canonical headers of AWS Signature Version 4: the signed names, lower-cased, distinct, sorted and looked up. */
module HeaderCanonical {
  import opened Bytes
  import opened Results
  import opened Sequences
  import opened Sorting
  import QueryCanonical

  const SEMICOLON: byte := 0x3B
  const COLON: byte := 0x3A
  const NEWLINE: byte := 0x0A

  /** strings.Join with a one-byte separator. */
  function JoinTexts(texts: seq<Str>, sep: byte): Str {
    if |texts| == 0 then []
    else if |texts| == 1 then texts[0]
    else texts[0] + [sep] + JoinTexts(texts[1..], sep)
  }

  /** The lines of the signed headers; `value` looks a header up and normalises what it finds. */
  function HeaderLines(names: seq<Str>, value: Str -> Option<Str>): (lines: seq<Str>)
    requires forall i | 0 <= i < |names| :: value(names[i]).Some?
    ensures |lines| == |names|
  {
    seq(|names|, i requires 0 <= i < |names| => names[i] + [COLON] + value(names[i]).value)
  }

  function Normalized(headers: seq<Str>, normalize: Str -> Str): (names: seq<Str>)
    ensures |names| == |headers| && forall i | 0 <= i < |headers| :: names[i] == normalize(headers[i])
  {
    seq(|headers|, i requires 0 <= i < |headers| => normalize(headers[i]))
  }

  function NameSet(names: seq<Str>): set<Str> {
    set n | n in names
  }

  /** The names a request may sign with: none empty, none twice, all there. */
  ghost predicate Signable(names: seq<Str>, value: Str -> Option<Str>) {
    [] !in names && Distinct(names) && forall n | n in names :: value(n).Some?
  }

  /** The two texts a set of names gives. */
  function CanonicalOf(names: set<Str>, value: Str -> Option<Str>): (Str, Str)
    requires forall n | n in names :: value(n).Some?
  {
    var sorted := SortKeys(names);
    assert forall i | 0 <= i < |sorted| :: sorted[i] in sorted;
    (JoinTexts(HeaderLines(sorted, value), NEWLINE) + [NEWLINE], JoinTexts(sorted, SEMICOLON))
  }

  lemma JoinedOne(text: Str, sep: byte)
    ensures EndToEnd(JoinTexts([text], sep) + [sep], Terminated([text], sep), [0, |text| + 1])
  {
    assert JoinTexts([text], sep) + [sep] == Terminated([text], sep)[0];
  }

  lemma JoinedCons(texts: seq<Str>, sep: byte)
    requires |texts| > 1
    ensures JoinTexts(texts, sep) + [sep] == (texts[0] + [sep]) + (JoinTexts(texts[1..], sep) + [sep])
    ensures Terminated(texts, sep) == [texts[0] + [sep]] + Terminated(texts[1..], sep)
  {
  }

  /** Joined texts, closed with the separator, are the texts with the separator behind each. */
  lemma {:induction false} JoinedEndToEnd(texts: seq<Str>, sep: byte) returns (ends: seq<nat>)
    requires |texts| > 0
    ensures EndToEnd(JoinTexts(texts, sep) + [sep], Terminated(texts, sep), ends)
  {
    hide *;
    if |texts| == 1 {
      JoinedOne(texts[0], sep);
      assert texts == [texts[0]];
      ends := [0, |texts[0]| + 1];
    } else {
      JoinedCons(texts, sep);
      var rest := JoinedEndToEnd(texts[1..], sep);
      var piece := texts[0] + [sep];
      EndToEndPrepend(piece, JoinTexts(texts[1..], sep) + [sep], Terminated(texts[1..], sep), rest);
      ends := [0] + seq(|rest|, i requires 0 <= i < |rest| => |piece| + rest[i]);
    }
  }

  /** One line `name:value` for each name in order, and the names with semicolons between them. */
  ghost predicate SignedTexts(texts: (Str, Str), names: seq<Str>, value: Str -> Option<Str>) {
    if names == [] then texts == (Ascii("\n"), []) else
      exists lines: seq<Str>, ends: seq<nat>, marks: seq<nat> ::
        && LinesOf(lines, names, value) && EndToEnd(texts.0, lines, ends)
        && EndToEnd(texts.1 + Ascii(";"), Terminated(names, 0x3B), marks)
  }

  ghost predicate LinesOf(lines: seq<Str>, names: seq<Str>, value: Str -> Option<Str>) {
    && |lines| == |names|
    && forall i | 0 <= i < |names| ::
         value(names[i]).Some? && lines[i] == names[i] + Ascii(":") + value(names[i]).value + Ascii("\n")
  }

  lemma LinesTerminated(names: seq<Str>, value: Str -> Option<Str>)
    requires forall i | 0 <= i < |names| :: value(names[i]).Some?
    ensures LinesOf(Terminated(HeaderLines(names, value), NEWLINE), names, value)
  {
    assert Ascii("\n") == [NEWLINE] && Ascii(":") == [COLON];
  }

  lemma TextsSigned(texts: (Str, Str), names: seq<Str>, value: Str -> Option<Str>, lines: seq<Str>, ends: seq<nat>,
                    marks: seq<nat>)
    requires names != [] && LinesOf(lines, names, value) && EndToEnd(texts.0, lines, ends)
    requires EndToEnd(texts.1 + Ascii(";"), Terminated(names, 0x3B), marks)
    ensures SignedTexts(texts, names, value)
  {
    hide LinesOf, EndToEnd, Ascii;
  }

  lemma NoTexts(value: Str -> Option<Str>)
    ensures SignedTexts((JoinTexts(HeaderLines([], value), NEWLINE) + [NEWLINE], JoinTexts([], SEMICOLON)), [], value)
  {
    assert Ascii("\n") == [NEWLINE];
    assert HeaderLines([], value) == [];
    assert JoinTexts(HeaderLines([], value), NEWLINE) + [NEWLINE] == [NEWLINE] && JoinTexts([], SEMICOLON) == [];
  }

  lemma Marks()
    ensures Ascii(";") == [SEMICOLON] && SEMICOLON == 0x3B
  {
  }

  lemma CanonicalTexts(names: seq<Str>, value: Str -> Option<Str>)
    requires forall i | 0 <= i < |names| :: value(names[i]).Some?
    ensures SignedTexts((JoinTexts(HeaderLines(names, value), NEWLINE) + [NEWLINE], JoinTexts(names, SEMICOLON)), names,
                        value)
  {
    hide *;
    if names == [] {
      NoTexts(value);
    } else {
      Marks();
      var lines := HeaderLines(names, value);
      LinesTerminated(names, value);
      var ends := JoinedEndToEnd(lines, NEWLINE);
      var marks := JoinedEndToEnd(names, SEMICOLON);
      TextsSigned((JoinTexts(lines, NEWLINE) + [NEWLINE], JoinTexts(names, SEMICOLON)), names, value,
                  Terminated(lines, NEWLINE), ends, marks);
    }
  }

  /** The first name that is empty or has been there before, and the error it deserves. */
  ghost predicate FirstOffence(names: seq<Str>, i: nat, error: Error) {
    && i < |names| && [] !in names[..i] && Distinct(names[..i])
    && if names[i] == [] then error == EmptySignedHeader else names[i] in names[..i] && error == DuplicateSignedHeader
  }

  /** The first loop: normalise the names, refusing an empty or a repeated one. */
  method CollectNames(headers: seq<Str>, normalize: Str -> Str) returns (r: Result<set<Str>>)
    ensures r.Ok? <==> [] !in Normalized(headers, normalize) && Distinct(Normalized(headers, normalize))
    ensures r.Ok? ==> r.value == NameSet(Normalized(headers, normalize))
    ensures r.Err? ==> exists i: nat :: FirstOffence(Normalized(headers, normalize), i, r.error)
  {
    ghost var names := Normalized(headers, normalize);
    var seen: set<Str> := {};
    for i := 0 to |headers|
      invariant seen == NameSet(names[..i]) && [] !in names[..i] && Distinct(names[..i])
    {
      var name := normalize(headers[i]);
      assert names[..i + 1] == names[..i] + [name];
      if name == [] {
        assert names[i] == [];
        assert FirstOffence(names, i, EmptySignedHeader);
        return Err(EmptySignedHeader);
      }
      if name in seen {
        ghost var j :| 0 <= j < i && names[..i][j] == name;
        assert names[j] == names[i];
        assert FirstOffence(names, i, DuplicateSignedHeader);
        return Err(DuplicateSignedHeader);
      }
      seen := seen + {name};
    }
    assert names[..|headers|] == names;
    return Ok(seen);
  }

  /** canonicalHeaders. */
  method CanonicalHeaders(headers: seq<Str>, normalize: Str -> Str, value: Str -> Option<Str>)
    returns (r: Result<(Str, Str)>)
    ensures r.Ok? <==> Signable(Normalized(headers, normalize), value)
    ensures r.Ok? ==> r.value == CanonicalOf(NameSet(Normalized(headers, normalize)), value)
    ensures r.Ok? ==> exists names ::
      && Ascending(names) && (forall n :: n in names <==> n in Normalized(headers, normalize))
      && SignedTexts(r.value, names, value)
    ensures r.Err? ==>
      var names := Normalized(headers, normalize);
      if [] in names || !Distinct(names) then exists i: nat :: FirstOffence(names, i, r.error)
      else r.error == MissingSignedHeader
  {
    hide SignedTexts, JoinTexts, Less;
    ghost var names := Normalized(headers, normalize);
    var collected := CollectNames(headers, normalize);
    if collected.Err? {
      return Err(collected.error);
    }
    var sorted := SortKeys(collected.value);
    var lines: seq<Str> := [];
    for i := 0 to |sorted|
      invariant |lines| == i
      invariant forall k | 0 <= k < i ::
        value(sorted[k]).Some? && lines[k] == sorted[k] + [COLON] + value(sorted[k]).value
    {
      if value(sorted[i]).None? {
        assert sorted[i] in sorted;
        return Err(MissingSignedHeader);
      }
      lines := lines + [sorted[i] + [COLON] + value(sorted[i]).value];
    }
    forall n | n in names ensures value(n).Some? {
      assert n in sorted;
      var k :| 0 <= k < |sorted| && sorted[k] == n;
    }
    assert lines == HeaderLines(sorted, value);
    CanonicalTexts(sorted, value);
    return Ok((JoinTexts(lines, NEWLINE) + [NEWLINE], JoinTexts(sorted, SEMICOLON)));
  }

  // ---------------------------------------------------------------------------------------------
  // What the texts depend on
  // ---------------------------------------------------------------------------------------------

  ghost predicate Free(texts: seq<Str>, sep: byte) {
    forall i | 0 <= i < |texts| :: sep !in texts[i]
  }

  lemma JoinedHead(texts: seq<Str>, sep: byte)
    requires |texts| > 0 && sep !in texts[0]
    ensures Index(JoinTexts(texts, sep), [sep]) == if |texts| == 1 then -1 else |texts[0]|
    ensures |texts| > 1 ==> JoinTexts(texts, sep)[..|texts[0]|] == texts[0]
    ensures |texts| > 1 ==> JoinTexts(texts, sep)[|texts[0]| + 1..] == JoinTexts(texts[1..], sep)
  {
    if |texts| == 1 {
      QueryCanonical.NotFound(texts[0], sep);
    } else {
      FirstByteIndex(texts[0], sep, JoinTexts(texts[1..], sep));
    }
  }

  /** Splitting undoes joining. */
  lemma {:induction false} SplitJoined(texts: seq<Str>, sep: byte)
    requires |texts| > 0 && Free(texts, sep)
    ensures QueryCanonical.Split(JoinTexts(texts, sep), sep) == texts
  {
    JoinedHead(texts, sep);
    hide JoinTexts, Index;
    if |texts| > 1 {
      SplitJoined(texts[1..], sep);
    }
  }

  lemma SameNamesSameSet(a: seq<Str>, b: seq<Str>)
    requires multiset(a) == multiset(b)
    ensures NameSet(a) == NameSet(b)
  {
    forall n ensures n in a <==> n in b {
      assert n in a <==> n in multiset(a);
      assert n in b <==> n in multiset(b);
    }
  }

  /** The order of the signed header list does not matter, neither for being accepted nor for the texts. */
  lemma HeaderOrderIrrelevant(a: seq<Str>, b: seq<Str>, value: Str -> Option<Str>)
    requires multiset(a) == multiset(b)
    ensures Signable(a, value) <==> Signable(b, value)
    ensures Signable(a, value) ==> CanonicalOf(NameSet(a), value) == CanonicalOf(NameSet(b), value)
  {
    SameNamesSameSet(a, b);
    assert forall n :: n in a <==> n in NameSet(a);
    assert forall n :: n in b <==> n in NameSet(b);
    if Distinct(a) {
      DistinctPermuted(a, b);
    }
    if Distinct(b) {
      DistinctPermuted(b, a);
    }
  }

  /** The signed header list tells exactly which names were signed, as long as names hold no semicolon. */
  lemma SignedListIff(a: set<Str>, b: set<Str>, value: Str -> Option<Str>)
    requires forall n | n in a || n in b :: value(n).Some? && SEMICOLON !in n && n != []
    ensures CanonicalOf(a, value).1 == CanonicalOf(b, value).1 <==> a == b
  {
    var s, t := SortKeys(a), SortKeys(b);
    assert forall i | 0 <= i < |s| :: s[i] in a by { assert forall i | 0 <= i < |s| :: s[i] in s; }
    assert forall i | 0 <= i < |t| :: t[i] in b by { assert forall i | 0 <= i < |t| :: t[i] in t; }
    if JoinTexts(s, SEMICOLON) == JoinTexts(t, SEMICOLON) {
      JoinedInjective(s, t);
      forall n ensures n in a <==> n in b {
        assert n in s <==> n in a;
        assert n in t <==> n in b;
      }
    }
  }

  lemma JoinedInjective(s: seq<Str>, t: seq<Str>)
    requires Free(s, SEMICOLON) && Free(t, SEMICOLON) && JoinTexts(s, SEMICOLON) == JoinTexts(t, SEMICOLON)
    requires (forall i | 0 <= i < |s| :: s[i] != []) && (forall i | 0 <= i < |t| :: t[i] != [])
    ensures s == t
  {
    JoinedLength(s);
    JoinedLength(t);
    if |s| > 0 && |t| > 0 {
      SplitJoined(s, SEMICOLON);
      SplitJoined(t, SEMICOLON);
    }
  }

  lemma JoinedLength(s: seq<Str>)
    requires forall i | 0 <= i < |s| :: s[i] != []
    ensures JoinTexts(s, SEMICOLON) == [] <==> s == []
  {
    assert |s| > 0 ==> |s[0]| > 0;
  }
}
