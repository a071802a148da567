/** WebDAV collections: the children of a key prefix, one name each. */
module Collections {
  import opened Bytes
  import opened Like
  import opened Tables
  import opened PrefixOps
  import opened MetadataStore
  import opened FirstOccurrences
  import opened Listing
  import opened ObjectListing
  import opened Sorting
  import opened Pages
  import opened Commands

  datatype Child = Child(name: Str, isDir: bool, size: int, modTime: int, contentType: Str, etag: Str)

  predicate ByName(a: Child, b: Child) {
    Less(a.name, b.name)
  }

  /** canonicalCollectionKey. */
  function CanonicalCollectionKey(key: Str): Str {
    if key == [] || SLASH <= key[|key| - 1..] then key else key + SLASH
  }

  /** The key of a collection as the file system asks for it. */
  predicate IsCollectionKey(prefix: Str) {
    prefix == [] || prefix[|prefix| - 1] == SLASH[0]
  }

  lemma CanonicalIsCollectionKey(key: Str)
    ensures IsCollectionKey(CanonicalCollectionKey(key))
    ensures key <= CanonicalCollectionKey(key) <= key + SLASH
    ensures IsCollectionKey(key) <==> CanonicalCollectionKey(key) == key
  {
    if |key| > 0 {
      assert key[|key| - 1..] == [key[|key| - 1]];
    }
  }

  /** The object that marks the collection itself. */
  predicate IsMarker(e: Entry, prefix: Str) {
    e.Listed? && e.info.key == prefix
  }

  /** The child an entry stands for; a directory takes its time from the first row of its group. */
  function ChildOf(e: Entry, prefix: Str, first: Object): Child {
    match e
    case Listed(info) =>
      Child(TrimPrefix(info.key, prefix), false, info.size, info.lastModified, info.contentType, info.etag)
    case CommonPrefix(p) => Child(TrimPrefix(p, prefix), true, 0, first.attrs.lastModified, [], [])
  }

  /** The first row of an entry. */
  ghost function FirstRow(es: seq<Entry>, e: Entry): (i: nat)
    requires e in es
    ensures i < |es| && es[i] == e && forall j | 0 <= j < i :: es[j] != e
  {
    if es[0] == e then 0 else 1 + FirstRow(es[1..], e)
  }

  /** The children in the order the loop finds them. */
  ghost function ChildrenOf(rows: seq<Object>, es: seq<Entry>, shown: seq<Entry>, prefix: Str): (children: seq<Child>)
    requires |rows| == |es| && forall e | e in shown :: e in es
  {
    if |shown| == 0 then [] else
      var e := shown[|shown| - 1];
      var init := ChildrenOf(rows, es, shown[..|shown| - 1], prefix);
      assert e in shown;
      if IsMarker(e, prefix) then init else init + [ChildOf(e, prefix, rows[FirstRow(es, e)])]
  }

  /** The listing of a collection, before it is sorted. */
  ghost function Unsorted(db: Database, bucket: Str, prefix: Str): seq<Child> {
    var rows := SelectAfter(db, bucket, prefix, []);
    var es := EntriesOf(rows, prefix, SLASH);
    DedupMembers(es);
    ChildrenOf(rows, es, Dedup(es), prefix)
  }

  /** What the loop has found after `n` rows, and the directory names it has seen. */
  ghost predicate Found(rows: seq<Object>, es: seq<Entry>, n: nat, prefix: Str, children: seq<Child>, seen: set<Str>) {
    && |rows| == |es| && n <= |es|
    && (forall e | e in View(es, n).entries :: e in es)
    && children == ChildrenOf(rows, es, View(es, n).entries, prefix)
    && forall name :: name in seen <==> CommonPrefix(prefix + name) in View(es, n).entries
  }

  lemma FoundSame(rows: seq<Object>, es: seq<Entry>, n: nat, prefix: Str, children: seq<Child>, seen: set<Str>)
    requires n < |es| && Found(rows, es, n, prefix, children, seen) && !IsNew(es, n)
    ensures Found(rows, es, n + 1, prefix, children, seen)
  {
  }

  /** A new entry's first row is the one that brings it. */
  lemma NewRowIsFirst(es: seq<Entry>, n: nat)
    requires n < |es| && IsNew(es, n)
    ensures FirstRow(es, es[n]) == n
  {
    ViewEntries(es, n);
    DedupMembers(es[..n]);
    assert forall i | 0 <= i < n :: es[i] == es[..n][i];
  }

  lemma NewName(prefix: Str, p: Str)
    requires prefix <= p
    ensures forall name :: CommonPrefix(prefix + name) == CommonPrefix(p) <==> name == p[|prefix|..]
  {
    assert p == prefix + p[|prefix|..];
    forall name ensures prefix + name == p <==> name == p[|prefix|..] {
      assert (prefix + name)[|prefix|..] == name;
    }
  }

  lemma FoundNext(rows: seq<Object>, es: seq<Entry>, n: nat, prefix: Str, children: seq<Child>, seen: set<Str>)
    requires n < |es| && Found(rows, es, n, prefix, children, seen) && IsNew(es, n)
    ensures var e := es[n];
      && (IsMarker(e, prefix) ==> Found(rows, es, n + 1, prefix, children, seen))
      && (!IsMarker(e, prefix) && e.Listed? ==>
           Found(rows, es, n + 1, prefix, children + [ChildOf(e, prefix, rows[n])], seen))
      && (e.CommonPrefix? && prefix <= e.prefix ==>
            Found(rows, es, n + 1, prefix, children + [ChildOf(e, prefix, rows[n])], seen + {e.prefix[|prefix|..]}))
  {
    hide ChildOf, FirstRow;
    var e := es[n];
    var before, after := View(es, n).entries, View(es, n + 1).entries;
    assert after == before + [e] && after[..|before|] == before;
    NewRowIsFirst(es, n);
    if e.CommonPrefix? && prefix <= e.prefix {
      NewName(prefix, e.prefix);
    }
  }

  lemma RowEntry(o: Object, prefix: Str)
    ensures var remainder := TrimPrefix(o.key, prefix);
      var idx := Index(remainder, SLASH);
      && (idx < 0 ==> EntryOf(o, prefix, SLASH) == Listed(InfoOf(o)))
      && (idx >= 0 ==>
           idx + 1 <= |remainder| && EntryOf(o, prefix, SLASH) == CommonPrefix(prefix + remainder[..idx + 1]))
  {
    var remainder := TrimPrefix(o.key, prefix);
    if Index(remainder, SLASH) >= 0 {
      IndexBounds(remainder, SLASH);
      assert prefix + remainder[..Index(remainder, SLASH)] + SLASH ==
        prefix + (remainder[..Index(remainder, SLASH)] + SLASH);
    }
  }

  /** A directory is new exactly when its name is. */
  lemma SeenMeansShown(rows: seq<Object>, es: seq<Entry>, n: nat, prefix: Str, children: seq<Child>, seen: set<Str>,
                       name: Str)
    requires n < |es| && Found(rows, es, n, prefix, children, seen) && es[n] == CommonPrefix(prefix + name)
    ensures name in seen <==> !IsNew(es, n)
  {
  }

  /** One row of collectionChildren. */
  method AddChild(o: Object, prefix: Str, children0: seq<Child>, seen0: set<Str>,
                  ghost rows: seq<Object>, ghost es: seq<Entry>, ghost n: nat)
    returns (children: seq<Child>, seen: set<Str>)
    requires n < |es| && Found(rows, es, n, prefix, children0, seen0) && ListedOnce(es)
    requires |rows| == |es| && rows[n] == o && o.key != [] && es[n] == EntryOf(o, prefix, SLASH)
    ensures Found(rows, es, n + 1, prefix, children, seen)
  {
    hide View, Found, Index, ListedOnce, IsNew, EntryOf;
    children, seen := children0, seen0;
    RowEntry(o, prefix);
    if IsNew(es, n) {
      FoundNext(rows, es, n, prefix, children0, seen0);
    } else {
      FoundSame(rows, es, n, prefix, children0, seen0);
    }
    var remainder := TrimPrefix(o.key, prefix);
    var idx := Index(remainder, SLASH);
    if idx < 0 {
      ListedIsNew(es, n);
    } else {
      SeenMeansShown(rows, es, n, prefix, children0, seen0, remainder[..idx + 1]);
    }
    if remainder == [] {
      IndexOfEmpty();
      return;
    }
    if idx >= 0 {
      var name := remainder[..idx + 1];
      assert (prefix + name)[|prefix|..] == name;
      if name in seen {
        return;
      }
      seen := seen + {name};
      children := children + [Child(name, true, 0, o.attrs.lastModified, [], [])];
      return;
    }
    children := children +
      [Child(remainder, false, o.attrs.size, o.attrs.lastModified, o.attrs.contentType, o.attrs.etag)];
  }

  lemma IndexOfEmpty()
    ensures Index([], SLASH) < 0
  {
    assert !OccursAt([], SLASH, 0);
  }

  /** collectionChildren. */
  method CollectionChildren(meta: SQLiteStore, bucket: Str, prefix: Str) returns (children: seq<Child>)
    ensures children == SortBy(Unsorted(meta.db, bucket, prefix), ByName)
  {
    hide SelectAfter, EntryOf, Found, KeyAscending, ListedOnce;
    var objects := meta.ListAllObjects(bucket, prefix);
    ghost var es := EntriesOf(objects, prefix, SLASH);
    SelectAfterMeaning(meta.db, bucket, prefix, []);
    KeysListedOnce(objects, prefix, SLASH);
    var seen: set<Str> := {};
    children := [];
    NothingFound(objects, es, prefix);
    for n := 0 to |objects|
      invariant Found(objects, es, n, prefix, children, seen)
    {
      children, seen := AddChild(objects[n], prefix, children, seen, objects, es, n);
    }
    AllFound(meta.db, bucket, prefix, objects, es, children, seen);
    children := SortBy(children, ByName);
  }

  lemma NothingFound(rows: seq<Object>, es: seq<Entry>, prefix: Str)
    requires |rows| == |es|
    ensures Found(rows, es, 0, prefix, [], {})
  {
  }

  lemma AllFound(db: Database, bucket: Str, prefix: Str, rows: seq<Object>, es: seq<Entry>, children: seq<Child>,
                 seen: set<Str>)
    requires rows == SelectAfter(db, bucket, prefix, []) && es == EntriesOf(rows, prefix, SLASH)
    requires Found(rows, es, |rows|, prefix, children, seen)
    ensures children == Unsorted(db, bucket, prefix)
  {
    hide SelectAfter, EntryOf, View;
    ViewEntries(es, |es|);
    assert es[..|es|] == es;
  }

  // ---------------------------------------------------------------------------------------------
  // What a collection shows
  // ---------------------------------------------------------------------------------------------

  lemma ByNameIsOrder()
    ensures IsOrder(ByName)
  {
    forall a: Child, b: Child ensures ByName(a, b) ==> !ByName(b, a) {
      if Less(a.name, b.name) {
        LessAsymmetric(a.name, b.name);
      }
    }
    forall a: Child, b: Child, c: Child | !ByName(c, b) && !ByName(b, a) ensures !ByName(c, a) {
      LessTotal(b.name, a.name);
      if Less(a.name, b.name) && Less(c.name, a.name) {
        LessTransitive(c.name, a.name, b.name);
      }
    }
  }

  ghost predicate NamesStrictlyAscend(children: seq<Child>) {
    forall i, j | 0 <= i < j < |children| :: Less(children[i].name, children[j].name)
  }

  /** The child stands for an entry of the listing other than the collection's own marker. */
  ghost predicate StandsFor(rows: seq<Object>, es: seq<Entry>, shown: seq<Entry>, prefix: Str, c: Child, e: Entry)
    requires |rows| == |es| && forall x | x in shown :: x in es
  {
    e in shown && !IsMarker(e, prefix) && c == ChildOf(e, prefix, rows[FirstRow(es, e)])
  }

  /** The children are those of the entries. */
  lemma {:induction false} ChildrenMembers(rows: seq<Object>, es: seq<Entry>, shown: seq<Entry>, prefix: Str, c: Child)
    requires |rows| == |es| && forall x | x in shown :: x in es
    ensures c in ChildrenOf(rows, es, shown, prefix) <==> exists e :: StandsFor(rows, es, shown, prefix, c, e)
  {
    if |shown| > 0 {
      var init, last := shown[..|shown| - 1], shown[|shown| - 1];
      assert last in shown && forall x :: x in shown <==> x in init || x == last;
      ChildrenMembers(rows, es, init, prefix, c);
      if e :| StandsFor(rows, es, shown, prefix, c, e) {
        assert e != last ==> StandsFor(rows, es, init, prefix, c, e);
      }
      if e :| StandsFor(rows, es, init, prefix, c, e) {
        assert StandsFor(rows, es, shown, prefix, c, e);
      }
      if !IsMarker(last, prefix) && c == ChildOf(last, prefix, rows[FirstRow(es, last)]) {
        assert StandsFor(rows, es, shown, prefix, c, last);
      }
    }
  }

  /** Entries of a collection that are not equal give different names. */
  ghost predicate NamesSeparate(shown: seq<Entry>, prefix: Str) {
    forall i, j | 0 <= i < j < |shown| && !IsMarker(shown[i], prefix) && !IsMarker(shown[j], prefix) ::
      TrimPrefix(shown[i].Name(), prefix) != TrimPrefix(shown[j].Name(), prefix)
  }

  lemma {:induction false} ChildNamesDistinct(rows: seq<Object>, es: seq<Entry>, shown: seq<Entry>, prefix: Str)
    requires |rows| == |es| && (forall x | x in shown :: x in es) && NamesSeparate(shown, prefix)
    ensures var children := ChildrenOf(rows, es, shown, prefix);
      forall i, j | 0 <= i < j < |children| :: children[i].name != children[j].name
  {
    if |shown| > 0 {
      var n := |shown| - 1;
      var init, last := shown[..n], shown[n];
      assert last in shown;
      ChildNamesDistinct(rows, es, init, prefix);
      var earlier := ChildrenOf(rows, es, init, prefix);
      forall i | 0 <= i < |earlier| && !IsMarker(last, prefix)
        ensures earlier[i].name != TrimPrefix(last.Name(), prefix)
      {
        ChildrenMembers(rows, es, init, prefix, earlier[i]);
        var e :| StandsFor(rows, es, init, prefix, earlier[i], e);
        var m :| 0 <= m < n && shown[m] == e;
      }
    }
  }

  lemma {:induction false} ChildNamesAscend(rows: seq<Object>, es: seq<Entry>, shown: seq<Entry>, prefix: Str)
    requires |rows| == |es| && (forall x | x in shown :: x in es)
    requires NamesAscend(shown) && forall x | x in shown :: prefix <= x.Name()
    ensures NamesStrictlyAscend(ChildrenOf(rows, es, shown, prefix))
  {
    if |shown| > 0 {
      var n := |shown| - 1;
      var init, last := shown[..n], shown[n];
      assert last in shown;
      ChildNamesAscend(rows, es, init, prefix);
      var earlier := ChildrenOf(rows, es, init, prefix);
      forall i | 0 <= i < |earlier| && !IsMarker(last, prefix)
        ensures Less(earlier[i].name, TrimPrefix(last.Name(), prefix))
      {
        ChildrenMembers(rows, es, init, prefix, earlier[i]);
        var e :| StandsFor(rows, es, init, prefix, earlier[i], e);
        var m :| 0 <= m < n && shown[m] == e;
        StrippedLess(prefix, e.Name(), last.Name());
      }
    }
  }

  lemma StrippedLess(prefix: Str, a: Str, b: Str)
    requires prefix <= a && prefix <= b && Less(a, b)
    ensures Less(TrimPrefix(a, prefix), TrimPrefix(b, prefix))
  {
    assert a == prefix + a[|prefix|..] && b == prefix + b[|prefix|..];
    LessUnderPrefix(prefix, a[|prefix|..], b[|prefix|..]);
  }

  // ---------------------------------------------------------------------------------------------
  // Children never share a name, even when case folding lets foreign keys in
  // ---------------------------------------------------------------------------------------------

  /** A key the filter lets through without its having the prefix of a collection is shown as a directory. */
  lemma StrayIsDirectory(o: Object, prefix: Str)
    requires IsCollectionKey(prefix) && Fold(prefix) <= Fold(o.key) && !(prefix <= o.key)
    ensures EntryOf(o, prefix, SLASH).CommonPrefix?
  {
    var i := |prefix| - 1;
    assert Fold(prefix)[i] == Fold(o.key)[i];
    assert OccursAt(o.key, SLASH, i);
    if Index(o.key, SLASH) < 0 {
      IndexFromNone(o.key, SLASH, 0, i);
    }
  }

  /** Names of directories end with the only slash a name may hold. */
  lemma ChildName(o: Object, prefix: Str)
    ensures var e := EntryOf(o, prefix, SLASH);
      var name := TrimPrefix(e.Name(), prefix);
      && (e.CommonPrefix? ==> e.prefix == prefix + name && SLASH[0] in name)
      && (e.Listed? ==> e.info.key == o.key && SLASH[0] !in name)
  {
    RowEntry(o, prefix);
    var remainder := TrimPrefix(o.key, prefix);
    var idx := Index(remainder, SLASH);
    if idx < 0 {
      forall i | 0 <= i < |remainder| ensures remainder[i] != SLASH[0] {
        IndexFromNone(remainder, SLASH, 0, i);
        assert !OccursAt(remainder, SLASH, i);
        assert remainder[i..i + 1] == [remainder[i]];
      }
    } else {
      IndexFromIsFirst(remainder, SLASH, 0, idx);
      assert remainder[idx..idx + 1] == [remainder[idx]];
      assert remainder[..idx + 1][idx] == SLASH[0];
      assert (prefix + remainder[..idx + 1])[|prefix|..] == remainder[..idx + 1];
    }
  }

  lemma RowNamesDiffer(a: Object, b: Object, prefix: Str)
    requires IsCollectionKey(prefix) && Fold(prefix) <= Fold(a.key) && Fold(prefix) <= Fold(b.key)
    requires a.key == b.key ==> a == b
    requires EntryOf(a, prefix, SLASH) != EntryOf(b, prefix, SLASH)
    ensures TrimPrefix(EntryOf(a, prefix, SLASH).Name(), prefix) != TrimPrefix(EntryOf(b, prefix, SLASH).Name(), prefix)
  {
    hide EntryOf;
    ChildName(a, prefix);
    ChildName(b, prefix);
    if EntryOf(a, prefix, SLASH).Listed? && EntryOf(b, prefix, SLASH).Listed? {
      if !(prefix <= a.key) {
        StrayIsDirectory(a, prefix);
      } else if !(prefix <= b.key) {
        StrayIsDirectory(b, prefix);
      } else {
        assert a.key == prefix + TrimPrefix(a.key, prefix) && b.key == prefix + TrimPrefix(b.key, prefix);
      }
    }
  }

  lemma EntryNamesSeparate(rows: seq<Object>, es: seq<Entry>, prefix: Str)
    requires IsCollectionKey(prefix) && KeyAscending(rows) && es == EntriesOf(rows, prefix, SLASH)
    requires forall i | 0 <= i < |rows| :: Fold(prefix) <= Fold(rows[i].key)
    ensures NamesSeparate(Dedup(es), prefix)
  {
    hide EntryOf;
    var shown := Dedup(es);
    DedupDistinct(es);
    DedupMembers(es);
    forall i, j | 0 <= i < j < |shown|
      ensures TrimPrefix(shown[i].Name(), prefix) != TrimPrefix(shown[j].Name(), prefix)
    {
      assert shown[i] in shown && shown[j] in shown;
      var m :| 0 <= m < |es| && es[m] == shown[i];
      var n :| 0 <= n < |es| && es[n] == shown[j];
      assert shown[i] != shown[j];
      KeysDiffer(rows, m, n);
      RowNamesDiffer(rows[m], rows[n], prefix);
    }
  }

  lemma KeysDiffer(rows: seq<Object>, m: nat, n: nat)
    requires KeyAscending(rows) && m < |rows| && n < |rows| && m != n
    ensures rows[m].key != rows[n].key
  {
    LessAsymmetric(rows[if m < n then m else n].key, rows[if m < n then n else m].key);
  }

  /**
   Any collection listing is strictly ordered by name and shows one child for each entry of the slash-delimited
   collapse, except the collection's own marker.
   */
  lemma CollectionIsCollapse(db: Database, bucket: Str, prefix: Str)
    requires IsCollectionKey(prefix)
    ensures var rows := SelectAfter(db, bucket, prefix, []);
      var es := EntriesOf(rows, prefix, SLASH);
      var children := SortBy(Unsorted(db, bucket, prefix), ByName);
      && NamesStrictlyAscend(children)
      && (forall e :: e in Dedup(es) ==> e in es)
      && (forall c :: c in children <==> exists e :: StandsFor(rows, es, Dedup(es), prefix, c, e))
  {
    hide SelectAfter, EntryOf;
    var rows := SelectAfter(db, bucket, prefix, []);
    var es := EntriesOf(rows, prefix, SLASH);
    var found := Unsorted(db, bucket, prefix);
    DedupMembers(es);
    RowsMatch(db, bucket, prefix, rows);
    EntryNamesSeparate(rows, es, prefix);
    assert found == ChildrenOf(rows, es, Dedup(es), prefix);
    ChildNamesDistinct(rows, es, Dedup(es), prefix);
    SortedNames(found);
    forall c ensures c in SortBy(found, ByName) <==> exists e :: StandsFor(rows, es, Dedup(es), prefix, c, e) {
      ChildrenMembers(rows, es, Dedup(es), prefix, c);
      SortByMembers(found, c);
    }
  }

  lemma RowsMatch(db: Database, bucket: Str, prefix: Str, rows: seq<Object>)
    requires rows == SelectAfter(db, bucket, prefix, [])
    ensures KeyAscending(rows) && forall i | 0 <= i < |rows| :: Fold(prefix) <= Fold(rows[i].key)
  {
    SelectAfterMeaning(db, bucket, prefix, []);
    forall i | 0 <= i < |rows| ensures Fold(prefix) <= Fold(rows[i].key) {
      MatchingKeysMember(db, bucket, prefix, rows[i].key);
    }
  }

  lemma SortByMembers(children: seq<Child>, c: Child)
    ensures c in SortBy(children, ByName) <==> c in children
  {
    ByNameIsOrder();
    SortByOrders(children, ByName);
    assert c in multiset(children) <==> c in children;
    assert c in multiset(SortBy(children, ByName)) <==> c in SortBy(children, ByName);
  }

  /** Children of different names are sorted strictly. */
  lemma SortedNames(children: seq<Child>)
    requires forall i, j | 0 <= i < j < |children| :: children[i].name != children[j].name
    ensures NamesStrictlyAscend(SortBy(children, ByName))
  {
    var sorted := SortBy(children, ByName);
    ByNameIsOrder();
    SortByOrders(children, ByName);
    DistinctPermuted(children, sorted);
    forall i, j | 0 <= i < j < |sorted| ensures Less(sorted[i].name, sorted[j].name) {
      assert sorted[i] in multiset(children) && sorted[j] in multiset(children);
      var m :| 0 <= m < |children| && children[m] == sorted[i];
      var n :| 0 <= n < |children| && children[n] == sorted[j];
      assert sorted[i] != sorted[j];
      LessTotal(sorted[i].name, sorted[j].name);
    }
  }

  /**
   With no stray key the loop already finds the children in the order of their names: the collapse, prefix stripped.
   */
  lemma CollectionInOrder(db: Database, bucket: Str, prefix: Str)
    requires NoStray(db, bucket, prefix)
    ensures NamesStrictlyAscend(Unsorted(db, bucket, prefix))
    ensures SortBy(Unsorted(db, bucket, prefix), ByName) == Unsorted(db, bucket, prefix)
  {
    hide SelectAfter, EntryOf;
    var rows := SelectAfter(db, bucket, prefix, []);
    var es := EntriesOf(rows, prefix, SLASH);
    SelectAfterMeaning(db, bucket, prefix, []);
    CollapseStrictlySorted(rows, prefix, SLASH);
    DedupMembers(es);
    forall e | e in Dedup(es) ensures prefix <= e.Name() {
      var i :| 0 <= i < |es| && es[i] == e;
      RowEntry(rows[i], prefix);
    }
    ChildNamesAscend(rows, es, Dedup(es), prefix);
    AscendingIsSorted(Unsorted(db, bucket, prefix));
  }

  lemma AscendingIsSorted(children: seq<Child>)
    requires NamesStrictlyAscend(children)
    ensures SortBy(children, ByName) == children
  {
    ByNameIsOrder();
    forall i, j | 0 <= i < j < |children| ensures !ByName(children[j], children[i]) {
      LessAsymmetric(children[i].name, children[j].name);
    }
    SortByUnique(children, children, ByName);
  }

  // ---------------------------------------------------------------------------------------------
  // The children, key by key
  // ---------------------------------------------------------------------------------------------

  /**
   How a key shows whose text behind the prefix is `rest`: as itself with its own attributes, or, with a slash in it,
   as the directory up to the first slash.
   */
  ghost predicate ShowsKey(c: Child, rest: Str, attrs: ObjectAttrs) {
    if 0x2F !in rest then
      c.name == rest && !c.isDir && c.size == attrs.size && c.modTime == attrs.lastModified
      && c.contentType == attrs.contentType && c.etag == attrs.etag
    else IsDirectory(c) && c.name <= rest
  }

  ghost predicate IsDirectory(c: Child) {
    && c.isDir && c.size == 0 && c.contentType == [] && c.etag == []
    && c.name != [] && c.name[|c.name| - 1] == 0x2F && 0x2F !in c.name[..|c.name| - 1]
  }

  /** What the entry of a row looks like as a child. */
  lemma RowChild(o: Object, prefix: Str, first: Object)
    requires IsCollectionKey(prefix) && o.key != []
    ensures var e, rest := EntryOf(o, prefix, SLASH), TrimPrefix(o.key, prefix);
      && (IsMarker(e, prefix) <==> rest == [])
      && (rest != [] ==> ShowsKey(ChildOf(e, prefix, first), rest, o.attrs))
      && (0x2F in rest ==> ChildOf(e, prefix, first).modTime == first.attrs.lastModified)
  {
    var rest := TrimPrefix(o.key, prefix);
    var idx := Index(rest, SLASH);
    RowEntry(o, prefix);
    assert SLASH == [0x2F];
    if idx < 0 {
      AbsentByte(rest, 0x2F);
    } else {
      FirstSeparator(rest, 0x2F);
      assert (prefix + rest[..idx + 1])[|prefix|..] == rest[..idx + 1];
      assert rest[..idx + 1][..idx] == rest[..idx];
    }
  }

  /** Keys with the same directory in front of their first slash share their entry. */
  lemma SameDirectory(a: Object, b: Object, prefix: Str, c: Child)
    requires IsDirectory(c) && c.name <= TrimPrefix(a.key, prefix) && c.name <= TrimPrefix(b.key, prefix)
    ensures EntryOf(a, prefix, SLASH) == EntryOf(b, prefix, SLASH)
  {
    FirstSlash(a, prefix, c);
    FirstSlash(b, prefix, c);
  }

  lemma FirstSlash(o: Object, prefix: Str, c: Child)
    requires IsDirectory(c) && c.name <= TrimPrefix(o.key, prefix)
    ensures EntryOf(o, prefix, SLASH) == CommonPrefix(prefix + c.name)
  {
    var rest, n := TrimPrefix(o.key, prefix), |c.name| - 1;
    assert SLASH == [0x2F];
    FirstByteIndex(c.name[..n], 0x2F, rest[n + 1..]);
    assert rest == c.name[..n] + [0x2F] + rest[n + 1..];
    RowEntry(o, prefix);
    assert rest[..n + 1] == c.name;
  }

  /** Every key under a collection other than its marker shows as a child, foreign keys too. */
  lemma KeyIsShown(db: Database, bucket: Str, prefix: Str, k: Str)
    requires IsCollectionKey(prefix) && k in MatchingKeys(db, bucket, prefix) && k != [] && TrimPrefix(k, prefix) != []
    ensures RowKey(bucket, k) in db.objects
    ensures exists c :: c in SortBy(Unsorted(db, bucket, prefix), ByName)
                        && ShowsKey(c, TrimPrefix(k, prefix), db.objects[RowKey(bucket, k)])
  {
    hide SelectAfter, EntryOf, MatchingKeys, Unsorted, ShowsKey, ChildOf;
    MatchingKeysMember(db, bucket, prefix, k);
    var rows := SelectAfter(db, bucket, prefix, []);
    var es := EntriesOf(rows, prefix, SLASH);
    CollectionIsCollapse(db, bucket, prefix);
    SelectAfterMeaning(db, bucket, prefix, []);
    SelectAfterComplete(db, bucket, prefix, [], k);
    var i :| 0 <= i < |rows| && rows[i].key == k;
    RowsMatch(db, bucket, prefix, rows);
    DedupMembers(es);
    assert es[i] in Dedup(es);
    var first := rows[FirstRow(es, es[i])];
    RowChild(rows[i], prefix, first);
    var c := ChildOf(es[i], prefix, first);
    assert StandsFor(rows, es, Dedup(es), prefix, c, es[i]);
    assert c in SortBy(Unsorted(db, bucket, prefix), ByName);
    assert ObjectRow(rows[i]) == RowKey(bucket, k);
  }

  /** Every child shows some key, and a directory has the time of the first key in it. */
  lemma ChildShowsKey(db: Database, bucket: Str, prefix: Str, c: Child)
    requires IsCollectionKey(prefix) && c in SortBy(Unsorted(db, bucket, prefix), ByName)
    ensures exists k :: IsShownAs(db, bucket, prefix, k, c)
  {
    hide SelectAfter, EntryOf, MatchingKeys, Unsorted, ShowsKey, ChildOf, IsDirectory;
    var rows := SelectAfter(db, bucket, prefix, []);
    var es := EntriesOf(rows, prefix, SLASH);
    CollectionIsCollapse(db, bucket, prefix);
    SelectAfterMeaning(db, bucket, prefix, []);
    RowsMatch(db, bucket, prefix, rows);
    var e :| StandsFor(rows, es, Dedup(es), prefix, c, e);
    var i := FirstRow(es, e);
    RowChild(rows[i], prefix, rows[i]);
    hide SortBy, FirstRow, StandsFor, TrimPrefix, AtMost;
    FirstOfDirectory(db, bucket, prefix, rows, es, i, c);
    assert IsShownAs(db, bucket, prefix, rows[i].key, c);
  }

  lemma FirstOfDirectory(db: Database, bucket: Str, prefix: Str, rows: seq<Object>, es: seq<Entry>, i: nat, c: Child)
    requires rows == SelectAfter(db, bucket, prefix, []) && es == EntriesOf(rows, prefix, SLASH) && i < |rows|
    requires forall j | 0 <= j < i :: es[j] != es[i]
    requires ShowsKey(c, TrimPrefix(rows[i].key, prefix), rows[i].attrs)
    ensures forall other | other in MatchingKeys(db, bucket, prefix) && other != [] && IsDirectory(c)
                           && c.name <= TrimPrefix(other, prefix) :: AtMost(rows[i].key, other)
  {
    hide SelectAfter, EntryOf, MatchingKeys, ShowsKey, IsDirectory, TrimPrefix;
    SelectAfterMeaning(db, bucket, prefix, []);
    forall k | k in MatchingKeys(db, bucket, prefix) && k != [] && IsDirectory(c) && c.name <= TrimPrefix(k, prefix)
      ensures AtMost(rows[i].key, k)
    {
      SelectAfterComplete(db, bucket, prefix, [], k);
      var j :| 0 <= j < |rows| && rows[j].key == k;
      DirectoryHasSlash(c, TrimPrefix(rows[i].key, prefix), rows[i].attrs);
      SameDirectory(rows[i], rows[j], prefix, c);
      assert es[j] == es[i];
    }
  }

  lemma DirectoryHasSlash(c: Child, rest: Str, attrs: ObjectAttrs)
    requires ShowsKey(c, rest, attrs) && IsDirectory(c)
    ensures c.name <= rest
  {
  }

  ghost predicate IsShownAs(db: Database, bucket: Str, prefix: Str, k: Str, c: Child) {
    && k in MatchingKeys(db, bucket, prefix) && k != [] && RowKey(bucket, k) in db.objects
    && var rest, attrs := TrimPrefix(k, prefix), db.objects[RowKey(bucket, k)];
    && rest != [] && ShowsKey(c, rest, attrs) && c.modTime == attrs.lastModified
    && forall other | other in MatchingKeys(db, bucket, prefix) && other != [] && IsDirectory(c)
                      && c.name <= TrimPrefix(other, prefix) :: AtMost(k, other)
  }
}
