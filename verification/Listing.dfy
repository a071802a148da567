/**
 What a delimited listing means: the matching rows in key order, each giving itself or the common prefix
 up to the first delimiter behind the query prefix, and each common prefix once.
 */
module Listing {
  import opened Bytes
  import opened Tables
  import opened FirstOccurrences

  datatype ObjectInfo = ObjectInfo(
    bucket: Str, key: Str, size: int, contentType: Str, etag: Str, sha256: Str, lastModified: int)

  /** objectInfoFromMetadata. */
  function InfoOf(o: Object): ObjectInfo {
    ObjectInfo(o.bucket, o.key, o.attrs.size, o.attrs.contentType, o.attrs.etag, o.attrs.sha256, o.attrs.lastModified)
  }

  datatype Entry = Listed(info: ObjectInfo) | CommonPrefix(prefix: Str) {
    function Name(): Str {
      if Listed? then info.key else prefix
    }
  }

  function EntryOf(o: Object, prefix: Str, delimiter: Str): Entry {
    var remainder := TrimPrefix(o.key, prefix);
    var idx := Index(remainder, delimiter);
    if delimiter == [] || idx < 0 then Listed(InfoOf(o)) else CommonPrefix(prefix + remainder[..idx] + delimiter)
  }

  function EntriesOf(rows: seq<Object>, prefix: Str, delimiter: Str): (entries: seq<Entry>)
    ensures |entries| == |rows|
    ensures forall i {:trigger entries[i]} | 0 <= i < |rows| :: entries[i] == EntryOf(rows[i], prefix, delimiter)
  {
    seq(|rows|, i requires 0 <= i < |rows| => EntryOf(rows[i], prefix, delimiter))
  }

  /** The one-shot listing: every row's entry, in order, without repetition. */
  function Collapse(rows: seq<Object>, prefix: Str, delimiter: Str): seq<Entry> {
    Dedup(EntriesOf(rows, prefix, delimiter))
  }

  function ObjectsOf(entries: seq<Entry>): seq<ObjectInfo> {
    if |entries| == 0 then [] else
      var init := ObjectsOf(entries[..|entries| - 1]);
      match entries[|entries| - 1]
      case Listed(info) => init + [info]
      case CommonPrefix(_) => init
  }

  function PrefixesOf(entries: seq<Entry>): seq<Str> {
    if |entries| == 0 then [] else
      var init := PrefixesOf(entries[..|entries| - 1]);
      match entries[|entries| - 1]
      case Listed(_) => init
      case CommonPrefix(p) => init + [p]
  }

  // ---------------------------------------------------------------------------------------------
  // Splitting entries into the two lists of a result
  // ---------------------------------------------------------------------------------------------

  lemma SplitAppend(entries: seq<Entry>, e: Entry)
    ensures ObjectsOf(entries + [e]) == if e.Listed? then ObjectsOf(entries) + [e.info] else ObjectsOf(entries)
    ensures PrefixesOf(entries + [e]) ==
      if e.CommonPrefix? then PrefixesOf(entries) + [e.prefix] else PrefixesOf(entries)
  {
    assert (entries + [e])[..|entries|] == entries;
  }

  lemma {:induction false} SplitConcat(a: seq<Entry>, b: seq<Entry>)
    ensures ObjectsOf(a + b) == ObjectsOf(a) + ObjectsOf(b)
    ensures PrefixesOf(a + b) == PrefixesOf(a) + PrefixesOf(b)
  {
    if |b| == 0 {
      assert a + b == a;
    } else {
      var init, last := b[..|b| - 1], b[|b| - 1];
      assert a + b == (a + init) + [last] && b == init + [last];
      SplitConcat(a, init);
      SplitAppend(a + init, last);
      SplitAppend(init, last);
    }
  }

  lemma {:induction false} SplitLength(entries: seq<Entry>)
    ensures |ObjectsOf(entries)| + |PrefixesOf(entries)| == |entries|
    ensures forall p :: p in PrefixesOf(entries) <==> CommonPrefix(p) in entries
    ensures forall i :: i in ObjectsOf(entries) <==> Listed(i) in entries
  {
    if |entries| > 0 {
      var init, last := entries[..|entries| - 1], entries[|entries| - 1];
      SplitLength(init);
      assert entries == init + [last];
      SplitAppend(init, last);
    }
  }

  // ---------------------------------------------------------------------------------------------
  // Rows of a page query
  // ---------------------------------------------------------------------------------------------

  ghost predicate KeyAscending(rows: seq<Object>) {
    forall i, j | 0 <= i < j < |rows| :: Less(rows[i].key, rows[j].key)
  }

  ghost predicate AllPrefixed(rows: seq<Object>, prefix: Str) {
    forall i | 0 <= i < |rows| :: prefix <= rows[i].key
  }

  lemma SelectAfterMeaning(t: Database, bucket: Str, prefix: Str, afterKey: Str)
    ensures var rows := SelectAfter(t, bucket, prefix, afterKey);
      && KeyAscending(rows)
      && (forall i | 0 <= i < |rows| ::
            && rows[i].key in MatchingKeys(t, bucket, prefix) && Less(afterKey, rows[i].key)
            && rows[i].bucket == bucket
            && ObjectRow(rows[i]) in t.objects && rows[i].attrs == t.objects[ObjectRow(rows[i])])
  {
    var rows := SelectAfter(t, bucket, prefix, afterKey);
    var keys := SortKeys(KeysAfter(MatchingKeys(t, bucket, prefix), afterKey));
    assert rows == RowsOf(t, bucket, keys);
    forall i | 0 <= i < |rows| ensures rows[i].key == keys[i] && keys[i] in keys {
    }
  }

  lemma SelectAfterComplete(t: Database, bucket: Str, prefix: Str, afterKey: Str, k: Str)
    requires k in MatchingKeys(t, bucket, prefix) && Less(afterKey, k)
    ensures exists i :: 0 <= i < |SelectAfter(t, bucket, prefix, afterKey)|
                        && SelectAfter(t, bucket, prefix, afterKey)[i].key == k
  {
    var keys := SortKeys(KeysAfter(MatchingKeys(t, bucket, prefix), afterKey));
    assert k in keys;
    var i :| 0 <= i < |keys| && keys[i] == k;
    assert SelectAfter(t, bucket, prefix, afterKey)[i].key == k;
  }

  lemma SortedSuffix(keys: set<Str>, afterKey: Str, sorted: seq<Str>, i: nat)
    requires Ascending(sorted) && forall k :: k in sorted <==> k in keys && Less(afterKey, k)
    requires 0 < i <= |sorted|
    ensures forall k :: k in sorted[i..] <==> k in keys && Less(sorted[i - 1], k)
  {
    var cursor := sorted[i - 1];
    assert cursor in sorted;
    forall k | k in keys && Less(cursor, k) ensures k in sorted[i..] {
      LessTransitive(afterKey, cursor, k);
      assert k in sorted;
      var m :| 0 <= m < |sorted| && sorted[m] == k;
      LessAsymmetric(cursor, k);
      assert m >= i;
      assert sorted[i..][m - i] == k;
    }
    forall k | k in sorted[i..] ensures k in keys && Less(cursor, k) {
      var m :| i <= m < |sorted| && sorted[m] == k;
      assert k in sorted;
    }
  }

  lemma KeysContinue(keys: set<Str>, afterKey: Str, i: nat)
    requires 0 < i <= |SortKeys(KeysAfter(keys, afterKey))|
    ensures SortKeys(KeysAfter(keys, SortKeys(KeysAfter(keys, afterKey))[i - 1])) ==
      SortKeys(KeysAfter(keys, afterKey))[i..]
  {
    var sorted := SortKeys(KeysAfter(keys, afterKey));
    SortedSuffix(keys, afterKey, sorted, i);
    AscendingUnique(SortKeys(KeysAfter(keys, sorted[i - 1])), sorted[i..]);
  }

  lemma RowsOfSuffix(t: Database, bucket: Str, keys: seq<Str>, i: nat)
    requires i <= |keys| && forall k | k in keys :: RowKey(bucket, k) in t.objects
    ensures forall k | k in keys[i..] :: RowKey(bucket, k) in t.objects
    ensures RowsOf(t, bucket, keys[i..]) == RowsOf(t, bucket, keys)[i..]
  {
    assert forall k | k in keys[i..] :: k in keys;
  }

  /** Querying from the i-th key on continues the same rows. */
  lemma SelectAfterContinues(t: Database, bucket: Str, prefix: Str, afterKey: Str, i: nat)
    requires 0 < i <= |SelectAfter(t, bucket, prefix, afterKey)|
    ensures SelectAfter(t, bucket, prefix, SelectAfter(t, bucket, prefix, afterKey)[i - 1].key)
         == SelectAfter(t, bucket, prefix, afterKey)[i..]
  {
    var keys := MatchingKeys(t, bucket, prefix);
    var sorted := SortKeys(KeysAfter(keys, afterKey));
    KeysContinue(keys, afterKey, i);
    RowsOfSuffix(t, bucket, sorted, i);
    assert SelectAfter(t, bucket, prefix, afterKey) == RowsOf(t, bucket, sorted);
    assert SelectAfter(t, bucket, prefix, sorted[i - 1]) == RowsOf(t, bucket, sorted[i..]);
  }

  // ---------------------------------------------------------------------------------------------
  // Groups are blocks of consecutive rows
  // ---------------------------------------------------------------------------------------------

  lemma OccursShared(a: Str, b: Str, sub: Str, m: nat, j: nat)
    requires m <= |a| && m <= |b| && a[..m] == b[..m] && j + |sub| <= m
    ensures OccursAt(a, sub, j) <==> OccursAt(b, sub, j)
  {
    assert a[j..j + |sub|] == a[..m][j..j + |sub|];
    assert b[j..j + |sub|] == b[..m][j..j + |sub|];
  }

  lemma OccurrencesShared(a: Str, b: Str, sub: Str, i: nat)
    requires i + |sub| <= |a| && i + |sub| <= |b| && a[..i + |sub|] == b[..i + |sub|]
    ensures forall j | 0 <= j <= i :: OccursAt(a, sub, j) <==> OccursAt(b, sub, j)
  {
    forall j | 0 <= j <= i ensures OccursAt(a, sub, j) <==> OccursAt(b, sub, j) {
      OccursShared(a, b, sub, i + |sub|, j);
    }
  }

  /** The first delimiter falls at the same place in every string that agrees up to its end. */
  lemma IndexShared(a: Str, b: Str, sub: Str, i: nat)
    requires Index(a, sub) == i && i + |sub| <= |a| && i + |sub| <= |b| && a[..i + |sub|] == b[..i + |sub|]
    ensures Index(b, sub) == i
  {
    IndexFromIsFirst(a, sub, 0, i);
    OccurrencesShared(a, b, sub, i);
    assert OccursAt(b, sub, i) && forall j | 0 <= j < i :: !OccursAt(b, sub, j);
    IndexFromIsFirst(b, sub, 0, i);
  }

  lemma IndexBounds(s: Str, sub: Str)
    requires Index(s, sub) >= 0
    ensures Index(s, sub) + |sub| <= |s|
    ensures s[..Index(s, sub)] + sub == s[..Index(s, sub) + |sub|]
  {
    var i := Index(s, sub);
    IndexFromIsFirst(s, sub, 0, i);
    assert s[..i + |sub|] == s[..i] + s[i..i + |sub|];
  }

  /** A common prefix is a prefix of its key, ending behind the first delimiter. */
  lemma GroupBounds(prefix: Str, r: Str, delimiter: Str, i: nat)
    requires Index(r, delimiter) == i
    ensures i + |delimiter| <= |r|
    ensures prefix + r[..i] + delimiter == prefix + r[..i + |delimiter|] <= prefix + r
  {
    IndexBounds(r, delimiter);
    ConcatBounds(prefix, r, delimiter, i);
  }

  lemma ConcatBounds(prefix: Str, r: Str, sub: Str, i: nat)
    requires i + |sub| <= |r| && r[..i] + sub == r[..i + |sub|]
    ensures prefix + r[..i] + sub == prefix + r[..i + |sub|] <= prefix + r
  {
    assert prefix + r[..i] + sub == prefix + (r[..i] + sub);
    assert prefix + r[..i + |sub|] == (prefix + r)[..|prefix| + i + |sub|];
  }

  lemma SharedRemainder(prefix: Str, head: Str, r: Str)
    ensures prefix + head <= prefix + r <==> head <= r
  {
    if prefix + head <= prefix + r {
      assert head == (prefix + head)[|prefix|..];
      assert (prefix + r)[..|prefix| + |head|][|prefix|..] == r[..|head|];
    }
    if head <= r {
      assert prefix + head == (prefix + r)[..|prefix| + |head|];
    }
  }

  /** The keys of one common prefix are exactly the keys that start with it. */
  lemma GroupShared(prefix: Str, a: Str, b: Str, delimiter: Str, i: nat)
    requires Index(a, delimiter) == i
    ensures var p := prefix + a[..i] + delimiter;
      p <= prefix + b <==> Index(b, delimiter) >= 0 && prefix + b[..Index(b, delimiter)] + delimiter == p
  {
    GroupBounds(prefix, a, delimiter, i);
    SharedRemainder(prefix, a[..i + |delimiter|], b);
    if a[..i + |delimiter|] <= b {
      IndexShared(a, b, delimiter, i);
      assert b[..i] == b[..i + |delimiter|][..i] == a[..i + |delimiter|][..i] == a[..i];
    } else if Index(b, delimiter) >= 0 {
      GroupBounds(prefix, b, delimiter, Index(b, delimiter));
    }
  }

  lemma GroupIsPrefix(a: Object, b: Object, prefix: Str, delimiter: Str)
    requires prefix <= a.key && prefix <= b.key && EntryOf(a, prefix, delimiter).CommonPrefix?
    ensures EntryOf(a, prefix, delimiter).prefix <= a.key
    ensures EntryOf(b, prefix, delimiter) == EntryOf(a, prefix, delimiter)
      <==> EntryOf(a, prefix, delimiter).prefix <= b.key
  {
    var ra, rb := TrimPrefix(a.key, prefix), TrimPrefix(b.key, prefix);
    assert a.key == prefix + ra && b.key == prefix + rb;
    GroupBounds(prefix, ra, delimiter, Index(ra, delimiter));
    GroupShared(prefix, ra, rb, delimiter, Index(ra, delimiter));
  }

  lemma PrefixedRowsContiguous(rows: seq<Object>, prefix: Str, delimiter: Str)
    requires KeyAscending(rows) && AllPrefixed(rows, prefix)
    ensures Contiguous(EntriesOf(rows, prefix, delimiter))
  {
    var es := EntriesOf(rows, prefix, delimiter);
    forall i, m, j | 0 <= i < m < j < |es| && es[i] == es[j] ensures es[m] == es[i] {
      MiddleRowSameGroup(rows[i], rows[m], rows[j], prefix, delimiter);
    }
  }

  lemma MiddleRowSameGroup(a: Object, b: Object, c: Object, prefix: Str, delimiter: Str)
    requires prefix <= a.key && prefix <= b.key && prefix <= c.key && Less(a.key, b.key) && Less(b.key, c.key)
    requires EntryOf(a, prefix, delimiter) == EntryOf(c, prefix, delimiter)
    ensures EntryOf(b, prefix, delimiter) == EntryOf(a, prefix, delimiter)
  {
    if EntryOf(a, prefix, delimiter).Listed? {
      LessTransitive(a.key, b.key, c.key);
      LessIrreflexive(a.key);
    } else {
      GroupIsPrefix(a, c, prefix, delimiter);
      PrefixContiguous(EntryOf(a, prefix, delimiter).prefix, a.key, b.key, c.key);
      GroupIsPrefix(a, b, prefix, delimiter);
    }
  }

  // ---------------------------------------------------------------------------------------------
  // The collapse, characterised without any order of evaluation
  // ---------------------------------------------------------------------------------------------

  ghost predicate NamesAscend(entries: seq<Entry>) {
    forall i, j | 0 <= i < j < |entries| :: Less(entries[i].Name(), entries[j].Name())
  }

  /** What a row's key says about its entry's name, and about the names of other groups. */
  lemma EarlierNameLess(a: Entry, b: Entry, ka: Str, kb: Str)
    requires a.Name() <= ka && Less(ka, kb)
    requires b.Name() == kb || (b.Name() <= kb && !(b.Name() <= ka))
    ensures Less(a.Name(), b.Name())
  {
    var na := a.Name();
    if b.Name() != kb {
      LessThanBlock(ka, b.Name(), kb);
    }
    if na != ka {
      assert ka == na + ka[|na|..];
      LessExtension(na, ka[|na|..]);
      LessTransitive(na, ka, b.Name());
    }
  }

  /** An earlier row of another group is named before a later row's entry. */
  lemma EarlierEntryLess(a: Object, b: Object, prefix: Str, delimiter: Str)
    requires prefix <= a.key && prefix <= b.key && Less(a.key, b.key)
    requires EntryOf(a, prefix, delimiter) != EntryOf(b, prefix, delimiter)
    ensures Less(EntryOf(a, prefix, delimiter).Name(), EntryOf(b, prefix, delimiter).Name())
  {
    EntryNamedByKey(a, b, prefix, delimiter);
    EntryNamedByKey(b, a, prefix, delimiter);
    EarlierNameLess(EntryOf(a, prefix, delimiter), EntryOf(b, prefix, delimiter), a.key, b.key);
  }

  lemma EntryNamedByKey(a: Object, b: Object, prefix: Str, delimiter: Str)
    requires prefix <= a.key && prefix <= b.key
    ensures EntryOf(a, prefix, delimiter).Name() <= a.key
    ensures EntryOf(a, prefix, delimiter) != EntryOf(b, prefix, delimiter) ==>
      EntryOf(a, prefix, delimiter).Name() == a.key || !(EntryOf(a, prefix, delimiter).Name() <= b.key)
  {
    if EntryOf(a, prefix, delimiter).CommonPrefix? {
      GroupIsPrefix(a, b, prefix, delimiter);
    }
  }

  lemma {:induction false} DedupNamesAscend(entries: seq<Entry>)
    requires forall i, j | 0 <= i < j < |entries| ::
      entries[i] == entries[j] || Less(entries[i].Name(), entries[j].Name())
    ensures NamesAscend(Dedup(entries))
  {
    if |entries| > 0 {
      var init, last := entries[..|entries| - 1], entries[|entries| - 1];
      DedupNamesAscend(init);
      DedupMembers(init);
      var earlier := Dedup(init);
      if last !in earlier {
        forall i | 0 <= i < |earlier| ensures Less(earlier[i].Name(), last.Name()) {
          assert earlier[i] in earlier;
          var m :| 0 <= m < |init| && init[m] == earlier[i];
          assert entries[m] == init[m];
        }
      }
    }
  }

  /** The entries' names strictly ascend, whether they are keys or common prefixes. */
  lemma CollapseStrictlySorted(rows: seq<Object>, prefix: Str, delimiter: Str)
    requires KeyAscending(rows) && AllPrefixed(rows, prefix)
    ensures NamesAscend(Collapse(rows, prefix, delimiter))
  {
    var es := EntriesOf(rows, prefix, delimiter);
    forall i, j | 0 <= i < j < |es| ensures es[i] == es[j] || Less(es[i].Name(), es[j].Name()) {
      if es[i] != es[j] {
        EarlierEntryLess(rows[i], rows[j], prefix, delimiter);
      }
    }
    DedupNamesAscend(es);
  }
}
