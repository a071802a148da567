/** Where recursive copy, move and delete fall short of their promise, with the exact boundary or a concrete table. */
module PrefixFailures {
  import opened Bytes
  import opened Like
  import opened Results
  import opened Tables
  import opened Transactions
  import opened PrefixOps
  import Integrity

  // ---------------------------------------------------------------------------------------------
  // Deletion
  // ---------------------------------------------------------------------------------------------

  ghost predicate DeletedExactly(t: Database, t': Database, bucket: Str, prefix: Str) {
    && t'.buckets == t.buckets
    && forall row: RowKey ::
         if row.bucket == bucket && IsSource(t, bucket, prefix, row.key) then RowAbsent(t', row)
         else RowUnchanged(t, t', row)
  }

  /** A recursive delete removes exactly the keys with the prefix if and only if no other key differs only in case. */
  lemma DeletePrefixExactIff(t: Database, bucket: Str, prefix: Str)
    requires ReferentialIntegrity(t)
    ensures DeletedExactly(t, DeletePrefixRows(t, bucket, prefix), bucket, prefix) <==> NoStray(t, bucket, prefix)
  {
    var u := DeletePrefixRows(t, bucket, prefix);
    IntegrityByList(t);
    if NoStray(t, bucket, prefix) {
      forall row: RowKey
        ensures if row.bucket == bucket && IsSource(t, bucket, prefix, row.key) then RowAbsent(u, row)
                else RowUnchanged(t, u, row)
      {
        DeletePrefixEffect(t, bucket, prefix, row);
        if row.bucket == bucket {
          MatchingKeysMember(t, bucket, prefix, row.key);
          if prefix <= row.key {
            FoldOfPrefix(prefix, row.key);
          }
        }
      }
    } else {
      var k :| k in MatchingKeys(t, bucket, prefix) && !(prefix <= k);
      MatchingKeysMember(t, bucket, prefix, k);
      DeletePrefixEffect(t, bucket, prefix, RowKey(bucket, k));
      assert !RowUnchanged(t, u, RowKey(bucket, k));
    }
  }

  // ---------------------------------------------------------------------------------------------
  // Moving a prefix to a spelling of itself, or into itself
  // ---------------------------------------------------------------------------------------------

  /** A move whose destination folds to, or below, the source loses every object it was asked to move. */
  lemma MoveUnderOwnFoldLosesAll(t: Database, bucket: Str, srcPrefix: Str, dstPrefix: Str, overwrite: bool, now: int,
                                 key: Str)
    requires MovePrefixTx(t, bucket, srcPrefix, dstPrefix, overwrite, now).Ok?
    requires Fold(srcPrefix) <= Fold(dstPrefix) && IsSource(t, bucket, srcPrefix, key)
    ensures var v := MovePrefixTx(t, bucket, srcPrefix, dstPrefix, overwrite, now).value.0;
      && RowAbsent(v, RowKey(bucket, key))
      && RowAbsent(v, RowKey(bucket, ImageKey(key, srcPrefix, dstPrefix)))
  {
    var u := CopyPrefixTx(t, bucket, srcPrefix, dstPrefix, overwrite, now).value.0;
    var image := ImageKey(key, srcPrefix, dstPrefix);
    FoldOfPrefix(srcPrefix, key);
    FoldOfPrefix(dstPrefix, image);
    assert Fold(srcPrefix) <= Fold(image) by {
      assert Fold(srcPrefix) == Fold(dstPrefix)[..|srcPrefix|] == Fold(image)[..|srcPrefix|];
    }
    DeletePrefixEffect(u, bucket, srcPrefix, RowKey(bucket, key));
    DeletePrefixEffect(u, bucket, srcPrefix, RowKey(bucket, image));
  }

  function OneByteChunk(size: int): ChunkAttrs {
    ChunkAttrs(0, size, [], [], 0, [], [])
  }

  function OneChunkObject(size: int): ObjectAttrs {
    ObjectAttrs(size, [], [], [], 0, 1, [], [])
  }

  /** One object, `a/x`. */
  function LowerCaseTree(): Database {
    var row := RowKey(Ascii("b"), Ascii("a/x"));
    Database(map[], map[row := OneChunkObject(1)], map[ChunkKey(row, 1) := OneByteChunk(1)])
  }

  /** A bucket's only object, moved to another spelling of its prefix, is gone although the move succeeds. */
  lemma SingleObjectLost(t: Database, row: RowKey, srcPrefix: Str, dstPrefix: Str)
    requires t.objects.Keys == {row} && srcPrefix <= row.key
    requires Fold(srcPrefix) == Fold(dstPrefix) && srcPrefix != dstPrefix
    ensures var r := MovePrefixTx(t, row.bucket, srcPrefix, dstPrefix, false, 0);
      r.Ok? && r.value.0.objects == map[]
  {
    var bucket := row.bucket;
    forall k | k in MatchingKeys(t, bucket, srcPrefix)
      ensures k == row.key && ImageKey(k, srcPrefix, dstPrefix) != row.key
    {
      MatchingKeysMember(t, bucket, srcPrefix, k);
      assert RowKey(bucket, k) == row;
      assert srcPrefix == row.key[..|srcPrefix|] && dstPrefix == ImageKey(k, srcPrefix, dstPrefix)[..|dstPrefix|];
    }
    forall k | IsSource(t, bucket, srcPrefix, k) ensures k in MatchingKeys(t, bucket, srcPrefix) {
      FoldOfPrefix(srcPrefix, k);
      MatchingKeysMember(t, bucket, srcPrefix, k);
    }
    forall k | k in MatchingKeys(t, bucket, srcPrefix)
      ensures RowKey(bucket, ImageKey(k, srcPrefix, dstPrefix)) !in t.objects
      ensures ImageKey(k, srcPrefix, dstPrefix) !in MatchingKeys(t, bucket, srcPrefix)
    {
      assert RowKey(bucket, ImageKey(k, srcPrefix, dstPrefix)) != row;
      MatchingKeysMember(t, bucket, srcPrefix, ImageKey(k, srcPrefix, dstPrefix));
    }
    CopyPrefixExact(t, bucket, srcPrefix, dstPrefix, false, 0);
    var u := CopyPrefixTx(t, bucket, srcPrefix, dstPrefix, false, 0).value.0;
    NothingSurvives(t, u, row, srcPrefix, dstPrefix);
  }

  lemma NothingSurvives(t: Database, u: Database, row: RowKey, srcPrefix: Str, dstPrefix: Str)
    requires t.objects.Keys == {row} && srcPrefix <= row.key && Fold(srcPrefix) == Fold(dstPrefix)
    requires CopiedExactly(t, u, row.bucket, srcPrefix, dstPrefix, 0)
    ensures DeletePrefixRows(u, row.bucket, srcPrefix).objects == map[]
  {
    var v := DeletePrefixRows(u, row.bucket, srcPrefix);
    FoldOfPrefix(srcPrefix, row.key);
    forall r ensures r !in v.objects {
      DeletePrefixEffect(u, row.bucket, srcPrefix, r);
      if IsImage(r, row.bucket, srcPrefix, dstPrefix, Sources(t, row.bucket, srcPrefix)) {
        FoldOfPrefix(dstPrefix, r.key);
      } else {
        assert RowUnchanged(t, u, r);
      }
    }
  }

  /** Renaming the collection `a/` to `A/` succeeds and leaves the bucket empty. */
  lemma CaseRenameWitness()
    ensures LowerCaseTree().objects != map[]
    ensures var r := MovePrefixTx(LowerCaseTree(), Ascii("b"), Ascii("a/"), Ascii("A/"), false, 0);
      r.Ok? && r.value.0.objects == map[]
  {
    var row := RowKey(Ascii("b"), Ascii("a/x"));
    assert row in LowerCaseTree().objects;
    assert Ascii("a/") == row.key[..2] && Ascii("a/")[0] != Ascii("A/")[0];
    assert Fold(Ascii("a/")) == Fold(Ascii("A/"));
    SingleObjectLost(LowerCaseTree(), row, Ascii("a/"), Ascii("A/"));
  }

  // ---------------------------------------------------------------------------------------------
  // Copying upwards into an enclosing prefix
  // ---------------------------------------------------------------------------------------------

  /** Two objects of one bucket, the first one byte long and the second two. */
  function TwoObjects(bucket: Str, first: Str, second: Str): Database {
    var a, b := RowKey(bucket, first), RowKey(bucket, second);
    Database(
      map[],
      map[a := OneChunkObject(1), b := OneChunkObject(2)],
      map[ChunkKey(a, 1) := OneByteChunk(1), ChunkKey(b, 1) := OneByteChunk(2)])
  }

  lemma OneChunkTiles(t: Database, row: RowKey, size: int)
    requires size >= 0 && ListChunks(t, row) == [Chunk(row.bucket, row.key, 1, OneByteChunk(size))]
    ensures TiledBy(ListChunks(t, row), OneChunkObject(size))
  {
    var list := ListChunks(t, row);
    assert list[..0] == [];
    assert SizeSum(list) == SizeSum(list[..0]) + size;
  }

  lemma SingleChunkList(t: Database, row: RowKey, attrs: ChunkAttrs)
    requires ChunkKey(row, 1) in t.chunks && t.chunks[ChunkKey(row, 1)] == attrs
    requires forall c | c in t.chunks && c.row == row :: c.partNumber == 1
    ensures ListChunks(t, row) == [Chunk(row.bucket, row.key, 1, attrs)]
  {
    var c := Chunk(row.bucket, row.key, 1, attrs);
    assert ChunkRow(c) == ChunkKey(row, 1) && c in [c];
    forall ck | ck in t.chunks && ck.row == row ensures ck == ChunkRow(c) {
      assert ck == ChunkKey(row, ck.partNumber);
    }
    ListChunksUnique(t, row, [c]);
  }

  lemma TwoObjectsTiled(bucket: Str, first: Str, second: Str)
    requires first != second
    ensures AllTiled(TwoObjects(bucket, first, second)) && ReferentialIntegrity(TwoObjects(bucket, first, second))
    ensures ListChunks(TwoObjects(bucket, first, second), RowKey(bucket, first))
         == [Chunk(bucket, first, 1, OneByteChunk(1))]
  {
    var t := TwoObjects(bucket, first, second);
    SingleChunkList(t, RowKey(bucket, first), OneByteChunk(1));
    SingleChunkList(t, RowKey(bucket, second), OneByteChunk(2));
    OneChunkTiles(t, RowKey(bucket, first), 1);
    OneChunkTiles(t, RowKey(bucket, second), 2);
  }

  lemma TwoKeysSorted(a: Str, b: Str)
    requires Less(a, b)
    ensures SortKeys({a, b}) == [a, b]
  {
    var keys := SortKeys({a, b});
    assert forall k :: k in [a, b] <==> k in {a, b};
    AscendingUnique(keys, [a, b]);
  }

  lemma TwoRowsMatched(t: Database, first: Object, second: Object, prefix: Str)
    requires first.bucket == second.bucket && t.objects.Keys == {ObjectRow(first), ObjectRow(second)}
    requires Fold(prefix) <= Fold(first.key) && Fold(prefix) <= Fold(second.key)
    ensures MatchingKeys(t, first.bucket, prefix) == {first.key, second.key}
  {
    hide Fold, MatchingKeys;
    forall k ensures k in MatchingKeys(t, first.bucket, prefix) <==> k in {first.key, second.key} {
      MatchingKeysMember(t, first.bucket, prefix, k);
    }
  }

  lemma TwoRowsSelected(t: Database, first: Object, second: Object, prefix: Str)
    requires first.bucket == second.bucket
    requires t.objects == map[ObjectRow(first) := first.attrs, ObjectRow(second) := second.attrs]
    requires Less(first.key, second.key) && Fold(prefix) <= Fold(first.key) && Fold(prefix) <= Fold(second.key)
    ensures SelectPrefix(t, first.bucket, prefix) == [first, second]
  {
    LessAsymmetric(first.key, second.key);
    TwoRowsMatched(t, first, second, prefix);
    TwoKeysSorted(first.key, second.key);
    hide MatchingKeys, SortKeys, Less;
    var keys := SortKeys(MatchingKeys(t, first.bucket, prefix));
    assert keys == [first.key, second.key];
    assert SelectPrefix(t, first.bucket, prefix) == RowsOf(t, first.bucket, keys);
  }

  lemma CopyTwo(t: Database, u: Database, v: Database, c: bool, d: bool, first: Object, second: Object,
                srcPrefix: Str, dstPrefix: Str)
    requires CopyRow(t, first, srcPrefix, dstPrefix, true, 0) == Ok((u, c))
    requires CopyRow(u, second, srcPrefix, dstPrefix, true, 0) == Ok((v, d))
    ensures CopyRows(t, [first, second], srcPrefix, dstPrefix, true, 0) == Ok((v, c && d))
  {
    assert [first, second][..1] == [first] && [first][..0] == [];
    assert CopyRows(t, [first], srcPrefix, dstPrefix, true, 0) == Ok((u, c));
  }

  /** When the first key's image is the second key, the second key's image gets the first key's chunks. */
  lemma OverlappingCopyMixesChunks(t: Database, first: Object, second: Object, third: RowKey,
                                   srcPrefix: Str, dstPrefix: Str)
    requires SelectPrefix(t, first.bucket, srcPrefix) == [first, second]
    requires RowKey(first.bucket, ImageKey(first.key, srcPrefix, dstPrefix)) == ObjectRow(second)
    requires RowKey(second.bucket, ImageKey(second.key, srcPrefix, dstPrefix)) == third
    ensures var r := CopyPrefixTx(t, first.bucket, srcPrefix, dstPrefix, true, 0);
      && r.Ok? && third in r.value.0.objects && r.value.0.objects[third] == second.attrs.(lastModified := 0)
      && ListChunks(r.value.0, third)
         == CopyChunksForKey(CopyChunksForKey(ListChunks(t, ObjectRow(first)), ObjectRow(second)), third)
  {
    CopyRowEffect(t, first, srcPrefix, dstPrefix, true, 0);
    var a := CopyRow(t, first, srcPrefix, dstPrefix, true, 0);
    CopyRowEffect(a.value.0, second, srcPrefix, dstPrefix, true, 0);
    var b := CopyRow(a.value.0, second, srcPrefix, dstPrefix, true, 0);
    CopyTwo(t, a.value.0, b.value.0, a.value.1, b.value.1, first, second, srcPrefix, dstPrefix);
  }

  lemma NestedKeys()
    ensures var src, dst := Ascii("a/b/"), Ascii("a/");
      && src <= Ascii("a/b/b/x") && src <= Ascii("a/b/x")
      && ImageKey(Ascii("a/b/b/x"), src, dst) == Ascii("a/b/x")
      && ImageKey(Ascii("a/b/x"), src, dst) == Ascii("a/x")
      && Less(Ascii("a/b/b/x"), Ascii("a/b/x"))
  {
    var src, dst := Ascii("a/b/"), Ascii("a/");
    var first, second := Ascii("a/b/b/x"), Ascii("a/b/x");
    assert src == first[..4] == second[..4];
    assert first[4..] == Ascii("b/x") && second[4..] == Ascii("x");
    assert dst + Ascii("b/x") == second && dst + Ascii("x") == Ascii("a/x");
    assert first == src + first[4..] && second == src + second[4..];
    LessUnderPrefix(src, first[4..], second[4..]);
  }

  lemma NotTiledByOneByte(list: seq<Chunk>, attrs: ObjectAttrs)
    requires |list| == 1 && list[0].attrs.size == 1 && attrs.size == 2
    ensures !TiledBy(list, attrs)
  {
    assert SizeSum(list[..0]) == 0 && SizeSum(list) == SizeSum(list[..0]) + 1;
  }

  /** Copying `a/b/` to `a/` with keys `a/b/b/x` and `a/b/x`: tables that tile before do not tile after. */
  lemma OverlappingCopyWitness()
    ensures var t := TwoObjects(Ascii("b"), Ascii("a/b/b/x"), Ascii("a/b/x"));
      var r := CopyPrefixTx(t, Ascii("b"), Ascii("a/b/"), Ascii("a/"), true, 0);
      AllTiled(t) && r.Ok? && !AllTiled(r.value.0)
  {
    NestedKeys();
    FoldOfPrefix(Ascii("a/b/"), Ascii("a/b/b/x"));
    FoldOfPrefix(Ascii("a/b/"), Ascii("a/b/x"));
    OverlappingCopyBreaksTiling(Ascii("b"), Ascii("a/b/b/x"), Ascii("a/b/x"), Ascii("a/x"), Ascii("a/b/"), Ascii("a/"));
  }

  lemma ForeignKeys()
    ensures var src, dst := Ascii("a/"), Ascii("A/");
      && Fold(src) <= Fold(Ascii("A/!")) && Fold(src) <= Fold(Ascii("A/A/!"))
      && ImageKey(Ascii("A/!"), src, dst) == Ascii("A/A/!") && ImageKey(Ascii("A/A/!"), src, dst) == Ascii("A/A/A/!")
      && Less(Ascii("A/!"), Ascii("A/A/!")) && PrefixesSafe(src, dst)
  {
    var src, dst := Ascii("a/"), Ascii("A/");
    var first, second := Ascii("A/!"), Ascii("A/A/!");
    assert Fold(src) == Fold(first)[..2] == Fold(second)[..2];
    assert src[0] == 'a' as int && first[0] == 'A' as int && second[0] == 'A' as int;
    assert dst + first == second && dst + second == Ascii("A/A/A/!");
    assert first == dst + first[2..] && second == dst + second[2..];
    assert Less(first[2..], second[2..]);
    LessUnderPrefix(dst, first[2..], second[2..]);
    assert dst[0] != src[0];
  }

  /**
   Copying `a/` to `A/` with no key under `a/` at all, only `A/!` and `A/A/!`: the foreign keys are copied onto each
   other, although neither prefix is a prefix of the other.
   */
  lemma ForeignCopyWitness()
    ensures var t := TwoObjects(Ascii("b"), Ascii("A/!"), Ascii("A/A/!"));
      var r := CopyPrefixTx(t, Ascii("b"), Ascii("a/"), Ascii("A/"), true, 0);
      PrefixesSafe(Ascii("a/"), Ascii("A/")) && AllTiled(t) && r.Ok? && !AllTiled(r.value.0)
  {
    ForeignKeys();
    OverlappingCopyBreaksTiling(Ascii("b"), Ascii("A/!"), Ascii("A/A/!"), Ascii("A/A/A/!"), Ascii("a/"), Ascii("A/"));
  }

  lemma OverlappingCopyBreaksTiling(bucket: Str, first: Str, second: Str, third: Str, src: Str, dst: Str)
    requires Less(first, second) && Fold(src) <= Fold(first) && Fold(src) <= Fold(second)
    requires ImageKey(first, src, dst) == second && ImageKey(second, src, dst) == third
    ensures var t := TwoObjects(bucket, first, second);
      var r := CopyPrefixTx(t, bucket, src, dst, true, 0);
      AllTiled(t) && ReferentialIntegrity(t) && r.Ok? && !AllTiled(r.value.0)
  {
    LessAsymmetric(first, second);
    var t := TwoObjects(bucket, first, second);
    var a, b := Object(bucket, first, OneChunkObject(1)), Object(bucket, second, OneChunkObject(2));
    TwoObjectsTiled(bucket, first, second);
    TwoRowsSelected(t, a, b, src);
    OverlappingCopyMixesChunks(t, a, b, RowKey(bucket, third), src, dst);
    var v := CopyPrefixTx(t, bucket, src, dst, true, 0).value.0;
    NotTiledByOneByte(ListChunks(v, RowKey(bucket, third)), v.objects[RowKey(bucket, third)]);
  }

  // ---------------------------------------------------------------------------------------------
  // The boundary, in terms of the two prefixes alone
  // ---------------------------------------------------------------------------------------------

  /** The recursive copy between these prefixes leaves every object of this table tiled by its chunks. */
  ghost predicate CopyKeepsTiling(t: Database, bucket: Str, srcPrefix: Str, dstPrefix: Str) {
    var r := CopyPrefixTx(t, bucket, srcPrefix, dstPrefix, true, 0);
    r.Ok? ==> AllTiled(r.value.0)
  }

  /** Whatever the tables hold, the copy leaves every object tiled. */
  ghost predicate CopySafe(bucket: Str, srcPrefix: Str, dstPrefix: Str) {
    forall t: Database | ReferentialIntegrity(t) && AllTiled(t) :: CopyKeepsTiling(t, bucket, srcPrefix, dstPrefix)
  }

  /** The same for tables in which only source keys pass the filter. */
  ghost predicate CopySafeWithoutStrays(bucket: Str, srcPrefix: Str, dstPrefix: Str) {
    forall t: Database | ReferentialIntegrity(t) && AllTiled(t) && NoStray(t, bucket, srcPrefix) ::
      CopyKeepsTiling(t, bucket, srcPrefix, dstPrefix)
  }

  /** A key that passes the filter has no image further on that passes it too. */
  ghost predicate ImagesGoDown(srcPrefix: Str, dstPrefix: Str) {
    forall k: Str | Fold(srcPrefix) <= Fold(k) && Fold(srcPrefix) <= Fold(ImageKey(k, srcPrefix, dstPrefix)) ::
      AtMost(ImageKey(k, srcPrefix, dstPrefix), k)
  }

  lemma TwoObjectsKeys(bucket: Str, first: Str, second: Str)
    ensures forall r | r in TwoObjects(bucket, first, second).objects :: r.key == first || r.key == second
  {
  }

  /** The table in which a chain of images from `first` to `second` breaks a copy. */
  lemma BrokenTable(bucket: Str, first: Str, second: Str, srcPrefix: Str, dstPrefix: Str) returns (t: Database)
    requires Less(first, second) && Fold(srcPrefix) <= Fold(first) && Fold(srcPrefix) <= Fold(second)
    requires ImageKey(first, srcPrefix, dstPrefix) == second
    ensures ReferentialIntegrity(t) && AllTiled(t) && !CopyKeepsTiling(t, bucket, srcPrefix, dstPrefix)
    ensures forall r | r in t.objects :: r.key == first || r.key == second
  {
    hide CopyPrefixTx, AllTiled, ReferentialIntegrity, TwoObjects;
    OverlappingCopyBreaksTiling(bucket, first, second, ImageKey(second, srcPrefix, dstPrefix), srcPrefix, dstPrefix);
    TwoObjectsKeys(bucket, first, second);
    t := TwoObjects(bucket, first, second);
  }

  lemma DownwardImagesDoNotOverlap(t: Database, bucket: Str, srcPrefix: Str, dstPrefix: Str)
    requires ImagesGoDown(srcPrefix, dstPrefix)
    ensures NoOverlap(t, bucket, srcPrefix, dstPrefix)
  {
    hide Fold, ImageKey, AtMost, MatchingKeys;
    forall k | k in MatchingKeys(t, bucket, srcPrefix)
                 && ImageKey(k, srcPrefix, dstPrefix) in MatchingKeys(t, bucket, srcPrefix)
      ensures AtMost(ImageKey(k, srcPrefix, dstPrefix), k)
    {
      MatchingKeysMember(t, bucket, srcPrefix, k);
      MatchingKeysMember(t, bucket, srcPrefix, ImageKey(k, srcPrefix, dstPrefix));
    }
  }

  /**
   A recursive copy is safe for every table exactly when no key that passes the case-folding filter has an image
   behind it that passes the filter as well.
   */
  lemma CopySafeIff(bucket: Str, srcPrefix: Str, dstPrefix: Str)
    ensures CopySafe(bucket, srcPrefix, dstPrefix) <==> ImagesGoDown(srcPrefix, dstPrefix)
  {
    hide CopyPrefixTx, ImageKey, Fold;
    if ImagesGoDown(srcPrefix, dstPrefix) {
      forall t: Database | ReferentialIntegrity(t) && AllTiled(t)
        ensures CopyKeepsTiling(t, bucket, srcPrefix, dstPrefix)
      {
        DownwardImagesDoNotOverlap(t, bucket, srcPrefix, dstPrefix);
        Integrity.CopyPrefixKeepsTiling(t, bucket, srcPrefix, dstPrefix, true, 0);
      }
    } else {
      var k: Str :| Fold(srcPrefix) <= Fold(k) && Fold(srcPrefix) <= Fold(ImageKey(k, srcPrefix, dstPrefix))
               && !AtMost(ImageKey(k, srcPrefix, dstPrefix), k);
      LessTotal(k, ImageKey(k, srcPrefix, dstPrefix));
      var t := BrokenTable(bucket, k, ImageKey(k, srcPrefix, dstPrefix), srcPrefix, dstPrefix);
    }
  }

  function HighBytes(n: nat): (r: Str)
    ensures |r| == n
  {
    seq(n, _ => 0xFF)
  }

  lemma {:induction false} LowByteGoesDown(u: Str, w: Str, n: nat, i: nat)
    requires i < |u| <= n && u[i] < 0xFF
    ensures Less(u + w, HighBytes(n))
  {
    if u[0] == 0xFF {
      assert (u + w)[1..] == u[1..] + w && HighBytes(n)[1..] == HighBytes(n - 1);
      LowByteGoesDown(u[1..], w, n - 1, i - 1);
    }
  }

  /** Between unsafe prefixes some source key has a later source key as its image. */
  lemma UnsafePrefixesChain(srcPrefix: Str, dstPrefix: Str) returns (first: Str)
    requires !PrefixesSafe(srcPrefix, dstPrefix)
    ensures srcPrefix <= first && srcPrefix <= ImageKey(first, srcPrefix, dstPrefix)
    ensures Less(first, ImageKey(first, srcPrefix, dstPrefix))
  {
    if dstPrefix <= srcPrefix {
      var u := srcPrefix[|dstPrefix|..];
      var i :| |dstPrefix| <= i < |srcPrefix| && srcPrefix[i] != 0xFF;
      var r := HighBytes(|u|);
      LowByteGoesDown(u, r, |u|, i - |dstPrefix|);
      first := srcPrefix + (u + r);
      LessUnderPrefix(srcPrefix, u + r, r);
      assert srcPrefix == dstPrefix + u && first[|srcPrefix|..] == u + r;
      assert ImageKey(first, srcPrefix, dstPrefix) == dstPrefix + (u + r) == srcPrefix + r;
    } else {
      first := srcPrefix;
      assert dstPrefix == srcPrefix + dstPrefix[|srcPrefix|..];
      LessExtension(srcPrefix, dstPrefix[|srcPrefix|..]);
      assert ImageKey(srcPrefix, srcPrefix, dstPrefix) == dstPrefix;
    }
  }

  /** Where only source keys pass the filter, the copy is safe for every table exactly when the prefixes are. */
  lemma CopySafeWithoutStraysIff(bucket: Str, srcPrefix: Str, dstPrefix: Str)
    ensures CopySafeWithoutStrays(bucket, srcPrefix, dstPrefix) <==> PrefixesSafe(srcPrefix, dstPrefix)
  {
    hide CopyPrefixTx, ImageKey, Fold;
    if PrefixesSafe(srcPrefix, dstPrefix) {
      forall t: Database | ReferentialIntegrity(t) && AllTiled(t) && NoStray(t, bucket, srcPrefix)
        ensures CopyKeepsTiling(t, bucket, srcPrefix, dstPrefix)
      {
        SafePrefixesDoNotOverlap(t, bucket, srcPrefix, dstPrefix);
        Integrity.CopyPrefixKeepsTiling(t, bucket, srcPrefix, dstPrefix, true, 0);
      }
    } else {
      var first := UnsafePrefixesChain(srcPrefix, dstPrefix);
      var second := ImageKey(first, srcPrefix, dstPrefix);
      FoldOfPrefix(srcPrefix, first);
      FoldOfPrefix(srcPrefix, second);
      var t := BrokenTable(bucket, first, second, srcPrefix, dstPrefix);
      forall k | k in MatchingKeys(t, bucket, srcPrefix) ensures srcPrefix <= k {
        MatchingKeysMember(t, bucket, srcPrefix, k);
      }
    }
  }

  /** Letters are what the filter folds. */
  predicate HasLetter(prefix: Str) {
    exists i | 0 <= i < |prefix| :: 0x41 <= prefix[i] <= 0x5A || 0x61 <= prefix[i] <= 0x7A
  }

  lemma LetterFreeFold(prefix: Str, k: Str)
    requires !HasLetter(prefix) && Fold(prefix) <= Fold(k)
    ensures prefix <= k
  {
    forall i | 0 <= i < |prefix| ensures prefix[i] == k[i] {
      assert Fold(prefix)[i] == Fold(k)[i];
    }
  }

  /** Safety never holds for unsafe prefixes, and a source prefix without letters needs no more than safe ones. */
  lemma ImagesGoDownNeedsSafePrefixes(srcPrefix: Str, dstPrefix: Str)
    ensures ImagesGoDown(srcPrefix, dstPrefix) ==> PrefixesSafe(srcPrefix, dstPrefix)
    ensures !HasLetter(srcPrefix) ==> (ImagesGoDown(srcPrefix, dstPrefix) <==> PrefixesSafe(srcPrefix, dstPrefix))
  {
    if !PrefixesSafe(srcPrefix, dstPrefix) {
      var first := UnsafePrefixesChain(srcPrefix, dstPrefix);
      var second := ImageKey(first, srcPrefix, dstPrefix);
      FoldOfPrefix(srcPrefix, first);
      FoldOfPrefix(srcPrefix, second);
      LessAsymmetric(first, second);
    } else if !HasLetter(srcPrefix) {
      forall k: Str | Fold(srcPrefix) <= Fold(k) && Fold(srcPrefix) <= Fold(ImageKey(k, srcPrefix, dstPrefix))
        ensures AtMost(ImageKey(k, srcPrefix, dstPrefix), k)
      {
        LetterFreeFold(srcPrefix, k);
        LetterFreeFold(srcPrefix, ImageKey(k, srcPrefix, dstPrefix));
        SafeImageGoesDown(srcPrefix, dstPrefix, k);
      }
    }
  }
}
