/**
 The WebDAV requests that rewrite a subtree: what the guards of COPY, MOVE and DELETE let through, and what then
 happens.
 */
module DavRequests {
  import opened Bytes
  import opened Like
  import opened Results
  import opened Tables
  import opened Transactions
  import opened PrefixOps
  import opened PrefixFailures
  import opened MetadataStore
  import opened Listing
  import opened Commands
  import opened Collections

  const MAX_RECURSIVE_OBJECTS := 100000

  /** The answers of handleCopyMove: 201, 204, 403, 404, 412 and 500. */
  datatype Status = Created | NoContent | Denied | Missing | Conflict | Failed

  /** What a COPY or MOVE request comes to. */
  datatype Plan = Refuse(status: Status) | Tree(srcPrefix: Str, dstPrefix: Str) | Single

  /** hasCollection: a marker object, or any key that the store finds under the collection. */
  function HasCollection(t: Database, bucket: Str, key: Str): bool {
    var prefix := CanonicalCollectionKey(key);
    prefix == [] || RowKey(bucket, prefix) in t.objects || SelectAfter(t, bucket, prefix, []) != []
  }

  /** isSubpath. */
  predicate IsSubpath(parent: Str, child: Str) {
    child != parent && parent <= child
  }

  /** The source is a collection by its trailing slash, or because only a collection of that name exists. */
  predicate SourceIsTree(t: Database, bucket: Str, srcKey: Str) {
    SLASH <= srcKey[if srcKey == [] then 0 else |srcKey| - 1..]
    || (RowKey(bucket, srcKey) !in t.objects && HasCollection(t, bucket, srcKey))
  }

  /** The guards, in their order. */
  function PlanOf(t: Database, srcBucket: Str, srcKey: Str, dstBucket: Str, dstKey: Str, move: bool): Plan {
    if srcKey == [] || dstKey == [] || srcBucket != dstBucket then Refuse(Denied)
    else if SourceIsTree(t, srcBucket, srcKey) then
      var srcPrefix, dstPrefix := CanonicalCollectionKey(srcKey), CanonicalCollectionKey(dstKey);
      if RowKey(srcBucket, dstKey) in t.objects then Refuse(Conflict)
      else if move && srcPrefix == dstPrefix then Refuse(Denied)
      else if IsSubpath(srcPrefix, dstPrefix) then Refuse(Denied)
      else if |MatchingKeys(t, srcBucket, srcPrefix)| == 0 then Refuse(Missing)
      else if |MatchingKeys(t, srcBucket, srcPrefix)| > MAX_RECURSIVE_OBJECTS then Refuse(Failed)
      else Tree(srcPrefix, dstPrefix)
    else if HasCollection(t, srcBucket, dstKey) then Refuse(Conflict)
    else if move && srcKey == dstKey then Refuse(Denied)
    else Single
  }

  /** The transaction an admitted request runs. */
  function TxOf(t: Database, plan: Plan, bucket: Str, srcKey: Str, dstKey: Str, overwrite: bool, move: bool, now: int)
    : Result<(Database, bool)>
    requires !plan.Refuse?
  {
    match plan
    case Tree(src, dst) =>
      if move then MovePrefixTx(t, bucket, src, dst, overwrite, now)
      else CopyPrefixTx(t, bucket, src, dst, overwrite, now)
    case Single =>
      if move then MoveObjectTx(t, bucket, srcKey, dstKey, overwrite, now)
      else CopyObjectTx(t, bucket, srcKey, dstKey, overwrite, now)
  }

  /** writeCreatedStatus and writeCopyMoveError. */
  function StatusOf(r: Result<bool>): Status {
    match r
    case Ok(created) => if created then Created else NoContent
    case Err(e) => if e == DestinationExists then Conflict else if e == NotFound then Missing else Failed
  }

  /** 412 for a destination that may not be overwritten, 500 for a failed commit, 201 for a new one, 204 otherwise. */
  ghost predicate Answered(destinationExists: bool, overwrite: bool, durable: bool, status: Status) {
    && (status == Conflict <==> destinationExists && !overwrite)
    && (status == Failed <==> (destinationExists ==> overwrite) && !durable)
    && (status == Created <==> !destinationExists && durable)
    && (status == NoContent <==> destinationExists && overwrite && durable)
  }

  /** What a request for one object does to the tables, and how it is answered. */
  ghost predicate SingleAnswer(t: Database, t': Database, src: RowKey, dst: RowKey, overwrite: bool, move: bool,
                               now: int, durable: bool, status: Status)
  {
    && (status == Missing <==> src !in t.objects)
    && (src in t.objects ==> Answered(dst in t.objects, overwrite, durable, status))
    && (status == Created || status == NoContent ==>
          if move then ObjectMoved(t, t', src, dst, now) else ObjectCopied(t, t', src, dst, now))
    && (status == Missing || status == Conflict || status == Failed ==> t' == t)
    && status != Denied
  }

  lemma SingleAnswers(t: Database, t': Database, bucket: Str, srcKey: Str, dstKey: Str, overwrite: bool, move: bool,
                      now: int, durable: bool, r: Result<bool>)
    requires move ==> srcKey != dstKey
    requires Transacted(t, t', r, if move then MoveObjectTx(t, bucket, srcKey, dstKey, overwrite, now)
                                  else CopyObjectTx(t, bucket, srcKey, dstKey, overwrite, now), durable)
    ensures SingleAnswer(t, t', RowKey(bucket, srcKey), RowKey(bucket, dstKey), overwrite, move, now, durable,
                         StatusOf(r))
  {
    hide MoveObjectTx, CopyObjectTx, ObjectMoved, ObjectCopied, ListChunks;
    if move {
      MoveObjectEffect(t, bucket, srcKey, dstKey, overwrite, now);
    } else {
      CopyObjectEffect(t, bucket, srcKey, dstKey, overwrite, now);
    }
  }

  lemma TreeAnswers(t: Database, t': Database, bucket: Str, srcPrefix: Str, dstPrefix: Str, overwrite: bool, move: bool,
                    now: int, durable: bool, r: Result<bool>)
    requires move ==> srcPrefix != dstPrefix
    requires Transacted(t, t', r, if move then MovePrefixTx(t, bucket, srcPrefix, dstPrefix, overwrite, now)
                                  else CopyPrefixTx(t, bucket, srcPrefix, dstPrefix, overwrite, now), durable)
    ensures NoStray(t, bucket, srcPrefix) ==>
      Answered(SomeDestinationExists(t, bucket, srcPrefix, dstPrefix), overwrite, durable, StatusOf(r))
  {
    hide CopyPrefixTx, SomeDestinationExists, NoStray, CopiedExactly, ChainsAgree, DeletePrefixRows;
    if NoStray(t, bucket, srcPrefix) {
      CopyPrefixExactIff(t, bucket, srcPrefix, dstPrefix, overwrite, now);
    }
  }

  /** hasCollection as the handler asks it. */
  method AskCollection(meta: SQLiteStore, bucket: Str, key: Str) returns (found: bool)
    ensures found == HasCollection(meta.db, bucket, key)
  {
    var prefix := CanonicalCollectionKey(key);
    if prefix == [] {
      return true;
    }
    if RowKey(bucket, prefix) in meta.db.objects {
      return true;
    }
    var objects := meta.ListObjects(ListQuery(bucket, prefix, [], 1));
    return |objects| != 0;
  }

  /** handleCopyMove, once both paths are parsed. */
  method HandleCopyMove(meta: SQLiteStore, srcBucket: Str, srcKey: Str, dstBucket: Str, dstKey: Str, overwrite: bool,
                        move: bool, now: int, durable: bool)
    returns (status: Status)
    modifies meta
    ensures var plan := PlanOf(old(meta.db), srcBucket, srcKey, dstBucket, dstKey, move);
      if plan.Refuse? then status == plan.status && meta.db == old(meta.db)
      else exists r :: status == StatusOf(r)
             && Transacted(old(meta.db), meta.db, r,
                           TxOf(old(meta.db), plan, srcBucket, srcKey, dstKey, overwrite, move, now), durable)
    ensures PlanOf(old(meta.db), srcBucket, srcKey, dstBucket, dstKey, move).Single? ==>
      SingleAnswer(old(meta.db), meta.db, RowKey(srcBucket, srcKey), RowKey(srcBucket, dstKey), overwrite, move, now,
                   durable, status)
    ensures var plan := PlanOf(old(meta.db), srcBucket, srcKey, dstBucket, dstKey, move);
      plan.Tree? && NoStray(old(meta.db), srcBucket, plan.srcPrefix) ==>
        Answered(SomeDestinationExists(old(meta.db), srcBucket, plan.srcPrefix, plan.dstPrefix), overwrite, durable,
                 status)
  {
    hide MovePrefixTx, CopyPrefixTx, MoveObjectTx, CopyObjectTx, HasCollection, MatchingKeys, NoStray;
    hide SomeDestinationExists, SingleAnswer, Answered;
    if srcKey == [] || dstKey == [] {
      return Denied;
    }
    if srcBucket != dstBucket {
      return Denied;
    }
    var srcIsCollection := srcKey[|srcKey| - 1] == SLASH[0];
    assert srcKey[|srcKey| - 1..] == [srcKey[|srcKey| - 1]];
    if !srcIsCollection && RowKey(srcBucket, srcKey) !in meta.db.objects {
      srcIsCollection := AskCollection(meta, srcBucket, srcKey);
    }
    var r: Result<bool>;
    if srcIsCollection {
      if RowKey(srcBucket, dstKey) in meta.db.objects {
        return Conflict;
      }
      var srcPrefix, dstPrefix := CanonicalCollectionKey(srcKey), CanonicalCollectionKey(dstKey);
      if move && srcPrefix == dstPrefix {
        return Denied;
      }
      if IsSubpath(srcPrefix, dstPrefix) {
        return Denied;
      }
      var count := meta.CountObjects(srcBucket, srcPrefix);
      if count == 0 {
        return Missing;
      }
      if count > MAX_RECURSIVE_OBJECTS {
        return Failed;
      }
      if move {
        r := meta.MovePrefix(srcBucket, srcPrefix, dstPrefix, overwrite, now, durable);
      } else {
        r := meta.CopyPrefix(srcBucket, srcPrefix, dstPrefix, overwrite, now, durable);
      }
      TreeAnswers(old(meta.db), meta.db, srcBucket, srcPrefix, dstPrefix, overwrite, move, now, durable, r);
      return StatusOf(r);
    }
    var conflict := AskCollection(meta, srcBucket, dstKey);
    if conflict {
      return Conflict;
    }
    if move && srcKey == dstKey {
      return Denied;
    }
    if move {
      r := meta.MoveObject(srcBucket, srcKey, dstKey, overwrite, now, durable);
    } else {
      r := meta.CopyObject(srcBucket, srcKey, dstKey, overwrite, now, durable);
    }
    SingleAnswers(old(meta.db), meta.db, srcBucket, srcKey, dstKey, overwrite, move, now, durable, r);
    return StatusOf(r);
  }

  // ---------------------------------------------------------------------------------------------
  // What the guards mean and leave
  // ---------------------------------------------------------------------------------------------

  /** A collection is there exactly when some key passes the filter under its canonical key, the root always. */
  lemma HasCollectionIff(t: Database, bucket: Str, key: Str)
    ensures HasCollection(t, bucket, key) <==>
      CanonicalCollectionKey(key) == [] || MatchingKeys(t, bucket, CanonicalCollectionKey(key)) != {}
  {
    var prefix := CanonicalCollectionKey(key);
    hide SelectAfter, MatchingKeys;
    MatchingKeysMember(t, bucket, prefix, prefix);
    SelectAfterMeaning(t, bucket, prefix, []);
    var rows := SelectAfter(t, bucket, prefix, []);
    if |rows| > 0 {
      assert rows[0].key in MatchingKeys(t, bucket, prefix) by {
        MatchingKeysMember(t, bucket, prefix, rows[0].key);
      }
    }
    if k :| k in MatchingKeys(t, bucket, prefix) && prefix != [] {
      MatchingKeysMember(t, bucket, prefix, k);
      assert k != [] by { assert |Fold(k)| == |k| && |Fold(prefix)| == |prefix|; }
      SelectAfterComplete(t, bucket, prefix, [], k);
    }
  }

  /** The canonical collection of a key: the key itself when it ends in a slash, otherwise one slash more. */
  ghost function Under(key: Str): Str {
    if key != [] && key[|key| - 1] == 0x2F then key else key + [0x2F]
  }

  lemma UnderIsCanonical(key: Str)
    requires key != []
    ensures CanonicalCollectionKey(key) == Under(key) != []
  {
    assert key[|key| - 1..] == [key[|key| - 1]] && SLASH == [0x2F];
  }

  /** The whole decision, in terms of keys that are there and keys that pass the filter. */
  lemma PlanMeaning(t: Database, srcBucket: Str, srcKey: Str, dstBucket: Str, dstKey: Str, move: bool)
    ensures var plan := PlanOf(t, srcBucket, srcKey, dstBucket, dstKey, move);
      if srcKey == [] || dstKey == [] || srcBucket != dstBucket then plan == Refuse(Denied) else
        var src, dst := Under(srcKey), Under(dstKey);
        var below := |MatchingKeys(t, srcBucket, src)|;
        if srcKey == src || (RowKey(srcBucket, srcKey) !in t.objects && below > 0) then
          && (plan == Refuse(Conflict) <==> RowKey(srcBucket, dstKey) in t.objects)
          && (plan == Refuse(Denied) <==> plan != Refuse(Conflict) && src <= dst && (src == dst ==> move))
          && (plan == Refuse(Missing) <==> !(plan in {Refuse(Conflict), Refuse(Denied)}) && below == 0)
          && (plan == Refuse(Failed) <==> !(plan in {Refuse(Conflict), Refuse(Denied)}) && below > 100000)
          && (!plan.Refuse? ==> plan == Tree(src, dst))
        else
          && (plan == Refuse(Conflict) <==> MatchingKeys(t, srcBucket, dst) != {})
          && (plan == Refuse(Denied) <==> plan != Refuse(Conflict) && move && srcKey == dstKey)
          && (!(plan in {Refuse(Conflict), Refuse(Denied)}) ==> plan == Single)
  {
    hide MatchingKeys, HasCollection;
    if srcKey != [] && dstKey != [] {
      UnderIsCanonical(srcKey);
      UnderIsCanonical(dstKey);
      HasCollectionIff(t, srcBucket, srcKey);
      HasCollectionIff(t, srcBucket, dstKey);
      assert srcKey[|srcKey| - 1..] == [srcKey[|srcKey| - 1]];
      hide CanonicalCollectionKey;
      assert SLASH == [0x2F];
    }
  }

  /**
   An admitted subtree request names two collections of one bucket, spelled canonically, the destination neither an
   object nor inside the source, and finds between 1 and 100000 keys.
   */
  lemma AdmittedTree(t: Database, srcBucket: Str, srcKey: Str, dstBucket: Str, dstKey: Str, move: bool)
    requires PlanOf(t, srcBucket, srcKey, dstBucket, dstKey, move).Tree?
    ensures var plan := PlanOf(t, srcBucket, srcKey, dstBucket, dstKey, move);
      && srcBucket == dstBucket && RowKey(srcBucket, dstKey) !in t.objects
      && srcKey <= plan.srcPrefix <= srcKey + SLASH && dstKey <= plan.dstPrefix <= dstKey + SLASH
      && IsCollectionKey(plan.srcPrefix) && IsCollectionKey(plan.dstPrefix)
      && plan.srcPrefix != [] && plan.dstPrefix != []
      && !(plan.srcPrefix < plan.dstPrefix) && (move ==> plan.srcPrefix != plan.dstPrefix)
      && 0 < |MatchingKeys(t, srcBucket, plan.srcPrefix)| <= MAX_RECURSIVE_OBJECTS
  {
    CanonicalIsCollectionKey(srcKey);
    CanonicalIsCollectionKey(dstKey);
  }

  /**
   A MOVE of a collection does what it promises for unrelated collections, letter case aside: refused as a conflict
   exactly when it may not overwrite and some image exists, otherwise exactly the source keys become their images.
   */
  lemma MoveOfUnrelatedTrees(t: Database, bucket: Str, srcKey: Str, dstKey: Str, overwrite: bool, now: int)
    requires ReferentialIntegrity(t) && PlanOf(t, bucket, srcKey, bucket, dstKey, true).Tree?
    requires var plan := PlanOf(t, bucket, srcKey, bucket, dstKey, true);
      NoStray(t, bucket, plan.srcPrefix) && !(Fold(plan.srcPrefix) <= Fold(plan.dstPrefix)) &&
        !(Fold(plan.dstPrefix) <= Fold(plan.srcPrefix))
    ensures var plan := PlanOf(t, bucket, srcKey, bucket, dstKey, true);
      var tx := TxOf(t, plan, bucket, srcKey, dstKey, overwrite, true, now);
      && (tx.Err? <==> !overwrite && SomeDestinationExists(t, bucket, plan.srcPrefix, plan.dstPrefix))
      && (tx.Err? ==> StatusOf(Err(tx.error)) == Conflict)
      && (tx.Ok? ==> (tx.value.1 <==> !SomeDestinationExists(t, bucket, plan.srcPrefix, plan.dstPrefix))
                     && MovedExactly(t, tx.value.0, bucket, plan.srcPrefix, plan.dstPrefix, now))
  {
    var plan := PlanOf(t, bucket, srcKey, bucket, dstKey, true);
    var src, dst := plan.srcPrefix, plan.dstPrefix;
    AdmittedTree(t, bucket, srcKey, bucket, dstKey, true);
    hide PlanOf, CopyPrefixTx, MovedExactly, NoStray, SomeDestinationExists, DeletePrefixRows, CopiedExactly, NoOverlap;
    hide ImagesEscape;
    SeparateFoldedPrefixes(t, bucket, src, dst);
    CopyPrefixExact(t, bucket, src, dst, overwrite, now);
    if MovePrefixTx(t, bucket, src, dst, overwrite, now).Ok? {
      MovePrefixExactIff(t, bucket, src, dst, overwrite, now);
    }
  }

  /**
   In general an admitted MOVE of a collection is exact exactly when no foreign key matches and no image matches the
   source.
   */
  lemma AdmittedMoveExactIff(t: Database, bucket: Str, srcKey: Str, dstKey: Str, overwrite: bool, now: int)
    requires ReferentialIntegrity(t) && PlanOf(t, bucket, srcKey, bucket, dstKey, true).Tree?
    requires TxOf(t, PlanOf(t, bucket, srcKey, bucket, dstKey, true), bucket, srcKey, dstKey, overwrite, true, now).Ok?
    ensures var plan := PlanOf(t, bucket, srcKey, bucket, dstKey, true);
      var tx := TxOf(t, plan, bucket, srcKey, dstKey, overwrite, true, now);
      MovedExactly(t, tx.value.0, bucket, plan.srcPrefix, plan.dstPrefix, now) <==>
      (NoStray(t, bucket, plan.srcPrefix) && ImagesEscape(t, bucket, plan.srcPrefix, plan.dstPrefix))
  {
    var plan := PlanOf(t, bucket, srcKey, bucket, dstKey, true);
    hide PlanOf, MovePrefixTx, MovedExactly, NoStray, ImagesEscape;
    MovePrefixExactIff(t, bucket, plan.srcPrefix, plan.dstPrefix, overwrite, now);
  }

  // ---------------------------------------------------------------------------------------------
  // Harmful requests the guards let through
  // ---------------------------------------------------------------------------------------------

  lemma Admits(t: Database, bucket: Str, src: Str, dst: Str, move: bool)
    requires IsCollectionKey(src) && IsCollectionKey(dst) && src != [] && dst != [] && src != dst && !(src <= dst)
    requires RowKey(bucket, dst) !in t.objects && 0 < |MatchingKeys(t, bucket, src)| <= MAX_RECURSIVE_OBJECTS
    ensures PlanOf(t, bucket, src, bucket, dst, move) == Tree(src, dst)
  {
    hide MatchingKeys, HasCollection;
    CanonicalIsCollectionKey(src);
    CanonicalIsCollectionKey(dst);
    assert src[|src| - 1..] == [src[|src| - 1]];
  }

  lemma OneMatch(t: Database, row: RowKey, prefix: Str)
    requires t.objects.Keys == {row} && prefix <= row.key
    ensures |MatchingKeys(t, row.bucket, prefix)| == 1
  {
    FoldOfPrefix(prefix, row.key);
    forall k ensures k in MatchingKeys(t, row.bucket, prefix) <==> k in {row.key} {
      MatchingKeysMember(t, row.bucket, prefix, k);
    }
    assert MatchingKeys(t, row.bucket, prefix) == {row.key};
  }

  /** Renaming a collection to another spelling of its own name is admitted, succeeds, and loses what is in it. */
  lemma CaseRenameAdmitted(t: Database, row: RowKey, src: Str, dst: Str)
    requires t.objects.Keys == {row} && src <= row.key && IsCollectionKey(src) && IsCollectionKey(dst)
    requires Fold(src) == Fold(dst) && src != dst
    ensures var plan := PlanOf(t, row.bucket, src, row.bucket, dst, true);
      && plan == Tree(src, dst)
      && var tx := TxOf(t, plan, row.bucket, src, dst, false, true, 0);
      tx.Ok? && tx.value.0.objects == map[]
  {
    assert |src| == |dst| by { assert |Fold(src)| == |src| && |Fold(dst)| == |dst|; }
    assert !(src <= dst) && row.key != dst;
    OneMatch(t, row, src);
    Admits(t, row.bucket, src, dst, true);
    SingleObjectLost(t, row, src, dst);
  }

  lemma TwoMatches(t: Database, bucket: Str, a: Str, b: Str, prefix: Str)
    requires t.objects.Keys == {RowKey(bucket, a), RowKey(bucket, b)} && a != b
    requires Fold(prefix) <= Fold(a) && Fold(prefix) <= Fold(b)
    ensures |MatchingKeys(t, bucket, prefix)| == 2
  {
    forall k ensures k in MatchingKeys(t, bucket, prefix) <==> k in {a, b} {
      MatchingKeysMember(t, bucket, prefix, k);
    }
    assert MatchingKeys(t, bucket, prefix) == {a, b};
  }

  /** Copying a collection up into its parent is admitted and can give an object another object's chunks. */
  lemma UpwardCopyAdmitted(bucket: Str, first: Str, second: Str, third: Str, src: Str, dst: Str)
    requires IsCollectionKey(src) && IsCollectionKey(dst) && dst != [] && dst < src
    requires Less(first, second) && src <= first && src <= second
    requires ImageKey(first, src, dst) == second && ImageKey(second, src, dst) == third
    ensures var t := TwoObjects(bucket, first, second);
      var plan := PlanOf(t, bucket, src, bucket, dst, false);
      && AllTiled(t) && plan == Tree(src, dst)
      && var tx := TxOf(t, plan, bucket, src, dst, true, false, 0);
      tx.Ok? && !AllTiled(tx.value.0)
  {
    FoldOfPrefix(src, first);
    FoldOfPrefix(src, second);
    MixingCopyAdmitted(bucket, first, second, third, src, dst);
  }

  /** Copying `a/` to `A/` is admitted even when only foreign keys match, and mixes their chunks. */
  lemma ForeignCopyAdmitted(bucket: Str)
    ensures var t := TwoObjects(bucket, Ascii("A/!"), Ascii("A/A/!"));
      var plan := PlanOf(t, bucket, Ascii("a/"), bucket, Ascii("A/"), false);
      && AllTiled(t) && plan == Tree(Ascii("a/"), Ascii("A/"))
      && var tx := TxOf(t, plan, bucket, Ascii("a/"), Ascii("A/"), true, false, 0);
      tx.Ok? && !AllTiled(tx.value.0)
  {
    ForeignKeys();
    hide ImageKey, Fold, Less, PlanOf, TxOf, AllTiled, TwoObjects;
    assert Ascii("a/")[0] != Ascii("A/")[0] && |Ascii("a/")| == |Ascii("A/")| == 2;
    assert |Ascii("A/!")| == 3 && |Ascii("A/A/!")| == 5;
    MixingCopyAdmitted(bucket, Ascii("A/!"), Ascii("A/A/!"), Ascii("A/A/A/!"), Ascii("a/"), Ascii("A/"));
  }

  /**
   Any chain of matched keys whose images go up is admitted, unless the destination is an object or inside the source.
   */
  lemma MixingCopyAdmitted(bucket: Str, first: Str, second: Str, third: Str, src: Str, dst: Str)
    requires IsCollectionKey(src) && IsCollectionKey(dst) && src != [] && dst != [] && !(src <= dst)
    requires dst != first && dst != second
    requires Less(first, second) && Fold(src) <= Fold(first) && Fold(src) <= Fold(second)
    requires ImageKey(first, src, dst) == second && ImageKey(second, src, dst) == third
    ensures var t := TwoObjects(bucket, first, second);
      var plan := PlanOf(t, bucket, src, bucket, dst, false);
      && AllTiled(t) && plan == Tree(src, dst)
      && var tx := TxOf(t, plan, bucket, src, dst, true, false, 0);
      tx.Ok? && !AllTiled(tx.value.0)
  {
    var t := TwoObjects(bucket, first, second);
    LessAsymmetric(first, second);
    TwoMatches(t, bucket, first, second, src);
    Admits(t, bucket, src, dst, false);
    OverlappingCopyBreaksTiling(bucket, first, second, third, src, dst);
  }

  // ---------------------------------------------------------------------------------------------
  // DELETE
  // ---------------------------------------------------------------------------------------------

  function RemoveTree(t: Database, bucket: Str, prefix: Str): Result<(Database, ())> {
    var count := |MatchingKeys(t, bucket, prefix)|;
    if count == 0 then Err(NotFound)
    else if count > MAX_RECURSIVE_OBJECTS then Err(TooManyObjects)
    else Ok((DeletePrefixRows(t, bucket, prefix), ()))
  }

  function RemoveTx(t: Database, bucket: Str, key: Str): Result<(Database, ())> {
    if bucket !in t.buckets then Err(NotFound)
    else if key == [] then
      if t.buckets[bucket].enabled then Err(Forbidden) else Ok((DeleteBucketTx(t, bucket), ()))
    else if !t.buckets[bucket].enabled then Err(Forbidden)
    else if key[|key| - 1] == SLASH[0] then RemoveTree(t, bucket, key)
    else if RowKey(bucket, key) in t.objects then Ok((DeleteRows(t, RowKey(bucket, key)), ()))
    else if HasCollection(t, bucket, key) then RemoveTree(t, bucket, CanonicalCollectionKey(key))
    else Err(NotFound)
  }

  ghost predicate ObjectRemoved(t: Database, t': Database, row: RowKey) {
    && t'.buckets == t.buckets && RowAbsent(t', row)
    && forall other: RowKey | other != row :: RowUnchanged(t, t', other)
  }

  /** Everything the filter matches is gone with its chunks, everything else is as it was. */
  ghost predicate TreeRemoved(t: Database, t': Database, bucket: Str, prefix: Str) {
    && t'.buckets == t.buckets
    && forall row: RowKey ::
         if row.bucket == bucket && Fold(prefix) <= Fold(row.key) then RowAbsent(t', row) else RowUnchanged(t, t', row)
  }

  ghost predicate BucketRemoved(t: Database, t': Database, bucket: Str) {
    && t'.buckets == t.buckets - {bucket}
    && forall row: RowKey :: if row.bucket == bucket then RowAbsent(t', row) else RowUnchanged(t, t', row)
  }

  /** What a removal that may run does: a disabled bucket, an object, or everything under a collection goes. */
  ghost predicate Removed(t: Database, t': Database, bucket: Str, key: Str) {
    if key == [] then BucketRemoved(t, t', bucket)
    else if key != Under(key) && RowKey(bucket, key) in t.objects then ObjectRemoved(t, t', RowKey(bucket, key))
    else TreeRemoved(t, t', bucket, Under(key))
  }

  /** When a removal is refused, and how. */
  ghost predicate RemovalRefused(t: Database, bucket: Str, key: Str, error: Error) {
    match error
    case NotFound =>
      bucket !in t.buckets || (key != [] && t.buckets[bucket].enabled && MatchingKeys(t, bucket, Under(key)) == {}
                               && (key == Under(key) || RowKey(bucket, key) !in t.objects))
    case Forbidden => bucket in t.buckets && (key == [] <==> t.buckets[bucket].enabled)
    case TooManyObjects =>
      bucket in t.buckets && key != [] && t.buckets[bucket].enabled && |MatchingKeys(t, bucket, Under(key))| > 100000
      && (key == Under(key) || RowKey(bucket, key) !in t.objects)
    case _ => false
  }

  lemma RemoveTxMeaning(t: Database, bucket: Str, key: Str)
    ensures var tx := RemoveTx(t, bucket, key);
      && (tx.Ok? ==> Removed(t, tx.value.0, bucket, key))
      && forall e: Error :: tx == Err(e) <==> RemovalRefused(t, bucket, key, e)
  {
    hide MatchingKeys, HasCollection, ListChunks, DeleteRows, DeletePrefixRows, DeleteBucketTx;
    if key != [] {
      UnderIsCanonical(key);
      HasCollectionIff(t, bucket, key);
      RemovedTree(t, bucket, Under(key));
    }
    RemovedRow(t, RowKey(bucket, key));
    RemovedBucket(t, bucket);
  }

  lemma RemovedTree(t: Database, bucket: Str, prefix: Str)
    ensures TreeRemoved(t, DeletePrefixRows(t, bucket, prefix), bucket, prefix)
  {
    assert DeletePrefixRows(t, bucket, prefix).buckets == t.buckets;
    hide DeletePrefixRows, ListChunks, Fold;
    forall row: RowKey {
      DeletePrefixEffect(t, bucket, prefix, row);
    }
  }

  lemma RemovedRow(t: Database, row: RowKey)
    ensures ObjectRemoved(t, DeleteRows(t, row), row)
  {
    assert DeleteRows(t, row).buckets == t.buckets;
    hide DeleteRows, ListChunks;
    forall other: RowKey {
      DeleteRowsEffect(t, row, other);
    }
  }

  lemma RemovedBucket(t: Database, bucket: Str)
    ensures BucketRemoved(t, DeleteBucketTx(t, bucket), bucket)
  {
    hide DeleteBucketTx, ListChunks;
    DeleteBucketEffect(t, bucket, RowKey(bucket, []));
    forall row: RowKey {
      DeleteBucketEffect(t, bucket, row);
    }
  }

  /** The recursive part of RemoveAll. */
  method RemoveCollection(meta: SQLiteStore, bucket: Str, prefix: Str, durable: bool) returns (r: Result<()>)
    modifies meta
    ensures Transacted(old(meta.db), meta.db, r, RemoveTree(old(meta.db), bucket, prefix), durable)
  {
    var count := meta.CountObjects(bucket, prefix);
    if count == 0 {
      return Err(NotFound);
    }
    if count > MAX_RECURSIVE_OBJECTS {
      return Err(TooManyObjects);
    }
    r := meta.DeletePrefix(bucket, prefix, durable);
  }

  /** RemoveAll, once the path is parsed and is not the root. */
  method RemoveAll(meta: SQLiteStore, bucket: Str, key: Str, durable: bool) returns (r: Result<()>)
    modifies meta
    ensures Transacted(old(meta.db), meta.db, r, RemoveTx(old(meta.db), bucket, key), durable)
    ensures r.Ok? ==> durable && Removed(old(meta.db), meta.db, bucket, key)
    ensures r.Err? ==> meta.db == old(meta.db)
    ensures r.Err? ==> RemovalRefused(meta.db, bucket, key, r.error) || (r.error == IoFailure && !durable)
    ensures durable ==> (r.Err? <==> exists e: Error :: RemovalRefused(old(meta.db), bucket, key, e))
  {
    RemoveTxMeaning(old(meta.db), bucket, key);
    hide Removed, RemovalRefused;
    hide HasCollection, DeletePrefixRows, DeleteRows, DeleteBucketTx, MatchingKeys;
    if bucket !in meta.db.buckets {
      return Err(NotFound);
    }
    var enabled := meta.db.buckets[bucket].enabled;
    if key == [] {
      if enabled {
        return Err(Forbidden);
      }
      r := meta.DeleteBucket(bucket, durable);
      return;
    }
    if !enabled {
      return Err(Forbidden);
    }
    if key[|key| - 1] == SLASH[0] {
      CanonicalIsCollectionKey(key);
      r := RemoveCollection(meta, bucket, CanonicalCollectionKey(key), durable);
      return;
    }
    if RowKey(bucket, key) in meta.db.objects {
      r := meta.DeleteObject(bucket, key, durable);
      return;
    }
    var isCollection := AskCollection(meta, bucket, key);
    if isCollection {
      r := RemoveCollection(meta, bucket, CanonicalCollectionKey(key), durable);
      return;
    }
    return Err(NotFound);
  }

  /**
   Removing a collection removes exactly the keys under it, with their chunks, exactly when no foreign key matches.
   */
  lemma RemoveCollectionExactIff(t: Database, bucket: Str, key: Str)
    requires ReferentialIntegrity(t) && key != [] && IsCollectionKey(key) && RemoveTx(t, bucket, key).Ok?
    ensures DeletedExactly(t, RemoveTx(t, bucket, key).value.0, bucket, key) <==> NoStray(t, bucket, key)
  {
    DeletePrefixExactIff(t, bucket, key);
  }
}
