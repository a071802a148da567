# A model of the tgnas storage gateway

tgnas keeps the bytes of S3 and WebDAV objects as files in Telegram and everything else in a SQLite database. This
project models the part of it that has to be right: the metadata tables and the transactions on them, the paged and
delimited listing, the layout of objects as chunks and the reads of them, multipart uploads, the keyed lock with the
admission semaphores, and the canonical query string of request signing. The statements below are proved for all
inputs, all runs or all reachable states; those that show a promise broken name the input that breaks it.

Run `dafny verify dfyconfig.toml` to check it.

## What is modelled

**Tables and transactions** (`Bytes`, `Sequences`, `Like`, `Utf8`, `Results`, `Tables`, `Transactions`,
`MetadataStore`). The three tables are maps from primary key to row; a key is a byte string, ordered as Go and
SQLite's BINARY collation order it. `MetadataStore.SQLiteStore` is the store as an object: a write builds its result
on a copy and publishes it when its transaction commits, and the parameter `durable` says whether the database accepts
the commit. The page query keeps SQLite's behaviour that `LIKE` ignores the case of ASCII letters. Go's `TrimPrefix`
does not, and several results say exactly when that difference shows: `NoStray` means that no key of the bucket passes
the folding filter without having the prefix. Keys are matched as bytes; `Utf8` proves that this is the match on code
points, which SQLite computes, for well-formed UTF-8.

**Prefix operations** (`PrefixOps`, `PrefixFailures`, `BucketRename`, `Integrity`, `StoreRuns`, `StoredContent`,
`DavRequests`). What a recursive copy, move or delete does to every row, what runs of all operations keep, and what
the WebDAV handlers let through. Where the code does not keep a promise the boundary is exact. A move is exact if and
only if no foreign key matches and no image matches the source. A copy without foreign keys is exact if and only if
every source key whose image is a later source key has that key's chunks already. A copy keeps chunk lists intact for
every table if and only if no key that passes the folding filter has a later image that passes it too
(`ImagesGoDown`); over the tables without foreign keys, and for any table when the source prefix has no letters, that
is the case if and only if the prefixes are `PrefixesSafe`. There are witnesses for renaming `a/` to `A/` (everything
under it is lost), for copying `a/b/` up to `a/`, and for copying `a/` to `A/` with no key under `a/` at all (an
object receives another object's chunks).

**Listing** (`FirstOccurrences`, `Listing`, `ObjectListing`, `Pages`, `Commands`, `Collections`, `Sorting`). The
one-shot listing is the matching rows in key order, each giving itself or its common prefix, without repetition. One
page of `ObjectStore.ListObjects` is a prefix of that, whatever the batch sizes; the pages of a client that follows
continuation keys are all of it, for all page sizes, exactly when groups are consecutive. The two listing commands and
the WebDAV collection listing are independent loops over the same page query and are tied to the same one-shot
listing.

**Content** (`Ranges`, `ChunkReads`, `ObjectLayout`). Range headers (section 14.1.2 of RFC 9110) and exactly which
accepted ones are not of the form the standard allows, chunk selection in 64-bit arithmetic, streaming, and the round
trip from what was put to the bytes of any read. Telegram is a map from file ID to bytes.

**Multipart uploads** (`Multipart`, `ClientRuns`, `MultipartProtocol`, `MultipartSteps`). The sessions as an object
with one method for each critical section and each whole operation; the interleavings of any number of operations, and
of the writes of others, as a state machine over the sessions and the tables; and each section as a step of that state
machine. `ClientRuns` follows a client through a whole upload or put and the reads after it.

**Locks and admission** (`KeyedLocking`, `Admission`). The reference-counted keyed lock, as a state machine and as an
object whose methods are its steps; and who waits for whom among the semaphores, the key locks and the mutexes.

**Request signing** (`QueryCanonical`, `HeaderCanonical`). The canonical query string as a complete invariant of the
decoded query, and the canonical headers as a function of the set of signed names. The lower-casing of names and the
lookup of values are parameters.

Hashes, the clock and the random upload IDs (required fresh) are handed in as parameters. A bucket is taken not to
change while one listing or one client run reads it, and keys are not empty (a listing starts behind the empty key, so
the code never shows an empty one).

## Model

| member | source | states |
|---|---|---|
| Like.KeyLikeIsFoldedPrefix | metadata/sqlite.go:236-238 | a key passes the escaped LIKE filter if and only if the folded prefix is a prefix of the folded key, so no `%`, `_` or backslash in the prefix is a wildcard |
| Like.PrefixIsLike | metadata/sqlite.go:921-928 | every key that starts with the prefix passes the filter |
| Like.FoldCharIff | metadata/sqlite.go:236-238 | the filter takes for equal exactly the two cases of an ASCII letter |
| Utf8.KeyLikeOnTextIff | metadata/sqlite.go:921-928 | for well-formed UTF-8 the filter on code points is the filter on bytes, and the pattern built from the bytes is the pattern of the code points |
| Tables.ListChunksMeaning | metadata/sqlite.go:739-763 | the chunk query returns exactly the chunk rows of the object, in strictly ascending part number |
| Tables.ListChunksUnique | metadata/sqlite.go:739-763 | any part-ordered list holding exactly an object's chunk rows is what the query returns |
| Tables.InsertChunkRowsEffect | metadata/sqlite.go:785-813 | inserting chunk rows succeeds if and only if no primary key repeats, fails only with a constraint error, and adds exactly those rows |
| Tables.PutRowsEffect | metadata/sqlite.go:128-165 | writing an object with part-ordered chunk rows of its own key always succeeds and replaces just that object and its chunk list |
| Listing.SelectAfterMeaning | metadata/sqlite.go:224-256 | the page query returns rows in strictly ascending key order that match the filter and lie behind the cursor |
| Listing.SelectAfterComplete | metadata/sqlite.go:224-256 | every matching key behind the cursor is among the rows |
| Listing.SelectAfterContinues | metadata/sqlite.go:224-256 | querying from the i-th returned key on continues with exactly the rows from i on |
| MetadataStore.PutObjectInTx | metadata/sqlite.go:785-813 | the statement loop computes the specified row replacement or its constraint error |
| MetadataStore.CopyPrefixInTx | metadata/sqlite.go:835-894 | the loop, which reads object rows once and chunk rows when their turn comes, computes the specified transaction |
| MetadataStore.SQLiteStore.PutObject | metadata/sqlite.go:128-165 | commits the row replacement, or leaves the tables as they were on any error |
| MetadataStore.SQLiteStore.GetObject | metadata/sqlite.go:167-210 | the object row and its part-ordered chunk rows, or NotFound exactly when there is no row |
| MetadataStore.SQLiteStore.ListObjects | metadata/sqlite.go:224-256 | the first matching rows behind the cursor, never more than the limit (1000 when it is not positive), and fewer only when they are all |
| MetadataStore.SQLiteStore.ListAllObjects | metadata/sqlite.go:436-450 | every matching row in key order, although read in pages of 1000; the loop ends |
| MetadataStore.SQLiteStore.CopyPrefix | metadata/sqlite.go:364-379 | commits the recursive copy or changes nothing |
| MetadataStore.SQLiteStore.MovePrefix | metadata/sqlite.go:381-402 | commits the recursive copy and the removal of everything the source filter matches, or changes nothing |
| MetadataStore.SQLiteStore.RenameBucket | metadata/sqlite.go:493-540 | commits the relabelled tables and returns the counts, or changes nothing |
| PrefixOps.CopyRowsExact | metadata/sqlite.go:862-892 | the copy loop fails exactly when it may not overwrite and some image exists, reports creation exactly when none exists, and then changes nothing but the images |
| PrefixOps.CopyPrefixExactIff | metadata/sqlite.go:835-894 | a copy without foreign keys fails exactly when it may not overwrite and some destination exists, reports creation exactly when none exists, and then does exactly what it promises if and only if every source key whose image is a later source key has that key's chunks already |
| PrefixOps.StrayCopyLeaks | metadata/sqlite.go:835-894 | a foreign key is copied too, whole, behind the destination prefix; where that is neither an image nor an object the copy is not exact |
| PrefixOps.CopyPrefixExact | metadata/sqlite.go:364-379 | where no image is a row still to be read, a recursive copy maps each source key to its image with content and chunks, leaves every other row alone, reports creation if and only if no destination existed, and fails only on one it may not overwrite |
| PrefixOps.SafePrefixesDoNotOverlap | metadata/sqlite.go:848-877 | for prefixes of which neither extends the other (and for sources that add only 0xFF bytes) no image is a row the loop has still to read |
| PrefixOps.SeparateFoldedPrefixes | metadata/sqlite.go:364-402 | unrelated folded prefixes neither overlap nor let an image fall under the source filter |
| PrefixOps.MovePrefixExactIff | metadata/sqlite.go:381-402 | a successful move turns exactly the source keys into their images, removes them and touches nothing else, if and only if no foreign key matches and no image matches the source filter |
| PrefixFailures.DeletePrefixExactIff | metadata/sqlite.go:404-415 | a recursive delete removes exactly the keys with the prefix if and only if no foreign key matches |
| PrefixFailures.MoveUnderOwnFoldLosesAll | metadata/sqlite.go:381-402 | a move whose destination folds to or below the source loses every key it was asked to move |
| PrefixFailures.SingleObjectLost | metadata/sqlite.go:381-402 | moving a bucket's only object to another spelling of its prefix succeeds and leaves no object |
| PrefixFailures.CaseRenameWitness | metadata/sqlite.go:381-402 | the concrete case: moving `a/` to `A/` with the object `a/x` empties the table |
| PrefixFailures.OverlappingCopyMixesChunks | metadata/sqlite.go:848-877 | when one key's image is a later source key, that later key's image receives the earlier key's chunks |
| PrefixFailures.OverlappingCopyWitness | metadata/sqlite.go:848-877 | the concrete case: copying `a/b/` to `a/` turns tables whose chunks tile into tables whose chunks do not |
| PrefixFailures.CopySafeIff | metadata/sqlite.go:835-894 | a recursive copy keeps chunk lists tiling for every table if and only if no key that passes the filter has an image behind it that passes it too |
| PrefixFailures.CopySafeWithoutStraysIff | metadata/sqlite.go:835-894 | for every table without foreign keys it does so if and only if the prefixes are safe: neither extends the other, or the source adds only 0xFF bytes |
| PrefixFailures.ImagesGoDownNeedsSafePrefixes | metadata/sqlite.go:835-894 | safe prefixes are always necessary, and they are sufficient when the source prefix has no letters |
| PrefixFailures.ForeignCopyWitness | metadata/sqlite.go:848-877 | the concrete case: copying `a/` to `A/`, safe prefixes, with only `A/!` and `A/A/!` stored breaks their chunk lists |
| Transactions.CopyRowEffect | metadata/sqlite.go:864-892 | one turn of the loop replaces exactly the destination row, with the chunks the source has at that moment |
| Transactions.CopyObjectEffect | metadata/sqlite.go:275-314 | which of the two refusals applies when; otherwise the destination carries the source's attributes with the new time and its chunks under the new key, nothing else changes, and creation is reported exactly when no destination existed |
| Transactions.MoveObjectEffect | metadata/sqlite.go:316-362 | a move succeeds exactly for different names, a source that is there and a destination it may write, with the error of each refusal; the destination then carries the source, the source is gone with its chunks, and nothing else changes |
| Transactions.DeletePrefixEffect | metadata/sqlite.go:896-905 | what the filter matches is gone with its chunks, everything else is as it was |
| Transactions.TilingRelabel | metadata/sqlite.go:815-823 | copied chunk rows tile whatever the original rows tile |
| BucketRename.ChunkCollisionNeedsObjectCollision | metadata/sqlite.go:530-538 | with referential integrity a rename can hit a chunk key collision only if it also hits an object key collision |
| BucketRename.RenameSucceedsIff | metadata/sqlite.go:493-540 | a rename succeeds if and only if only the old bucket exists and no key is present in both, and is refused for equal names, a missing bucket or a taken name in that order |
| BucketRename.RenameExact | metadata/sqlite.go:493-540 | it relabels exactly the old bucket's rows in all three tables, keeps every field and other row, and returns one bucket and the numbers of object and chunk rows it had |
| Integrity.PutKeepsIntegrityIff | metadata/sqlite.go:128-165 | a put keeps each chunk attached to an object if and only if its chunk rows belong to stored objects |
| Integrity.RunsKeepIntegrity | metadata/sqlite.go:128-540 | in every state reached by public operations, committed or rolled back and for any prefixes, each chunk row has its object row |
| Integrity.CopyPrefixKeepsTiling | metadata/sqlite.go:835-894 | a recursive copy without overlap keeps every chunk list tiling its object |
| Integrity.RunsKeepTiling | metadata/sqlite.go:128-540 | in every state reached by safe operations each object's chunks are numbered 1..ChunkCount, lie end to end and add up to its size |
| StoreRuns.Perform | metadata/sqlite.go:64-540 | each operation of the runs is its method called on the store: the tables it leaves are those of the run |
| StoreRuns.PerformAll | metadata/sqlite.go:64-540 | any sequence of calls leaves the tables of the run of these calls |
| StoredContent.EffectKeepsEvery | metadata/sqlite.go:128-540 | no operation invents chunk contents: any property of all chunk rows and of those a put brings holds of all afterwards |
| StoredContent.EveryObjectReads | store/store.go:494-569 | in every state reached by safe operations a full read of any object delivers its recorded size, and every accepted range header delivers that slice of the full read |
| ObjectListing.GroupOf | store/store.go:618-635 | the grouping step yields the row's key or the text up to the first delimiter behind the prefix |
| ObjectListing.ScanGroup | store/store.go:697-708 | the inner loop of the group skip stops at the first row of another group |
| ObjectListing.AdvancePastPrefix | store/store.go:687-713 | the cursor ends behind the last row of the group, and more is reported if and only if a row follows; the loop ends |
| ObjectListing.ScanBatch | store/store.go:600-660 | the inner loop shows each entry once and stops behind the row that fills the page |
| ObjectListing.ReadPage | store/store.go:586-684 | for every limit, with batch sizes that may wrap, the loop returns a page of the one-shot listing; it ends |
| ObjectListing.ListObjects | store/store.go:571-685 | a page is the first `limit` entries of the one-shot listing of the keys behind AfterKey, complete to the end of its last group, truncated if and only if a matching key follows; an unknown bucket is refused |
| Listing.GroupIsPrefix | store/store.go:618-635 | two keys fall into one group if and only if both start with its common prefix |
| Listing.PrefixedRowsContiguous | store/store.go:618-640 | rows in key order that have the prefix form consecutive groups |
| Listing.CollapseStrictlySorted | store/store.go:571-685 | the names of the one-shot listing, keys and common prefixes together, strictly ascend |
| Pages.PagesConcatenate | store/store.go:571-713 | for all page sizes the pages of a client together are the one-shot listing, in at most one page more than rows |
| Pages.EveryRunIsExactIff | store/store.go:571-713 | every client run loses, splits and repeats nothing if and only if the keys of each group are consecutive |
| Pages.PagesAreTheListing | store/store.go:571-713 | without foreign keys a client assembles, in strictly ascending order, exactly the undelimited keys and exactly the common prefixes of the delimited ones |
| Pages.ContinuationEndsGroup | store/store.go:649-682 | the continuation key is the last key of the group of the last entry shown, nothing behind it belongs to an entry shown, and the page is truncated if and only if a row lies behind it |
| Pages.FlatListingContiguous | store/store.go:603-616 | without a delimiter paging is exact whatever keys the filter lets in |
| Pages.StrayKeysSplitGroup | store/store.go:618-640 | the concrete case: for prefix `a` and delimiter `/` the keys `Ab/x`, `Ac/z` and `aAb/y` split a group |
| Commands.WriteObjectKeys | cmd/tgnas/main.go:252-289 | prints the first `limit` matching keys in order, all of them for 0; the loop ends |
| Commands.WriteCommonPrefixes | cmd/tgnas/main.go:434-467 | prints the common prefixes of the one-shot listing for `/`, each once and in order, but not the one of an empty segment |
| Commands.KeysMatchPages | cmd/tgnas/main.go:252-289 | the printed keys are those a client gets by following pages without a delimiter |
| Commands.PrefixesMatchPages | cmd/tgnas/main.go:434-467 | the printed prefixes are those a client gets by following pages, where groups are consecutive |
| Commands.PrintedIff | cmd/tgnas/main.go:434-467 | a prefix with a nonempty last segment is printed if and only if some matching key has that segment in front of a slash |
| Collections.CanonicalIsCollectionKey | internal/dav/fs.go:66-71 | the canonical key is the key with at most one slash added, and collections are exactly its fixed points |
| Collections.CollectionChildren | internal/dav/fs.go:331-356 | the loop and the sort compute the specified children |
| Collections.CollectionIsCollapse | internal/dav/fs.go:331-356 | for every collection, foreign keys or not, the children strictly ascend by name and are exactly the entries of the one-shot listing without the marker, each with the time of its first row |
| Collections.KeyIsShown | internal/dav/fs.go:331-356 | every key under a collection but its marker shows as a child: with its own name, size, time, type and ETag, or as the directory up to its first slash |
| Collections.ChildShowsKey | internal/dav/fs.go:331-356 | every child shows some key, and a directory has the time of the first key in it |
| Collections.CollectionInOrder | internal/dav/fs.go:354 | without foreign keys the children are found in name order already, so the sort changes nothing |
| Collections.StrayIsDirectory | internal/dav/fs.go:339-351 | a foreign key that the filter lets through is shown as a directory |
| Sorting.SortByOrders | internal/dav/fs.go:354 | a sorted slice is a permutation in order |
| Sorting.SortByUnique | internal/s3api/sigv4.go:409-414 | when only equal elements compare as equal, all arrangements sort to the same slice |
| DavRequests.HandleCopyMove | internal/dav/handler.go:199-326 | a refused request changes nothing and answers as the guards say; for one object the answer and the new tables are stated for every case, move and copy; for a subtree without foreign keys the answer says whether a destination existed |
| DavRequests.PlanMeaning | internal/dav/handler.go:224-308 | the guards' whole decision, in terms of the keys that are there and that pass the filter |
| DavRequests.HasCollectionIff | internal/dav/handler.go:339-352 | a collection is there exactly when some key passes the filter under its canonical key |
| DavRequests.MoveOfUnrelatedTrees | internal/dav/handler.go:279-295 | for collections unrelated even up to case, a MOVE is refused as a conflict exactly when it may not overwrite and an image exists, and is otherwise exact |
| DavRequests.AdmittedMoveExactIff | internal/dav/handler.go:280-286 | an admitted MOVE is exact if and only if no foreign key matches and no image matches the source |
| DavRequests.CaseRenameAdmitted | internal/dav/handler.go:258-286 | the guards admit renaming a collection to another spelling of its name, and the request succeeds with everything lost |
| DavRequests.UpwardCopyAdmitted | internal/dav/handler.go:262-293 | the guards admit copying a collection up into its parent, which can give an object another object's chunks |
| DavRequests.ForeignCopyAdmitted | internal/dav/handler.go:249-293 | the guards admit copying `a/` to `A/` when only foreign keys match, which gives an object another object's chunks |
| DavRequests.RemoveAll | internal/dav/fs.go:161-219 | a removal takes away the disabled bucket, the object or everything under the collection, and nothing else, or changes nothing with the error deserved |
| DavRequests.RemoveTxMeaning | internal/dav/fs.go:161-219 | which removal is refused and how, and what each other one leaves of the three tables |
| DavRequests.RemoveCollectionExactIff | internal/dav/fs.go:185-197 | deleting a collection removes exactly the keys under it if and only if no foreign key matches |
| Ranges.AcceptedInBounds | store/range.go:20-72 | an accepted range satisfies 0 <= start <= end < size, whatever the header |
| Ranges.AcceptedForm | store/range.go:30-42 | only headers made of `bytes=` and two texts around a dash are accepted |
| Ranges.ParseHeader | store/range.go:30-72 | such a header means what its two texts say |
| Ranges.ClosedRange | store/range.go:55-71 | `bytes=s-e` is clipped to the object, and refused exactly when it starts behind the end, runs backwards or overflows |
| Ranges.OpenRange | store/range.go:55-71 | `bytes=s-` is everything from s, refused exactly when s is behind the end |
| Ranges.SuffixRange | store/range.go:44-53 | `bytes=-n` is the last min(n, size) bytes, refused exactly when n is zero or overflows or the object is empty |
| Ranges.ReprintAccepted | store/range.go:20-72 | printing any accepted range and parsing it again gives it back |
| Ranges.OtherHeaders | store/range.go:20-42 | no header means the whole object; another unit, a list of ranges or no dash is refused |
| Ranges.HeaderText | store/range.go:30 | the texts stand behind `bytes=` and around the dash |
| Ranges.LeadingDigit | store/range.go:44-61 | numbers are read in decimal, the first digit weighing most |
| Ranges.BeyondRfcIff | store/range.go:44-71 | an accepted header is not of the form section 14.1.2 of RFC 9110 allows if and only if it has a plus sign in front of a number that is accepted without it, or a minus sign in front of a zero end behind a zero start |
| ChunkReads.SelectChunksForRange | store/range.go:87-105 | the loop computes the specified selection in 64-bit arithmetic |
| ChunkReads.SelectChunkExact | store/range.go:90-102 | for a chunk that ends within 64 bits nothing wraps, and exactly the overlapping bytes are taken, at least one |
| ChunkReads.SelectionExact | store/range.go:87-105 | on a laid-out list a range selects exactly the overlapping non-empty chunks in order and takes exactly its length |
| ChunkReads.Stream | store/store.go:526-566 | the body is the selected pieces in order; without a file it stops there with the pieces before it |
| ChunkReads.WholeRead | store/store.go:509-514 | a read without a range yields the files end to end |
| ChunkReads.RangeRead | store/store.go:515-566 | a range read yields that slice of the content, and the range over everything yields the full read |
| ObjectLayout.BuildMultipartObject | store/store.go:413-455 | the nested loops number all chunks of all parts from 1 and place each behind the bytes before it; the ETag is the hash of the digests one behind the other, a dash and the number of parts |
| ObjectLayout.ETagMeaning | store/store.go:457-463 | what is hashed for the ETag are the parts' digests end to end, in order |
| ObjectLayout.ReplacedIsCompleted | store/store.go:413-455 | the completed object's row and chunk rows, field by field |
| ObjectLayout.MultipartTiles | store/store.go:413-455 | a completed upload writes chunk rows of its own key that tile the object, when the total fits 64 bits |
| ObjectLayout.PutTiles | store/store.go:743-829 | empty and single puts write chunk rows of their own key that tile the object |
| ObjectLayout.PutObject | store/store.go:152-186 | a put succeeds exactly when size, bucket, strategy, limit, body length and upload are in order and the commit is accepted, and otherwise changes nothing and says what was wrong first; every field of the row and the chunk row is stated for the empty, the plain and the recompressed put |
| ObjectLayout.PutRoundTrip | store/store.go:766-829 | a single put whose recorded size is what Telegram stored reads back as that file, whole and in every accepted range |
| ObjectLayout.GetObject | store/store.go:494-569 | returns the object's info and the selected pieces, or those before the first missing file; NoSuchBucket and NoSuchKey exactly when they apply |
| ObjectLayout.TilingIsLaidOut | store/store.go:942-948 | chunk rows that tile an object are laid out end to end for the reader |
| ObjectLayout.TiledObjectReads | store/store.go:494-569 | whatever range header comes, a read of a tiled object delivers that slice of the full read |
| ObjectLayout.MultipartRoundTrip | store/store.go:302-569 | completing an upload and reading gives the parts' bytes in order, and for every accepted range header that slice of them |
| ObjectLayout.SingleReadsBackIff | store/store.go:792-824 | a single put reads back whole if and only if Telegram serves no more bytes than the size recorded from its answer |
| Multipart.CompletePartsIff | store/store.go:392-407 | a completion request is accepted if and only if its part numbers strictly ascend from 1 upwards and every part is held with a matching ETag, and then takes those parts |
| Multipart.CompletePartsError | store/store.go:395-404 | the first bad part decides the error: its order first, then its presence |
| Multipart.EtagMatchesIff | store/store.go:409-411 | ETags match if and only if they are the same text once all quotes on both sides are off |
| Multipart.MadePartsHold | store/store.go:332-345 | parts made of bodies that Telegram serves back hold those bodies, which is where the round trip starts |
| Multipart.EvictedSize | store/store.go:218-234 | eviction removes one session exactly when there are more than 1000, and keeps the others |
| Multipart.MultipartStore.EvictOldest | store/store.go:218-234 | above 1000 sessions one goes that was created no later than any that stays, in whatever order the map is visited |
| Multipart.MultipartStore.CreateMultipartUpload | store/store.go:188-208 | adds an empty session and evicts; with at most 1000 sessions before there are at most 1000 after |
| Multipart.MultipartStore.StorePart | store/store.go:283-299 | stores or replaces just that part, or reports NoSuchUpload and changes nothing |
| Multipart.MultipartStore.UploadPart | store/store.go:255-345 | succeeds exactly when the arguments, the length, the limit, the session and the upload are in order, says otherwise what was wrong first, and stores a part whose every field is stated: the digests of the body and the one document Telegram answered |
| Multipart.MultipartStore.Snapshot | store/store.go:364-377 | returns the parts as held now, or the error the request deserves |
| Multipart.MultipartStore.CompleteMultipartUpload | store/store.go:357-390 | succeeds exactly when ID, list, session, parts and commit are in order: then the key's rows are those of the requested parts, field by field, the ETag is the hash of their digests in order, and the session is gone; otherwise nothing has changed and the first thing out of order decides the error |
| Multipart.MultipartStore.AbortMultipartUpload | store/store.go:465-478 | removes just that session, or reports why not and changes nothing |
| ClientRuns.UploadBodies | store/store.go:255-345 | a client that uploads bodies as parts 1, 2, ... finds each held as made of its body |
| ClientRuns.RequestAccepted | store/store.go:392-407 | the list of what it got back is accepted, and takes one part for each body |
| ClientRuns.UploadAndGet | store/store.go:188-569 | create, upload, complete and read: the ETag is the hash of the bodies' digests in order with their number, a read gives the bodies end to end, every accepted range header gives that slice, and the info and chunk rows say what was uploaded |
| ClientRuns.PutAndGet | store/store.go:152-569 | put and read: the body as Telegram holds it, whole and in every accepted range, under the body's own hashes or, recompressed, the random ETag and no hash |
| MultipartProtocol.CommittedAtMostOnce | store/store.go:188-390 | in every interleaving each upload ID is committed at most once and there are never more than 1000 sessions |
| MultipartProtocol.CommitsTakeHeldParts | store/store.go:357-407 | what is committed are the requested parts in strictly ascending order with matching ETags and the content type, exactly as the session held them at one earlier moment |
| MultipartProtocol.SessionsAccountedFor | store/store.go:188-478 | every upload ID ever issued is live, committed, aborted or evicted |
| MultipartProtocol.SessionsLeaveOnlyBy | store/store.go:188-478 | in every step of every run a session only leaves forgotten after its own commit, aborted by its own key or evicted as an oldest above the limit, and only a stored part changes it; so a failed commit keeps it |
| MultipartProtocol.LastCommitStands | store/store.go:379-384 | from a durable commit until the next write of the key, whatever else runs, the key holds the committed upload |
| MultipartProtocol.HolderKeepsRows | store/store.go:362-389 | until a committed completion lets go of its key's lock the key holds what it committed, unless an operation without a lock writes the key |
| MultipartSteps.CreateStep | store/store.go:197-207 | the section is the protocol's Create |
| MultipartSteps.CheckPartStep | store/store.go:263-270 | the section is the protocol's CheckPart when the session is known, and only then |
| MultipartSteps.StorePartStep | store/store.go:283-299 | the section is the protocol's StorePart, also when the session is gone |
| MultipartSteps.SnapshotStep | store/store.go:365-377 | the section is the protocol's TakeSnapshot, with the same outcome |
| MultipartSteps.CommitStep | store/store.go:379-384 | building and putting the object is the protocol's Commit, on the sessions and on the tables |
| MultipartSteps.ForgetStep | store/store.go:386-388 | the section is the protocol's Forget |
| MultipartSteps.AbortStep | store/store.go:469-477 | the section is the protocol's Abort when the session is known, and only then |
| MultipartSteps.PutStep | store/store.go:169-185 | a plain put under its key lock writes no other key: the protocol's WriteLocked |
| KeyedLocking.InvKept | store/locks.go:19-42 | every step keeps counts, sharing and exclusion |
| KeyedLocking.KeyedLockSafe | store/locks.go:19-42 | over all runs: the count is the number of operations waiting, holding or releasing; operations on a key share the mutex in the map; no two hold one key; the map is empty if and only if nobody is active |
| KeyedLocking.LastUserDeletes | store/locks.go:36-39 | the last user of a mutex always finds it in the map and deletes it, and nobody else does |
| KeyedLocking.KeyAdvances | store/locks.go:31-33 | when an operation waits for a key, it or the holder of that key can step |
| KeyedLocking.CompositeCollidesIff | store/locks.go:20 | two different buckets share a lock for some keys if and only if one name is the other, a NUL byte and anything |
| KeyedLocking.LocksDistinctIff | store/locks.go:20 | over a set of buckets different objects have different locks if and only if no name is another with a NUL byte behind it |
| KeyedLocking.NulFreeNamesLockApart | store/locks.go:20 | so they have when no bucket name holds a NUL byte |
| KeyedLocking.KeyedLocker.Enter | store/locks.go:22-29 | creates or finds the key's mutex and counts the operation in: one step of the protocol |
| KeyedLocking.KeyedLocker.Acquire | store/locks.go:31 | takes a free mutex: one step of the protocol |
| KeyedLocking.KeyedLocker.Unlock | store/locks.go:33 | frees the mutex: one step of the protocol |
| KeyedLocking.KeyedLocker.Leave | store/locks.go:35-40 | counts the operation out and deletes an unused mutex: one step of the protocol |
| Admission.ScriptsDisciplined | store/store.go:152-186 | every operation takes its resources in rising order (uploads and downloads, key lock, then Telegram and the mutexes) and gives all of them back |
| Admission.OccupancyIsHolders | store/store.go:876-886 | in every reachable state a semaphore's occupancy is the number of its holders and within its capacity |
| Admission.SomeoneCanStep | store/store.go:163-170 | no deadlock: with an unfinished operation in a reachable state, some operation can take its next step, for any number of operations |
| Admission.FinishedReleasesAll | store/store.go:950-962 | when all operations have finished every semaphore, lock and mutex is free |
| Admission.PutHolds | store/store.go:152-186 | a put resolves, uploads and commits under an upload slot and the lock of its key |
| Admission.UploadPartHolds | store/store.go:255-299 | a part is read and sent under an upload slot, and stored under the sessions' mutex |
| Admission.CompleteHolds | store/store.go:357-390 | a completion looks at its session, commits and forgets it, all under the lock of its key |
| Admission.SessionHolds | store/store.go:188-208 | opening and aborting a session hold the sessions' mutex only |
| Admission.GetHolds | store/store.go:494-569 | a read looks the object up without a slot, and downloads chunk by chunk under a download slot and a Telegram slot |
| Admission.PutTakes | store/store.go:152-186 | what a put takes, in order: the slot, the lock table and the key, Telegram unless it is empty, and the lock table again |
| Admission.CompleteTakes | store/store.go:357-390 | what a completion takes, in order |
| Admission.RunsEnd | store/store.go:519-565 | without new arrivals only boundedly many steps remain, whatever calls fail or are cancelled |
| Admission.UnwindDisciplined | store/store.go:163-170 | the deferred releases of a failed operation keep the order and release everything |
| QueryCanonical.SigV4Encode | internal/s3api/sigv4.go:557-572 | the loop computes the specified encoding |
| QueryCanonical.CanonicalQueryComponent | internal/s3api/sigv4.go:423-438 | the loop decodes every escape of either case, keeps everything else and re-encodes |
| QueryCanonical.EncodingTable | internal/s3api/sigv4.go:557-572 | unreserved characters stay, every other byte becomes a percent sign and two upper-case digits, a slash only on request |
| QueryCanonical.HexTable | internal/s3api/sigv4.go:440-451 | hexadecimal digits of either case are read |
| QueryCanonical.HexOnly | internal/s3api/sigv4.go:440-451 | and nothing else is |
| QueryCanonical.DecodePlain | internal/s3api/sigv4.go:423-438 | bytes other than percent signs, the plus sign among them, stand for themselves |
| QueryCanonical.DecodePercent | internal/s3api/sigv4.go:423-438 | an escape stands for its byte, a percent sign in front of anything else for itself |
| QueryCanonical.SplitMeaning | internal/s3api/sigv4.go:393 | splitting takes the query apart at every ampersand and loses nothing |
| QueryCanonical.CutMeaning | internal/s3api/sigv4.go:396-399 | a token is cut at its first equals sign, and has an empty value without one |
| QueryCanonical.DecodedPairsMeaning | internal/s3api/sigv4.go:393-407 | one decoded pair for each token in order; excluding the signature leaves out the pairs of that name and nothing else |
| QueryCanonical.CanonicalQueryString | internal/s3api/sigv4.go:383-421 | the loop, the sort and the join compute the specified string: its pieces are canonical, ascend by key and then by value, hold no signature where it is excluded, and decode to the bag of pairs of the raw query |
| QueryCanonical.CanonicalPieces | internal/s3api/sigv4.go:409-420 | the same of the specified string |
| QueryCanonical.DecodeInvertsEncode | internal/s3api/sigv4.go:423-438 | decoding inverts encoding on every byte string, so a component canonicalised twice is canonicalised once |
| QueryCanonical.CanonicalIff | internal/s3api/sigv4.go:423-438 | canonicalisation leaves a component alone if and only if it is unreserved characters and upper-case escapes of bytes that need them (sections 2.1 and 2.3 of RFC 3986) |
| QueryCanonical.EncodedIsCanonical | internal/s3api/sigv4.go:557-572 | every component that comes out is of that form |
| QueryCanonical.CanonicalQueryIff | internal/s3api/sigv4.go:383-421 | two raw queries have the same canonical string if and only if they decode to the same bag of pairs, the signature left out where it is excluded |
| QueryCanonical.TokenOrderIrrelevant | internal/s3api/sigv4.go:409-414 | the order of the tokens does not matter |
| QueryCanonical.CanonicalIsFixed | internal/s3api/sigv4.go:383-421 | reading the canonical string back gives the same bag of pairs, so canonicalising it again changes nothing |
| HeaderCanonical.CanonicalHeaders | internal/s3api/sigv4.go:453-480 | succeeds if and only if no signed name is empty, repeated or missing, with the error of the first offence; the texts are one line `name:value` for each name in ascending order, and the names with semicolons between them |
| HeaderCanonical.CanonicalTexts | internal/s3api/sigv4.go:468-479 | the two texts, line by line and name by name |
| HeaderCanonical.HeaderOrderIrrelevant | internal/s3api/sigv4.go:468-479 | the order of the signed header list matters neither for being accepted nor for the texts |
| HeaderCanonical.SignedListIff | internal/s3api/sigv4.go:479 | two signed header lists are equal if and only if the sets of names are, as long as names hold no semicolon |

## Left out

- Telegram's HTTP client with its retries, and the shape of its answers: network plumbing. Uploads return a file ID and a size, downloads return bytes or fail.
- SQLite itself, its data source names, the schema migration and row scanning: the tables are maps. I/O errors inside a transaction appear only as a refused commit.
- NUL bytes in a prefix or key: SQLite ends a LIKE operand at the first one, the model does not.
- Hashes, HMAC, base64, XML and JSON: library code. `canonicalURI`, `headerValue`, signature comparison and time windows of request signing: each is settled by reading one branch.
- Direct links, the web interface, sessions, configuration, command-line flags, captions, logging and `DisableBucketsExcept`: thin, easy or I/O.
- `parsePath`, `resolveDestination`, `parseOverwrite` and `parentPrefix` of the WebDAV handler: the requests start behind them, with bucket and key.
- The order in which `sort.Slice` leaves elements that compare as equal: both uses here sort elements of which no two different ones do.
- The conservation of Telegram files: an upload can be dropped without a record, so it is not claimed.
- A tree invariant that no path is both an object and a collection: the code does not keep it.
- Like.KeyLikeIsFoldedPrefix: it matches bytes, SQLite code points; `Utf8.KeyLikeOnTextIff` proves them equal on well-formed UTF-8 without U+FFFE and U+FFFF, and ill-formed keys or prefixes are outside. So is SQLite's limit on the length of a pattern.
- Like.PrefixIsLike: likewise, a prefix that ends inside a character's bytes is outside.
- DavRequests.HandleCopyMove: parsing the paths and headers is outside, and the tables do not change between the guards' queries and the transaction.
- DavRequests.RemoveAll: parsing the path and refusing the root are outside, and the tables do not change between its queries and the transaction.
- PrefixOps.CopyPrefixExactIff: among tables with foreign keys a copy may be exact by coincidence, when each foreign key's image is one of its own; `PrefixOps.StrayCopyLeaks` has the case where it is not.
- Pages.PagesConcatenate: the tables do not change between the pages of one client run.
- ObjectLayout.GetObject: closing the body early and errors while copying are not modelled; the body is the whole stream or the part before a file that cannot be downloaded.
- Multipart.MultipartStore.UploadPart: the session cannot disappear between its two sections here; `MultipartProtocol` has that case.
- Admission.SomeoneCanStep: it takes for granted that external calls return, that readers drain or close the body, and that the scheduler lets an operation that can step do so.
- MultipartProtocol.HolderKeepsRows: which rows each operation without a key lock writes is left to the event; `Transactions`, `PrefixOps` and `BucketRename` say it.
- KeyedLocking.KeyedLocker.Acquire: waiting for a mutex is the requirement that it is free; which waiter gets it next is left open.
