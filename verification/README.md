# A verified model of apk-tools

apk-tools is the package manager of Alpine Linux. This project models the parts of it whose
correctness rests on invariants rather than on single functions, and proves those invariants in
Dafny. Objects that the C code updates in place are classes with the same fields; loops stay
loops; what only computes is a function. Each method is proved against a specification function
or an explicit property, and the promises of the code are lemmas about those functions, for all
inputs.

`dafny verify dfyconfig.toml` checks everything.

## What is modelled

**The ADB value store** (`AdbValue`, `AdbSpec`, `AdbWriter`, `AdbRuns`, `AdbStore`, `AdbSharing`,
`AdbPatch`, `AdbObject`, `AdbCompare`, `AdbOrder`). A database is one append-only byte arena. Integers, blobs, objects and
arrays become 32-bit words: four bits of type, 28 bits of value or offset. Writes go through a
bucketed cache that reuses equal byte strings, with a fallback to a second copy when the known one
is not aligned for the new use. `Holds` relates a word in an arena to the tree it stands for,
without mentioning the writer. The main results: every word a run of writers has ever returned
still holds its value at the end (`RunHolds`, and `Execute` for the buffer itself; `StaticRunHolds`
and `ExecuteStatic` for a caller's buffer), and a store nested in another is read back as one block
with its bytes (`NestedRead`); the cache never makes the arena longer and changes no value
(`CacheShortens`); copying between stores preserves the tree; overwriting the id blob of a
package gives exactly the store of another run (`PatchIsRewrite`); equal words mean equal values
and conversely (`EqualWords`); comparison, on values and on the words of any arena, is a total
preorder (`ExactPreorder`, `WordPreorder`) and the binary search agrees with a linear filter.

**Blocks, trust and packages** (`AdbBlocks`, `AdbParse`, `ExtractV3`, `ExtractV3Walk`,
`PackageImage`, `PackageFile`, `ExtractV2`, `ExtractV2Ctx`, `ExtractV2Accept`). The framing of a database into blocks, the automaton that admits
ADB SIG* DATA* and nothing else, the walk over a package's table that is suspended at every file
with contents and resumed by the next DATA block, and the writer of those blocks; then all of it
together, from the bytes of a file to the reports the caller receives (`FileAcceptedIff`), and from
the calls that build the database to those reports (`WrittenPackage`). Version 2 packages have
their own automaton over signature, control and data sections: every file told of lies behind a
checked control section (`FileBehindControl`), a zero result means a complete and verified
extraction (`ZeroMeansComplete`), and a package or an index is accepted exactly if it is signed and
its data has the noted checksum (`PackageAccepted`, `IndexAccepted`).

**Input streams** (`IoStream`). A sliding buffer over a source that hands out bytes in pieces of
any size or fails, and sub-streams that borrow the buffer and give it back.

**The installed database** (`FileIndex`, `DirRefs`, `ReverseDeps`, `IpkgCreator`, `Discover`,
`Codecs`). File ownership through installs, upgrades and removals; the reference-counted directory
tree; the reverse-dependency index; the directory list with a sorted front and an unsorted tail;
the dependency walk that explains a failed selection; and the text codecs of the database files.

`Bytes`, `Orders` and `Packages` hold what several modules need.

## What the code does that its wording does not say

- In a store built by the writers a child need not lie below its parent. The eight bytes of an
  integer can be the bytes of a one-entry table, and the cache then gives the table the integer's
  place (`AdbSharing.ChildAboveParent`). `AdbSharing.AboveChildrenIff` says exactly when a table
  does lie above its entries. Copying is therefore shown to end by following the value, not the
  offsets.
- The hash of a write depends on how the bytes are cut into segments (adb.c:635-646), so a blob
  written by `adb_w_blob` and the same blob written by `adb_w_copy` share a place exactly when the
  two hashes happen to agree (`AdbSharing.SegmentsMatter`). `AdbSharing.EqualWords` holds for the
  results whose blobs always have one hash; that is all of them for the plain writers
  (`AdbSharing.PlainShared`), and with a hash of the joined bytes for every cached operation
  (`AdbSharing.JoinedShared`).
- `adb_wa_sort_unique` leaves each word once exactly when no repeated word compares equal to a
  different one (`AdbObject.SortUnique`); it always keeps the same set of words.
- `ADB_VAL` ors the type over the value without looking at it: it is faithful exactly for values
  of 28 bits (`AdbValue.AdbValExact`).
- The size of an extended block is rounded up in 64-bit arithmetic. For the last seven sizes it
  wraps to zero and enumeration stays at that block for ever (`AdbBlocks.PlacesTile`;
  `AdbBlocks.WrappedSticks` gives all such blocks, behind any others).
- `adb_w_raw` clears the padding before it looks at the size of the buffer. The padding stays inside
  a buffer, whatever its fill, exactly when the size of the buffer is a multiple of the alignment
  (`Bytes.PaddingFitsIff`).
- The call of `__apk_istream_fill` that meets the end of the source returns 0; only the next call
  reports the end. `IoStream.Stream.Fill` follows the code.
- A path component that does not fit the path builder is left out. An entry is reported under its
  own name exactly if that fits; a file whose name does not fit behind that of its directory is
  reported under the directory's name (`ExtractV3.ReportedNameIff`, and `ExtractV3.LongName` for such
  a file).
- `apk_db_ipkg_commit` stores the directory list as it is. The list is sorted exactly when it has no
  unsorted tail (`IpkgCreator.Creator.Commit`). A later reinstall searches it as if it were sorted, and
  binary search finds every name exactly when the list is sorted (`IpkgCreator.SearchIffSorted`); two
  directories taken up in reverse order are enough for a miss (`IpkgCreator.UnsortedMiss`).
- A stream split at a delimiter ends with an empty piece if the delimiter comes last, unless the end
  of the stream was seen before; then that piece is not delivered (`IoStream.Stream.SplitAll`).
- A 20-byte digest in text form comes back exactly unless it is followed by 16 more characters that
  start like base64 (`Codecs.DigestRoundTrip`). With the text of twelve bytes behind it, it is read as
  one of 32 bytes (`Codecs.LongerDigest`).
- Digits above f are written but not read back: a number comes back exactly if it has none
  (`Codecs.UintRoundTrip`).
- With untrusted input allowed, a version 2 extraction can return zero although a callback
  cancelled it or itself reported a lack of trust (`ExtractV2.CancelledYetZero`), or although the
  caller takes no files (`ExtractV2.NoFilesYetZero`). `ExtractV2.FailedYetZero` says exactly when an
  extraction that failed returns zero, and that otherwise only the caller can be the reason. Without
  permission for untrusted input, or with a caller that takes files and never answers so, zero means
  exactly a complete extraction (`ExtractV2.ZeroMeansComplete`).
- A version 2 signature in the same compressed part as the control section it is for is of no use: the
  running digest was not started with its key, and the check fails even with untrusted input allowed
  (`ExtractV2.SamePartRefused`).
- The base64 reader takes the padding character for a zero anywhere in the text
  (`Codecs.DecodesIff`).
- The identity generated for a version 2 package covers the compressed bytes that arrive after the
  first entry of the control section. It covers the whole control part exactly when none of its
  bytes arrive earlier (`ExtractV2.GeneratedIff`); `ExtractV2.GeneratedLate` is a run where some do.
- An extraction that its caller cancels is a success, but a cancelling DATA callback drops the
  database, and without one the result is an error. So from a version 3 image in memory a caller
  that takes no files gets the meta data exactly if there is no DATA block
  (`PackageImage.MetaOnlyIff`); of a written package that means that no file has contents
  (`PackageImage.MetaOnlyWritten`).
- The walk that explains a failed selection looks at an install-if rule exactly if the index lists
  its package under a name of some package that is there, and of the rules that hold in the end it has
  followed exactly those (`Discover.Walk.Discover`). A rule that asks for some name is always among
  them (`Discover.AskingTouched`). A rule that only names conflicts may not be
  (`Discover.ConflictsOnly`), or may be (`Discover.ConflictsFollowed`).

## Model

| member | source | states |
|---|---|---|
| `AdbValue.AdbValExact` | apk-tools/src/adb.h:29-32 | the tagging macro gives back the value exactly when it has 28 bits, and then the type too |
| `AdbValue.PackRoundTrip` | apk-tools/src/adb.h:29-40 | a tagged word survives its 32-bit form |
| `AdbValue.UnpackRoundTrip` | apk-tools/src/adb.h:29-40 | every 32-bit number is the form of one tagged word |
| `AdbValue.ReadNum` | apk-tools/src/adb.c:469-502 | a table's entry count is at least 1, and more only if the word is a table that lies inside the arena |
| `AdbValue.HoldsReads` | apk-tools/src/adb.c:410-545 | if a word holds a value, the readers for integer, blob and object return it, entry by entry, and the readers of other types return nothing |
| `AdbValue.HoldsStable` | apk-tools/src/adb.c:351-378 | what a word holds does not change when the arena grows or a new root is set |
| `AdbValue.HoldsUnique` | apk-tools/src/adb.c:410-502 | a word holds at most one value |
| `AdbValue.TypeOfHeld` | apk-tools/src/adb.h:17-30 | the type bits of a word tell the kind of value it holds |
| `AdbValue.BlobStoredIff` | apk-tools/src/adb.c:443-467 | a blob is read, and held, exactly if its bytes are there: one, two or four bytes of length for the types 8, 9 and 10, least significant first, and then the blob |
| `AdbValue.IntStored` | apk-tools/src/adb.c:423-441 | an integer is the value of its word, or the four or eight bytes at its offset, or 0 if they are not there |
| `AdbValue.TableStored` | apk-tools/src/adb.c:469-502 | a table is four bytes of count and four for each entry, with the type in the top four bits; of anything else there is only null |
| `AdbSpec.Scan` | apk-tools/src/adb.c:668-701 | the walk over a bucket stops at the first slot that is free or matches |
| `AdbSpec.WritePlaces` | apk-tools/src/adb.c:668-701 | a write, cached or not, yields an aligned place that holds exactly the bytes, keeps all earlier bytes, and appends padding and bytes or nothing |
| `AdbRuns.IntBuilt` | apk-tools/src/adb.c:777-788 | a written integer of up to 64 bits is held by its word |
| `AdbRuns.BlobBuilt` | apk-tools/src/adb.c:726-775 | a written blob is held by its word, in all three length classes |
| `AdbRuns.BlobLaid` | apk-tools/src/adb.c:726-762 | a written blob lies, in bytes, behind its length in one, two or four bytes by its size, at a place aligned for that; an empty one is null and writes nothing |
| `AdbRuns.NodeBuilt` | apk-tools/src/adb.c:939-955 | a committed object or array is held by its word, without its trailing nulls; one without entries is null |
| `AdbRuns.NestedBuilt` | apk-tools/src/adb.c:845-858 | a store written into another is held as the blob of its block; one with no more than a header is null |
| `AdbRuns.RootBuilt` | apk-tools/src/adb.c:712-724 | setting the root changes nothing else |
| `AdbRuns.CopyBuilt` | apk-tools/src/adb.c:790-843 | a copied word holds the same tree in the destination, and all that was there before stays |
| `AdbRuns.LeafCopied` | apk-tools/src/adb.c:796-841 | a copied integer or blob is its bytes behind the padding for its type: 1, 2 or 4 for blobs, 4 or 8 for integers |
| `AdbRuns.StepBuilds` | apk-tools/src/adb.c:668-843 | each writer's result holds its value and no earlier result changes its meaning |
| `AdbRuns.StepGrows` | apk-tools/src/adb.c:351-378 | each writer keeps the store in shape and only appends |
| `AdbRuns.RunHolds` | apk-tools/src/adb.c:351-378 | over any run on a fresh store within 28-bit offsets, nested stores and copies included, every word ever returned holds at the end the value it was built from |
| `AdbRuns.NestedRead` | apk-tools/src/adb.c:845-858 | at the end of any run the blob of a nested store is read back, and enumerates as one ADB block with exactly the bytes of that store |
| `AdbRuns.CacheShortens` | apk-tools/src/adb.c:668-701 | with any hash and any number of buckets the arena is no longer than without the cache, word types are the same, and a run that fits 28-bit offsets without the cache has the same values with it; the run without the cache is a yardstick that the source cannot make |
| `AdbRuns.StaticRunHolds` | apk-tools/src/adb.c:399-408 | over any run on a caller's buffer, without header and cache, every word ever returned holds its value at the end |
| `AdbPatch.WriteCommutes` | apk-tools/src/adb.c:668-701 | a write does the same before and after a patch of bytes that the cache does not know |
| `AdbPatch.StepCommutes` | apk-tools/src/adb.c:668-955 | so does every writer |
| `AdbPatch.RunsAgree` | apk-tools/src/app_mkpkg.c:496 | two runs that differ only in the bytes of a raw-written blob give stores that differ only in those bytes, and the same words |
| `AdbPatch.PatchIsRewrite` | apk-tools/src/app_mkpkg.c:496-525 | overwriting the raw-written id, where the reader finds it, gives exactly the store of the run with the other id: that field changes and no other |
| `AdbSharing.CleanWrite` | apk-tools/src/adb.c:668-701 | a write without the alignment fallback makes its place known; of known bytes it changes nothing |
| `AdbSharing.CleanKeeps` | apk-tools/src/adb.c:668-701 | such a write leaves every place known that the cache knew |
| `AdbSharing.CopySettles` | apk-tools/src/adb.c:790-843 | a copy without the fallback forgets nothing; of a canonical word, whose blobs have the hash they are always written with, the result is known by its value, and if it was known before nothing is written |
| `AdbSharing.StepSettles` | apk-tools/src/adb.c:668-955 | the same for every operation |
| `AdbSharing.RunKnown` | apk-tools/src/adb.c:668-701 | after any run without the fallback, copies, blobs in parts and uncached blobs included, the cache knows every shared result by its value |
| `AdbSharing.EqualWords` | apk-tools/src/adb.c:668-701 | in such a run two shared results are the same word exactly when they are the same value |
| `AdbSharing.RepeatAppendsNothing` | apk-tools/src/adb.c:668-701 | an operation whose shared result has the value of an earlier one appends nothing and returns the earlier word |
| `AdbSharing.PlainShared` | apk-tools/src/adb.c:726-788 | with the plain writers every result is shared, whatever the hash |
| `AdbSharing.JoinedShared` | apk-tools/src/adb.c:635-646 | with a hash that does not depend on the cut every result of a cached operation is shared |
| `AdbSharing.RunCanonical` | apk-tools/src/adb.c:726-843 | every result of a run has the type the writers choose for its value, in all its parts, if what it copies has and what it nests is longer than 0xffff bytes |
| `AdbSharing.PlaceKeptIffClean` | apk-tools/src/adb.c:679-700 | known bytes keep their place exactly when it is aligned for the new use |
| `AdbSharing.SegmentsMatter` | apk-tools/src/adb.c:635-646 | in any store that has the bytes in neither form, the same bytes written in two segments and then in one share a place exactly when the hashes agree |
| `AdbSharing.ChildAboveParent` | apk-tools/src/adb.c:777-788 | a concrete run in which an object lies below its own child |
| `AdbSharing.AboveChildrenIff` | apk-tools/src/adb.c:939-955 | a table lies above its entries exactly when the cache does not know its bytes at an aligned place at or below one of them |
| `AdbWriter.Adb.Dynamic` | apk-tools/src/adb.c:381-397 | a new store: the header and empty buckets |
| `AdbWriter.Adb.Static` | apk-tools/src/adb.c:399-408 | a store in a caller's buffer, without cache |
| `AdbWriter.Adb.Pad` | apk-tools/src/adb.c:356-359 | padding stays inside a buffer that has the room, or may grow; the size is looked at only afterwards |
| `Bytes.PaddingFitsIff` | apk-tools/src/adb.c:356-359 | a buffer has room for the padding whatever its fill exactly when its size is a multiple of the alignment |
| `AdbWriter.Adb.Grow` | apk-tools/src/adb.c:361-369 | growing keeps the contents and makes room |
| `AdbWriter.Adb.Raw` | apk-tools/src/adb.c:351-378 | in-place padding and copying are the specified append, inside the buffer |
| `AdbWriter.Adb.VecEqual` | apk-tools/src/adb.c:648-659 | the segment-wise comparison is comparison of the joined bytes |
| `AdbWriter.Adb.Find` | apk-tools/src/adb.c:679-689 | the walk over the slots stops where specified |
| `AdbWriter.Adb.Data` | apk-tools/src/adb.c:668-701 | lookup, fallback and insertion are the specified cached write |
| `AdbWriter.Adb.Int` | apk-tools/src/adb.c:777-788 | the new store and word of an integer, with the cache on or off |
| `AdbWriter.Adb.BlobVec` | apk-tools/src/adb.c:726-762 | the new store and word of a blob given in parts |
| `AdbWriter.Adb.BlobRaw` | apk-tools/src/adb.c:769-775 | the same with the cache off, which is on again afterwards |
| `AdbWriter.Adb.PutAdb` | apk-tools/src/adb.c:845-858 | the four segments of a nested store are written as its prefixed block, past the cache |
| `AdbWriter.Adb.Table` | apk-tools/src/adb.c:939-955 | the new store and word of a table, with the cache on or off |
| `AdbWriter.Adb.Root` | apk-tools/src/adb.c:712-724 | the new root word in the header, and nothing else |
| `AdbWriter.Adb.CopyFrom` | apk-tools/src/adb.c:790-843 | the recursive copy is the specified copy, with the cache on or off, into a store that can grow or a caller's buffer with the room; within one store it is no copy |
| `AdbWriter.Adb.LeafBytes` | apk-tools/src/adb.c:796-824 | the size of a leaf, from its length prefix |
| `AdbWriter.SegsLength` | apk-tools/src/adb.c:628-633 | the sum of the segment lengths |
| `AdbWriter.Adb.OfBlob` | apk-tools/src/adb.c:198-202 | a store to read from |
| `AdbStore.Apply` | apk-tools/src/adb.c:668-955 | each writer of the growing buffer is the step the run theorem speaks of |
| `AdbStore.Execute` | apk-tools/src/adb.c:351-378 | so for any run of writers on the buffer itself, every word ever returned holds its value in the buffer at the end |
| `AdbStore.ApplyStatic` | apk-tools/src/adb.c:351-378 | each writer of a caller's buffer is its step, if what it adds fits |
| `AdbStore.ExecuteStatic` | apk-tools/src/adb.c:399-408 | any run that fits a caller's buffer, copies and nested stores included: every word ever returned holds its value there, and the buffer is never replaced |
| `AdbObject.AdbObj.constructor` | apk-tools/src/adb.c:883-897 | an object under construction starts without entries |
| `AdbObject.AdbObj.Reset` | apk-tools/src/adb.c:925-931 | starting over leaves no entries |
| `AdbObject.AdbObj.SetVal` | apk-tools/src/adb.c:987-993 | an entry is set, with nulls in between, or refused with the table unchanged |
| `AdbObject.AdbObj.Append` | apk-tools/src/adb.c:1033-1051 | a word is appended, nulls and errors are not; a full table is doubled |
| `AdbObject.AdbObj.Used` | apk-tools/src/adb.c:939-955 | the entries up to the last one set |
| `AdbObject.AdbObj.Commit` | apk-tools/src/adb.c:939-955 | the object's word and store as specified, and an empty object again |
| `AdbObject.AdbObj.DropRepeats` | apk-tools/src/adb.c:1131-1144 | the in-place pass drops each entry equal to its predecessor |
| `AdbObject.SortUnique` | apk-tools/src/adb.c:1102-1144 | whatever order the sort leaves, the same words stay; each stays once, for every such order, exactly when no repeated word ties with a different one |
| `AdbObject.SortUniqueStrict` | apk-tools/src/adb.c:1131-1144 | if different words never tie the result is strictly sorted |
| `AdbObject.BadOrder` | apk-tools/src/adb.c:1131-1144 | otherwise some order a sort may leave has a, b, a in a row |
| `AdbCompare.ExactPreorder` | apk-tools/src/adb.c:547-593 | EXACT comparison of objects of any schema, nested tables included, is a total preorder if the scalar comparisons are |
| `AdbCompare.MatchingIff` | apk-tools/src/adb.c:547-568 | an object matches a template exactly when every set entry among the compared ones ties |
| `AdbCompare.MatchTiesIndex` | apk-tools/src/adb.c:547-568 | a match also ties in the index comparison |
| `AdbCompare.IndexMonotone` | apk-tools/src/adb.c:547-593 | going up a sorted array, the index comparison with a template only goes down |
| `AdbCompare.Lowest` | apk-tools/src/adb.c:595-625 | the binary search finds the first item not below the template |
| `AdbCompare.Find` | apk-tools/src/adb.c:595-625 | the next match after a position, or -1 |
| `AdbCompare.FindAll` | apk-tools/src/adb.c:595-625 | repeated searches from 0 give exactly the positions of a linear filter, in order, then -1 |
| `AdbCompare.BlobSortTies` | apk-tools/src/blob.c:150-155 | only equal byte strings tie |
| `AdbCompare.BlobSortIff` | apk-tools/src/blob.c:150-155 | a string is below another exactly if it is a proper beginning of it or has the smaller byte where they part |
| `AdbCompare.BlobSortFlip` | apk-tools/src/blob.c:150-155 | swapping the arguments turns the sign |
| `AdbCompare.BlobSortTrans` | apk-tools/src/blob.c:150-155 | the order is transitive |
| `AdbCompare.ApkCompareOrdered` | apk-tools/src/apk_adb.c:88-271 | the schemas' scalar comparisons are total preorders, provided the version comparison is |
| `AdbCompare.ApkCompareIff` | apk-tools/src/apk_adb.c:88-271 | strings compare in that order and integers by size |
| `AdbOrder.WordCmpReads` | apk-tools/src/adb.c:1075-1088 | on any arena, comparing two words through the readers is comparing what they read as |
| `AdbOrder.WordPreorder` | apk-tools/src/adb.c:1075-1088 | so the comparison the sort is given is a total preorder on words, whatever the arena holds |
| `AdbOrder.HeldCompare` | apk-tools/src/adb.c:1075-1088 | words that hold values compare as the values do |
| `AdbOrder.SortUniqueWords` | apk-tools/src/adb.c:1102-1144 | sorting the words of a store and dropping repeats leaves the same words in the order of their values, each once exactly when no repeated word ties with a different one |
| `AdbBlocks.Validate` | apk-tools/src/adb.c:16-27 | a block found has its header inside the buffer and, unless its size wraps, its payload and padding too |
| `AdbBlocks.PlacesTile` | apk-tools/src/adb.c:16-40 | on any buffer the blocks found lie end to end inside it; the walk ends cleanly exactly when they fill it, and fails to end exactly when it meets a size that wraps |
| `AdbBlocks.TilesDisjoint` | apk-tools/src/adb.c:16-40 | such blocks are disjoint and in bounds |
| `AdbBlocks.WrappedSticks` | apk-tools/src/adb.h:93 | an extended header with one of the last seven sizes, behind any blocks and in front of anything: the blocks are found and the walk stays at the header |
| `AdbBlocks.WrittenEnumerates` | apk-tools/src/adb.c:1206-1224 | any list of storable blocks, short and extended, is enumerated back as exactly that list |
| `AdbBlocks.ShortRoundTripIff` | apk-tools/src/adb.h:70-81 | a block with a short header comes back exactly when its type is below 3 |
| `AdbBlocks.HeaderLayout` | apk-tools/src/adb.h:70-81 | the bytes of a short and of an extended header, the reserved ones included |
| `AdbParse.Identity` | apk-tools/src/adb.c:109-136 | negative exactly if an identity is asked for and the digest cannot be made, or is compared and differs, except for the truncated SHA256; 1 exactly if it is compared and the same |
| `AdbParse.Admit` | apk-tools/src/adb.c:148-184 | a block is refused with a negative code or admitted |
| `AdbParse.Parse` | apk-tools/src/adb.c:138-196 | the loop over the buffer is the automaton over its blocks: same code, same callbacks, and the database is kept only on success |
| `AdbParse.StepTracks` | apk-tools/src/adb.c:148-184 | an admitted block extends a legal trace to a legal trace; at a refused block no legal trace goes on, and the code says whether order, header, version, identity or trust is at fault |
| `AdbParse.RunLegal` | apk-tools/src/adb.c:138-196 | in every run the callback sees a legal trace; the loop gets through all blocks exactly when they are legal and no callback fails |
| `AdbParse.DataOnlyTrusted` | apk-tools/src/adb.c:172-179 | no DATA callback before untrusted input was allowed, the identity matched or an earlier signature verified |
| `AdbParse.SucceedsIff` | apk-tools/src/adb.c:138-196 | success, exactly: the blocks fill the buffer, have the form ADB SIG* DATA*, a good header, no identity that is refused, and trust, and every callback agrees |
| `AdbParse.FailureCode` | apk-tools/src/adb.c:138-196 | what the code of a failure says: the first block that is refused or whose callback fails; else the end of the buffer, the trust, or the lack of any block |
| `AdbParse.WrittenParses` | apk-tools/src/adb.c:1206-1224 | a written list of that form is parsed with the callback seeing exactly that list |
| `ExtractV3.TableExact` | apk-tools/src/extract_v3.c:140-192 | the table to be reported lists the meta data, each named directory and each file exactly once, in order |
| `ExtractV3.ResumedIsNested` | apk-tools/src/extract_v3.c:140-224 | the suspended walk fed block by block is the plain nested loop: same code and same reports for every table, block list and caller |
| `ExtractV3.MatchesIff` | apk-tools/src/extract_v3.c:211-221 | a DATA block is taken for an entry exactly when it is the one the writer emits for contents of that size |
| `ExtractV3.FileOkIff` | apk-tools/src/extract_v3.c:51-116 | an entry is well formed exactly if it is a device, a link that fits, or a regular file with a digest of a known length, each told by its target bytes; it has a block exactly if it is a regular file and not empty |
| `ExtractV3.NestedExact` | apk-tools/src/extract_v3.c:140-224 | with a willing caller, success exactly on a well-formed table with its emitted block list, nothing missing, extra, reordered, of another size or of another digest, and then every entry is reported once in order |
| `ExtractV3.NestedCode` | apk-tools/src/extract_v3.c:140-224 | what the code of a failure says: a malformed entry, a block too short for its header, a block too few, too many or for another entry, or contents of another digest |
| `ExtractV3.ReportedNameIff` | apk-tools/src/pathbuilder.c:12-21 | an entry is reported under its own name exactly if that fits; otherwise a file is reported under the name of its directory or, if that does not fit, without it |
| `ExtractV3.LongName` | apk-tools/src/pathbuilder.c:12-21 | a file in the directory d of which the caller is told as d |
| `ExtractV3Walk.Extractor.TellDir` | apk-tools/src/extract_v3.c:118-138 | a directory is reported under the path built, or refused as malformed |
| `ExtractV3Walk.Extractor.TellFile` | apk-tools/src/extract_v3.c:51-116 | the same for a file with its contents, which are checked against the digest in the table once the caller has agreed |
| `ExtractV3Walk.Extractor.WalkFiles` | apk-tools/src/extract_v3.c:173-190 | the inner loop stops at the next file with contents or at a failing report, with the path restored after each file |
| `ExtractV3Walk.Extractor.NextFile` | apk-tools/src/extract_v3.c:140-192 | re-entry goes on exactly behind the file it rested on |
| `ExtractV3Walk.Extractor.DataBlock` | apk-tools/src/extract_v3.c:194-224 | one DATA block as specified |
| `ExtractV3Walk.Extractor.Extract` | apk-tools/src/extract_v3.c:194-275 | all blocks and the closing step are the nested loop over the table |
| `ExtractV3Walk.Emit` | apk-tools/src/app_mkpkg.c:549-575 | one block per file with contents, in table order, with its numbers and contents |
| `PackageImage.AfterNested` | apk-tools/src/extract_v3.c:194-275 | feeding all DATA payloads and closing is the nested loop |
| `PackageImage.FineIff` | apk-tools/src/adb.c:181-183 | the parse loop meets no failing callback exactly when the walk refuses no block |
| `PackageImage.AcceptedIff` | apk-tools/src/extract_v3.c:251-275 | for any way to read the table: an image is accepted exactly when it is ADB SIG* DATA*, well headed, trusted, its table well formed and its DATA blocks those emitted for it, with the right digests; the reports are then complete and in order |
| `PackageImage.MetaOnlyIff` | apk-tools/src/extract_v3.c:289-290 | a caller without a file operation gets the meta data exactly from images without DATA blocks |
| `PackageImage.MetaOnlyWritten` | apk-tools/src/extract_v3.c:289-290 | a written package gives its meta data to such a caller exactly if no file has contents |
| `PackageImage.PackageRoundTrip` | apk-tools/src/app_mkpkg.c:545-575 | a written package is extracted completely, contents included |
| `PackageFile.TableHeld` | apk-tools/src/extract_v3.c:140-192 | if the root of the database holds a package, the walk finds the table of that value: names, sizes, targets, hashes and attributes |
| `PackageFile.EntriesAre` | apk-tools/src/apk_adb.h:40-77 | the table of a package written out entry by entry: which field is the name, the access line, the size, the hashes and the target |
| `PackageFile.TableSmall` | apk-tools/src/extract_v3.c:211-221 | whatever the database contains, the numbers of the table fit the header of a DATA block |
| `PackageFile.HeaderBytes` | apk-tools/src/adb.c:1196-1205 | the header of a package file is the eight bytes ADB.pckg |
| `PackageFile.FileAcceptedIff` | apk-tools/src/adb.c:204-229 | a file is accepted exactly when it has the header of a package and an image of it, with the table read from the database itself; the reports are then complete and in order |
| `PackageFile.RunHeader` | apk-tools/src/adb.c:381-397 | the writers leave the version part of the database header zero |
| `PackageFile.RootRead` | apk-tools/src/adb.c:712-724 | after a run that ends by setting the root, the root read back holds the value it was set to |
| `PackageFile.WrittenPackage` | apk-tools/src/app_mkpkg.c:515-575 | from the calls of the writers to the reports: whoever trusts the file is told of exactly the entries in the value that was built, once and in order, with their contents |
| `ExtractV2.SignatureTaken` | apk-tools/src/extract_v2.c:124-157 | only a signature by a known key is taken over, with the algorithm that its name says and its contents, and only one |
| `ExtractV2.SignatureNamed` | apk-tools/src/extract_v2.c:92-149 | the algorithm and the name of the key, from the file name: SHA512 for RSA512, SHA256 for RSA256, SHA1 for RSA and DSA |
| `ExtractV2.Sorted` | apk-tools/src/extract_v2.c:89-160 | sorting an entry into signature, control or data section keeps the invariant; data cannot start this way once a checksum is recorded |
| `ExtractV2.Filed` | apk-tools/src/extract_v2.c:89-160 | what the sorting means: done exactly for a signature in front of the control section; of those the first by a known key is taken over; data starts only without a checksum and with a key or permission |
| `ExtractV2.Noted` | apk-tools/src/extract_v2.c:362-374 | a checksum is recorded only inside the control section, from its .PKGINFO |
| `ExtractV2.EntryKeeps` | apk-tools/src/extract_v2.c:288-328 | every archive entry keeps the invariant: sections in order, digests over exactly their section, files delivered once and in order |
| `ExtractV2.ControlMeans` | apk-tools/src/extract_v2.c:298-322 | no file is told of outside an open data section, a package and an index do not mix, and a checksum comes from the .PKGINFO in front of the data section |
| `ExtractV2.EntryMeans` | apk-tools/src/extract_v2.c:288-328 | an entry makes at most one call, and for a file only behind a control part that was closed and cleared |
| `ExtractV2.CheckMeans` | apk-tools/src/extract_v2.c:233-264 | the control check passes exactly if the bytes digested are signed by the chosen key, with a digest started for it, of the wanted identity, or tolerated by permission, and a checksum is there if an identity is to be generated |
| `ExtractV2.ControlClosed` | apk-tools/src/extract_v2.c:207-269 | the end of a control section with a checksum: checked over exactly the compressed bytes of its part, and the running digest starts afresh |
| `ExtractV2.DataClosed` | apk-tools/src/extract_v2.c:215-225 | data is verified only if the compressed bytes since the end of the control part have the recorded hash |
| `ExtractV2.AllClosed` | apk-tools/src/extract_v2.c:228-264 | without a checksum control and data are checked together at the end |
| `ExtractV2.PartKeeps` | apk-tools/src/extract_v2.c:169-270 | compressed bytes, boundaries and the end keep the invariant |
| `ExtractV2.PartMeans` | apk-tools/src/extract_v2.c:169-270 | what a part means: a data section opens behind a control part cleared in all its bytes; data is verified only at the end, over all bytes since; nothing follows the end |
| `ExtractV2.RunKeeps` | apk-tools/src/extract_v2.c:330-349 | it holds after any events none of which failed |
| `ExtractV2.StepCalls` | apk-tools/src/extract_v2.c:288-328 | an event makes at most one call; a file is told of only in a data section with a recorded checksum |
| `ExtractV2.FileBehindControl` | apk-tools/src/extract_v2.c:169-328 | in every run, failing ones included, each file told of lies behind a boundary that closed a control part which was proven or tolerated in all its bytes, with the checksum noted in it before, and under the algorithm that the name of a signature in an earlier part says, or SHA1 without one |
| `ExtractV2.CompleteIff` | apk-tools/src/extract_v2.c:350-354 | when no event fails, success exactly if the data was verified and was a package or an index; then the end was seen, control is proven or tolerated, the data has its hash, and every file was delivered once and in order |
| `ExtractV2.RunBlamed` | apk-tools/src/extract_v2.c:288-349 | a run that stops as cancelled or for lack of trust has the caller's answer to its last call as the reason, a caller without file operation, a lack of permission, or the signature check |
| `ExtractV2.ZeroMeansComplete` | apk-tools/src/extract_v2.c:330-360 | without permission for untrusted input, or with a caller that takes files and never cancels or reports a lack of trust: zero exactly if no event failed, the reader came to its end, and the whole archive was verified and delivered |
| `ExtractV2.FailedYetZero` | apk-tools/src/extract_v2.c:350-354 | when the reader ends with an error, success exactly if untrusted input is allowed and the error is a lack of trust, or a cancellation of a package or index not found good; if the error is not the reader's own, the caller's last answer or missing file operation is its source |
| `ExtractV2.CancelledYetZero` | apk-tools/src/extract_v2.c:350-354 | such runs: a callback that cancels or reports a lack of trust at the .PKGINFO, whatever follows |
| `ExtractV2.NoFilesYetZero` | apk-tools/src/extract_v2.c:324-326 | and others: an unsigned package whose caller takes no files, at the first file |
| `ExtractV2.SamePartRefused` | apk-tools/src/extract_v2.c:196-205 | a signature in the same part as the control section: the check fails, whatever the signature and the permission |
| `ExtractV2.GeneratedIff` | apk-tools/src/extract_v2.c:178-187 | the generated identity is the digest of the control bytes that come after its first entry, and of all control bytes exactly when none come before |
| `ExtractV2.GeneratedLate` | apk-tools/src/extract_v2.c:178-187 | a run in which bytes of the control part come before its first entry, and the identity leaves them out |
| `ExtractV2Accept.PackageAccepted` | apk-tools/src/extract_v2.c:89-360 | a package of signatures, control part and data part is accepted exactly if the control part is signed by the first known key, of the wanted identity or allowed without, in all its bytes, and the bytes of the data part have the checksum noted last; the caller has then been told of meta data, scripts and files, once and in order |
| `ExtractV2Accept.IndexAccepted` | apk-tools/src/extract_v2.c:89-360 | an index is accepted exactly if only verification is asked for and it is signed in all its bytes; the caller has then been told of each APKINDEX with the description in front of it |
| `ExtractV2Accept.EntryCode` | apk-tools/src/extract_v2.c:89-328 | why an entry is refused, by code; otherwise it fails only as the callback for it answers |
| `ExtractV2Accept.PartCode` | apk-tools/src/extract_v2.c:169-270 | why bytes or the end of a part are refused, by code |
| `ExtractV2Accept.ResultCode` | apk-tools/src/extract_v2.c:350-354 | the result from how the reader ended and what was found |
| `ExtractV2Ctx.SignCtx.ProcessFile` | apk-tools/src/extract_v2.c:89-160 | the in-place sorting keeps the invariant over the events so far; it is done with exactly a signature in front of the control section, takes over the first by a known key with the algorithm its name says, and starts data only without a checksum and with a key or permission |
| `ExtractV2Ctx.SignCtx.CheckControl` | apk-tools/src/extract_v2.c:233-264 | the in-place check passes exactly if the bytes digested are proven, with a digest started for the key, or tolerated, and a checksum is there if an identity is to be generated |
| `ExtractV2Ctx.SignCtx.Part` | apk-tools/src/extract_v2.c:169-270 | the in-place part keeps the invariant over the events so far; it opens a data section only behind a control part cleared in all its bytes, verifies data only at the end over all bytes since, and refuses anything after the end |
| `ExtractV2Ctx.Extractor.ControlEntry` | apk-tools/src/extract_v2.c:298-322 | keeps the invariant, tells of no file, keeps package and index apart, and records a checksum only from the .PKGINFO in front of the data section |
| `ExtractV2Ctx.Extractor.ArchiveEntry` | apk-tools/src/extract_v2.c:288-328 | keeps the invariant and makes at most one call, whatever its answer, for a file only behind a control part that was closed and cleared |
| `ExtractV2Ctx.Extractor.Extract` | apk-tools/src/extract_v2.c:330-360 | a whole archive: without any condition on the result every file told of is justified by a checked control section; zero means a complete, verified archive unless the caller itself cancels, lacks trust or takes no files while untrusted input is allowed |
| `IoStream.Source.Read` | apk-tools/src/io.c:97-134 | what is asked of the foreign read: some of the next bytes, zero only at the end, or an error |
| `IoStream.Move` | apk-tools/src/io.c:148-152 | memmove to the front |
| `IoStream.Stream.RawRead` | apk-tools/src/io.c:275-294 | a sub-stream's read stops at its length, is aborted if the source is too short, and tracks the alignment |
| `IoStream.Stream.MakeRoom` | apk-tools/src/io.c:146-155 | sliding keeps the bytes and their alignment, and overwrites nothing behind them |
| `IoStream.Stream.Fill` | apk-tools/src/io.c:142-161 | one more read behind the buffered bytes; the first meeting with the end returns 0 |
| `IoStream.Stream.Peek` | apk-tools/src/io.c:163-178 | the next bytes of the source, left in place |
| `IoStream.Stream.Get` | apk-tools/src/io.c:180-186 | the next bytes, consumed |
| `IoStream.Stream.GetMax` | apk-tools/src/io.c:188-198 | at least one and at most so many of the next bytes |
| `IoStream.Stream.Skip` | apk-tools/src/io.c:645-659 | exactly so many bytes are passed, or the end is reached |
| `IoStream.Stream.ReadMax` | apk-tools/src/io.c:97-134 | the next bytes copied out, fewer only at the end, through the buffer or past it; none means that the end is recorded |
| `IoStream.Stream.GetDelim` | apk-tools/src/io.c:200-229 | the piece up to the first delimiter, the rest at the end, or a full buffer: a function of the source bytes and the buffer size only; once the end has been seen, of the bytes alone |
| `IoStream.Stream.SplitAll` | apk-tools/src/io.c:200-229 | all pieces are the delimiter split of the source, whatever the read sizes, exactly when every piece fits the buffer; on a stream whose end was already seen, the split without an empty last piece |
| `IoStream.SplitIsSplit` | apk-tools/src/io.c:200-229 | the delimiter occurs at no place of any piece, and the pieces joined by it give the bytes back |
| `IoStream.FindFirst` | apk-tools/src/io.c:200-229 | the delimiter is found at the first place where its bytes are, and not found exactly if they are nowhere |
| `IoStream.Stream.Drive` | apk-tools/src/io.c:97-229 | for any interleaving of operations and any read sizes, what was taken, put together, is the stretch of the source that was passed: nothing lost, nothing twice; a peek shows the next bytes of the source |
| `IoStream.Stream.OpenSegment` | apk-tools/src/io.c:311-334 | a sub-stream starts where its parent is, whether the parent has buffered fewer, as many or more bytes |
| `IoStream.Stream.UseSegment` | apk-tools/src/io.c:275-303 | whatever is done with a sub-stream, the parent's buffered bytes behind it stay as they were |
| `IoStream.Stream.CloseSegment` | apk-tools/src/io.c:296-303 | the parent is aligned again and goes on right behind the sub-stream |
| `IoStream.Stream.WithSegment` | apk-tools/src/io.c:275-334 | open, any operations, close: the parent is at s+n if the source is long enough and does not fail |
| `Discover.Walk.Flagged` | apk-tools/src/commit.c:862-870 | a flagged package is marked and its names carry its flags; a name has a flag only if such a package gives it |
| `Discover.Walk.DiscoverDeps` | apk-tools/src/commit.c:881-887 | afterwards every marked provider of every wanted name is flagged |
| `Discover.Walk.DiscoverName` | apk-tools/src/commit.c:853-879 | the same for one name; the recursion ends on any graph |
| `Discover.Walk.Reach` | apk-tools/src/commit.c:862-877 | a newly flagged package's dependencies and rules have been followed |
| `Discover.Walk.DiscoverReverse` | apk-tools/src/commit.c:820-840 | no rule has to be looked at again on account of the name |
| `Discover.Walk.DiscoverNames` | apk-tools/src/commit.c:833-837 | a triggered rule has all providers of all its package's names flagged |
| `Discover.Walk.Discover` | apk-tools/src/commit.c:938 | from nothing the walk ends closed under dependencies; an install-if rule is looked at exactly if its package is listed under a name of a package that is there, and one that holds in the end has been followed exactly in that case; each rule followed held for the names as they were then; nothing gets a flag that dependencies and rules do not lead to with that flag |
| `Discover.AskingTouched` | apk-tools/src/commit.c:820-840 | a rule that asks for some name, and holds, is always listed under a name of a package that is there |
| `Discover.FlagGiven` | apk-tools/src/commit.c:842-870 | the flag a provider gets, by its name, the versions of what it provides and its priority, and the flags it hands on |
| `Discover.ConflictsOnly` | apk-tools/src/commit.c:820-840 | a rule that only names conflicts, listed under no name of a package that is there, holds at the end and has not been followed |
| `Discover.ConflictsFollowed` | apk-tools/src/commit.c:865-876 | another such rule, listed under a virtual name of a package brought in by a rule, holds at the end and has been followed |
| `Discover.RoomShrinks` | apk-tools/src/commit.c:861-862 | the measure: setting a flag leaves fewer to set |
| `FileIndex.HashTable.Get` | apk-tools/src/hash.c:50-74 | the record of a path, exactly if there is one |
| `FileIndex.HashTable.Insert` | apk-tools/src/hash.c:76-84 | one more record, counted |
| `FileIndex.HashTable.Delete` | apk-tools/src/hash.c:86-104 | the record of the path is gone, all others stay, the count is right |
| `FileIndex.FileDb.FileNew` | apk-tools/src/database.c:458-480 | a new record, listed by its owner, outside the index |
| `FileIndex.FileDb.FileGet` | apk-tools/src/database.c:482-507 | the path's record, made, indexed and counted if there was none |
| `FileIndex.FileDb.MigrateFile` | apk-tools/src/database.c:3119-3131 | a record takes over its path; a displaced one is marked |
| `FileIndex.FileDb.MigratePriority` | apk-tools/src/database.c:3034-3135 | one layer is done and the next one found |
| `FileIndex.FileDb.Migrate` | apk-tools/src/database.c:3137-3143 | all layers: every path of the package is its own now, by the record of the highest layer and last in the list; all others are as before |
| `FileIndex.FileDb.PurgeFile` | apk-tools/src/database.c:3023-3027 | a live record leaves the index and the count |
| `FileIndex.FileDb.PurgePkg` | apk-tools/src/database.c:2989-3032 | exactly the records of the package have left the index |
| `FileIndex.FileDb.InstallPkg` | apk-tools/src/database.c:3208-3280 | install, upgrade to another package, removal or a failed attempt: the new package has the directories, layers and paths of its archive, in order, and owns in the index exactly those paths, each by the record that enters last; the other paths belong to their old owner or to nobody, as they should |
| `FileIndex.FileDb.Run` | apk-tools/src/database.c:3208-3280 | over any run of records, installs, upgrades, removals and failed attempts: one record per path, exactly the records of packages and overlay that were not displaced, the right count; who owns which path, and how many directories each package has, is what the requests say one after the other |
| `FileIndex.FileDb.HandleRecord` | apk-tools/src/database.c:482-507 | a path nobody has becomes the owner's, a path somebody has stays theirs; an owner without a directory changes nothing |
| `FileIndex.FileDb.HandleChange` | apk-tools/src/database.c:3208-3280 | the paths of the new package are its own, whoever had them; those of the old one that it does not bring are gone; all others stay with their owner; an archive that fails to unpack changes nothing |
| `DirRefs.DirTree.Get` | apk-tools/src/database.c:305-344 | a handle on a directory that is live with all above it |
| `DirRefs.ParentIs` | apk-tools/src/database.c:305-344 | above a name is what is before its last slash, or the root |
| `DirRefs.CanonicalIff` | apk-tools/src/database.c:305-344 | the names admitted are those without a slash at the end or two in a row |
| `DirRefs.DirTree.Ref` | apk-tools/src/database.c:293-297 | one more handle |
| `DirRefs.DirTree.Unref` | apk-tools/src/database.c:272-291 | one handle less; the cascade ends with all counts right |
| `DirRefs.DirTree.Run` | apk-tools/src/database.c:272-344 | over any sequence, counts are handles plus live children, parents of live directories are live, the statistics count them; giving everything back leaves nothing alive |
| `DirRefs.CountsFit` | apk-tools/src/apk_database.h:95 | the counts fit 16 bits as long as handles and live directories together do |
| `ReverseDeps.DepsOfMember` | apk-tools/src/database.c:1709-1711 | the collected names are those some provider depends on |
| `ReverseDeps.IifsOfMember` | apk-tools/src/database.c:1722-1733 | the collected names are those some provider has an install-if rule on |
| `ReverseDeps.NameDb.MarkDep` | apk-tools/src/database.c:1710-1722 | one dependency: the name is appended to the list once, the flag and the list of touched names follow |
| `ReverseDeps.NameDb.MarkPackage` | apk-tools/src/database.c:1709-1735 | both lists of one provider |
| `ReverseDeps.NameDb.ClearTouched` | apk-tools/src/database.c:1744-1745 | all scratch flags are clear if the list has all touched names |
| `ReverseDeps.NameDb.ClearProviders` | apk-tools/src/database.c:1737-1743 | they are clear also after more than 128 touched names |
| `ReverseDeps.NameDb.NameRdepends` | apk-tools/src/database.c:1703-1748 | one name of the pass: the index is right for one more name and no flag is left |
| `ReverseDeps.NameDb.Open` | apk-tools/src/database.c:1703-1748 | after the pass the index equals its definition |
| `ReverseDeps.HardEverywhere` | apk-tools/src/database.c:1712 | a name is marked as a dependency exactly when some package needs it |
| `ReverseDeps.NameDb.PkgRdepends` | apk-tools/src/database.c:515-528 | the names of a later package join exactly the lists of what it depends on and has rules on |
| `ReverseDeps.NameDb.PkgAdd` | apk-tools/src/database.c:579-606 | after any later package the index equals its definition again |
| `ReverseDeps.AddName` | apk-tools/src/database.c:509-513 | a name is in the list once |
| `IpkgCreator.BSearch` | apk-tools/src/database.c:792-795 | a place of the key, or -1; in a sorted list -1 means that the key is not there |
| `IpkgCreator.SearchIffSorted` | apk-tools/src/database.c:792-795 | binary search finds every name of a list without repeats exactly when the list is sorted |
| `IpkgCreator.SortedIffNoTail` | apk-tools/src/database.c:824-855 | the list is sorted exactly when its unsorted count is 0 |
| `IpkgCreator.UnsortedMiss` | apk-tools/src/database.c:753-764 | two directories taken up in reverse order and committed: the first one is not found in the list |
| `IpkgCreator.Creator.Lookup` | apk-tools/src/database.c:780-802 | sorted front and unsorted tail together find a directory exactly when it is in the list |
| `IpkgCreator.Creator.Query` | apk-tools/src/database.c:804-808 | so does the query that looks at the current directory first |
| `IpkgCreator.Creator.Get` | apk-tools/src/database.c:824-855 | the directory is current and in the list once; the front stays sorted |
| `IpkgCreator.Creator.Append` | apk-tools/src/database.c:847-852 | a new name goes to the sorted front or the unsorted tail as its comparison says |
| `IpkgCreator.Creator.Commit` | apk-tools/src/database.c:753-764 | the package keeps the list as it is, with all files recorded; it is sorted, and binary search finds every name, exactly when the unsorted count is 0 |
| `IpkgCreator.Creator.CommitFiles` | apk-tools/src/database.c:742-751 | the current files are put away, sorted, none lost |
| `IpkgCreator.Creator.Select` | apk-tools/src/database.c:810-822 | switching directories loses no record |
| `IpkgCreator.Creator.FileNew` | apk-tools/src/database.c:458-480 | one more record in the current directory |
| `IpkgCreator.Creator.FindFile` | apk-tools/src/database.c:857-878 | a file is found exactly when it was recorded |
| `IpkgCreator.Creator.Resume` | apk-tools/src/database.c:734-740 | a creator that starts from a sorted list has the same guarantees |
| `IpkgCreator.SplitPathJoins` | apk-tools/src/blob.c:45-59 | a path split at its last slash is the two parts joined |
| `Codecs.UintRoundTrip` | apk-tools/src/blob.c:279-295 | a 64-bit number in radix 2 to 36 is read back, its digits consumed exactly, if and only if no digit is above f and no digit follows; in radix 2 to 16 that is every number |
| `Codecs.DigitCount` | apk-tools/src/blob.c:281-293 | a number below 2^k has at most k digits, so 64 places are enough |
| `Codecs.MakeDigits` | apk-tools/src/blob.c:279-295 | the loop from the back makes the digits, inside its buffer |
| `Codecs.PullUint` | apk-tools/src/blob.c:418-436 | the loop reads the digits at the front, modulo 2^64 |
| `Codecs.DigitIff` | apk-tools/src/blob.c:222-260 | a digit is one of those written, or its capital, below the radix and below 16 |
| `Codecs.Base64RoundTrip` | apk-tools/src/blob.c:341-365 | every byte string is read back from its base64, whatever follows |
| `Codecs.AlphabetIs` | apk-tools/src/blob.c:323-337 | the alphabet, in order, and nothing else has a value but the padding |
| `Codecs.Encodes` | apk-tools/src/blob.c:327-365 | the characters for one, two and three bytes |
| `Codecs.DecodesIff` | apk-tools/src/blob.c:509-565 | a text is decoded exactly if all its characters are of the alphabet or padding and the last group is padded as its length says |
| `Codecs.PullBase64` | apk-tools/src/blob.c:509-565 | the loop decodes group by group, or fails as a whole |
| `Codecs.Out.PushBlob` | apk-tools/src/blob.c:262-275 | text is appended, or the buffer fails for good if it does not fit |
| `Codecs.Out.PushUint` | apk-tools/src/blob.c:279-295 | the digits are appended |
| `Codecs.Out.PushBase64` | apk-tools/src/blob.c:341-365 | the encoding is appended |
| `Codecs.Out.PushHash` | apk-tools/src/blob.c:310-321 | 20 bytes as Q1 and base64; other lengths fail |
| `Codecs.Out.PushAcl` | apk-tools/src/database.c:1069-1084 | the whole access line is appended, or it does not fit |
| `Codecs.DigestRoundTrip` | apk-tools/src/blob.c:567-613 | 20 bytes are read back exactly, unless the text goes on like a longer digest |
| `Codecs.LongerDigest` | apk-tools/src/blob.c:590-597 | 20 bytes with the text of any twelve behind them are read as 32 |
| `Codecs.LongDigestRoundTrip` | apk-tools/src/blob.c:567-613 | the form for 32 bytes is read back, whatever follows |
| `Codecs.AclRoundTrip` | apk-tools/src/database.c:986-1003 | every access line is read back exactly, with nothing left over |

## Assumptions

The host is little-endian, as the code assumes where it copies words into the arena. Foreign calls
are parameters or take any behaviour their contract allows: the hash is any function, `qsort` may
leave any sorted permutation, digests and signature checks are functions, reads return any part of
what is asked for or fail, and callbacks may depend on everything they have been told before. On a corrupted arena `adb_r_blob`
gives a null pointer with the stored length when the bytes do not fit (adb.c:453); the model reads no
bytes there, so what a caller does with that pointer is outside `AdbOrder.WordPreorder` and
`PackageFile.FileAcceptedIff`.

## Left out

- AdbRuns.RunHolds: states results for arenas within 28-bit offsets, because `ADB_VAL` does not check the offset; `AdbValue.AdbValExact` is the exact limit.
- AdbWriter.Adb.Grow: sizes are unbounded numbers; a 64-bit wrap of the doubled size is not modelled.
- AdbWriter.Adb.Pad: is stated for buffers with room for the padding; `Bytes.PaddingFitsIff` says which buffers always have it.
- AdbWriter.Adb.Data: the list of 40-slot bucket blocks is one sequence that grows by 40 slots; links and allocation failure are not modelled.
- AdbWriter.Adb.CopyFrom: is stated for a word that holds a value in the source store; what the source does with a corrupted store is not modelled.
- AdbObject.AdbObj.SetVal: is stated for objects whose unused entries are null, which `adb_wa_sort_unique` does not restore; no caller sets entries by number after it.
- AdbObject.SortUnique: arrays of kind ADB are left out; their comparison passes no trust context and reads nested stores as empty (adb.c:1090-1100).
- AdbObject.AdbObj.Commit: the `pre_commit` hook of a schema is not called from it.
- AdbParse.Identity: the identity that is generated is not part of the result.
- AdbParse.Parse: a block of wrapped size has to lie behind one that ends the loop, which does not end otherwise. `__adb_m_stream`, which differs in its minimum size and header checks, is not modelled.
- ExtractV3Walk.Extractor.TellFile: callbacks return zero or a negative code.
- ExtractV3Walk.Emit: a file on disk is taken to have the size the table says.
- PackageFile.FileAcceptedIff: index files are left out; a file of another schema is refused with one code.
- ExtractV2Ctx.SignCtx.Part: failures of the digest library are not modelled.
- IoStream.Stream.RawRead: progress reports, and streams over memory or mapped files, which never read, are not modelled; a sub-stream's parent is not itself a sub-stream.
- FileIndex.FileDb.FileNew: records are added to the last directory of their owner, as a package under installation does.
- FileIndex.FileDb.InstallPkg: reinstalling a package over itself is left out, as are scripts, triggers and the file system; which files of an archive are accepted is part of the input.
- DirRefs.DirTree.Get: names are canonical, because the source hashes a name before it trims trailing slashes; counts are unbounded, `DirRefs.CountsFit` says when 16 bits are enough; owners, permissions and protected paths are not modelled.
- IpkgCreator.Creator.Resume: a committed package keeps its directories in the order of the list (database.c:758), so a creator that starts from an unsorted list is outside the guarantee; `IpkgCreator.Creator.Commit` and `IpkgCreator.UnsortedMiss` show that it has to be.
- Codecs.DigestRoundTrip: the hexadecimal form of a digest is not modelled; its length test is looser than its reads (blob.c:446).
- The solver, version comparison, package metadata and tar reading: the version comparison is a parameter.
- Digest, signature, compression and network libraries: foreign.
- Command-line applets, option parsing, output formatting, language bindings and portability code: they call the parts modelled here, or format text.
