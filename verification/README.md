# Verified model of the yeetbox storage engine

The yeetbox server keeps a tree of folders and versioned files in three flat, ordered tables and a
pool of blob files. The object table maps *parent id (8 bytes, big-endian) followed by the
normalised name* to a record; the sequence table hands out ids; the version table maps *(file id,
version)* to a length and the name of a blob. Blobs grow in place: uploads may arrive in fragments
under a continuation token, and an append extends the blob of the latest version while older
versions pretend that the file ends at their own length.

This project models that engine, the mutex around it, the version reservation protocol of the file
back end, and two small codecs. It proves that the flat tables behave as a path-based file system,
call by call and over whole runs, and it says exactly where the code as written does not.

`dafny verify dfyconfig.toml` checks everything.

## How it is laid out

| module | contents |
|---|---|
| `Positional`, `Keys`, `BlobNames` | digits and lexicographic order; table keys, byte order, tokens, scan ranges; what blob files are called |
| `Store` | each operation as a function from state and arguments to state and answer |
| `Storage` | the engine as an object with tables and blobs updated in place, each method proved equal to its function in `Store` and, with the repairs, to the file system on paths |
| `Tree` | which paths lead where in a flat table, and how one key's change changes that |
| `Invariant`, `Purging`, `Changes`, `Ancestry` | what every call keeps; the delete loop; the five ways to change the object table; no cycles |
| `AbstractFs`, `Refinement` | the specification on paths, and the proof that the engine refines it |
| `History`, `Chains` | run-long properties: no resurrection, frozen versions, sealed blobs, append chains, fragments |
| `Downloads`, `Listings` | window arithmetic and readers; range scans |
| `Names` | which spellings mean one object, under which path and name a new object is found and listed, which kinds each operation refuses |
| `Serial`, `Service` | clients interleaved under the mutex, what they see, and what goes wrong without the mutex |
| `Departures`, `SharedIds` | exactly when the code as written misses its promise, and what is lost |
| `Steps`, `Scenario`, `Failures` | concrete runs: one that meets the hypotheses of the theorems on runs, and one for each departure |
| `Reservation`, `VersionNames` | the version reservation protocol and its directory names |
| `Time64`, `PlainAuth` | packed time stamps; the PLAIN message of section 2 of RFC 4616 |

## The code as written, and its repairs

The operations in `Store` and `Storage` follow the branches of the source. Where the source departs
from what it says it does, the departure is a switch in `Store.Repairs`; with all switches off
(`AS_WRITTEN`) the model is the code. Each theorem names the switches that it needs. `Departures` and
`SharedIds` prove exactly when a call or a run is affected without them, and `Failures` has an input
for each.

| switch | as written | repaired |
|---|---|---|
| `storeSequence` | `make_directory` reads the sequence and never stores it (`database.rs:461-467`) | stores it, as `get_next_id` does (257-265) |
| `acceptNext` | `upload` with `next` fails on its own check for a replaced record (627-630), against `remotefs.proto:304` | the next version of a versioned blob is accepted; an object of another type is refused |
| `writeAppend` | `append` writes its bytes, but names no blob in the new row, leaves `latest_version` alone and never commits (760-777) | does all three (the intent is at 240-245) |
| `finishDelete` | deleting a versioned blob removes its blob files, fails on the second version that shares one (951), and never commits (961-964) | skips a blob that is gone, and commits |
| `guardMove` | `move` accepts a destination inside what it moves (1102-1128) | refuses it |
| `cloneName` | `copy` opens the blob of a plain object under its number in decimal (1189), while blobs are named by the ULID's own text (517, 1192) | opens it under the ULID's text |
| `oneForm` | names are looked up raw (418-421, 547-550), decomposed (270) or composed (986), and the last component is trimmed in two operations only (416, 545) | decomposed everywhere, never trimmed |

`Invariant.Sound` is `storeSequence`, `writeAppend` and `finishDelete`; `Refinement.Intended` adds
`acceptNext`, `guardMove` and `cloneName`. `oneForm` is needed by no theorem except where the same raw
path is to reach the same object from two operations. Some departures are kept in every
configuration:

- Ids are written in native byte order and read back as big-endian (304-307, 474). On either kind
  of host this is an involution that fixes the root, so nothing is lost (`Keys.KeyIdInvolution`).
- `obj_type` (188-198), `append` (721) and `download` (822) match on a constant that does not
  exist, so those arms catch everything: every object is listed as a file.
- `more` (872) is always true for a version of known length (`Downloads.MoreIff`).
- In `file.rs`, the test after the loop compares with 1000 where exhaustion leaves 1001
  (`file.rs:227`); `Reservation` has the code's test and the repaired one.
- `time64.rs` calls the lower 20 bits nanoseconds; they hold fewer than 1,048,576
  (`Time64.TimestampRoundTripIff`).

## What is assumed

- The ULID generator returns names that no file, no token and no plain blob's row has, and clients
  present only tokens that they were given (`Invariant.Admissible`; `issued` in `Store.State` records
  the tokens handed out).
- A write or read of a blob file is complete or fails; no file grows beyond 2^63-1 bytes, and
  a write that would make it do so fails. The server does not crash inside a call.
- Builds check for overflow: an addition that overflows aborts the call and its open transaction. For
  builds that do not, only the window of a download is modelled (`Downloads.WrappedIsSliceIff`).
- Normalisation and trimming are arbitrary functions on the bytes of a name. Where a theorem needs two
  forms of a path to agree, it says so.

## Model

| member | source | states |
|---|---|---|
| Refinement.RunRefines | yeetbox-server/src/storage/database.rs:397-1235 | over every run of the six modifying operations from the empty store, what paths show, what is pending under tokens and the sequence of answers are what the path-based specification gives, as long as disk and numbers last |
| Refinement.StepRefines | yeetbox-server/src/storage/database.rs:397-1235 | in every state that satisfies the invariants, each call has the specified effect on all paths and gives the specified answer, error or not, unless disk or numbers are used up |
| Refinement.ExhaustedOnlyIf | yeetbox-server/src/storage/database.rs:520-528 | those two answers are given only if the blob file that the call writes to would grow beyond what the disk allows, or the sequence or a version number is at its last value |
| Refinement.MoveReroots | yeetbox-server/src/storage/database.rs:1078-1135 | a successful move, destination not inside source, changes one key; every suffix below the destination leads to what it led to below the source, with the same bytes in every version; nothing is left at the source; every other path is unchanged |
| Refinement.MoveRefines | yeetbox-server/src/storage/database.rs:1086-1128 | move succeeds and fails as the specification on paths does, which re-roots the subtree |
| Refinement.FinishUploadRefines | yeetbox-server/src/storage/database.rs:574-672 | the tables' part of an upload adds a file of one version, or one version after those that were there, or reports why not |
| Refinement.UploadRefines | yeetbox-server/src/storage/database.rs:491-675 | an upload, fragment or last message, does to paths and pending tokens what the specification says |
| Refinement.AppendRefines | yeetbox-server/src/storage/database.rs:679-777 | append adds one version, which reads as the previous one followed by the new bytes, and leaves every version of fixed length and every other file alone |
| Refinement.AppendedTables | yeetbox-server/src/storage/database.rs:751-768 | the length that append records is the real size of the blob, whether it adds to a cached length or asks the file |
| Refinement.DeleteRefines | yeetbox-server/src/storage/database.rs:880-965 | delete makes everything at or below the path disappear, and nothing else |
| Refinement.CopyRefines | yeetbox-server/src/storage/database.rs:1140-1235 | copying a versioned blob or link adds one empty plain blob at a free path and leaves the source alone; copying a plain blob fails, as none has contents; folders, pipes, sockets and occupied destinations are refused |
| AbstractFs.WalkRefines | yeetbox-server/src/storage/database.rs:287-315 | the walk over table keys succeeds, and fails with the same error, as the walk over paths does |
| AbstractFs.RekeyRefines | yeetbox-server/src/storage/database.rs:1106-1128 | re-keying one row shows on all paths as the whole subtree hanging elsewhere |
| Tree.FindAfterMove | yeetbox-server/src/storage/database.rs:1104-1125 | which record every path leads to after one key is replaced by another |
| Tree.FindAfterRemove | yeetbox-server/src/storage/database.rs:906-921 | removing one key cuts off exactly the subtree at its path |
| Tree.FindAfterInsert | yeetbox-server/src/storage/database.rs:477-481 | a row under whose id nothing lies adds one leaf and changes no other path |
| Tree.OnePathPerObject | yeetbox-server/src/storage/database.rs:267-315 | each reachable object has exactly one path |
| Tree.OnePathPerFolder | yeetbox-server/src/storage/database.rs:287-315 | no two paths walk to the same folder |
| Keys.MakeKeyInjective | yeetbox-server/src/storage/database.rs:267-272 | a key determines its parent and its name, whatever bytes the name holds |
| Keys.KeyIdInvolution | yeetbox-server/src/storage/database.rs:304-307 | writing an id in native order and reading it as big-endian is its own inverse on either kind of host |
| Keys.KeyIdOfRoot | yeetbox-server/src/storage/database.rs:304-307 | and it leaves the root's id alone |
| Keys.KeyIdBytes | yeetbox-server/src/storage/database.rs:304-307 | on a little-endian host the key id is the id with its eight bytes reversed, on a big-endian one the id itself |
| Keys.BeOfOne | yeetbox-server/src/storage/database.rs:267-272 | so are the parent ids in keys |
| Keys.TokenRoundTrip | yeetbox-server/src/storage/database.rs:510-535 | the token handed out for a blob names that blob again |
| Keys.TokenOnto | yeetbox-server/src/storage/database.rs:510-514 | and the sixteen bytes of a token are those handed out for the blob that it names |
| Keys.TokenOfOne | yeetbox-server/src/storage/database.rs:531-535 | token bytes are big-endian |
| Keys.RangeIsChildren | yeetbox-server/src/storage/database.rs:1010-1012 | a key is in the range from be(p) to be(p+1) exactly if its parent is p |
| Listings.ListedIsChildren | yeetbox-server/src/storage/database.rs:1010-1070 | listing a folder shows each direct child once, in the order of normalised names, under its stored name and as a file, and nothing else |
| Listings.ListRefines | yeetbox-server/src/storage/database.rs:968-1075 | as long as numbers last, list answers with the walk's error or with exactly what lies directly at the path |
| Listings.ListOverflowsIff | yeetbox-server/src/storage/database.rs:1010-1010 | list overflows exactly for the folder whose key id is the last 64-bit number |
| Listings.ScanIsChildren | yeetbox-server/src/storage/database.rs:1010-1019 | the range scan yields the keys of exactly the direct children, ascending |
| Listings.ScanUnique | yeetbox-server/src/storage/database.rs:1012-1014 | the order of the table determines the answer |
| Invariant.RunKeeps | yeetbox-server/src/storage/database.rs:397-1235 | in every state of every run: ids are unique, above 0 and at most the sequence; versions are exactly 1..latest, each in an existing blob that is long enough and that no token names; no blob is shared by two files; the latest cached length is the blob's size |
| Invariant.StepKeeps | yeetbox-server/src/storage/database.rs:397-1235 | every call keeps all of that, whether it succeeds or fails |
| Invariant.AddVersion | yeetbox-server/src/storage/database.rs:601-669 | what a new version must bring for density, ownership and disjointness to survive |
| Invariant.PurgeRemovesExactly | yeetbox-server/src/storage/database.rs:929-959 | the delete loop reaches the end and removes every version row and blob of the file, and no other row or blob |
| Invariant.DeleteRemovesExactly | yeetbox-server/src/storage/database.rs:880-965 | so deleting a versioned blob at the expected version always succeeds and removes its row, version rows and blobs, nothing else |
| Purging.StrictFinishesIff | yeetbox-server/src/storage/database.rs:934-959 | the loop as written reaches the end exactly if every named blob is there and no two versions share one |
| Ancestry.RunKeepsForest | yeetbox-server/src/storage/database.rs:397-1235 | in every state of every run parent links have no cycle and the rows form a forest |
| Ancestry.MoveKeepsAcyclicIff | yeetbox-server/src/storage/database.rs:1102-1128 | a successful move keeps parent links free of cycles exactly if the destination is not inside the source |
| Changes.StepChange | yeetbox-server/src/storage/database.rs:397-1235 | every call changes the object table in one of five ways, each by at most one object; a new object takes the next id |
| Changes.ErrorLeavesTables | yeetbox-server/src/storage/database.rs:445-485 | a call that returns an error leaves all three committed tables unchanged, repaired or not |
| History.NoResurrection | yeetbox-server/src/storage/database.rs:257-265 | an object that no path reaches is reached by no path in any later state of any run |
| History.DeletedStaysDeleted | yeetbox-server/src/storage/database.rs:917-928 | nothing that was below a deleted folder is ever reached again, although its rows stay in the table |
| History.VersionsAreFrozen | yeetbox-server/src/storage/database.rs:240-245 | over any run, a version of known length reads the same bytes until its file is deleted |
| History.UploadsNeverAlter | yeetbox-server/src/storage/database.rs:645-657 | no upload, whatever issued token it presents, alters a committed version, not even one that arrived in fragments |
| History.UploadAltersOnlyNamed | yeetbox-server/src/storage/database.rs:509-529 | nor does one that presents any sixteen bytes, issued or not, that are not the name of a version's blob |
| Chains.UploadThenAppends | yeetbox-server/src/storage/database.rs:717-768 | after a one-message upload and n appends, version k + 1 reads as the upload followed by the first k pieces |
| Chains.ChainReads | yeetbox-server/src/storage/database.rs:746-768 | the same for appends to any file: the k-th version added is what was there followed by the first k pieces |
| Chains.AppendChangesReadingIff | yeetbox-server/src/storage/database.rs:746-768 | an append changes the reading of an older version exactly if that one has no known length, shares the blob, and bytes are added |
| Chains.FragmentsInOrder | yeetbox-server/src/storage/database.rs:504-537 | whatever other calls run in between, and whether they succeed or fail, what is stored under a token is what was sent under it, in order |
| Chains.FragmentedUploadReads | yeetbox-server/src/storage/database.rs:531-657 | a finished fragmented upload reads as the concatenation of its fragments |
| Downloads.WindowIsSlice | yeetbox-server/src/storage/database.rs:838-874 | in a build that checks for overflow, a download is content[o .. o + min(L, len - o, 8 MiB)], and is refused exactly beyond the end, beyond any file, or when o + L does not fit in 64 bits |
| Downloads.ChunkIsWhatIsLeft | yeetbox-server/src/storage/database.rs:66-66 | a request gets all that is left from its offset on, up to as many bytes as asked and up to 8,388,608 |
| Downloads.WrappedIsSliceIff | yeetbox-server/src/storage/database.rs:855-860 | in a build that does not, exactly when it is: when o + L fits, wraps to beyond the version, or finds nothing to read beyond the version's end |
| Downloads.MoreIff | yeetbox-server/src/storage/database.rs:855-873 | exactly when `more` is false: only at the end of a version of unknown length |
| Downloads.DownloadRefines | yeetbox-server/src/storage/database.rs:790-878 | a download is a lookup of the path and version and a slice of what that version reads as, errors included |
| Downloads.ReaderRebuilds | yeetbox-server/src/storage/database.rs:838-874 | a reader that advances by what it gets makes at most len requests and is stopped by nothing but the end, where it has the whole version |
| Downloads.BusyReaderRebuilds | yeetbox-server/src/storage/database.rs:240-245 | and that holds for a version of known length while other clients append, upload, move and delete between its requests, until its file is deleted |
| Serial.EveryTraceIsSerial | yeetbox-server/src/service.rs:47-116 | every interleaving of clients under the mutex, reading or modifying, gives the answers and the store of its requests served one after the other, and what the holder found on its walk is what it would find at commit |
| Serial.AnswersAreAsked | yeetbox-server/src/service.rs:47-116 | in every interleaving, what a client was answered, followed by what it is waiting for, is exactly what it asked, in order |
| Serial.AskedIsServed | yeetbox-server/src/service.rs:47-116 | with the mutex free, a client that asks, takes it and goes on is given the answer, and leaves the store, of its request served at once |
| Serial.HolderFinishes | yeetbox-server/src/service.rs:47-116 | whoever holds the mutex frees it within three steps of its own |
| Service.ClientsSeePaths | yeetbox-server/src/service.rs:47-116 | in every interleaving of clients under the mutex, as long as they present issued tokens, blob files have room and counters are not at their end, each answer, to modifying and reading requests alike, is the one that the file system on paths gives in the order of the answers |
| Serial.PartsMakeRequest | yeetbox-server/src/storage/database.rs:410-485 | blob write, walk in the read snapshot, and write transaction or read make up the request |
| Serial.WithoutMutexNotSerial | yeetbox-server/src/service.rs:51-52 | without the mutex there is a run of four successful calls that no serial order explains |
| Storage.DatabaseStorage.DescendPath | yeetbox-server/src/storage/database.rs:287-315 | the loop over the components is the recursive walk, with the first failure deciding the error |
| Storage.DatabaseStorage.MakeDirectory | yeetbox-server/src/storage/database.rs:397-489 | the whole new state and the answer; with the repairs, the invariants kept and the specified effect on paths |
| Storage.DatabaseStorage.Upload | yeetbox-server/src/storage/database.rs:491-677 | the whole new state and the answer, for fragments and for last messages; with the repairs, the invariants kept and the specified effect on paths |
| Storage.DatabaseStorage.Append | yeetbox-server/src/storage/database.rs:679-781 | the whole new state and the answer, with the bytes written even when the call then fails; with the repairs, the invariants kept and the specified effect on paths |
| Storage.DatabaseStorage.Delete | yeetbox-server/src/storage/database.rs:880-965 | the whole new state and the answer; with the repairs, the invariants kept and the specified effect on paths |
| Storage.DatabaseStorage.PurgeVersions | yeetbox-server/src/storage/database.rs:929-959 | the descending loop ends without going below zero and computes the recursive purge, blobs removed on disk and rows only in the transaction |
| Storage.DatabaseStorage.Move | yeetbox-server/src/storage/database.rs:1078-1135 | the whole new state and the answer; with the repairs, the invariants kept and the specified effect on paths |
| Storage.DatabaseStorage.Copy | yeetbox-server/src/storage/database.rs:1140-1235 | the whole new state and the answer; with the repairs, the invariants kept and the specified effect on paths |
| Storage.DatabaseStorage.Download | yeetbox-server/src/storage/database.rs:790-878 | the chunk or the error, which in a valid store is a slice of the version that the path shows; nothing changed, no underflow |
| Storage.DatabaseStorage.List | yeetbox-server/src/storage/database.rs:968-1075 | the one listing of the folder in table order; in a valid store, as long as numbers last, the walk's error or exactly what lies directly in the folder |
| Scenario.FiveCalls | yeetbox-server/src/storage/database.rs:397-1135 | make a folder, upload, append, move the folder, delete the file: with the repairs the run meets every hypothesis, each call succeeds, and both versions read the same after the move |
| Scenario.ThreeUploads | yeetbox-server/src/storage/database.rs:504-673 | upload in two fragments, the second under the token answered to the first, then the next version: each call succeeds and the versions read as sent |
| Names.SpellingsMeanTheSame | yeetbox-server/src/storage/database.rs:267-272 | append, delete and download do the same for two paths whose components have the same decomposed forms |
| Names.MoveSpellings | yeetbox-server/src/storage/database.rs:1102-1105 | and so does move at both ends, but for the name that the object is listed under |
| Names.CopySpellings | yeetbox-server/src/storage/database.rs:1165-1168 | and copy |
| Names.FoundTheSameIff | yeetbox-server/src/storage/database.rs:267-272 | where ids are distinct, two paths find one object exactly if their components have the same decomposed forms |
| Names.DirectoryFoundAsGiven | yeetbox-server/src/storage/database.rs:416-456 | a directory just made is found under the very path given if that path keeps its form (as written: parents decomposed already, and trimming does not change the last component's form); where ids are distinct, only then |
| Names.UploadFoundAsGiven | yeetbox-server/src/storage/database.rs:545-669 | the same for an upload, whose record and version row are given in full |
| Names.MadeTwiceIsRefused | yeetbox-server/src/storage/database.rs:450-459 | making a directory again, in any spelling that comes to the same for make_directory, is refused |
| Names.SameCreateFormIff | yeetbox-server/src/storage/database.rs:416-421 | exactly which spellings those are |
| Names.SpellingsListTheSame | yeetbox-server/src/storage/database.rs:982-987 | paths whose components have the same composed forms are listed the same |
| Names.DirectoryListedAsGiven | yeetbox-server/src/storage/database.rs:1028-1069 | a directory just made is shown when its folder is listed, under the name that was given (as written: trimmed) |
| Names.UploadListedAsGiven | yeetbox-server/src/storage/database.rs:1028-1069 | and so is a file just uploaded |
| Names.NotReadableIff | yeetbox-server/src/storage/database.rs:274-283 | append and download answer not readable exactly if the path leads to a folder or a symbolic link |
| Names.CopyRefusesIff | yeetbox-server/src/storage/database.rs:1185-1205 | copy refuses exactly folders, pipes and sockets, and has nothing to copy for exactly the plain blobs |
| Names.BadTokenIff | yeetbox-server/src/storage/database.rs:504-515 | a continuation token is refused exactly if it is not sixteen bytes |
| Names.FragmentGoesToToken | yeetbox-server/src/storage/database.rs:509-537 | a fragment goes to the end of the blob that its token names and is answered with that token, unless the file would grow beyond 2^63-1 bytes |
| SharedIds.NewIdIsFreshIff | yeetbox-server/src/storage/database.rs:257-265 | as written, a call that makes an object, whether folder, upload or copy, keeps ids distinct exactly if no row has the next id |
| SharedIds.NextObjectSharesId | yeetbox-server/src/storage/database.rs:461-472 | whatever object is made right after a directory gets the directory's id |
| SharedIds.IdsDistinctIff | yeetbox-server/src/storage/database.rs:461-472 | a run without deletes, as written, ends with distinct ids exactly if no call made an object after another had made a directory |
| Departures.UploadSucceedsIff | yeetbox-server/src/storage/database.rs:585-630 | exactly when the tables' part of an upload succeeds; as written never for an existing file |
| Departures.UncommittedAppendIsLost | yeetbox-server/src/storage/database.rs:746-777 | as written, an append that reports success changes no table and no version of known length |
| Departures.UncommittedAppendKeepsWholeIff | yeetbox-server/src/storage/database.rs:751-777 | and the cached length still agrees with the blob exactly if nothing was appended or no length was cached |
| Departures.DeleteSucceedsIff | yeetbox-server/src/storage/database.rs:929-964 | as written, in any state, deleting a file succeeds exactly if each of its versions' blobs is there and no two versions share one |
| Departures.DeleteSucceedsIffUnshared | yeetbox-server/src/storage/database.rs:929-964 | where no blob is missing, exactly if no two versions share one |
| Departures.FailedDeleteRemovesLatest | yeetbox-server/src/storage/database.rs:943-954 | a delete that fails changes no table but has removed the latest version's blob |
| Departures.DeletedFileIsUnreadable | yeetbox-server/src/storage/database.rs:929-964 | and then every row is still there and no version can be read |
| Departures.MoveInsideLosesSubtree | yeetbox-server/src/storage/database.rs:1102-1128 | as written, moving a folder into itself makes its whole subtree disappear |
| Departures.CopySucceedsIff | yeetbox-server/src/storage/database.rs:1184-1228 | exactly when copy succeeds: for a plain blob, only if the file that it opens is there |
| Departures.CanCloneIff | yeetbox-server/src/storage/database.rs:1189-1191 | that file is the one named by the blob's number in decimal as written, by its ULID if repaired |
| Departures.CopyClonesContents | yeetbox-server/src/storage/database.rs:1192-1195 | a plain blob that can be copied is copied whole |
| Departures.PlainBlobsAreNeverCopied | yeetbox-server/src/storage/database.rs:1186-1200 | with the right file name it never is: in every state of every run, copying a copy fails, since a versioned blob's contents are not copied |
| BlobNames.NumberNamesFileIff | yeetbox-server/src/storage/database.rs:1189-1192 | which blob file, if any, a ULID's number in decimal names |
| BlobNames.UlidNameInjective | yeetbox-server/src/storage/database.rs:517-518 | no two ULIDs share a blob file name |
| BlobNames.UlidNameReads | yeetbox-server/src/storage/database.rs:517-517 | a blob file's name spells the ULID's 26 digits in base 32 |
| BlobNames.LettersAreTheAlphabet | yeetbox-server/src/storage/database.rs:517-517 | in Crockford's alphabet |
| BlobNames.NumberNameReads | yeetbox-server/src/storage/database.rs:1189-1189 | the name that copy looks for is the number's decimal digits |
| Departures.NewDirectoryIsFoundIff | yeetbox-server/src/storage/database.rs:416-421 | in any state, a directory just made is what the other operations find under a path exactly if their form of that path and make_directory's form of its own end in one name in one folder; where ids are distinct, exactly if the forms are the same |
| Departures.UploadIsFoundIff | yeetbox-server/src/storage/database.rs:544-550 | the same for a file just uploaded |
| Departures.NewDirectoryIsListedIff | yeetbox-server/src/storage/database.rs:982-987 | in any state, a directory just made can be listed under the path it was made with exactly if list's form of that path leads to a folder with its id; where ids are distinct, exactly if the two operations' forms agree |
| Failures.TwoDirectoriesAreOne | yeetbox-server/src/storage/database.rs:461-484 | make a, make b, make a/x: b/x exists |
| Failures.FolderAndFileShareId | yeetbox-server/src/storage/database.rs:461-484 | make a, upload x: a folder and a file share an id |
| Failures.NextVersionIsRefused | yeetbox-server/src/storage/database.rs:625-630 | upload x, upload its next version: refused |
| Failures.AppendedBytesAreLost | yeetbox-server/src/storage/database.rs:746-777 | upload x, append to it: done, but no version has the bytes, and the cached length no longer agrees with the blob |
| Failures.DeletedFileStays | yeetbox-server/src/storage/database.rs:929-964 | upload x, delete x, delete x: done, done, failed, with one version and no sharing |
| Failures.FolderMovedIntoItself | yeetbox-server/src/storage/database.rs:1102-1128 | make a, move a to a/b: done, and no path leads anywhere although the row is there |
| Failures.CopyOfCopyFails | yeetbox-server/src/storage/database.rs:1186-1200 | upload x, copy x to y, copy y to z: the last one fails, as written and repaired |
| Failures.SpacedNameIsLost | yeetbox-server/src/storage/database.rs:416-421 | make a name with a space in front: done, but it can neither be found nor listed under that name |
| Reservation.UploadersNeverShare | yeetbox-server/src/storage/file.rs:97-109 | under every interleaving with the repaired test after the loop, and with the code's test as long as version 1001 is not reached, uploaders that leave the loop with a version hold different ones, none of them version 1, and each one's blob stays in its directory |
| Reservation.AsWrittenExclusiveIff | yeetbox-server/src/storage/file.rs:211-232 | with the code's test that holds of every run with at most n versions exactly if n is at most 1000 |
| Reservation.RunKeepsLoopInv | yeetbox-server/src/storage/file.rs:196-229 | under every interleaving, and with either test after the loop, the version directories are 1..n and v is tried only after v - 1 is known to exist |
| Reservation.GivesUpOnlyWhenFull | yeetbox-server/src/storage/file.rs:211-229 | with the repaired test an uploader gives up only if the 1000 versions above its head snapshot all exist; with the code's test, only if the first 999 do |
| Reservation.AsWrittenGivesUpIff | yeetbox-server/src/storage/file.rs:211-229 | with the code's test, whoever gives up has all 1000 versions above the head against it, in every run with at most n versions, exactly if n is below 1000 |
| Reservation.SuccessfulUploaderGivesUp | yeetbox-server/src/storage/file.rs:227-229 | a run with the code's test in which an uploader gives up although its 999th try succeeded |
| Reservation.FileDirectory.ReserveVersion | yeetbox-server/src/storage/file.rs:211-226 | the loop takes the first free version above the head or finds the next thousand taken, and the counter ends one above the number of tries |
| Reservation.TestIsRightIff | yeetbox-server/src/storage/file.rs:227-229 | the test as written is right exactly if the loop succeeded and not on its 999th try |
| Reservation.ExhaustedUploaderOverwrites | yeetbox-server/src/storage/file.rs:227-232 | a run with the code's test in which an uploader out of tries renames its blob over another one's, so that both hold version 1001 |
| Reservation.FirstUploadsCollide | yeetbox-server/src/storage/file.rs:164-194 | two first uploads both rename into version 1, whichever test is used |
| Reservation.SameVersionIff | yeetbox-server/src/storage/file.rs:164-232 | with the repaired test, and with the code's test as long as version 1001 is not reached, two uploaders end up in one version exactly if each, at its first action, did not ask for the next version or found no head |
| Reservation.FinishedLeavesHead | yeetbox-server/src/storage/file.rs:169-169 | in every run a finished upload leaves a head, at most one upload made the link, and unless it was re-linked it points at that one's version |
| Reservation.RelinkMoves | yeetbox-server/src/storage/file.rs:233-233 | re-linking may point the head at any version that exists |
| Reservation.LaterUploadsGoOn | yeetbox-server/src/storage/file.rs:176-232 | whoever first acts after some upload has finished, asking for the next version, never takes the first-upload branch and ends up in a version of at least 2 |
| Reservation.AloneTakesNext | yeetbox-server/src/storage/file.rs:196-232 | where there is a head, an uploader on its own takes the first free version above it, if it is among the first thousand and the test lets it through |
| Reservation.AloneTakesFirst | yeetbox-server/src/storage/file.rs:164-194 | otherwise it takes version 1, and makes the head if there is none |
| VersionNames.ParsePrint | yeetbox-server/src/storage/file.rs:203-217 | the name printed for any 64-bit number parses back to it |
| VersionNames.ParseIff | yeetbox-server/src/storage/file.rs:203-209 | a name parses as a number exactly if it is its decimal digits, with or without a plus sign |
| VersionNames.PrintReads | yeetbox-server/src/storage/file.rs:217-217 | a number is printed as its digits in twelve places, or as many as it needs |
| VersionNames.FirstNames | yeetbox-server/src/storage/file.rs:34-35 | 0 and 1 are printed as the names that the first-upload branch spells out |
| VersionNames.PrintKeepsOrderIff | yeetbox-server/src/storage/file.rs:217 | the order of names is the order of numbers below a limit exactly if the limit is at most 10^12 |
| Time64.FromParts | yeetbox-server/src/time64.rs:50-77 | the word reads back as the seconds and nanoseconds exactly if they fit in 44 and 20 bits |
| Time64.WordRoundTrip | yeetbox-server/src/time64.rs:60-77 | every 64-bit word survives the trip to a protobuf time stamp and back |
| Time64.TimestampRoundTripIff | yeetbox-server/src/time64.rs:60-77 | a time stamp survives the trip the other way exactly if its seconds fit in 44 bits and its nanoseconds in 20 |
| Time64.NanosSpill | yeetbox-server/src/time64.rs:50-56 | a time stamp that does not: 1,048,576 nanoseconds come back as one second |
| Time64.NegativeNanos | yeetbox-server/src/time64.rs:54-54 | negative nanoseconds extend their sign over the seconds |
| Time64.PackKeepsOrder | yeetbox-server/src/time64.rs:50-56 | within that range an earlier time has a smaller word |
| PlainAuth.AttemptAuthn | yeetbox-server/src/authn.rs:67-112 | for PLAIN, acceptance exactly for messages of at most 1000 bytes of the prescribed shape with valid text, no foreign authzid and the stored password; an error exactly for text that is not valid; ANONYMOUS accepted, all else rejected |
| PlainAuth.LongestMessage | yeetbox-server/src/authn.rs:75-77 | a message of 1000 bytes can be good, one of 1001 cannot |
| PlainAuth.GoodIsSplit | yeetbox-server/src/authn.rs:78-105 | that shape is the one that splitting at NULs checks |
| PlainAuth.SplitJoin | yeetbox-server/src/authn.rs:78-82 | splitting undoes joining with NULs |
| PlainAuth.JoinSplit | yeetbox-server/src/authn.rs:78-82 | and joining undoes splitting |

## Left out

- gRPC plumbing, status texts, missing arguments, logging, configuration, the CLI and the
  authorizer: no state worth a proof.
- Operations that the server does not implement, such as patch and shredding.
- Blob contents in a copy of a versioned blob: the source has a TODO there
  (`database.rs:1198-1200`), so the copy has no version.
- The record's `blob_ulid` for versioned blobs: it is written, as in the source, and only read for
  plain blobs, which only copy makes.
- Time stamps, owner, permissions and storage tier inside rows; the byte layout of rows other than
  the id; the version table's keys are pairs instead of bytes.
- Unicode tables and UTF-8 decoding: functions on bytes, unconstrained.
- ULID generation, redb and its transactions (a transaction is a copy that a commit stores back),
  file system calls beyond the ones named above, short reads and writes, crashes inside a call.
- Downloads.ReaderRebuilds: a version of unknown length may grow between requests; the session is
  over one state. Downloads.BusyReaderRebuilds is for versions of known length.
- Refinement.RunRefines: an answer that disk or numbers are used up has no counterpart on paths
  (Refinement.ExhaustedOnlyIf says when it is given); Invariant.StepKeeps and
  Changes.ErrorLeavesTables cover those calls too.
- In `file.rs`: append, download, list, delete, errors of create_dir other than "already exists",
  and the re-linking of the head, which is a TODO there; the protocol allows any re-linking to an
  existing version.
- Reservation.UploadersNeverShare: claims nothing of the first-upload branch, which does not test
  and set (Reservation.SameVersionIff covers both), nor of the code's test beyond version 1000, where
  it fails (Reservation.AsWrittenExclusiveIff).
