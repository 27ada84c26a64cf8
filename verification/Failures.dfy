/** For each departure of the code as written, a short run on which it misses its promise. Names are
    single letters, which every form leaves alone except where the forms themselves are the point. */
module Failures {
  import opened Wrappers
  import opened Keys
  import opened Store
  import opened Tree
  import opened Invariant
  import opened AbstractFs
  import opened Steps

  lemma TopKeys()
    ensures MakeKey(0, A) != MakeKey(0, B) && MakeKey(0, X) != MakeKey(0, A)
    ensures MakeKey(0, X) != MakeKey(0, Y) && MakeKey(0, X) != MakeKey(0, Z) && MakeKey(0, Y) != MakeKey(0, Z)
  {
    MakeKeyInjective(0, A, 0, B);
    MakeKeyInjective(0, X, 0, A);
    MakeKeyInjective(0, X, 0, Y);
    MakeKeyInjective(0, X, 0, Z);
    MakeKeyInjective(0, Y, 0, Z);
  }

  /** Below folder 1. */
  lemma InnerKeys(h: Host, a: Bytes, x: Bytes)
    ensures MakeKey(KeyId(h, 1), x) != MakeKey(0, a)
  {
    MakeKeyInjective(KeyId(h, 1), x, 0, a);
    KeyIdOfRoot(h);
    KeyIdInjective(h, 1, 0);
  }

  // ----- The sequence -----

  const MADE := State(map[MakeKey(0, A) := FolderRow(1, A)], 0, map[], map[], {})

  lemma Makes(h: Host)
    ensures Step(Plain(h), EMPTY_STATE, MakeDirectoryCall([A])) == (MADE, Done)
  {
    hide Locate, Walk, Step, MakeKey;
    AtTop(h, EMPTY_STATE.fs, A);
    Making(h, AS_WRITTEN, EMPTY_STATE, [A], Ok(MakeKey(0, A)));
  }

  /** Make a, make b, make a/x, and b/x exists. */
  lemma TwoDirectoriesAreOne(h: Host)
    ensures var c := Plain(h);
            var (s1, r1) := Step(c, EMPTY_STATE, MakeDirectoryCall([A]));
            var (s2, r2) := Step(c, s1, MakeDirectoryCall([B]));
            var (s3, r3) := Step(c, s2, MakeDirectoryCall([A, X]));
            r1 == r2 == r3 == Done && Find(h, s2.fs, [B, X]) == None && Find(h, s3.fs, [B, X]).Some?
  {
    hide Locate, Walk, Step, MakeKey, KeyId;
    TopKeys();
    InnerKeys(h, A, X);
    InnerKeys(h, B, X);
    Makes(h);
    AtTop(h, MADE.fs, B);
    Making(h, AS_WRITTEN, MADE, [B], Ok(MakeKey(0, B)));
    var s2 := MADE.(fs := MADE.fs[MakeKey(0, B) := FolderRow(1, B)]);
    AtSecond(h, s2.fs, A, X);
    AtSecond(h, s2.fs, B, X);
    var kx := MakeKey(KeyId(h, 1), X);
    Making(h, AS_WRITTEN, s2, [A, X], Ok(kx));
    AtSecond(h, s2.fs[kx := FolderRow(1, X)], B, X);
  }

  // ----- Files -----

  const FILE := Record(1, VersionBlob, 1, 7, X)
  const UPLOADED := State(map[MakeKey(0, X) := FILE], 1, map[(1, 1) := Version(1, Some(7))], map[7 := [1]], {})
  const UPLOAD := UploadCall(UploadArg([X], [1], false, false, []), 7, 8)

  lemma Uploads(h: Host)
    ensures Step(Plain(h), EMPTY_STATE, UPLOAD) == (UPLOADED, Done) && Admissible(EMPTY_STATE, UPLOAD)
  {
    hide Locate, Walk, Step, MakeKey;
    AtTop(h, EMPTY_STATE.fs, X);
    Uploading(h, AS_WRITTEN, EMPTY_STATE, [X], [1], 7, 8, MakeKey(0, X));
  }

  lemma FindsX(h: Host, s: State)
    requires MakeKey(0, X) in s.fs
    ensures FindFile(Plain(h), s, [X]) == Ok(MakeKey(0, X))
  {
    AtTop(h, s.fs, X);
    SamePath(h, AS_WRITTEN, [X]);
  }

  /** Make a, upload x: a folder and a file share id 1. */
  lemma FolderAndFileShareId(h: Host)
    ensures var c := Plain(h);
            var (s1, r1) := Step(c, EMPTY_STATE, MakeDirectoryCall([A]));
            var (s2, r2) := Step(c, s1, UPLOAD);
            r1 == r2 == Done && Admissible(s1, UPLOAD) && !DistinctIds(s2.fs)
  {
    hide Locate, Walk, Step, MakeKey;
    TopKeys();
    Makes(h);
    AtTop(h, MADE.fs, X);
    Uploading(h, AS_WRITTEN, MADE, [X], [1], 7, 8, MakeKey(0, X));
    var fs := MADE.fs[MakeKey(0, X) := FILE];
    assert MakeKey(0, A) in fs && MakeKey(0, X) in fs && fs[MakeKey(0, A)].id == fs[MakeKey(0, X)].id;
  }

  /** Upload x, upload its next version: refused. */
  lemma NextVersionIsRefused(h: Host)
    ensures var c := Plain(h);
            var next := UploadCall(UploadArg([X], [2], true, false, []), 9, 10);
            var (s1, r1) := Step(c, EMPTY_STATE, UPLOAD);
            var (s2, r2) := Step(c, s1, next);
            r1 == Done && Admissible(s1, next) && r2 == Failed(ReplacedExisting) && s2.fs == s1.fs && s2.ver == s1.ver
  {
    hide Locate, Walk, MakeKey;
    Uploads(h);
    AtTop(h, UPLOADED.fs, X);
    SamePath(h, AS_WRITTEN, [X]);
  }

  /** Upload x, append to it: reported done, but the file still has its one version, and the blob
      has grown behind it. */
  lemma AppendedBytesAreLost(h: Host)
    ensures var c := Plain(h);
            var (s1, r1) := Step(c, EMPTY_STATE, UPLOAD);
            var (s2, r2) := Step(c, s1, AppendCall([X], None, [2]));
            && r1 == r2 == Done && s2.fs == s1.fs && s2.ver == s1.ver && s2.blobs == map[7 := [1, 2]]
            && ReadVersion(s2.ver, s2.blobs, 1, 1) == Reading(true, 7, [1])
            && !Whole(s2.fs, s2.ver, s2.blobs)
  {
    hide Locate, Walk, MakeKey, FindFile;
    Uploads(h);
    FindsX(h, UPLOADED);
    var one: Bytes := [1];
    assert one + [2] == [1, 2] && (one + [2])[..1] == one;
    var blobs: Files := map[7 := [1, 2]];
    assert UPLOADED.blobs[7 := one + [2]] == blobs;
    assert !WholeAt(UPLOADED.fs[MakeKey(0, X)], UPLOADED.ver, blobs);
  }

  const EMPTIED := UPLOADED.(blobs := map[])

  lemma PurgeOne()
    ensures var p := Purge(false, UPLOADED.ver, UPLOADED.blobs, 1, 1); p.finished && p.blobs == map[]
    ensures !Purge(false, UPLOADED.ver, map[], 1, 1).finished && Purge(false, UPLOADED.ver, map[], 1, 1).blobs == map[]
  {
    assert UPLOADED.ver - {(1, 1)} == map[];
    assert UPLOADED.blobs - {7} == map[];
    assert Purge(false, map[], map[], 1, 0) == Purged(map[], map[], true);
  }

  /** Upload x, delete x, delete x: the first delete reports success and leaves the file without its
      contents, the second fails, although no two versions share a blob. */
  lemma DeletedFileStays(h: Host)
    ensures var c := Plain(h);
            var (s1, r1) := Step(c, EMPTY_STATE, UPLOAD);
            var (s2, r2) := Step(c, s1, DeleteCall([X], None));
            var (s3, r3) := Step(c, s2, DeleteCall([X], None));
            && r1 == r2 == Done && r3 == Failed(Io) && s3 == s2
            && FindFile(c, s2, [X]).Ok? && ReadVersion(s2.ver, s2.blobs, 1, 1) == Unreadable
  {
    hide Locate, Walk, MakeKey, FindFile, Purge;
    Uploads(h);
    FindsX(h, UPLOADED);
    FindsX(h, EMPTIED);
    PurgeOne();
  }

  // ----- Move -----

  /** Make a, move a to a/b: reported done, nothing can be found any more, and the row is still
      there. */
  lemma FolderMovedIntoItself(h: Host)
    ensures var c := Plain(h);
            var (s1, r1) := Step(c, EMPTY_STATE, MakeDirectoryCall([A]));
            var (s2, r2) := Step(c, s1, MoveCall([A], None, [A, B]));
            r1 == r2 == Done && Find(h, s1.fs, [A]).Some? && |s2.fs| == 1 && forall p: Path :: Find(h, s2.fs, p) == None
  {
    hide Locate, Walk, Step, MakeKey, KeyId, Find;
    var kab := MakeKey(KeyId(h, 1), B);
    InnerKeys(h, A, B);
    Makes(h);
    AtTop(h, MADE.fs, A);
    AtSecond(h, MADE.fs, A, B);
    Moving(h, AS_WRITTEN, MADE, [A], MakeKey(0, A), [A, B], kab);
    var s2 := MADE.(fs := (MADE.fs - {MakeKey(0, A)})[kab := FolderRow(1, B)]);
    assert s2.fs == map[kab := FolderRow(1, B)];
    OnlyTop(h);
    OnePathPerKey(h, MADE.fs, [A]);
    OnePathPerKey(h, MADE.fs, [A, B]);
    forall p: Path
      ensures Find(h, s2.fs, p) == None
    {
      FindAfterMoveInside(h, MADE.fs, [A], MakeKey(0, A), [A, B], kab, FolderRow(1, B), p);
      assert Find(h, MADE.fs, p).Some? ==> [A] <= p;
    }
  }

  lemma OnlyTop(h: Host)
    ensures Find(h, MADE.fs, [A]).Some?
    ensures forall p: Path :: Find(h, MADE.fs, p).Some? ==> [A] <= p
  {
    AtTop(h, MADE.fs, A);
    OnePathPerKey(h, MADE.fs, [A]);
    forall p: Path | Find(h, MADE.fs, p).Some?
      ensures [A] <= p
    {
      assert Locate(h, MADE.fs, p) == Locate(h, MADE.fs, [A]);
    }
  }

  // ----- Copy -----

  const COPY := Record(2, NormalBlob, 1, 9, Y)
  const COPIED := UPLOADED.(fs := UPLOADED.fs[MakeKey(0, Y) := COPY], seqno := 2)

  /** Copying a versioned blob makes a plain one. */
  lemma CopyOfFile(h: Host, rep: Repairs)
    ensures Step(Bare(h, rep), UPLOADED, CopyCall([X], [Y], 9)) == (COPIED, Done)
  {
    hide Locate, Walk, MakeKey, Step;
    TopKeys();
    AtTop(h, UPLOADED.fs, X);
    AtTop(h, UPLOADED.fs, Y);
    Copying(h, rep, UPLOADED, [X], MakeKey(0, X), [Y], MakeKey(0, Y), 9);
  }

  /** Copying that one fails. */
  lemma CopyOfCopy(h: Host, rep: Repairs)
    ensures Step(Bare(h, rep), COPIED, CopyCall([Y], [Z], 10)) == (COPIED, Failed(NoBlob))
  {
    hide Locate, Walk, MakeKey, Step;
    TopKeys();
    AtTop(h, COPIED.fs, Y);
    AtTop(h, COPIED.fs, Z);
    Copying(h, rep, COPIED, [Y], MakeKey(0, Y), [Z], MakeKey(0, Z), 10);
    NineNamesNothing();
  }

  lemma NineNamesNothing()
    ensures BlobNames.FileOfNumber(9) == None
  {
  }

  /** Upload x, copy x to y, copy y to z: the last one fails, in the code as written and, for want
      of anything to copy, with every repair. */
  lemma CopyOfCopyFails(h: Host)
    ensures var c := Plain(h);
            var (s1, r1) := Step(c, EMPTY_STATE, UPLOAD);
            var (s2, r2) := Step(c, s1, CopyCall([X], [Y], 9));
            var (s3, r3) := Step(c, s2, CopyCall([Y], [Z], 10));
            && r1 == r2 == Done && r3 == Failed(NoBlob) && s3 == s2
            && Step(Repaired(h), s2, CopyCall([Y], [Z], 10)) == (s2, Failed(NoBlob))
  {
    hide Step;
    Uploads(h);
    CopyOfFile(h, AS_WRITTEN);
    CopyOfCopy(h, AS_WRITTEN);
    CopyOfCopy(h, REPAIRED);
  }

  // ----- Forms of names -----

  /** A trimming that takes off one leading space. */
  function TrimSpace(b: Bytes): Bytes
  {
    if b != [] && b[0] == 32 then b[1..] else b
  }

  function Trimming(h: Host): Config
  {
    Config(h, Text((b: Bytes) => b, (b: Bytes) => b, TrimSpace), AS_WRITTEN)
  }

  const SPACED: Bytes := [32, 97]

  /** Make " a": reported done, but under that path it can neither be found nor listed. */
  lemma SpacedNameIsLost(h: Host)
    ensures var c := Trimming(h);
            var (s1, r1) := Step(c, EMPTY_STATE, MakeDirectoryCall([SPACED]));
            && r1 == Done && FindFile(c, s1, [SPACED]) == Err(NoSuchFile)
            && Walk(h, s1.fs, ListPath(c, [SPACED])) == Err(NoSuchPath) && FindFile(c, s1, [A]).Ok?
  {
    hide MakeKey;
    var c := Trimming(h);
    MakeKeyInjective(0, SPACED, 0, A);
    assert TrimSpace(SPACED) == A;
    assert CreatePath(c, [SPACED]) == [A];
    AtTop(h, EMPTY_STATE.fs, A);
    var fs := map[MakeKey(0, A) := FolderRow(1, A)];
    AtTop(h, fs, A);
    AtTop(h, fs, SPACED);
    assert Nfkd(c, [SPACED]) == [SPACED] == ListPath(c, [SPACED]) && Nfkd(c, [A]) == [A];
    assert Walk(h, fs, [SPACED]) == Enter(h, fs, 0, SPACED);
  }
}
