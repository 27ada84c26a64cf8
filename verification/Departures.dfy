/** Where the code as written departs from what it promises: for each departure, exactly when a
    call is affected, and what is lost. */
module Departures {
  import opened Wrappers
  import opened Keys
  import opened Store
  import opened Tree
  import opened Purging
  import opened Invariant
  import opened Changes
  import opened AbstractFs

  // ----- upload refuses to replace the record it is asked to replace -----

  /** Unrepaired, the tables' part of an upload succeeds exactly at a free path: asking for the
      next version of an existing file always fails. */
  lemma UploadSucceedsIff(c: Config, s: State, r: UploadArg, u: Ulid, sealed: Ulid)
    requires r.path != [] && u in s.blobs && |r.data| <= MAX_FILE
    ensures var located := Locate(c.host, s.fs, CreatePath(c, r.path));
            FinishUpload(c, s, r, u, sealed).1 == Done <==>
            && located.Ok? && LastNumber(s, located.value) + 1 < U64_LIMIT
            && (located.value in s.fs ==>
                  c.rep.acceptNext && r.next && s.fs[located.value].kind == VersionBlob)
  {
  }

  // ----- append writes its bytes but commits no version -----

  lemma FixedPrefix(b: Bytes, data: Bytes, n: nat)
    requires n <= |b|
    ensures (b + data)[..n] == b[..n]
  {
  }

  /** Unrepaired, an append that reports success changes no table, so it shows in no version of
      known length. */
  lemma UncommittedAppendIsLost(c: Config, s: State, path: Path, expected: Option<U64>, data: Bytes, iv: (U64, U64))
    requires !c.rep.writeAppend && Append(c, s, path, expected, data).1 == Done
    requires iv in s.ver && HeldAt(s.ver[iv], s.blobs, s.issued) && s.ver[iv].length != UNKNOWN_SIZE
    ensures var s' := Append(c, s, path, expected, data).0;
            && TablesSame(s, s')
            && ReadVersion(s'.ver, s'.blobs, iv.0, iv.1) == ReadVersion(s.ver, s.blobs, iv.0, iv.1)
  {
    hide FindFile;
    FixedPrefix(s.blobs[s.ver[iv].blob.value], data, s.ver[iv].length);
  }

  /** And the cached length then still agrees with the file on disk exactly when nothing was
      appended, or no length was cached. */
  lemma UncommittedAppendKeepsWholeIff(s: State, key: Bytes, data: Bytes)
    requires VersionInv(s) && DistinctIds(s.fs) && key in s.fs && (s.fs[key].id, s.fs[key].latest) in s.ver
    requires AppendTo(false, s, key, data).1 == Done
    ensures var s' := AppendTo(false, s, key, data).0;
            Whole(s'.fs, s'.ver, s'.blobs) <==>
            data == [] || s.ver[(s.fs[key].id, s.fs[key].latest)].length == UNKNOWN_SIZE
  {
    var (r, s') := (s.fs[key], AppendTo(false, s, key, data).0);
    var v := s.ver[(r.id, r.latest)];
    assert DenseAt(s.ver, r) && WholeAt(r, s.ver, s.blobs) && HeldAt(v, s.blobs, s.issued);
    WriteToLatest(s, key, data);
    if data == [] {
      assert s.blobs[v.blob.value] + data == s.blobs[v.blob.value];
    }
    forall k | k in s.fs && k != key
      ensures WholeAt(s.fs[k], s'.ver, s'.blobs)
    {
      assert k in s.fs - {key} && (s.fs - {key})[k] == s.fs[k];
    }
    assert WholeAt(r, s'.ver, s'.blobs) <==> data == [] || v.length == UNKNOWN_SIZE;
  }

  // ----- delete removes blobs but commits nothing -----

  /** Unrepaired, deleting a file succeeds exactly when the blob of each of its versions is there,
      and no two of them share one: the strict removal of a blob that is gone ends the call. */
  lemma DeleteSucceedsIff(c: Config, s: State, path: Path, expected: Option<U64>)
    requires !c.rep.finishDelete && FindFile(c, s, path).Ok?
    requires var r := s.fs[FindFile(c, s, path).value];
             r.kind == VersionBlob && (expected.Some? ==> expected.value == r.latest)
    ensures var r := s.fs[FindFile(c, s, path).value];
            Delete(c, s, path, expected).1 == Done <==> Removable(s.ver, s.blobs, r.id, r.latest)
  {
    hide Locate, Purge;
    var r := s.fs[FindFile(c, s, path).value];
    StrictFinishesIff(s.ver, s.blobs, r.id, r.latest);
  }

  /** From a state that satisfies the invariant, where no blob is missing, only sharing is left. */
  lemma DeleteSucceedsIffUnshared(c: Config, s: State, path: Path, expected: Option<U64>)
    requires !c.rep.finishDelete && VersionInv(s) && FindFile(c, s, path).Ok?
    requires var r := s.fs[FindFile(c, s, path).value];
             r.kind == VersionBlob && (expected.Some? ==> expected.value == r.latest)
    ensures var r := s.fs[FindFile(c, s, path).value];
            Delete(c, s, path, expected).1 == Done <==>
            forall v: U64, w: U64 :: 1 <= v < w <= r.latest ==> s.ver[(r.id, v)].blob != s.ver[(r.id, w)].blob
  {
    hide Locate, Purge;
    var r := s.fs[FindFile(c, s, path).value];
    assert DenseAt(s.ver, r);
    DeleteSucceedsIff(c, s, path, expected);
    assert forall v: U64 :: 1 <= v <= r.latest ==> HeldAt(s.ver[(r.id, v)], s.blobs, s.issued);
  }

  /** And then the rows are all still there, but none of the file's versions can be read. */
  lemma DeletedFileIsUnreadable(c: Config, s: State, path: Path, expected: Option<U64>, v: U64)
    requires !c.rep.finishDelete && Delete(c, s, path, expected).1 == Done
    requires var r := s.fs[FindFile(c, s, path).value];
             r.kind == VersionBlob && v <= r.latest
    ensures var (r, s') := (s.fs[FindFile(c, s, path).value], Delete(c, s, path, expected).0);
            TablesSame(s, s') && ReadVersion(s'.ver, s'.blobs, r.id, v) == Unreadable
  {
    var r := s.fs[FindFile(c, s, path).value];
    if (r.id, v) in s.ver && s.ver[(r.id, v)].blob.Some? {
      assert NamedUpTo(s.ver, r.id, r.latest, s.ver[(r.id, v)].blob.value);
      PurgeRemovesBlobs(false, s.ver, s.blobs, r.id, r.latest, s.ver[(r.id, v)].blob.value);
    }
  }

  /** A delete that fails has changed no table, but it has removed blobs all the same, from the latest
      version down: that of the latest version, unless it was missing already. */
  lemma FailedDeleteRemovesLatest(c: Config, s: State, path: Path, expected: Option<U64>, u: Ulid)
    requires FindFile(c, s, path).Ok? && Delete(c, s, path, expected).1 == Failed(Io)
    requires var r := s.fs[FindFile(c, s, path).value]; BlobOf(s.ver, r.id, r.latest) == Some(u) && u in s.blobs
    ensures TablesSame(s, Delete(c, s, path, expected).0) && u !in Delete(c, s, path, expected).0.blobs
  {
    hide FindFile;
    var r := s.fs[FindFile(c, s, path).value];
    if r.latest > 0 {
      PurgeShrinks(c.rep.finishDelete, s.ver - {(r.id, r.latest)}, s.blobs - {u}, r.id, r.latest - 1);
    }
  }

  // ----- move accepts a destination inside what it moves -----

  /** Unrepaired, such a move makes the whole subtree disappear. */
  lemma MoveInsideLosesSubtree(c: Config, s: State, path: Path, expected: Option<U64>, destination: Path)
    requires DistinctIds(s.fs) && Nfkd(c, path) < Nfkd(c, destination)
    requires Move(c, s, path, expected, destination).1 == Done
    ensures View(c.host, Move(c, s, path, expected, destination).0) == Pruned(View(c.host, s), Nfkd(c, path))
  {
    hide Walk;
    var s' := Move(c, s, path, expected, destination).0;
    var ch := MoveChange(c, s, path, expected, destination);
    OnePathPerKey(c.host, s.fs, ch.path);
    OnePathPerKey(c.host, s.fs, ch.dest);
    forall q: Path
      ensures At(c.host, s', q) == if ch.path <= q then None else At(c.host, s, q)
    {
      FindAfterMoveInside(c.host, s.fs, ch.path, ch.key, ch.dest, ch.to, s'.fs[ch.to], q);
    }
    ViewIs(c.host, s', Pruned(View(c.host, s), ch.path));
  }

  // ----- copy looks for a plain blob's file under the wrong name -----

  /** When a copy succeeds: a plain blob can be copied only if the file that copy opens is there.
      Unrepaired, that is the file whose name is the blob's number in decimal, which is hardly ever
      a name at all (`BlobNames.NumberNamesFileIff`). */
  lemma CopySucceedsIff(c: Config, s: State, path: Path, destination: Path, minted: Ulid)
    requires path != [] && destination != []
    ensures var (src, dest) := (FindFile(c, s, path), Locate(c.host, s.fs, Nfkd(c, destination)));
            Copy(c, s, path, destination, minted).1 == Done <==>
            && src.Ok? && dest.Ok? && dest.value !in s.fs && s.seqno + 1 < U64_LIMIT
            && var r := s.fs[src.value];
               r.kind in {VersionBlob, Symlink} || (Cloned(r.kind) && CanClone(c.rep.cloneName, s, r))
  {
    hide Locate;
  }

  /** The file that copy opens for a plain blob, by its name on disk: as written the blob's number in
      decimal, repaired its ULID. */
  lemma CanCloneIff(byName: bool, s: State, record: Record)
    ensures CanClone(byName, s, record) <==>
            exists u :: u in s.blobs &&
              BlobNames.UlidName(u) ==
              if byName then BlobNames.UlidName(record.blob) else BlobNames.NumberName(record.blob)
  {
    if CanClone(byName, s, record) {
      BlobNames.NumberNamesFileIff(record.blob, ClonedFile(byName, record.blob).value);
    }
    forall u | u in s.blobs
      ensures BlobNames.UlidName(u) ==
              (if byName then BlobNames.UlidName(record.blob) else BlobNames.NumberName(record.blob)) ==>
                CanClone(byName, s, record)
    {
      BlobNames.UlidNameInjective(u, record.blob);
      BlobNames.NumberNamesFileIff(record.blob, u);
    }
  }

  /** A plain blob that can be copied is copied whole, under the new name. */
  lemma CopyClonesContents(c: Config, s: State, path: Path, destination: Path, minted: Ulid)
    requires Copy(c, s, path, destination, minted).1 == Done && FindFile(c, s, path).Ok?
    requires Cloned(s.fs[FindFile(c, s, path).value].kind)
    ensures var s' := Copy(c, s, path, destination, minted).0;
            exists u :: u in s.blobs && ClonedFile(c.rep.cloneName, s.fs[FindFile(c, s, path).value].blob) == Some(u)
              && s'.blobs == s.blobs[minted := s.blobs[u]]
  {
    hide Locate;
  }

  /** Repaired, it never is: only copy makes plain blobs, and it copies no contents of versioned
      ones. So in every state of every run, copying a copy fails. */
  lemma PlainBlobsAreNeverCopied(c: Config, calls: seq<Call>, path: Path, destination: Path, minted: Ulid)
    requires c.rep.cloneName && AdmissibleRun(c, EMPTY_STATE, calls) && path != [] && destination != []
    ensures var s := Run(c, EMPTY_STATE, calls);
            FindFile(c, s, path).Ok? && Cloned(s.fs[FindFile(c, s, path).value].kind) ==>
              Copy(c, s, path, destination, minted).1 != Done
  {
    hide Copy;
    InitiallyInv(c.host);
    RunKeepsHollow(c, EMPTY_STATE, calls);
    CopySucceedsIff(c, Run(c, EMPTY_STATE, calls), path, destination, minted);
  }

  // ----- names are normalised in different ways -----

  lemma NewRow(c: Config, s: State, path: Path) returns (key: Bytes)
    requires MakeDirectory(c, s, path).1 == Done
    ensures path != []
    ensures var s' := MakeDirectory(c, s, path).0;
            && Names(c.host, s.fs, CreatePath(c, path), key) && key !in s.fs && key in s'.fs
            && s.seqno + 1 < U64_LIMIT && s'.fs[key].id == s.seqno + 1 && s'.fs[key].kind == Folder
            && s'.fs == s.fs[key := s'.fs[key]]
            && (!c.rep.storeSequence ==> s'.seqno == s.seqno)
  {
    key := Locate(c.host, s.fs, CreatePath(c, path)).value;
  }

  /** The two paths end in one name, in one folder. */
  ghost predicate SamePlace(h: Host, fs: Table, p: Path, q: Path)
  {
    p != [] && q != [] && Last(p) == Last(q) && Walk(h, fs, Front(p)) == Walk(h, fs, Front(q))
  }

  lemma FoundAtKeyIff(c: Config, s: State, p: Path, key: Bytes, asked: Path)
    requires p != [] && Locate(c.host, s.fs, p) == Ok(key) && key in s.fs
    ensures FindFile(c, s, asked) == Ok(key) <==> SamePlace(c.host, s.fs, p, Nfkd(c, asked))
    ensures DistinctIds(s.fs) ==> (SamePlace(c.host, s.fs, p, Nfkd(c, asked)) <==> Nfkd(c, asked) == p)
  {
    var q := Nfkd(c, asked);
    if q != [] && Walk(c.host, s.fs, Front(q)).Ok? {
      MakeKeyInjective(
        Walk(c.host, s.fs, Front(p)).value, Last(p), Walk(c.host, s.fs, Front(q)).value, Last(q));
    }
    if DistinctIds(s.fs) {
      OnePathPerKey(c.host, s.fs, p);
    }
  }

  /** A walk that succeeds is not disturbed by a row at a free key, or by one for the same object. */
  lemma {:induction false} WalkStill(h: Host, fs: Table, p: Path, key: Bytes, r: Record)
    requires key in fs ==> r.id == fs[key].id && r.kind == fs[key].kind
    requires Walk(h, fs, p).Ok?
    ensures Walk(h, fs[key := r], p) == Walk(h, fs, p)
  {
    if p != [] {
      WalkStill(h, fs, Front(p), key, r);
    }
  }

  /** A directory just made is the object that append, download, delete, move or copy find under a
      path exactly when, in their form of that path and make_directory's form of its own, the two end
      in one name in one folder. Where ids are distinct that means that the two forms are the same;
      where folders share an id it does not. */
  lemma NewDirectoryIsFoundIff(c: Config, s: State, path: Path, asked: Path)
    requires MakeDirectory(c, s, path).1 == Done
    ensures path != [] && Locate(c.host, s.fs, CreatePath(c, path)).Ok?
    ensures var (s', p, q) := (MakeDirectory(c, s, path).0, CreatePath(c, path), Nfkd(c, asked));
            && (FindFile(c, s', asked) == Ok(Locate(c.host, s.fs, p).value) <==> SamePlace(c.host, s'.fs, p, q))
            && (DistinctIds(s'.fs) ==> (SamePlace(c.host, s'.fs, p, q) <==> q == p))
  {
    hide MakeDirectory, FindFile, SamePlace, DistinctIds;
    var key := NewRow(c, s, path);
    var s', p := MakeDirectory(c, s, path).0, CreatePath(c, path);
    WalkStill(c.host, s.fs, Front(p), key, s'.fs[key]);
    FoundAtKeyIff(c, s', p, key, asked);
  }

  /** The same for a file just uploaded, new or not. */
  lemma UploadIsFoundIff(c: Config, s: State, r: UploadArg, minted: Ulid, sealed: Ulid, asked: Path)
    requires Upload(c, s, r, minted, sealed).1 == Done
    ensures r.path != [] && Locate(c.host, s.fs, CreatePath(c, r.path)).Ok?
    ensures var (s', p, q) := (Upload(c, s, r, minted, sealed).0, CreatePath(c, r.path), Nfkd(c, asked));
            && (FindFile(c, s', asked) == Ok(Locate(c.host, s.fs, p).value) <==> SamePlace(c.host, s'.fs, p, q))
            && (DistinctIds(s'.fs) ==> (SamePlace(c.host, s'.fs, p, q) <==> q == p))
  {
    hide Upload, FindFile, SamePlace, DistinctIds;
    var s' := Upload(c, s, r, minted, sealed).0;
    var ch := UploadChange(c, s, r, minted, sealed);
    WalkStill(c.host, s.fs, Front(ch.path), ch.key, s'.fs[ch.key]);
    FoundAtKeyIff(c, s', ch.path, ch.key, asked);
  }

  /** A directory just made can be listed under the path it was made with exactly when composing all
      components of that path leads to a folder with the new id. It does if that gives the raw parents
      and the trimmed, decomposed name; where ids are distinct, only then. */
  lemma NewDirectoryIsListedIff(c: Config, s: State, path: Path)
    requires MakeDirectory(c, s, path).1 == Done
    ensures s.seqno + 1 < U64_LIMIT
    ensures var (s', listed) := (MakeDirectory(c, s, path).0, ListPath(c, path));
            var found := Find(c.host, s'.fs, listed);
            && (Walk(c.host, s'.fs, listed) == Ok(KeyId(c.host, s.seqno + 1)) <==>
                  found.Some? && found.value.kind == Folder && found.value.id == s.seqno + 1)
            && (listed == CreatePath(c, path) ==> Walk(c.host, s'.fs, listed) == Ok(KeyId(c.host, s.seqno + 1)))
            && (DistinctIds(s'.fs) && Walk(c.host, s'.fs, listed) == Ok(KeyId(c.host, s.seqno + 1)) ==>
                  listed == CreatePath(c, path))
  {
    hide MakeDirectory, Walk, DistinctIds, KeyId;
    var key := NewRow(c, s, path);
    var s', p, listed := MakeDirectory(c, s, path).0, CreatePath(c, path), ListPath(c, path);
    WalkStill(c.host, s.fs, Front(p), key, s'.fs[key]);
    assert Find(c.host, s'.fs, p) == Some(s'.fs[key]);
    WalkIsFind(c.host, s'.fs, p);
    WalkIsFind(c.host, s'.fs, listed);
    KeyIdOfRoot(c.host);
    KeyIdInjective(c.host, s.seqno + 1, 0);
    if Find(c.host, s'.fs, listed).Some? {
      KeyIdInjective(c.host, s.seqno + 1, Find(c.host, s'.fs, listed).value.id);
    }
    if DistinctIds(s'.fs) && Walk(c.host, s'.fs, listed) == Ok(KeyId(c.host, s.seqno + 1)) {
      OnePathPerFolder(c.host, s'.fs, listed, p);
    }
  }
}
