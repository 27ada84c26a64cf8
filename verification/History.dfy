/** What holds over whole runs: ids are never reissued, objects cut off never come back, versions
    are frozen, and no upload alters a sealed blob. */
module History {
  import opened Wrappers
  import opened Keys
  import opened Store
  import opened Tree
  import opened Purging
  import opened Invariant
  import opened Changes
  import opened AbstractFs

  // ----- Ids -----

  /** A file without a row stays without one: its id is below the sequence and is not reissued. */
  lemma GoneForever(c: Config, s: State, call: Call, id: U64)
    requires Sound(c.rep) && id <= s.seqno && !HasRow(s.fs, id)
    ensures var s' := Step(c, s, call).0; s.seqno <= s'.seqno && !HasRow(s'.fs, id)
  {
    hide Step, Names;
    var _ := StepChange(c, s, call);
  }

  // ----- No resurrection -----

  ghost predicate FoundAt(h: Host, fs: Table, p: Path, id: U64)
  {
    Find(h, fs, p).Some? && Find(h, fs, p).value.id == id
  }

  /** Whatever a path leads to after a change is new, or some path led to it before. */
  lemma FoundBefore(h: Host, s: State, s': State, ch: Change, p: Path, id: U64) returns (q: Path)
    requires Forest(h, s.fs, s.seqno) && Changed(h, s, s', ch)
    requires FoundAt(h, s'.fs, p, id)
    ensures id > s.seqno || FoundAt(h, s.fs, q, id)
    ensures ch.Removed? ==> q == p && !(ch.path <= p)
  {
    q := p;
    match ch
    case Unchanged =>
    case Inserted(r, key) => FoundBeforeInsert(h, s, s', r, key, p, id);
    case Replaced(r, key) => FoundBeforeReplace(h, s, s', r, key, p, id);
    case Removed(r, key) =>
      OnePathPerKey(h, s.fs, r);
      FindAfterRemove(h, s.fs, r, key, p);
    case Rekeyed(r, key, dest, to) => q := FoundBeforeRekey(h, s, s', r, key, dest, to, p, id);
  }

  lemma FoundBeforeInsert(h: Host, s: State, s': State, r: Path, key: Bytes, p: Path, id: U64)
    requires Forest(h, s.fs, s.seqno) && Changed(h, s, s', Inserted(r, key)) && FoundAt(h, s'.fs, p, id)
    ensures id > s.seqno || FoundAt(h, s.fs, p, id)
  {
    OnePathPerKey(h, s.fs, r);
    LocatedParent(h, s.fs, s.seqno, r);
    ForestAfterInsert(h, s.fs, s.seqno, key, s'.fs[key]);
    FindAfterInsert(h, s.fs, r, key, s'.fs[key], p);
  }

  lemma FoundBeforeReplace(h: Host, s: State, s': State, r: Path, key: Bytes, p: Path, id: U64)
    requires DistinctIds(s.fs) && Changed(h, s, s', Replaced(r, key)) && FoundAt(h, s'.fs, p, id)
    ensures FoundAt(h, s.fs, p, id)
  {
    OnePathPerKey(h, s.fs, r);
    FindAfterReplace(h, s.fs, r, key, s'.fs[key], p);
  }

  lemma FoundBeforeRekey(
    h: Host, s: State, s': State, r: Path, key: Bytes, dest: Path, to: Bytes, p: Path, id: U64)
    returns (q: Path)
    requires DistinctIds(s.fs) && Changed(h, s, s', Rekeyed(r, key, dest, to)) && FoundAt(h, s'.fs, p, id)
    ensures FoundAt(h, s.fs, q, id)
  {
    OnePathPerKey(h, s.fs, r);
    OnePathPerKey(h, s.fs, dest);
    if r < dest {
      FindAfterMoveInside(h, s.fs, r, key, dest, to, s'.fs[to], p);
      q := p;
    } else {
      FindAfterMove(h, s.fs, r, key, dest, to, s'.fs[to], p);
      q := if p == dest then r else if dest <= p then r + p[|dest|..] else p;
    }
  }

  ghost predicate ReachableId(h: Host, fs: Table, id: U64)
  {
    exists p: Path :: FoundAt(h, fs, p, id)
  }

  /** An object that no path leads to stays unreachable in every later run: every path of every
      later state leads to an object that was reachable now, or that is newer. */
  lemma {:induction false} NoResurrection(c: Config, s: State, calls: seq<Call>, id: U64)
    requires Sound(c.rep) && Inv(c.host, s) && AdmissibleRun(c, s, calls)
    requires id <= s.seqno && !ReachableId(c.host, s.fs, id)
    ensures !ReachableId(c.host, Run(c, s, calls).fs, id) && id <= Run(c, s, calls).seqno
  {
    if calls != [] {
      var s1 := Run(c, s, Front(calls));
      NoResurrection(c, s, Front(calls), id);
      RunKeeps(c, s, Front(calls));
      var ch := StepChange(c, s1, Last(calls));
      var s' := Step(c, s1, Last(calls)).0;
      if ReachableId(c.host, s'.fs, id) {
        var p: Path :| FoundAt(c.host, s'.fs, p, id);
        var q := FoundBefore(c.host, s1, s', ch, p, id);
        assert ReachableId(c.host, s1.fs, id);
      }
    }
  }

  lemma DeleteCutsOff(c: Config, s: State, path: Path, expected: Option<U64>, below: Path)
    requires c.rep.finishDelete && Forest(c.host, s.fs, s.seqno)
    requires Delete(c, s, path, expected).1 == Done
    requires Nfkd(c, path) <= below && Find(c.host, s.fs, below).Some?
    ensures !ReachableId(c.host, Delete(c, s, path, expected).0.fs, Find(c.host, s.fs, below).value.id)
  {
    var s', id := Delete(c, s, path, expected).0, Find(c.host, s.fs, below).value.id;
    var ch := DeleteChange(c, s, path, expected);
    forall p: Path | FoundAt(c.host, s'.fs, p, id)
      ensures false
    {
      var q := FoundBefore(c.host, s, s', ch, p, id);
      assert id <= s.seqno;
      OnePathPerObject(c.host, s.fs, q, below);
    }
  }

  /** Once a folder has been deleted, nothing that was below it is ever reached again, although
      its rows are still in the table. */
  lemma DeletedStaysDeleted(c: Config, s: State, path: Path, expected: Option<U64>, calls: seq<Call>, below: Path)
    requires Sound(c.rep) && Inv(c.host, s)
    requires Delete(c, s, path, expected).1 == Done
    requires AdmissibleRun(c, Delete(c, s, path, expected).0, calls)
    requires Nfkd(c, path) <= below && Find(c.host, s.fs, below).Some?
    ensures var s' := Delete(c, s, path, expected).0;
            !ReachableId(c.host, Run(c, s', calls).fs, Find(c.host, s.fs, below).value.id)
  {
    var id := Find(c.host, s.fs, below).value.id;
    assert id <= s.seqno && Delete(c, s, path, expected).0.seqno == s.seqno;
    DeleteCutsOff(c, s, path, expected, below);
    DeleteKeeps(c, s, path, expected);
    NoResurrection(c, Delete(c, s, path, expected).0, calls, id);
  }

  // ----- Frozen versions -----

  /** Blobs that exist are still there and have at most grown. */
  ghost predicate Grew(blobs: Files, blobs': Files, u: Ulid)
  {
    u in blobs ==> u in blobs' && blobs[u] <= blobs'[u]
  }

  /** The version is still there, in the same blob, and the blob has at most grown. */
  ghost predicate Kept(s: State, s': State, iv: (U64, U64))
  {
    && iv in s.ver && iv in s'.ver && s'.ver[iv] == s.ver[iv]
    && (s.ver[iv].blob.Some? ==> Grew(s.blobs, s'.blobs, s.ver[iv].blob.value))
  }

  ghost predicate AllKept(s: State, s': State)
  {
    forall iv :: iv in s.ver ==> Kept(s, s', iv)
  }

  lemma PutVersionKept(h: Host, s: State, key: Bytes, u: Ulid, name: Bytes, v: Version)
    requires Forest(h, s.fs, s.seqno) && Owned(s.fs, s.ver) && Dense(s.fs, s.ver)
    requires LastNumber(s, key) + 1 < U64_LIMIT && (key in s.fs ==> s.fs[key].kind == VersionBlob)
    ensures AllKept(s, PutVersion(s, key, u, name, v))
  {
    if key in s.fs {
      assert DenseAt(s.ver, s.fs[key]);
    } else {
      NoVersionsYet(h, s, s.seqno + 1);
    }
  }

  lemma KeptTwice(s: State, s1: State, s2: State)
    requires AllKept(s, s1) && AllKept(s1, s2)
    ensures AllKept(s, s2)
  {
    forall iv | iv in s.ver
      ensures Kept(s, s2, iv)
    {
      assert Kept(s, s1, iv) && Kept(s1, s2, iv);
    }
  }

  lemma SealKept(s: State, r: UploadArg, u: Ulid, sealed: Ulid)
    requires u in s.blobs && Unnamed(s.ver, u) && sealed !in s.blobs
    ensures AllKept(s, Seal(s, r, u, sealed))
  {
  }

  lemma FinishUploadKept(c: Config, s: State, r: UploadArg, u: Ulid, sealed: Ulid)
    requires Forest(c.host, s.fs, s.seqno) && Owned(s.fs, s.ver) && Dense(s.fs, s.ver)
    requires r.path != [] && u in s.blobs && |r.data| <= MAX_FILE && Unnamed(s.ver, u) && sealed !in s.blobs
    ensures AllKept(s, FinishUpload(c, s, r, u, sealed).0)
  {
    hide Seal, SealedRow, PutVersion, Dense, Owned, Forest, Locate;
    var (s', reply) := FinishUpload(c, s, r, u, sealed);
    if reply == Done {
      var s1, v, name := Seal(s, r, u, sealed), SealedRow(r, u, sealed), StoredName(c, r.path);
      var key := Locate(c.host, s.fs, CreatePath(c, r.path)).value;
      SealKept(s, r, u, sealed);
      PutVersionKept(c.host, s1, key, u, name, v);
      KeptTwice(s, s1, PutVersion(s1, key, u, name, v));
    }
  }

  lemma UploadKept(c: Config, s: State, r: UploadArg, minted: Ulid, sealed: Ulid)
    requires Inv(c.host, s) && Admissible(s, UploadCall(r, minted, sealed))
    ensures AllKept(s, Upload(c, s, r, minted, sealed).0)
  {
    hide FinishUpload;
    if r.path != [] && TokenName(r.continuation, minted).Some? {
      var u := TokenName(r.continuation, minted).value;
      UnheldIsUnnamed(s, u);
      var (s1, written) := Write(s, u, r.data);
      assert AllKept(s, s1);
      if written && !r.incomplete {
        FinishUploadKept(c, s1, r, u, sealed);
        KeptTwice(s, s1, FinishUpload(c, s1, r, u, sealed).0);
      }
    }
  }

  lemma AppendKept(c: Config, s: State, path: Path, expected: Option<U64>, data: Bytes)
    requires Dense(s.fs, s.ver) && c.rep.writeAppend
    ensures AllKept(s, Append(c, s, path, expected, data).0)
  {
    if Append(c, s, path, expected, data).0 != s {
      AppendToKept(s, FindFile(c, s, path).value, data);
    }
  }

  lemma AppendToKept(s: State, key: Bytes, data: Bytes)
    requires Dense(s.fs, s.ver)
    requires key in s.fs && (s.fs[key].id, s.fs[key].latest) in s.ver
    ensures AllKept(s, AppendTo(true, s, key, data).0)
  {
    assert DenseAt(s.ver, s.fs[key]);
  }

  lemma CopyKept(c: Config, s: State, path: Path, destination: Path, minted: Ulid)
    requires NewUlid(s, minted)
    ensures AllKept(s, Copy(c, s, path, destination, minted).0)
  {
    if path != [] && destination != [] {
      var src, dest := Locate(c.host, s.fs, Nfkd(c, path)), Locate(c.host, s.fs, Nfkd(c, destination));
      if src.Ok? && dest.Ok? && src.value in s.fs {
        CopyRowKept(c.rep.cloneName, s, s.fs[src.value], dest.value, Last(destination), minted);
      }
    }
  }

  lemma CopyRowKept(byName: bool, s: State, record: Record, key: Bytes, name: Bytes, minted: Ulid)
    requires NewUlid(s, minted)
    ensures AllKept(s, CopyRow(byName, s, record, key, name, minted).0)
  {
  }

  /** Purging one file keeps the versions of every other. */
  lemma PurgeKept(s: State, key: Bytes, iv: (U64, U64))
    requires VersionInv(s) && key in s.fs && iv in s.ver && iv.0 != s.fs[key].id
    ensures var p := Purge(true, s.ver, s.blobs, s.fs[key].id, s.fs[key].latest);
            Kept(s, s.(fs := s.fs - {key}, ver := p.ver, blobs := p.blobs), iv)
  {
    var r := s.fs[key];
    SkippingFinishes(s.ver, s.blobs, r.id, r.latest);
    PurgeKeepsOthers(true, s.ver, s.blobs, r.id, r.latest);
    PurgeRemovesVersions(true, s.ver, s.blobs, r.id, r.latest);
  }

  /** A delete removes versions of one file only, and that file's row with them. */
  lemma DeleteKept(c: Config, s: State, path: Path, expected: Option<U64>, iv: (U64, U64))
    requires Inv(c.host, s) && c.rep.finishDelete && iv in s.ver
    ensures var s' := Delete(c, s, path, expected).0;
            Kept(s, s', iv) || !HasRow(s'.fs, iv.0)
  {
    hide Locate, IdsUpTo, Walk;
    if FindFile(c, s, path).Ok? {
      var key := FindFile(c, s, path).value;
      SkippingFinishes(s.ver, s.blobs, s.fs[key].id, s.fs[key].latest);
      if iv.0 == s.fs[key].id {
        assert !HasRow(s.fs - {key}, iv.0);
      } else if s.fs[key].kind == VersionBlob {
        PurgeKept(s, key, iv);
      }
    }
  }

  /** make_directory and move touch neither versions nor blobs. */
  lemma TreeCallsKept(c: Config, s: State, call: Call)
    requires call.MakeDirectoryCall? || call.MoveCall?
    ensures AllKept(s, Step(c, s, call).0)
  {
    hide Locate, Delete, Upload, Append, Copy;
    var s' := Step(c, s, call).0;
    assert s'.ver == s.ver && s'.blobs == s.blobs;
  }

  /** One call keeps a version, unless it deletes its file. */
  lemma StepKept(c: Config, s: State, call: Call, iv: (U64, U64))
    requires Sound(c.rep) && Inv(c.host, s) && Admissible(s, call) && iv in s.ver
    ensures var s' := Step(c, s, call).0;
            Kept(s, s', iv) || !HasRow(s'.fs, iv.0)
  {
    match call
    case UploadCall(arg, minted, sealed) => UploadKept(c, s, arg, minted, sealed);
    case AppendCall(path, expected, data) => AppendKept(c, s, path, expected, data);
    case DeleteCall(path, expected) => DeleteKept(c, s, path, expected, iv);
    case CopyCall(path, destination, minted) => CopyKept(c, s, path, destination, minted);
    case _ => TreeCallsKept(c, s, call);
  }

  /** Versions are frozen: over any run, a version of known length reads the same bytes in every
      later state, until its file is deleted, although appends extend the blob it shares. */
  lemma {:induction false} VersionsAreFrozen(c: Config, s: State, calls: seq<Call>, iv: (U64, U64))
    requires Sound(c.rep) && Inv(c.host, s) && AdmissibleRun(c, s, calls)
    requires iv in s.ver && s.ver[iv].length != UNKNOWN_SIZE
    ensures var s' := Run(c, s, calls);
            && iv.0 <= s'.seqno
            && (HasRow(s'.fs, iv.0) ==>
                  && iv in s'.ver && s'.ver[iv] == s.ver[iv]
                  && ReadVersion(s'.ver, s'.blobs, iv.0, iv.1) == ReadVersion(s.ver, s.blobs, iv.0, iv.1))
  {
    if calls == [] {
      assert HasRow(s.fs, iv.0);
    } else {
      var s1 := Run(c, s, Front(calls));
      VersionsAreFrozen(c, s, Front(calls), iv);
      RunKeeps(c, s, Front(calls));
      if HasRow(s1.fs, iv.0) {
        StepKept(c, s1, Last(calls), iv);
        SameReading(s1, Step(c, s1, Last(calls)).0, iv);
        SeqnoGrows(c, s1, Last(calls));
      } else {
        GoneForever(c, s1, Last(calls), iv.0);
      }
    }
  }

  lemma SeqnoGrows(c: Config, s: State, call: Call)
    requires Sound(c.rep)
    ensures s.seqno <= Step(c, s, call).0.seqno
  {
    hide Step, Names;
    var _ := StepChange(c, s, call);
  }

  lemma SameReading(s: State, s': State, iv: (U64, U64))
    requires iv in s.ver && HeldAt(s.ver[iv], s.blobs, s.issued) && s.ver[iv].length != UNKNOWN_SIZE
    ensures Kept(s, s', iv) ==>
              ReadVersion(s'.ver, s'.blobs, iv.0, iv.1) == ReadVersion(s.ver, s.blobs, iv.0, iv.1)
  {
    if Kept(s, s', iv) {
      var u, n := s.ver[iv].blob.value, s.ver[iv].length;
      assert s'.blobs[u][..n] == s.blobs[u][..n];
    }
  }

  // ----- Sealed blobs -----

  /** Finishing an upload renames a blob that no version names and adds one version row, so every
      version that was there reads the same. */
  lemma FinishUploadSameReadings(c: Config, s: State, r: UploadArg, u: Ulid, sealed: Ulid, iv: (U64, U64))
    requires Forest(c.host, s.fs, s.seqno) && Owned(s.fs, s.ver) && Dense(s.fs, s.ver)
    requires r.path != [] && u in s.blobs && |r.data| <= MAX_FILE && Unnamed(s.ver, u) && Unnamed(s.ver, sealed)
    requires iv in s.ver
    ensures var s' := FinishUpload(c, s, r, u, sealed).0;
            ReadVersion(s'.ver, s'.blobs, iv.0, iv.1) == ReadVersion(s.ver, s.blobs, iv.0, iv.1)
  {
    hide SealedRow, Dense, Owned, Forest, Locate, PutVersion, Unnamed;
    if FinishUpload(c, s, r, u, sealed).1 == Done {
      var s1, v, name := Seal(s, r, u, sealed), SealedRow(r, u, sealed), StoredName(c, r.path);
      var key := Locate(c.host, s.fs, CreatePath(c, r.path)).value;
      SealSameReading(s, r, u, sealed, iv);
      PutVersionKept(c.host, s1, key, u, name, v);
      PutVersionFiles(s1, key, u, name, v);
    }
  }

  lemma PutVersionFiles(s: State, key: Bytes, u: Ulid, name: Bytes, v: Version)
    requires LastNumber(s, key) + 1 < U64_LIMIT
    ensures PutVersion(s, key, u, name, v).blobs == s.blobs
  {
  }

  lemma SealSameReading(s: State, r: UploadArg, u: Ulid, sealed: Ulid, iv: (U64, U64))
    requires u in s.blobs && Unnamed(s.ver, u) && Unnamed(s.ver, sealed) && iv in s.ver
    ensures ReadVersion(s.ver, Seal(s, r, u, sealed).blobs, iv.0, iv.1) == ReadVersion(s.ver, s.blobs, iv.0, iv.1)
  {
  }

  /** An upload alters no version that is already there, not even one that arrived in fragments
      itself, unless the token that it presents is the name of some version's blob. */
  lemma UploadAltersOnlyNamed(c: Config, s: State, r: UploadArg, minted: Ulid, sealed: Ulid, iv: (U64, U64))
    requires Inv(c.host, s) && NewUlid(s, minted) && NewUlid(s, sealed) && iv in s.ver
    requires |r.continuation| == 16 ==> Unnamed(s.ver, TokenUlid(r.continuation))
    ensures var s' := Upload(c, s, r, minted, sealed).0;
            ReadVersion(s'.ver, s'.blobs, iv.0, iv.1) == ReadVersion(s.ver, s.blobs, iv.0, iv.1)
  {
    hide FinishUpload;
    UnheldIsUnnamed(s, minted);
    UnheldIsUnnamed(s, sealed);
    if r.path != [] && TokenName(r.continuation, minted).Some? {
      var u := TokenName(r.continuation, minted).value;
      var (s1, written) := Write(s, u, r.data);
      assert ReadVersion(s1.ver, s1.blobs, iv.0, iv.1) == ReadVersion(s.ver, s.blobs, iv.0, iv.1);
      if written && !r.incomplete {
        FinishUploadSameReadings(c, s1, r, u, sealed, iv);
      }
    }
  }

  /** And no token that was issued is, so no upload that presents one alters a version. */
  lemma UploadsNeverAlter(c: Config, s: State, r: UploadArg, minted: Ulid, sealed: Ulid, iv: (U64, U64))
    requires Inv(c.host, s) && Admissible(s, UploadCall(r, minted, sealed)) && iv in s.ver
    ensures var s' := Upload(c, s, r, minted, sealed).0;
            ReadVersion(s'.ver, s'.blobs, iv.0, iv.1) == ReadVersion(s.ver, s.blobs, iv.0, iv.1)
  {
    hide Upload;
    if |r.continuation| == 16 {
      UnheldIsUnnamed(s, TokenUlid(r.continuation));
    }
    UploadAltersOnlyNamed(c, s, r, minted, sealed, iv);
  }
}
