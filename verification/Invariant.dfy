/** What every call keeps, in every state that a run can reach. */
module Invariant {
  import opened Wrappers
  import opened Keys
  import opened Store
  import opened Tree
  import opened Purging

  /** The versions of a versioned blob are exactly 1..latest; no other object has any. */
  ghost predicate DenseAt(ver: Versions, r: Record)
  {
    if r.kind == VersionBlob then
      r.latest >= 1 && forall v: U64 :: (r.id, v) in ver <==> 1 <= v <= r.latest
    else
      forall v: U64 :: (r.id, v) !in ver
  }

  ghost predicate Dense(fs: Table, ver: Versions)
  {
    forall k :: k in fs ==> DenseAt(ver, fs[k])
  }

  ghost predicate HasRow(fs: Table, id: int)
  {
    exists k :: k in fs && fs[k].id == id
  }

  /** No version outlives the row of its file. */
  ghost predicate Owned(fs: Table, ver: Versions)
  {
    forall iv :: iv in ver ==> HasRow(fs, iv.0)
  }

  /** A version's blob file exists, is at least as long as the version pretends, and is not named
      by any continuation token. */
  ghost predicate HeldAt(v: Version, blobs: Files, issued: set<Ulid>)
  {
    && v.blob.Some? && v.blob.value in blobs && v.blob.value !in issued
    && (v.length != UNKNOWN_SIZE ==> v.length <= |blobs[v.blob.value]|)
  }

  ghost predicate Held(ver: Versions, blobs: Files, issued: set<Ulid>)
  {
    forall iv :: iv in ver ==> HeldAt(ver[iv], blobs, issued)
  }

  /** No two files share a blob. */
  ghost predicate Disjoint(ver: Versions)
  {
    forall a, b :: a in ver && b in ver && ver[a].blob == ver[b].blob ==> a.0 == b.0
  }

  /** The latest version of a file, when its length is known, is its whole blob: the length that
      append caches is the length of the file on disk. (A file whose version numbers are used up
      is exempt: its blob can still grow, but no version will ever be added.) */
  ghost predicate WholeAt(r: Record, ver: Versions, blobs: Files)
  {
    r.kind == VersionBlob && (r.id, r.latest) in ver && r.latest + 1 < U64_LIMIT ==>
      var v := ver[(r.id, r.latest)];
      v.length != UNKNOWN_SIZE && v.blob.Some? && v.blob.value in blobs ==> v.length == |blobs[v.blob.value]|
  }

  ghost predicate Whole(fs: Table, ver: Versions, blobs: Files)
  {
    forall k :: k in fs ==> WholeAt(fs[k], ver, blobs)
  }

  ghost predicate FileSizes(blobs: Files)
  {
    forall u :: u in blobs ==> |blobs[u]| <= MAX_FILE
  }

  ghost predicate VersionInv(s: State)
  {
    && Dense(s.fs, s.ver) && Owned(s.fs, s.ver)
    && Held(s.ver, s.blobs, s.issued) && Disjoint(s.ver)
    && Whole(s.fs, s.ver, s.blobs) && FileSizes(s.blobs)
  }

  ghost predicate Inv(h: Host, s: State)
  {
    Forest(h, s.fs, s.seqno) && VersionInv(s)
  }

  /** The ULID generator returns names not in use, and clients present only tokens that they were
      given. */
  predicate NewUlid(s: State, u: Ulid)
  {
    u !in s.blobs && u !in s.issued && !NamesPlain(s.fs, u)
  }

  /** Some plain blob's row has the name. */
  predicate NamesPlain(fs: Table, u: Ulid)
  {
    exists k :: k in fs && Cloned(fs[k].kind) && fs[k].blob == u
  }

  /** No plain blob has a file: only copy makes such rows, and it copies no contents of versioned
      blobs. */
  ghost predicate Hollow(s: State)
  {
    forall k :: k in s.fs && Cloned(s.fs[k].kind) ==> s.fs[k].blob !in s.blobs && s.fs[k].blob !in s.issued
  }

  predicate Admissible(s: State, call: Call)
  {
    match call
    case UploadCall(arg, minted, sealed) =>
      && NewUlid(s, minted) && NewUlid(s, sealed) && minted != sealed
      && (|arg.continuation| == 16 ==> TokenUlid(arg.continuation) in s.issued)
    case CopyCall(_, _, minted) => NewUlid(s, minted)
    case _ => true
  }

  /** The repairs without which the invariant is lost. */
  predicate Sound(rep: Repairs)
  {
    rep.storeSequence && rep.writeAppend && rep.finishDelete
  }

  ghost predicate Unnamed(ver: Versions, u: Ulid)
  {
    forall iv :: iv in ver ==> ver[iv].blob != Some(u)
  }

  // ----- The object table -----

  lemma ForestAfterInsert(h: Host, fs: Table, n: U64, key: Bytes, r: Record)
    requires Forest(h, fs, n) && n + 1 < U64_LIMIT
    requires |key| >= 8 && ParentId(h, key) <= n && key !in fs && r.id == n + 1
    ensures Forest(h, fs[key := r], n + 1)
    ensures NoChildren(h, fs[key := r], r.id)
  {
  }

  lemma ForestAfterMove(h: Host, fs: Table, n: U64, from: Bytes, to: Bytes, r: Record)
    requires Forest(h, fs, n) && from in fs && r.id == fs[from].id
    requires |to| >= 8 && ParentId(h, to) <= n && to !in fs - {from}
    ensures Forest(h, (fs - {from})[to := r], n)
  {
  }

  lemma ForestAfterRemove(h: Host, fs: Table, n: U64, key: Bytes)
    requires Forest(h, fs, n)
    ensures Forest(h, fs - {key}, n)
  {
  }

  lemma ForestAfterReplace(h: Host, fs: Table, n: U64, key: Bytes, r: Record)
    requires Forest(h, fs, n) && key in fs && r.id == fs[key].id
    ensures Forest(h, fs[key := r], n)
  {
  }

  // ----- Blob files -----

  /** Writing to a file that no version names disturbs no version. */
  lemma WriteUnnamed(s: State, u: Ulid, data: Bytes)
    requires VersionInv(s) && Unnamed(s.ver, u)
    ensures VersionInv(Write(s, u, data).0)
  {
    var blobs := Write(s, u, data).0.blobs;
    assert Held(s.ver, blobs, s.issued);
    assert Whole(s.fs, s.ver, blobs);
  }

  /** A file that does not exist, or that a token names, is named by no version. */
  lemma UnheldIsUnnamed(s: State, u: Ulid)
    requires Held(s.ver, s.blobs, s.issued)
    requires u !in s.blobs || u in s.issued
    ensures Unnamed(s.ver, u)
  {
  }

  // ----- Rows and versions -----

  lemma NoVersionsYet(h: Host, s: State, id: U64)
    requires Forest(h, s.fs, s.seqno) && Owned(s.fs, s.ver) && id > s.seqno
    ensures forall v: U64 :: (id, v) !in s.ver
  {
    forall iv | iv in s.ver
      ensures iv.0 <= s.seqno
    {
      assert HasRow(s.fs, iv.0);
    }
  }

  /** A new row of an object that has no versions. */
  lemma PlainRowKeeps(s: State, key: Bytes, r: Record)
    requires VersionInv(s) && key !in s.fs && r.kind != VersionBlob
    requires forall v: U64 :: (r.id, v) !in s.ver
    ensures Dense(s.fs[key := r], s.ver) && Owned(s.fs[key := r], s.ver) && Whole(s.fs[key := r], s.ver, s.blobs)
  {
    var fs := s.fs[key := r];
    forall iv | iv in s.ver
      ensures HasRow(fs, iv.0)
    {
      assert HasRow(s.fs, iv.0);
      var k :| k in s.fs && s.fs[k].id == iv.0;
      assert k in fs;
    }
  }

  /** What a new version `r.latest` of the file `r.id` must bring: the versions before it, and a
      blob that is wholly its own or already the file's. */
  ghost predicate NextVersion(s: State, r: Record, v: Version)
  {
    && r.kind == VersionBlob && r.latest >= 1
    && (forall w: U64 :: (r.id, w) in s.ver <==> 1 <= w < r.latest)
    && HeldAt(v, s.blobs, s.issued)
    && (v.length != UNKNOWN_SIZE ==> v.length == |s.blobs[v.blob.value]|)
    && (forall iv :: iv in s.ver && s.ver[iv].blob == v.blob ==> iv.0 == r.id)
  }

  ghost predicate OnlyRowOf(fs: Table, key: Bytes, id: U64)
  {
    forall k :: k in fs && k != key ==> fs[k].id != id
  }

  /** The invariant survives a new version, provided that the other files' latest versions are
      still whole in `s`, whose blobs are those after the write. */
  lemma AddVersion(s: State, key: Bytes, r: Record, v: Version)
    requires Dense(s.fs - {key}, s.ver) && Owned(s.fs, s.ver) && Held(s.ver, s.blobs, s.issued)
    requires Disjoint(s.ver) && Whole(s.fs - {key}, s.ver, s.blobs) && FileSizes(s.blobs)
    requires key in s.fs ==> s.fs[key].id == r.id
    requires OnlyRowOf(s.fs, key, r.id) && NextVersion(s, r, v)
    ensures VersionInv(s.(fs := s.fs[key := r], ver := s.ver[(r.id, r.latest) := v]))
  {
    var fs, ver := s.fs[key := r], s.ver[(r.id, r.latest) := v];
    forall k | k in fs
      ensures DenseAt(ver, fs[k]) && WholeAt(fs[k], ver, s.blobs)
    {
      if k != key {
        assert k in s.fs - {key} && fs[k] == (s.fs - {key})[k];
      }
    }
    assert Dense(fs, ver) && Whole(fs, ver, s.blobs);
    forall iv | iv in ver
      ensures HasRow(fs, iv.0)
    {
      if iv.0 == r.id {
        assert key in fs;
      } else {
        assert HasRow(s.fs, iv.0);
        var k :| k in s.fs && s.fs[k].id == iv.0;
        assert k in fs;
      }
    }
    assert Held(ver, s.blobs, s.issued);
    assert Disjoint(ver);
  }

  // ----- The calls -----

  lemma InsertPlainKeeps(h: Host, s: State, key: Bytes, r: Record)
    requires Inv(h, s) && key !in s.fs && |key| >= 8 && ParentId(h, key) <= s.seqno
    requires r.kind != VersionBlob && s.seqno + 1 < U64_LIMIT && r.id == s.seqno + 1
    ensures Inv(h, s.(fs := s.fs[key := r], seqno := s.seqno + 1))
  {
    ForestAfterInsert(h, s.fs, s.seqno, key, r);
    NoVersionsYet(h, s, r.id);
    PlainRowKeeps(s, key, r);
  }

  lemma MakeDirectoryKeeps(c: Config, s: State, path: Path)
    requires Inv(c.host, s) && c.rep.storeSequence
    ensures Inv(c.host, MakeDirectory(c, s, path).0)
  {
    var (s', reply) := MakeDirectory(c, s, path);
    if reply == Done {
      var key := Locate(c.host, s.fs, CreatePath(c, path)).value;
      LocatedParent(c.host, s.fs, s.seqno, CreatePath(c, path));
      InsertPlainKeeps(c.host, s, key, s'.fs[key]);
    }
  }

  lemma CloneKeeps(s: State, minted: Ulid, data: Bytes)
    requires VersionInv(s) && NewUlid(s, minted) && |data| <= MAX_FILE
    ensures VersionInv(s.(blobs := s.blobs[minted := data]))
  {
    UnheldIsUnnamed(s, minted);
    var blobs := s.blobs[minted := data];
    assert Held(s.ver, blobs, s.issued);
    assert Whole(s.fs, s.ver, blobs);
  }

  lemma CopyRowKeeps(h: Host, byName: bool, s: State, record: Record, dest: Bytes, name: Bytes, minted: Ulid)
    requires Inv(h, s) && NewUlid(s, minted) && |dest| >= 8 && ParentId(h, dest) <= s.seqno
    ensures Inv(h, CopyRow(byName, s, record, dest, name, minted).0)
  {
    if Cloned(record.kind) && CanClone(byName, s, record) {
      CloneKeeps(s, minted, s.blobs[ClonedFile(byName, record.blob).value]);
      InsertCopyKeeps(h, CloneBlob(byName, s, record, minted), dest, name, minted);
    } else {
      InsertCopyKeeps(h, s, dest, name, minted);
    }
  }

  lemma InsertCopyKeeps(h: Host, s: State, dest: Bytes, name: Bytes, minted: Ulid)
    requires Inv(h, s) && |dest| >= 8 && ParentId(h, dest) <= s.seqno
    ensures Inv(h, InsertCopy(s, dest, name, minted).0)
  {
    var (s', reply) := InsertCopy(s, dest, name, minted);
    if reply == Done {
      InsertPlainKeeps(h, s, dest, s'.fs[dest]);
    }
  }

  lemma CopyKeeps(c: Config, s: State, path: Path, destination: Path, minted: Ulid)
    requires Inv(c.host, s) && NewUlid(s, minted)
    ensures Inv(c.host, Copy(c, s, path, destination, minted).0)
  {
    if path != [] && destination != [] && Locate(c.host, s.fs, Nfkd(c, destination)).Ok? {
      var dest := Locate(c.host, s.fs, Nfkd(c, destination)).value;
      LocatedParent(c.host, s.fs, s.seqno, Nfkd(c, destination));
      var src := Locate(c.host, s.fs, Nfkd(c, path));
      if src.Ok? && src.value in s.fs {
        CopyRowKeeps(c.host, c.rep.cloneName, s, s.fs[src.value], dest, Last(destination), minted);
      }
    }
  }

  lemma MoveKeeps(c: Config, s: State, path: Path, expected: Option<U64>, destination: Path)
    requires Inv(c.host, s)
    ensures Inv(c.host, Move(c, s, path, expected, destination).0)
  {
    hide VersionInv, Locate;
    var (s', reply) := Move(c, s, path, expected, destination);
    if reply == Done {
      var from, to := Locate(c.host, s.fs, Nfkd(c, path)).value, Locate(c.host, s.fs, Nfkd(c, destination)).value;
      LocatedParent(c.host, s.fs, s.seqno, Nfkd(c, destination));
      ForestAfterMove(c.host, s.fs, s.seqno, from, to, s'.fs[to]);
      RekeyKeeps(s, from, to, s'.fs[to]);
    }
  }

  lemma RekeyKeeps(s: State, from: Bytes, to: Bytes, r: Record)
    requires VersionInv(s) && from in s.fs && to !in s.fs - {from}
    requires r.id == s.fs[from].id && r.kind == s.fs[from].kind && r.latest == s.fs[from].latest
    ensures VersionInv(s.(fs := (s.fs - {from})[to := r]))
  {
    hide Held, Disjoint, FileSizes, Owned;
    OwnedAfterRekey(s.fs, s.ver, from, to, r);
  }

  lemma OwnedAfterRekey(fs: Table, ver: Versions, from: Bytes, to: Bytes, r: Record)
    requires Owned(fs, ver) && from in fs && to !in fs - {from} && r.id == fs[from].id
    ensures Owned((fs - {from})[to := r], ver)
  {
    var fs' := (fs - {from})[to := r];
    forall iv | iv in ver
      ensures HasRow(fs', iv.0)
    {
      assert HasRow(fs, iv.0);
      var k :| k in fs && fs[k].id == iv.0;
      assert (if k == from then to else k) in fs';
    }
  }

  lemma DeleteKeeps(c: Config, s: State, path: Path, expected: Option<U64>)
    requires Inv(c.host, s) && c.rep.finishDelete
    ensures Inv(c.host, Delete(c, s, path, expected).0)
  {
    hide VersionInv, Forest, Purge, FindFile;
    if FindFile(c, s, path).Ok? {
      var key := FindFile(c, s, path).value;
      var r := s.fs[key];
      ForestAfterRemove(c.host, s.fs, s.seqno, key);
      if r.kind == VersionBlob {
        RemoveFileKeeps(c.host, s, key);
      } else {
        RemoveRowKeeps(c.host, s, key);
      }
    }
  }

  lemma RemoveFileKeeps(h: Host, s: State, key: Bytes)
    requires Inv(h, s) && key in s.fs && s.fs[key].kind == VersionBlob
    ensures var p := Purge(true, s.ver, s.blobs, s.fs[key].id, s.fs[key].latest);
            p.finished && VersionInv(s.(fs := s.fs - {key}, ver := p.ver, blobs := p.blobs))
  {
    var p := Purge(true, s.ver, s.blobs, s.fs[key].id, s.fs[key].latest);
    assert DenseAt(s.ver, s.fs[key]);
    PurgeRemovesExactly(s.ver, s.blobs, s.fs[key]);
    PurgeKeeps(s, key, p.ver, p.blobs);
  }

  lemma RemoveRowKeeps(h: Host, s: State, key: Bytes)
    requires Inv(h, s) && key in s.fs && s.fs[key].kind != VersionBlob
    ensures VersionInv(s.(fs := s.fs - {key}))
  {
    assert DenseAt(s.ver, s.fs[key]);
    OwnedAfterRemove(s.fs, s.ver, key, s.ver);
  }

  lemma OwnedAfterRemove(fs: Table, ver: Versions, key: Bytes, ver': Versions)
    requires Owned(fs, ver) && key in fs
    requires forall iv :: iv in ver' ==> iv in ver && iv.0 != fs[key].id
    ensures Owned(fs - {key}, ver')
  {
    forall iv | iv in ver'
      ensures HasRow(fs - {key}, iv.0)
    {
      assert HasRow(fs, iv.0);
      var k :| k in fs && fs[k].id == iv.0;
      assert k in fs - {key};
    }
  }

  /** Some version of the file keeps its bytes in blob `u`. */
  ghost predicate UsedBy(ver: Versions, id: U64, u: Ulid)
  {
    exists v: U64 :: (id, v) in ver && ver[(id, v)].blob == Some(u)
  }

  /** Exactly one file's version rows and blobs are gone; every other row and blob is as it was. */
  ghost predicate OnlyRemoves(ver: Versions, blobs: Files, id: U64, ver': Versions, blobs': Files)
  {
    && (forall iv :: iv in ver' <==> iv in ver && iv.0 != id)
    && (forall iv :: iv in ver' ==> ver'[iv] == ver[iv])
    && (forall u :: u in blobs' <==> u in blobs && !UsedBy(ver, id, u))
    && (forall u :: u in blobs' ==> blobs'[u] == blobs[u])
  }

  lemma PurgeRemovesExactly(ver: Versions, blobs: Files, r: Record)
    requires r.kind == VersionBlob && DenseAt(ver, r)
    ensures var p := Purge(true, ver, blobs, r.id, r.latest);
            p.finished && OnlyRemoves(ver, blobs, r.id, p.ver, p.blobs)
  {
    var p := Purge(true, ver, blobs, r.id, r.latest);
    SkippingFinishes(ver, blobs, r.id, r.latest);
    PurgeKeepsOthers(true, ver, blobs, r.id, r.latest);
    PurgeRemovesVersions(true, ver, blobs, r.id, r.latest);
    forall u: Ulid
      ensures UsedBy(ver, r.id, u) == NamedUpTo(ver, r.id, r.latest, u)
      ensures UsedBy(ver, r.id, u) ==> u !in p.blobs
    {
      if UsedBy(ver, r.id, u) {
        var v: U64 :| (r.id, v) in ver && ver[(r.id, v)].blob == Some(u);
        assert v <= r.latest;
        PurgeRemovesBlobs(true, ver, blobs, r.id, r.latest, u);
      }
    }
  }

  /** The blob of a version of another file is not among those removed. */
  lemma HeldAfterRemoval(s: State, id: U64, ver: Versions, blobs: Files, iv: (U64, U64))
    requires Held(s.ver, s.blobs, s.issued) && Disjoint(s.ver)
    requires OnlyRemoves(s.ver, s.blobs, id, ver, blobs) && iv in s.ver && iv.0 != id
    ensures HeldAt(s.ver[iv], s.blobs, s.issued) && HeldAt(s.ver[iv], blobs, s.issued)
    ensures blobs[s.ver[iv].blob.value] == s.blobs[s.ver[iv].blob.value]
  {
  }

  lemma PurgeKeeps(s: State, key: Bytes, ver: Versions, blobs: Files)
    requires VersionInv(s) && DistinctIds(s.fs) && key in s.fs
    requires OnlyRemoves(s.ver, s.blobs, s.fs[key].id, ver, blobs)
    ensures VersionInv(s.(fs := s.fs - {key}, ver := ver, blobs := blobs))
  {
    hide OnlyRemoves, Held, HeldAt, DenseAt, WholeAt, Owned;
    var id, fs := s.fs[key].id, s.fs - {key};
    RowsAfterRemoval(s.ver, s.blobs, id, ver, blobs);
    OwnedAfterRemove(s.fs, s.ver, key, ver);
    HeldAfterRemovals(s, id, ver, blobs);
    forall k | k in fs
      ensures DenseAt(ver, fs[k]) && WholeAt(fs[k], ver, blobs)
    {
      RowAfterRemoval(s, id, ver, blobs, fs[k]);
    }
  }

  lemma RowAfterRemoval(s: State, id: U64, ver: Versions, blobs: Files, r: Record)
    requires Held(s.ver, s.blobs, s.issued) && Disjoint(s.ver)
    requires DenseAt(s.ver, r) && WholeAt(r, s.ver, s.blobs) && r.id != id
    requires OnlyRemoves(s.ver, s.blobs, id, ver, blobs)
    ensures DenseAt(ver, r) && WholeAt(r, ver, blobs)
  {
    if (r.id, r.latest) in ver {
      HeldAfterRemoval(s, id, ver, blobs, (r.id, r.latest));
    }
  }

  lemma RowsAfterRemoval(ver: Versions, blobs: Files, id: U64, ver': Versions, blobs': Files)
    requires OnlyRemoves(ver, blobs, id, ver', blobs')
    ensures forall iv :: iv in ver' <==> iv in ver && iv.0 != id
    ensures forall iv :: iv in ver' ==> ver'[iv] == ver[iv]
    ensures FileSizes(blobs) ==> FileSizes(blobs')
  {
  }

  lemma HeldAfterRemovals(s: State, id: U64, ver: Versions, blobs: Files)
    requires Held(s.ver, s.blobs, s.issued) && Disjoint(s.ver) && OnlyRemoves(s.ver, s.blobs, id, ver, blobs)
    ensures Held(ver, blobs, s.issued)
  {
    forall iv | iv in ver
      ensures HeldAt(ver[iv], blobs, s.issued)
    {
      HeldAfterRemoval(s, id, ver, blobs, iv);
    }
  }

  /** Deleting a file that is a versioned blob, and is still at the version that the client
      expects, always succeeds. It removes the file's row, version rows and blobs, and nothing
      else. */
  lemma DeleteRemovesExactly(c: Config, s: State, path: Path, expected: Option<U64>, key: Bytes)
    requires VersionInv(s) && c.rep.finishDelete && FindFile(c, s, path) == Ok(key)
    requires s.fs[key].kind == VersionBlob && (expected.Some? ==> expected.value == s.fs[key].latest)
    ensures var (s', reply) := Delete(c, s, path, expected);
            && reply == Done && s'.fs == s.fs - {key} && s'.seqno == s.seqno
            && OnlyRemoves(s.ver, s.blobs, s.fs[key].id, s'.ver, s'.blobs)
  {
    hide FindFile, Purge;
    PurgeRemovesExactly(s.ver, s.blobs, s.fs[key]);
  }

  /** Growing the latest version's blob leaves every other file whole. */
  lemma WriteToLatest(s: State, key: Bytes, data: Bytes)
    requires VersionInv(s) && DistinctIds(s.fs) && key in s.fs && (s.fs[key].id, s.fs[key].latest) in s.ver
    ensures var v := s.ver[(s.fs[key].id, s.fs[key].latest)];
            && v.blob.Some? && v.blob.value in s.blobs
            && var s1 := Write(s, v.blob.value, data).0;
               && Held(s1.ver, s1.blobs, s1.issued) && FileSizes(s1.blobs)
               && Whole(s.fs - {key}, s1.ver, s1.blobs)
  {
    var v := s.ver[(s.fs[key].id, s.fs[key].latest)];
    assert HeldAt(v, s.blobs, s.issued);
    var s1 := Write(s, v.blob.value, data).0;
    forall k | k in s.fs - {key}
      ensures WholeAt(s.fs[k], s.ver, s1.blobs)
    {
      assert WholeAt(s.fs[k], s.ver, s.blobs);
    }
  }

  lemma AppendedIsNext(s: State, key: Bytes, data: Bytes)
    requires key in s.fs && (s.fs[key].id, s.fs[key].latest) in s.ver
    requires AppendTo(true, s, key, data).1 == Done
    requires var v := s.ver[(s.fs[key].id, s.fs[key].latest)];
             HeldAt(v, s.blobs, s.issued) && DenseAt(s.ver, s.fs[key]) && WholeAt(s.fs[key], s.ver, s.blobs)
    requires Disjoint(s.ver)
    ensures var (s', r) := (AppendTo(true, s, key, data).0, s.fs[key]);
            && var v := s.ver[(r.id, r.latest)];
            && var s1 := Write(s, v.blob.value, data).0;
            && key in s'.fs && s'.fs == s1.fs[key := s'.fs[key]]
            && s'.fs[key].id == r.id && s'.fs[key].latest == r.latest + 1
            && var v' := Version(AppendedLength(s1, v, data), v.blob);
            && NextVersion(s1, s'.fs[key], v')
            && s' == s1.(fs := s'.fs, ver := s1.ver[(r.id, s'.fs[key].latest) := v'])
  {
  }

  lemma AppendVersionKeeps(s: State, key: Bytes, data: Bytes)
    requires VersionInv(s) && DistinctIds(s.fs) && key in s.fs && (s.fs[key].id, s.fs[key].latest) in s.ver
    requires AppendTo(true, s, key, data).1 == Done
    ensures VersionInv(AppendTo(true, s, key, data).0)
  {
    var s' := AppendTo(true, s, key, data).0;
    var v := s.ver[(s.fs[key].id, s.fs[key].latest)];
    WriteToLatest(s, key, data);
    AppendedIsNext(s, key, data);
    var s1 := Write(s, v.blob.value, data).0;
    AddVersion(s1, key, s'.fs[key], Version(AppendedLength(s1, v, data), v.blob));
  }

  lemma AppendFailureKeeps(s: State, key: Bytes, data: Bytes)
    requires VersionInv(s) && DistinctIds(s.fs) && key in s.fs && (s.fs[key].id, s.fs[key].latest) in s.ver
    requires AppendTo(true, s, key, data).1 != Done
    ensures VersionInv(AppendTo(true, s, key, data).0)
  {
    var r := s.fs[key];
    var v := s.ver[(r.id, r.latest)];
    WriteToLatest(s, key, data);
    assert DenseAt(s.ver, r) && HeldAt(v, s.blobs, s.issued);
    var (s1, written) := Write(s, v.blob.value, data);
    if written {
      assert r.latest + 1 >= U64_LIMIT;
      assert WholeAt(r, s1.ver, s1.blobs);
      forall k | k in s.fs
        ensures WholeAt(s.fs[k], s1.ver, s1.blobs)
      {
        if k != key {
          assert k in s.fs - {key};
        }
      }
    } else {
      assert s1.blobs == s.blobs;
    }
  }

  lemma AppendToKeeps(h: Host, s: State, key: Bytes, data: Bytes)
    requires Inv(h, s) && key in s.fs && (s.fs[key].id, s.fs[key].latest) in s.ver
    ensures Inv(h, AppendTo(true, s, key, data).0)
  {
    hide VersionInv, DistinctIds, IdsUpTo, Write;
    var (s', reply) := AppendTo(true, s, key, data);
    if reply == Done {
      AppendVersionKeeps(s, key, data);
    } else {
      AppendFailureKeeps(s, key, data);
    }
    assert s'.fs == s.fs[key := s'.fs[key]] && s'.seqno == s.seqno;
    ForestAfterReplace(h, s.fs, s.seqno, key, s'.fs[key]);
  }

  lemma AppendKeeps(c: Config, s: State, path: Path, expected: Option<U64>, data: Bytes)
    requires Inv(c.host, s) && c.rep.writeAppend
    ensures Inv(c.host, Append(c, s, path, expected, data).0)
  {
    if Append(c, s, path, expected, data).0 != s {
      AppendToKeeps(c.host, s, FindFile(c, s, path).value, data);
    }
  }

  lemma PutVersionForest(h: Host, s: State, key: Bytes, u: Ulid, name: Bytes, v: Version)
    requires Forest(h, s.fs, s.seqno) && |key| >= 8 && ParentId(h, key) <= s.seqno
    requires LastNumber(s, key) + 1 < U64_LIMIT
    ensures var s' := PutVersion(s, key, u, name, v); Forest(h, s'.fs, s'.seqno)
  {
    var r := PutVersion(s, key, u, name, v).fs[key];
    if key in s.fs {
      ForestAfterReplace(h, s.fs, s.seqno, key, r);
    } else {
      ForestAfterInsert(h, s.fs, s.seqno, key, r);
    }
  }

  lemma PutVersionIsNext(h: Host, s: State, key: Bytes, u: Ulid, name: Bytes, v: Version)
    requires Forest(h, s.fs, s.seqno) && Dense(s.fs, s.ver) && Owned(s.fs, s.ver)
    requires key in s.fs ==> s.fs[key].kind == VersionBlob
    requires LastNumber(s, key) + 1 < U64_LIMIT
    requires HeldAt(v, s.blobs, s.issued) && Unnamed(s.ver, v.blob.value)
    requires v.length != UNKNOWN_SIZE ==> v.length == |s.blobs[v.blob.value]|
    ensures NextVersion(s, PutVersion(s, key, u, name, v).fs[key], v)
  {
    if key in s.fs {
      assert DenseAt(s.ver, s.fs[key]);
    } else {
      NoVersionsYet(h, s, s.seqno + 1);
    }
  }

  /** A committed version in a blob of its own. */
  lemma PutVersionKeeps(h: Host, s: State, key: Bytes, u: Ulid, name: Bytes, v: Version)
    requires Inv(h, s) && |key| >= 8 && ParentId(h, key) <= s.seqno
    requires key in s.fs ==> s.fs[key].kind == VersionBlob
    requires LastNumber(s, key) + 1 < U64_LIMIT
    requires HeldAt(v, s.blobs, s.issued) && Unnamed(s.ver, v.blob.value)
    requires v.length != UNKNOWN_SIZE ==> v.length == |s.blobs[v.blob.value]|
    ensures Inv(h, PutVersion(s, key, u, name, v))
  {
    hide NextVersion, Disjoint, FileSizes, Held, Owned;
    PutVersionForest(h, s, key, u, name, v);
    PutVersionIsNext(h, s, key, u, name, v);
    AddVersion(s, key, PutVersion(s, key, u, name, v).fs[key], v);
  }

  lemma RenameKeeps(s: State, from: Ulid, to: Ulid)
    requires VersionInv(s) && Unnamed(s.ver, from) && Unnamed(s.ver, to) && from in s.blobs
    ensures VersionInv(Rename(s, from, to))
  {
    var blobs := Rename(s, from, to).blobs;
    assert Held(s.ver, blobs, s.issued);
    assert Whole(s.fs, s.ver, blobs);
  }

  /** What sealing leaves is ready for its version row. */
  lemma SealKeeps(s: State, r: UploadArg, u: Ulid, sealed: Ulid)
    requires VersionInv(s) && u in s.blobs && |r.data| <= MAX_FILE
    requires Unnamed(s.ver, u) && NewUlid(s, sealed) && u != sealed
    requires r.continuation == [] ==> u !in s.issued && s.blobs[u] == r.data
    ensures var (s1, v) := (Seal(s, r, u, sealed), SealedRow(r, u, sealed));
            && VersionInv(s1) && HeldAt(v, s1.blobs, s1.issued) && Unnamed(s1.ver, v.blob.value)
            && (v.length != UNKNOWN_SIZE ==> v.length == |s1.blobs[v.blob.value]|)
  {
    hide VersionInv;
    UnheldIsUnnamedIn(s, sealed);
    if r.continuation != [] {
      RenameKeeps(s, u, sealed);
    }
  }

  lemma UnheldIsUnnamedIn(s: State, u: Ulid)
    requires VersionInv(s) && NewUlid(s, u)
    ensures Unnamed(s.ver, u)
  {
    UnheldIsUnnamed(s, u);
  }

  lemma FinishUploadKeeps(c: Config, s: State, r: UploadArg, u: Ulid, sealed: Ulid)
    requires Inv(c.host, s) && r.path != [] && u in s.blobs && |r.data| <= MAX_FILE
    requires Unnamed(s.ver, u) && NewUlid(s, sealed) && u != sealed
    requires r.continuation == [] ==> u !in s.issued && s.blobs[u] == r.data
    ensures Inv(c.host, FinishUpload(c, s, r, u, sealed).0)
  {
    hide PutVersion, Seal, SealedRow, Locate;
    if FinishUpload(c, s, r, u, sealed).1 == Done {
      var p := CreatePath(c, r.path);
      var key := Locate(c.host, s.fs, p).value;
      LocatedParent(c.host, s.fs, s.seqno, p);
      SealKeeps(s, r, u, sealed);
      PutVersionKeeps(c.host, Seal(s, r, u, sealed), key, u, StoredName(c, r.path), SealedRow(r, u, sealed));
    }
  }

  lemma UploadKeeps(c: Config, s: State, r: UploadArg, minted: Ulid, sealed: Ulid)
    requires Inv(c.host, s) && Admissible(s, UploadCall(r, minted, sealed))
    ensures Inv(c.host, Upload(c, s, r, minted, sealed).0)
  {
    if r.path != [] && TokenName(r.continuation, minted).Some? {
      var u := TokenName(r.continuation, minted).value;
      UnheldIsUnnamed(s, u);
      WriteUnnamed(s, u, r.data);
      var (s1, written) := Write(s, u, r.data);
      if written && !r.incomplete {
        if r.continuation == [] {
          assert Contents(s, u) + r.data == r.data;
        }
        FinishUploadKeeps(c, s1, r, u, sealed);
      }
    }
  }

  /** Every call keeps the invariant. */
  lemma StepKeeps(c: Config, s: State, call: Call)
    requires Sound(c.rep) && Inv(c.host, s) && Admissible(s, call)
    ensures Inv(c.host, Step(c, s, call).0)
  {
    match call
    case MakeDirectoryCall(path) => MakeDirectoryKeeps(c, s, path);
    case UploadCall(arg, minted, sealed) => UploadKeeps(c, s, arg, minted, sealed);
    case AppendCall(path, expected, data) => AppendKeeps(c, s, path, expected, data);
    case DeleteCall(path, expected) => DeleteKeeps(c, s, path, expected);
    case MoveCall(path, expected, destination) => MoveKeeps(c, s, path, expected, destination);
    case CopyCall(path, destination, minted) => CopyKeeps(c, s, path, destination, minted);
  }

  // ----- Plain blobs -----

  lemma RowsNamePlain(fs: Table)
    ensures forall k :: k in fs && Cloned(fs[k].kind) ==> NamesPlain(fs, fs[k].blob)
  {
  }

  lemma FinishUploadFiles(c: Config, s: State, r: UploadArg, u: Ulid, sealed: Ulid)
    requires r.path != [] && u in s.blobs && |r.data| <= MAX_FILE
    ensures var (s', reply) := FinishUpload(c, s, r, u, sealed);
            s'.issued == s.issued && s'.blobs == if reply == Done then Seal(s, r, u, sealed).blobs else s.blobs
  {
    hide Seal, Locate;
  }

  lemma FinishUploadRows(c: Config, s: State, r: UploadArg, u: Ulid, sealed: Ulid)
    requires r.path != [] && u in s.blobs && |r.data| <= MAX_FILE
    ensures var s' := FinishUpload(c, s, r, u, sealed).0;
            forall k :: k in s'.fs && Cloned(s'.fs[k].kind) ==> k in s.fs && s'.fs[k] == s.fs[k]
  {
    hide Seal, SealedRow, Locate;
  }

  lemma UploadKeepsHollow(c: Config, s: State, r: UploadArg, minted: Ulid, sealed: Ulid)
    requires Hollow(s) && Admissible(s, UploadCall(r, minted, sealed))
    ensures Hollow(Upload(c, s, r, minted, sealed).0)
  {
    hide FinishUpload;
    RowsNamePlain(s.fs);
    if r.path != [] && TokenName(r.continuation, minted).Some? {
      var u := TokenName(r.continuation, minted).value;
      var (s1, written) := Write(s, u, r.data);
      assert Hollow(s1);
      if written && !r.incomplete {
        FinishUploadFiles(c, s1, r, u, sealed);
        FinishUploadRows(c, s1, r, u, sealed);
      }
    }
  }

  lemma CopyRowKeepsHollow(s: State, record: Record, dest: Bytes, name: Bytes, minted: Ulid)
    requires Hollow(s) && NewUlid(s, minted) && (Cloned(record.kind) ==> NamesPlain(s.fs, record.blob))
    ensures Hollow(CopyRow(true, s, record, dest, name, minted).0)
  {
  }

  lemma CopyKeepsHollow(c: Config, s: State, path: Path, destination: Path, minted: Ulid)
    requires c.rep.cloneName && Hollow(s) && NewUlid(s, minted)
    ensures Hollow(Copy(c, s, path, destination, minted).0)
  {
    hide Hollow, NewUlid, CopyRow, Locate;
    if path != [] && destination != [] {
      var src, dest := Locate(c.host, s.fs, Nfkd(c, path)), Locate(c.host, s.fs, Nfkd(c, destination));
      if src.Ok? && dest.Ok? && src.value in s.fs {
        RowsNamePlain(s.fs);
        CopyRowKeepsHollow(s, s.fs[src.value], dest.value, Last(destination), minted);
      }
    }
  }

  lemma AppendKeepsHollow(c: Config, s: State, path: Path, expected: Option<U64>, data: Bytes)
    requires Hollow(s)
    ensures Hollow(Append(c, s, path, expected, data).0)
  {
    if Append(c, s, path, expected, data).0 != s {
      AppendToKeepsHollow(c.rep.writeAppend, s, FindFile(c, s, path).value, data);
    }
  }

  lemma AppendToKeepsHollow(commit: bool, s: State, key: Bytes, data: Bytes)
    requires Hollow(s) && key in s.fs && (s.fs[key].id, s.fs[key].latest) in s.ver
    ensures Hollow(AppendTo(commit, s, key, data).0)
  {
    RowsNamePlain(s.fs);
  }

  lemma DeleteKeepsHollow(c: Config, s: State, path: Path, expected: Option<U64>)
    requires Hollow(s)
    ensures Hollow(Delete(c, s, path, expected).0)
  {
    hide FindFile, Purge;
    if FindFile(c, s, path).Ok? {
      var r := s.fs[FindFile(c, s, path).value];
      PurgeShrinks(c.rep.finishDelete, s.ver, s.blobs, r.id, r.latest);
    }
  }

  lemma MoveKeepsHollow(c: Config, s: State, path: Path, expected: Option<U64>, destination: Path)
    requires Hollow(s)
    ensures Hollow(Move(c, s, path, expected, destination).0)
  {
    hide Locate;
  }

  lemma MakeDirectoryKeepsHollow(c: Config, s: State, path: Path)
    requires Hollow(s)
    ensures Hollow(MakeDirectory(c, s, path).0)
  {
    hide Locate;
  }

  lemma PurgeShrinks(skip: bool, ver: Versions, blobs: Files, id: U64, v: U64)
    ensures Purge(skip, ver, blobs, id, v).blobs.Keys <= blobs.Keys
  {
    PurgeKeepsOthers(skip, ver, blobs, id, v);
  }

  /** Every call keeps plain blobs without files, if copy looks for the right one. */
  lemma StepKeepsHollow(c: Config, s: State, call: Call)
    requires c.rep.cloneName && Hollow(s) && Admissible(s, call)
    ensures Hollow(Step(c, s, call).0)
  {
    match call
    case UploadCall(arg, minted, sealed) => UploadKeepsHollow(c, s, arg, minted, sealed);
    case CopyCall(path, destination, minted) => CopyKeepsHollow(c, s, path, destination, minted);
    case AppendCall(path, expected, data) => AppendKeepsHollow(c, s, path, expected, data);
    case DeleteCall(path, expected) => DeleteKeepsHollow(c, s, path, expected);
    case MoveCall(path, expected, destination) => MoveKeepsHollow(c, s, path, expected, destination);
    case MakeDirectoryCall(path) => MakeDirectoryKeepsHollow(c, s, path);
  }

  /** A run in which the ULID generator and the clients behave. */
  ghost predicate AdmissibleRun(c: Config, s: State, calls: seq<Call>)
  {
    calls == [] ||
    (AdmissibleRun(c, s, Front(calls)) && Admissible(Run(c, s, Front(calls)), Last(calls)))
  }

  /** So every state of every run satisfies it. */
  lemma {:induction false} RunKeeps(c: Config, s: State, calls: seq<Call>)
    requires Sound(c.rep) && Inv(c.host, s) && AdmissibleRun(c, s, calls)
    ensures Inv(c.host, Run(c, s, calls))
  {
    if calls != [] {
      RunKeeps(c, s, Front(calls));
      StepKeeps(c, Run(c, s, Front(calls)), Last(calls));
    }
  }

  lemma {:induction false} RunKeepsHollow(c: Config, s: State, calls: seq<Call>)
    requires c.rep.cloneName && Hollow(s) && AdmissibleRun(c, s, calls)
    ensures Hollow(Run(c, s, calls))
  {
    if calls != [] {
      RunKeepsHollow(c, s, Front(calls));
      StepKeepsHollow(c, Run(c, s, Front(calls)), Last(calls));
    }
  }

  lemma InitiallyInv(h: Host)
    ensures Inv(h, EMPTY_STATE) && Hollow(EMPTY_STATE)
  {
  }
}
