/** Each call of the storage engine does to what clients see exactly what the path-based
    specification says, and answers the same. */
module Refinement {
  import opened Wrappers
  import opened Keys
  import opened Store
  import opened Tree
  import opened Purging
  import opened Invariant
  import opened AbstractFs

  /** The specification's state: what every path shows, and what has been uploaded so far under
      the tokens that are in use. */
  datatype AbsState = AbsState(fs: Fs, pending: map<Ulid, Bytes>)

  ghost function Pending(s: State): map<Ulid, Bytes>
  {
    map u | u in s.blobs && u in s.issued :: s.blobs[u]
  }

  ghost function Abs(h: Host, s: State): AbsState
  {
    AbsState(View(h, s), Pending(s))
  }

  ghost function SoFar(a: AbsState, u: Ulid): Bytes
  {
    if u in a.pending then a.pending[u] else []
  }

  /** A finished upload reads as everything written under its token; only one that came in a
      single message has its length fixed. */
  ghost function Uploaded(r: UploadArg, u: Ulid, sealed: Ulid, content: Bytes): Reading
  {
    if r.continuation == [] then Reading(true, u, content) else Reading(false, sealed, content)
  }

  ghost function AbsUploadStep(c: Config, a: AbsState, r: UploadArg, minted: Ulid, sealed: Ulid): (AbsState, Reply)
  {
    if r.path == [] then (a, Failed(EmptyTarget))
    else match TokenName(r.continuation, minted)
      case None => (a, Failed(BadToken))
      case Some(u) =>
        var content := SoFar(a, u) + r.data;
        var a1 := if r.continuation == [] && !r.incomplete then a else a.(pending := a.pending[u := content]);
        if r.incomplete then (a1, Continue(TokenBytes(u)))
        else
          var reading := Uploaded(r, u, sealed, content);
          var (fs, reply) := AbsUpload(a.fs, CreatePath(c, r.path), StoredName(c, r.path), r.next, reading);
          (AbsState(fs, if reply == Done then a1.pending - {u} else a1.pending), reply)
  }

  /** A call on a path, which leaves pending uploads alone. */
  ghost function AbsCall(c: Config, v: Fs, call: Call): (Fs, Reply)
    requires !call.UploadCall?
  {
    match call
    case MakeDirectoryCall(path) =>
      if path == [] then (v, Failed(EmptyTarget)) else AbsMakeDirectory(v, CreatePath(c, path), StoredName(c, path))
    case AppendCall(path, expected, data) => AbsAppend(v, Nfkd(c, path), expected, data)
    case DeleteCall(path, expected) => AbsDelete(v, Nfkd(c, path), expected)
    case MoveCall(path, expected, destination) =>
      if destination == [] then (v, Failed(NoDestination))
      else if path == [] then (v, Failed(EmptyTarget))
      else AbsMove(v, Nfkd(c, path), expected, Nfkd(c, destination), Last(destination))
    case CopyCall(path, destination, _) =>
      if destination == [] then (v, Failed(NoDestination))
      else if path == [] then (v, Failed(EmptyTarget))
      else AbsCopy(v, Nfkd(c, path), Nfkd(c, destination), Last(destination))
  }

  ghost function AbsStep(c: Config, a: AbsState, call: Call): (AbsState, Reply)
  {
    if call.UploadCall? then AbsUploadStep(c, a, call.arg, call.minted, call.sealed)
    else
      var (fs, reply) := AbsCall(c, a.fs, call);
      (AbsState(fs, a.pending), reply)
  }

  /** Answers that no specification on paths can foresee: a full disk file, or counters used up
      (`ExhaustedOnlyIf`). */
  predicate Exhausted(reply: Reply)
  {
    reply == Failed(Io) || reply == Failed(Overflow)
  }

  predicate Intended(rep: Repairs)
  {
    Sound(rep) && rep.acceptNext && rep.guardMove && rep.cloneName
  }

  // ----- Readings that a change leaves alone -----

  /** The blobs that versions name hold the same bytes. */
  ghost predicate NamedBlobsSame(ver: Versions, blobs: Files, blobs': Files)
  {
    forall iv :: iv in ver && ver[iv].blob.Some? ==>
      var u := ver[iv].blob.value;
      (u in blobs <==> u in blobs') && (u in blobs ==> blobs'[u] == blobs[u])
  }

  lemma BlobsOnly(s: State, s': State)
    requires s'.ver == s.ver && NamedBlobsSame(s.ver, s.blobs, s'.blobs)
    ensures ShowsSame(s, s')
  {
    forall k | k in s.fs
      ensures Show(s'.ver, s'.blobs, s.fs[k]) == Show(s.ver, s.blobs, s.fs[k])
    {
      SameShow(s.ver, s.blobs, s'.ver, s'.blobs, s.fs[k]);
    }
  }

  /** A new version of one file is not seen in any other. */
  lemma OneFileOnly(s: State, s': State, id: U64, n: U64, v: Version)
    requires s'.ver == s.ver[(id, n) := v] && s'.blobs == s.blobs
    requires forall k :: k in s.fs ==> s.fs[k].id != id
    ensures ShowsSame(s, s')
  {
    forall k | k in s.fs
      ensures Show(s'.ver, s'.blobs, s.fs[k]) == Show(s.ver, s.blobs, s.fs[k])
    {
      SameShow(s.ver, s.blobs, s'.ver, s'.blobs, s.fs[k]);
    }
  }

  /** A new version goes after those that were there. */
  lemma ShowAfterPut(ver: Versions, blobs: Files, id: U64, n: U64, v: Version)
    requires n + 1 < U64_LIMIT
    ensures ReadAll(ver[(id, n + 1) := v], blobs, id, n + 1) == ReadAll(ver, blobs, id, n) + [ReadRow(v, blobs)]
  {
    var a, b := ReadAll(ver[(id, n + 1) := v], blobs, id, n + 1), ReadAll(ver, blobs, id, n) + [ReadRow(v, blobs)];
    forall i: nat | i < |a|
      ensures a[i] == b[i]
    {
    }
  }

  // ----- The calls -----

  lemma MakeDirectoryRefines(c: Config, s: State, path: Path)
    requires Forest(c.host, s.fs, s.seqno) && path != []
    requires MakeDirectory(c, s, path).1 != Failed(Overflow)
    ensures var (s', reply) := MakeDirectory(c, s, path);
            (View(c.host, s'), reply) == AbsMakeDirectory(View(c.host, s), CreatePath(c, path), StoredName(c, path))
  {
    var (s', reply) := MakeDirectory(c, s, path);
    var p := CreatePath(c, path);
    LocateRefines(c.host, s, p);
    if reply == Done {
      var key := Locate(c.host, s.fs, p).value;
      LocatedParent(c.host, s.fs, s.seqno, p);
      InsertRefines(c.host, s, s', p, key, s'.fs[key]);
    }
  }

  lemma NewFileRefines(h: Host, s: State, p: Path, key: Bytes, u: Ulid, name: Bytes, v: Version)
    requires Forest(h, s.fs, s.seqno) && p != [] && Locate(h, s.fs, p) == Ok(key)
    requires key !in s.fs && s.seqno + 1 < U64_LIMIT
    ensures View(h, PutVersion(s, key, u, name, v)) ==
            View(h, s)[p := Node(VersionBlob, 1, name, [ReadRow(v, s.blobs)])]
  {
    var s' := PutVersion(s, key, u, name, v);
    var r := s'.fs[key];
    LocatedParent(h, s.fs, s.seqno, p);
    ForestAfterInsert(h, s.fs, s.seqno, key, r);
    OneFileOnly(s, s', r.id, 1, v);
    InsertRefines(h, s, s', p, key, r);
    ShowAfterPut(s.ver, s.blobs, r.id, 0, v);
    assert Show(s'.ver, s'.blobs, r).versions == [ReadRow(v, s.blobs)];
  }

  lemma NextVersionRefines(h: Host, s: State, p: Path, key: Bytes, u: Ulid, name: Bytes, v: Version)
    requires DistinctIds(s.fs) && p != [] && Locate(h, s.fs, p) == Ok(key)
    requires key in s.fs && s.fs[key].kind == VersionBlob && s.fs[key].latest + 1 < U64_LIMIT
    ensures p in View(h, s) && View(h, s)[p].kind == VersionBlob && View(h, s)[p].latest == s.fs[key].latest
    ensures var node := View(h, s)[p];
            View(h, PutVersion(s, key, u, name, v)) ==
            View(h, s)[p := Node(VersionBlob, node.latest + 1, name, node.versions + [ReadRow(v, s.blobs)])]
  {
    var s' := PutVersion(s, key, u, name, v);
    var r := s'.fs[key];
    LocateRefines(h, s, p);
    ShowAfterPut(s.ver, s.blobs, r.id, s.fs[key].latest, v);
    OneFileOnly(s.(fs := s.fs - {key}), s', r.id, r.latest, v);
    ReplaceRefines(h, s, s', p, key, r);
  }

  lemma SealRefines(h: Host, s: State, r: UploadArg, u: Ulid, sealed: Ulid)
    requires u in s.blobs && |r.data| <= MAX_FILE && u != sealed
    requires Unnamed(s.ver, u) && Unnamed(s.ver, sealed)
    requires r.continuation == [] ==> s.blobs[u] == r.data
    ensures View(h, Seal(s, r, u, sealed)) == View(h, s)
    ensures ReadRow(SealedRow(r, u, sealed), Seal(s, r, u, sealed).blobs) == Uploaded(r, u, sealed, s.blobs[u])
  {
    var s1 := Seal(s, r, u, sealed);
    BlobsOnly(s, s1);
    SameView(h, s, s1);
  }

  lemma FinishUploadRefines(c: Config, s: State, r: UploadArg, u: Ulid, sealed: Ulid)
    requires Forest(c.host, s.fs, s.seqno) && c.rep.acceptNext
    requires r.path != [] && u in s.blobs && |r.data| <= MAX_FILE
    requires Unnamed(s.ver, u) && Unnamed(s.ver, sealed) && u != sealed
    requires r.continuation == [] ==> s.blobs[u] == r.data
    requires !Exhausted(FinishUpload(c, s, r, u, sealed).1)
    ensures var (s', reply) := FinishUpload(c, s, r, u, sealed);
            (View(c.host, s'), reply) ==
            AbsUpload(View(c.host, s), CreatePath(c, r.path), StoredName(c, r.path), r.next,
                      Uploaded(r, u, sealed, s.blobs[u]))
  {
    hide Seal, SealedRow, PutVersion, Uploaded, DistinctIds, IdsUpTo, View, Locate, Walk;
    var p, name := CreatePath(c, r.path), StoredName(c, r.path);
    LocateRefines(c.host, s, p);
    if FinishUpload(c, s, r, u, sealed).1 == Done {
      var key := Locate(c.host, s.fs, p).value;
      var s1, v := Seal(s, r, u, sealed), SealedRow(r, u, sealed);
      SealRefines(c.host, s, r, u, sealed);
      if key in s.fs {
        NextVersionRefines(c.host, s1, p, key, u, name, v);
      } else {
        NewFileRefines(c.host, s1, p, key, u, name, v);
      }
    }
  }

  lemma WriteRefines(h: Host, s: State, u: Ulid, data: Bytes)
    requires Unnamed(s.ver, u)
    ensures View(h, Write(s, u, data).0) == View(h, s)
  {
    var s1 := Write(s, u, data).0;
    BlobsOnly(s, s1);
    SameView(h, s, s1);
  }

  /** Sealing takes the blob away from its token; nothing else is pending differently. */
  lemma SealPending(s: State, r: UploadArg, u: Ulid, sealed: Ulid)
    requires u in s.blobs && sealed !in s.issued && (r.continuation == [] ==> u !in s.issued)
    ensures Pending(Seal(s, r, u, sealed)) == Pending(s) - {u}
  {
  }

  lemma FragmentPending(s: State, r: UploadArg, u: Ulid)
    requires (r.continuation == [] && NewUlid(s, u)) || (r.continuation != [] && u in s.issued)
    requires Write(s, u, r.data).1
    ensures var (p, s1) := (Pending(s), Write(s, u, r.data).0);
            var content := (if u in p then p[u] else []) + r.data;
            && s1.blobs[u] == content
            && Pending(s1) == (if r.continuation == [] then p else p[u := content])
            && Pending(s1.(issued := s1.issued + {u})) == p[u := content]
  {
    var p := Pending(s);
    assert (if u in p then p[u] else []) == Contents(s, u);
  }

  /** The write itself: paths show the same, and the token holds what was sent so far. */
  lemma FragmentRefines(h: Host, s: State, r: UploadArg, u: Ulid)
    requires Inv(h, s) && (if r.continuation == [] then NewUlid(s, u) else u in s.issued)
    requires Write(s, u, r.data).1
    ensures var (a, s1) := (Abs(h, s), Write(s, u, r.data).0);
            var content := SoFar(a, u) + r.data;
            && u in s1.blobs && s1.blobs[u] == content && View(h, s1) == a.fs
            && Pending(s1) == (if r.continuation == [] then a.pending else a.pending[u := content])
            && Pending(s1.(issued := s1.issued + {u})) == a.pending[u := content]
  {
    UnheldIsUnnamed(s, u);
    WriteRefines(h, s, u, r.data);
    FragmentPending(s, r, u);
  }

  lemma UploadRefines(c: Config, s: State, r: UploadArg, minted: Ulid, sealed: Ulid)
    requires Inv(c.host, s) && Admissible(s, UploadCall(r, minted, sealed)) && c.rep.acceptNext
    requires !Exhausted(Upload(c, s, r, minted, sealed).1)
    ensures var (s', reply) := Upload(c, s, r, minted, sealed);
            (Abs(c.host, s'), reply) == AbsUploadStep(c, Abs(c.host, s), r, minted, sealed)
  {
    if r.path != [] && TokenName(r.continuation, minted).Some? {
      var u := TokenName(r.continuation, minted).value;
      FragmentRefines(c.host, s, r, u);
      if !r.incomplete {
        FinishedRefines(c, s, r, u, sealed);
      }
    }
  }

  lemma FinishedRefines(c: Config, s: State, r: UploadArg, u: Ulid, sealed: Ulid)
    requires Inv(c.host, s) && NewUlid(s, sealed) && u != sealed && c.rep.acceptNext && r.path != []
    requires if r.continuation == [] then NewUlid(s, u) else u in s.issued
    requires Write(s, u, r.data).1
    requires !Exhausted(FinishUpload(c, Write(s, u, r.data).0, r, u, sealed).1)
    ensures var (a, s1) := (Abs(c.host, s), Write(s, u, r.data).0);
            var content := SoFar(a, u) + r.data;
            var (s', reply) := FinishUpload(c, s1, r, u, sealed);
            && (View(c.host, s'), reply) ==
               AbsUpload(a.fs, CreatePath(c, r.path), StoredName(c, r.path), r.next, Uploaded(r, u, sealed, content))
            && Pending(s') == if reply == Done then Pending(s1) - {u} else Pending(s1)
  {
    var s1 := Write(s, u, r.data).0;
    FragmentRefines(c.host, s, r, u);
    UnheldIsUnnamed(s, u);
    UnheldIsUnnamed(s, sealed);
    FinishUploadRefines(c, s1, r, u, sealed);
    FinishUploadFiles(c, s1, r, u, sealed);
    SealPending(s1, r, u, sealed);
  }

  lemma FindRefines(c: Config, s: State, path: Path)
    ensures var (p, found) := (Nfkd(c, path), FindFile(c, s, path));
            && found.Ok? == AbsFind(View(c.host, s), p).Ok?
            && (found.Err? ==> found.error == AbsFind(View(c.host, s), p).error)
            && (found.Ok? ==>
                  && p != [] && Locate(c.host, s.fs, p) == Ok(found.value)
                  && AbsFind(View(c.host, s), p).value == Show(s.ver, s.blobs, s.fs[found.value]))
  {
    if path != [] {
      LocateRefines(c.host, s, Nfkd(c, path));
    }
  }

  /** Removing a file's versions and blobs is not seen in any other file. */
  lemma PurgeOnlyThis(s: State, key: Bytes)
    requires VersionInv(s) && DistinctIds(s.fs) && key in s.fs && s.fs[key].kind == VersionBlob
    requires Purge(true, s.ver, s.blobs, s.fs[key].id, s.fs[key].latest).finished
    ensures var p := Purge(true, s.ver, s.blobs, s.fs[key].id, s.fs[key].latest);
            ShowsSame(s.(fs := s.fs - {key}), s.(fs := s.fs - {key}, ver := p.ver, blobs := p.blobs))
  {
    var id, latest := s.fs[key].id, s.fs[key].latest;
    var p := Purge(true, s.ver, s.blobs, id, latest);
    PurgeKeepsOthers(true, s.ver, s.blobs, id, latest);
    PurgeRemovesVersions(true, s.ver, s.blobs, id, latest);
    forall k | k in s.fs - {key}
      ensures Show(p.ver, p.blobs, s.fs[k]) == Show(s.ver, s.blobs, s.fs[k])
    {
      SameShow(s.ver, s.blobs, p.ver, p.blobs, s.fs[k]);
    }
  }

  lemma DeleteRefines(c: Config, s: State, path: Path, expected: Option<U64>)
    requires Inv(c.host, s) && c.rep.finishDelete
    ensures var (s', reply) := Delete(c, s, path, expected);
            (View(c.host, s'), reply) == AbsDelete(View(c.host, s), Nfkd(c, path), expected)
  {
    FindRefines(c, s, path);
    var (s', reply) := Delete(c, s, path, expected);
    if FindFile(c, s, path).Ok? {
      var key := FindFile(c, s, path).value;
      var r := s.fs[key];
      if r.kind == VersionBlob {
        SkippingFinishes(s.ver, s.blobs, r.id, r.latest);
        PurgeOnlyThis(s, key);
      }
      if reply == Done {
        RemoveRefines(c.host, s, s', Nfkd(c, path), key);
      }
    }
  }

  lemma MoveRowRefines(
    h: Host, s: State, src: Path, from: Bytes, expected: Option<U64>, dest: Path, to: Bytes, name: Bytes)
    requires DistinctIds(s.fs) && src != [] && dest != [] && !(src < dest)
    requires Locate(h, s.fs, src) == Ok(from) && from in s.fs && Locate(h, s.fs, dest) == Ok(to)
    ensures var (s', reply) := MoveRow(s, from, expected, to, name);
            View(h, s') == if reply == Done then Reroot(View(h, s), src, dest, name) else View(h, s)
    ensures MoveRow(s, from, expected, to, name).1 ==
            if expected.Some? && expected.value != s.fs[from].latest then Failed(NotLatest)
            else if to in s.fs && dest != src then Failed(AlreadyExists)
            else Done
  {
    var (s', reply) := MoveRow(s, from, expected, to, name);
    OnePathPerKey(h, s.fs, src);
    if reply == Done {
      RekeyRefines(h, s, src, from, dest, to, s'.fs[to]);
    }
  }

  lemma MoveRefines(c: Config, s: State, path: Path, expected: Option<U64>, destination: Path)
    requires DistinctIds(s.fs) && c.rep.guardMove && path != [] && destination != []
    ensures var (s', reply) := Move(c, s, path, expected, destination);
            (View(c.host, s'), reply) ==
            AbsMove(View(c.host, s), Nfkd(c, path), expected, Nfkd(c, destination), Last(destination))
  {
    hide View, MoveRow, Locate, Reroot;
    var src, dest := Nfkd(c, path), Nfkd(c, destination);
    LocateRefines(c.host, s, src);
    LocateRefines(c.host, s, dest);
    var from, to := Locate(c.host, s.fs, src), Locate(c.host, s.fs, dest);
    if !(src < dest) && from.Ok? && to.Ok? && from.value in s.fs {
      MoveRowRefines(c.host, s, src, from.value, expected, dest, to.value, Last(destination));
    }
  }

  /** What re-rooting means for paths, when the destination does not lie above the source. */
  ghost predicate MovedTo(v: Fs, src: Path, dest: Path, name: Bytes, v': Fs)
  {
    && src in v && dest in v' && v'[dest] == v[src].(name := name)
    && (forall below: Path :: below != [] ==>
          (dest + below in v' <==> src + below in v) && (src + below in v ==> v'[dest + below] == v[src + below]))
    && (src != dest ==> forall below: Path :: src + below !in v')
    && (forall q: Path :: !(src <= q) && !(dest <= q) ==> (q in v' <==> q in v) && (q in v ==> v'[q] == v[q]))
  }

  lemma RerootMoves(v: Fs, src: Path, dest: Path, name: Bytes)
    requires src in v && !(src < dest) && !(dest < src)
    ensures MovedTo(v, src, dest, name, Reroot(v, src, dest, name))
  {
    var v' := Reroot(v, src, dest, name);
    assert Before(src, dest, dest) == src + [] == src;
    forall below: Path
      ensures Before(src, dest, dest + below) == src + below
      ensures src != dest ==> !(dest <= src + below)
    {
      assert (dest + below)[|dest|..] == below;
      if dest <= src + below {
        PrefixesCompare(src, dest, src + below);
      }
    }
  }

  lemma PrefixesCompare(p: Path, q: Path, whole: Path)
    requires p <= whole && q <= whole
    ensures p <= q || q <= p
  {
    assert whole[..|p|] == p && whole[..|q|] == q;
  }

  /** A move whose destination is not inside the source changes one key of one table, and with it
      re-roots the whole subtree: each path below the destination leads to what the same path
      below the source led to, and reads the same; nothing is left at the source; every other path
      is as it was. */
  lemma MoveReroots(c: Config, s: State, path: Path, expected: Option<U64>, destination: Path)
    requires DistinctIds(s.fs) && Move(c, s, path, expected, destination).1 == Done
    requires !(Nfkd(c, path) < Nfkd(c, destination))
    ensures var s' := Move(c, s, path, expected, destination).0;
            && MovedTo(View(c.host, s), Nfkd(c, path), Nfkd(c, destination), Last(destination), View(c.host, s'))
            && s'.ver == s.ver && s'.blobs == s.blobs && s'.seqno == s.seqno
            && exists from, to :: from in s.fs && to in s'.fs && s'.fs - {to} == s.fs - {from}
  {
    hide View, MoveRow, Locate, Reroot, MovedTo;
    var src, dest, name := Nfkd(c, path), Nfkd(c, destination), Last(destination);
    var from, to := Locate(c.host, s.fs, src).value, Locate(c.host, s.fs, dest).value;
    MoveRowRefines(c.host, s, src, from, expected, dest, to, name);
    MoveRowOneKey(s, from, expected, to, name);
    LocateRefines(c.host, s, src);
    DestinationNotAbove(c.host, s.fs, src, from, dest, to);
    RerootMoves(View(c.host, s), src, dest, name);
  }

  lemma MoveRowOneKey(s: State, from: Bytes, expected: Option<U64>, to: Bytes, name: Bytes)
    requires from in s.fs && MoveRow(s, from, expected, to, name).1 == Done
    ensures var s' := MoveRow(s, from, expected, to, name).0;
            && to !in s.fs - {from} && to in s'.fs && s'.fs - {to} == s.fs - {from}
            && s'.ver == s.ver && s'.blobs == s.blobs && s'.seqno == s.seqno
  {
  }

  lemma DestinationNotAbove(h: Host, fs: Table, src: Path, from: Bytes, dest: Path, to: Bytes)
    requires DistinctIds(fs) && src != [] && dest != []
    requires Locate(h, fs, src) == Ok(from) && from in fs && Locate(h, fs, dest) == Ok(to) && to !in fs - {from}
    ensures !(dest < src)
  {
    OnePathPerKey(h, fs, src);
    OnePathPerKey(h, fs, dest);
    MoveNeverCovers(h, fs, src, from, dest, to, fs[from]);
  }

  lemma CopyRefines(c: Config, s: State, path: Path, destination: Path, minted: Ulid)
    requires Inv(c.host, s) && Hollow(s) && c.rep.cloneName
    requires NewUlid(s, minted) && path != [] && destination != []
    requires !Exhausted(Copy(c, s, path, destination, minted).1)
    ensures var (s', reply) := Copy(c, s, path, destination, minted);
            (View(c.host, s'), reply) ==
            AbsCopy(View(c.host, s), Nfkd(c, path), Nfkd(c, destination), Last(destination))
  {
    var src, dest := Nfkd(c, path), Nfkd(c, destination);
    LocateRefines(c.host, s, src);
    LocateRefines(c.host, s, dest);
    if Locate(c.host, s.fs, src).Ok? && Locate(c.host, s.fs, dest).Ok? && Locate(c.host, s.fs, src).value in s.fs {
      CopyRowRefines(c.host, s, s.fs[Locate(c.host, s.fs, src).value], dest,
                     Locate(c.host, s.fs, dest).value, Last(destination), minted);
    }
  }

  lemma CopyRowRefines(h: Host, s: State, record: Record, dest: Path, key: Bytes, name: Bytes, minted: Ulid)
    requires Inv(h, s) && NewUlid(s, minted) && dest != [] && Locate(h, s.fs, dest) == Ok(key)
    requires Cloned(record.kind) ==> record.blob !in s.blobs
    requires !Exhausted(CopyRow(true, s, record, key, name, minted).1)
    ensures var (s', reply) := CopyRow(true, s, record, key, name, minted);
            View(h, s') == (if reply == Done then View(h, s)[dest := Node(NormalBlob, 1, name, [])] else View(h, s))
    ensures CopyRow(true, s, record, key, name, minted).1 ==
            if Cloned(record.kind) then Failed(NoBlob)
            else if record.kind !in {Symlink, VersionBlob} then Failed(NotCopyable)
            else if key in s.fs then Failed(AlreadyExists)
            else Done
  {
    hide Dense, Owned, Held, Disjoint, Whole, FileSizes, Locate, Walk, View, NamedBlobsSame, DistinctIds;
    var (s', reply) := CopyRow(true, s, record, key, name, minted);
    CloneUnseen(true, s, record, key, name, minted);
    BlobsOnly(s, s');
    if reply == Done {
      LocatedParent(h, s.fs, s.seqno, dest);
      ForestAfterInsert(h, s.fs, s.seqno, key, s'.fs[key]);
      InsertRefines(h, s, s', dest, key, s'.fs[key]);
    } else {
      SameView(h, s, s');
    }
  }

  lemma CloneUnseen(byName: bool, s: State, record: Record, key: Bytes, name: Bytes, minted: Ulid)
    requires Held(s.ver, s.blobs, s.issued) && NewUlid(s, minted)
    ensures NamedBlobsSame(s.ver, s.blobs, CopyRow(byName, s, record, key, name, minted).0.blobs)
    ensures CopyRow(byName, s, record, key, name, minted).0.ver == s.ver
  {
    UnheldIsUnnamed(s, minted);
  }

  /** Growing one blob is seen only in the fragmented versions that share it. */
  lemma ReadAfterGrow(ver: Versions, blobs: Files, u: Ulid, data: Bytes, id: U64, v: U64)
    requires u in blobs
    requires (id, v) in ver ==> HeldAt(ver[(id, v)], blobs, {})
    ensures ReadVersion(ver, blobs[u := blobs[u] + data], id, v) == Grown(ReadVersion(ver, blobs, id, v), u, data)
  {
    if (id, v) in ver && ver[(id, v)].blob == Some(u) && ver[(id, v)].length != UNKNOWN_SIZE {
      assert (blobs[u] + data)[..ver[(id, v)].length] == blobs[u][..ver[(id, v)].length];
    }
  }

  lemma ReadAllAfterGrow(ver: Versions, blobs: Files, u: Ulid, data: Bytes, id: U64, n: U64)
    requires u in blobs && forall iv :: iv in ver ==> HeldAt(ver[iv], blobs, {})
    ensures ReadAll(ver, blobs[u := blobs[u] + data], id, n) == GrownAll(ReadAll(ver, blobs, id, n), u, data)
  {
    var a, b := ReadAll(ver, blobs[u := blobs[u] + data], id, n), GrownAll(ReadAll(ver, blobs, id, n), u, data);
    forall i: nat | i < |a|
      ensures a[i] == b[i]
    {
      ReadAfterGrow(ver, blobs, u, data, id, i + 1);
    }
  }

  /** An append is not seen in any other file, since no other file shares the blob. */
  lemma AppendOnlyThis(s: State, key: Bytes, data: Bytes)
    requires VersionInv(s) && DistinctIds(s.fs) && key in s.fs && (s.fs[key].id, s.fs[key].latest) in s.ver
    ensures ShowsSame(s.(fs := s.fs - {key}), AppendTo(true, s, key, data).0)
  {
    hide Show, Dense, Whole;
    var s' := AppendTo(true, s, key, data).0;
    var v := s.ver[(s.fs[key].id, s.fs[key].latest)];
    forall k | k in s.fs - {key}
      ensures Show(s'.ver, s'.blobs, s.fs[k]) == Show(s.ver, s.blobs, s.fs[k])
    {
      assert HeldAt(v, s.blobs, s.issued);
      SameShow(s.ver, s.blobs, s'.ver, s'.blobs, s.fs[k]);
    }
  }

  /** What an append that succeeds starts from, and what it leaves in the tables. */
  ghost predicate AppendTables(s: State, key: Bytes, data: Bytes, u: Ulid, s': State)
    requires key in s.fs && (s.fs[key].id, s.fs[key].latest) in s.ver
  {
    var r := s.fs[key];
    var v := s.ver[(r.id, r.latest)];
    && r.kind == VersionBlob && 1 <= r.latest && r.latest + 1 < U64_LIMIT
    && v.blob == Some(u) && u in s.blobs
    && (v.length == UNKNOWN_SIZE || v.length == |s.blobs[u]|)
    && |s.blobs[u] + data| <= MAX_FILE
    && s'.fs == s.fs[key := r.(latest := r.latest + 1)]
    && s'.blobs == s.blobs[u := s.blobs[u] + data]
    && s'.ver == s.ver[(r.id, r.latest + 1) := Version(|s.blobs[u] + data|, Some(u))]
  }

  /** The length it records is the length of the blob, whichever way it was worked out. */
  lemma AppendedTables(s: State, key: Bytes, data: Bytes) returns (u: Ulid)
    requires VersionInv(s) && key in s.fs && (s.fs[key].id, s.fs[key].latest) in s.ver
    requires AppendTo(true, s, key, data).1 == Done
    ensures AppendTables(s, key, data, u, AppendTo(true, s, key, data).0)
  {
    hide Disjoint, FileSizes, Owned;
    var r := s.fs[key];
    assert DenseAt(s.ver, r) && WholeAt(r, s.ver, s.blobs) && HeldAt(s.ver[(r.id, r.latest)], s.blobs, s.issued);
    u := s.ver[(r.id, r.latest)].blob.value;
  }

  /** A file gains one version, which reads as the one before it followed by the new bytes. */
  lemma AppendedReadings(ver: Versions, blobs: Files, id: U64, n: U64, u: Ulid, data: Bytes)
    requires 1 <= n && n + 1 < U64_LIMIT && (id, n) in ver && ver[(id, n)].blob == Some(u) && u in blobs
    requires ver[(id, n)].length == UNKNOWN_SIZE || ver[(id, n)].length == |blobs[u]|
    requires forall iv :: iv in ver ==> HeldAt(ver[iv], blobs, {})
    requires |blobs[u] + data| <= MAX_FILE
    ensures var (versions, grown) := (ReadAll(ver, blobs, id, n), blobs[u] + data);
            && versions[n - 1].Reading? && versions[n - 1].cell == u && versions[n - 1].bytes == blobs[u]
            && ReadAll(ver[(id, n + 1) := Version(|grown|, Some(u))], blobs[u := grown], id, n + 1) ==
               GrownAll(versions, u, data) + [Reading(true, u, grown)]
  {
    var blobs' := blobs[u := blobs[u] + data];
    var v := Version(|blobs'[u]|, Some(u));
    ReadAllAfterGrow(ver, blobs, u, data, id, n);
    ShowAfterPut(ver, blobs', id, n, v);
    assert ReadRow(v, blobs') == Reading(true, u, blobs'[u]);
  }

  lemma AppendedNode(s: State, key: Bytes, data: Bytes, u: Ulid, s': State)
    requires key in s.fs && (s.fs[key].id, s.fs[key].latest) in s.ver && AppendTables(s, key, data, u, s')
    requires forall iv :: iv in s.ver ==> HeldAt(s.ver[iv], s.blobs, {})
    ensures Appendable(Show(s.ver, s.blobs, s.fs[key]))
    ensures Show(s'.ver, s'.blobs, s'.fs[key]) == Appended(Show(s.ver, s.blobs, s.fs[key]), data)
  {
    AppendedReadings(s.ver, s.blobs, s.fs[key].id, s.fs[key].latest, u, data);
  }

  lemma AppendToRefines(h: Host, s: State, p: Path, key: Bytes, data: Bytes)
    requires Inv(h, s) && p != [] && Locate(h, s.fs, p) == Ok(key)
    requires key in s.fs && (s.fs[key].id, s.fs[key].latest) in s.ver
    requires AppendTo(true, s, key, data).1 == Done
    ensures var node := Show(s.ver, s.blobs, s.fs[key]);
            Appendable(node) && View(h, AppendTo(true, s, key, data).0) == View(h, s)[p := Appended(node, data)]
  {
    var s' := AppendTo(true, s, key, data).0;
    var u := AppendedTables(s, key, data);
    assert forall iv :: iv in s.ver ==> HeldAt(s.ver[iv], s.blobs, s.issued);
    AppendedNode(s, key, data, u, s');
    AppendOnlyThis(s, key, data);
    ReplaceRefines(h, s, s', p, key, s'.fs[key]);
  }

  /** An append that does not succeed, and does not run out of space or numbers, found no file it
      could append to. */
  lemma AppendRefusal(c: Config, s: State, path: Path, expected: Option<U64>, data: Bytes)
    requires Inv(c.host, s) && c.rep.writeAppend && FindFile(c, s, path).Ok?
    requires Append(c, s, path, expected, data).1 != Done && !Exhausted(Append(c, s, path, expected, data).1)
    ensures var r := s.fs[FindFile(c, s, path).value];
            && Append(c, s, path, expected, data).0 == s
            && Append(c, s, path, expected, data).1 ==
               (if !Readable(r.kind) then Failed(NotReadable)
                else if expected.Some? && expected.value != r.latest then Failed(NotLatest)
                else Failed(MissingVersion))
            && (Append(c, s, path, expected, data).1 == Failed(MissingVersion) ==> r.kind != VersionBlob)
  {
    hide FindFile, Locate;
    assert DenseAt(s.ver, s.fs[FindFile(c, s, path).value]);
  }

  lemma AppendRefines(c: Config, s: State, path: Path, expected: Option<U64>, data: Bytes)
    requires Inv(c.host, s) && c.rep.writeAppend
    requires !Exhausted(Append(c, s, path, expected, data).1)
    ensures var (s', reply) := Append(c, s, path, expected, data);
            (View(c.host, s'), reply) == AbsAppend(View(c.host, s), Nfkd(c, path), expected, data)
  {
    hide View;
    FindRefines(c, s, path);
    if FindFile(c, s, path).Ok? {
      if Append(c, s, path, expected, data).1 == Done {
        AppendToRefines(c.host, s, Nfkd(c, path), FindFile(c, s, path).value, data);
      } else {
        AppendRefusal(c, s, path, expected, data);
      }
    }
  }

  // ----- The theorem -----

  lemma SamePending(s: State, s': State)
    requires s'.issued == s.issued
    requires forall u :: u in s.issued ==> (u in s.blobs <==> u in s'.blobs)
    requires forall u :: u in s.issued && u in s.blobs ==> s'.blobs[u] == s.blobs[u]
    ensures Pending(s') == Pending(s)
  {
  }

  lemma AppendToPending(commit: bool, s: State, key: Bytes, data: Bytes)
    requires Held(s.ver, s.blobs, s.issued)
    requires key in s.fs && (s.fs[key].id, s.fs[key].latest) in s.ver
    ensures Pending(AppendTo(commit, s, key, data).0) == Pending(s)
  {
    assert HeldAt(s.ver[(s.fs[key].id, s.fs[key].latest)], s.blobs, s.issued);
    SamePending(s, AppendTo(commit, s, key, data).0);
  }

  lemma AppendPending(c: Config, s: State, path: Path, expected: Option<U64>, data: Bytes)
    requires Held(s.ver, s.blobs, s.issued)
    ensures Pending(Append(c, s, path, expected, data).0) == Pending(s)
  {
    if Append(c, s, path, expected, data).0 != s {
      AppendToPending(c.rep.writeAppend, s, FindFile(c, s, path).value, data);
    }
  }

  lemma DeletePending(c: Config, s: State, path: Path, expected: Option<U64>)
    requires VersionInv(s)
    ensures Pending(Delete(c, s, path, expected).0) == Pending(s)
  {
    if FindFile(c, s, path).Ok? {
      var r := s.fs[FindFile(c, s, path).value];
      PurgePending(s, c.rep.finishDelete, r.id, r.latest);
    }
  }

  lemma CopyRowPending(byName: bool, s: State, record: Record, key: Bytes, name: Bytes, minted: Ulid)
    requires NewUlid(s, minted)
    ensures Pending(CopyRow(byName, s, record, key, name, minted).0) == Pending(s)
  {
    SamePending(s, CopyRow(byName, s, record, key, name, minted).0);
  }

  lemma CopyPending(c: Config, s: State, path: Path, destination: Path, minted: Ulid)
    requires NewUlid(s, minted)
    ensures Pending(Copy(c, s, path, destination, minted).0) == Pending(s)
  {
    if path != [] && destination != [] {
      var src, dest := Locate(c.host, s.fs, Nfkd(c, path)), Locate(c.host, s.fs, Nfkd(c, destination));
      if src.Ok? && dest.Ok? && src.value in s.fs {
        CopyRowPending(c.rep.cloneName, s, s.fs[src.value], dest.value, Last(destination), minted);
      }
    }
  }

  /** Calls other than upload leave what is pending under tokens alone. */
  lemma CallPending(c: Config, s: State, call: Call)
    requires VersionInv(s) && Admissible(s, call) && !call.UploadCall?
    ensures Pending(Step(c, s, call).0) == Pending(s)
  {
    hide Append, Delete, Copy, Locate;
    match call
    case AppendCall(path, expected, data) => AppendPending(c, s, path, expected, data);
    case DeleteCall(path, expected) => DeletePending(c, s, path, expected);
    case CopyCall(path, destination, minted) => CopyPending(c, s, path, destination, minted);
    case _ =>
  }

  lemma PurgePending(s: State, skip: bool, id: U64, v: U64)
    requires VersionInv(s)
    ensures Pending(s.(blobs := Purge(skip, s.ver, s.blobs, id, v).blobs)) == Pending(s)
  {
    PurgeKeepsOthers(skip, s.ver, s.blobs, id, v);
    forall u: Ulid | u in s.issued
      ensures !NamedUpTo(s.ver, id, v, u)
    {
      UnheldIsUnnamed(s, u);
    }
  }

  /** Each call does to what clients see exactly what the specification says, and answers the
      same, unless it runs out of disk or of numbers. */
  lemma StepRefines(c: Config, s: State, call: Call)
    requires Inv(c.host, s) && Hollow(s) && Admissible(s, call) && Intended(c.rep)
    requires !Exhausted(Step(c, s, call).1)
    ensures var (s', reply) := Step(c, s, call);
            (Abs(c.host, s'), reply) == AbsStep(c, Abs(c.host, s), call)
  {
    match call
    case UploadCall(arg, minted, sealed) =>
      UploadRefines(c, s, arg, minted, sealed);
    case _ =>
      CallPending(c, s, call);
      CallRefines(c, s, call);
  }

  lemma CallRefines(c: Config, s: State, call: Call)
    requires Inv(c.host, s) && Hollow(s) && Admissible(s, call) && Intended(c.rep) && !call.UploadCall?
    requires !Exhausted(Step(c, s, call).1)
    ensures var (s', reply) := Step(c, s, call);
            (View(c.host, s'), reply) == AbsCall(c, View(c.host, s), call)
  {
    match call
    case MakeDirectoryCall(path) =>
      if path != [] {
        MakeDirectoryRefines(c, s, path);
      }
    case AppendCall(path, expected, data) =>
      AppendRefines(c, s, path, expected, data);
    case DeleteCall(path, expected) =>
      DeleteRefines(c, s, path, expected);
    case MoveCall(path, expected, destination) =>
      if path != [] && destination != [] {
        MoveRefines(c, s, path, expected, destination);
      }
    case CopyCall(path, destination, minted) =>
      if path != [] && destination != [] {
        CopyRefines(c, s, path, destination, minted);
      }
  }

  // ----- When nothing can be foreseen -----

  /** Writing the data to the blob file would make it too long. */
  ghost predicate Overfills(s: State, u: Option<Ulid>, data: Bytes)
  {
    u.Some? && |Contents(s, u.value)| + |data| > MAX_FILE
  }

  /** The sequence, or the version number of some object, is at its last value. */
  ghost predicate NumbersUsedUp(s: State)
  {
    s.seqno + 1 >= U64_LIMIT || exists k :: k in s.fs && s.fs[k].latest + 1 >= U64_LIMIT
  }

  function DataOf(call: Call): Bytes
  {
    match call
    case UploadCall(arg, _, _) => arg.data
    case AppendCall(_, _, data) => data
    case _ => []
  }

  /** The blob file that append opens. */
  function LatestBlob(s: State, key: Bytes): Option<Ulid>
    requires key in s.fs
  {
    BlobOf(s.ver, s.fs[key].id, s.fs[key].latest)
  }

  /** The blob file that a call writes to. */
  function WritesTo(c: Config, s: State, call: Call): Option<Ulid>
  {
    match call
    case UploadCall(arg, minted, _) => TokenName(arg.continuation, minted)
    case AppendCall(path, _, _) =>
      var found := FindFile(c, s, path);
      if found.Ok? then LatestBlob(s, found.value) else None
    case _ => None
  }

  /** What the two answers mean. */
  ghost predicate ExhaustedFor(s: State, u: Option<Ulid>, data: Bytes, reply: Reply)
  {
    && (reply == Failed(Io) ==> Overfills(s, u, data))
    && (reply == Failed(Overflow) ==> NumbersUsedUp(s))
  }

  lemma FinishUploadExhausted(c: Config, s: State, r: UploadArg, u: Ulid, sealed: Ulid)
    requires r.path != [] && u in s.blobs && |r.data| <= MAX_FILE
    ensures var reply := FinishUpload(c, s, r, u, sealed).1;
            reply != Failed(Io) && (reply == Failed(Overflow) ==> NumbersUsedUp(s))
  {
    hide Locate, Seal, SealedRow, PutVersion;
    LocateErrors(c.host, s.fs, CreatePath(c, r.path));
  }

  lemma FindErrors(c: Config, s: State, path: Path)
    ensures FindFile(c, s, path).Err? ==> !Exhausted(Failed(FindFile(c, s, path).error))
  {
    if path != [] {
      LocateErrors(c.host, s.fs, Nfkd(c, path));
    }
  }

  lemma UploadExhausted(c: Config, s: State, r: UploadArg, minted: Ulid, sealed: Ulid)
    ensures ExhaustedFor(s, TokenName(r.continuation, minted), r.data, Upload(c, s, r, minted, sealed).1)
  {
    hide FinishUpload;
    if r.path != [] && TokenName(r.continuation, minted).Some? {
      var u := TokenName(r.continuation, minted).value;
      var (s1, written) := Write(s, u, r.data);
      if written && !r.incomplete {
        FinishUploadExhausted(c, s1, r, u, sealed);
      }
    }
  }

  lemma AppendToExhausted(s: State, key: Bytes, data: Bytes)
    requires VersionInv(s) && key in s.fs && (s.fs[key].id, s.fs[key].latest) in s.ver
    ensures ExhaustedFor(s, LatestBlob(s, key), data, AppendTo(true, s, key, data).1)
  {
    var v := s.ver[(s.fs[key].id, s.fs[key].latest)];
    assert HeldAt(v, s.blobs, s.issued);
    assert |Contents(s, v.blob.value)| <= MAX_FILE;
  }

  lemma AppendExhausted(c: Config, s: State, path: Path, expected: Option<U64>, data: Bytes)
    requires VersionInv(s) && c.rep.writeAppend
    ensures var call := AppendCall(path, expected, data);
            ExhaustedFor(s, WritesTo(c, s, call), data, Append(c, s, path, expected, data).1)
  {
    hide FindFile, AppendTo, VersionInv;
    FindErrors(c, s, path);
    if FindFile(c, s, path).Ok? {
      var key := FindFile(c, s, path).value;
      if (s.fs[key].id, s.fs[key].latest) in s.ver {
        AppendToExhausted(s, key, data);
      }
    }
  }

  lemma DeleteExhausted(c: Config, s: State, path: Path, expected: Option<U64>)
    requires c.rep.finishDelete
    ensures !Exhausted(Delete(c, s, path, expected).1)
  {
    hide FindFile, Purge;
    FindErrors(c, s, path);
    if FindFile(c, s, path).Ok? {
      var r := s.fs[FindFile(c, s, path).value];
      SkippingFinishes(s.ver, s.blobs, r.id, r.latest);
    }
  }

  lemma TreeCallsExhausted(c: Config, s: State, call: Call)
    requires call.MakeDirectoryCall? || call.MoveCall? || call.CopyCall?
    ensures ExhaustedFor(s, None, [], Step(c, s, call).1)
  {
    hide Locate, Walk;
    match call
    case MakeDirectoryCall(path) =>
      if path != [] {
        LocateErrors(c.host, s.fs, CreatePath(c, path));
      }
    case MoveCall(path, _, destination) => TwoPathErrors(c, s, path, destination);
    case CopyCall(path, destination, _) => TwoPathErrors(c, s, path, destination);
  }

  lemma TwoPathErrors(c: Config, s: State, path: Path, destination: Path)
    ensures path != [] && Locate(c.host, s.fs, Nfkd(c, path)).Err? ==>
              !Exhausted(Failed(Locate(c.host, s.fs, Nfkd(c, path)).error))
    ensures destination != [] && Locate(c.host, s.fs, Nfkd(c, destination)).Err? ==>
              !Exhausted(Failed(Locate(c.host, s.fs, Nfkd(c, destination)).error))
  {
    if path != [] {
      LocateErrors(c.host, s.fs, Nfkd(c, path));
    }
    if destination != [] {
      LocateErrors(c.host, s.fs, Nfkd(c, destination));
    }
  }

  /** A call answers so only if the blob file that it writes to would outgrow what the disk allows,
      or a counter is at its end. */
  lemma ExhaustedOnlyIf(c: Config, s: State, call: Call)
    requires Sound(c.rep) && VersionInv(s)
    ensures ExhaustedFor(s, WritesTo(c, s, call), DataOf(call), Step(c, s, call).1)
  {
    hide VersionInv, Overfills, NumbersUsedUp;
    match call
    case UploadCall(arg, minted, sealed) => UploadExhausted(c, s, arg, minted, sealed);
    case AppendCall(path, expected, data) => AppendExhausted(c, s, path, expected, data);
    case DeleteCall(path, expected) => DeleteExhausted(c, s, path, expected);
    case _ => TreeCallsExhausted(c, s, call);
  }

  // ----- Whole runs -----

  ghost function AbsRun(c: Config, a: AbsState, calls: seq<Call>): AbsState
  {
    if calls == [] then a
    else AbsStep(c, AbsRun(c, a, Front(calls)), Last(calls)).0
  }

  /** The answers that the calls of a run get. */
  function Replies(c: Config, s: State, calls: seq<Call>): seq<Reply>
  {
    if calls == [] then []
    else
      var front := Front(calls);
      Replies(c, s, front) + [Step(c, Run(c, s, front), Last(calls)).1]
  }

  ghost function AbsReplies(c: Config, a: AbsState, calls: seq<Call>): seq<Reply>
  {
    if calls == [] then []
    else
      var front := Front(calls);
      AbsReplies(c, a, front) + [AbsStep(c, AbsRun(c, a, front), Last(calls)).1]
  }

  ghost predicate NeverExhausted(c: Config, s: State, calls: seq<Call>)
  {
    calls == [] ||
    var front := Front(calls);
    NeverExhausted(c, s, front) && !Exhausted(Step(c, Run(c, s, front), Last(calls)).1)
  }

  const EMPTY_FS := AbsState(imap[], map[])

  lemma EmptyLooksEmpty(h: Host)
    ensures Abs(h, EMPTY_STATE) == EMPTY_FS
  {
    assert forall p: Path :: Find(h, map[], p).None?;
  }

  /** Over whole runs from the empty store, the tables and blob files are indistinguishable from
      the path-based file system: they show the same, and every call is answered the same. */
  lemma {:induction false} RunRefines(c: Config, calls: seq<Call>)
    requires Intended(c.rep) && AdmissibleRun(c, EMPTY_STATE, calls) && NeverExhausted(c, EMPTY_STATE, calls)
    ensures Abs(c.host, Run(c, EMPTY_STATE, calls)) == AbsRun(c, EMPTY_FS, calls)
    ensures Replies(c, EMPTY_STATE, calls) == AbsReplies(c, EMPTY_FS, calls)
  {
    hide Step, AbsStep, Inv, Hollow, Admissible, Exhausted, Abs;
    if calls == [] {
      EmptyLooksEmpty(c.host);
    } else {
      var front := Front(calls);
      RunRefines(c, front);
      InitiallyInv(c.host);
      RunKeeps(c, EMPTY_STATE, front);
      RunKeepsHollow(c, EMPTY_STATE, front);
      StepRefines(c, Run(c, EMPTY_STATE, front), Last(calls));
    }
  }
}
