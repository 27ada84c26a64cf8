/** The file system a client sees: paths, and for each file a list of versions. No ids, keys,
    tables or lengths. The storage engine refines it call by call. */
module AbstractFs {
  import opened Wrappers
  import opened Keys
  import opened Store
  import opened Tree

  /** What a version reads as. A version of known length is fixed; one that arrived in fragments
      shows whatever its blob file holds. */
  datatype Reading = Reading(fixed: bool, cell: Ulid, bytes: Bytes) | Unreadable

  /** An object as clients see it; `name` is the name it is listed under. */
  datatype Node = Node(kind: Kind, latest: U64, name: Bytes, versions: seq<Reading>)

  type Fs = imap<Path, Node>

  function ReadRow(row: Version, blobs: Files): Reading
  {
    if row.blob.None? || row.blob.value !in blobs then Unreadable
    else
      var bytes := blobs[row.blob.value];
      if row.length == UNKNOWN_SIZE then Reading(false, row.blob.value, bytes)
      else Reading(true, row.blob.value, if row.length <= |bytes| then bytes[..row.length] else bytes)
  }

  function ReadVersion(ver: Versions, blobs: Files, id: U64, v: U64): Reading
  {
    if (id, v) in ver then ReadRow(ver[(id, v)], blobs) else Unreadable
  }

  function ReadAll(ver: Versions, blobs: Files, id: U64, n: U64): (r: seq<Reading>)
    ensures |r| == n && forall i: nat :: i < n ==> r[i] == ReadVersion(ver, blobs, id, i + 1)
  {
    seq(n, i requires 0 <= i < n => ReadVersion(ver, blobs, id, i + 1))
  }

  function Show(ver: Versions, blobs: Files, r: Record): Node
  {
    Node(r.kind, r.latest, r.name, if r.kind == VersionBlob then ReadAll(ver, blobs, r.id, r.latest) else [])
  }

  ghost function View(h: Host, s: State): Fs
  {
    imap p: Path | Find(h, s.fs, p).Some? :: Show(s.ver, s.blobs, Find(h, s.fs, p).value)
  }

  // ----- The specification, on paths -----

  ghost function AbsWalk(v: Fs, p: Path): Result<(), Error>
  {
    if p == [] then Ok(())
    else match AbsWalk(v, Front(p))
      case Err(e) => Err(e)
      case Ok(_) => if p !in v then Err(NoSuchPath) else if v[p].kind != Folder then Err(NotFolder) else Ok(())
  }

  ghost function AbsMakeDirectory(v: Fs, p: Path, name: Bytes): (Fs, Reply)
    requires p != []
  {
    match AbsWalk(v, Front(p))
    case Err(e) => (v, Failed(e))
    case Ok(_) => if p in v then (v, Failed(AlreadyExists)) else (v[p := Node(Folder, 1, name, [])], Done)
  }

  /** `content` is everything uploaded under the token, the last fragment included. */
  ghost function AbsUpload(v: Fs, p: Path, name: Bytes, next: bool, content: Reading): (Fs, Reply)
    requires p != []
  {
    match AbsWalk(v, Front(p))
    case Err(e) => (v, Failed(e))
    case Ok(_) =>
      if p !in v then (v[p := Node(VersionBlob, 1, name, [content])], Done)
      else if !next || v[p].kind != VersionBlob || v[p].latest + 1 >= U64_LIMIT then (v, Failed(AlreadyExists))
      else (v[p := Node(VersionBlob, v[p].latest + 1, name, v[p].versions + [content])], Done)
  }

  /** A fragmented version that still shares its blob with the latest one shows what is appended. */
  ghost function Grown(r: Reading, cell: Ulid, data: Bytes): Reading
  {
    if r.Reading? && !r.fixed && r.cell == cell then r.(bytes := r.bytes + data) else r
  }

  ghost function GrownAll(versions: seq<Reading>, cell: Ulid, data: Bytes): (r: seq<Reading>)
    ensures |r| == |versions| && forall i :: 0 <= i < |r| ==> r[i] == Grown(versions[i], cell, data)
  {
    seq(|versions|, i requires 0 <= i < |versions| => Grown(versions[i], cell, data))
  }

  /** The last version can be read, so it can be appended to. */
  ghost predicate Appendable(node: Node)
  {
    node.versions != [] && node.versions[|node.versions| - 1].Reading? && node.latest + 1 < U64_LIMIT
  }

  /** One more version: the last one followed by the new bytes. */
  ghost function Appended(node: Node, data: Bytes): Node
    requires Appendable(node)
  {
    var last := node.versions[|node.versions| - 1];
    Node(node.kind, node.latest + 1, node.name,
         GrownAll(node.versions, last.cell, data) + [Reading(true, last.cell, last.bytes + data)])
  }

  ghost function AbsAppend(v: Fs, p: Path, expected: Option<U64>, data: Bytes): (Fs, Reply)
  {
    match AbsFind(v, p)
    case Err(e) => (v, Failed(e))
    case Ok(node) =>
      if !Readable(node.kind) then (v, Failed(NotReadable))
      else if expected.Some? && expected.value != node.latest then (v, Failed(NotLatest))
      else if !Appendable(node) then (v, Failed(MissingVersion))
      else (v[p := Appended(node, data)], Done)
  }

  ghost function AbsFind(v: Fs, p: Path): Result<Node, Error>
  {
    if p == [] then Err(EmptyTarget)
    else match AbsWalk(v, Front(p))
      case Err(e) => Err(e)
      case Ok(_) => if p in v then Ok(v[p]) else Err(NoSuchFile)
  }

  /** Everything at or below `p` disappears. */
  ghost function Pruned(v: Fs, p: Path): Fs
  {
    imap q: Path | q in v && !(p <= q) :: v[q]
  }

  ghost function AbsDelete(v: Fs, p: Path, expected: Option<U64>): (Fs, Reply)
  {
    match AbsFind(v, p)
    case Err(e) => (v, Failed(e))
    case Ok(node) =>
      if expected.Some? && expected.value != node.latest then (v, Failed(NotLatest)) else (Pruned(v, p), Done)
  }

  /** Where a path shown after a move was before it. */
  function Before(src: Path, dest: Path, q: Path): Path
  {
    if dest <= q then src + q[|dest|..] else q
  }

  /** The subtree at `src` hangs at `dest`, its top under a new name; nothing else changes. */
  ghost function Reroot(v: Fs, src: Path, dest: Path, name: Bytes): Fs
  {
    imap q: Path | Before(src, dest, q) in v && (dest <= q || !(src <= q)) ::
      var node := v[Before(src, dest, q)]; if q == dest then node.(name := name) else node
  }

  ghost function AbsMove(v: Fs, src: Path, expected: Option<U64>, dest: Path, name: Bytes): (Fs, Reply)
    requires src != [] && dest != []
  {
    if src < dest then (v, Failed(InsideItself))
    else
      match (AbsWalk(v, Front(src)), AbsWalk(v, Front(dest)))
      case (Err(e), _) => (v, Failed(e))
      case (_, Err(e)) => (v, Failed(e))
      case (Ok(_), Ok(_)) =>
        if src !in v then (v, Failed(NoSuchFile))
        else if expected.Some? && expected.value != v[src].latest then (v, Failed(NotLatest))
        else if dest in v && dest != src then (v, Failed(AlreadyExists))
        else (Reroot(v, src, dest, name), Done)
  }

  /** A plain blob has no contents to copy. */
  ghost function AbsCopy(v: Fs, src: Path, dest: Path, name: Bytes): (Fs, Reply)
    requires src != [] && dest != []
  {
    match (AbsWalk(v, Front(src)), AbsWalk(v, Front(dest)))
    case (Err(e), _) => (v, Failed(e))
    case (_, Err(e)) => (v, Failed(e))
    case (Ok(_), Ok(_)) =>
      if src !in v then (v, Failed(NoSuchFile))
      else if Cloned(v[src].kind) then (v, Failed(NoBlob))
      else if v[src].kind !in {Symlink, VersionBlob} then (v, Failed(NotCopyable))
      else if dest in v then (v, Failed(AlreadyExists))
      else (v[dest := Node(NormalBlob, 1, name, [])], Done)
  }

  // ----- The refinement -----

  lemma ViewAt(h: Host, s: State, p: Path)
    ensures p in View(h, s) <==> Find(h, s.fs, p).Some?
    ensures p in View(h, s) ==> View(h, s)[p] == Show(s.ver, s.blobs, Find(h, s.fs, p).value)
  {
  }

  /** The walk over table keys succeeds, and fails, exactly as the walk over paths does. */
  lemma {:induction false} WalkRefines(h: Host, s: State, p: Path)
    ensures Walk(h, s.fs, p).Ok? == AbsWalk(View(h, s), p).Ok?
    ensures Walk(h, s.fs, p).Err? ==> Walk(h, s.fs, p).error == AbsWalk(View(h, s), p).error
    decreases |p|
  {
    if p != [] {
      var v := View(h, s);
      WalkRefines(h, s, Front(p));
      ViewAt(h, s, p);
      WalkLastStep(h, s.fs, p);
      assert AbsWalk(v, p) == match AbsWalk(v, Front(p))
        case Err(e) => Err(e)
        case Ok(_) => if p !in v then Err(NoSuchPath) else if v[p].kind != Folder then Err(NotFolder) else Ok(());
    }
  }

  lemma WalkLastStep(h: Host, fs: Table, p: Path)
    requires p != []
    ensures Walk(h, fs, Front(p)).Err? ==> Walk(h, fs, p) == Walk(h, fs, Front(p))
    ensures Walk(h, fs, Front(p)).Ok? ==>
              && (Find(h, fs, p).None? ==> Walk(h, fs, p) == Err(NoSuchPath))
              && (Find(h, fs, p).Some? && Find(h, fs, p).value.kind != Folder ==> Walk(h, fs, p) == Err(NotFolder))
              && (Find(h, fs, p).Some? && Find(h, fs, p).value.kind == Folder ==> Walk(h, fs, p).Ok?)
  {
  }

  /** Locating a key is walking to its folder. */
  lemma LocateRefines(h: Host, s: State, p: Path)
    requires p != []
    ensures Locate(h, s.fs, p).Ok? == AbsWalk(View(h, s), Front(p)).Ok?
    ensures Locate(h, s.fs, p).Err? ==> Locate(h, s.fs, p).error == AbsWalk(View(h, s), Front(p)).error
    ensures Locate(h, s.fs, p).Ok? ==> (Locate(h, s.fs, p).value in s.fs <==> p in View(h, s))
    ensures Locate(h, s.fs, p).Ok? && p in View(h, s) ==>
              View(h, s)[p] == Show(s.ver, s.blobs, s.fs[Locate(h, s.fs, p).value])
    ensures p in View(h, s) ==> Locate(h, s.fs, p).Ok?
  {
    WalkRefines(h, s, Front(p));
    ViewAt(h, s, p);
  }

  /** A file reads the same as long as its rows and their blobs are the same. */
  lemma SameShow(ver: Versions, blobs: Files, ver': Versions, blobs': Files, r: Record)
    requires forall v: U64 :: (r.id, v) in ver <==> (r.id, v) in ver'
    requires forall v: U64 :: (r.id, v) in ver ==> ver'[(r.id, v)] == ver[(r.id, v)]
    requires forall v: U64 :: (r.id, v) in ver && ver[(r.id, v)].blob.Some? ==>
               var u := ver[(r.id, v)].blob.value;
               (u in blobs <==> u in blobs') && (u in blobs ==> blobs'[u] == blobs[u])
    ensures Show(ver', blobs', r) == Show(ver, blobs, r)
  {
    var a, b := ReadAll(ver', blobs', r.id, r.latest), ReadAll(ver, blobs, r.id, r.latest);
    forall i: nat | i < |a|
      ensures a[i] == b[i]
    {
    }
    assert a == b;
  }

  /** Two states with one object table, whose files read the same, look the same. */
  lemma SameView(h: Host, s: State, s': State)
    requires s'.fs == s.fs
    requires forall k :: k in s.fs ==> Show(s'.ver, s'.blobs, s.fs[k]) == Show(s.ver, s.blobs, s.fs[k])
    ensures View(h, s') == View(h, s)
  {
  }

  /** Every object in `s` reads the same in `s'`. */
  ghost predicate ShowsSame(s: State, s': State)
  {
    forall k :: k in s.fs ==> Show(s'.ver, s'.blobs, s.fs[k]) == Show(s.ver, s.blobs, s.fs[k])
  }

  /** What a path shows. */
  ghost function At(h: Host, s: State, q: Path): Option<Node>
  {
    match Find(h, s.fs, q)
    case None => None
    case Some(r) => Some(Show(s.ver, s.blobs, r))
  }

  lemma ShowsSameAt(h: Host, s: State, s': State, q: Path)
    requires ShowsSame(s, s') && Find(h, s'.fs, q) == Find(h, s.fs, q)
    ensures At(h, s', q) == At(h, s, q)
  {
  }

  /** A state looks like `v` if every path shows what `v` has there. */
  lemma ViewIs(h: Host, s: State, v: Fs)
    requires forall q: Path :: (q in v <==> At(h, s, q).Some?) && (q in v ==> At(h, s, q) == Some(v[q]))
    ensures View(h, s) == v
  {
  }

  /** A new leaf. */
  lemma InsertRefines(h: Host, s: State, s': State, p: Path, key: Bytes, r: Record)
    requires DistinctIds(s.fs) && p != [] && Locate(h, s.fs, p) == Ok(key) && key !in s.fs
    requires s'.fs == s.fs[key := r] && NoChildren(h, s'.fs, r.id) && ShowsSame(s, s')
    ensures View(h, s') == View(h, s)[p := Show(s'.ver, s'.blobs, r)]
  {
    OnePathPerKey(h, s.fs, p);
    forall q: Path
      ensures At(h, s', q) == if q == p then Some(Show(s'.ver, s'.blobs, r)) else At(h, s, q)
    {
      FindAfterInsert(h, s.fs, p, key, r, q);
      if q != p {
        ShowsSameAt(h, s, s', q);
      }
    }
    ViewIs(h, s', View(h, s)[p := Show(s'.ver, s'.blobs, r)]);
  }

  /** A changed object whose place in the tree stays. */
  lemma ReplaceRefines(h: Host, s: State, s': State, p: Path, key: Bytes, r: Record)
    requires DistinctIds(s.fs) && p != [] && Locate(h, s.fs, p) == Ok(key) && key in s.fs
    requires r.id == s.fs[key].id && r.kind == s.fs[key].kind && s'.fs == s.fs[key := r]
    requires ShowsSame(s.(fs := s.fs - {key}), s')
    ensures View(h, s') == View(h, s)[p := Show(s'.ver, s'.blobs, r)]
  {
    OnePathPerKey(h, s.fs, p);
    forall q: Path
      ensures At(h, s', q) == if q == p then Some(Show(s'.ver, s'.blobs, r)) else At(h, s, q)
    {
      FindAfterReplace(h, s.fs, p, key, r, q);
      if q != p {
        OtherShowsSame(h, s, s', p, key, q);
      }
    }
    ViewIs(h, s', View(h, s)[p := Show(s'.ver, s'.blobs, r)]);
  }

  /** An object other than the one at `p`, when all rows but that one read the same. */
  lemma OtherShowsSame(h: Host, s: State, s': State, p: Path, key: Bytes, q: Path)
    requires p != [] && Locate(h, s.fs, p) == Ok(key) && OnlyPath(h, s.fs, p) && q != p
    requires ShowsSame(s.(fs := s.fs - {key}), s') && Find(h, s'.fs, q) == Find(h, s.fs, q)
    ensures At(h, s', q) == At(h, s, q)
  {
    if Find(h, s.fs, q).Some? {
      var k := Locate(h, s.fs, q).value;
      assert k in s.fs - {key};
      assert (s.fs - {key})[k] == s.fs[k];
    }
  }

  /** A row removed: its whole subtree disappears. */
  lemma RemoveRefines(h: Host, s: State, s': State, p: Path, key: Bytes)
    requires DistinctIds(s.fs) && p != [] && Locate(h, s.fs, p) == Ok(key)
    requires s'.fs == s.fs - {key} && ShowsSame(s.(fs := s.fs - {key}), s')
    ensures View(h, s') == Pruned(View(h, s), p)
  {
    OnePathPerKey(h, s.fs, p);
    forall q: Path
      ensures At(h, s', q) == if p <= q then None else At(h, s, q)
    {
      FindAfterRemove(h, s.fs, p, key, q);
      if !(p <= q) {
        OtherShowsSame(h, s, s', p, key, q);
      }
    }
    ViewIs(h, s', Pruned(View(h, s), p));
  }

  /** What a path shows after a row was re-keyed. */
  lemma RekeyAt(h: Host, s: State, src: Path, from: Bytes, dest: Path, to: Bytes, r: Record, q: Path)
    requires CanMove(h, s.fs, src, from, dest, to, r) && !(src < dest)
    requires r.latest == s.fs[from].latest
    ensures var s' := s.(fs := (s.fs - {from})[to := r]);
            var before := At(h, s, Before(src, dest, q));
            At(h, s', q) ==
            if q == dest then Some(Show(s.ver, s.blobs, s.fs[from]).(name := r.name))
            else if dest <= q || !(src <= q) then before
            else None
  {
    hide Walk;
    FindAfterMove(h, s.fs, src, from, dest, to, r, q);
  }

  /** A row re-keyed: its whole subtree moves. */
  lemma RekeyRefines(h: Host, s: State, src: Path, from: Bytes, dest: Path, to: Bytes, r: Record)
    requires DistinctIds(s.fs) && src != [] && dest != [] && !(src < dest)
    requires Locate(h, s.fs, src) == Ok(from) && Locate(h, s.fs, dest) == Ok(to)
    requires from in s.fs && to !in s.fs - {from}
    requires r.id == s.fs[from].id && r.kind == s.fs[from].kind && r.latest == s.fs[from].latest
    ensures View(h, s.(fs := (s.fs - {from})[to := r])) == Reroot(View(h, s), src, dest, r.name)
  {
    hide Walk, Show;
    var s' := s.(fs := (s.fs - {from})[to := r]);
    var v := Reroot(View(h, s), src, dest, r.name);
    OnePathPerKey(h, s.fs, src);
    OnePathPerKey(h, s.fs, dest);
    assert At(h, s, src) == Some(Show(s.ver, s.blobs, s.fs[from]));
    assert Before(src, dest, dest) == src;
    forall q: Path
      ensures (q in v <==> At(h, s', q).Some?) && (q in v ==> At(h, s', q) == Some(v[q]))
    {
      RekeyAt(h, s, src, from, dest, to, r, q);
      ViewAt(h, s, Before(src, dest, q));
    }
    ViewIs(h, s', v);
  }
}
