/** What single calls do on names that every form leaves alone, for use in concrete runs. */
module Steps {
  import opened Wrappers
  import opened Keys
  import opened Store

  const A: Bytes := [97]
  const B: Bytes := [98]
  const X: Bytes := [120]
  const Y: Bytes := [121]
  const Z: Bytes := [122]

  const REPAIRED := Repairs(true, true, true, true, true, true, true)

  function Bare(h: Host, rep: Repairs): Config
  {
    Config(h, Text((b: Bytes) => b, (b: Bytes) => b, (b: Bytes) => b), rep)
  }

  /** The code with every repair. */
  function Repaired(h: Host): Config
  {
    Bare(h, REPAIRED)
  }

  /** The code as written. */
  function Plain(h: Host): Config
  {
    Bare(h, AS_WRITTEN)
  }

  lemma SamePath(h: Host, rep: Repairs, path: Path)
    ensures Nfkd(Bare(h, rep), path) == path
    ensures path != [] ==>
              CreatePath(Bare(h, rep), path) == path && StoredName(Bare(h, rep), path) == path[|path| - 1]
  {
    if path != [] {
      assert path[..|path| - 1] + [path[|path| - 1]] == path;
    }
  }

  /** A folder's row. */
  function FolderRow(id: U64, name: Bytes): Record
  {
    Record(id, Folder, 1, 0, name)
  }

  lemma AtTop(h: Host, fs: Table, a: Bytes)
    ensures Locate(h, fs, [a]) == Ok(MakeKey(0, a))
  {
    assert [a][..0] == [];
  }

  /** A path of two components, when the first is a folder and when it is missing. */
  lemma AtSecond(h: Host, fs: Table, a: Bytes, x: Bytes)
    requires MakeKey(0, a) in fs ==> fs[MakeKey(0, a)].kind == Folder
    ensures Locate(h, fs, [a, x]) ==
            if MakeKey(0, a) in fs then Ok(MakeKey(KeyId(h, fs[MakeKey(0, a)].id), x)) else Err(NoSuchPath)
  {
    assert [a, x][..1] == [a] && [a][..0] == [];
    assert Walk(h, fs, [a]) == Enter(h, fs, 0, a);
  }

  lemma Making(h: Host, rep: Repairs, s: State, path: Path, located: Result<Bytes, Error>)
    requires path != [] && Locate(h, s.fs, path) == located && s.seqno + 1 < U64_LIMIT
    ensures Step(Bare(h, rep), s, MakeDirectoryCall(path)) ==
            match located
            case Err(e) => (s, Failed(e))
            case Ok(key) =>
              if key in s.fs then (s, Failed(AlreadyExists))
              else (s.(fs := s.fs[key := FolderRow(s.seqno + 1, path[|path| - 1])],
                       seqno := if rep.storeSequence then s.seqno + 1 else s.seqno), Done)
  {
    hide Locate;
    SamePath(h, rep, path);
  }

  lemma Moving(h: Host, rep: Repairs, s: State, src: Path, from: Bytes, dest: Path, to: Bytes)
    requires src != [] && dest != [] && !(rep.guardMove && src < dest) && from in s.fs && to !in s.fs
    requires Locate(h, s.fs, src) == Ok(from) && Locate(h, s.fs, dest) == Ok(to)
    ensures Step(Bare(h, rep), s, MoveCall(src, None, dest)) ==
            (s.(fs := (s.fs - {from})[to := s.fs[from].(name := dest[|dest| - 1])]), Done)
  {
    hide Locate;
    SamePath(h, rep, src);
    SamePath(h, rep, dest);
  }

  lemma Deleting(h: Host, rep: Repairs, s: State, path: Path, key: Bytes)
    requires path != [] && Locate(h, s.fs, path) == Ok(key) && key in s.fs && s.fs[key].kind == Folder
    ensures Step(Bare(h, rep), s, DeleteCall(path, None)) == (s.(fs := s.fs - {key}), Done)
  {
    hide Locate;
    SamePath(h, rep, path);
  }

  /** A one-message upload to a free path. */
  lemma Uploading(h: Host, rep: Repairs, s: State, path: Path, data: Bytes, u: Ulid, sealed: Ulid, key: Bytes)
    requires path != [] && Locate(h, s.fs, path) == Ok(key) && key !in s.fs
    requires s.seqno + 1 < U64_LIMIT && u !in s.blobs && |data| <= MAX_FILE
    ensures var id := s.seqno + 1;
            Step(Bare(h, rep), s, UploadCall(UploadArg(path, data, false, false, []), u, sealed)) ==
            (State(s.fs[key := Record(id, VersionBlob, 1, u, path[|path| - 1])], id,
                   s.ver[(id, 1) := Version(|data|, Some(u))], s.blobs[u := data], s.issued), Done)
  {
    hide Locate, Walk;
    SamePath(h, rep, path);
    assert [] + data == data;
  }

  /** The first fragment of an upload. */
  lemma Sending(h: Host, rep: Repairs, s: State, path: Path, data: Bytes, u: Ulid, sealed: Ulid)
    requires path != [] && u !in s.blobs && |data| <= MAX_FILE
    ensures Step(Bare(h, rep), s, UploadCall(UploadArg(path, data, false, true, []), u, sealed)) ==
            (s.(blobs := s.blobs[u := data], issued := s.issued + {u}), Continue(TokenBytes(u)))
  {
    hide FinishUpload;
    assert [] + data == data;
  }

  /** The last fragment of an upload to a free path. */
  lemma Finishing(
    h: Host, rep: Repairs, s: State, path: Path, data: Bytes, u: Ulid, minted: Ulid, sealed: Ulid, key: Bytes)
    requires path != [] && Locate(h, s.fs, path) == Ok(key) && key !in s.fs
    requires s.seqno + 1 < U64_LIMIT && u in s.blobs && |s.blobs[u]| + |data| <= MAX_FILE
    ensures var id := s.seqno + 1;
            var call := UploadCall(UploadArg(path, data, false, false, TokenBytes(u)), minted, sealed);
            Step(Bare(h, rep), s, call) ==
            (State(s.fs[key := Record(id, VersionBlob, 1, u, path[|path| - 1])], id,
                   s.ver[(id, 1) := Version(UNKNOWN_SIZE, Some(sealed))],
                   (s.blobs - {u})[sealed := s.blobs[u] + data], s.issued), Done)
  {
    hide Locate, Walk;
    SamePath(h, rep, path);
    TokenRoundTrip(u);
    assert s.blobs[u := s.blobs[u] + data] - {u} == s.blobs - {u};
  }

  /** A one-message upload of the next version of a file. */
  lemma Following(h: Host, rep: Repairs, s: State, path: Path, data: Bytes, u: Ulid, sealed: Ulid, key: Bytes)
    requires rep.acceptNext
    requires path != [] && Locate(h, s.fs, path) == Ok(key) && key in s.fs && s.fs[key].kind == VersionBlob
    requires s.fs[key].latest + 1 < U64_LIMIT && u !in s.blobs && |data| <= MAX_FILE
    ensures var (id, n) := (s.fs[key].id, s.fs[key].latest + 1);
            Step(Bare(h, rep), s, UploadCall(UploadArg(path, data, true, false, []), u, sealed)) ==
            (State(s.fs[key := Record(id, VersionBlob, n, u, path[|path| - 1])], s.seqno,
                   s.ver[(id, n) := Version(|data|, Some(u))], s.blobs[u := data], s.issued), Done)
  {
    hide Locate, Walk;
    SamePath(h, rep, path);
    assert [] + data == data;
  }

  /** An append to a file whose latest version is the whole of blob `u`. */
  lemma Appending(h: Host, rep: Repairs, s: State, path: Path, data: Bytes, key: Bytes, u: Ulid)
    requires rep.writeAppend
    requires path != [] && Locate(h, s.fs, path) == Ok(key) && key in s.fs && s.fs[key].kind == VersionBlob
    requires (s.fs[key].id, s.fs[key].latest) in s.ver && u in s.blobs && |s.blobs[u]| + |data| <= MAX_FILE
    requires s.ver[(s.fs[key].id, s.fs[key].latest)] == Version(|s.blobs[u]|, Some(u))
    requires s.fs[key].latest + 1 < U64_LIMIT
    ensures var r := s.fs[key];
            Step(Bare(h, rep), s, AppendCall(path, None, data)) ==
            (State(s.fs[key := r.(latest := r.latest + 1)], s.seqno,
                   s.ver[(r.id, r.latest + 1) := Version(|s.blobs[u]| + |data|, Some(u))],
                   s.blobs[u := s.blobs[u] + data], s.issued), Done)
  {
    hide Locate, Walk;
    SamePath(h, rep, path);
  }

  lemma Copying(h: Host, rep: Repairs, s: State, src: Path, from: Bytes, dest: Path, to: Bytes, minted: Ulid)
    requires src != [] && dest != [] && from in s.fs
    requires Locate(h, s.fs, src) == Ok(from) && Locate(h, s.fs, dest) == Ok(to)
    ensures Step(Bare(h, rep), s, CopyCall(src, dest, minted)) ==
            CopyRow(rep.cloneName, s, s.fs[from], to, dest[|dest| - 1], minted)
  {
    hide Locate, Walk, CopyRow;
    SamePath(h, rep, src);
    SamePath(h, rep, dest);
  }

  /** Deleting a file of two versions that share a blob. */
  lemma DeletingTwo(h: Host, rep: Repairs, s: State, path: Path, key: Bytes, u: Ulid)
    requires rep.finishDelete
    requires path != [] && Locate(h, s.fs, path) == Ok(key) && key in s.fs
    requires s.fs[key].kind == VersionBlob && s.fs[key].latest == 2
    requires forall iv :: iv in s.ver <==> iv.0 == s.fs[key].id && 1 <= iv.1 <= 2
    requires forall iv :: iv in s.ver ==> s.ver[iv].blob == Some(u)
    ensures Step(Bare(h, rep), s, DeleteCall(path, None)) ==
            (State(s.fs - {key}, s.seqno, map[], s.blobs - {u}, s.issued), Done)
  {
    hide Locate, Walk;
    SamePath(h, rep, path);
    var id := s.fs[key].id;
    assert Purge(true, s.ver, s.blobs, id, 2) == Purge(true, s.ver - {(id, 2)}, s.blobs - {u}, id, 1);
    assert s.blobs - {u} - {u} == s.blobs - {u};
    assert Purge(true, s.ver - {(id, 2)}, s.blobs - {u}, id, 1) ==
           Purge(true, s.ver - {(id, 2)} - {(id, 1)}, s.blobs - {u}, id, 0);
    assert s.ver - {(id, 2)} - {(id, 1)} == map[];
  }
}
