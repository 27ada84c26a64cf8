/** Names in their forms, and kinds of objects, said outright: which spellings of a path mean the same
    object, under which path and name a new object is found and listed, and which objects each
    operation refuses. */
module Names {
  import opened Wrappers
  import opened Keys
  import opened Store
  import opened Tree
  import opened Invariant
  import opened Changes
  import opened AbstractFs
  import opened Refinement
  import opened Departures
  import Downloads
  import Listings

  // ----- Spellings -----

  /** The two paths are spellings of one path. */
  predicate SameForm(c: Config, p: Path, q: Path)
  {
    |p| == |q| && forall i :: 0 <= i < |p| ==> c.text.nfkd(p[i]) == c.text.nfkd(q[i])
  }

  lemma SameFormIff(c: Config, p: Path, q: Path)
    ensures Nfkd(c, p) == Nfkd(c, q) <==> SameForm(c, p, q)
  {
    if Nfkd(c, p) == Nfkd(c, q) {
      forall i | 0 <= i < |p|
        ensures c.text.nfkd(p[i]) == c.text.nfkd(q[i])
      {
        assert Nfkd(c, p)[i] == Nfkd(c, q)[i];
      }
    }
  }

  /** However an existing object's path is spelled, append, delete and download do the same. */
  lemma SpellingsMeanTheSame(
    c: Config, s: State, p: Path, q: Path, expected: Option<U64>, data: Bytes, offset: U64, length: U64)
    requires SameForm(c, p, q)
    ensures Append(c, s, p, expected, data) == Append(c, s, q, expected, data)
    ensures Delete(c, s, p, expected) == Delete(c, s, q, expected)
    ensures Downloads.Download(c, s, p, expected, offset, length) ==
            Downloads.Download(c, s, q, expected, offset, length)
  {
    hide Nfkd;
    SameFormIff(c, p, q);
  }

  /** And two paths lead to one object only if they are spellings of one path. */
  lemma FoundTheSameIff(c: Config, s: State, p: Path, q: Path)
    requires DistinctIds(s.fs) && FindFile(c, s, p).Ok?
    ensures FindFile(c, s, q) == FindFile(c, s, p) <==> SameForm(c, p, q)
  {
    hide Nfkd;
    SameFormIff(c, p, q);
    OnePathPerKey(c.host, s.fs, Nfkd(c, p));
  }

  /** The same tables and files, but for the names that objects are listed under. */
  ghost predicate SameButNames(s: State, t: State)
  {
    && s.seqno == t.seqno && s.ver == t.ver && s.blobs == t.blobs && s.issued == t.issued
    && s.fs.Keys == t.fs.Keys && forall k :: k in s.fs ==> s.fs[k].(name := []) == t.fs[k].(name := [])
  }

  /** Both ends of a move may be spelled in any way; the spelling given is the name it is listed
      under. */
  lemma MoveSpellings(c: Config, s: State, p: Path, q: Path, expected: Option<U64>, dest: Path, dest': Path)
    requires SameForm(c, p, q) && SameForm(c, dest, dest')
    ensures var ((t, reply), (t', reply')) := (Move(c, s, p, expected, dest), Move(c, s, q, expected, dest'));
            && reply == reply' && SameButNames(t, t')
            && (dest != [] && Last(dest) == Last(dest') ==> t == t')
  {
    hide Nfkd, Locate;
    SameFormIff(c, p, q);
    SameFormIff(c, dest, dest');
    SameFormPrefix(c, p, q, dest, dest');
  }

  lemma SameFormPrefix(c: Config, p: Path, q: Path, dest: Path, dest': Path)
    requires Nfkd(c, p) == Nfkd(c, q) && Nfkd(c, dest) == Nfkd(c, dest')
    ensures (p == [] <==> q == []) && (dest == [] <==> dest' == [])
    ensures Nfkd(c, p) < Nfkd(c, dest) <==> Nfkd(c, q) < Nfkd(c, dest')
  {
  }

  lemma CopySpellings(c: Config, s: State, p: Path, q: Path, dest: Path, dest': Path, minted: Ulid)
    requires SameForm(c, p, q) && SameForm(c, dest, dest')
    ensures var ((t, reply), (t', reply')) := (Copy(c, s, p, dest, minted), Copy(c, s, q, dest', minted));
            && reply == reply' && SameButNames(t, t')
            && (dest != [] && Last(dest) == Last(dest') ==> t == t')
  {
    hide Nfkd, Locate, CopyRow;
    SameFormIff(c, p, q);
    SameFormIff(c, dest, dest');
    SameFormPrefix(c, p, q, dest, dest');
    if p != [] && dest != [] {
      var src, at := Locate(c.host, s.fs, Nfkd(c, p)), Locate(c.host, s.fs, Nfkd(c, dest));
      if src.Ok? && at.Ok? && src.value in s.fs {
        CopyRowNames(c.rep.cloneName, s, s.fs[src.value], at.value, Last(dest), Last(dest'), minted);
      }
    }
  }

  lemma InsertCopyNames(s: State, dest: Bytes, n: Bytes, m: Bytes, minted: Ulid)
    ensures var ((t, reply), (t', reply')) := (InsertCopy(s, dest, n, minted), InsertCopy(s, dest, m, minted));
            reply == reply' && SameButNames(t, t')
  {
  }

  lemma CopyRowNames(byName: bool, s: State, record: Record, dest: Bytes, n: Bytes, m: Bytes, minted: Ulid)
    ensures var ((t, reply), (t', reply')) :=
              (CopyRow(byName, s, record, dest, n, minted), CopyRow(byName, s, record, dest, m, minted));
            reply == reply' && SameButNames(t, t')
  {
    hide InsertCopy;
    InsertCopyNames(s, dest, n, m, minted);
    if Cloned(record.kind) && CanClone(byName, s, record) {
      InsertCopyNames(CloneBlob(byName, s, record, minted), dest, n, m, minted);
    }
  }

  // ----- New objects -----

  /** The name that a new object is listed under. */
  function GivenName(c: Config, path: Path): Bytes
    requires path != []
  {
    if c.rep.oneForm then Last(path) else c.text.trim(Last(path))
  }

  /** The path is its own form as far as make_directory and upload are concerned: as written, its
      parents are decomposed already, and trimming the last component does not change its form. */
  predicate KeepsForm(c: Config, path: Path)
    requires path != []
  {
    c.rep.oneForm ||
    ((forall i :: 0 <= i < |path| - 1 ==> c.text.nfkd(path[i]) == path[i]) &&
     c.text.nfkd(c.text.trim(Last(path))) == c.text.nfkd(Last(path)))
  }

  lemma KeepsFormIff(c: Config, path: Path)
    requires path != []
    ensures CreatePath(c, path) == Nfkd(c, path) <==> KeepsForm(c, path)
  {
    var p, q := CreatePath(c, path), Nfkd(c, path);
    if !c.rep.oneForm {
      var n := |path| - 1;
      assert p[..n] == path[..n] && p[n] == c.text.nfkd(c.text.trim(Last(path)));
      assert q[n] == c.text.nfkd(Last(path));
      assert forall i :: 0 <= i < n ==> p[i] == path[i] && q[i] == c.text.nfkd(path[i]);
      if KeepsForm(c, path) {
        assert forall i :: 0 <= i < |p| ==> p[i] == q[i];
      }
    }
  }

  /** Two paths at which make_directory and upload would put the same object. */
  predicate SameCreateForm(c: Config, p: Path, q: Path)
    requires p != [] && q != []
  {
    if c.rep.oneForm then SameForm(c, p, q)
    else Front(p) == Front(q) && c.text.nfkd(c.text.trim(Last(p))) == c.text.nfkd(c.text.trim(Last(q)))
  }

  lemma SameCreateFormIff(c: Config, p: Path, q: Path)
    requires p != [] && q != []
    ensures CreatePath(c, p) == CreatePath(c, q) <==> SameCreateForm(c, p, q)
  {
    SameFormIff(c, p, q);
    var a, b := CreatePath(c, p), CreatePath(c, q);
    if !c.rep.oneForm {
      assert a[..|p| - 1] == Front(p) && Last(a) == c.text.nfkd(c.text.trim(Last(p)));
      assert b[..|q| - 1] == Front(q) && Last(b) == c.text.nfkd(c.text.trim(Last(q)));
    }
  }

  lemma MadeRow(c: Config, s: State, path: Path) returns (key: Bytes)
    requires MakeDirectory(c, s, path).1 == Done
    ensures path != [] && s.seqno + 1 < U64_LIMIT
    ensures var (s', p) := (MakeDirectory(c, s, path).0, CreatePath(c, path));
            && Locate(c.host, s.fs, p) == Ok(key) == Locate(c.host, s'.fs, p) && key !in s.fs
            && s'.fs == s.fs[key := Record(s.seqno + 1, Folder, 1, 0, GivenName(c, path))]
  {
    key := Locate(c.host, s.fs, CreatePath(c, path)).value;
    var s' := MakeDirectory(c, s, path).0;
    WalkStill(c.host, s.fs, Front(CreatePath(c, path)), key, s'.fs[key]);
  }

  /** A directory just made is found under the very path that was given, if that path keeps its form;
      where ids are distinct, only then. */
  lemma DirectoryFoundAsGiven(c: Config, s: State, path: Path)
    requires MakeDirectory(c, s, path).1 == Done
    ensures path != [] && s.seqno + 1 < U64_LIMIT
    ensures var s' := MakeDirectory(c, s, path).0;
            var found := FindFile(c, s', path);
            && (KeepsForm(c, path) ==>
                  && found.Ok? && found.value !in s.fs
                  && s'.fs[found.value] == Record(s.seqno + 1, Folder, 1, 0, GivenName(c, path)))
            && (DistinctIds(s'.fs) && !KeepsForm(c, path) ==> found.Err? || found.value in s.fs)
  {
    hide MakeDirectory, Locate, Nfkd, CreatePath, DistinctIds, KeepsForm;
    var key := MadeRow(c, s, path);
    var s' := MakeDirectory(c, s, path).0;
    KeepsFormIff(c, path);
    FoundAtKeyIff(c, s', CreatePath(c, path), key, path);
    if KeepsForm(c, path) {
      assert FindFile(c, s', path) == Ok(key);
    }
  }

  /** Making it again, spelled in any way that comes to the same, is refused. */
  lemma MadeTwiceIsRefused(c: Config, s: State, path: Path, again: Path)
    requires MakeDirectory(c, s, path).1 == Done && path != [] && again != [] && SameCreateForm(c, path, again)
    ensures MakeDirectory(c, MakeDirectory(c, s, path).0, again) ==
            (MakeDirectory(c, s, path).0, Failed(AlreadyExists))
  {
    hide Locate, CreatePath;
    var key := MadeRow(c, s, path);
    SameCreateFormIff(c, path, again);
  }

  const UNKNOWN_LENGTH: int := 18_446_744_073_709_551_615

  /** The rows that a finished upload writes. */
  ghost predicate UploadedRows(c: Config, s: State, s': State, r: UploadArg, minted: Ulid, sealed: Ulid, key: Bytes)
    requires r.path != []
  {
    && key in s'.fs && s'.fs[key].kind == VersionBlob && s'.fs[key].name == GivenName(c, r.path)
    && (key in s.fs ==> s'.fs[key].id == s.fs[key].id && s'.fs[key].latest == s.fs[key].latest + 1)
    && (key !in s.fs ==> s'.fs[key].id == s.seqno + 1 && s'.fs[key].latest == 1)
    && (s'.fs[key].id, s'.fs[key].latest) in s'.ver
    && var row := s'.ver[(s'.fs[key].id, s'.fs[key].latest)];
       if r.continuation == [] then row.length == |r.data| && row.blob == Some(minted)
       else row.length == UNKNOWN_LENGTH && row.blob == Some(sealed)
  }

  lemma FinishedRows(c: Config, s: State, r: UploadArg, u: Ulid, minted: Ulid, sealed: Ulid)
    requires r.path != [] && u in s.blobs && |r.data| <= MAX_FILE && (r.continuation == [] ==> u == minted)
    requires FinishUpload(c, s, r, u, sealed).1 == Done
    ensures Locate(c.host, s.fs, CreatePath(c, r.path)).Ok?
    ensures UploadedRows(c, s, FinishUpload(c, s, r, u, sealed).0, r, minted, sealed,
                         Locate(c.host, s.fs, CreatePath(c, r.path)).value)
  {
    hide Locate, Walk, CreatePath;
  }

  lemma UploadRows(c: Config, s: State, r: UploadArg, minted: Ulid, sealed: Ulid)
    requires Upload(c, s, r, minted, sealed).1 == Done
    ensures r.path != [] && Locate(c.host, s.fs, CreatePath(c, r.path)).Ok?
    ensures UploadedRows(c, s, Upload(c, s, r, minted, sealed).0, r, minted, sealed,
                         Locate(c.host, s.fs, CreatePath(c, r.path)).value)
  {
    hide FinishUpload, Locate, UploadedRows;
    var u := TokenName(r.continuation, minted).value;
    var s1 := Write(s, u, r.data).0;
    FinishedRows(c, s1, r, u, minted, sealed);
    SameRows(c, s, s1, Upload(c, s, r, minted, sealed).0, r, minted, sealed,
             Locate(c.host, s.fs, CreatePath(c, r.path)).value);
  }

  lemma SameRows(
    c: Config, s: State, s1: State, s': State, r: UploadArg, minted: Ulid, sealed: Ulid, key: Bytes)
    requires r.path != [] && s1.fs == s.fs && s1.seqno == s.seqno
    ensures UploadedRows(c, s1, s', r, minted, sealed, key) <==> UploadedRows(c, s, s', r, minted, sealed, key)
  {
  }

  /** A file just uploaded is found under the very path that was given, if that path keeps its form,
      and has the version that was sent; where ids are distinct, only then. */
  lemma UploadFoundAsGiven(c: Config, s: State, r: UploadArg, minted: Ulid, sealed: Ulid)
    requires Upload(c, s, r, minted, sealed).1 == Done
    ensures r.path != [] && Locate(c.host, s.fs, CreatePath(c, r.path)).Ok?
    ensures var (s', key) := (Upload(c, s, r, minted, sealed).0, Locate(c.host, s.fs, CreatePath(c, r.path)).value);
            && UploadedRows(c, s, s', r, minted, sealed, key)
            && (KeepsForm(c, r.path) ==> FindFile(c, s', r.path) == Ok(key))
            && (DistinctIds(s'.fs) && !KeepsForm(c, r.path) ==> FindFile(c, s', r.path) != Ok(key))
  {
    hide Upload, Locate, Nfkd, CreatePath, DistinctIds, FindFile, KeepsForm, UploadedRows, SamePlace;
    UploadRows(c, s, r, minted, sealed);
    KeepsFormIff(c, r.path);
    UploadIsFoundIff(c, s, r, minted, sealed, r.path);
    SamePlaceAsItself(c.host, Upload(c, s, r, minted, sealed).0.fs, CreatePath(c, r.path));
  }

  lemma SamePlaceAsItself(h: Host, fs: Table, p: Path)
    requires p != []
    ensures SamePlace(h, fs, p, p)
  {
  }

  // ----- Listings -----

  /** The two paths are the same to list. */
  predicate SameListForm(c: Config, p: Path, q: Path)
  {
    && |p| == |q|
    && forall i :: 0 <= i < |p| ==>
         if c.rep.oneForm then c.text.nfkd(p[i]) == c.text.nfkd(q[i]) else c.text.nfkc(p[i]) == c.text.nfkc(q[i])
  }

  lemma SameListFormIff(c: Config, p: Path, q: Path)
    ensures ListPath(c, p) == ListPath(c, q) <==> SameListForm(c, p, q)
  {
    if ListPath(c, p) == ListPath(c, q) {
      forall i | 0 <= i < |p|
        ensures if c.rep.oneForm then c.text.nfkd(p[i]) == c.text.nfkd(q[i]) else c.text.nfkc(p[i]) == c.text.nfkc(q[i])
      {
        assert ListPath(c, p)[i] == ListPath(c, q)[i];
      }
    }
  }

  lemma SpellingsListTheSame(c: Config, s: State, p: Path, q: Path)
    requires SameListForm(c, p, q)
    ensures Listings.List(c, s, p) == Listings.List(c, s, q)
  {
    SameListFormIff(c, p, q);
  }

  /** To list, the folder of the path is the one that make_directory and upload put the object in. */
  predicate ListsParent(c: Config, path: Path)
    requires path != []
  {
    c.rep.oneForm || forall i :: 0 <= i < |path| - 1 ==> c.text.nfkc(path[i]) == path[i]
  }

  lemma ListsParentIff(c: Config, path: Path)
    requires path != []
    ensures ListPath(c, Front(path)) == Front(CreatePath(c, path)) <==> ListsParent(c, path)
  {
    var p, q := ListPath(c, Front(path)), Front(CreatePath(c, path));
    assert |p| == |q| == |path| - 1;
    forall i | 0 <= i < |p|
      ensures p[i] == if c.rep.oneForm then c.text.nfkd(path[i]) else c.text.nfkc(path[i])
      ensures q[i] == if c.rep.oneForm then c.text.nfkd(path[i]) else path[i]
    {
    }
    if ListsParent(c, path) {
      assert forall i :: 0 <= i < |p| ==> p[i] == q[i];
    } else {
      var i :| 0 <= i < |path| - 1 && c.text.nfkc(path[i]) != path[i];
      assert p[i] != q[i];
    }
  }

  lemma ShownInListing(c: Config, s: State, path: Path, id: U64, name: Bytes)
    requires Walk(c.host, s.fs, ListPath(c, path)) == Ok(id) && id + 1 < U64_LIMIT && MakeKey(id, name) in s.fs
    ensures var r := Listings.List(c, s, path);
            r.Ok? && Listings.Entry(s.fs[MakeKey(id, name)].name, Listings.File) in r.value
  {
    hide Walk, ListPath, MakeKey, InRange;
    var r := Listings.List(c, s, path);
    var key := MakeKey(id, name);
    var keys: seq<Bytes> :| Listings.Scan(s.fs, id, keys) && r.value == Listings.Entries(s.fs, keys);
    MakeKeyParts(id, name);
    RangeIsChildren(id, key);
    assert key in keys;
    var i :| 0 <= i < |keys| && keys[i] == key;
    assert r.value[i] == Listings.Entry(s.fs[key].name, Listings.File);
  }

  /** A directory just made is shown when its folder is listed, under the name that was given. */
  lemma DirectoryListedAsGiven(c: Config, s: State, path: Path)
    requires Forest(c.host, s.fs, s.seqno) && MakeDirectory(c, s, path).1 == Done
    requires path != [] && ListsParent(c, path)
    ensures var r := Listings.List(c, MakeDirectory(c, s, path).0, Front(path));
            r.Ok? && Listings.Entry(GivenName(c, path), Listings.File) in r.value
  {
    hide MakeDirectory, ListPath, Forest;
    var key := MadeRow(c, s, path);
    var s', p := MakeDirectory(c, s, path).0, CreatePath(c, path);
    ListsParentIff(c, path);
    ListedAt(c, s, s', path, p, key);
  }

  /** And so is a file just uploaded. */
  lemma UploadListedAsGiven(c: Config, s: State, r: UploadArg, minted: Ulid, sealed: Ulid)
    requires Forest(c.host, s.fs, s.seqno) && s.seqno + 1 < U64_LIMIT && Upload(c, s, r, minted, sealed).1 == Done
    requires r.path != [] && ListsParent(c, r.path)
    ensures var l := Listings.List(c, Upload(c, s, r, minted, sealed).0, Front(r.path));
            l.Ok? && Listings.Entry(GivenName(c, r.path), Listings.File) in l.value
  {
    hide Upload, ListPath, Forest;
    var s', p := Upload(c, s, r, minted, sealed).0, CreatePath(c, r.path);
    UploadRows(c, s, r, minted, sealed);
    ListsParentIff(c, r.path);
    var ch := UploadChange(c, s, r, minted, sealed);
    ListedAt(c, s, s', r.path, p, ch.key);
  }

  /** A row put at the key of a path is shown when its folder is listed. */
  lemma ListedAt(c: Config, s: State, s': State, path: Path, p: Path, key: Bytes)
    requires Forest(c.host, s.fs, s.seqno) && s.seqno + 1 < U64_LIMIT
    requires path != [] && p != [] && ListPath(c, Front(path)) == Front(p)
    requires Locate(c.host, s.fs, p) == Ok(key) && key in s'.fs && s'.fs == s.fs[key := s'.fs[key]]
    requires key in s.fs ==> s'.fs[key].id == s.fs[key].id && s'.fs[key].kind == s.fs[key].kind
    ensures var r := Listings.List(c, s', Front(path));
            r.Ok? && Listings.Entry(s'.fs[key].name, Listings.File) in r.value
  {
    hide ListPath, Forest, Walk;
    var id := Walk(c.host, s.fs, Front(p)).value;
    if id + 1 >= U64_LIMIT {
      Listings.FolderNumber(c.host, s, Front(p));
      assert false;
    }
    WalkStill(c.host, s.fs, Front(p), key, s'.fs[key]);
    ShownInListing(c, s', Front(path), id, Last(p));
  }

  // ----- Kinds -----

  /** Append and download refuse what a path leads to as not readable exactly if it is a folder or a
      symbolic link. */
  lemma NotReadableIff(
    c: Config, s: State, path: Path, expected: Option<U64>, data: Bytes, offset: U64, length: U64)
    requires FindFile(c, s, path).Ok?
    ensures Nfkd(c, path) in View(c.host, s)
    ensures var kind := View(c.host, s)[Nfkd(c, path)].kind;
            && (Append(c, s, path, expected, data).1 == Failed(NotReadable) <==> kind == Folder || kind == Symlink)
            && (Downloads.Download(c, s, path, expected, offset, length) == Err(NotReadable) <==>
                  kind == Folder || kind == Symlink)
  {
    hide FindFile, Locate, View, Show;
    FindRefines(c, s, path);
    FoundIsShown(c, s, path);
  }

  lemma FoundIsShown(c: Config, s: State, path: Path)
    requires FindFile(c, s, path).Ok?
    ensures Nfkd(c, path) in View(c.host, s)
    ensures View(c.host, s)[Nfkd(c, path)].kind == s.fs[FindFile(c, s, path).value].kind
  {
  }

  /** Where both ends are located, copy refuses exactly folders, pipes and sockets, and, as no plain
      blob has a file, has nothing to copy for exactly the plain blobs. */
  lemma CopyRefusesIff(c: Config, s: State, path: Path, destination: Path, minted: Ulid)
    requires FindFile(c, s, path).Ok? && destination != [] && Locate(c.host, s.fs, Nfkd(c, destination)).Ok?
    ensures Nfkd(c, path) in View(c.host, s)
    ensures var (kind, reply) := (View(c.host, s)[Nfkd(c, path)].kind, Copy(c, s, path, destination, minted).1);
            && (reply == Failed(NotCopyable) <==> kind == Folder || kind == Fifo || kind == Socket)
            && (Hollow(s) && c.rep.cloneName ==>
                  (reply == Failed(NoBlob) <==> kind == NormalBlob || kind == AppendBlob || kind == BlockBlob))
  {
    hide Locate, View, Show;
    FoundIsShown(c, s, path);
  }

  lemma FinishKnowsNoToken(c: Config, s: State, r: UploadArg, u: Ulid, sealed: Ulid)
    requires r.path != [] && u in s.blobs && |r.data| <= MAX_FILE
    ensures FinishUpload(c, s, r, u, sealed).1 != Failed(BadToken)
  {
    hide Locate, Seal, SealedRow, PutVersion;
    LocateErrors(c.host, s.fs, CreatePath(c, r.path));
  }

  /** A token is refused exactly for its length. */
  lemma BadTokenIff(c: Config, s: State, r: UploadArg, minted: Ulid, sealed: Ulid)
    requires r.path != []
    ensures Upload(c, s, r, minted, sealed).1 == Failed(BadToken) <==>
            |r.continuation| != 0 && |r.continuation| != 16
  {
    hide FinishUpload;
    if TokenName(r.continuation, minted).Some? {
      var u := TokenName(r.continuation, minted).value;
      var (s1, written) := Write(s, u, r.data);
      if written && !r.incomplete {
        FinishKnowsNoToken(c, s1, r, u, sealed);
      }
    }
  }

  /** A fragment goes to the end of the blob that its token names, and is answered with the token,
      unless the file would grow beyond 2^63 - 1 bytes. */
  lemma FragmentGoesToToken(c: Config, s: State, r: UploadArg, minted: Ulid, sealed: Ulid)
    requires r.path != [] && r.incomplete && |r.continuation| == 16
    ensures var ((s', reply), u) := (Upload(c, s, r, minted, sealed), TokenUlid(r.continuation));
            && s'.fs == s.fs && s'.ver == s.ver && s'.seqno == s.seqno
            && if |Contents(s, u)| + |r.data| <= 9_223_372_036_854_775_807 then
                 reply == Continue(r.continuation) && Contents(s', u) == Contents(s, u) + r.data
               else
                 reply == Failed(Io) && Contents(s', u) == Contents(s, u)
  {
    TokenOnto(r.continuation);
  }
}
