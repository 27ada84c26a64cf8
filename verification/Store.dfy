/** The database storage engine as a transition function on its tables and blob files.

    The code is modelled as written. Where it departs from its own stated intent, the departure
    is a switch in `Repairs`: with every switch off the model is the code, with a switch on it is
    the code with that one repair. */
module Store {
  import opened Wrappers
  import opened Keys
  import BlobNames

  /** `UNKNOWN_SIZE`: the length recorded for a blob that arrived in fragments. */
  const UNKNOWN_SIZE: int := U64_LIMIT - 1
  /** The operating system refuses to grow a file beyond this. */
  const MAX_FILE: int := 0x7FFF_FFFF_FFFF_FFFF
  const MAX_READ_SIZE: int := 8 * 1024 * 1024
  const ROOT_FSID: U64 := 0

  type Path = seq<Bytes>

  /** The object table, the version table, and the blob files by name. */
  type Table = map<Bytes, Record>
  type Versions = map<(U64, U64), Version>
  type Files = map<Ulid, Bytes>

  datatype Kind = NormalBlob | VersionBlob | AppendBlob | BlockBlob | Folder | Symlink | Fifo | Socket

  /** A row of the object table. `blob` is written by the code and only read by copy. */
  datatype Record = Record(id: U64, kind: Kind, latest: U64, blob: Ulid, name: Bytes)

  /** A row of the version table. The code's append writes none of the blob's name. */
  datatype Version = Version(length: U64, blob: Option<Ulid>)

  /** The three tables, the blob files, and the continuation tokens handed out so far. The
      server does not store the last; it is a history variable. */
  datatype State = State(
    fs: Table,
    seqno: U64,
    ver: Versions,
    blobs: Files,
    issued: set<Ulid>)

  const EMPTY_STATE := State(map[], 0, map[], map[], {})

  datatype Repairs = Repairs(
    storeSequence: bool,  // make_directory stores the id it takes (461-467 do not)
    acceptNext: bool,     // upload may replace a versioned blob's record (627-630 refuse)
    writeAppend: bool,    // append names the blob, bumps latest_version, commits (760-777 do not)
    finishDelete: bool,   // delete of versions skips a removed blob and commits (951, 961 do not)
    guardMove: bool,      // move refuses a destination inside what it moves (1102-1128 do not)
    cloneName: bool,      // copy opens a blob by its ULID's name (1189 prints its number in decimal)
    oneForm: bool)        // names are normalised one way everywhere (416-420, 545-549, 986 do not)

  const AS_WRITTEN := Repairs(false, false, false, false, false, false, false)

  /** The Unicode forms, on UTF-8 bytes, and the trimming of white space. */
  datatype Text = Text(nfkd: Bytes -> Bytes, nfkc: Bytes -> Bytes, trim: Bytes -> Bytes)

  datatype Config = Config(host: Host, text: Text, rep: Repairs)

  datatype Error =
    | EmptyTarget | NoDestination | BadToken
    | NoSuchPath | NotFolder | AlreadyExists | ReplacedExisting
    | NoSuchFile | NotReadable | NotLatest | MissingVersion | BeyondEnd
    | InsideItself | NotCopyable
    | NoBlob    // the file of a plain blob is not there
    | Io        // a file operation failed
    | Overflow  // a checked addition overflowed, which aborts the call

  datatype Reply = Done | Continue(token: Bytes) | Failed(error: Error)

  datatype UploadArg = UploadArg(path: Path, data: Bytes, next: bool, incomplete: bool, continuation: Bytes)

  // ----- Paths -----

  function Map(f: Bytes -> Bytes, path: Path): (r: Path)
    ensures |r| == |path| && forall i :: 0 <= i < |r| ==> r[i] == f(path[i])
  {
    seq(|path|, i requires 0 <= i < |path| => f(path[i]))
  }

  function Nfkd(c: Config, path: Path): (r: Path)
    ensures |r| == |path|
  {
    Map(c.text.nfkd, path)
  }

  /** The form in which make_directory and upload look their target up: parents raw, the last
      component trimmed and normalised. */
  function CreatePath(c: Config, path: Path): (r: Path)
    requires path != []
    ensures |r| == |path|
  {
    if c.rep.oneForm then Nfkd(c, path)
    else path[..|path| - 1] + [c.text.nfkd(c.text.trim(path[|path| - 1]))]
  }

  function StoredName(c: Config, path: Path): Bytes
    requires path != []
  {
    if c.rep.oneForm then path[|path| - 1] else c.text.trim(path[|path| - 1])
  }

  function ListPath(c: Config, path: Path): Path
  {
    Map(if c.rep.oneForm then c.text.nfkd else c.text.nfkc, path)
  }

  /** One component of the walk: the child folder's key id. */
  function Enter(host: Host, fs: Table, parent: U64, name: Bytes): Result<U64, Error>
  {
    var key := MakeKey(parent, name);
    if key !in fs then Err(NoSuchPath)
    else if fs[key].kind != Folder then Err(NotFolder)
    else Ok(KeyId(host, fs[key].id))
  }

  /** Where `descend_path` ends up. */
  function Walk(host: Host, fs: Table, path: Path): Result<U64, Error>
  {
    if path == [] then Ok(ROOT_FSID)
    else match Walk(host, fs, path[..|path| - 1])
      case Err(e) => Err(e)
      case Ok(parent) => Enter(host, fs, parent, path[|path| - 1])
  }

  /** The key of the object a nonempty path names, if its parents can be walked. */
  function Locate(host: Host, fs: Table, path: Path): Result<Bytes, Error>
    requires path != []
  {
    match Walk(host, fs, path[..|path| - 1])
    case Err(e) => Err(e)
    case Ok(parent) => Ok(MakeKey(parent, path[|path| - 1]))
  }

  // ----- Blob files -----

  function Contents(s: State, u: Ulid): Bytes
  {
    if u in s.blobs then s.blobs[u] else []
  }

  /** Opening with `append` and `create`, then writing: the file exists afterwards even when the
      write is refused. */
  function Write(s: State, u: Ulid, data: Bytes): (r: (State, bool))
    ensures r.0.fs == s.fs && r.0.seqno == s.seqno && r.0.ver == s.ver && r.0.issued == s.issued
    ensures r.0.blobs.Keys == s.blobs.Keys + {u}
    ensures forall v :: v in s.blobs && v != u ==> r.0.blobs[v] == s.blobs[v]
    ensures r.0.blobs[u] == Contents(s, u) + (if r.1 then data else [])
    ensures r.1 <==> |Contents(s, u)| + |data| <= MAX_FILE
  {
    var was := Contents(s, u);
    if |was| + |data| > MAX_FILE then
      assert was + [] == was;
      (s.(blobs := s.blobs[u := was]), false)
    else
      (s.(blobs := s.blobs[u := was + data]), true)
  }

  // ----- Operations -----

  function MakeDirectory(c: Config, s: State, path: Path): (r: (State, Reply))
    ensures r.0.issued == s.issued
  {
    if path == [] then (s, Failed(EmptyTarget))
    else MakeDirectoryAt(c, s, path, Locate(c.host, s.fs, CreatePath(c, path)))
  }

  /** What follows the walk: `located` is what the walk found. */
  function MakeDirectoryAt(c: Config, s: State, path: Path, located: Result<Bytes, Error>): (r: (State, Reply))
    requires path != []
    ensures r.0.issued == s.issued
  {
    match located
    case Err(e) => (s, Failed(e))
    case Ok(key) =>
      if key in s.fs then (s, Failed(AlreadyExists))
      else if s.seqno + 1 >= U64_LIMIT then (s, Failed(Overflow))
      else
        var record := Record(s.seqno + 1, Folder, 1, 0, StoredName(c, path));
        (s.(fs := s.fs[key := record], seqno := if c.rep.storeSequence then s.seqno + 1 else s.seqno), Done)
  }

  function TokenName(continuation: Bytes, minted: Ulid): Option<Ulid>
  {
    if continuation == [] then Some(minted)
    else if |continuation| != 16 then None
    else Some(TokenUlid(continuation))
  }

  /** `minted` and `sealed` are what the two calls of the ULID generator return. */
  function Upload(c: Config, s: State, r: UploadArg, minted: Ulid, sealed: Ulid): (r': (State, Reply))
    ensures s.issued <= r'.0.issued
  {
    if r.path == [] then (s, Failed(EmptyTarget))
    else match TokenName(r.continuation, minted)
      case None => (s, Failed(BadToken))
      case Some(u) =>
        var (s1, written) := Write(s, u, r.data);
        if !written then (s1, Failed(Io))
        else if r.incomplete then (s1.(issued := s1.issued + {u}), Continue(TokenBytes(u)))
        else FinishUpload(c, s1, r, u, sealed)
  }

  /** The tables' part of an upload whose last byte has been written to blob `u`. */
  function FinishUpload(c: Config, s: State, r: UploadArg, u: Ulid, sealed: Ulid): (r': (State, Reply))
    requires r.path != [] && u in s.blobs && |r.data| <= MAX_FILE
    ensures r'.0.issued == s.issued
  {
    FinishUploadAt(c, s, r, u, sealed, Locate(c.host, s.fs, CreatePath(c, r.path)))
  }

  function FinishUploadAt(
    c: Config, s: State, r: UploadArg, u: Ulid, sealed: Ulid, located: Result<Bytes, Error>): (r': (State, Reply))
    requires r.path != [] && u in s.blobs && |r.data| <= MAX_FILE
    ensures r'.0.issued == s.issued
  {
    match located
    case Err(e) => (s, Failed(e))
    case Ok(key) =>
      if key in s.fs && !r.next then (s, Failed(AlreadyExists))
      else if key in s.fs && c.rep.acceptNext && s.fs[key].kind != VersionBlob then (s, Failed(AlreadyExists))
      else if LastNumber(s, key) + 1 >= U64_LIMIT then (s, Failed(Overflow))
      else if key in s.fs && !c.rep.acceptNext then (s, Failed(ReplacedExisting))
      else
        (PutVersion(Seal(s, r, u, sealed), key, u, StoredName(c, r.path), SealedRow(r, u, sealed)), Done)
  }

  /** A blob that arrived in fragments is renamed, so that its token no longer names it. */
  function Seal(s: State, r: UploadArg, u: Ulid, sealed: Ulid): (s': State)
    requires u in s.blobs
    ensures s'.fs == s.fs && s'.seqno == s.seqno && s'.ver == s.ver && s'.issued == s.issued
  {
    if r.continuation == [] then s else Rename(s, u, sealed)
  }

  function SealedRow(r: UploadArg, u: Ulid, sealed: Ulid): Version
    requires |r.data| <= MAX_FILE
  {
    if r.continuation == [] then Version(|r.data|, Some(u)) else Version(UNKNOWN_SIZE, Some(sealed))
  }

  /** The number that a new version counts on from: the file's latest version, or the sequence. */
  function LastNumber(s: State, key: Bytes): U64
  {
    if key in s.fs then s.fs[key].latest else s.seqno
  }

  function Rename(s: State, from: Ulid, to: Ulid): State
    requires from in s.blobs
  {
    s.(blobs := (s.blobs - {from})[to := s.blobs[from]])
  }

  /** The next version of the file at `key`, or the first version of a new file. */
  function PutVersion(s: State, key: Bytes, u: Ulid, name: Bytes, v: Version): State
    requires LastNumber(s, key) + 1 < U64_LIMIT
  {
    var number := LastNumber(s, key) + 1;
    if key in s.fs then
      s.(fs := s.fs[key := Record(s.fs[key].id, VersionBlob, number, u, name)],
         ver := s.ver[(s.fs[key].id, number) := v])
    else
      s.(fs := s.fs[key := Record(number, VersionBlob, 1, u, name)],
         seqno := number,
         ver := s.ver[(number, 1) := v])
  }

  predicate Readable(kind: Kind)
  {
    kind in {NormalBlob, VersionBlob, AppendBlob, BlockBlob, Fifo, Socket}
  }

  /** The lookup of append, download and delete. */
  function FindFile(c: Config, s: State, path: Path): (r: Result<Bytes, Error>)
    ensures r.Ok? ==> r.value in s.fs
  {
    if path == [] then Err(EmptyTarget) else FindAt(s.fs, Locate(c.host, s.fs, Nfkd(c, path)))
  }

  function FindAt(fs: Table, located: Result<Bytes, Error>): (r: Result<Bytes, Error>)
    ensures r.Ok? ==> r.value in fs
  {
    match located
    case Err(e) => Err(e)
    case Ok(key) => if key in fs then Ok(key) else Err(NoSuchFile)
  }

  function Append(c: Config, s: State, path: Path, expected: Option<U64>, data: Bytes): (r: (State, Reply))
    ensures r.0.issued == s.issued
  {
    AppendFound(c, s, FindFile(c, s, path), expected, data)
  }

  function AppendFound(
    c: Config, s: State, found: Result<Bytes, Error>, expected: Option<U64>, data: Bytes): (r: (State, Reply))
    requires found.Ok? ==> found.value in s.fs
    ensures r.0.issued == s.issued
  {
    match found
    case Err(e) => (s, Failed(e))
    case Ok(key) =>
      if !Readable(s.fs[key].kind) then (s, Failed(NotReadable))
      else if expected.Some? && expected.value != s.fs[key].latest then (s, Failed(NotLatest))
      else if (s.fs[key].id, s.fs[key].latest) !in s.ver then (s, Failed(MissingVersion))
      else AppendTo(c.rep.writeAppend, s, key, data)
  }

  /** The length that append records: the cached length plus what it wrote, or the size of the
      file if the length was unknown. */
  function AppendedLength(s: State, v: Version, data: Bytes): int
    requires v.blob.Some?
  {
    if v.length != UNKNOWN_SIZE then v.length + |data| else |Contents(s, v.blob.value)|
  }

  function AppendTo(commit: bool, s: State, key: Bytes, data: Bytes): (r: (State, Reply))
    requires key in s.fs && (s.fs[key].id, s.fs[key].latest) in s.ver
    ensures r.0.issued == s.issued
  {
    var r := s.fs[key];
    var v := s.ver[(r.id, r.latest)];
    if v.blob.None? || v.blob.value !in s.blobs then (s, Failed(Io))
    else
      var (s1, written) := Write(s, v.blob.value, data);
      if !written then (s1, Failed(Io))
      else if AppendedLength(s1, v, data) >= U64_LIMIT || r.latest + 1 >= U64_LIMIT then (s1, Failed(Overflow))
      else if !commit then (s1, Done)
      else
        (s1.(fs := s.fs[key := r.(latest := r.latest + 1)],
             ver := s.ver[(r.id, r.latest + 1) := Version(AppendedLength(s1, v, data), v.blob)]),
         Done)
  }

  datatype Purged = Purged(ver: Versions, blobs: Files, finished: bool)

  function BlobOf(ver: Versions, id: U64, v: U64): Option<Ulid>
  {
    if (id, v) in ver then ver[(id, v)].blob else None
  }

  function Unlink(blobs: Files, blob: Option<Ulid>): Files
  {
    if blob.Some? then blobs - {blob.value} else blobs
  }

  /** The delete loop from version `v` down to zero. Unless it is told to skip a blob that is
      already gone, a failing file removal ends it. */
  function Purge(skip: bool, ver: Versions, blobs: Files, id: U64, v: U64): Purged
    decreases v
  {
    var blob, ver1 := BlobOf(ver, id, v), ver - {(id, v)};
    if blob.Some? && blob.value !in blobs && !skip then Purged(ver1, blobs, false)
    else if v == 0 then Purged(ver1, Unlink(blobs, blob), true)
    else Purge(skip, ver1, Unlink(blobs, blob), id, v - 1)
  }

  function Delete(c: Config, s: State, path: Path, expected: Option<U64>): (r: (State, Reply))
    ensures r.0.issued == s.issued
  {
    DeleteFound(c, s, FindFile(c, s, path), expected)
  }

  function DeleteFound(c: Config, s: State, found: Result<Bytes, Error>, expected: Option<U64>): (r: (State, Reply))
    requires found.Ok? ==> found.value in s.fs
    ensures r.0.issued == s.issued
  {
    match found
    case Err(e) => (s, Failed(e))
    case Ok(key) =>
      var record := s.fs[key];
      if expected.Some? && expected.value != record.latest then (s, Failed(NotLatest))
      else if record.kind != VersionBlob then (s.(fs := s.fs - {key}), Done)
      else
        var p := Purge(c.rep.finishDelete, s.ver, s.blobs, record.id, record.latest);
        if !p.finished then (s.(blobs := p.blobs), Failed(Io))
        else if !c.rep.finishDelete then (s.(blobs := p.blobs), Done)
        else (s.(fs := s.fs - {key}, ver := p.ver, blobs := p.blobs), Done)
  }

  function Move(c: Config, s: State, path: Path, expected: Option<U64>, destination: Path): (r: (State, Reply))
    ensures r.0.issued == s.issued
  {
    if destination == [] then (s, Failed(NoDestination))
    else if path == [] then (s, Failed(EmptyTarget))
    else if c.rep.guardMove && Nfkd(c, path) < Nfkd(c, destination) then (s, Failed(InsideItself))
    else
      match (Locate(c.host, s.fs, Nfkd(c, path)), Locate(c.host, s.fs, Nfkd(c, destination)))
      case (Err(e), _) => (s, Failed(e))
      case (_, Err(e)) => (s, Failed(e))
      case (Ok(src), Ok(dest)) =>
        if src !in s.fs then (s, Failed(NoSuchFile))
        else MoveRow(s, src, expected, dest, destination[|destination| - 1])
  }

  function MoveRow(s: State, src: Bytes, expected: Option<U64>, dest: Bytes, name: Bytes): (r: (State, Reply))
    requires src in s.fs
    ensures r.0.issued == s.issued
  {
    if expected.Some? && expected.value != s.fs[src].latest then (s, Failed(NotLatest))
    else if dest in s.fs - {src} then (s, Failed(AlreadyExists))
    else (s.(fs := (s.fs - {src})[dest := s.fs[src].(name := name)]), Done)
  }

  function Copy(c: Config, s: State, path: Path, destination: Path, minted: Ulid): (r: (State, Reply))
    ensures r.0.issued == s.issued
  {
    if destination == [] then (s, Failed(NoDestination))
    else if path == [] then (s, Failed(EmptyTarget))
    else
      match (Locate(c.host, s.fs, Nfkd(c, path)), Locate(c.host, s.fs, Nfkd(c, destination)))
      case (Err(e), _) => (s, Failed(e))
      case (_, Err(e)) => (s, Failed(e))
      case (Ok(src), Ok(dest)) =>
        if src !in s.fs then (s, Failed(NoSuchFile))
        else CopyRow(c.rep.cloneName, s, s.fs[src], dest, destination[|destination| - 1], minted)
  }

  predicate Cloned(kind: Kind)
  {
    kind in {NormalBlob, AppendBlob, BlockBlob}
  }

  /** The file that copy opens for a plain blob. */
  function ClonedFile(byName: bool, u: Ulid): Option<Ulid>
  {
    if byName then Some(u) else BlobNames.FileOfNumber(u)
  }

  predicate CanClone(byName: bool, s: State, record: Record)
  {
    ClonedFile(byName, record.blob).Some? && ClonedFile(byName, record.blob).value in s.blobs
  }

  /** Copy gives the destination a fresh id and the type of a plain blob; a versioned blob's
      contents are not copied. */
  function CopyRow(byName: bool, s: State, record: Record, dest: Bytes, name: Bytes, minted: Ulid): (r: (State, Reply))
    ensures r.0.issued == s.issued
  {
    if !Cloned(record.kind) && record.kind !in {Symlink, VersionBlob} then (s, Failed(NotCopyable))
    else if Cloned(record.kind) && !CanClone(byName, s, record) then (s, Failed(NoBlob))
    else InsertCopy(if Cloned(record.kind) then CloneBlob(byName, s, record, minted) else s, dest, name, minted)
  }

  function CloneBlob(byName: bool, s: State, record: Record, minted: Ulid): State
    requires CanClone(byName, s, record)
  {
    s.(blobs := s.blobs[minted := s.blobs[ClonedFile(byName, record.blob).value]])
  }

  function InsertCopy(s: State, dest: Bytes, name: Bytes, minted: Ulid): (r: (State, Reply))
    ensures r.0.issued == s.issued
  {
    if s.seqno + 1 >= U64_LIMIT then (s, Failed(Overflow))
    else if dest in s.fs then (s, Failed(AlreadyExists))
    else (s.(fs := s.fs[dest := Record(s.seqno + 1, NormalBlob, 1, minted, name)], seqno := s.seqno + 1), Done)
  }

  // ----- Calls and runs -----

  datatype Call =
    | MakeDirectoryCall(path: Path)
    | UploadCall(arg: UploadArg, minted: Ulid, sealed: Ulid)
    | AppendCall(path: Path, expected: Option<U64>, data: Bytes)
    | DeleteCall(path: Path, expected: Option<U64>)
    | MoveCall(path: Path, expected: Option<U64>, destination: Path)
    | CopyCall(path: Path, destination: Path, minted: Ulid)

  function Step(c: Config, s: State, call: Call): (r: (State, Reply))
    ensures s.issued <= r.0.issued
  {
    match call
    case MakeDirectoryCall(path) => MakeDirectory(c, s, path)
    case UploadCall(arg, minted, sealed) => Upload(c, s, arg, minted, sealed)
    case AppendCall(path, expected, data) => Append(c, s, path, expected, data)
    case DeleteCall(path, expected) => Delete(c, s, path, expected)
    case MoveCall(path, expected, destination) => Move(c, s, path, expected, destination)
    case CopyCall(path, destination, minted) => Copy(c, s, path, destination, minted)
  }

  function Run(c: Config, s: State, calls: seq<Call>): State
  {
    if calls == [] then s
    else Step(c, Run(c, s, Front(calls)), Last(calls)).0
  }
}
