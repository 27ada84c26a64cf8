/** The storage engine as the object the server holds: tables and blob files that its operations
    update in place. A write transaction works on copies, which a commit stores back. Every
    operation is proved against its transition function, whatever the repairs, and, with the
    repairs, against the file system on paths. */
module Storage {
  import opened Wrappers
  import opened Keys
  import opened Store
  import opened Invariant
  import opened AbstractFs
  import opened Refinement
  import Downloads
  import Listings

  /** The first component that cannot be entered decides how a walk fails. */
  lemma {:induction false} WalkFailsEarly(host: Host, fs: Table, path: Path, i: nat)
    requires i <= |path| && Walk(host, fs, path[..i]).Err?
    ensures Walk(host, fs, path) == Walk(host, fs, path[..i])
    decreases |path| - i
  {
    if i == |path| {
      assert path[..i] == path;
    } else {
      assert path[..i + 1][..i] == path[..i];
      WalkFailsEarly(host, fs, path, i + 1);
    }
  }

  lemma WalkNothing(host: Host, fs: Table)
    ensures Walk(host, fs, []) == Ok(ROOT_FSID)
  {
  }

  lemma WalkNext(host: Host, fs: Table, path: Path, i: nat, parent: U64)
    requires i < |path| && Walk(host, fs, path[..i]) == Ok(parent)
    ensures Walk(host, fs, path[..i + 1]) == Enter(host, fs, parent, path[i])
  {
    assert path[..i + 1][..i] == path[..i];
  }

  /** What a call owes its caller: with the repairs, the tables and blob files go on fitting
      together, and unless disk or numbers are used up the call does to what paths show, and answers,
      what the file system on paths does. */
  ghost predicate Serves(c: Config, s: State, call: Call, s': State, reply: Reply)
  {
    Intended(c.rep) && Inv(c.host, s) && Hollow(s) && Admissible(s, call) ==>
      && Inv(c.host, s') && Hollow(s')
      && (!Exhausted(reply) ==> (Abs(c.host, s'), reply) == AbsStep(c, Abs(c.host, s), call))
  }

  lemma StepServes(c: Config, s: State, call: Call)
    ensures var (s', reply) := Step(c, s, call); Serves(c, s, call, s', reply)
  {
    hide Inv, Hollow, Step, AbsStep, Abs, Admissible, Exhausted;
    if Intended(c.rep) && Inv(c.host, s) && Hollow(s) && Admissible(s, call) {
      StepKeeps(c, s, call);
      StepKeepsHollow(c, s, call);
      if !Exhausted(Step(c, s, call).1) {
        StepRefines(c, s, call);
      }
    }
  }

  lemma ShownDownload(c: Config, s: State, path: Path, version: Option<U64>, offset: U64, length: U64)
    ensures Inv(c.host, s) ==>
              Downloads.Download(c, s, path, version, offset, length) ==
              Downloads.AbsDownload(View(c.host, s), Nfkd(c, path), version, offset, length)
  {
    if Inv(c.host, s) {
      Downloads.DownloadRefines(c, s, path, version, offset, length);
    }
  }

  class DatabaseStorage {
    const config: Config
    var fs: Table
    var seqno: U64
    var ver: Versions
    var blobs: Files
    ghost var issued: set<Ulid>

    ghost function Now(): State
      reads this
    {
      State(fs, seqno, ver, blobs, issued)
    }

    /** The tables and blob files fit together. */
    ghost predicate Valid()
      reads this
    {
      Inv(config.host, Now()) && Hollow(Now())
    }

    /** What paths show, and what is pending under tokens. */
    ghost function Contents(): AbsState
      reads this
    {
      Abs(config.host, Now())
    }

    constructor (config: Config)
      ensures this.config == config && Now() == EMPTY_STATE
      ensures Valid() && Contents() == EMPTY_FS
    {
      this.config := config;
      fs, seqno, ver, blobs, issued := map[], 0, map[], map[], {};
      new;
      InitiallyInv(config.host);
      EmptyLooksEmpty(config.host);
    }

    method DescendPath(path: Path, table: Table) returns (r: Result<U64, Error>)
      ensures r == Walk(config.host, table, path)
    {
      hide Walk, MakeKey, KeyId;
      var parentId := ROOT_FSID;
      WalkNothing(config.host, table);
      for i := 0 to |path|
        invariant Walk(config.host, table, path[..i]) == Ok(parentId)
      {
        WalkNext(config.host, table, path, i, parentId);
        var key := MakeKey(parentId, path[i]);
        if key !in table {
          WalkFailsEarly(config.host, table, path, i + 1);
          return Err(NoSuchPath);
        }
        if table[key].kind != Folder {
          WalkFailsEarly(config.host, table, path, i + 1);
          return Err(NotFolder);
        }
        parentId := KeyId(config.host, table[key].id);
      }
      assert path[..|path|] == path;
      return Ok(parentId);
    }

    /** Walks to the folder of the last component and makes its key. */
    method LocateKey(path: Path, table: Table) returns (r: Result<Bytes, Error>)
      requires path != []
      ensures r == Locate(config.host, table, path)
    {
      var parent := DescendPath(path[..|path| - 1], table);
      match parent
      case Err(e) => return Err(e);
      case Ok(id) => return Ok(MakeKey(id, path[|path| - 1]));
    }

    method MakeDirectory(path: Path) returns (reply: Reply)
      modifies this
      ensures (Now(), reply) == Store.MakeDirectory(config, old(Now()), path)
      ensures Serves(config, old(Now()), MakeDirectoryCall(path), Now(), reply)
    {
      hide Walk, Locate, Serves;
      StepServes(config, Now(), MakeDirectoryCall(path));
      if path == [] {
        return Failed(EmptyTarget);
      }
      var located := LocateKey(CreatePath(config, path), fs);
      if located.Err? {
        return Failed(located.error);
      }
      var txFs, txSeqno, key := fs, seqno, located.value;
      if key in txFs {
        return Failed(AlreadyExists);
      }
      if txSeqno + 1 >= U64_LIMIT {
        return Failed(Overflow);
      }
      var nextId: U64 := txSeqno + 1;
      if config.rep.storeSequence {
        txSeqno := nextId;
      }
      txFs := txFs[key := Record(nextId, Folder, 1, 0, StoredName(config, path))];
      fs, seqno := txFs, txSeqno;
      return Done;
    }

    /** Appends to a blob file, creating it if need be. */
    method WriteBlob(u: Ulid, data: Bytes) returns (written: bool)
      modifies this
      ensures (Now(), written) == Write(old(Now()), u, data)
    {
      var was := if u in blobs then blobs[u] else [];
      written := |was| + |data| <= MAX_FILE;
      blobs := blobs[u := if written then was + data else was];
    }

    method Upload(r: UploadArg, minted: Ulid, sealed: Ulid) returns (reply: Reply)
      modifies this
      ensures (Now(), reply) == Store.Upload(config, old(Now()), r, minted, sealed)
      ensures Serves(config, old(Now()), UploadCall(r, minted, sealed), Now(), reply)
    {
      hide Serves;
      StepServes(config, Now(), UploadCall(r, minted, sealed));
      if r.path == [] {
        return Failed(EmptyTarget);
      }
      var u := minted;
      if r.continuation != [] {
        if |r.continuation| != 16 {
          return Failed(BadToken);
        }
        u := TokenUlid(r.continuation);
      }
      var written := WriteBlob(u, r.data);
      if !written {
        return Failed(Io);
      }
      if r.incomplete {
        issued := issued + {u};
        return Continue(TokenBytes(u));
      }
      reply := Finish(r, u, sealed);
    }

    /** Renames a blob that arrived in fragments, so that its token no longer names it. */
    method SealBlob(r: UploadArg, u: Ulid, sealed: Ulid) returns (row: Version)
      requires u in blobs && |r.data| <= MAX_FILE
      modifies this
      ensures Now() == Seal(old(Now()), r, u, sealed) && row == SealedRow(r, u, sealed)
    {
      if r.continuation == [] {
        return Version(|r.data|, Some(u));
      }
      blobs := (blobs - {u})[sealed := blobs[u]];
      return Version(UNKNOWN_SIZE, Some(sealed));
    }

    /** Writes and commits the record and the version row. */
    method CommitVersion(key: Bytes, u: Ulid, name: Bytes, row: Version)
      requires LastNumber(Now(), key) + 1 < U64_LIMIT
      modifies this
      ensures Now() == PutVersion(old(Now()), key, u, name, row)
    {
      var txFs, txSeqno, txVer := fs, seqno, ver;
      var id, version := 0, 1;
      if key in txFs {
        id, version := txFs[key].id, txFs[key].latest + 1;
      } else {
        txSeqno := txSeqno + 1;
        id := txSeqno;
      }
      txFs := txFs[key := Record(id, VersionBlob, version, u, name)];
      txVer := txVer[(id, version) := row];
      fs, seqno, ver := txFs, txSeqno, txVer;
    }

    method Finish(r: UploadArg, u: Ulid, sealed: Ulid) returns (reply: Reply)
      requires r.path != [] && u in blobs && |r.data| <= MAX_FILE
      modifies this
      ensures (Now(), reply) == FinishUpload(config, old(Now()), r, u, sealed)
    {
      hide PutVersion, Walk, Seal, SealedRow;
      var located := LocateKey(CreatePath(config, r.path), fs);
      if located.Err? {
        return Failed(located.error);
      }
      var key := located.value;
      if key in fs && (!r.next || (config.rep.acceptNext && fs[key].kind != VersionBlob)) {
        return Failed(AlreadyExists);
      }
      if (if key in fs then fs[key].latest else seqno) + 1 >= U64_LIMIT {
        return Failed(Overflow);
      }
      if key in fs && !config.rep.acceptNext {
        return Failed(ReplacedExisting);
      }
      var row := SealBlob(r, u, sealed);
      CommitVersion(key, u, StoredName(config, r.path), row);
      return Done;
    }

    method Append(path: Path, expected: Option<U64>, data: Bytes) returns (reply: Reply)
      modifies this
      ensures (Now(), reply) == Store.Append(config, old(Now()), path, expected, data)
      ensures Serves(config, old(Now()), AppendCall(path, expected, data), Now(), reply)
    {
      hide Serves;
      StepServes(config, Now(), AppendCall(path, expected, data));
      if path == [] {
        return Failed(EmptyTarget);
      }
      var located := LocateKey(Nfkd(config, path), fs);
      if located.Err? {
        return Failed(located.error);
      }
      var key := located.value;
      if key !in fs {
        return Failed(NoSuchFile);
      }
      var record := fs[key];
      if !Readable(record.kind) {
        return Failed(NotReadable);
      }
      if expected.Some? && expected.value != record.latest {
        return Failed(NotLatest);
      }
      if (record.id, record.latest) !in ver {
        return Failed(MissingVersion);
      }
      reply := AppendToFile(key, data);
    }

    method AppendToFile(key: Bytes, data: Bytes) returns (reply: Reply)
      requires key in fs && (fs[key].id, fs[key].latest) in ver
      modifies this
      ensures (Now(), reply) == AppendTo(config.rep.writeAppend, old(Now()), key, data)
    {
      var txFs, txVer, record := fs, ver, fs[key];
      var row := txVer[(record.id, record.latest)];
      if row.blob.None? || row.blob.value !in blobs {
        return Failed(Io);
      }
      var written := WriteBlob(row.blob.value, data);
      if !written {
        return Failed(Io);
      }
      var size: int := |blobs[row.blob.value]|;
      if row.length != UNKNOWN_SIZE {
        size := row.length + |data|;
      }
      if size >= U64_LIMIT || record.latest + 1 >= U64_LIMIT {
        return Failed(Overflow);
      }
      if config.rep.writeAppend {
        txVer := txVer[(record.id, record.latest + 1) := Version(size, row.blob)];
        txFs := txFs[key := record.(latest := record.latest + 1)];
        fs, ver := txFs, txVer;
      }
      return Done;
    }

    method Delete(path: Path, expected: Option<U64>) returns (reply: Reply)
      modifies this
      ensures (Now(), reply) == Store.Delete(config, old(Now()), path, expected)
      ensures Serves(config, old(Now()), DeleteCall(path, expected), Now(), reply)
    {
      hide Walk, Locate, Purge, Serves;
      StepServes(config, Now(), DeleteCall(path, expected));
      if path == [] {
        return Failed(EmptyTarget);
      }
      var located := LocateKey(Nfkd(config, path), fs);
      if located.Err? {
        return Failed(located.error);
      }
      var key := located.value;
      if key !in fs {
        return Failed(NoSuchFile);
      }
      reply := DeleteObject(key, expected);
    }

    /** Takes the record out, and with a versioned blob its versions. */
    method DeleteObject(key: Bytes, expected: Option<U64>) returns (reply: Reply)
      requires key in fs
      modifies this
      ensures (Now(), reply) == DeleteFound(config, old(Now()), Ok(key), expected)
    {
      hide Purge;
      var record, txFs := fs[key], fs - {key};
      if expected.Some? && expected.value != record.latest {
        return Failed(NotLatest);
      }
      if record.kind != VersionBlob {
        fs := txFs;
        return Done;
      }
      var finished, txVer := PurgeVersions(record.id, record.latest);
      if !finished {
        return Failed(Io);
      }
      if config.rep.finishDelete {
        fs, ver := txFs, txVer;
      }
      return Done;
    }

    /** The descending loop over the versions of a file. It counts down to zero without going
        below, and removes blob files as it goes. */
    method PurgeVersions(id: U64, latest: U64) returns (finished: bool, txVer: Versions)
      modifies this`blobs
      ensures var p := Purge(config.rep.finishDelete, ver, old(blobs), id, latest);
              blobs == p.blobs && finished == p.finished && txVer == p.ver
    {
      var version := latest;
      txVer := ver;
      while true
        invariant Purge(config.rep.finishDelete, txVer, blobs, id, version) ==
                  Purge(config.rep.finishDelete, ver, old(blobs), id, latest)
        decreases version
      {
        if (id, version) in txVer {
          var row := txVer[(id, version)];
          txVer := txVer - {(id, version)};
          if row.blob.Some? {
            if row.blob.value !in blobs && !config.rep.finishDelete {
              return false, txVer;
            }
            blobs := blobs - {row.blob.value};
          }
        } else {
          assert txVer - {(id, version)} == txVer;
        }
        if version == 0 {
          return true, txVer;
        }
        version := version - 1;
      }
    }

    method Move(path: Path, expected: Option<U64>, destination: Path) returns (reply: Reply)
      modifies this
      ensures (Now(), reply) == Store.Move(config, old(Now()), path, expected, destination)
      ensures Serves(config, old(Now()), MoveCall(path, expected, destination), Now(), reply)
    {
      hide Walk, Locate, MoveRow, Serves;
      StepServes(config, Now(), MoveCall(path, expected, destination));
      if destination == [] {
        return Failed(NoDestination);
      }
      if path == [] {
        return Failed(EmptyTarget);
      }
      if config.rep.guardMove && Nfkd(config, path) < Nfkd(config, destination) {
        return Failed(InsideItself);
      }
      var src := LocateKey(Nfkd(config, path), fs);
      if src.Err? {
        return Failed(src.error);
      }
      var dest := LocateKey(Nfkd(config, destination), fs);
      if dest.Err? {
        return Failed(dest.error);
      }
      if src.value !in fs {
        return Failed(NoSuchFile);
      }
      reply := MoveObject(src.value, expected, dest.value, destination[|destination| - 1]);
    }

    /** Takes the record out under one key and puts it back under another. */
    method MoveObject(src: Bytes, expected: Option<U64>, dest: Bytes, name: Bytes) returns (reply: Reply)
      requires src in fs
      modifies this
      ensures (Now(), reply) == MoveRow(old(Now()), src, expected, dest, name)
    {
      var record, txFs := fs[src], fs - {src};
      if expected.Some? && expected.value != record.latest {
        return Failed(NotLatest);
      }
      if dest in txFs {
        return Failed(AlreadyExists);
      }
      txFs := txFs[dest := record.(name := name)];
      fs := txFs;
      return Done;
    }

    method Copy(path: Path, destination: Path, minted: Ulid) returns (reply: Reply)
      modifies this
      ensures (Now(), reply) == Store.Copy(config, old(Now()), path, destination, minted)
      ensures Serves(config, old(Now()), CopyCall(path, destination, minted), Now(), reply)
    {
      hide Walk, Locate, CopyRow, Serves;
      StepServes(config, Now(), CopyCall(path, destination, minted));
      if destination == [] {
        return Failed(NoDestination);
      }
      if path == [] {
        return Failed(EmptyTarget);
      }
      var src := LocateKey(Nfkd(config, path), fs);
      if src.Err? {
        return Failed(src.error);
      }
      var dest := LocateKey(Nfkd(config, destination), fs);
      if dest.Err? {
        return Failed(dest.error);
      }
      if src.value !in fs {
        return Failed(NoSuchFile);
      }
      reply := CopyObject(fs[src.value], dest.value, destination[|destination| - 1], minted);
    }

    /** Clones the blob of a plain object, and commits the copy's record. */
    method CopyObject(record: Record, key: Bytes, name: Bytes, minted: Ulid) returns (reply: Reply)
      modifies this
      ensures (Now(), reply) == CopyRow(config.rep.cloneName, old(Now()), record, key, name, minted)
    {
      hide InsertCopy;
      if Cloned(record.kind) {
        var file := ClonedFile(config.rep.cloneName, record.blob);
        if file.None? || file.value !in blobs {
          return Failed(NoBlob);
        }
        blobs := blobs[minted := blobs[file.value]];
      } else if record.kind !in {Symlink, VersionBlob} {
        return Failed(NotCopyable);
      }
      reply := CommitCopy(key, name, minted);
    }

    /** The copy's record takes a fresh id. */
    method CommitCopy(key: Bytes, name: Bytes, minted: Ulid) returns (reply: Reply)
      modifies this
      ensures (Now(), reply) == InsertCopy(old(Now()), key, name, minted)
    {
      var txFs, txSeqno := fs, seqno;
      if txSeqno + 1 >= U64_LIMIT {
        return Failed(Overflow);
      }
      txSeqno := txSeqno + 1;
      if key in txFs {
        return Failed(AlreadyExists);
      }
      txFs := txFs[key := Record(txSeqno, NormalBlob, 1, minted, name)];
      fs, seqno := txFs, txSeqno;
      return Done;
    }

    /** One read of up to 8 MiB from a version. */
    method Download(path: Path, version: Option<U64>, offset: U64, length: U64)
      returns (r: Result<Downloads.Chunk, Error>)
      ensures r == Downloads.Download(config, Now(), path, version, offset, length)
      ensures Valid() ==> r == Downloads.AbsDownload(Contents().fs, Nfkd(config, path), version, offset, length)
    {
      hide Inv, Hollow, View, Walk, Locate, Downloads.ReadWindow;
      ShownDownload(config, Now(), path, version, offset, length);
      if path == [] {
        return Err(EmptyTarget);
      }
      var located := LocateKey(Nfkd(config, path), fs);
      if located.Err? {
        return Err(located.error);
      }
      if located.value !in fs {
        return Err(NoSuchFile);
      }
      var record := fs[located.value];
      if !Readable(record.kind) {
        return Err(NotReadable);
      }
      var requested := if version.Some? then version.value else record.latest;
      if (record.id, requested) !in ver {
        return Err(MissingVersion);
      }
      r := ReadChunk(ver[(record.id, requested)], offset, length);
    }

    /** Clips the window to a known length and to the read limit, and reads it from the blob. */
    method ReadChunk(row: Version, offset: U64, length: U64) returns (r: Result<Downloads.Chunk, Error>)
      ensures r == Downloads.ReadWindow(row, blobs, offset, length)
    {
      var known := row.length != UNKNOWN_SIZE;
      if offset > 0 && known && offset > row.length {
        return Err(BeyondEnd);
      }
      if row.blob.None? || row.blob.value !in blobs || offset > MAX_FILE {
        return Err(Io);
      }
      var wanted := length;
      if known {
        if offset + length >= U64_LIMIT {
          return Err(Overflow);
        }
        if offset + length > row.length {
          wanted := row.length - offset;
        }
      }
      var size := Downloads.Min(wanted, MAX_READ_SIZE);
      var data := Downloads.ReadAt(blobs[row.blob.value], offset, size);
      return Ok(Downloads.Chunk(data, |data| == size));
    }

    method List(path: Path) returns (r: Result<seq<Listings.Entry>, Error>)
      ensures r == Listings.List(config, Now(), path)
      ensures Valid() && seqno + 1 < U64_LIMIT ==> Listings.AbsLists(Contents().fs, ListPath(config, path), r)
      ensures Valid() && r.Ok? ==> Listings.Shows(Contents().fs, ListPath(config, path), r.value)
    {
      hide View, Walk, Listings.AbsLists, Listings.Shows;
      if Valid() && seqno + 1 < U64_LIMIT {
        Listings.ListRefines(config, Now(), path);
      }
      var walked := DescendPath(ListPath(config, path), fs);
      if walked.Err? {
        return Err(walked.error);
      }
      if walked.value + 1 >= U64_LIMIT {
        return Err(Overflow);
      }
      var entries := ScanFolder(walked.value);
      Listings.OneListing(fs, walked.value);
      if Valid() {
        Listings.ListedShows(config.host, Now(), ListPath(config, path), walked.value, entries);
      }
      return Ok(entries);
    }

    /** Scans the ordered table from the folder's id to the next, pushing one entry per row. */
    method ScanFolder(parentId: U64) returns (entries: seq<Listings.Entry>)
      requires parentId + 1 < U64_LIMIT
      ensures Listings.Listed(fs, parentId, entries)
    {
      hide InRange;
      entries := [];
      ghost var keys: seq<Bytes> := [];
      var rest := set k | k in fs && InRange(parentId, k);
      while rest != {}
        invariant Listings.Partway(fs, parentId, keys, rest)
        invariant (forall k :: k in keys ==> k in fs) && entries == Listings.Entries(fs, keys)
        decreases |rest|
      {
        ghost var least := Listings.LeastExists(rest);
        var key :| key in rest && forall k | k in rest :: Positional.LexLeq(key, k);
        assert key in fs;
        Listings.ScanStep(fs, parentId, keys, rest, key);
        Listings.PushEntry(fs, keys, key);
        entries := entries + [Listings.Entry(fs[key].name, Listings.ObjType(fs[key].kind))];
        keys := keys + [key];
        rest := rest - {key};
      }
      assert Listings.Scan(fs, parentId, keys);
    }
  }
}
