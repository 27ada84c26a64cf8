/** The five ways in which a call can change the object table. */
module Changes {
  import opened Wrappers
  import opened Keys
  import opened Store

  datatype Change =
    | Unchanged
    | Inserted(path: Path, key: Bytes)                         // a new object, with the next id
    | Replaced(path: Path, key: Bytes)                         // the same object, with other contents
    | Removed(path: Path, key: Bytes)
    | Rekeyed(path: Path, key: Bytes, dest: Path, to: Bytes)   // the same object, elsewhere

  predicate SameObject(a: Record, b: Record)
  {
    a.id == b.id && a.kind == b.kind
  }

  ghost predicate Names(h: Host, fs: Table, p: Path, key: Bytes)
  {
    p != [] && Locate(h, fs, p) == Ok(key)
  }

  ghost predicate Changed(h: Host, s: State, s': State, ch: Change)
  {
    match ch
    case Unchanged => s'.fs == s.fs && s'.seqno == s.seqno
    case Inserted(p, key) =>
      && Names(h, s.fs, p, key) && key !in s.fs && key in s'.fs
      && s.seqno + 1 < U64_LIMIT && s'.seqno == s.seqno + 1 && s'.fs[key].id == s.seqno + 1
      && s'.fs == s.fs[key := s'.fs[key]]
    case Replaced(p, key) =>
      && Names(h, s.fs, p, key) && key in s.fs && key in s'.fs && SameObject(s'.fs[key], s.fs[key])
      && s'.fs == s.fs[key := s'.fs[key]] && s'.seqno == s.seqno
    case Removed(p, key) =>
      && Names(h, s.fs, p, key) && key in s.fs
      && s'.fs == s.fs - {key} && s'.seqno == s.seqno
    case Rekeyed(p, key, dest, to) =>
      && Names(h, s.fs, p, key) && key in s.fs && Names(h, s.fs, dest, to) && to !in s.fs - {key} && to in s'.fs
      && SameObject(s'.fs[to], s.fs[key]) && s'.fs[to].latest == s.fs[key].latest
      && s'.fs == (s.fs - {key})[to := s'.fs[to]] && s'.seqno == s.seqno
  }

  /** A call that answers with an error changes no table; this needs no repair and no invariant. */
  ghost predicate TablesSame(s: State, s': State)
  {
    s'.fs == s.fs && s'.seqno == s.seqno && s'.ver == s.ver
  }

  lemma MakeDirectoryChange(c: Config, s: State, path: Path) returns (ch: Change)
    ensures var (s', reply) := MakeDirectory(c, s, path);
            && (reply.Failed? ==> TablesSame(s, s'))
            && (reply.Failed? || c.rep.storeSequence ==> Changed(c.host, s, s', ch))
    ensures !ch.Rekeyed?
  {
    ch := Unchanged;
    if MakeDirectory(c, s, path).1 == Done {
      ch := Inserted(CreatePath(c, path), Locate(c.host, s.fs, CreatePath(c, path)).value);
    }
  }

  lemma PutVersionChange(h: Host, s: State, p: Path, key: Bytes, u: Ulid, name: Bytes, v: Version) returns (ch: Change)
    requires Names(h, s.fs, p, key) && LastNumber(s, key) + 1 < U64_LIMIT
    requires key in s.fs ==> s.fs[key].kind == VersionBlob
    ensures Changed(h, s, PutVersion(s, key, u, name, v), ch)
    ensures ch == if key in s.fs then Replaced(p, key) else Inserted(p, key)
  {
    ch := if key in s.fs then Replaced(p, key) else Inserted(p, key);
  }

  /** The key is new in a table that can tell: an upload to it made a new file. */
  ghost predicate Free(h: Host, fs: Table, p: Path)
  {
    p != [] && Locate(h, fs, p).Ok? && Locate(h, fs, p).value !in fs
  }

  lemma FinishUploadChange(c: Config, s: State, r: UploadArg, u: Ulid, sealed: Ulid) returns (ch: Change)
    requires r.path != [] && u in s.blobs && |r.data| <= MAX_FILE
    ensures var (s', reply) := FinishUpload(c, s, r, u, sealed);
            && Changed(c.host, s, s', ch) && (reply.Failed? ==> TablesSame(s, s'))
            && (ch.Inserted? <==> reply == Done && Free(c.host, s.fs, CreatePath(c, r.path)))
            && (reply == Done ==> (ch.Inserted? || ch.Replaced?) && ch.path == CreatePath(c, r.path))
    ensures !ch.Rekeyed? && !ch.Removed?
  {
    hide Seal, SealedRow, PutVersion, Walk, Locate;
    ch := Unchanged;
    if FinishUpload(c, s, r, u, sealed).1 == Done {
      var p := CreatePath(c, r.path);
      var s1 := Seal(s, r, u, sealed);
      var key := Locate(c.host, s.fs, p).value;
      ch := PutVersionChange(c.host, s1, p, key, u, StoredName(c, r.path), SealedRow(r, u, sealed));
    }
  }

  lemma UploadChange(c: Config, s: State, r: UploadArg, minted: Ulid, sealed: Ulid) returns (ch: Change)
    ensures var (s', reply) := Upload(c, s, r, minted, sealed);
            && Changed(c.host, s, s', ch) && (reply.Failed? ==> TablesSame(s, s'))
            && (ch.Inserted? <==> reply == Done && r.path != [] && Free(c.host, s.fs, CreatePath(c, r.path)))
            && (reply == Done ==> r.path != [] && (ch.Inserted? || ch.Replaced?) && ch.path == CreatePath(c, r.path))
    ensures !ch.Rekeyed? && !ch.Removed?
  {
    ch := Unchanged;
    if r.path != [] && TokenName(r.continuation, minted).Some? {
      var u := TokenName(r.continuation, minted).value;
      var (s1, written) := Write(s, u, r.data);
      if written && !r.incomplete {
        ch := FinishUploadChange(c, s1, r, u, sealed);
      }
    }
  }

  lemma AppendToChange(h: Host, commit: bool, s: State, p: Path, key: Bytes, data: Bytes) returns (ch: Change)
    requires Names(h, s.fs, p, key) && key in s.fs && (s.fs[key].id, s.fs[key].latest) in s.ver
    ensures var (s', reply) := AppendTo(commit, s, key, data);
            Changed(h, s, s', ch) && (reply.Failed? ==> TablesSame(s, s'))
    ensures ch.Unchanged? || ch.Replaced?
  {
    ch := if commit && AppendTo(commit, s, key, data).1 == Done then Replaced(p, key) else Unchanged;
  }

  lemma AppendChange(c: Config, s: State, path: Path, expected: Option<U64>, data: Bytes) returns (ch: Change)
    ensures var (s', reply) := Append(c, s, path, expected, data);
            Changed(c.host, s, s', ch) && (reply.Failed? ==> TablesSame(s, s'))
    ensures ch.Unchanged? || ch.Replaced?
  {
    ch := Unchanged;
    var (s', reply) := Append(c, s, path, expected, data);
    if reply == Done || s' != s {
      ch := AppendToChange(c.host, c.rep.writeAppend, s, Nfkd(c, path), FindFile(c, s, path).value, data);
    }
  }

  lemma DeleteChange(c: Config, s: State, path: Path, expected: Option<U64>) returns (ch: Change)
    ensures var (s', reply) := Delete(c, s, path, expected);
            Changed(c.host, s, s', ch) && (reply.Failed? ==> TablesSame(s, s'))
    ensures !ch.Rekeyed?
    ensures c.rep.finishDelete && Delete(c, s, path, expected).1 == Done ==> ch.Removed? && ch.path == Nfkd(c, path)
  {
    ch := Unchanged;
    if Delete(c, s, path, expected).1 == Done {
      var key := FindFile(c, s, path).value;
      if s.fs[key].kind != VersionBlob || c.rep.finishDelete {
        ch := Removed(Nfkd(c, path), key);
      }
    }
  }

  lemma MoveRowChange(
    h: Host, s: State, src: Path, from: Bytes, expected: Option<U64>, dest: Path, to: Bytes, name: Bytes)
    returns (ch: Change)
    requires Names(h, s.fs, src, from) && from in s.fs && Names(h, s.fs, dest, to)
    ensures var (s', reply) := MoveRow(s, from, expected, to, name);
            Changed(h, s, s', ch) && (reply.Failed? ==> TablesSame(s, s'))
    ensures ch == if MoveRow(s, from, expected, to, name).1 == Done then Rekeyed(src, from, dest, to) else Unchanged
  {
    ch := if MoveRow(s, from, expected, to, name).1 == Done then Rekeyed(src, from, dest, to) else Unchanged;
  }

  lemma MoveChange(c: Config, s: State, path: Path, expected: Option<U64>, destination: Path) returns (ch: Change)
    ensures var (s', reply) := Move(c, s, path, expected, destination);
            && Changed(c.host, s, s', ch) && (reply.Failed? ==> TablesSame(s, s'))
            && (ch.Rekeyed? && c.rep.guardMove ==> !(ch.path < ch.dest))
    ensures ch.Unchanged? || ch.Rekeyed?
    ensures Move(c, s, path, expected, destination).1 == Done ==>
              ch.Rekeyed? && ch.path == Nfkd(c, path) && ch.dest == Nfkd(c, destination)
  {
    hide Locate, MoveRow;
    ch := Unchanged;
    var src, dest := Nfkd(c, path), Nfkd(c, destination);
    if path != [] && destination != [] && !(c.rep.guardMove && src < dest) {
      var from, to := Locate(c.host, s.fs, src), Locate(c.host, s.fs, dest);
      if from.Ok? && to.Ok? && from.value in s.fs {
        ch := MoveRowChange(c.host, s, src, from.value, expected, dest, to.value, Last(destination));
      }
    }
  }

  lemma CopyRowChange(h: Host, byName: bool, s: State, record: Record, p: Path, key: Bytes, name: Bytes, minted: Ulid)
    returns (ch: Change)
    requires Names(h, s.fs, p, key)
    ensures var (s', reply) := CopyRow(byName, s, record, key, name, minted);
            Changed(h, s, s', ch) && (reply.Failed? ==> TablesSame(s, s'))
    ensures ch == if CopyRow(byName, s, record, key, name, minted).1 == Done then Inserted(p, key) else Unchanged
  {
    hide Locate, Walk;
    ch := if CopyRow(byName, s, record, key, name, minted).1 == Done then Inserted(p, key) else Unchanged;
  }

  lemma CopyChange(c: Config, s: State, path: Path, destination: Path, minted: Ulid) returns (ch: Change)
    ensures var (s', reply) := Copy(c, s, path, destination, minted);
            Changed(c.host, s, s', ch) && (reply.Failed? ==> TablesSame(s, s'))
    ensures if Copy(c, s, path, destination, minted).1 == Done then ch.Inserted? else ch.Unchanged?
  {
    ch := Unchanged;
    if path != [] && destination != [] {
      var src, dest := Locate(c.host, s.fs, Nfkd(c, path)), Locate(c.host, s.fs, Nfkd(c, destination));
      if src.Ok? && dest.Ok? && src.value in s.fs {
        ch := CopyRowChange(
          c.host, c.rep.cloneName, s, s.fs[src.value], Nfkd(c, destination), dest.value, Last(destination), minted);
      }
    }
  }

  lemma StepChange(c: Config, s: State, call: Call) returns (ch: Change)
    ensures var (s', reply) := Step(c, s, call);
            && (reply.Failed? ==> TablesSame(s, s'))
            && (c.rep.storeSequence ==> Changed(c.host, s, s', ch))
            && (c.rep.storeSequence && c.rep.guardMove && ch.Rekeyed? ==> !(ch.path < ch.dest))
  {
    hide MakeDirectory, Upload, Append, Delete, Move, Copy, Changed;
    match call
    case MakeDirectoryCall(path) => ch := MakeDirectoryChange(c, s, path);
    case UploadCall(arg, minted, sealed) => ch := UploadChange(c, s, arg, minted, sealed);
    case AppendCall(path, expected, data) => ch := AppendChange(c, s, path, expected, data);
    case DeleteCall(path, expected) => ch := DeleteChange(c, s, path, expected);
    case MoveCall(path, expected, destination) => ch := MoveChange(c, s, path, expected, destination);
    case CopyCall(path, destination, minted) => ch := CopyChange(c, s, path, destination, minted);
  }

  /** A call that returns an error leaves the committed tables unchanged. */
  lemma ErrorLeavesTables(c: Config, s: State, call: Call)
    requires Step(c, s, call).1.Failed?
    ensures TablesSame(s, Step(c, s, call).0)
  {
    hide Step, Changed;
    var _ := StepChange(c, s, call);
  }
}
