/** What becomes of ids when make_directory does not store the sequence: which calls take an id that
    is in use, and exactly which runs end with two objects under one id. */
module SharedIds {
  import opened Wrappers
  import opened Keys
  import opened Store
  import opened Tree
  import opened Invariant
  import opened Changes

  /** The call succeeds and makes a new object. */
  ghost predicate Creates(c: Config, s: State, call: Call)
  {
    && Step(c, s, call).1 == Done
    && match call
       case MakeDirectoryCall(_) => true
       case UploadCall(arg, _, _) => arg.path != [] && Free(c.host, s.fs, CreatePath(c, arg.path))
       case CopyCall(_, _, _) => true
       case _ => false
  }

  ghost predicate MakesDirectory(c: Config, s: State, call: Call)
  {
    call.MakeDirectoryCall? && Creates(c, s, call)
  }

  /** A row added under the next id; only make_directory leaves the sequence where it was. */
  ghost predicate Added(s: State, s': State, key: Bytes, kept: bool)
  {
    && key !in s.fs && key in s'.fs && s.seqno + 1 < U64_LIMIT
    && s'.fs == s.fs[key := s'.fs[key]] && s'.fs[key].id == s.seqno + 1
    && s'.seqno == if kept then s.seqno else s.seqno + 1
  }

  lemma DirectoryRow(c: Config, s: State, path: Path) returns (key: Bytes)
    requires !c.rep.storeSequence && MakeDirectory(c, s, path).1 == Done
    ensures Added(s, MakeDirectory(c, s, path).0, key, true)
  {
    key := Locate(c.host, s.fs, CreatePath(c, path)).value;
  }

  lemma CreatedRow(c: Config, s: State, call: Call) returns (key: Bytes)
    requires !c.rep.storeSequence && Creates(c, s, call)
    ensures Added(s, Step(c, s, call).0, key, call.MakeDirectoryCall?)
  {
    hide MakeDirectory, Upload, Copy, Free;
    match call
    case MakeDirectoryCall(path) => key := DirectoryRow(c, s, path);
    case UploadCall(arg, minted, sealed) =>
      var ch := UploadChange(c, s, arg, minted, sealed);
      key := ch.key;
    case CopyCall(path, destination, minted) =>
      var ch := CopyChange(c, s, path, destination, minted);
      key := ch.key;
  }

  lemma DistinctWithRowIff(fs: Table, key: Bytes, r: Record)
    requires DistinctIds(fs) && key !in fs && r.id != 0
    ensures DistinctIds(fs[key := r]) <==> !HasRow(fs, r.id)
  {
    var fs' := fs[key := r];
    if HasRow(fs, r.id) {
      var k :| k in fs && fs[k].id == r.id;
      assert k in fs' && key in fs' && fs'[k].id == fs'[key].id;
    }
  }

  /** A call that makes an object keeps ids distinct exactly when no row has the next id. */
  lemma NewIdIsFreshIff(c: Config, s: State, call: Call)
    requires !c.rep.storeSequence && DistinctIds(s.fs) && Creates(c, s, call)
    ensures DistinctIds(Step(c, s, call).0.fs) <==> !HasRow(s.fs, s.seqno + 1)
  {
    hide Step, Creates;
    var key := CreatedRow(c, s, call);
    DistinctWithRowIff(s.fs, key, Step(c, s, call).0.fs[key]);
  }

  /** After a directory it is taken, whatever the next object is: both get the same id. */
  lemma NextObjectSharesId(c: Config, s: State, path: Path, call: Call)
    requires !c.rep.storeSequence && MakeDirectory(c, s, path).1 == Done
    requires Creates(c, MakeDirectory(c, s, path).0, call)
    ensures var s1 := MakeDirectory(c, s, path).0;
            s1.seqno == s.seqno && HasRow(s1.fs, s.seqno + 1) && !DistinctIds(Step(c, s1, call).0.fs)
  {
    hide MakeDirectory, Creates, Step;
    var s1 := MakeDirectory(c, s, path).0;
    var j := DirectoryRow(c, s, path);
    var k := CreatedRow(c, s1, call);
    var fs := Step(c, s1, call).0.fs;
    assert j != k && j in fs && fs[j].id == fs[k].id;
  }

  // ----- Over runs -----

  /** Rows stay, perhaps elsewhere, and keep their ids. */
  ghost predicate SameIds(fs: Table, fs': Table)
  {
    && (DistinctIds(fs) <==> DistinctIds(fs'))
    && (forall id: U64 :: HasRow(fs, id) <==> HasRow(fs', id))
  }

  lemma SameIdsAfterRekey(fs: Table, from: Bytes, to: Bytes, r: Record)
    requires from in fs && to !in fs - {from} && r.id == fs[from].id
    ensures SameIds(fs, (fs - {from})[to := r])
  {
    var fs' := (fs - {from})[to := r];
    forall id: U64
      ensures HasRow(fs, id) <==> HasRow(fs', id)
    {
      if HasRow(fs, id) {
        var k :| k in fs && fs[k].id == id;
        assert (if k == from then to else k) in fs';
      }
      if HasRow(fs', id) {
        var k :| k in fs' && fs'[k].id == id;
        assert (if k == to then from else k) in fs;
      }
    }
    if DistinctIds(fs') {
      forall j, k | j in fs && k in fs && fs[j].id == fs[k].id
        ensures j == k
      {
        var j', k' := if j == from then to else j, if k == from then to else k;
        assert j' in fs' && k' in fs' && fs'[j'].id == fs'[k'].id;
      }
      forall k | k in fs
        ensures fs[k].id != ROOT_FSID
      {
        assert (if k == from then to else k) in fs';
      }
    }
  }

  /** A call that neither makes an object nor deletes one. */
  lemma OtherCallsKeepIds(c: Config, s: State, call: Call)
    requires !Creates(c, s, call) && !call.DeleteCall?
    ensures SameIds(s.fs, Step(c, s, call).0.fs) && Step(c, s, call).0.seqno == s.seqno
  {
    hide MakeDirectory, Upload, Append, Move, Copy, Free, SameIds, DistinctIds, HasRow;
    var s' := Step(c, s, call).0;
    var ch := Unchanged;
    match call {
      case MakeDirectoryCall(path) => MakeDirectoryRefused(c, s, path);
      case UploadCall(arg, minted, sealed) => ch := UploadChange(c, s, arg, minted, sealed);
      case AppendCall(path, expected, data) => ch := AppendChange(c, s, path, expected, data);
      case MoveCall(path, expected, destination) => ch := MoveChange(c, s, path, expected, destination);
      case CopyCall(path, destination, minted) => ch := CopyChange(c, s, path, destination, minted);
    }
    ChangeKeepsIds(c.host, s, s', ch);
  }

  lemma MakeDirectoryRefused(c: Config, s: State, path: Path)
    requires MakeDirectory(c, s, path).1 != Done
    ensures MakeDirectory(c, s, path).0 == s
  {
  }

  lemma ChangeKeepsIds(h: Host, s: State, s': State, ch: Change)
    requires Changed(h, s, s', ch) && (ch.Unchanged? || ch.Replaced? || ch.Rekeyed?)
    ensures SameIds(s.fs, s'.fs) && s'.seqno == s.seqno
  {
    match ch
    case Unchanged =>
    case Replaced(_, key) =>
      assert s'.fs == (s.fs - {key})[key := s'.fs[key]];
      SameIdsAfterRekey(s.fs, key, key, s'.fs[key]);
    case Rekeyed(_, key, _, to) =>
      SameIdsAfterRekey(s.fs, key, to, s'.fs[to]);
  }


  ghost predicate MadeDirectory(c: Config, s: State, calls: seq<Call>)
  {
    calls != [] &&
    var (front, last) := (Front(calls), Last(calls));
    MadeDirectory(c, s, front) || MakesDirectory(c, Run(c, s, front), last)
  }

  /** Some call of the run makes an object after another has made a directory. */
  ghost predicate CreatesAfterDirectory(c: Config, s: State, calls: seq<Call>)
  {
    calls != [] &&
    var (front, last) := (Front(calls), Last(calls));
    CreatesAfterDirectory(c, s, front) || (MadeDirectory(c, s, front) && Creates(c, Run(c, s, front), last))
  }

  ghost predicate NoDeletes(calls: seq<Call>)
  {
    forall i :: 0 <= i < |calls| ==> !calls[i].DeleteCall?
  }

  /** Ids lie between 1 and `n`. */
  ghost predicate IdsWithin(fs: Table, n: int)
  {
    forall id: U64 :: HasRow(fs, id) ==> 1 <= id <= n
  }

  /** Before any directory the next id is free; after one it is taken; after one more object two
      share it. */
  ghost predicate Stage(s: State, made: bool, shared: bool)
  {
    if shared then !DistinctIds(s.fs)
    else
      && DistinctIds(s.fs) && IdsWithin(s.fs, if made then s.seqno + 1 else s.seqno)
      && (made ==> s.seqno + 1 < U64_LIMIT && HasRow(s.fs, s.seqno + 1))
  }

  lemma AddedStage(s: State, s': State, key: Bytes, kept: bool, made: bool, shared: bool)
    requires Stage(s, made, shared) && Added(s, s', key, kept)
    ensures Stage(s', made || kept, shared || made)
  {
    if shared {
      SharedStays(s.fs, key, s'.fs[key]);
    } else {
      DistinctWithRowIff(s.fs, key, s'.fs[key]);
      if !made {
        forall id: U64
          ensures HasRow(s'.fs, id) <==> HasRow(s.fs, id) || id == s.seqno + 1
        {
          if HasRow(s.fs, id) {
            var k :| k in s.fs && s.fs[k].id == id;
            assert k in s'.fs;
          }
        }
      }
    }
  }

  lemma SharedStays(fs: Table, key: Bytes, r: Record)
    requires !DistinctIds(fs) && key !in fs
    ensures !DistinctIds(fs[key := r])
  {
    var fs' := fs[key := r];
    if DistinctIds(fs') {
      assert forall k :: k in fs ==> k in fs' && fs'[k] == fs[k];
      assert DistinctIds(fs);
    }
  }

  lemma {:induction false} RunStage(c: Config, calls: seq<Call>)
    requires !c.rep.storeSequence && NoDeletes(calls)
    ensures Stage(Run(c, EMPTY_STATE, calls), MadeDirectory(c, EMPTY_STATE, calls),
                  CreatesAfterDirectory(c, EMPTY_STATE, calls))
  {
    hide Step, Creates, DistinctIds, HasRow, Added;
    if calls == [] {
      NoRows();
    } else {
      var front, last := Front(calls), Last(calls);
      var s := Run(c, EMPTY_STATE, front);
      RunStage(c, front);
      if Creates(c, s, last) {
        var key := CreatedRow(c, s, last);
        AddedStage(s, Step(c, s, last).0, key, last.MakeDirectoryCall?, MadeDirectory(c, EMPTY_STATE, front),
                   CreatesAfterDirectory(c, EMPTY_STATE, front));
      } else {
        OtherCallsKeepIds(c, s, last);
      }
    }
  }

  lemma NoRows()
    ensures DistinctIds(EMPTY_STATE.fs) && IdsWithin(EMPTY_STATE.fs, 0)
  {
  }

  /** Unrepaired, a run without deletes ends with every object under an id of its own exactly when
      no call made an object after another had made a directory. A caller can read that off the
      calls and their answers. */
  lemma IdsDistinctIff(c: Config, calls: seq<Call>)
    requires !c.rep.storeSequence && NoDeletes(calls)
    ensures DistinctIds(Run(c, EMPTY_STATE, calls).fs) <==> !CreatesAfterDirectory(c, EMPTY_STATE, calls)
  {
    RunStage(c, calls);
  }
}
