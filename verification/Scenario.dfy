/** Short runs in which every call succeeds. They show that the hypotheses of the theorems can be
    met, and what they say about it. */
module Scenario {
  import opened Wrappers
  import opened Keys
  import opened Store
  import opened Invariant
  import opened AbstractFs
  import opened Steps
  import opened Refinement

  const FILE := Record(2, VersionBlob, 1, 7, X)
  const BOTH: Versions := map[(2, 1) := Version(1, Some(7)), (2, 2) := Version(2, Some(7))]

  function KeyX(h: Host): Bytes
  {
    MakeKey(KeyId(h, 1), X)
  }

  /** The states between the calls. */
  const MADE := State(map[MakeKey(0, A) := FolderRow(1, A)], 1, map[], map[], {})

  function AfterUpload(h: Host): State
  {
    State(map[MakeKey(0, A) := FolderRow(1, A), KeyX(h) := FILE], 2,
          map[(2, 1) := Version(1, Some(7))], map[7 := [1]], {})
  }

  function AfterAppend(h: Host): State
  {
    State(map[MakeKey(0, A) := FolderRow(1, A), KeyX(h) := FILE.(latest := 2)], 2, BOTH, map[7 := [1, 2]], {})
  }

  function AfterMove(h: Host): State
  {
    State(map[KeyX(h) := FILE.(latest := 2), MakeKey(0, B) := FolderRow(1, B)], 2, BOTH, map[7 := [1, 2]], {})
  }

  const DELETED := State(map[MakeKey(0, B) := FolderRow(1, B)], 2, map[], map[], {})

  lemma KeysDiffer(h: Host)
    ensures MakeKey(0, A) != MakeKey(0, B) && KeyX(h) != MakeKey(0, A) && KeyX(h) != MakeKey(0, B)
  {
    MakeKeyInjective(0, A, 0, B);
    MakeKeyInjective(KeyId(h, 1), X, 0, A);
    MakeKeyInjective(KeyId(h, 1), X, 0, B);
    KeyIdOfRoot(h);
    KeyIdInjective(h, 1, 0);
  }

  const UPLOAD := UploadCall(UploadArg([A, X], [1], false, false, []), 7, 8)

  lemma MakesAndUploads(h: Host)
    ensures Step(Repaired(h), EMPTY_STATE, MakeDirectoryCall([A])) == (MADE, Done)
    ensures Step(Repaired(h), MADE, UPLOAD) == (AfterUpload(h), Done) && Admissible(MADE, UPLOAD)
  {
    hide MakeKey, KeyId, Walk, Locate, Step;
    KeysDiffer(h);
    AtTop(h, EMPTY_STATE.fs, A);
    Making(h, REPAIRED, EMPTY_STATE, [A], Ok(MakeKey(0, A)));
    AtSecond(h, MADE.fs, A, X);
    Uploading(h, REPAIRED, MADE, [A, X], [1], 7, 8, KeyX(h));
  }

  lemma Appends(h: Host)
    ensures Step(Repaired(h), AfterUpload(h), AppendCall([A, X], None, [2])) == (AfterAppend(h), Done)
  {
    hide MakeKey, KeyId, Walk, Locate, Step;
    KeysDiffer(h);
    AtSecond(h, AfterUpload(h).fs, A, X);
    Appending(h, REPAIRED, AfterUpload(h), [A, X], [2], KeyX(h), 7);
    assert AfterUpload(h).fs[KeyX(h) := FILE.(latest := 2)] == AfterAppend(h).fs;
    assert AfterUpload(h).ver[(2, 2) := Version(2, Some(7))] == BOTH;
    var piece: Bytes := [1];
    assert piece + [2] == [1, 2];
    assert AfterUpload(h).blobs[7 := piece + [2]] == AfterAppend(h).blobs;
  }

  lemma Moves(h: Host)
    ensures Step(Repaired(h), AfterAppend(h), MoveCall([A], None, [B])) == (AfterMove(h), Done)
  {
    hide MakeKey, KeyId, Walk, Locate, Step;
    KeysDiffer(h);
    AtTop(h, AfterAppend(h).fs, A);
    AtTop(h, AfterAppend(h).fs, B);
    Moving(h, REPAIRED, AfterAppend(h), [A], MakeKey(0, A), [B], MakeKey(0, B));
    assert (AfterAppend(h).fs - {MakeKey(0, A)})[MakeKey(0, B) := FolderRow(1, B)] == AfterMove(h).fs;
  }

  lemma Deletes(h: Host)
    ensures Step(Repaired(h), AfterMove(h), DeleteCall([B, X], None)) == (DELETED, Done)
  {
    hide MakeKey, KeyId, Walk, Locate, Step;
    KeysDiffer(h);
    AtSecond(h, AfterMove(h).fs, B, X);
    DeletingTwo(h, REPAIRED, AfterMove(h), [B, X], KeyX(h), 7);
    assert AfterMove(h).fs - {KeyX(h)} == DELETED.fs;
    assert AfterMove(h).blobs - {7} == map[];
  }

  /** The calls make a run that satisfies every hypothesis on runs, in which none fails for want of
      disk or numbers, and which ends in `s`. */
  ghost predicate LeadsTo(c: Config, calls: seq<Call>, s: State)
  {
    AdmissibleRun(c, EMPTY_STATE, calls) && NeverExhausted(c, EMPTY_STATE, calls) && Run(c, EMPTY_STATE, calls) == s
  }

  lemma Snoc(c: Config, calls: seq<Call>, last: Call, s: State, s': State)
    requires LeadsTo(c, calls, s) && Step(c, s, last).0 == s' && !Exhausted(Step(c, s, last).1)
    requires Admissible(s, last)
    ensures LeadsTo(c, calls + [last], s')
  {
    hide Step, Admissible;
    var all := calls + [last];
    assert all[..|calls|] == calls && all[|calls|] == last;
  }

  const MAKE := MakeDirectoryCall([A])
  const APPEND := AppendCall([A, X], None, [2])
  const MOVE := MoveCall([A], None, [B])
  const DELETE := DeleteCall([B, X], None)

  /** Make a, upload a/x, append to it, move a to b, delete b/x: every call succeeds. After the move
      both versions read what they read before it; in the end the folder is all there is. */
  lemma FiveCalls(h: Host)
    ensures Intended(Repaired(h).rep)
    ensures LeadsTo(Repaired(h), [MAKE, UPLOAD, APPEND, MOVE], AfterMove(h))
    ensures var moved := AfterMove(h);
            && ReadVersion(moved.ver, moved.blobs, 2, 1) == Reading(true, 7, [1])
            && ReadVersion(moved.ver, moved.blobs, 2, 2) == Reading(true, 7, [1, 2])
    ensures LeadsTo(Repaired(h), [MAKE, UPLOAD, APPEND, MOVE, DELETE], DELETED)
  {
    hide Step, LeadsTo, AfterUpload, AfterAppend, AfterMove, ReadVersion, MakeKey;
    var c := Repaired(h);
    BothReadable(h);
    MakesAndUploads(h);
    Appends(h);
    Moves(h);
    Deletes(h);
    Start(c);
    Snoc(c, [], MAKE, EMPTY_STATE, MADE);
    assert [] + [MAKE] == [MAKE];
    Snoc(c, [MAKE], UPLOAD, MADE, AfterUpload(h));
    assert [MAKE] + [UPLOAD] == [MAKE, UPLOAD];
    Snoc(c, [MAKE, UPLOAD], APPEND, AfterUpload(h), AfterAppend(h));
    assert [MAKE, UPLOAD] + [APPEND] == [MAKE, UPLOAD, APPEND];
    Snoc(c, [MAKE, UPLOAD, APPEND], MOVE, AfterAppend(h), AfterMove(h));
    assert [MAKE, UPLOAD, APPEND] + [MOVE] == [MAKE, UPLOAD, APPEND, MOVE];
    Snoc(c, [MAKE, UPLOAD, APPEND, MOVE], DELETE, AfterMove(h), DELETED);
    assert [MAKE, UPLOAD, APPEND, MOVE] + [DELETE] == [MAKE, UPLOAD, APPEND, MOVE, DELETE];
  }

  lemma BothReadable(h: Host)
    ensures var moved := AfterMove(h);
            && ReadVersion(moved.ver, moved.blobs, 2, 1) == Reading(true, 7, [1])
            && ReadVersion(moved.ver, moved.blobs, 2, 2) == Reading(true, 7, [1, 2])
  {
    hide KeyX, MakeKey, KeyId;
    var bytes: Bytes := [1, 2];
    assert bytes[..1] == [1];
    assert bytes[..2] == bytes;
    assert BOTH[(2, 1)] == Version(1, Some(7)) && BOTH[(2, 2)] == Version(2, Some(7));
  }

  lemma Start(c: Config)
    ensures LeadsTo(c, [], EMPTY_STATE)
  {
  }

  // ----- In fragments -----

  const SEND := UploadCall(UploadArg([X], [1], false, true, []), 7, 8)
  const FINISH := UploadCall(UploadArg([X], [2], false, false, TokenBytes(7)), 9, 8)
  const NEXT := UploadCall(UploadArg([X], [3], true, false, []), 9, 10)

  const SENT := State(map[], 0, map[], map[7 := [1]], {7})
  const WHOLE := State(
    map[MakeKey(0, X) := Record(1, VersionBlob, 1, 7, X)], 1,
    map[(1, 1) := Version(UNKNOWN_SIZE, Some(8))], map[8 := [1, 2]], {7})
  const TWICE := State(
    map[MakeKey(0, X) := Record(1, VersionBlob, 2, 9, X)], 1,
    map[(1, 1) := Version(UNKNOWN_SIZE, Some(8)), (1, 2) := Version(1, Some(9))],
    map[8 := [1, 2], 9 := [3]], {7})

  lemma Sends(h: Host)
    ensures Step(Repaired(h), EMPTY_STATE, SEND) == (SENT, Continue(TokenBytes(7))) && Admissible(EMPTY_STATE, SEND)
  {
    hide Step, TokenBytes;
    Sending(h, REPAIRED, EMPTY_STATE, [X], [1], 7, 8);
    assert EMPTY_STATE.blobs[7 := [1]] == SENT.blobs && EMPTY_STATE.issued + {7} == SENT.issued;
  }

  lemma Finishes(h: Host)
    ensures Step(Repaired(h), SENT, FINISH) == (WHOLE, Done) && Admissible(SENT, FINISH)
  {
    hide Step, Locate, Walk, MakeKey, TokenBytes;
    TokenRoundTrip(7);
    AtTop(h, SENT.fs, X);
    Finishing(h, REPAIRED, SENT, [X], [2], 7, 9, 8, MakeKey(0, X));
    var one: Bytes := [1];
    assert one + [2] == [1, 2];
    assert (SENT.blobs - {7})[8 := one + [2]] == WHOLE.blobs;
  }

  lemma Follows(h: Host)
    ensures Step(Repaired(h), WHOLE, NEXT) == (TWICE, Done) && Admissible(WHOLE, NEXT)
  {
    hide Step, Locate, Walk, MakeKey;
    AtTop(h, WHOLE.fs, X);
    Following(h, REPAIRED, WHOLE, [X], [3], 9, 10, MakeKey(0, X));
    assert WHOLE.fs[MakeKey(0, X) := Record(1, VersionBlob, 2, 9, X)] == TWICE.fs;
    assert WHOLE.blobs[9 := [3]] == TWICE.blobs;
    assert WHOLE.ver[(1, 2) := Version(1, Some(9))] == TWICE.ver;
  }

  /** Upload x in two fragments, the second with the token that the first was answered with, and then
      its next version: every call succeeds, and the versions read as what was sent. */
  lemma ThreeUploads(h: Host)
    ensures LeadsTo(Repaired(h), [SEND, FINISH, NEXT], TWICE)
    ensures Step(Repaired(h), EMPTY_STATE, SEND).1 == Continue(FINISH.arg.continuation)
    ensures Step(Repaired(h), SENT, FINISH).1 == Step(Repaired(h), WHOLE, NEXT).1 == Done
    ensures ReadVersion(TWICE.ver, TWICE.blobs, 1, 1) == Reading(false, 8, [1, 2])
    ensures ReadVersion(TWICE.ver, TWICE.blobs, 1, 2) == Reading(true, 9, [3])
  {
    hide Step, LeadsTo, MakeKey;
    var c := Repaired(h);
    Sends(h);
    Finishes(h);
    Follows(h);
    Start(c);
    Snoc(c, [], SEND, EMPTY_STATE, SENT);
    assert [] + [SEND] == [SEND];
    Snoc(c, [SEND], FINISH, SENT, WHOLE);
    assert [SEND] + [FINISH] == [SEND, FINISH];
    Snoc(c, [SEND, FINISH], NEXT, WHOLE, TWICE);
    assert [SEND, FINISH] + [NEXT] == [SEND, FINISH, NEXT];
  }
}
