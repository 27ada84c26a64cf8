/** The version reservation protocol of the file storage back end. Uploaders of one file run
    interleaved; each takes one file-system operation at a time. Creating a directory is the
    atomic test-and-set by which an uploader reserves a version. */
module Reservation {
  import opened Wrappers

  const MAX_TRIES: nat := 1000

  type Uploader = nat
  type VersionNumber = nat

  /** Where an uploader is. `tries` counts its calls of create_dir. */
  datatype Step =
    | Start
    | MakingFirst                                                  // create_dir_all of version 1
    | MovingFirst                                                  // rename into version 1
    | Trying(head: VersionNumber, latest: VersionNumber, tries: nat)
    | Leaving(head: VersionNumber, latest: VersionNumber, tries: nat, created: bool)
    | Linking(version: VersionNumber, first: bool)                 // symlink of the head
    | Finished(version: VersionNumber, first: bool, linked: bool)
    | GaveUp(head: VersionNumber, tries: nat)

  /** One file's directory: which version directories exist, whose blob lies in each, and where the
      head link points. */
  datatype Dir = Dir(
    versions: set<VersionNumber>,
    blobs: map<VersionNumber, Uploader>,
    head: Option<VersionNumber>,
    steps: map<Uploader, Step>)

  const EMPTY_DIR := Dir({}, map[], None, map[])

  /** Uploaders choose whether to ask for the next version. Relink stands for the re-linking of the
      head that the code leaves to do: it may point the link at any existing version. */
  datatype Action = Act(who: Uploader, next: bool) | Relink(to: VersionNumber)

  function StepOf(d: Dir, p: Uploader): Step
  {
    if p in d.steps then d.steps[p] else Start
  }

  function With(d: Dir, p: Uploader, step: Step): Dir
  {
    d.(steps := d.steps[p := step])
  }

  /** What the code does after the loop. As written, it compares the counter, which starts at one
      and is incremented before each try, with 1000. */
  predicate GivesUp(repaired: bool, tries: nat, created: bool)
  {
    if repaired then !created else tries + 1 == MAX_TRIES
  }

  function Perform(repaired: bool, d: Dir, a: Action): Dir
  {
    match a
    case Relink(v) => if v in d.versions then d.(head := Some(v)) else d
    case Act(p, next) =>
      match StepOf(d, p)
      case Start =>
        if !next || d.head.None? then With(d, p, MakingFirst)
        else With(d, p, Trying(d.head.value, d.head.value, 0))
      case MakingFirst => With(d.(versions := d.versions + {1}), p, MovingFirst)
      case MovingFirst => With(d.(blobs := d.blobs[1 := p]), p, Linking(1, true))
      case Trying(head, latest, tries) =>
        if tries >= MAX_TRIES then With(d, p, Leaving(head, latest, tries, false))
        else if latest + 1 in d.versions then With(d, p, Trying(head, latest + 1, tries + 1))
        else With(d.(versions := d.versions + {latest + 1}), p, Leaving(head, latest + 1, tries + 1, true))
      case Leaving(head, latest, tries, created) =>
        if GivesUp(repaired, tries, created) then With(d, p, GaveUp(head, tries))
        else With(d.(blobs := d.blobs[latest := p]), p, Linking(latest, false))
      case Linking(v, first) =>
        if d.head.Some? then With(d, p, Finished(v, first, false))
        else With(d.(head := Some(v)), p, Finished(v, first, true))
      case _ => d
  }

  function RunFrom(repaired: bool, d: Dir, actions: seq<Action>): Dir
  {
    if actions == [] then d
    else Perform(repaired, RunFrom(repaired, d, Front(actions)), Last(actions))
  }

  // ----- What every interleaving keeps -----

  /** The uploader left the loop with a version directory that it created. */
  ghost predicate Holds(d: Dir, p: Uploader, v: VersionNumber)
  {
    match StepOf(d, p)
    case Leaving(_, latest, _, created) => created && v == latest
    case Linking(version, first) => !first && v == version
    case Finished(version, first, _) => !first && v == version
    case _ => false
  }

  /** The uploader's blob has been renamed into that directory. */
  ghost predicate Placed(d: Dir, p: Uploader, v: VersionNumber)
  {
    Holds(d, p, v) && !StepOf(d, p).Leaving?
  }

  /** The versions are 1..n for some n. */
  ghost predicate Contiguous(versions: set<VersionNumber>)
  {
    forall v :: v in versions ==> v >= 1 && (v > 1 ==> v - 1 in versions)
  }

  /** What an uploader knows in the loop: the version it tried last exists. */
  ghost predicate Knows(repaired: bool, versions: set<VersionNumber>, step: Step)
  {
    match step
    case MovingFirst => 1 in versions
    case Trying(head, latest, tries) =>
      head >= 1 && latest == head + tries && latest in versions && tries <= MAX_TRIES
    case Leaving(head, latest, tries, created) =>
      && head >= 1 && latest == head + tries && latest in versions && tries <= MAX_TRIES
      && (created ==> tries >= 1) && (!created ==> tries == MAX_TRIES)
    case Linking(v, first) => v in versions && (if first then v == 1 else v >= 2)
    case Finished(v, first, _) => v in versions && (if first then v == 1 else v >= 2)
    case GaveUp(head, tries) =>
      head >= 1 && head + tries in versions && tries == if repaired then MAX_TRIES else MAX_TRIES - 1
    case _ => true
  }

  ghost predicate LoopInv(repaired: bool, d: Dir)
  {
    && Contiguous(d.versions)
    && (d.head.Some? ==> d.head.value in d.versions)
    && forall p: Uploader :: Knows(repaired, d.versions, StepOf(d, p))
  }

  lemma KnowsMore(repaired: bool, versions: set<VersionNumber>, versions': set<VersionNumber>, step: Step)
    requires Knows(repaired, versions, step) && versions <= versions'
    ensures Knows(repaired, versions', step)
  {
  }

  /** What a step of one uploader leaves unchanged. */
  lemma OthersUntouched(repaired: bool, d: Dir, p: Uploader, next: bool, q: Uploader)
    requires q != p
    ensures StepOf(Perform(repaired, d, Act(p, next)), q) == StepOf(d, q)
  {
  }

  /** Directories are only ever added, one above the last. */
  lemma VersionsGrow(repaired: bool, d: Dir, a: Action)
    requires LoopInv(repaired, d)
    ensures var d' := Perform(repaired, d, a);
            && d.versions <= d'.versions && Contiguous(d'.versions)
            && (d'.head.Some? ==> d'.head.value in d'.versions)
  {
    if a.Act? {
      assert Knows(repaired, d.versions, StepOf(d, a.who));
    }
  }

  /** An uploader outside the loop. */
  lemma ActorKnowsOutside(repaired: bool, d: Dir, p: Uploader, next: bool)
    requires Knows(repaired, d.versions, StepOf(d, p)) && (d.head.Some? ==> d.head.value in d.versions)
    requires Contiguous(d.versions) && !StepOf(d, p).Trying? && !StepOf(d, p).Leaving?
    ensures var d' := Perform(repaired, d, Act(p, next)); Knows(repaired, d'.versions, StepOf(d', p))
  {
  }

  lemma ActorKnowsInLoop(repaired: bool, d: Dir, p: Uploader, next: bool)
    requires Knows(repaired, d.versions, StepOf(d, p)) && (StepOf(d, p).Trying? || StepOf(d, p).Leaving?)
    ensures var d' := Perform(repaired, d, Act(p, next)); Knows(repaired, d'.versions, StepOf(d', p))
  {
  }

  lemma ActorKnows(repaired: bool, d: Dir, p: Uploader, next: bool)
    requires LoopInv(repaired, d)
    ensures var d' := Perform(repaired, d, Act(p, next)); Knows(repaired, d'.versions, StepOf(d', p))
  {
    hide Perform, Knows;
    assert Knows(repaired, d.versions, StepOf(d, p));
    if StepOf(d, p).Trying? || StepOf(d, p).Leaving? {
      ActorKnowsInLoop(repaired, d, p, next);
    } else {
      ActorKnowsOutside(repaired, d, p, next);
    }
  }

  lemma PerformKeepsLoopInv(repaired: bool, d: Dir, a: Action)
    requires LoopInv(repaired, d)
    ensures LoopInv(repaired, Perform(repaired, d, a))
  {
    hide Knows, Perform;
    var d' := Perform(repaired, d, a);
    VersionsGrow(repaired, d, a);
    forall p: Uploader
      ensures Knows(repaired, d'.versions, StepOf(d', p))
    {
      if a.Act? && p == a.who {
        ActorKnows(repaired, d, p, a.next);
      } else {
        if a.Act? {
          OthersUntouched(repaired, d, a.who, a.next, p);
        } else {
          RelinkUntouched(repaired, d, a.to, p);
        }
        KnowsMore(repaired, d.versions, d'.versions, StepOf(d, p));
      }
    }
  }

  /** Re-linking points the head at any version that exists. */
  lemma RelinkMoves(repaired: bool, d: Dir, v: VersionNumber)
    ensures Perform(repaired, d, Relink(v)) == if v in d.versions then d.(head := Some(v)) else d
  {
  }

  lemma RelinkUntouched(repaired: bool, d: Dir, v: VersionNumber, q: Uploader)
    ensures StepOf(Perform(repaired, d, Relink(v)), q) == StepOf(d, q)
  {
  }

  /** Under every interleaving the version directories are 1..n, the head points at one of them,
      and a version is only tried when the one before it is known to exist. */
  lemma {:induction false} RunKeepsLoopInv(repaired: bool, actions: seq<Action>)
    ensures LoopInv(repaired, RunFrom(repaired, EMPTY_DIR, actions))
  {
    hide Perform;
    if actions != [] {
      RunKeepsLoopInv(repaired, Front(actions));
      PerformKeepsLoopInv(repaired, RunFrom(repaired, EMPTY_DIR, Front(actions)), Last(actions));
    }
  }

  /** Contiguous version sets have no gap below any member. */
  lemma {:induction false} NoGap(versions: set<VersionNumber>, v: VersionNumber, w: VersionNumber)
    requires Contiguous(versions) && v in versions && 1 <= w <= v
    ensures w in versions
    decreases v - w
  {
    if w < v {
      NoGap(versions, v, w + 1);
    }
  }

  function GiveUpTries(repaired: bool): nat
  {
    if repaired then MAX_TRIES else MAX_TRIES - 1
  }

  /** With the repaired test an uploader gives up only if the 1000 versions above its head snapshot
      all exist; with the code's test, only if the first 999 of them do. */
  lemma GivesUpOnlyWhenFull(repaired: bool, actions: seq<Action>, p: Uploader, v: VersionNumber)
    requires StepOf(RunFrom(repaired, EMPTY_DIR, actions), p).GaveUp?
    requires var head := StepOf(RunFrom(repaired, EMPTY_DIR, actions), p).head;
             head < v <= head + GiveUpTries(repaired)
    ensures v in RunFrom(repaired, EMPTY_DIR, actions).versions
  {
    var d := RunFrom(repaired, EMPTY_DIR, actions);
    RunKeepsLoopInv(repaired, actions);
    assert Knows(repaired, d.versions, StepOf(d, p));
    NoGap(d.versions, StepOf(d, p).head + GiveUpTries(repaired), v);
  }

  // ----- No two uploaders share a version -----

  ghost predicate Exclusive(d: Dir)
  {
    && (forall p: Uploader, v: VersionNumber :: Holds(d, p, v) ==> v >= 2 && v in d.versions)
    && (forall p: Uploader, q: Uploader, v: VersionNumber :: Holds(d, p, v) && Holds(d, q, v) ==> p == q)
    && (forall p: Uploader, v: VersionNumber :: Placed(d, p, v) ==> v in d.blobs && d.blobs[v] == p)
  }

  /** Where the test after the loop cannot let an uploader through that created nothing: always with
      the repaired test, and with the code's test as long as version 1001 does not exist. */
  predicate Guarded(repaired: bool, versions: set<VersionNumber>)
  {
    repaired || MAX_TRIES + 1 !in versions
  }

  /** An uploader out of tries has seen the 1000 versions above the head. */
  lemma LeavingCreated(repaired: bool, d: Dir, p: Uploader)
    requires LoopInv(repaired, d) && Guarded(repaired, d.versions)
    requires StepOf(d, p).Leaving? && !GivesUp(repaired, StepOf(d, p).tries, StepOf(d, p).created)
    ensures StepOf(d, p).created
  {
    var step := StepOf(d, p);
    assert Knows(repaired, d.versions, step);
    if !step.created {
      NoGap(d.versions, step.latest, MAX_TRIES + 1);
    }
  }

  /** An uploader only comes to hold a version by creating its directory. */
  lemma HoldsBefore(repaired: bool, d: Dir, a: Action, p: Uploader, v: VersionNumber)
    requires LoopInv(repaired, d) && Guarded(repaired, d.versions) && Holds(Perform(repaired, d, a), p, v)
    ensures Holds(d, p, v) || (a.Act? && a.who == p && v !in d.versions && v >= 2)
    ensures v in Perform(repaired, d, a).versions || Holds(d, p, v)
  {
    if a.Act? {
      assert Knows(repaired, d.versions, StepOf(d, a.who));
      if p != a.who {
        OthersUntouched(repaired, d, a.who, a.next, p);
      } else if StepOf(d, p).Leaving? && !GivesUp(repaired, StepOf(d, p).tries, StepOf(d, p).created) {
        LeavingCreated(repaired, d, p);
      }
    }
  }

  /** The version that a step renames a blob into, if it does. */
  ghost predicate RenamesInto(repaired: bool, d: Dir, p: Uploader, v: VersionNumber)
  {
    var step := StepOf(d, p);
    (step.MovingFirst? && v == 1) ||
    (step.Leaving? && !GivesUp(repaired, step.tries, step.created) && v == step.latest)
  }

  lemma BlobsAfter(repaired: bool, d: Dir, p: Uploader, next: bool, v: VersionNumber)
    requires LoopInv(repaired, d) && Guarded(repaired, d.versions)
    ensures var d' := Perform(repaired, d, Act(p, next));
            && (RenamesInto(repaired, d, p, v) ==> v in d'.blobs && d'.blobs[v] == p)
            && (!RenamesInto(repaired, d, p, v) && v in d.blobs ==> v in d'.blobs && d'.blobs[v] == d.blobs[v])
            && (Placed(d', p, v) ==> Placed(d, p, v) || RenamesInto(repaired, d, p, v))
            && (RenamesInto(repaired, d, p, v) ==> v == 1 || Holds(d, p, v))
  {
    if StepOf(d, p).Leaving? && !GivesUp(repaired, StepOf(d, p).tries, StepOf(d, p).created) {
      LeavingCreated(repaired, d, p);
    }
  }

  lemma PlacedBlob(repaired: bool, d: Dir, a: Action, p: Uploader, v: VersionNumber)
    requires LoopInv(repaired, d) && Guarded(repaired, d.versions)
    requires Exclusive(d) && Placed(Perform(repaired, d, a), p, v)
    ensures var d' := Perform(repaired, d, a); v in d'.blobs && d'.blobs[v] == p
  {
    if a.Act? {
      BlobsAfter(repaired, d, a.who, a.next, v);
      if p != a.who {
        OthersUntouched(repaired, d, a.who, a.next, p);
        assert Placed(d, p, v) && Holds(d, p, v);
      }
    } else {
      RelinkUntouched(repaired, d, a.to, p);
      assert Placed(d, p, v);
    }
  }

  lemma PerformKeepsExclusive(repaired: bool, d: Dir, a: Action)
    requires LoopInv(repaired, d) && Guarded(repaired, d.versions) && Exclusive(d)
    ensures Exclusive(Perform(repaired, d, a))
  {
    hide Perform, LoopInv, Holds, Guarded;
    var d' := Perform(repaired, d, a);
    VersionsGrow(repaired, d, a);
    forall p: Uploader, v: VersionNumber | Holds(d', p, v)
      ensures v >= 2 && v in d'.versions
    {
      HoldsBefore(repaired, d, a, p, v);
    }
    forall p: Uploader, q: Uploader, v: VersionNumber | Holds(d', p, v) && Holds(d', q, v)
      ensures p == q
    {
      HoldsBefore(repaired, d, a, p, v);
      HoldsBefore(repaired, d, a, q, v);
    }
    forall p: Uploader, v: VersionNumber | Placed(d', p, v)
      ensures v in d'.blobs && d'.blobs[v] == p
    {
      PlacedBlob(repaired, d, a, p, v);
    }
  }

  /** Under every interleaving, two uploaders that leave the loop with a version hold different
      ones, neither is version 1, and each one's blob is still in its version directory: no rename
      ever replaces another uploader's blob. With the repaired test this holds of every run; with the
      code's test, of every run in which version 1001 is not reached. */
  lemma {:induction false} UploadersNeverShare(repaired: bool, actions: seq<Action>)
    requires Guarded(repaired, RunFrom(repaired, EMPTY_DIR, actions).versions)
    ensures Exclusive(RunFrom(repaired, EMPTY_DIR, actions))
  {
    hide Perform, LoopInv;
    if actions != [] {
      var d := RunFrom(repaired, EMPTY_DIR, Front(actions));
      RunKeepsLoopInv(repaired, Front(actions));
      VersionsGrow(repaired, d, Last(actions));
      UploadersNeverShare(repaired, Front(actions));
      PerformKeepsExclusive(repaired, d, Last(actions));
    }
  }

  // ----- The test after the loop, as written -----

  /** As written, the test after the loop gives up exactly when nothing was created only if the
      loop neither succeeded on its 999th try nor ran out of tries. */
  lemma TestIsRightIff(d: Dir, p: Uploader)
    requires LoopInv(false, d) && StepOf(d, p).Leaving?
    ensures var step := StepOf(d, p);
            (GivesUp(false, step.tries, step.created) <==> !step.created) <==>
            step.created && step.tries != MAX_TRIES - 1
  {
    assert Knows(false, d.versions, StepOf(d, p));
  }

  ghost predicate Reachable(repaired: bool, d: Dir)
  {
    exists actions :: RunFrom(repaired, EMPTY_DIR, actions) == d
  }

  lemma Reach(repaired: bool, d: Dir, a: Action) returns (d': Dir)
    requires Reachable(repaired, d)
    ensures d' == Perform(repaired, d, a) && Reachable(repaired, d')
  {
    d' := Perform(repaired, d, a);
    var actions :| RunFrom(repaired, EMPTY_DIR, actions) == d;
    assert (actions + [a])[..|actions|] == actions;
    assert RunFrom(repaired, EMPTY_DIR, actions + [a]) == d';
  }

  /** An uploader climbs past the versions that exist. */
  lemma {:induction false} Climb(d: Dir, p: Uploader, latest: VersionNumber, tries: nat, k: nat) returns (d': Dir)
    requires Reachable(false, d) && StepOf(d, p) == Trying(1, latest, tries) && tries + k <= MAX_TRIES
    requires forall v :: latest < v <= latest + k ==> v in d.versions
    ensures Reachable(false, d') && d' == With(d, p, Trying(1, latest + k, tries + k))
    decreases k
  {
    d' := d;
    if k > 0 {
      var d1 := Reach(false, d, Act(p, true));
      d' := Climb(d1, p, latest + 1, tries + 1, k - 1);
    } else {
      assert d.steps == d.steps[p := Trying(1, latest, tries)];
    }
  }

  /** `m` uploaders have each taken one more version than the last; the head was never re-linked. */
  ghost predicate Filled(d: Dir, m: nat)
  {
    && (forall v :: v in d.versions <==> 1 <= v <= m + 1) && d.head == Some(1)
    && (forall q: Uploader :: q > m ==> q !in d.steps)
    && (m > 0 ==> StepOf(d, m) == Leaving(1, m + 1, m, true))
  }

  lemma {:induction false} Fill(m: nat) returns (d: Dir)
    requires m <= MAX_TRIES
    ensures Reachable(false, d) && Filled(d, m)
  {
    hide Reachable;
    if m == 0 {
      assert RunFrom(false, EMPTY_DIR, []) == EMPTY_DIR;
      d := Reach(false, EMPTY_DIR, Act(0, true));
      d := Reach(false, d, Act(0, true));
      d := Reach(false, d, Act(0, true));
      d := Reach(false, d, Act(0, true));
    } else {
      d := Fill(m - 1);
      d := Reach(false, d, Act(m, true));
      d := Climb(d, m, 1, 0, m - 1);
      d := Reach(false, d, Act(m, true));
    }
  }

  /** As written, an uploader that runs out of tries renames its blob over that of the uploader
      that holds the last version it tried. */
  lemma ExhaustedUploaderOverwrites() returns (before: Dir, after: Dir)
    ensures Reachable(false, before) && Reachable(false, after)
    ensures var v := MAX_TRIES + 1;
            && Placed(before, 1000, v) && v in before.blobs && before.blobs[v] == 1000
            && Placed(after, 1000, v) && Placed(after, 1001, v) && v in after.blobs && after.blobs[v] == 1001
            && forall w :: w in after.versions <==> 1 <= w <= v
  {
    var d := Fill(MAX_TRIES);
    before := Reach(false, d, Act(1000, true));
    d := Reach(false, before, Act(1001, true));
    d := Climb(d, 1001, 1, 0, MAX_TRIES);
    d := Reach(false, d, Act(1001, true));
    after := Reach(false, d, Act(1001, true));
  }

  /** The branch for a first upload does not test and set: two first uploads both rename into
      version 1, whichever test follows the loop. */
  lemma FirstUploadsCollide() returns (d: Dir)
    ensures Reachable(true, d) && StepOf(d, 0) == StepOf(d, 1) == Linking(1, true)
    ensures 1 in d.blobs && d.blobs[1] == 1
  {
    assert RunFrom(true, EMPTY_DIR, []) == EMPTY_DIR;
    d := Reach(true, EMPTY_DIR, Act(0, false));
    d := Reach(true, d, Act(0, false));
    d := Reach(true, d, Act(0, false));
    d := Reach(true, d, Act(1, false));
    d := Reach(true, d, Act(1, false));
    d := Reach(true, d, Act(1, false));
  }

  /** The uploader has renamed its blob into a version directory. */
  predicate Uploaded(step: Step)
  {
    step.Linking? || step.Finished?
  }

  predicate Acted(actions: seq<Action>, p: Uploader)
  {
    exists i :: 0 <= i < |actions| && actions[i].Act? && actions[i].who == p
  }

  /** The uploader's first action did not ask for the next version, or found no head. */
  ghost predicate BeganFirst(repaired: bool, actions: seq<Action>, p: Uploader)
  {
    actions != [] &&
    if Acted(Front(actions), p) then BeganFirst(repaired, Front(actions), p)
    else
      && Last(actions).Act? && Last(actions).who == p
      && (!Last(actions).next || RunFrom(repaired, EMPTY_DIR, Front(actions)).head.None?)
  }

  predicate OnFirstBranch(step: Step)
  {
    step.MakingFirst? || step.MovingFirst? || (Uploaded(step) && step.first)
  }

  lemma BranchStep(repaired: bool, d: Dir, p: Uploader, next: bool)
    ensures var step' := StepOf(Perform(repaired, d, Act(p, next)), p);
            && !step'.Start?
            && (OnFirstBranch(step') <==>
                  if StepOf(d, p).Start? then !next || d.head.None? else OnFirstBranch(StepOf(d, p)))
  {
  }

  /** Its first action settles which branch an uploader takes. */
  lemma {:induction false} BranchIff(repaired: bool, actions: seq<Action>, p: Uploader)
    ensures var step := StepOf(RunFrom(repaired, EMPTY_DIR, actions), p);
            && (step.Start? <==> !Acted(actions, p))
            && (OnFirstBranch(step) <==> BeganFirst(repaired, actions, p))
  {
    hide Perform, Acted;
    if actions == [] {
      NobodyActed(p);
    } else {
      var d, last := RunFrom(repaired, EMPTY_DIR, Front(actions)), Last(actions);
      BranchIff(repaired, Front(actions), p);
      ActedSnoc(actions, p);
      match last
      case Act(who, next) =>
        if who == p {
          BranchStep(repaired, d, p, next);
        } else {
          OthersUntouched(repaired, d, who, next, p);
        }
      case Relink(v) =>
        RelinkUntouched(repaired, d, v, p);
    }
  }

  lemma NobodyActed(p: Uploader)
    ensures !Acted([], p)
  {
  }

  lemma ActedSnoc(actions: seq<Action>, p: Uploader)
    requires actions != []
    ensures Acted(actions, p) <==> Acted(Front(actions), p) || (Last(actions).Act? && Last(actions).who == p)
  {
    if Acted(Front(actions), p) {
      var i :| 0 <= i < |actions| - 1 && Front(actions)[i].Act? && Front(actions)[i].who == p;
      assert actions[i] == Front(actions)[i];
    }
    if Acted(actions, p) {
      var i :| 0 <= i < |actions| && actions[i].Act? && actions[i].who == p;
      assert i < |actions| - 1 ==> Front(actions)[i] == actions[i];
    }
  }

  /** Where uploaders in the loop share no version, this is all that can go wrong: two uploaders end
      up in one version exactly when both took the branch for a first upload, that is, when each at
      its first action did not ask for the next version or found no head. */
  lemma SameVersionIff(repaired: bool, actions: seq<Action>, p: Uploader, q: Uploader)
    requires Guarded(repaired, RunFrom(repaired, EMPTY_DIR, actions).versions) && p != q
    requires var d := RunFrom(repaired, EMPTY_DIR, actions); Uploaded(StepOf(d, p)) && Uploaded(StepOf(d, q))
    ensures var d := RunFrom(repaired, EMPTY_DIR, actions);
            StepOf(d, p).version == StepOf(d, q).version <==>
            BeganFirst(repaired, actions, p) && BeganFirst(repaired, actions, q)
  {
    var d := RunFrom(repaired, EMPTY_DIR, actions);
    RunKeepsLoopInv(repaired, actions);
    UploadersNeverShare(repaired, actions);
    BranchIff(repaired, actions, p);
    BranchIff(repaired, actions, q);
    assert Knows(repaired, d.versions, StepOf(d, p)) && Knows(repaired, d.versions, StepOf(d, q));
    if !StepOf(d, p).first && !StepOf(d, q).first {
      assert Holds(d, p, StepOf(d, p).version) && Holds(d, q, StepOf(d, q).version);
    }
  }

  // ----- The head link -----

  ghost predicate Linked(d: Dir, p: Uploader)
  {
    StepOf(d, p).Finished? && StepOf(d, p).linked
  }

  /** Whoever has finished has left a head; at most one made it; unless it was re-linked, the head
      points at that one's version. */
  ghost predicate HeadInv(d: Dir, relinked: bool)
  {
    && (forall p: Uploader :: StepOf(d, p).Finished? ==> d.head.Some?)
    && (forall p: Uploader, q: Uploader :: Linked(d, p) && Linked(d, q) ==> p == q)
    && (d.head.Some? && !relinked ==> exists p: Uploader :: Linked(d, p) && StepOf(d, p).version == d.head.value)
  }

  ghost predicate Relinked(actions: seq<Action>)
  {
    exists i :: 0 <= i < |actions| && actions[i].Relink?
  }

  lemma HeadStays(repaired: bool, d: Dir, a: Action)
    ensures d.head.Some? ==> Perform(repaired, d, a).head.Some?
    ensures a.Act? && d.head.Some? ==> Perform(repaired, d, a).head == d.head
  {
  }

  /** What one's own step does to the head, and to whether one has finished. */
  lemma OwnHead(repaired: bool, d: Dir, p: Uploader, next: bool)
    ensures var d' := Perform(repaired, d, Act(p, next));
            && (StepOf(d', p).Finished? ==> StepOf(d, p).Finished? || d'.head.Some?)
            && (Linked(d', p) ==> Linked(d, p) || d.head.None?)
            && (Linked(d, p) ==> StepOf(d', p) == StepOf(d, p))
            && (d.head.None? && d'.head.Some? ==> Linked(d', p) && StepOf(d', p).version == d'.head.value)
  {
    if StepOf(d, p).Finished? {
      assert Perform(repaired, d, Act(p, next)) == d;
    }
  }

  lemma ActKeepsHeadInv(repaired: bool, d: Dir, p: Uploader, next: bool, relinked: bool)
    requires HeadInv(d, relinked)
    ensures HeadInv(Perform(repaired, d, Act(p, next)), relinked)
  {
    hide Perform;
    var d' := Perform(repaired, d, Act(p, next));
    HeadStays(repaired, d, Act(p, next));
    FinishedStays(repaired, d, p, next);
    OwnHead(repaired, d, p, next);
    forall q: Uploader | q != p
      ensures StepOf(d', q) == StepOf(d, q)
    {
      OthersUntouched(repaired, d, p, next, q);
    }
    forall q: Uploader
      ensures q != p ==> Linked(d', q) == Linked(d, q)
    {
    }
    if d'.head.Some? && !relinked {
      if d.head.None? {
        assert Linked(d', p);
      } else {
        var q: Uploader :| Linked(d, q) && StepOf(d, q).version == d.head.value;
        assert Linked(d', q) && StepOf(d', q) == StepOf(d, q);
      }
    }
  }

  lemma FinishedStays(repaired: bool, d: Dir, p: Uploader, next: bool)
    ensures StepOf(d, p).Finished? ==> StepOf(Perform(repaired, d, Act(p, next)), p) == StepOf(d, p)
  {
  }

  lemma RelinkKeepsHeadInv(repaired: bool, d: Dir, v: VersionNumber, relinked: bool)
    requires HeadInv(d, relinked)
    ensures HeadInv(Perform(repaired, d, Relink(v)), true)
  {
    var d' := Perform(repaired, d, Relink(v));
    forall q: Uploader
      ensures StepOf(d', q) == StepOf(d, q) && Linked(d', q) == Linked(d, q)
    {
      RelinkUntouched(repaired, d, v, q);
    }
  }

  lemma {:induction false} RunKeepsHeadInv(repaired: bool, actions: seq<Action>)
    ensures HeadInv(RunFrom(repaired, EMPTY_DIR, actions), Relinked(actions))
  {
    hide Perform, HeadInv;
    if actions == [] {
      NoHead();
    } else {
      var d := RunFrom(repaired, EMPTY_DIR, Front(actions));
      RunKeepsHeadInv(repaired, Front(actions));
      RelinkedSnoc(actions);
      match Last(actions)
      case Act(p, next) => ActKeepsHeadInv(repaired, d, p, next, Relinked(Front(actions)));
      case Relink(v) => RelinkKeepsHeadInv(repaired, d, v, Relinked(Front(actions)));
    }
  }

  lemma NoHead()
    ensures HeadInv(EMPTY_DIR, false) && HeadInv(EMPTY_DIR, Relinked([]))
  {
  }

  lemma RelinkedSnoc(actions: seq<Action>)
    requires actions != []
    ensures Relinked(actions) <==> Relinked(Front(actions)) || Last(actions).Relink?
  {
    if Relinked(Front(actions)) {
      var i :| 0 <= i < |actions| - 1 && Front(actions)[i].Relink?;
      assert actions[i] == Front(actions)[i];
    }
    if Relinked(actions) {
      var i :| 0 <= i < |actions| && actions[i].Relink?;
      assert i < |actions| - 1 ==> Front(actions)[i] == actions[i];
    }
  }

  /** In every run, a finished upload leaves a head; at most one upload made the link, and if nobody
      re-linked it, exactly one did, and it points at that one's version. */
  lemma FinishedLeavesHead(repaired: bool, actions: seq<Action>, p: Uploader)
    requires StepOf(RunFrom(repaired, EMPTY_DIR, actions), p).Finished?
    ensures var d := RunFrom(repaired, EMPTY_DIR, actions);
            && d.head.Some?
            && (forall q: Uploader, r: Uploader :: Linked(d, q) && Linked(d, r) ==> q == r)
            && (!Relinked(actions) ==> exists q: Uploader :: Linked(d, q) && StepOf(d, q).version == d.head.value)
  {
    RunKeepsHeadInv(repaired, actions);
  }

  lemma {:induction false} HeadLasts(repaired: bool, actions: seq<Action>, i: nat)
    requires i <= |actions| && RunFrom(repaired, EMPTY_DIR, actions[..i]).head.Some?
    ensures RunFrom(repaired, EMPTY_DIR, actions).head.Some?
    decreases |actions|
  {
    hide Perform;
    if i == |actions| {
      assert actions[..i] == actions;
    } else {
      assert Front(actions)[..i] == actions[..i];
      HeadLasts(repaired, Front(actions), i);
      HeadStays(repaired, RunFrom(repaired, EMPTY_DIR, Front(actions)), Last(actions));
    }
  }

  /** The first action, if it comes at `i` and asks for the next version when there is a head, leads
      away from the first branch for good. */
  lemma {:induction false} BeganAt(repaired: bool, actions: seq<Action>, i: nat, p: Uploader)
    requires i < |actions| && actions[i] == Act(p, true) && !Acted(actions[..i], p)
    requires RunFrom(repaired, EMPTY_DIR, actions[..i]).head.Some?
    ensures Acted(actions, p) && !BeganFirst(repaired, actions, p)
    decreases |actions|
  {
    if i == |actions| - 1 {
      assert Front(actions) == actions[..i];
    } else {
      assert Front(actions)[..i] == actions[..i];
      BeganAt(repaired, Front(actions), i, p);
      ActedSnoc(actions, p);
    }
  }

  /** Whoever first acts after some upload has finished, and asks for the next version, never takes the
      branch for a first upload, and ends up in a version of at least 2. */
  lemma LaterUploadsGoOn(repaired: bool, actions: seq<Action>, i: nat, p: Uploader, q: Uploader)
    requires i < |actions| && actions[i] == Act(p, true) && !Acted(actions[..i], p)
    requires StepOf(RunFrom(repaired, EMPTY_DIR, actions[..i]), q).Finished?
    ensures var step := StepOf(RunFrom(repaired, EMPTY_DIR, actions), p);
            !OnFirstBranch(step) && (Uploaded(step) ==> step.version >= 2)
  {
    FinishedLeavesHead(repaired, actions[..i], q);
    BeganAt(repaired, actions, i, p);
    BranchIff(repaired, actions, p);
    RunKeepsLoopInv(repaired, actions);
    var d := RunFrom(repaired, EMPTY_DIR, actions);
    assert Knows(repaired, d.versions, StepOf(d, p));
  }

  // ----- One uploader on its own -----

  /** The loop from the version tried last, when nobody interrupts it. */
  lemma {:induction false} AloneInLoop(repaired: bool, d: Dir, p: Uploader, next: bool, k: nat) returns (n: nat)
    requires StepOf(d, p).Trying? && StepOf(d, p).tries + k < MAX_TRIES
    requires var latest := StepOf(d, p).latest;
             (forall v :: latest < v <= latest + k ==> v in d.versions) && latest + k + 1 !in d.versions
    ensures var (head, version) := (StepOf(d, p).head, StepOf(d, p).latest + k + 1);
            Alone(repaired, d, p, next, n) ==
            With(d.(versions := d.versions + {version}), p, Leaving(head, version, StepOf(d, p).tries + k + 1, true))
    decreases k
  {
    var Trying(head, latest, tries) := StepOf(d, p);
    if k == 0 {
      n := 1;
      assert Alone(repaired, d, p, next, 1) == Perform(repaired, Alone(repaired, d, p, next, 0), Act(p, next));
    } else {
      var d1 := Perform(repaired, d, Act(p, next));
      assert d1 == With(d, p, Trying(head, latest + 1, tries + 1));
      var m := AloneInLoop(repaired, d1, p, next, k - 1);
      AloneStarts(repaired, d, p, next, m);
      n := m + 1;
    }
  }

  /** `n` steps of one uploader. */
  function Alone(repaired: bool, d: Dir, p: Uploader, next: bool, n: nat): Dir
  {
    if n == 0 then d else Perform(repaired, Alone(repaired, d, p, next, n - 1), Act(p, next))
  }

  lemma {:induction false} AloneStarts(repaired: bool, d: Dir, p: Uploader, next: bool, n: nat)
    ensures Alone(repaired, d, p, next, n + 1) == Alone(repaired, Perform(repaired, d, Act(p, next)), p, next, n)
  {
    if n > 0 {
      AloneStarts(repaired, d, p, next, n - 1);
    }
  }

  /** After the loop, with a head. */
  lemma AloneAfterLoop(repaired: bool, d: Dir, p: Uploader, head: VersionNumber, version: VersionNumber, tries: nat)
    requires StepOf(d, p) == Leaving(head, version, tries, true) && d.head.Some?
    requires repaired || tries + 1 != MAX_TRIES
    ensures Perform(repaired, Perform(repaired, d, Act(p, true)), Act(p, true)) ==
            d.(blobs := d.blobs[version := p], steps := d.steps[p := Finished(version, false, false)])
  {
    var d1 := Perform(repaired, d, Act(p, true));
    assert d1 == With(d.(blobs := d.blobs[version := p]), p, Linking(version, false));
    assert d1.steps[p := Finished(version, false, false)] == d.steps[p := Finished(version, false, false)];
  }

  lemma AloneTwoMore(repaired: bool, d: Dir, p: Uploader, next: bool, n: nat)
    ensures Alone(repaired, d, p, next, n + 2) ==
            Perform(repaired, Perform(repaired, Alone(repaired, d, p, next, n), Act(p, next)), Act(p, next))
  {
  }

  /** Where there is a head, an uploader on its own that asks for the next version takes the first free
      one above the head, if it is among the first thousand and the test lets it through: it creates
      its directory, puts its blob there, and leaves the head alone. */
  lemma AloneTakesNext(repaired: bool, d: Dir, p: Uploader, version: VersionNumber) returns (n: nat)
    requires StepOf(d, p).Start? && d.head.Some? && d.head.value < version <= d.head.value + MAX_TRIES
    requires version !in d.versions && forall v :: d.head.value < v < version ==> v in d.versions
    requires repaired || version != d.head.value + MAX_TRIES - 1
    ensures Alone(repaired, d, p, true, n) ==
            Dir(d.versions + {version}, d.blobs[version := p], d.head,
                d.steps[p := Finished(version, false, false)])
  {
    hide Perform, Alone;
    var head := d.head.value;
    var d1 := With(d, p, Trying(head, head, 0));
    AloneEnters(repaired, d, p);
    var m := AloneInLoop(repaired, d1, p, true, version - head - 1);
    AloneStarts(repaired, d, p, true, m);
    var d2 := Alone(repaired, d, p, true, m + 1);
    assert d2.steps == d.steps[p := Leaving(head, version, version - head, true)];
    AloneAfterLoop(repaired, d2, p, head, version, version - head);
    AloneTwoMore(repaired, d, p, true, m + 1);
    n := m + 3;
    assert d2.steps[p := Finished(version, false, false)] == d.steps[p := Finished(version, false, false)];
  }

  lemma AloneEnters(repaired: bool, d: Dir, p: Uploader)
    requires StepOf(d, p).Start? && d.head.Some?
    ensures Perform(repaired, d, Act(p, true)) == With(d, p, Trying(d.head.value, d.head.value, 0))
  {
  }

  /** On its own without a head, or without asking for the next version, it makes version 1, and the
      head if there is none. */
  lemma AloneTakesFirst(repaired: bool, d: Dir, p: Uploader, next: bool)
    requires StepOf(d, p).Start? && (!next || d.head.None?)
    ensures Alone(repaired, d, p, next, 4) ==
            Dir(d.versions + {1}, d.blobs[1 := p], if d.head.None? then Some(1) else d.head,
                d.steps[p := Finished(1, true, d.head.None?)])
  {
    hide Alone;
    AloneTwoMore(repaired, d, p, next, 0);
    AloneTwoMore(repaired, d, p, next, 2);
    AloneNone(repaired, d, p, next);
    var d2 := Dir(d.versions + {1}, d.blobs, d.head, d.steps[p := MovingFirst]);
    assert With(With(d, p, MakingFirst).(versions := d.versions + {1}), p, MovingFirst) == d2;
    assert d.steps[p := MakingFirst][p := MovingFirst] == d.steps[p := MovingFirst];
    assert d.steps[p := MovingFirst][p := Linking(1, true)] == d.steps[p := Linking(1, true)];
    assert d.steps[p := Linking(1, true)][p := Finished(1, true, d.head.None?)] ==
           d.steps[p := Finished(1, true, d.head.None?)];
  }

  lemma AloneNone(repaired: bool, d: Dir, p: Uploader, next: bool)
    ensures Alone(repaired, d, p, next, 0) == d
  {
  }

  // ----- How far the code's test is right -----

  ghost predicate UpTo(versions: set<VersionNumber>, n: nat)
  {
    forall v :: v in versions ==> v <= n
  }

  /** With the code's test, uploaders in the loop share no version in any run with at most `n`
      versions exactly when `n` is at most 1000. */
  lemma AsWrittenExclusiveIff(n: nat)
    ensures (forall d :: Reachable(false, d) && UpTo(d.versions, n) ==> Exclusive(d)) <==> n <= MAX_TRIES
  {
    if n <= MAX_TRIES {
      forall d | Reachable(false, d) && UpTo(d.versions, n)
        ensures Exclusive(d)
      {
        var actions :| RunFrom(false, EMPTY_DIR, actions) == d;
        UploadersNeverShare(false, actions);
      }
    } else {
      var _, after := ExhaustedUploaderOverwrites();
      assert UpTo(after.versions, n) && !Exclusive(after);
    }
  }

  /** The uploader gave up and the 1000 versions above its head snapshot exist, or it did not. */
  ghost predicate GaveUpFull(d: Dir, p: Uploader)
  {
    StepOf(d, p).GaveUp? ==>
      forall v :: StepOf(d, p).head < v <= StepOf(d, p).head + MAX_TRIES ==> v in d.versions
  }

  /** As written, an uploader whose 999th try succeeds gives up all the same. */
  lemma SuccessfulUploaderGivesUp() returns (d: Dir)
    ensures Reachable(false, d) && (forall v :: v in d.versions <==> 1 <= v <= MAX_TRIES)
    ensures StepOf(d, 999) == GaveUp(1, 999) && !GaveUpFull(d, 999)
  {
    d := Fill(999);
    d := Reach(false, d, Act(999, true));
    assert 1001 !in d.versions;
  }

  /** With the code's test, whoever gives up has seen the 1000 versions above the head, in every run
      with at most `n` versions, exactly when `n` is below 1000: nobody gives up there. */
  lemma AsWrittenGivesUpIff(n: nat)
    ensures (forall d, p: Uploader :: Reachable(false, d) && UpTo(d.versions, n) ==> GaveUpFull(d, p)) <==>
            n < MAX_TRIES
  {
    if n < MAX_TRIES {
      forall d, p: Uploader | Reachable(false, d) && UpTo(d.versions, n)
        ensures GaveUpFull(d, p)
      {
        var actions :| RunFrom(false, EMPTY_DIR, actions) == d;
        RunKeepsLoopInv(false, actions);
        assert Knows(false, d.versions, StepOf(d, p));
      }
    } else {
      var d := SuccessfulUploaderGivesUp();
      assert UpTo(d.versions, n);
    }
  }

  // ----- The loop of one uploader -----

  class FileDirectory {
    var versions: set<VersionNumber>

    /** Creating a directory fails if it exists; testing and creating are one step. */
    method CreateDir(v: VersionNumber) returns (ok: bool)
      modifies this
      ensures ok <==> v !in old(versions)
      ensures versions == old(versions) + {v}
    {
      ok := v !in versions;
      versions := versions + {v};
    }

    /** The loop, when nobody interrupts it: it takes the first free version above the head, or
        finds the next thousand taken. The counter ends one above the number of tries, so that it
        is 1001 both when the last try succeeds and when every try has failed. */
    method ReserveVersion(head: VersionNumber) returns (latest: VersionNumber, incTries: nat, created: bool)
      modifies this
      ensures versions == if created then old(versions) + {latest} else old(versions)
      ensures created <==> latest !in old(versions)
      ensures head < latest <= head + MAX_TRIES && incTries == latest - head + 1
      ensures forall v :: head < v < latest ==> v in old(versions)
      ensures !created ==> latest == head + MAX_TRIES
    {
      incTries, latest, created := 1, head, false;
      while incTries <= MAX_TRIES
        invariant incTries == latest - head + 1 && latest <= head + MAX_TRIES
        invariant versions == old(versions)
        invariant forall v :: head < v <= latest ==> v in versions
        invariant !created
        decreases MAX_TRIES + 1 - incTries
      {
        incTries := incTries + 1;
        latest := latest + 1;
        created := CreateDir(latest);
        if created {
          break;
        }
        assert versions == old(versions);
      }
    }
  }
}
