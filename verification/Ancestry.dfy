/** Parent links never form a cycle, and exactly which moves would make one. */
module Ancestry {
  import opened Wrappers
  import opened Keys
  import opened Store
  import opened Tree
  import opened Invariant
  import opened Changes

  /** Each row lies in the folder before it. */
  ghost predicate Descent(h: Host, fs: Table, ks: seq<Bytes>)
  {
    && (forall i :: 0 <= i < |ks| ==> ks[i] in fs)
    && (forall i :: 0 < i < |ks| ==> ParentId(h, ks[i]) == fs[ks[i - 1]].id)
  }

  ghost predicate Cycle(h: Host, fs: Table, ks: seq<Bytes>)
  {
    |ks| >= 2 && Descent(h, fs, ks) && ks[0] == ks[|ks| - 1]
  }

  ghost predicate Acyclic(h: Host, fs: Table)
  {
    forall ks :: !Cycle(h, fs, ks)
  }

  /** The folder that a located key lies in. */
  lemma FolderOf(h: Host, fs: Table, p: Path, key: Bytes)
    requires Names(h, fs, p, key)
    ensures Front(p) == [] ==> ParentId(h, key) == 0
    ensures Front(p) != [] ==> Find(h, fs, Front(p)).Some? && ParentId(h, key) == Find(h, fs, Front(p)).value.id
  {
    WalkIsFind(h, fs, Front(p));
    KeyIdOfRoot(h);
    KeyParent(h, if Front(p) == [] then 0 else Find(h, fs, Front(p)).value.id, Last(p));
  }

  /** If the lower end of a descent has a path, its upper end has a prefix of that path. */
  lemma {:induction false} UpperEnd(h: Host, fs: Table, ks: seq<Bytes>, p: Path) returns (q: Path)
    requires DistinctIds(fs) && ks != [] && Descent(h, fs, ks) && Names(h, fs, p, ks[|ks| - 1])
    ensures q <= p && Names(h, fs, q, ks[0])
    decreases |ks|
  {
    q := p;
    if |ks| > 1 {
      FolderOf(h, fs, p, ks[|ks| - 1]);
      q := UpperEnd(h, fs, ks[..|ks| - 1], Front(p));
    }
  }

  lemma Rotate(h: Host, fs: Table, ks: seq<Bytes>, i: nat)
    requires Cycle(h, fs, ks) && i < |ks|
    ensures Cycle(h, fs, ks[i..] + ks[1..i + 1]) && (ks[i..] + ks[1..i + 1])[0] == ks[i]
  {
    var rs, m := ks[i..] + ks[1..i + 1], |ks| - i;
    assert rs[m - 1] == ks[|ks| - 1] == ks[0];
    forall j | 0 < j < |rs|
      ensures ParentId(h, rs[j]) == fs[rs[j - 1]].id
    {
      if j < m {
        assert rs[j] == ks[i + j] && rs[j - 1] == ks[i + j - 1];
      } else {
        assert rs[j] == ks[j - m + 1] && (if j == m then rs[j - 1] == ks[0] else rs[j - 1] == ks[j - m]);
      }
    }
    assert rs[|rs| - 1] == ks[i];
  }

  /** The part of a cycle up to the first return to where it started. */
  lemma {:induction false} FirstReturn(ks: seq<Bytes>, from: nat) returns (j: nat)
    requires 0 < from < |ks| && ks[0] == ks[|ks| - 1]
    ensures from <= j < |ks| && ks[j] == ks[0] && forall i :: from <= i < j ==> ks[i] != ks[0]
    decreases |ks| - from
  {
    j := from;
    if ks[from] != ks[0] {
      j := FirstReturn(ks, from + 1);
    }
  }

  /** A cycle through the re-keyed row was a descent from the source to the destination's folder. */
  lemma Unrolled(h: Host, fs: Table, from: Bytes, to: Bytes, r: Record, ks: seq<Bytes>) returns (ds: seq<Bytes>)
    requires from in fs && r.id == fs[from].id
    requires Cycle(h, (fs - {from})[to := r], ks) && ks[0] == to
    ensures ds != [] && ds[0] == from && Descent(h, fs, ds) && ParentId(h, to) == fs[ds[|ds| - 1]].id
  {
    var j := FirstReturn(ks, 1);
    ds := [from] + ks[1..j];
    forall i | 0 < i < |ds|
      ensures ds[i] in fs && ds[i] == ks[i] != to && fs[ds[i]].id == (fs - {from})[to := r][ks[i]].id
    {
    }
  }

  /** So the source is an ancestor of the destination. */
  lemma CycleThroughMove(h: Host, s: State, s': State, src: Path, from: Bytes, dest: Path, to: Bytes, ks: seq<Bytes>)
    requires DistinctIds(s.fs) && Changed(h, s, s', Rekeyed(src, from, dest, to))
    requires Cycle(h, s'.fs, ks) && ks[0] == to
    ensures src < dest
  {
    var ds := Unrolled(h, s.fs, from, to, s'.fs[to], ks);
    FolderOf(h, s.fs, dest, to);
    assert Names(h, s.fs, Front(dest), ds[|ds| - 1]);
    var q := UpperEnd(h, s.fs, ds, Front(dest));
    OnePathPerKey(h, s.fs, src);
    assert q == src;
  }

  lemma AcyclicAfterMove(h: Host, s: State, s': State, src: Path, from: Bytes, dest: Path, to: Bytes)
    requires DistinctIds(s.fs) && Changed(h, s, s', Rekeyed(src, from, dest, to)) && !(src < dest)
    requires Acyclic(h, s.fs)
    ensures Acyclic(h, s'.fs)
  {
    forall ks | Cycle(h, s'.fs, ks)
      ensures false
    {
      if i :| 0 <= i < |ks| && ks[i] == to {
        Rotate(h, s'.fs, ks, i);
        CycleThroughMove(h, s, s', src, from, dest, to, ks[i..] + ks[1..i + 1]);
      } else {
        assert Cycle(h, s.fs, ks);
      }
    }
  }

  lemma DescentSnoc(h: Host, fs: Table, ks: seq<Bytes>, key: Bytes)
    requires ks != [] && Descent(h, fs, ks) && key in fs && ParentId(h, key) == fs[ks[|ks| - 1]].id
    ensures Descent(h, fs, ks + [key])
  {
  }

  /** Every object on the way to a folder lies in the folder before it. */
  lemma {:induction false} DescentTo(h: Host, fs: Table, src: Path, from: Bytes, p: Path) returns (ks: seq<Bytes>)
    requires Names(h, fs, src, from) && OnlyPath(h, fs, src) && from in fs && src <= p && Find(h, fs, p).Some?
    ensures ks != [] && ks[0] == from && Descent(h, fs, ks) && Names(h, fs, p, ks[|ks| - 1])
    ensures forall i :: 0 < i < |ks| ==> ks[i] != from
    decreases |p|
  {
    var key := Locate(h, fs, p).value;
    if p == src {
      ks := [from];
    } else {
      FolderOf(h, fs, p, key);
      ks := DescentTo(h, fs, src, from, Front(p));
      DescentSnoc(h, fs, ks, key);
      ks := ks + [key];
    }
  }

  /** A descent from the source to the destination's folder is closed by re-keying its upper end. */
  lemma Closed(h: Host, fs: Table, from: Bytes, to: Bytes, r: Record, ks: seq<Bytes>)
    requires from in fs && to !in fs && r.id == fs[from].id
    requires ks != [] && ks[0] == from && Descent(h, fs, ks) && ParentId(h, to) == fs[ks[|ks| - 1]].id
    requires forall i :: 0 < i < |ks| ==> ks[i] != from
    ensures Cycle(h, (fs - {from})[to := r], [to] + ks[1..] + [to])
  {
    var fs', cs := (fs - {from})[to := r], [to] + ks[1..] + [to];
    assert forall i :: 0 < i < |ks| ==> cs[i] == ks[i] && fs'[ks[i]] == fs[ks[i]];
    assert forall i :: 0 <= i < |ks| ==> fs'[cs[i]].id == fs[ks[i]].id;
  }

  /** Moving a folder into itself makes a cycle. */
  lemma CycleAfterMoveInside(h: Host, s: State, s': State, src: Path, from: Bytes, dest: Path, to: Bytes)
    requires DistinctIds(s.fs) && Changed(h, s, s', Rekeyed(src, from, dest, to)) && src < dest
    ensures !Acyclic(h, s'.fs)
  {
    OnePathPerKey(h, s.fs, src);
    FolderOf(h, s.fs, dest, to);
    var ks := DescentTo(h, s.fs, src, from, Front(dest));
    Closed(h, s.fs, from, to, s'.fs[to], ks);
  }

  /** A successful move keeps the parent links free of cycles exactly when the destination is not
      inside the source, which a caller can read off the two paths. */
  lemma MoveKeepsAcyclicIff(c: Config, s: State, path: Path, expected: Option<U64>, destination: Path)
    requires Forest(c.host, s.fs, s.seqno) && Acyclic(c.host, s.fs)
    requires Move(c, s, path, expected, destination).1 == Done
    ensures Acyclic(c.host, Move(c, s, path, expected, destination).0.fs) <==> !(Nfkd(c, path) < Nfkd(c, destination))
  {
    var s' := Move(c, s, path, expected, destination).0;
    var ch := MoveChange(c, s, path, expected, destination);
    if ch.path < ch.dest {
      CycleAfterMoveInside(c.host, s, s', ch.path, ch.key, ch.dest, ch.to);
    } else {
      AcyclicAfterMove(c.host, s, s', ch.path, ch.key, ch.dest, ch.to);
    }
  }

  lemma AcyclicAfterInsert(h: Host, fs: Table, key: Bytes, r: Record)
    requires Acyclic(h, fs) && key !in fs && NoChildren(h, fs[key := r], r.id)
    ensures Acyclic(h, fs[key := r])
  {
    var fs' := fs[key := r];
    forall ks | Cycle(h, fs', ks)
      ensures Cycle(h, fs, ks)
    {
      forall i | 0 <= i < |ks|
        ensures ks[i] != key
      {
        var next := ks[if i + 1 < |ks| then i + 1 else 1];
        assert ParentId(h, next) == fs'[ks[i]].id;
      }
    }
  }

  lemma AcyclicAfterNewLeaf(h: Host, s: State, s': State, p: Path, key: Bytes)
    requires Forest(h, s.fs, s.seqno) && Acyclic(h, s.fs) && Changed(h, s, s', Inserted(p, key))
    ensures Acyclic(h, s'.fs)
  {
    LocatedParent(h, s.fs, s.seqno, p);
    ForestAfterInsert(h, s.fs, s.seqno, key, s'.fs[key]);
    AcyclicAfterInsert(h, s.fs, key, s'.fs[key]);
  }

  /** Every call but a move into itself keeps the parent links free of cycles. */
  lemma StepKeepsAcyclic(c: Config, s: State, call: Call)
    requires c.rep.storeSequence && c.rep.guardMove && Forest(c.host, s.fs, s.seqno) && Acyclic(c.host, s.fs)
    ensures Acyclic(c.host, Step(c, s, call).0.fs)
  {
    var s' := Step(c, s, call).0;
    var ch := StepChange(c, s, call);
    match ch
    case Unchanged =>
    case Inserted(p, key) =>
      AcyclicAfterNewLeaf(c.host, s, s', p, key);
    case Rekeyed(p, key, dest, to) =>
      AcyclicAfterMove(c.host, s, s', p, key, dest, to);
    case _ =>
      forall ks | Cycle(c.host, s'.fs, ks)
        ensures Cycle(c.host, s.fs, ks)
      {
      }
  }

  /** In every state of every run the rows form a forest. */
  lemma {:induction false} RunKeepsForest(c: Config, calls: seq<Call>)
    requires Sound(c.rep) && c.rep.guardMove && AdmissibleRun(c, EMPTY_STATE, calls)
    ensures var s := Run(c, EMPTY_STATE, calls);
            Forest(c.host, s.fs, s.seqno) && Acyclic(c.host, s.fs)
  {
    if calls != [] {
      var front := calls[..|calls| - 1];
      RunKeepsForest(c, front);
      StepKeepsAcyclic(c, Run(c, EMPTY_STATE, front), calls[|calls| - 1]);
    }
    InitiallyInv(c.host);
    RunKeeps(c, EMPTY_STATE, calls);
  }
}
