/** The flat object table read as a tree: which paths lead where, and how the set of paths
    changes when one key is inserted, replaced, removed or re-keyed. */
module Tree {
  import opened Wrappers
  import opened Keys
  import opened Store

  /** The record that a path leads to. */
  ghost function Find(h: Host, fs: Table, p: Path): Option<Record>
  {
    if p == [] then None
    else match Locate(h, fs, p)
      case Err(_) => None
      case Ok(key) => if key in fs then Some(fs[key]) else None
  }

  /** The id of the folder that a key lies in. */
  ghost function ParentId(h: Host, key: Bytes): U64
  {
    if |key| < 8 then 0 else KeyId(h, FromBe(key))
  }

  /** No row has the root's id, and no two rows share one. */
  ghost predicate DistinctIds(fs: Table)
  {
    && (forall k :: k in fs ==> fs[k].id != ROOT_FSID)
    && (forall j, k :: j in fs && k in fs && fs[j].id == fs[k].id ==> j == k)
  }

  /** Every id in the table was handed out before, and every row lies in a folder whose id was. */
  ghost predicate IdsUpTo(h: Host, fs: Table, n: U64)
  {
    && (forall k :: k in fs ==> |k| >= 8)
    && (forall k :: k in fs ==> fs[k].id <= n)
    && (forall k {:trigger ParentId(h, k)} :: k in fs ==> ParentId(h, k) <= n)
  }

  /** The rows form a forest over the ids 1..n. */
  ghost predicate Forest(h: Host, fs: Table, n: U64)
  {
    DistinctIds(fs) && IdsUpTo(h, fs, n)
  }

  /** A walk succeeds exactly at the root and at the paths that lead to folders. */
  lemma WalkIsFind(h: Host, fs: Table, p: Path)
    ensures Walk(h, fs, p).Ok? <==> p == [] || (Find(h, fs, p).Some? && Find(h, fs, p).value.kind == Folder)
    ensures Walk(h, fs, p).Ok? ==>
              Walk(h, fs, p).value == if p == [] then 0 else KeyId(h, Find(h, fs, p).value.id)
  {
  }

  lemma KeyParent(h: Host, id: U64, name: Bytes)
    ensures ParentId(h, MakeKey(KeyId(h, id), name)) == id
  {
    MakeKeyParts(KeyId(h, id), name);
    KeyIdInvolution(h, id);
  }

  /** No two paths walk to the same folder. */
  lemma {:induction false} OnePathPerFolder(h: Host, fs: Table, p: Path, q: Path)
    requires DistinctIds(fs)
    requires Walk(h, fs, p).Ok? && Walk(h, fs, p) == Walk(h, fs, q)
    ensures p == q
  {
    WalkIsFind(h, fs, p);
    WalkIsFind(h, fs, q);
    KeyIdOfRoot(h);
    if p == [] || q == [] {
      if p != [] {
        KeyIdInjective(h, Find(h, fs, p).value.id, 0);
      } else if q != [] {
        KeyIdInjective(h, Find(h, fs, q).value.id, 0);
      }
    } else {
      KeyIdInjective(h, Find(h, fs, p).value.id, Find(h, fs, q).value.id);
      assert Locate(h, fs, p) == Locate(h, fs, q);
      MakeKeyInjective(Walk(h, fs, Front(p)).value, Last(p), Walk(h, fs, Front(q)).value, Last(q));
      OnePathPerFolder(h, fs, Front(p), Front(q));
      FrontAndLast(p);
      FrontAndLast(q);
    }
  }

  /** The two ways in which a walk can fail. */
  lemma {:induction false} WalkErrors(h: Host, fs: Table, p: Path)
    ensures Walk(h, fs, p).Err? ==> Walk(h, fs, p).error == NoSuchPath || Walk(h, fs, p).error == NotFolder
  {
    if p != [] {
      WalkErrors(h, fs, p[..|p| - 1]);
    }
  }

  lemma LocateErrors(h: Host, fs: Table, p: Path)
    requires p != []
    ensures Locate(h, fs, p).Err? ==> Locate(h, fs, p).error == NoSuchPath || Locate(h, fs, p).error == NotFolder
  {
    WalkErrors(h, fs, p[..|p| - 1]);
  }

  /** The path is the only one that names its key. */
  ghost predicate OnlyPath(h: Host, fs: Table, p: Path)
    requires p != []
  {
    forall q: Path :: q != [] && Locate(h, fs, q).Ok? && Locate(h, fs, q) == Locate(h, fs, p) ==> q == p
  }

  /** No two paths name the same key, whether or not there is a row at it. */
  lemma OnePathPerKey(h: Host, fs: Table, p: Path)
    requires DistinctIds(fs) && p != []
    ensures OnlyPath(h, fs, p)
  {
    forall q: Path | q != [] && Locate(h, fs, q).Ok? && Locate(h, fs, q) == Locate(h, fs, p)
      ensures q == p
    {
      MakeKeyInjective(Walk(h, fs, Front(p)).value, Last(p), Walk(h, fs, Front(q)).value, Last(q));
      OnePathPerFolder(h, fs, Front(p), Front(q));
      FrontAndLast(p);
      FrontAndLast(q);
    }
  }

  /** Each reachable object has exactly one path. */
  lemma OnePathPerObject(h: Host, fs: Table, p: Path, q: Path)
    requires DistinctIds(fs)
    requires Find(h, fs, p).Some? && Find(h, fs, q).Some?
    requires Find(h, fs, p).value.id == Find(h, fs, q).value.id
    ensures p == q
  {
    OnePathPerKey(h, fs, p);
  }

  /** A key that a path names lies in a folder that exists. */
  lemma LocatedParent(h: Host, fs: Table, n: U64, p: Path)
    requires Forest(h, fs, n) && p != [] && Locate(h, fs, p).Ok?
    ensures |Locate(h, fs, p).value| >= 8 && ParentId(h, Locate(h, fs, p).value) <= n
  {
    var front := Front(p);
    WalkIsFind(h, fs, front);
    KeyIdOfRoot(h);
    KeyParent(h, if front == [] then 0 else Find(h, fs, front).value.id, Last(p));
  }

  lemma PrefixOfFront(p: Path, q: Path)
    requires q != []
    ensures p <= q <==> p == q || p <= Front(q)
  {
  }

  /** The row that the last step of a walk finds. */
  ghost function Row(fs: Table, at: Result<Bytes, Error>): Option<Record>
  {
    if at.Ok? && at.value in fs then Some(fs[at.value]) else None
  }

  ghost predicate SameFolder(a: Option<Record>, b: Option<Record>)
  {
    (a.Some? && a.value.kind == Folder) == (b.Some? && b.value.kind == Folder) &&
    (a.Some? && b.Some? && a.value.kind == Folder ==> a.value.id == b.value.id)
  }

  /** The key that a path names depends on its front only through the folder found there. */
  lemma LocateThroughFront(h: Host, fs: Table, p: Path, fs': Table, p': Path)
    requires p != [] && p' != [] && Last(p) == Last(p')
    requires Front(p) == Front(p') == [] ||
             (Front(p) != [] && Front(p') != [] && SameFolder(Find(h, fs, Front(p)), Find(h, fs', Front(p'))))
    ensures Locate(h, fs, p).Ok? == Locate(h, fs', p').Ok?
    ensures Locate(h, fs, p).Ok? ==> Locate(h, fs, p) == Locate(h, fs', p')
    ensures Find(h, fs, p) == Row(fs, Locate(h, fs, p))
    ensures Find(h, fs', p') == Row(fs', Locate(h, fs', p'))
  {
    WalkIsFind(h, fs, Front(p));
    WalkIsFind(h, fs', Front(p'));
  }

  /** Nothing lies below an object that is not a folder. */
  lemma NothingBelow(h: Host, fs: Table, p: Path)
    requires p != [] && Front(p) != [] && SameFolder(Find(h, fs, Front(p)), None)
    ensures Find(h, fs, p) == None
  {
    WalkIsFind(h, fs, Front(p));
  }

  lemma RemoveStep(h: Host, fs: Table, p: Path, key: Bytes, q: Path)
    requires p != [] && Locate(h, fs, p) == Ok(key) && OnlyPath(h, fs, p)
    requires q != [] && Find(h, fs - {key}, Front(q)) == Find(h, fs, Front(q))
    ensures Find(h, fs - {key}, q) == if p == q then None else Find(h, fs, q)
  {
    LocateThroughFront(h, fs, q, fs - {key}, q);
  }

  /** Removing one key cuts off the whole subtree at its path and nothing else. */
  lemma {:induction false} FindAfterRemove(h: Host, fs: Table, p: Path, key: Bytes, q: Path)
    requires p != [] && Locate(h, fs, p) == Ok(key) && OnlyPath(h, fs, p)
    ensures Find(h, fs - {key}, q) == if p <= q then None else Find(h, fs, q)
    decreases |q|
  {
    if q != [] {
      FindAfterRemove(h, fs, p, key, Front(q));
      PrefixOfFront(p, q);
      if p <= Front(q) {
        NothingBelow(h, fs - {key}, q);
      } else {
        RemoveStep(h, fs, p, key, q);
      }
    }
  }

  ghost predicate NoChildren(h: Host, fs: Table, id: U64)
  {
    forall k {:trigger ParentId(h, k)} :: k in fs ==> ParentId(h, k) != id
  }

  lemma InsertStep(h: Host, fs: Table, p: Path, key: Bytes, r: Record, q: Path)
    requires p != [] && Locate(h, fs, p) == Ok(key) && OnlyPath(h, fs, p)
    requires q != [] && Find(h, fs[key := r], Front(q)) == Find(h, fs, Front(q))
    ensures Find(h, fs[key := r], q) == if p == q then Some(r) else Find(h, fs, q)
  {
    LocateThroughFront(h, fs, q, fs[key := r], q);
  }

  lemma NewLeafIsEmpty(h: Host, fs: Table, p: Path, r: Record, q: Path)
    requires p != [] && q != [] && Front(q) == p && Find(h, fs, p) == Some(r)
    requires NoChildren(h, fs, r.id)
    ensures Find(h, fs, q) == None
  {
    WalkIsFind(h, fs, p);
    KeyParent(h, r.id, Last(q));
  }

  /** Inserting a row under whose id nothing lies adds one leaf and nothing else. */
  lemma {:induction false} FindAfterInsert(h: Host, fs: Table, p: Path, key: Bytes, r: Record, q: Path)
    requires p != [] && Locate(h, fs, p) == Ok(key) && OnlyPath(h, fs, p)
    requires key !in fs && NoChildren(h, fs[key := r], r.id)
    ensures Find(h, fs[key := r], q) == if q == p then Some(r) else Find(h, fs, q)
    decreases |q|
  {
    if q != [] {
      FindAfterInsert(h, fs, p, key, r, Front(q));
      if Front(q) == p {
        NothingBelow(h, fs, q);
        NewLeafIsEmpty(h, fs[key := r], p, r, q);
      } else {
        InsertStep(h, fs, p, key, r, q);
      }
    }
  }

  /** Replacing a row by one with the same id and type changes what one path shows. */
  lemma {:induction false} FindAfterReplace(h: Host, fs: Table, p: Path, key: Bytes, r: Record, q: Path)
    requires p != [] && Locate(h, fs, p) == Ok(key) && OnlyPath(h, fs, p)
    requires key in fs && r.id == fs[key].id && r.kind == fs[key].kind
    ensures Find(h, fs[key := r], q) == if q == p then Some(r) else Find(h, fs, q)
    decreases |q|
  {
    if q != [] {
      FindAfterReplace(h, fs, p, key, r, Front(q));
      LocateThroughFront(h, fs, q, fs[key := r], q);
    }
  }

  /** The folder that a located path ends in. */
  lemma FrontIsFolder(h: Host, fs: Table, q: Path)
    requires q != [] && Locate(h, fs, q).Ok? && Front(q) != []
    ensures Locate(h, fs, Front(q)).Ok?
    ensures Find(h, fs, Front(q)).Some? && Find(h, fs, Front(q)).value.kind == Folder
  {
    WalkIsFind(h, fs, Front(q));
  }

  /** Everything on the way to an object is a folder. */
  lemma {:induction false} PrefixIsFolder(h: Host, fs: Table, p: Path, q: Path)
    requires p < q && p != [] && Locate(h, fs, q).Ok?
    ensures Find(h, fs, p).Some? && Find(h, fs, p).value.kind == Folder
    decreases |q|
  {
    hide Walk, Locate, Find;
    PrefixOfFront(p, q);
    FrontIsFolder(h, fs, q);
    if p != Front(q) {
      PrefixIsFolder(h, fs, p, Front(q));
    }
  }

  /** What holds when a move replaces the key `from` of src by the key `to` of dest. */
  ghost predicate CanMove(h: Host, fs: Table, src: Path, from: Bytes, dest: Path, to: Bytes, r: Record)
  {
    && src != [] && Locate(h, fs, src) == Ok(from) && OnlyPath(h, fs, src)
    && dest != [] && Locate(h, fs, dest) == Ok(to) && OnlyPath(h, fs, dest)
    && from in fs && to !in fs - {from}
    && r.id == fs[from].id && r.kind == fs[from].kind
  }

  /** What a path shows after src has been re-keyed to dest: paths below dest show what the same
      suffix below src showed, paths below src show nothing, all others are unchanged. */
  ghost function Rerooted(h: Host, fs: Table, src: Path, dest: Path, r: Record, q: Path): Option<Record>
  {
    if q == dest then Some(r)
    else if dest <= q then Find(h, fs, src + q[|dest|..])
    else if src <= q then None
    else Find(h, fs, q)
  }

  /** An occupied destination is only tolerated when it is the source itself, so the source never
      lies inside the destination. */
  lemma MoveNeverCovers(h: Host, fs: Table, src: Path, from: Bytes, dest: Path, to: Bytes, r: Record)
    requires CanMove(h, fs, src, from, dest, to, r)
    ensures !(dest < src)
  {
    if dest < src {
      PrefixIsFolder(h, fs, dest, src);
      assert false;
    }
  }

  /** A path away from both ends of the move. */
  lemma MoveStepElsewhere(
    h: Host, fs: Table, src: Path, from: Bytes, dest: Path, to: Bytes, r: Record, q: Path)
    requires CanMove(h, fs, src, from, dest, to, r)
    requires q != [] && Find(h, (fs - {from})[to := r], Front(q)) == Find(h, fs, Front(q))
    ensures Find(h, (fs - {from})[to := r], q) ==
            if q == dest then Some(r) else if q == src then None else Find(h, fs, q)
  {
    LocateThroughFront(h, fs, q, (fs - {from})[to := r], q);
  }

  /** A path below the destination, compared with the same suffix below the source. */
  lemma MoveStepBelow(
    h: Host, fs: Table, src: Path, from: Bytes, dest: Path, to: Bytes, r: Record, before: Path, q: Path)
    requires CanMove(h, fs, src, from, dest, to, r)
    requires before != [] && q != [] && Front(before) != [] && Front(q) != [] && Last(before) == Last(q)
    requires before != src && before != dest
    requires SameFolder(Find(h, fs, Front(before)), Find(h, (fs - {from})[to := r], Front(q)))
    ensures Find(h, (fs - {from})[to := r], q) == Find(h, fs, before)
  {
    LocateThroughFront(h, fs, before, (fs - {from})[to := r], q);
  }

  /** Changing one key re-roots the whole subtree. */
  lemma {:induction false} FindAfterMove(
    h: Host, fs: Table, src: Path, from: Bytes, dest: Path, to: Bytes, r: Record, q: Path)
    requires CanMove(h, fs, src, from, dest, to, r) && !(src < dest)
    ensures Find(h, (fs - {from})[to := r], q) == Rerooted(h, fs, src, dest, r, q)
    decreases |q|
  {
    hide Walk, Locate, OnlyPath;
    if q != [] {
      var fs', front := (fs - {from})[to := r], Front(q);
      FindAfterMove(h, fs, src, from, dest, to, r, front);
      MoveNeverCovers(h, fs, src, from, dest, to, r);
      PrefixOfFront(src, q);
      PrefixOfFront(dest, q);
      if dest <= front {
        var before := src + q[|dest|..];
        assert Front(before) == src + front[|dest|..];
        if front == dest {
          assert Front(before) == src;
        }
        MoveStepBelow(h, fs, src, from, dest, to, r, before, q);
      } else if src <= front {
        NothingBelow(h, fs', q);
      } else {
        MoveStepElsewhere(h, fs, src, from, dest, to, r, q);
      }
    }
  }

  /** Moving a folder into itself instead cuts the whole subtree off. */
  lemma {:induction false} FindAfterMoveInside(
    h: Host, fs: Table, src: Path, from: Bytes, dest: Path, to: Bytes, r: Record, q: Path)
    requires CanMove(h, fs, src, from, dest, to, r) && src < dest
    ensures Find(h, (fs - {from})[to := r], q) == if src <= q then None else Find(h, fs, q)
    decreases |q|
  {
    if q != [] {
      var fs' := (fs - {from})[to := r];
      FindAfterMoveInside(h, fs, src, from, dest, to, r, Front(q));
      PrefixOfFront(src, q);
      if src <= Front(q) {
        NothingBelow(h, fs', q);
      } else {
        MoveStepElsewhere(h, fs, src, from, dest, to, r, q);
      }
    }
  }
}
