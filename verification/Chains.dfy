/** How the contents of a file build up: chains of appends, and uploads in fragments. */
module Chains {
  import opened Wrappers
  import opened Keys
  import opened Store
  import opened Invariant
  import opened AbstractFs
  import opened Refinement

  // ----- Appends -----

  /** Exactly which versions an append changes: those of unknown length that share the blob. */
  lemma AppendChangesReadingIff(s: State, key: Bytes, data: Bytes, iv: (U64, U64))
    requires VersionInv(s) && key in s.fs && (s.fs[key].id, s.fs[key].latest) in s.ver && iv in s.ver
    requires AppendTo(true, s, key, data).1 == Done
    ensures var s' := AppendTo(true, s, key, data).0;
            var latest := s.ver[(s.fs[key].id, s.fs[key].latest)];
            ReadVersion(s'.ver, s'.blobs, iv.0, iv.1) != ReadVersion(s.ver, s.blobs, iv.0, iv.1) <==>
            s.ver[iv].length == UNKNOWN_SIZE && s.ver[iv].blob == latest.blob && data != []
  {
    var s' := AppendTo(true, s, key, data).0;
    var u := AppendedTables(s, key, data);
    assert DenseAt(s.ver, s.fs[key]) && HeldAt(s.ver[iv], s.blobs, s.issued);
    ReadAfterGrow(s.ver, s.blobs, u, data, iv.0, iv.1);
    assert s'.ver[iv] == s.ver[iv];
    if data != [] {
      assert |s.blobs[u] + data| > |s.blobs[u]|;
    } else {
      assert s.blobs[u] + data == s.blobs[u];
    }
  }

  ghost function AppendAll(node: Node, pieces: seq<Bytes>): Node
  {
    if pieces == [] then node
    else
      var before := AppendAll(node, Front(pieces));
      if Appendable(before) then Appended(before, Last(pieces)) else before
  }

  /** One append: the new version is the last one and the new bytes; fixed ones stay. */
  lemma AppendedReads(node: Node, data: Bytes)
    requires Appendable(node)
    ensures var (all, last) := (Appended(node, data), Last(node.versions));
            && |all.versions| == |node.versions| + 1 && all.latest == node.latest + 1
            && Last(all.versions) == Reading(true, last.cell, last.bytes + data)
            && forall i :: 0 <= i < |node.versions| && node.versions[i].Reading? && node.versions[i].fixed ==>
                 all.versions[i] == node.versions[i]
  {
  }

  /** What a chain of appends ends with. */
  lemma {:induction false} ChainEnds(node: Node, pieces: seq<Bytes>)
    requires Appendable(node) && node.latest + |pieces| < U64_LIMIT
    ensures var (all, last) := (AppendAll(node, pieces), Last(node.versions));
            && |all.versions| == |node.versions| + |pieces| && all.latest == node.latest + |pieces|
            && Last(all.versions) == Reading(last.fixed || pieces != [], last.cell, last.bytes + Flatten(pieces))
  {
    hide Appended;
    var bytes := Last(node.versions).bytes;
    if pieces == [] {
      assert bytes + Flatten(pieces) == bytes;
    } else {
      ChainEnds(node, Front(pieces));
      AppendedReads(AppendAll(node, Front(pieces)), Last(pieces));
      assert bytes + Flatten(Front(pieces)) + Last(pieces) == bytes + Flatten(pieces);
    }
  }

  /** After a chain of appends, the k-th version added reads as what was there followed by the
      first k pieces. */
  lemma {:induction false} ChainReads(node: Node, pieces: seq<Bytes>, k: nat)
    requires Appendable(node) && node.latest + |pieces| < U64_LIMIT && 1 <= k <= |pieces|
    ensures var (all, last) := (AppendAll(node, pieces), Last(node.versions));
            && |all.versions| == |node.versions| + |pieces| && all.latest == node.latest + |pieces|
            && all.versions[|node.versions| - 1 + k] == Reading(true, last.cell, last.bytes + Flatten(pieces[..k]))
  {
    hide Appended, Flatten;
    ChainEnds(node, pieces);
    if k == |pieces| {
      assert pieces[..k] == pieces;
    } else {
      ChainEnds(node, Front(pieces));
      ChainReads(node, Front(pieces), k);
      AppendedReads(AppendAll(node, Front(pieces)), Last(pieces));
      assert Front(pieces)[..k] == pieces[..k];
    }
  }

  function Appends(path: Path, pieces: seq<Bytes>): (calls: seq<Call>)
    ensures |calls| == |pieces|
  {
    seq(|pieces|, i requires 0 <= i < |pieces| => AppendCall(path, None, pieces[i]))
  }

  ghost predicate AllDone(c: Config, s: State, calls: seq<Call>)
  {
    forall i :: 0 <= i < |calls| ==> Step(c, Run(c, s, calls[..i]), calls[i]).1 == Done
  }

  lemma AbsAppendDone(v: Fs, p: Path, data: Bytes)
    requires AbsAppend(v, p, None, data).1 == Done
    ensures p in v && Appendable(v[p]) && AbsAppend(v, p, None, data).0 == v[p := Appended(v[p], data)]
  {
  }

  lemma AppendDone(c: Config, s: State, path: Path, data: Bytes)
    requires Sound(c.rep) && c.rep.acceptNext && Inv(c.host, s) && Append(c, s, path, None, data).1 == Done
    ensures var (s', p) := (Append(c, s, path, None, data).0, Nfkd(c, path));
            && Inv(c.host, s') && p in View(c.host, s) && Appendable(View(c.host, s)[p])
            && View(c.host, s') == View(c.host, s)[p := Appended(View(c.host, s)[p], data)]
  {
    hide Inv, Append, View, AbsAppend;
    AppendRefines(c, s, path, None, data);
    AbsAppendDone(View(c.host, s), Nfkd(c, path), data);
    AppendKeeps(c, s, path, None, data);
  }

  lemma LastAppend(c: Config, s: State, path: Path, pieces: seq<Bytes>)
    requires pieces != [] && AllDone(c, s, Appends(path, pieces))
    ensures var (front, piece) := (Front(pieces), Last(pieces));
            && AllDone(c, s, Appends(path, front))
            && Append(c, Run(c, s, Appends(path, front)), path, None, piece).1 == Done
            && Run(c, s, Appends(path, pieces)) == Append(c, Run(c, s, Appends(path, front)), path, None, piece).0
  {
    hide Append, Delete, Upload, Move, Copy, MakeDirectory;
    var calls, front := Appends(path, pieces), Front(pieces);
    assert calls[..|front|] == Appends(path, front);
    assert forall i :: 0 <= i < |front| ==> Appends(path, front)[..i] == calls[..i];
    assert calls[|front|] == AppendCall(path, None, pieces[|front|]);
  }

  /** The calls of a chain act on the file as `AppendAll` says. */
  lemma {:induction false} AppendRun(c: Config, s: State, path: Path, pieces: seq<Bytes>)
    requires Sound(c.rep) && c.rep.acceptNext && Inv(c.host, s) && AllDone(c, s, Appends(path, pieces))
    requires Nfkd(c, path) in View(c.host, s)
    ensures var s' := Run(c, s, Appends(path, pieces));
            && Inv(c.host, s') && Nfkd(c, path) in View(c.host, s')
            && View(c.host, s')[Nfkd(c, path)] == AppendAll(View(c.host, s)[Nfkd(c, path)], pieces)
  {
    if pieces != [] {
      LastAppend(c, s, path, pieces);
      AppendRun(c, s, path, Front(pieces));
      AppendDone(c, Run(c, s, Appends(path, Front(pieces))), path, Last(pieces));
    }
  }

  function WholeUpload(path: Path, data: Bytes): UploadArg
  {
    UploadArg(path, data, false, false, [])
  }

  /** A one-message upload that does not ask for a new version makes a file of one version. */
  lemma NewFile(c: Config, s: State, path: Path, data: Bytes, minted: Ulid, sealed: Ulid)
    requires Sound(c.rep) && c.rep.acceptNext && Inv(c.host, s) && path != []
    requires Admissible(s, UploadCall(WholeUpload(path, data), minted, sealed))
    requires Upload(c, s, WholeUpload(path, data), minted, sealed).1 == Done
    ensures var (s', p) := (Upload(c, s, WholeUpload(path, data), minted, sealed).0, CreatePath(c, path));
            && Inv(c.host, s') && p in View(c.host, s')
            && View(c.host, s')[p] == Node(VersionBlob, 1, StoredName(c, path), [Reading(true, minted, data)])
  {
    hide Inv, Upload, View;
    UploadRefines(c, s, WholeUpload(path, data), minted, sealed);
    UploadKeeps(c, s, WholeUpload(path, data), minted, sealed);
    assert SoFar(Abs(c.host, s), minted) + data == data;
  }

  /** After a one-message upload of a new file and n appends to it, its version k + 1 reads as the
      uploaded bytes followed by the first k pieces. */
  lemma UploadThenAppends(
    c: Config, s: State, path: Path, data: Bytes, minted: Ulid, sealed: Ulid, pieces: seq<Bytes>, k: nat)
    requires Sound(c.rep) && c.rep.acceptNext && Inv(c.host, s) && k <= |pieces| && path != []
    requires CreatePath(c, path) == Nfkd(c, path)
    requires Admissible(s, UploadCall(WholeUpload(path, data), minted, sealed))
    requires Upload(c, s, WholeUpload(path, data), minted, sealed).1 == Done
    requires AllDone(c, Upload(c, s, WholeUpload(path, data), minted, sealed).0, Appends(path, pieces))
    requires |pieces| + 1 < U64_LIMIT
    ensures var s1 := Upload(c, s, WholeUpload(path, data), minted, sealed).0;
            var (v, p) := (View(c.host, Run(c, s1, Appends(path, pieces))), Nfkd(c, path));
            && p in v && |v[p].versions| == |pieces| + 1
            && v[p].versions[k] == Reading(true, minted, data + Flatten(pieces[..k]))
  {
    hide Inv, Upload, Step, View, Admissible, Sound, AllDone, Appended;
    var s1 := Upload(c, s, WholeUpload(path, data), minted, sealed).0;
    NewFile(c, s, path, data, minted, sealed);
    AppendRun(c, s1, path, pieces);
    var node := Node(VersionBlob, 1, StoredName(c, path), [Reading(true, minted, data)]);
    ChainKeepsFirst(node, pieces);
    if k > 0 {
      ChainReads(node, pieces, k);
    } else {
      assert data + Flatten(pieces[..0]) == data;
    }
  }

  /** A first version of fixed length never changes along a chain. */
  lemma {:induction false} ChainKeepsFirst(node: Node, pieces: seq<Bytes>)
    requires |node.versions| == 1 && node.versions[0].Reading? && node.versions[0].fixed
    requires node.latest + |pieces| < U64_LIMIT
    ensures var all := AppendAll(node, pieces);
            |all.versions| == |pieces| + 1 && all.versions[0] == node.versions[0]
            && Appendable(all) == (node.latest + |pieces| + 1 < U64_LIMIT) && all.latest == node.latest + |pieces|
            && forall i :: 0 <= i < |all.versions| ==> all.versions[i].Reading? && all.versions[i].fixed
  {
    if pieces != [] {
      ChainKeepsFirst(node, Front(pieces));
    }
  }

  // ----- Fragments -----

  ghost predicate Presents(call: Call, u: Ulid)
  {
    call.UploadCall? && call.arg.path != [] && |call.arg.continuation| == 16 && TokenUlid(call.arg.continuation) == u
  }

  /** The bytes of a call that presents the token, unless the disk refuses them. */
  ghost function Accepted(u: Ulid, call: Call, reply: Reply): Bytes
  {
    if Presents(call, u) && reply != Failed(Io) then call.arg.data else []
  }

  /** The bytes that a run's calls send under one token, in order. */
  ghost function Sent(c: Config, s: State, u: Ulid, calls: seq<Call>): Bytes
  {
    if calls == [] then []
    else Sent(c, s, u, Front(calls)) + Accepted(u, Last(calls), Step(c, Run(c, s, Front(calls)), Last(calls)).1)
  }

  /** No call of the run finishes the upload. */
  ghost predicate Unfinished(c: Config, s: State, u: Ulid, calls: seq<Call>)
  {
    calls == [] ||
    (Unfinished(c, s, u, Front(calls)) &&
     (Presents(Last(calls), u) ==> Step(c, Run(c, s, Front(calls)), Last(calls)).1 != Done))
  }

  lemma SealElsewhere(s: State, r: UploadArg, t: Ulid, sealed: Ulid, u: Ulid)
    requires t in s.blobs && u != t && u != sealed
    ensures Contents(Seal(s, r, t, sealed), u) == Contents(s, u)
  {
  }

  lemma UploadFragment(c: Config, s: State, r: UploadArg, minted: Ulid, sealed: Ulid, u: Ulid)
    requires Admissible(s, UploadCall(r, minted, sealed)) && u in s.issued
    requires Presents(UploadCall(r, minted, sealed), u) ==> Upload(c, s, r, minted, sealed).1 != Done
    ensures var (s', reply) := Upload(c, s, r, minted, sealed);
            Contents(s', u) == Contents(s, u) + Accepted(u, UploadCall(r, minted, sealed), reply)
  {
    hide FinishUpload, Seal;
    assert Contents(s, u) + [] == Contents(s, u);
    if r.path != [] && TokenName(r.continuation, minted).Some? {
      var t := TokenName(r.continuation, minted).value;
      assert t == u <==> Presents(UploadCall(r, minted, sealed), u);
      var (s1, written) := Write(s, t, r.data);
      if written && !r.incomplete {
        FinishUploadFiles(c, s1, r, t, sealed);
        FinishUploadExhausted(c, s1, r, t, sealed);
        if t != u {
          SealElsewhere(s1, r, t, sealed, u);
        }
      }
    }
  }

  /** One call, seen from what is stored under a token. */
  lemma FragmentStep(c: Config, s: State, call: Call, u: Ulid)
    requires VersionInv(s) && Admissible(s, call) && u in s.issued
    requires Presents(call, u) ==> Step(c, s, call).1 != Done
    ensures var (s', reply) := Step(c, s, call);
            u in s'.issued && Contents(s', u) == Contents(s, u) + Accepted(u, call, reply)
  {
    hide VersionInv, Upload;
    var s' := Step(c, s, call).0;
    if call.UploadCall? {
      UploadFragment(c, s, call.arg, call.minted, call.sealed, u);
    } else {
      CallPending(c, s, call);
      assert u in Pending(s') <==> u in Pending(s);
      assert Contents(s, u) + [] == Contents(s, u);
    }
  }

  lemma InvVersions(h: Host, s: State)
    requires Inv(h, s)
    ensures VersionInv(s)
  {
  }

  /** Whatever other calls run in between, and whether they succeed or fail, what is stored under a
      token is what was sent under it, in order. */
  lemma {:induction false} FragmentsInOrder(c: Config, s: State, u: Ulid, calls: seq<Call>)
    requires Sound(c.rep) && Inv(c.host, s) && AdmissibleRun(c, s, calls)
    requires u in s.issued && Unfinished(c, s, u, calls)
    ensures var s' := Run(c, s, calls);
            && Inv(c.host, s') && u in s'.issued
            && Contents(s', u) == Contents(s, u) + Sent(c, s, u, calls)
  {
    hide Step, Inv, Contents, Presents, Admissible, Accepted;
    if calls == [] {
      assert Contents(s, u) + [] == Contents(s, u);
    } else {
      FragmentsInOrder(c, s, u, Front(calls));
      RunKeeps(c, s, calls);
      var s1 := Run(c, s, Front(calls));
      InvVersions(c.host, s1);
      FragmentStep(c, s1, Last(calls), u);
      assert Contents(s, u) + Sent(c, s, u, Front(calls)) + Accepted(u, Last(calls), Step(c, s1, Last(calls)).1) ==
             Contents(s, u) + Sent(c, s, u, calls);
    }
  }

  /** A finished fragmented upload reads as its fragments in order, whatever happened in between. */
  lemma FragmentedUploadReads(
    c: Config, s: State, u: Ulid, calls: seq<Call>, r: UploadArg, minted: Ulid, sealed: Ulid)
    requires Sound(c.rep) && c.rep.acceptNext && Inv(c.host, s) && AdmissibleRun(c, s, calls)
    requires u in s.issued && Unfinished(c, s, u, calls)
    requires Presents(UploadCall(r, minted, sealed), u) && !r.incomplete
    requires Admissible(Run(c, s, calls), UploadCall(r, minted, sealed))
    requires Upload(c, Run(c, s, calls), r, minted, sealed).1 == Done
    ensures var (s', p) := (Upload(c, Run(c, s, calls), r, minted, sealed).0, CreatePath(c, r.path));
            && p in View(c.host, s') && View(c.host, s')[p].versions != []
            && Last(View(c.host, s')[p].versions) ==
               Reading(false, sealed, Contents(s, u) + Sent(c, s, u, calls) + r.data)
  {
    hide Inv, Unfinished, AdmissibleRun, Upload, Step, Locate, View, CreatePath;
    var s1 := Run(c, s, calls);
    FragmentsInOrder(c, s, u, calls);
    UploadRefines(c, s1, r, minted, sealed);
    assert SoFar(Abs(c.host, s1), u) == Contents(s1, u);
    AbsUploadDone(View(c.host, s1), CreatePath(c, r.path), StoredName(c, r.path), r.next,
                  Uploaded(r, u, sealed, Contents(s1, u) + r.data));
  }

  lemma AbsUploadDone(v: Fs, p: Path, name: Bytes, next: bool, content: Reading)
    requires p != [] && AbsUpload(v, p, name, next, content).1 == Done
    ensures var v' := AbsUpload(v, p, name, next, content).0;
            p in v' && v'[p].versions != [] && Last(v'[p].versions) == content
  {
  }
}
