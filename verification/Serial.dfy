/** Clients whose calls interleave step by step under the storage mutex. Each handler takes the
    mutex, then the operation writes its blob, walks to the folder in a read snapshot, and checks
    and commits in a write transaction; the mutex is released when the call returns. */
module Serial {
  import opened Wrappers
  import opened Keys
  import opened Store
  import opened Steps
  import Downloads
  import Listings

  // ----- The parts of a call -----

  /** Writing the data of an upload, which may already decide the answer. */
  function WriteStage(s: State, call: Call): (State, Option<Reply>)
  {
    if !call.UploadCall? then (s, None)
    else if call.arg.path == [] then (s, Some(Failed(EmptyTarget)))
    else match TokenName(call.arg.continuation, call.minted)
      case None => (s, Some(Failed(BadToken)))
      case Some(u) =>
        var (s1, written) := Write(s, u, call.arg.data);
        if !written then (s1, Some(Failed(Io)))
        else if call.arg.incomplete then (s1.(issued := s1.issued + {u}), Some(Continue(TokenBytes(u))))
        else (s1, None)
  }

  /** The walk in the read snapshot. Move and copy walk inside their write transaction instead. */
  function WalkStage(c: Config, s: State, call: Call): Result<Bytes, Error>
  {
    match call
    case MakeDirectoryCall(path) =>
      if path == [] then Err(EmptyTarget) else Locate(c.host, s.fs, CreatePath(c, path))
    case UploadCall(arg, _, _) =>
      if arg.path == [] then Err(EmptyTarget) else Locate(c.host, s.fs, CreatePath(c, arg.path))
    case AppendCall(path, _, _) => if path == [] then Err(EmptyTarget) else Locate(c.host, s.fs, Nfkd(c, path))
    case DeleteCall(path, _) => if path == [] then Err(EmptyTarget) else Locate(c.host, s.fs, Nfkd(c, path))
    case _ => Err(NoSuchPath)
  }

  /** The write transaction, which uses what the walk found. */
  function CommitStage(c: Config, s: State, call: Call, located: Result<Bytes, Error>): (State, Reply)
  {
    match call
    case MakeDirectoryCall(path) =>
      if path == [] then (s, Failed(EmptyTarget)) else MakeDirectoryAt(c, s, path, located)
    case UploadCall(arg, minted, sealed) =>
      var u := TokenName(arg.continuation, minted);
      if arg.path == [] || u.None? || u.value !in s.blobs || |arg.data| > MAX_FILE then (s, Failed(Io))
      else FinishUploadAt(c, s, arg, u.value, sealed, located)
    case AppendCall(_, expected, data) => AppendFound(c, s, FindAt(s.fs, located), expected, data)
    case DeleteCall(_, expected) => DeleteFound(c, s, FindAt(s.fs, located), expected)
    case MoveCall(path, expected, destination) => Move(c, s, path, expected, destination)
    case CopyCall(path, destination, minted) => Copy(c, s, path, destination, minted)
  }

  /** Run without interruption, the parts make up the call. */
  lemma PartsMakeCall(c: Config, s: State, call: Call)
    ensures var (s1, early) := WriteStage(s, call);
            Step(c, s, call) ==
            match early
            case Some(reply) => (s1, reply)
            case None => CommitStage(c, s1, call, WalkStage(c, s1, call))
  {
  }

  // ----- Calls that read -----

  /** Everything that a handler can be asked for. */
  datatype Request =
    | Modify(call: Call)
    | Download(path: Path, version: Option<U64>, offset: U64, length: U64)
    | List(path: Path)

  datatype Response =
    | Replied(reply: Reply)
    | Read(chunk: Result<Downloads.Chunk, Error>)
    | Listed(entries: Result<seq<Listings.Entry>, Error>)

  /** What a walk finds: a key, or a folder to list. */
  datatype Found = AtKey(key: Result<Bytes, Error>) | AtFolder(id: Result<U64, Error>)

  /** A request served without interruption. */
  ghost function Serve(c: Config, s: State, q: Request): (State, Response)
  {
    match q
    case Modify(call) =>
      var (s', reply) := Step(c, s, call);
      (s', Replied(reply))
    case Download(path, version, offset, length) => (s, Read(Downloads.Download(c, s, path, version, offset, length)))
    case List(path) => (s, Listed(Listings.List(c, s, path)))
  }

  ghost function ServeAll(c: Config, s: State, requests: seq<Request>): State
  {
    if requests == [] then s
    else Serve(c, ServeAll(c, s, Front(requests)), Last(requests)).0
  }

  function Begin(s: State, q: Request): (State, Option<Response>)
  {
    if !q.Modify? then (s, None)
    else
      var (s1, early) := WriteStage(s, q.call);
      (s1, if early.Some? then Some(Replied(early.value)) else None)
  }

  function LookUp(c: Config, s: State, q: Request): Found
  {
    match q
    case Modify(call) => AtKey(WalkStage(c, s, call))
    case Download(path, _, _, _) =>
      AtKey(if path == [] then Err(EmptyTarget) else Locate(c.host, s.fs, Nfkd(c, path)))
    case List(path) => AtFolder(Walk(c.host, s.fs, ListPath(c, path)))
  }

  /** The rest of a request: a write transaction, or reading rows and a blob. */
  ghost function Finish(c: Config, s: State, q: Request, found: Found): (State, Response)
  {
    match q
    case Modify(call) =>
      var (s', reply) := CommitStage(c, s, call, if found.AtKey? then found.key else Err(NoSuchPath));
      (s', Replied(reply))
    case Download(_, version, offset, length) =>
      var key := if found.AtKey? then found.key else Err(NoSuchPath);
      (s, Read(Downloads.DownloadFound(s, FindAt(s.fs, key), version, offset, length)))
    case List(_) => (s, Listed(Listings.ListFolder(s.fs, if found.AtFolder? then found.id else Err(NoSuchPath))))
  }

  lemma PartsMakeRequest(c: Config, s: State, q: Request)
    ensures var (s1, early) := Begin(s, q);
            Serve(c, s, q) ==
            match early
            case Some(response) => (s1, response)
            case None => Finish(c, s1, q, LookUp(c, s1, q))
  {
    hide Step, WriteStage, WalkStage, CommitStage, Locate, Walk;
    match q
    case Modify(call) =>
      PartsMakeCall(c, s, call);
      var (s1, early) := WriteStage(s, call);
      if early.None? {
        assert LookUp(c, s1, q) == AtKey(WalkStage(c, s1, call));
        assert Step(c, s, call) == CommitStage(c, s1, call, WalkStage(c, s1, call));
      } else {
        assert Step(c, s, call) == (s1, early.value);
      }
    case Download(path, _, _, _) =>
      assert FindAt(s.fs, LookUp(c, s, q).key) == FindFile(c, s, path);
    case List(path) =>
      assert Finish(c, s, q, LookUp(c, s, q)) == Serve(c, s, q);
  }

  // ----- Interleaved clients -----

  datatype Client =
    | Idle
    | Waiting(request: Request)                                      // for the mutex
    | Holding(request: Request)
    | Written(request: Request, early: Option<Response>)
    | Walked(request: Request, found: Found)

  datatype Answer = Answer(client: nat, request: Request, response: Response)

  /** `log` records the answers in the order in which they were given. */
  datatype Server = Server(store: State, holder: Option<nat>, clients: map<nat, Client>, log: seq<Answer>)

  datatype Action = Ask(client: nat, request: Request) | Acquire(client: nat) | Advance(client: nat)

  function ClientOf(v: Server, p: nat): Client
  {
    if p in v.clients then v.clients[p] else Idle
  }

  function Respond(v: Server, p: nat, q: Request, store: State, response: Response): Server
  {
    Server(store, None, v.clients[p := Idle], v.log + [Answer(p, q, response)])
  }

  /** One step of one client. An action that is not enabled changes nothing; with the mutex taken,
      Acquire is not enabled. */
  ghost function Act(c: Config, v: Server, a: Action): Server
  {
    var p := a.client;
    match (a, ClientOf(v, p))
    case (Ask(_, q), Idle) => v.(clients := v.clients[p := Waiting(q)])
    case (Acquire(_), Waiting(q)) =>
      if v.holder.Some? then v else v.(holder := Some(p), clients := v.clients[p := Holding(q)])
    case (Advance(_), Holding(q)) =>
      var (store, early) := Begin(v.store, q);
      v.(store := store, clients := v.clients[p := Written(q, early)])
    case (Advance(_), Written(q, Some(response))) => Respond(v, p, q, v.store, response)
    case (Advance(_), Written(q, None)) =>
      v.(clients := v.clients[p := Walked(q, LookUp(c, v.store, q))])
    case (Advance(_), Walked(q, found)) =>
      var (store, response) := Finish(c, v.store, q, found);
      Respond(v, p, q, store, response)
    case _ => v
  }

  ghost function Trace(c: Config, v: Server, actions: seq<Action>): Server
  {
    if actions == [] then v else Act(c, Trace(c, v, Front(actions)), Last(actions))
  }

  // ----- Serial order -----

  function Requests(log: seq<Answer>): (requests: seq<Request>)
    ensures |requests| == |log|
  {
    seq(|log|, i requires 0 <= i < |log| => log[i].request)
  }

  /** Every answer given so far is the one that its request gives when the requests are served one
      after the other in the order of the log. */
  ghost predicate SerialAnswers(c: Config, s: State, log: seq<Answer>)
  {
    log == [] ||
    var (before, last) := (Front(log), Last(log));
    SerialAnswers(c, s, before) && last.response == Serve(c, ServeAll(c, s, Requests(before)), last.request).1
  }

  ghost predicate Outside(client: Client)
  {
    client.Idle? || client.Waiting?
  }

  /** With the mutex free, the store is what the requests of the log make of it one after the other;
      with the mutex taken, it is that and the holder's part, and nobody else is inside. What the
      holder found on its walk is still what it would find now. */
  ghost predicate Serializable(c: Config, s: State, v: Server)
  {
    && SerialAnswers(c, s, v.log)
    && (forall p: nat :: v.holder != Some(p) ==> Outside(ClientOf(v, p)))
    && var base := ServeAll(c, s, Requests(v.log));
       if v.holder.None? then v.store == base
       else match ClientOf(v, v.holder.value)
         case Holding(_) => v.store == base
         case Written(q, early) => (v.store, early) == Begin(base, q)
         case Walked(q, found) => (v.store, None) == Begin(base, q) && found == LookUp(c, v.store, q)
         case _ => false
  }

  lemma LogRequest(c: Config, s: State, log: seq<Answer>, a: Answer)
    ensures ServeAll(c, s, Requests(log + [a])) == Serve(c, ServeAll(c, s, Requests(log)), a.request).0
    ensures SerialAnswers(c, s, log + [a]) <==>
            SerialAnswers(c, s, log) && a.response == Serve(c, ServeAll(c, s, Requests(log)), a.request).1
  {
    hide Serve;
    var longer := log + [a];
    assert longer[..|log|] == log;
    assert Requests(longer)[..|log|] == Requests(log);
  }

  /** The holder answers: its request joins the serial order. */
  lemma ResponseSerializes(c: Config, s: State, v: Server, p: nat, q: Request, store: State, response: Response)
    requires Serializable(c, s, v) && v.holder == Some(p)
    requires (store, response) == Serve(c, ServeAll(c, s, Requests(v.log)), q)
    ensures Serializable(c, s, Respond(v, p, q, store, response))
  {
    hide Serve, Begin, LookUp;
    LogRequest(c, s, v.log, Answer(p, q, response));
    forall other: nat
      ensures Outside(ClientOf(Respond(v, p, q, store, response), other))
    {
      assert other != p ==> Outside(ClientOf(v, other));
    }
  }

  lemma ActSerializes(c: Config, s: State, v: Server, a: Action)
    requires Serializable(c, s, v)
    ensures Serializable(c, s, Act(c, v, a))
  {
    hide Serve, Begin, LookUp, Finish, ServeAll, SerialAnswers;
    var p, v' := a.client, Act(c, v, a);
    var base := ServeAll(c, s, Requests(v.log));
    match (a, ClientOf(v, p))
    case (Advance(_), Written(q, Some(response))) =>
      PartsMakeRequest(c, base, q);
      ResponseSerializes(c, s, v, p, q, v.store, response);
    case (Advance(_), Walked(q, found)) =>
      PartsMakeRequest(c, base, q);
      ResponseSerializes(c, s, v, p, q, v'.store, Finish(c, v.store, q, found).1);
    case _ =>
      assert forall other: nat :: other != p ==> ClientOf(v', other) == ClientOf(v, other);
  }

  /** Every interleaving of clients is serializable: the answers given, and the store whenever the
      mutex is free, are those of the requests served one after the other. */
  lemma {:induction false} EveryTraceIsSerial(c: Config, s: State, actions: seq<Action>)
    ensures var v := Trace(c, Server(s, None, map[], []), actions);
            && SerialAnswers(c, s, v.log)
            && (v.holder.None? ==> v.store == ServeAll(c, s, Requests(v.log)))
            && Serializable(c, s, v)
  {
    hide Act;
    if actions != [] {
      EveryTraceIsSerial(c, s, Front(actions));
      ActSerializes(c, s, Trace(c, Server(s, None, map[], []), Front(actions)), Last(actions));
    }
  }

  // ----- Every request is served, once, as it was asked -----

  const EMPTY_SERVER := Server(EMPTY_STATE, None, map[], [])

  /** What a client has asked for: the requests of its `Ask` actions while it was idle, in order. */
  ghost function Asked(c: Config, v: Server, actions: seq<Action>, p: nat): seq<Request>
  {
    if actions == [] then []
    else
      var last := Last(actions);
      Asked(c, v, Front(actions), p) +
      (if last.Ask? && last.client == p && ClientOf(Trace(c, v, Front(actions)), p).Idle? then [last.request] else [])
  }

  /** What a client has been answered, in order. */
  function Answered(log: seq<Answer>, p: nat): seq<Request>
  {
    if log == [] then []
    else Answered(Front(log), p) + (if Last(log).client == p then [Last(log).request] else [])
  }

  /** What it is waiting for or being served. */
  function Outstanding(client: Client): seq<Request>
  {
    if client.Idle? then [] else [client.request]
  }

  lemma AnsweredSnoc(log: seq<Answer>, a: Answer, p: nat)
    ensures Answered(log + [a], p) == Answered(log, p) + (if a.client == p then [a.request] else [])
  {
    assert Front(log + [a]) == log;
  }

  lemma ActAnswers(c: Config, v: Server, a: Action, p: nat)
    ensures var v' := Act(c, v, a);
            Answered(v'.log, p) + Outstanding(ClientOf(v', p)) ==
            Answered(v.log, p) + Outstanding(ClientOf(v, p)) +
            (if a.Ask? && a.client == p && ClientOf(v, p).Idle? then [a.request] else [])
  {
    hide Begin, LookUp, Finish, Answered;
    match (a, ClientOf(v, a.client))
    case (Advance(q), Written(request, Some(response))) => AnsweredSnoc(v.log, Answer(q, request, response), p);
    case (Advance(q), Walked(request, found)) =>
      AnsweredSnoc(v.log, Answer(q, request, Finish(c, v.store, request, found).1), p);
    case _ =>
  }

  /** In every interleaving, what a client was answered, followed by what it is still waiting for, is
      exactly what it asked: no request is lost, changed, repeated or served out of turn. */
  lemma {:induction false} AnswersAreAsked(c: Config, actions: seq<Action>, p: nat)
    ensures var v := Trace(c, EMPTY_SERVER, actions);
            Answered(v.log, p) + Outstanding(ClientOf(v, p)) == Asked(c, EMPTY_SERVER, actions, p)
  {
    hide Act;
    if actions != [] {
      AnswersAreAsked(c, Front(actions), p);
      ActAnswers(c, Trace(c, EMPTY_SERVER, Front(actions)), Last(actions), p);
    }
  }

  /** Three steps of the client that holds the mutex. */
  ghost function ThreeSteps(c: Config, v: Server, p: nat): Server
  {
    Act(c, Act(c, Act(c, v, Advance(p)), Advance(p)), Advance(p))
  }

  /** From any state with the mutex free, a client that asks, takes the mutex and goes on is
      answered what its request gives when it is served at once. */
  lemma AskedIsServed(c: Config, v: Server, p: nat, q: Request)
    requires v.holder.None? && ClientOf(v, p).Idle?
    ensures var (store, response) := Serve(c, v.store, q);
            ThreeSteps(c, Act(c, Act(c, v, Ask(p, q)), Acquire(p)), p) ==
            Server(store, None, v.clients[p := Idle], v.log + [Answer(p, q, response)])
  {
    hide Begin, LookUp, Finish, Serve;
    PartsMakeRequest(c, v.store, q);
    var v2 := v.(holder := Some(p), clients := v.clients[p := Holding(q)]);
    assert Act(c, Act(c, v, Ask(p, q)), Acquire(p)) == v2;
    var (store, early) := Begin(v.store, q);
    assert v.clients[p := Holding(q)][p := Written(q, early)] == v.clients[p := Written(q, early)];
    if early.None? {
      var found := LookUp(c, store, q);
      assert v.clients[p := Written(q, early)][p := Walked(q, found)] == v.clients[p := Walked(q, found)];
      assert v.clients[p := Walked(q, found)][p := Idle] == v.clients[p := Idle];
    } else {
      assert v.clients[p := Written(q, early)][p := Idle] == v.clients[p := Idle];
    }
  }

  /** And whoever holds the mutex frees it within three steps of its own, so nobody waits for ever. */
  lemma HolderFinishes(c: Config, s: State, v: Server)
    requires Serializable(c, s, v) && v.holder.Some?
    ensures ThreeSteps(c, v, v.holder.value).holder.None?
  {
    hide Begin, LookUp, Finish, SerialAnswers;
  }

  // ----- Without the mutex -----

  /** The example's first order: with a/x made before the move, b/x is there already. */
  lemma MakingFirst(h: Host, s0: State, a: Bytes, b: Bytes, x: Bytes)
    requires a != b && s0 == State(map[MakeKey(0, a) := FolderRow(1, a)], 1, map[], map[], {})
    ensures var c := Repaired(h);
            var t2 := Step(c, Step(c, s0, MakeDirectoryCall([a, x])).0, MoveCall([a], None, [b])).0;
            Step(c, t2, MakeDirectoryCall([b, x])).1 == Failed(AlreadyExists)
  {
    hide MakeKey, KeyId, Walk, Locate, Nfkd, CreatePath, Step;
    var ka, kb, kx := MakeKey(0, a), MakeKey(0, b), MakeKey(KeyId(h, 1), x);
    MakeKeyInjective(0, a, 0, b);
    MakeKeyInjective(KeyId(h, 1), x, 0, a);
    MakeKeyInjective(KeyId(h, 1), x, 0, b);
    KeyIdOfRoot(h);
    KeyIdInjective(h, 1, 0);
    AtSecond(h, s0.fs, a, x);
    Making(h, REPAIRED, s0, [a, x], Ok(kx));
    var t1 := State(map[ka := FolderRow(1, a), kx := FolderRow(2, x)], 2, map[], map[], {});
    AtTop(h, t1.fs, a);
    AtTop(h, t1.fs, b);
    Moving(h, REPAIRED, t1, [a], ka, [b], kb);
    var t2 := State(map[kx := FolderRow(2, x), kb := FolderRow(1, b)], 2, map[], map[], {});
    assert (t1.fs - {ka})[kb := FolderRow(1, b)] == t2.fs;
    AtSecond(h, t2.fs, b, x);
    Making(h, REPAIRED, t2, [b, x], Ok(kx));
  }

  /** Here is why the mutex is held from the walk to the commit. While one client, making a/x, is
      between its walk and its commit, another moves a to b, makes b/x and deletes it again. All
      four calls succeed; but run one after the other, whichever place the first client's call
      takes among the other three, one of the four fails. */
  lemma WithoutMutexNotSerial(h: Host)
    ensures var (c, a: Bytes, b: Bytes, x: Bytes) := (Repaired(h), [97], [98], [120]);
            var make := MakeDirectoryCall([a, x]);
            var (move, remake, delete) :=
              (MoveCall([a], None, [b]), MakeDirectoryCall([b, x]), DeleteCall([b, x], None));
            var s0 := Step(c, EMPTY_STATE, MakeDirectoryCall([a])).0;
            var (s1, r1) := Step(c, s0, move);
            var (s2, r2) := Step(c, s1, remake);
            var (s3, r3) := Step(c, s2, delete);
            && r1 == r2 == r3 == Done && CommitStage(c, s3, make, WalkStage(c, s0, make)).1 == Done
            && Step(c, Step(c, Step(c, s0, make).0, move).0, remake).1 != Done
            && Step(c, s1, make).1 != Done && Step(c, s2, make).1 != Done && Step(c, s3, make).1 != Done
  {
    hide MakeKey, KeyId, Walk, Locate, Nfkd, CreatePath, Step;
    var a: Bytes, b: Bytes, x: Bytes := [97], [98], [120];
    var ka, kb, kx := MakeKey(0, a), MakeKey(0, b), MakeKey(KeyId(h, 1), x);
    MakeKeyInjective(0, a, 0, b);
    MakeKeyInjective(KeyId(h, 1), x, 0, a);
    MakeKeyInjective(KeyId(h, 1), x, 0, b);
    KeyIdOfRoot(h);
    KeyIdInjective(h, 1, 0);

    AtTop(h, EMPTY_STATE.fs, a);
    Making(h, REPAIRED, EMPTY_STATE, [a], Ok(ka));
    var s0 := State(map[ka := FolderRow(1, a)], 1, map[], map[], {});
    AtTop(h, s0.fs, a);
    AtTop(h, s0.fs, b);
    Moving(h, REPAIRED, s0, [a], ka, [b], kb);
    var s1 := State(map[kb := FolderRow(1, b)], 1, map[], map[], {});
    assert (s0.fs - {ka})[kb := FolderRow(1, b)] == s1.fs;
    AtSecond(h, s1.fs, b, x);
    Making(h, REPAIRED, s1, [b, x], Ok(kx));
    var s2 := State(map[kb := FolderRow(1, b), kx := FolderRow(2, x)], 2, map[], map[], {});
    AtSecond(h, s2.fs, b, x);
    Deleting(h, REPAIRED, s2, [b, x], kx);
    var s3 := State(map[kb := FolderRow(1, b)], 2, map[], map[], {});
    assert s2.fs - {kx} == s3.fs;
    SamePath(h, REPAIRED, [a, x]);
    AtSecond(h, s0.fs, a, x);

    AtSecond(h, s1.fs, a, x);
    Making(h, REPAIRED, s1, [a, x], Err(NoSuchPath));
    AtSecond(h, s2.fs, a, x);
    Making(h, REPAIRED, s2, [a, x], Err(NoSuchPath));
    AtSecond(h, s3.fs, a, x);
    Making(h, REPAIRED, s3, [a, x], Err(NoSuchPath));

    MakingFirst(h, s0, a, b, x);
  }
}
