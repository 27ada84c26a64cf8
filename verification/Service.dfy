/** What the clients of the service see. Serialisability and refinement together: however their
    requests interleave, the answers are those of the file system on paths, in the order in which
    they were given. */
module Service {
  import opened Wrappers
  import opened Store
  import opened Invariant
  import opened AbstractFs
  import opened Refinement
  import opened Serial

  /** The file system on paths after one request; reading changes nothing. */
  ghost function AbsServe(c: Config, a: AbsState, q: Request): AbsState
  {
    if q.Modify? then AbsStep(c, a, q.call).0 else a
  }

  ghost function AbsServeAll(c: Config, a: AbsState, requests: seq<Request>): AbsState
  {
    if requests == [] then a else AbsServe(c, AbsServeAll(c, a, Front(requests)), Last(requests))
  }

  /** The answer that the file system on paths gives. */
  ghost predicate AbsResponds(c: Config, a: AbsState, q: Request, response: Response)
  {
    match q
    case Modify(call) => response == Replied(AbsStep(c, a, call).1)
    case Download(path, version, offset, length) =>
      response == Read(Downloads.AbsDownload(a.fs, Nfkd(c, path), version, offset, length))
    case List(path) => response.Listed? && Listings.AbsLists(a.fs, ListPath(c, path), response.entries)
  }

  /** Each answer of the log is the one that the file system on paths gives, after the requests that
      were answered before. */
  ghost predicate AbsAnswers(c: Config, a: AbsState, log: seq<Answer>)
  {
    log != [] ==>
      && AbsAnswers(c, a, Front(log))
      && AbsResponds(c, AbsServeAll(c, a, Requests(Front(log))), Last(log).request, Last(log).response)
  }

  /** The request is one that a client may make in the state in which it is served. */
  predicate MayAsk(s: State, q: Request)
  {
    q.Modify? ==> Admissible(s, q.call)
  }

  /** Disk and numbers last: the blob file that a call writes to has room for what it writes, and no
      counter is at its end. */
  ghost predicate Roomy(c: Config, s: State, q: Request)
  {
    !NumbersUsedUp(s) && (q.Modify? ==> !Overfills(s, WritesTo(c, s, q.call), DataOf(q.call)))
  }

  ghost predicate Orderly(c: Config, s: State, log: seq<Answer>)
  {
    log != [] ==>
      && Orderly(c, s, Front(log))
      && MayAsk(ServeAll(c, s, Requests(Front(log))), Last(log).request)
      && Roomy(c, ServeAll(c, s, Requests(Front(log))), Last(log).request)
  }

  lemma NotExhausted(c: Config, s: State, call: Call, reply: Reply)
    requires ExhaustedFor(s, WritesTo(c, s, call), DataOf(call), reply) && Roomy(c, s, Modify(call))
    ensures !Exhausted(reply)
  {
  }

  /** One request, modifying or reading. */
  lemma ServeRefines(c: Config, s: State, q: Request)
    requires Intended(c.rep) && Inv(c.host, s) && Hollow(s) && MayAsk(s, q) && Roomy(c, s, q)
    ensures var (s', response) := Serve(c, s, q);
            && Inv(c.host, s') && Hollow(s')
            && Abs(c.host, s') == AbsServe(c, Abs(c.host, s), q)
            && AbsResponds(c, Abs(c.host, s), q, response)
  {
    hide Step, AbsStep, Hollow, View, Admissible, Exhausted, Listings.AbsLists;
    match q
    case Modify(call) =>
      ExhaustedOnlyIf(c, s, call);
      NotExhausted(c, s, call, Step(c, s, call).1);
      StepRefines(c, s, call);
      StepKeeps(c, s, call);
      StepKeepsHollow(c, s, call);
    case Download(path, version, offset, length) =>
      Downloads.DownloadRefines(c, s, path, version, offset, length);
    case List(path) =>
      Listings.ListRefines(c, s, path);
  }

  lemma FrontOfRequests(log: seq<Answer>)
    requires log != []
    ensures Requests(log) != [] && Front(Requests(log)) == Requests(Front(log))
    ensures Last(Requests(log)) == Last(log).request
  {
  }

  lemma {:induction false} LogRefines(c: Config, log: seq<Answer>)
    requires Intended(c.rep) && SerialAnswers(c, EMPTY_STATE, log) && Orderly(c, EMPTY_STATE, log)
    ensures var s := ServeAll(c, EMPTY_STATE, Requests(log));
            && Inv(c.host, s) && Hollow(s)
            && Abs(c.host, s) == AbsServeAll(c, EMPTY_FS, Requests(log))
    ensures AbsAnswers(c, EMPTY_FS, log)
  {
    hide Serve, AbsServe, AbsResponds, Inv, Hollow, Abs, MayAsk, Roomy;
    if log == [] {
      InitiallyInv(c.host);
      EmptyLooksEmpty(c.host);
    } else {
      LogRefines(c, Front(log));
      FrontOfRequests(log);
      ServeRefines(c, ServeAll(c, EMPTY_STATE, Requests(Front(log))), Last(log).request);
    }
  }

  /** In every interleaving of clients on an empty store, as long as they present only tokens that
      they were given and disk and numbers last, each answer is the one that the file system on paths
      gives in the order of the answers, and whenever nobody holds the mutex the store shows what
      that file system holds. */
  lemma ClientsSeePaths(c: Config, actions: seq<Action>)
    requires Intended(c.rep)
    requires Orderly(c, EMPTY_STATE, Trace(c, Server(EMPTY_STATE, None, map[], []), actions).log)
    ensures var v := Trace(c, Server(EMPTY_STATE, None, map[], []), actions);
            && AbsAnswers(c, EMPTY_FS, v.log)
            && (v.holder.None? ==> Abs(c.host, v.store) == AbsServeAll(c, EMPTY_FS, Requests(v.log)))
  {
    hide Trace, AbsAnswers, AbsServeAll, ServeAll, Orderly, SerialAnswers, Serializable;
    EveryTraceIsSerial(c, EMPTY_STATE, actions);
    LogRefines(c, Trace(c, Server(EMPTY_STATE, None, map[], []), actions).log);
  }
}
