/** The metadata fetcher, run sequentially. A fetcher holds a bounded FIFO
    queue, a running flag, and a registry mapping instance ids to the cancel
    handle of their fetch in progress. The resolver chain of one request
    runs the registered resolvers in order until one succeeds. Worker
    goroutines, blocking and the send timeout are replaced by explicit
    outcomes; cancellation observed by the chain is an input. */
module Fetcher {
  import opened Wrappers
  import opened Models
  import opened Seqs

  /** Capacity of the request channel. */
  const QueueCapacity := 100

  /** Worker count used when a non-positive one is asked for. */
  const DefaultWorkers := 2

  /** A cancel handle; handles are numbered in the order they are made. */
  type Handle = nat

  /** A resolver: its name and its answer to each request. */
  datatype Resolver = Resolver(name: string, resolve: FetchRequest -> Result<ResolvedMetadata>)

  /** `closed` records that the request channel has been closed by Stop;
      `fired` collects every handle whose cancel function has been called. */
  datatype Fetcher = Fetcher(
    queue: seq<FetchRequest>,
    closed: bool,
    workers: int,
    resolvers: seq<Resolver>,
    cancelMap: map<string, Handle>,
    fired: set<Handle>,
    running: bool,
    nextHandle: Handle)

  /** NewFetcher: a stopped fetcher with an empty open queue, no resolvers and
      an empty cancel registry. */
  function NewFetcher(workers: int): (f: Fetcher)
    ensures f.workers > 0
    ensures workers > 0 ==> f.workers == workers
    ensures workers <= 0 ==> f.workers == DefaultWorkers
    ensures f.queue == [] && !f.closed && !f.running
    ensures f.resolvers == [] && f.cancelMap == map[] && f.fired == {}
  {
    Fetcher([], false, if workers <= 0 then DefaultWorkers else workers, [], map[], {}, false, 0)
  }

  function RegisterResolver(f: Fetcher, r: Resolver): (g: Fetcher)
    ensures g.resolvers == f.resolvers + [r]
    ensures g.(resolvers := f.resolvers) == f
  {
    f.(resolvers := f.resolvers + [r])
  }

  /** Start: sets the running flag unless it is already set. The channel is
      the one NewFetcher made; Start does not reopen it. */
  function Start(f: Fetcher): (g: Fetcher)
    ensures g.running
    ensures f.running ==> g == f
    ensures g.(running := f.running) == f
  {
    if f.running then f else f.(running := true)
  }

  /** What Stop does: stop the fetcher, or panic closing the channel. */
  datatype Stopped =
    | Halted(f: Fetcher)
    | StopPanicked(msg: string)

  const CloseOfClosed := "close of closed channel"

  /** Stop as written: when running, clears the flag, fires every registered
      handle, empties the registry and closes the channel; workers then
      drain what is still buffered. A stopped fetcher is left as it is. A
      running fetcher whose channel an earlier Stop closed panics at the
      second close. */
  function Stop(f: Fetcher): (r: Stopped)
    ensures !f.running ==> r == Halted(f)
    ensures f.running && f.closed ==> r == StopPanicked(CloseOfClosed)
    ensures r.Halted? <==> !f.running || !f.closed
    ensures r.Halted? ==> !r.f.running
    ensures r.Halted? && f.running ==> r.f.cancelMap == map[] && r.f.closed
    ensures r.Halted? && f.running ==> r.f.fired == f.fired + f.cancelMap.Values
    ensures r.Halted? ==> r.f.queue == f.queue && r.f.resolvers == f.resolvers && r.f.workers == f.workers
  {
    if !f.running then Halted(f)
    else if f.closed then StopPanicked(CloseOfClosed)
    else Halted(f.(running := false, fired := f.fired + f.cancelMap.Values, cancelMap := map[], closed := true))
  }

  /** What a send on the request channel does. */
  datatype Sent =
    | Queued(f: Fetcher)
    | Refused(msg: string)
    | Panicked(msg: string)

  const NotRunning := "fetcher is not running"
  const QueueFull := "queue is full"
  const SendOnClosed := "send on closed channel"

  /** Queue as written: refused when not running, and refused as full when
      the buffer holds its capacity and no worker frees a slot within the
      timeout. A running fetcher whose channel Stop has closed panics. */
  function Queue(f: Fetcher, req: FetchRequest): (s: Sent)
    ensures !f.running ==> s == Refused(NotRunning)
    ensures f.running && f.closed ==> s.Panicked?
    ensures f.running && !f.closed && |f.queue| >= QueueCapacity ==> s == Refused(QueueFull)
    ensures s.Queued? <==> f.running && !f.closed && |f.queue| < QueueCapacity
    ensures s.Queued? ==> s.f == f.(queue := f.queue + [req])
  {
    if !f.running then Refused(NotRunning)
    else if f.closed then Panicked(SendOnClosed)
    else if |f.queue| >= QueueCapacity then Refused(QueueFull)
    else Queued(f.(queue := f.queue + [req]))
  }

  /** A worker receiving the next request: the oldest one. */
  function Receive(f: Fetcher): (r: Option<(FetchRequest, Fetcher)>)
    ensures r.None? <==> f.queue == []
    ensures r.Some? ==> [r.value.0] + r.value.1.queue == f.queue
    ensures r.Some? ==> r.value.1.(queue := f.queue) == f
  {
    if f.queue == [] then None else Some((f.queue[0], f.(queue := f.queue[1..])))
  }

  /** Cancel: fires and removes the handle of the instance when it has one. */
  function Cancel(f: Fetcher, instanceID: string): (g: Fetcher)
    ensures instanceID !in f.cancelMap ==> g == f
    ensures instanceID in f.cancelMap ==> g.fired == f.fired + {f.cancelMap[instanceID]}
    ensures g.cancelMap == f.cancelMap - {instanceID}
    ensures g.(cancelMap := f.cancelMap, fired := f.fired) == f
  {
    if instanceID in f.cancelMap then
      f.(fired := f.fired + {f.cancelMap[instanceID]}, cancelMap := f.cancelMap - {instanceID})
    else f
  }

  // ---------------------------------------------------------------------
  // The resolver chain

  datatype Outcome =
    | Resolved(resolver: string, meta: ResolvedMetadata)
    | CancelledRun
    | Exhausted

  /** `tried` is sourcesTried: the names of the resolvers that were invoked. */
  datatype ChainRun = ChainRun(tried: seq<string>, outcome: Outcome)

  function Names(rs: seq<Resolver>): (r: seq<string>)
    ensures |r| == |rs|
    ensures forall k :: 0 <= k < |rs| ==> r[k] == rs[k].name
  {
    seq(|rs|, k requires 0 <= k < |rs| => rs[k].name)
  }

  /** The context is seen as done before resolver number k (counting from
      the start of the chain) exactly when `cancelAt` is some c <= k. */
  predicate DoneBefore(cancelAt: Option<nat>, k: nat) {
    cancelAt.Some? && cancelAt.value <= k
  }

  /** The loop of processRequest, from resolver number `start` on. */
  function Chain(rs: seq<Resolver>, req: FetchRequest, cancelAt: Option<nat>, start: nat): (c: ChainRun)
    requires start <= |rs|
    decreases |rs| - start
  {
    if start == |rs| then ChainRun([], Exhausted)
    else if DoneBefore(cancelAt, start) then ChainRun([], CancelledRun)
    else
      match rs[start].resolve(req)
      case Ok(meta) => ChainRun([rs[start].name], Resolved(rs[start].name, meta))
      case Err(_) =>
        var rest := Chain(rs, req, cancelAt, start + 1);
        ChainRun([rs[start].name] + rest.tried, rest.outcome)
  }

  function RunChain(rs: seq<Resolver>, req: FetchRequest, cancelAt: Option<nat>): ChainRun {
    Chain(rs, req, cancelAt, 0)
  }

  predicate Fails(r: Resolver, req: FetchRequest) {
    r.resolve(req).Err?
  }

  /** How many resolvers the context lets the chain reach. */
  function Limit(rs: seq<Resolver>, cancelAt: Option<nat>): (n: nat)
    ensures n <= |rs|
    ensures forall k :: 0 <= k < |rs| ==> (k < n <==> !DoneBefore(cancelAt, k))
  {
    if cancelAt.Some? && cancelAt.value < |rs| then cancelAt.value else |rs|
  }

  /** Reference: the first resolver that succeeds answers, provided the
      context still lets the chain reach it; otherwise the chain is cut by
      cancellation or runs out of resolvers, having tried every resolver it
      reached. */
  function Reference(rs: seq<Resolver>, req: FetchRequest, cancelAt: Option<nat>): ChainRun {
    var n := Limit(rs, cancelAt);
    match IndexWhere(rs, (r: Resolver) => r.resolve(req).Ok?)
    case Some(k) =>
      if k < n then ChainRun(Names(rs)[..k + 1], Resolved(rs[k].name, rs[k].resolve(req).value))
      else if n < |rs| then ChainRun(Names(rs)[..n], CancelledRun)
      else ChainRun(Names(rs), Exhausted)
    case None =>
      if n < |rs| then ChainRun(Names(rs)[..n], CancelledRun) else ChainRun(Names(rs), Exhausted)
  }

  lemma NamesPrefix(rs: seq<Resolver>, n: nat)
    requires n < |rs|
    ensures Names(rs)[..n] + [rs[n].name] == Names(rs)[..n + 1]
  {
    var ns := Names(rs);
    assert ns[n] == rs[n].name;
    assert ns[..n + 1] == ns[..n] + [ns[n]];
  }

  /** The reference when resolver n is the first success and is reached. */
  lemma ReferenceHit(rs: seq<Resolver>, req: FetchRequest, cancelAt: Option<nat>, n: nat)
    requires n < Limit(rs, cancelAt) && rs[n].resolve(req).Ok?
    requires forall j :: 0 <= j < n ==> Fails(rs[j], req)
    ensures Reference(rs, req, cancelAt) == ChainRun(Names(rs)[..n + 1], Resolved(rs[n].name, rs[n].resolve(req).value))
  {
    var first := IndexWhere(rs, (r: Resolver) => r.resolve(req).Ok?);
  }

  /** The reference when no success comes before the cut at n. */
  lemma ReferenceMiss(rs: seq<Resolver>, req: FetchRequest, cancelAt: Option<nat>, n: nat)
    requires n == Limit(rs, cancelAt)
    requires forall j :: 0 <= j < n ==> Fails(rs[j], req)
    ensures n < |rs| ==> Reference(rs, req, cancelAt) == ChainRun(Names(rs)[..n], CancelledRun)
    ensures n == |rs| ==> Reference(rs, req, cancelAt) == ChainRun(Names(rs), Exhausted)
  {
    var first := IndexWhere(rs, (r: Resolver) => r.resolve(req).Ok?);
  }

  lemma {:induction false} ChainFrom(rs: seq<Resolver>, req: FetchRequest, cancelAt: Option<nat>, start: nat)
    requires start <= Limit(rs, cancelAt)
    requires forall j :: 0 <= j < start ==> Fails(rs[j], req)
    ensures Names(rs)[..start] + Chain(rs, req, cancelAt, start).tried == Reference(rs, req, cancelAt).tried
    ensures Chain(rs, req, cancelAt, start).outcome == Reference(rs, req, cancelAt).outcome
    decreases |rs| - start
  {
    if start == |rs| {
      ReferenceMiss(rs, req, cancelAt, start);
      assert Names(rs)[..start] == Names(rs);
    } else if DoneBefore(cancelAt, start) {
      ReferenceMiss(rs, req, cancelAt, start);
    } else if rs[start].resolve(req).Ok? {
      ReferenceHit(rs, req, cancelAt, start);
      NamesPrefix(rs, start);
    } else {
      ChainFrom(rs, req, cancelAt, start + 1);
      ChainFailStep(rs, req, cancelAt, start);
    }
  }

  /** A failing resolver adds its name and hands over to the next one. */
  lemma ChainFailStep(rs: seq<Resolver>, req: FetchRequest, cancelAt: Option<nat>, start: nat)
    requires start < |rs| && !DoneBefore(cancelAt, start) && Fails(rs[start], req)
    ensures Names(rs)[..start] + Chain(rs, req, cancelAt, start).tried
         == Names(rs)[..start + 1] + Chain(rs, req, cancelAt, start + 1).tried
    ensures Chain(rs, req, cancelAt, start).outcome == Chain(rs, req, cancelAt, start + 1).outcome
  {
    NamesPrefix(rs, start);
    var rest := Chain(rs, req, cancelAt, start + 1);
    assert Chain(rs, req, cancelAt, start).tried == [rs[start].name] + rest.tried;
    assert Names(rs)[..start] + ([rs[start].name] + rest.tried) == Names(rs)[..start + 1] + rest.tried;
  }

  /** processRequest's loop is the reference chain. */
  lemma ChainIsReference(rs: seq<Resolver>, req: FetchRequest, cancelAt: Option<nat>)
    ensures RunChain(rs, req, cancelAt) == Reference(rs, req, cancelAt)
  {
    ChainFrom(rs, req, cancelAt, 0);
    assert Names(rs)[..0] == [];
  }

  /** The chain stops at the first resolver that succeeds: sourcesTried is
      exactly the resolvers up to and including it, and no later resolver is
      invoked. */
  lemma FirstSuccessWins(rs: seq<Resolver>, req: FetchRequest, k: nat)
    requires k < |rs| && rs[k].resolve(req).Ok?
    requires forall j :: 0 <= j < k ==> Fails(rs[j], req)
    ensures RunChain(rs, req, None) == ChainRun(Names(rs)[..k + 1], Resolved(rs[k].name, rs[k].resolve(req).value))
  {
    ChainIsReference(rs, req, None);
  }

  /** When every resolver fails and nothing cancels the fetch, all of them
      are tried, in registration order. */
  lemma AllFailTriesAll(rs: seq<Resolver>, req: FetchRequest)
    requires forall j :: 0 <= j < |rs| ==> Fails(rs[j], req)
    ensures RunChain(rs, req, None) == ChainRun(Names(rs), Exhausted)
  {
    ChainIsReference(rs, req, None);
  }

  /** A fetch cancelled before resolver k never invokes it or any later one,
      and never resolves through them. */
  lemma CancelledStopsBefore(rs: seq<Resolver>, req: FetchRequest, k: nat)
    ensures |RunChain(rs, req, Some(k)).tried| <= k
  {
    ChainIsReference(rs, req, Some(k));
  }

  /** LocalCacheResolver: always fails, so a chain continues past it. */
  function LocalCache(): (r: Resolver)
    ensures r.name == "local_cache"
    ensures forall req :: Fails(r, req)
  {
    Resolver("local_cache", (req: FetchRequest) => Err("local cache only provides fallback data"))
  }

  /** Putting the local cache in front of a chain only records its name. */
  lemma LocalCacheTransparent(rs: seq<Resolver>, req: FetchRequest)
    ensures RunChain([LocalCache()] + rs, req, None)
         == ChainRun(["local_cache"] + RunChain(rs, req, None).tried, RunChain(rs, req, None).outcome)
  {
    ChainShift(LocalCache(), rs, req, 0);
  }

  lemma {:induction false} ChainShift(r: Resolver, rs: seq<Resolver>, req: FetchRequest, start: nat)
    requires start <= |rs|
    ensures Chain([r] + rs, req, None, start + 1) == Chain(rs, req, None, start)
    decreases |rs| - start
  {
    if start < |rs| {
      assert ([r] + rs)[start + 1] == rs[start];
      ChainShift(r, rs, req, start + 1);
    }
  }

  // ---------------------------------------------------------------------
  // One request

  /** processRequest: registers a fresh handle under the instance id, runs
      the chain, then removes that id from the registry and fires the
      handle. A handle already registered for the id is overwritten and
      never fired. The resolved metadata is discarded: the chain has no
      callback. */
  function ProcessRequest(f: Fetcher, req: FetchRequest, cancelAt: Option<nat>): (res: (Fetcher, ChainRun))
    ensures res.0.cancelMap == f.cancelMap - {req.instanceID}
    ensures res.0.fired == f.fired + {f.nextHandle}
    ensures res.0.nextHandle == f.nextHandle + 1
    ensures res.0.queue == f.queue && res.0.running == f.running && res.0.resolvers == f.resolvers
  {
    var h := f.nextHandle;
    var during := f.(cancelMap := f.cancelMap[req.instanceID := h], nextHandle := h + 1);
    var run := RunChain(f.resolvers, req, cancelAt);
    (during.(cancelMap := during.cancelMap - {req.instanceID}, fired := during.fired + {h}), run)
  }

  /** While a request runs, its handle is the one registered for its id, so
      Cancel of that id fires exactly it. */
  lemma CancelDuringRequest(f: Fetcher, req: FetchRequest)
    ensures var during := f.(cancelMap := f.cancelMap[req.instanceID := f.nextHandle], nextHandle := f.nextHandle + 1);
      Cancel(during, req.instanceID).fired == f.fired + {f.nextHandle} &&
      Cancel(during, req.instanceID).cancelMap == f.cancelMap - {req.instanceID}
  {
  }

  // ---------------------------------------------------------------------
  // State-machine lemmas

  lemma StartIdempotent(f: Fetcher)
    ensures Start(Start(f)) == Start(f)
  {
  }

  /** A completed Stop followed by another Stop changes nothing more. */
  lemma StopIdempotent(f: Fetcher)
    ensures Stop(f).Halted? ==> Stop(Stop(f).f) == Stop(f)
  {
  }

  /** After a completed Stop nothing can be queued. */
  lemma StoppedRefuses(f: Fetcher, req: FetchRequest)
    ensures Stop(f).Halted? ==> Queue(Stop(f).f, req) == Refused(NotRunning)
  {
  }

  /** Requests leave the queue in the order they were accepted. */
  lemma QueueThenReceive(f: Fetcher, a: FetchRequest, b: FetchRequest)
    requires f.running && !f.closed && f.queue == [] && QueueCapacity >= 2
    ensures Queue(f, a).Queued? && Queue(Queue(f, a).f, b).Queued?
    ensures Receive(Queue(Queue(f, a).f, b).f).Some?
    ensures Receive(Queue(Queue(f, a).f, b).f).value.0 == a
  {
  }

  /** A fresh fetcher that has been started accepts requests until the
      queue holds its capacity. */
  lemma FreshFetcherAccepts(workers: int, req: FetchRequest)
    ensures Queue(Start(NewFetcher(workers)), req).Queued?
  {
  }

  /** As written, restarting a stopped fetcher leaves its channel closed, so
      the next Queue panics instead of queueing or refusing. */
  lemma RestartPanics(workers: int, req: FetchRequest)
    ensures Stop(Start(NewFetcher(workers))).Halted?
    ensures Queue(Start(Stop(Start(NewFetcher(workers))).f), req).Panicked?
  {
  }

  /** As written, stopping a restarted fetcher closes the closed channel a
      second time, which panics. */
  lemma RestartStopPanics(workers: int)
    ensures Stop(Start(NewFetcher(workers))).Halted?
    ensures Stop(Start(Stop(Start(NewFetcher(workers))).f)) == StopPanicked(CloseOfClosed)
  {
  }

  /** Start as evidently intended: a start after a stop makes a new channel. */
  function StartFresh(f: Fetcher): (g: Fetcher)
    ensures g.running
    ensures f.running ==> g == f
    ensures !f.running ==> !g.closed
    ensures !f.running && !f.closed ==> g == Start(f)
  {
    if f.running then f
    else if f.closed then f.(running := true, closed := false, queue := [])
    else f.(running := true)
  }

  /** With the corrected start, a restarted fetcher accepts the next request
      and can be stopped again without a panic. */
  lemma StartFreshNeverPanics(f: Fetcher, req: FetchRequest)
    requires !f.closed
    ensures Stop(StartFresh(f)).Halted?
    ensures !Queue(StartFresh(Stop(StartFresh(f)).f), req).Panicked?
    ensures Queue(StartFresh(Stop(StartFresh(f)).f), req).Queued?
    ensures Stop(StartFresh(Stop(StartFresh(f)).f)).Halted?
  {
  }
}
