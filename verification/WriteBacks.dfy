/**
 Concurrent use of one router: any number of Get calls and the cache workers,
 interleaved command by command. Every redis command, every hand-over on the
 unbuffered feed channel and every return is one step.
 */
module WriteBacks {
  import opened Prelude
  import opened Pools
  import opened Routers

  const COMMIT_WORKERS: nat := 100

  /******* The order in which a Get tries destinations *******/

  datatype Cand = Cand(pool: string, host: string)

  function CandsOf(pool: string, dests: seq<Destination>): seq<Cand> {
    seq(|dests|, i requires 0 <= i < |dests| => Cand(pool, dests[i].host))
  }

  // Destinations of the pools in lookup order, up to the first pool that does not exist.
  function Candidates(pools: map<string, seq<Rule>>, lookup: seq<string>, key: Bytes): seq<Cand>
    requires KeyFits(pools, key)
  {
    if lookup == [] || lookup[0] !in pools then []
    else CandsOf(lookup[0], RoutesOf(pools[lookup[0]], key)) + Candidates(pools, lookup[1..], key)
  }

  function EndError(t: Table): Error {
    if forall n :: n in t.lookup ==> n in t.pools then NotRoutable else PoolNotFound
  }

  function Cands(t: Table, key: Bytes): seq<Cand>
    requires KeyFits(t.pools, key)
  {
    Candidates(t.pools, t.lookup, key)
  }

  /******* State *******/

  // clean: no destination was given up after three lost commands.
  // snap: what the servers held when the call was made (history only).
  datatype Caller =
    | Scanning(key: Bytes, pos: nat, trial: nat, clean: bool, snap: Stores)
    | Offering(key: Bytes, src: nat, data: Bytes, clean: bool, snap: Stores)
    | Returned(key: Bytes, src: nat, data: Bytes, clean: bool, snap: Stores)
    | Refused(key: Bytes, error: Error, clean: bool, snap: Stores)

  datatype Worker =
    | Idle
    | Committing(key: Bytes, data: Bytes, src: nat, todo: set<string>, clean: bool)

  datatype State = State(stores: Stores, callers: seq<Caller>, workers: seq<Worker>)

  datatype Step =
    | Call(key: Bytes)
    | Query(c: nat, lost: bool)
    | GiveUp(c: nat)
    | HandOver(c: nat, w: nat)
    | Commit(w: nat, name: string, lost: bool, applied: bool)
    | Finish(w: nat)

  function Start(stores: Stores): State {
    State(stores, [], seq(COMMIT_WORKERS, _ => Idle))
  }

  ghost predicate Enabled(t: Table, s: State, step: Step) {
    match step
    case Call(key) => KeyFits(t.pools, key)
    case Query(c, _) => c < |s.callers| && s.callers[c].Scanning? && KeyFits(t.pools, s.callers[c].key)
                        && s.callers[c].pos < |Cands(t, s.callers[c].key)|
    case GiveUp(c) => c < |s.callers| && s.callers[c].Scanning? && KeyFits(t.pools, s.callers[c].key)
                      && s.callers[c].pos >= |Cands(t, s.callers[c].key)|
    case HandOver(c, w) => c < |s.callers| && s.callers[c].Offering? && w < |s.workers| && s.workers[w].Idle?
    case Commit(w, name, _, _) => w < |s.workers| && s.workers[w].Committing? && name in s.workers[w].todo
                                 && name in t.pools && ScanFits(t.pools[name], s.workers[w].key)
    case Finish(w) => w < |s.workers| && s.workers[w].Committing? && s.workers[w].todo == {}
  }

  ghost function Queried(t: Table, s: State, caller: Caller, lost: bool): Caller
    requires caller.Scanning? && KeyFits(t.pools, caller.key) && caller.pos < |Cands(t, caller.key)|
  {
    var cand := Cands(t, caller.key)[caller.pos];
    if lost then
      if caller.trial < BLOCK_GET_RETRIES then caller.(trial := caller.trial + 1)
      else caller.(pos := caller.pos + 1, trial := 1, clean := false)
    else match ReplyOf(s.stores, cand.host, caller.key)
      case Data(data) =>
        if cand.pool in t.cache then Returned(caller.key, caller.pos, data, caller.clean, caller.snap)
        else Offering(caller.key, caller.pos, data, caller.clean, caller.snap)
      case _ => caller.(pos := caller.pos + 1, trial := 1)
  }

  ghost function Apply(t: Table, s: State, step: Step): State
    requires Enabled(t, s, step)
  {
    match step
    case Call(key) => s.(callers := s.callers + [Scanning(key, 0, 1, true, s.stores)])
    case Query(c, lost) => s.(callers := s.callers[c := Queried(t, s, s.callers[c], lost)])
    case GiveUp(c) =>
      var caller := s.callers[c];
      s.(callers := s.callers[c := Refused(caller.key, EndError(t), caller.clean, caller.snap)])
    case HandOver(c, w) =>
      var caller := s.callers[c];
      s.(callers := s.callers[c := Returned(caller.key, caller.src, caller.data, caller.clean, caller.snap)],
         workers := s.workers[w := Committing(caller.key, caller.data, caller.src, t.cache, true)])
    case Commit(w, name, lost, applied) =>
      var worker := s.workers[w];
      var rest := worker.(todo := worker.todo - {name});
      var route := RouteOf(t.pools[name], worker.key);
      if route.None? then s.(workers := s.workers[w := rest])
      else
        State(if lost && !applied then s.stores else Put(s.stores, route.value.host, worker.key, worker.data),
              s.callers, s.workers[w := rest.(clean := worker.clean && !lost)])
    case Finish(w) => s.(workers := s.workers[w := Idle])
  }

  ghost predicate Reaches(t: Table, s: State, steps: seq<Step>, s': State)
    decreases |steps|
  {
    if steps == [] then s == s'
    else Enabled(t, s, steps[0]) && Reaches(t, Apply(t, s, steps[0]), steps[1..], s')
  }

  /******* Agreement *******/

  // Every server that holds a key holds the same block for it.
  ghost predicate Agree(stores: Stores, truth: map<Bytes, Bytes>) {
    forall h: string, k: Bytes :: Holds(stores, h, k) ==> k in truth && Server(stores, h)[k] == truth[k]
  }

  ghost predicate Grown(old_: Stores, new_: Stores) {
    forall h: string, k: Bytes :: Holds(old_, h, k) ==> Holds(new_, h, k)
  }

  // Some destination that a lookup tries holds the key.
  ghost predicate Reachable(t: Table, stores: Stores, key: Bytes)
    requires KeyFits(t.pools, key)
  {
    exists i :: 0 <= i < |Cands(t, key)| && Holds(stores, Cands(t, key)[i].host, key)
  }

  ghost predicate Missed(t: Table, stores: Stores, key: Bytes, upto: nat)
    requires KeyFits(t.pools, key)
  {
    forall i :: 0 <= i < upto && i < |Cands(t, key)| ==> !Holds(stores, Cands(t, key)[i].host, key)
  }

  // A block that a call obtained from position src.
  ghost predicate Found(t: Table, init: Stores, truth: map<Bytes, Bytes>, key: Bytes, src: nat, data: Bytes)
    requires KeyFits(t.pools, key)
  {
    && src < |Cands(t, key)|
    && key in truth && data == truth[key]
    && Reachable(t, init, key)
  }

  ghost predicate CallerOk(t: Table, init: Stores, truth: map<Bytes, Bytes>, stores: Stores, c: Caller) {
    && KeyFits(t.pools, c.key)
    && Grown(init, c.snap) && Grown(c.snap, stores)
    && match c
       case Scanning(key, pos, trial, clean, snap) =>
         pos <= |Cands(t, key)| && 1 <= trial <= BLOCK_GET_RETRIES && (clean ==> Missed(t, snap, key, pos))
       case Offering(key, src, data, clean, snap) =>
         && Found(t, init, truth, key, src, data) && Cands(t, key)[src].pool !in t.cache
         && (clean ==> Missed(t, snap, key, src))
       case Returned(key, src, data, clean, snap) =>
         Found(t, init, truth, key, src, data) && (clean ==> Missed(t, snap, key, src))
       case Refused(key, error, clean, snap) =>
         error == EndError(t) && (clean ==> Missed(t, snap, key, |Cands(t, key)|))
  }

  ghost predicate WorkerOk(t: Table, init: Stores, truth: map<Bytes, Bytes>, stores: Stores, w: Worker) {
    w.Committing? ==>
      && KeyFits(t.pools, w.key)
      && Found(t, init, truth, w.key, w.src, w.data)
      && Cands(t, w.key)[w.src].pool !in t.cache
      && w.todo <= t.cache
      && (w.clean ==> forall n :: n in t.cache - w.todo ==> Cached(t, stores, n, w.key))
  }

  // The pool would answer the key, if it routes it at all.
  ghost predicate Cached(t: Table, stores: Stores, name: string, key: Bytes) {
    name in t.pools && ScanFits(t.pools[name], key) &&
    (RouteOf(t.pools[name], key).Some? ==> Holds(stores, RouteOf(t.pools[name], key).value.host, key))
  }

  // A commit that is not lost puts the worker's block on the routed server of the pool
  // and nothing else anywhere; a lost one does that or nothing. Either way the pool is
  // done with.
  lemma CommitWrites(t: Table, s: State, w: nat, name: string, lost: bool, applied: bool)
    requires Enabled(t, s, Commit(w, name, lost, applied))
    ensures var worker, next := s.workers[w], Apply(t, s, Commit(w, name, lost, applied));
      var route, key := RouteOf(t.pools[name], worker.key), worker.key;
      && next.callers == s.callers && |next.workers| == |s.workers|
      && (forall v :: 0 <= v < |s.workers| && v != w ==> next.workers[v] == s.workers[v])
      && next.workers[w].Committing? && next.workers[w].todo == worker.todo - {name}
      && next.workers[w].key == key && next.workers[w].data == worker.data && next.workers[w].src == worker.src
      && (forall h: string, k: Bytes :: Holds(s.stores, h, k) && (route.None? || h != route.value.host || k != key) ==>
            Holds(next.stores, h, k) && Server(next.stores, h)[k] == Server(s.stores, h)[k])
      && (forall h: string, k: Bytes :: Holds(next.stores, h, k) && !Holds(s.stores, h, k) ==>
            route.Some? && h == route.value.host && k == key)
      && (route.Some? && !lost ==>
            Holds(next.stores, route.value.host, key) && Server(next.stores, route.value.host)[key] == worker.data)
      && (lost && !applied ==> next.stores == s.stores)
  {}

  // Nothing was added but keys that were reachable from the start.
  ghost predicate OnlyReachableAdded(t: Table, init: Stores, stores: Stores) {
    forall h: string, k: Bytes :: Holds(stores, h, k) && !Holds(init, h, k) ==>
      KeyFits(t.pools, k) && Reachable(t, init, k)
  }

  ghost predicate Inv(t: Table, init: Stores, truth: map<Bytes, Bytes>, s: State) {
    && Agree(s.stores, truth) && Grown(init, s.stores) && OnlyReachableAdded(t, init, s.stores)
    && (forall c :: 0 <= c < |s.callers| ==> CallerOk(t, init, truth, s.stores, s.callers[c]))
    && (forall w :: 0 <= w < |s.workers| ==> WorkerOk(t, init, truth, s.stores, s.workers[w]))
  }

  lemma PutGrows(stores: Stores, host: string, key: Bytes, data: Bytes)
    ensures Grown(stores, Put(stores, host, key, data))
    ensures Holds(Put(stores, host, key, data), host, key)
    ensures forall h: string, k: Bytes :: Holds(Put(stores, host, key, data), h, k) && (h != host || k != key) ==>
              Holds(stores, h, k) && Server(Put(stores, host, key, data), h)[k] == Server(stores, h)[k]
  {}

  lemma InvStep(t: Table, init: Stores, truth: map<Bytes, Bytes>, s: State, step: Step)
    requires Closed(t) && Inv(t, init, truth, s) && Enabled(t, s, step)
    ensures Inv(t, init, truth, Apply(t, s, step))
  {
    match step
    case Call(key) =>
    case Query(c, lost) => QueryKeepsCaller(t, init, truth, s, c, lost);
    case GiveUp(c) =>
    case HandOver(c, w) => assert CallerOk(t, init, truth, s.stores, s.callers[c]);
    case Commit(w, name, lost, applied) => CommitKeepsInv(t, init, truth, s, w, name, lost, applied);
    case Finish(w) =>
  }

  lemma LostKeepsCaller(t: Table, init: Stores, truth: map<Bytes, Bytes>, s: State, caller: Caller)
    requires caller.Scanning? && CallerOk(t, init, truth, s.stores, caller) && caller.pos < |Cands(t, caller.key)|
    ensures CallerOk(t, init, truth, s.stores, Queried(t, s, caller, true))
  {}

  lemma MissKeepsCaller(t: Table, init: Stores, truth: map<Bytes, Bytes>, s: State, caller: Caller)
    requires caller.Scanning? && CallerOk(t, init, truth, s.stores, caller) && caller.pos < |Cands(t, caller.key)|
    requires !Holds(s.stores, Cands(t, caller.key)[caller.pos].host, caller.key)
    ensures CallerOk(t, init, truth, s.stores, Queried(t, s, caller, false))
  {
    assert !Holds(caller.snap, Cands(t, caller.key)[caller.pos].host, caller.key);
  }

  lemma FindKeepsCaller(t: Table, init: Stores, truth: map<Bytes, Bytes>, s: State, caller: Caller)
    requires Agree(s.stores, truth) && OnlyReachableAdded(t, init, s.stores)
    requires caller.Scanning? && CallerOk(t, init, truth, s.stores, caller) && caller.pos < |Cands(t, caller.key)|
    requires Holds(s.stores, Cands(t, caller.key)[caller.pos].host, caller.key)
    ensures CallerOk(t, init, truth, s.stores, Queried(t, s, caller, false))
  {
    var host := Cands(t, caller.key)[caller.pos].host;
    assert Reachable(t, init, caller.key) by {
      if Holds(init, host, caller.key) {}
    }
  }

  lemma QueryKeepsCaller(t: Table, init: Stores, truth: map<Bytes, Bytes>, s: State, c: nat, lost: bool)
    requires Inv(t, init, truth, s) && Enabled(t, s, Query(c, lost))
    ensures CallerOk(t, init, truth, s.stores, Queried(t, s, s.callers[c], lost))
  {
    var caller := s.callers[c];
    assert CallerOk(t, init, truth, s.stores, caller);
    if lost {
      LostKeepsCaller(t, init, truth, s, caller);
    } else if Holds(s.stores, Cands(t, caller.key)[caller.pos].host, caller.key) {
      FindKeepsCaller(t, init, truth, s, caller);
    } else {
      MissKeepsCaller(t, init, truth, s, caller);
    }
  }

  lemma CommitKeepsInv(t: Table, init: Stores, truth: map<Bytes, Bytes>, s: State, w: nat, name: string, lost: bool,
          applied: bool)
    requires Closed(t) && Inv(t, init, truth, s) && Enabled(t, s, Commit(w, name, lost, applied))
    ensures Inv(t, init, truth, Apply(t, s, Commit(w, name, lost, applied)))
  {
    var worker := s.workers[w];
    var s' := Apply(t, s, Commit(w, name, lost, applied));
    assert WorkerOk(t, init, truth, s.stores, worker);
    var route := RouteOf(t.pools[name], worker.key);
    if route.Some? {
      PutGrows(s.stores, route.value.host, worker.key, worker.data);
    }
    assert Grown(s.stores, s'.stores);
    forall c | 0 <= c < |s'.callers| ensures CallerOk(t, init, truth, s'.stores, s'.callers[c]) {
      assert CallerOk(t, init, truth, s.stores, s.callers[c]);
    }
    forall v | 0 <= v < |s'.workers| ensures WorkerOk(t, init, truth, s'.stores, s'.workers[v]) {
      assert WorkerOk(t, init, truth, s.stores, s.workers[v]);
      var now := s'.workers[v];
      if now.Committing? && now.clean {
        forall n | n in t.cache - now.todo ensures Cached(t, s'.stores, n, now.key) {
          if v == w && n == name {
            assert route.Some? ==> !lost;
          } else {
            assert Cached(t, s.stores, n, now.key);
          }
        }
      }
    }
  }

  lemma {:induction false} InvRun(t: Table, init: Stores, truth: map<Bytes, Bytes>, s: State, steps: seq<Step>,
          s': State)
    requires Closed(t) && Inv(t, init, truth, s) && Reaches(t, s, steps, s')
    ensures Inv(t, init, truth, s')
    decreases |steps|
  {
    if steps != [] {
      InvStep(t, init, truth, s, steps[0]);
      InvRun(t, init, truth, Apply(t, s, steps[0]), steps[1..], s');
    }
  }

  // What a later state keeps of an earlier one: the keys that servers hold, and of
  // each call its key and what the servers held when it was made.
  ghost predicate Later(s: State, s': State) {
    && Grown(s.stores, s'.stores)
    && |s.callers| <= |s'.callers|
    && (forall c :: 0 <= c < |s.callers| ==>
          s'.callers[c].snap == s.callers[c].snap && s'.callers[c].key == s.callers[c].key)
    && (forall c :: |s.callers| <= c < |s'.callers| ==> Grown(s.stores, s'.callers[c].snap))
  }

  lemma LaterStep(t: Table, s: State, step: Step)
    requires Enabled(t, s, step)
    ensures Later(s, Apply(t, s, step))
  {
    if step.Commit? {
      var worker := s.workers[step.w];
      var route := RouteOf(t.pools[step.name], worker.key);
      if route.Some? {
        PutGrows(s.stores, route.value.host, worker.key, worker.data);
      }
    }
  }

  lemma LaterInTwo(a: State, b: State, c: State)
    requires Later(a, b) && Later(b, c)
    ensures Later(a, c)
  {}

  lemma {:induction false} LaterRun(t: Table, s: State, steps: seq<Step>, s': State)
    requires Reaches(t, s, steps, s')
    ensures Later(s, s')
    decreases |steps|
  {
    if steps != [] {
      var next := Apply(t, s, steps[0]);
      LaterStep(t, s, steps[0]);
      LaterRun(t, next, steps[1..], s');
      LaterInTwo(s, next, s');
    }
  }

  lemma InvStarts(t: Table, stores: Stores, truth: map<Bytes, Bytes>)
    requires Agree(stores, truth)
    ensures Inv(t, stores, truth, Start(stores))
  {}

  /******* Results over every run *******/

  // The cache changes nothing that a caller can see. In every reachable state the
  // servers agree, every block in flight or returned is the agreed one, and a call
  // that gave no destination up succeeds iff its key was reachable at the start.
  lemma Transparency(t: Table, stores: Stores, truth: map<Bytes, Bytes>, steps: seq<Step>, s: State)
    requires Closed(t) && Agree(stores, truth) && Reaches(t, Start(stores), steps, s)
    ensures Agree(s.stores, truth)
    ensures forall w :: 0 <= w < |s.workers| && s.workers[w].Committing? ==>
              s.workers[w].key in truth && s.workers[w].data == truth[s.workers[w].key]
    ensures forall c :: 0 <= c < |s.callers| ==> KeyFits(t.pools, s.callers[c].key)
    ensures forall c :: 0 <= c < |s.callers| && s.callers[c].Returned? ==>
              && s.callers[c].key in truth && s.callers[c].data == truth[s.callers[c].key]
              && Reachable(t, stores, s.callers[c].key)
    ensures forall c :: 0 <= c < |s.callers| && s.callers[c].Refused? && s.callers[c].clean ==>
              !Reachable(t, stores, s.callers[c].key) && s.callers[c].error == NotRoutable
    ensures forall key :: KeyFits(t.pools, key) ==> (Reachable(t, s.stores, key) <==> Reachable(t, stores, key))
  {
    InvStarts(t, stores, truth);
    InvRun(t, stores, truth, Start(stores), steps, s);
    forall w | 0 <= w < |s.workers| && s.workers[w].Committing?
      ensures s.workers[w].key in truth && s.workers[w].data == truth[s.workers[w].key]
    {
      assert WorkerOk(t, stores, truth, s.stores, s.workers[w]);
    }
    forall c | 0 <= c < |s.callers| ensures CallerOk(t, stores, truth, s.stores, s.callers[c]) {}
    forall key | KeyFits(t.pools, key) && Reachable(t, s.stores, key) ensures Reachable(t, stores, key) {
      var i :| 0 <= i < |Cands(t, key)| && Holds(s.stores, Cands(t, key)[i].host, key);
      if Holds(stores, Cands(t, key)[i].host, key) {}
    }
  }

  // A clean worker that is done, and a clean call after it: see WriteBackRuns for
  // what makes them clean.
  lemma CleanCommitIsFound(t: Table, stores: Stores, truth: map<Bytes, Bytes>, before: seq<Step>, s: State, w: nat,
                             after: seq<Step>, s': State, c: nat, j: nat)
    requires Closed(t) && Agree(stores, truth) && Reaches(t, Start(stores), before, s) && Reaches(t, s, after, s')
    requires w < |s.workers| && s.workers[w].Committing? && s.workers[w].todo == {} && s.workers[w].clean
    requires |s.callers| <= c < |s'.callers| && s'.callers[c].key == s.workers[w].key && s'.callers[c].clean
    requires KeyFits(t.pools, s.workers[w].key) && j < |Cands(t, s.workers[w].key)|
    requires Cands(t, s.workers[w].key)[j].pool in t.cache
    requires RouteOfCand(t, s.workers[w].key, j)
    ensures !s'.callers[c].Refused?
    ensures s'.callers[c].Returned? || s'.callers[c].Offering? ==> s'.callers[c].src <= j
  {
    InvStarts(t, stores, truth);
    InvRun(t, stores, truth, Start(stores), before, s);
    InvRun(t, stores, truth, s, after, s');
    LaterRun(t, s, after, s');
    var key := s.workers[w].key;
    assert WorkerOk(t, stores, truth, s.stores, s.workers[w]);
    assert Cached(t, s.stores, Cands(t, key)[j].pool, key);
    assert Holds(s.stores, Cands(t, key)[j].host, key);
    assert CallerOk(t, stores, truth, s'.stores, s'.callers[c]);
    assert Holds(s'.callers[c].snap, Cands(t, key)[j].host, key);
  }

  // Position j is the first destination of its pool for the key, the one that is written.
  ghost predicate RouteOfCand(t: Table, key: Bytes, j: nat)
    requires KeyFits(t.pools, key) && j < |Cands(t, key)|
  {
    var cand := Cands(t, key)[j];
    && cand.pool in t.pools && ScanFits(t.pools[cand.pool], key)
    && RouteOf(t.pools[cand.pool], key).Some? && RouteOf(t.pools[cand.pool], key).value.host == cand.host
  }

  lemma CacheAnswersAreNotFed(t: Table, stores: Stores, truth: map<Bytes, Bytes>, steps: seq<Step>, s: State, w: nat)
    requires Closed(t) && Agree(stores, truth) && Reaches(t, Start(stores), steps, s)
    requires w < |s.workers| && s.workers[w].Committing?
    ensures KeyFits(t.pools, s.workers[w].key) && s.workers[w].src < |Cands(t, s.workers[w].key)|
    ensures Cands(t, s.workers[w].key)[s.workers[w].src].pool !in t.cache
  {
    InvStarts(t, stores, truth);
    InvRun(t, stores, truth, Start(stores), steps, s);
    assert WorkerOk(t, stores, truth, s.stores, s.workers[w]);
  }

  // The worker's next step: any of its cache pools is there to be written to.
  ghost predicate CanWork(t: Table, s: State, w: nat) {
    && w < |s.workers| && s.workers[w].Committing?
    && if s.workers[w].todo == {} then Enabled(t, s, Finish(w))
       else forall n, lost, applied :: n in s.workers[w].todo ==> Enabled(t, s, Commit(w, n, lost, applied))
  }

  // No worker meets a missing pool, and an unfinished call can always move: by its
  // own step, or, when it offers its chunk, by handing it to any worker that is not
  // at work, while each that is can go on.
  lemma AlwaysProgress(t: Table, stores: Stores, truth: map<Bytes, Bytes>, steps: seq<Step>, s: State)
    requires Closed(t) && Agree(stores, truth) && Reaches(t, Start(stores), steps, s)
    ensures |s.workers| == 100
    ensures forall w: nat :: w < |s.workers| && s.workers[w].Committing? ==> CanWork(t, s, w)
    ensures forall c: nat :: c < |s.callers| && s.callers[c].Scanning? ==>
              Enabled(t, s, GiveUp(c)) || forall lost :: Enabled(t, s, Query(c, lost))
    ensures forall c: nat, w: nat :: c < |s.callers| && s.callers[c].Offering? && w < |s.workers| ==>
              if s.workers[w].Idle? then Enabled(t, s, HandOver(c, w)) else CanWork(t, s, w)
  {
    InvStarts(t, stores, truth);
    InvRun(t, stores, truth, Start(stores), steps, s);
    WorkersStay(t, Start(stores), steps, s);
    forall w: nat | w < |s.workers| && s.workers[w].Committing? ensures CanWork(t, s, w) {
      assert WorkerOk(t, stores, truth, s.stores, s.workers[w]);
      forall n | n in s.workers[w].todo ensures n in t.pools && ScanFits(t.pools[n], s.workers[w].key) {
        FitsAllScans(t.pools[n], s.workers[w].key);
      }
    }
    forall c | 0 <= c < |s.callers| ensures CallerOk(t, stores, truth, s.stores, s.callers[c]) {}
  }

  lemma {:induction false} WorkersStay(t: Table, s: State, steps: seq<Step>, s': State)
    requires Reaches(t, s, steps, s')
    ensures |s'.workers| == |s.workers|
    decreases |steps|
  {
    if steps != [] {
      WorkersStay(t, Apply(t, s, steps[0]), steps[1..], s');
    }
  }

  /******* One call alone is the ordered lookup *******/

  // The first candidate that holds the key, or the end of the lookup.
  ghost function FirstCand(cands: seq<Cand>, end: Error, stores: Stores, key: Bytes): Result<Hit, Error> {
    if cands == [] then Err(end)
    else if Holds(stores, cands[0].host, key) then Ok(Hit(cands[0].pool, Server(stores, cands[0].host)[key]))
    else FirstCand(cands[1..], end, stores, key)
  }

  lemma {:induction false} FirstCandOfPool(pool: string, dests: seq<Destination>, rest: seq<Cand>, end: Error,
          stores: Stores, key: Bytes)
    ensures FirstCand(CandsOf(pool, dests) + rest, end, stores, key)
         == match FirstHeld(dests, stores, key)
            case Some(data) => Ok(Hit(pool, data))
            case None => FirstCand(rest, end, stores, key)
  {
    var all := CandsOf(pool, dests) + rest;
    if dests == [] {
      assert all == rest;
    } else {
      assert all[1..] == CandsOf(pool, dests[1..]) + rest;
      FirstCandOfPool(pool, dests[1..], rest, end, stores, key);
    }
  }

  // The order of the steps above is the order of the router's lookup.
  lemma {:induction false} CandidatesAnswer(pools: map<string, seq<Rule>>, lookup: seq<string>, stores: Stores,
          key: Bytes)
    requires KeyFits(pools, key)
    ensures Answer(pools, lookup, stores, key)
         == FirstCand(Candidates(pools, lookup, key), EndError(Table(pools, lookup, {})), stores, key)
  {
    if lookup != [] && lookup[0] in pools {
      CandidatesAnswer(pools, lookup[1..], stores, key);
      assert EndError(Table(pools, lookup, {})) == EndError(Table(pools, lookup[1..], {})) by {
        assert lookup == [lookup[0]] + lookup[1..];
      }
      FirstCandOfPool(lookup[0], RoutesOf(pools[lookup[0]], key), Candidates(pools, lookup[1..], key),
                      EndError(Table(pools, lookup, {})), stores, key);
    }
  }
}
