/**
 What the runs of the write-back protocol can and cannot do: where a call made in
 a given state is answered, two runs that the documentation does not mention, and
 how many steps a call costs.
 */
module WriteBackRuns {
  import opened Prelude
  import opened Pools
  import opened Routers
  import opened WriteBacks
  import Ranges

  lemma {:induction false} ReachesInTwo(t: Table, a: State, first: seq<Step>, b: State, rest: seq<Step>, c: State)
    requires Reaches(t, a, first, b) && Reaches(t, b, rest, c)
    ensures Reaches(t, a, first + rest, c)
    decreases |first|
  {
    if first == [] {
      assert first + rest == rest;
    } else {
      assert (first + rest)[1..] == first[1..] + rest;
      ReachesInTwo(t, Apply(t, a, first[0]), first[1..], b, rest, c);
    }
  }

  lemma ReachesOneMore(t: Table, s: State, steps: seq<Step>, s': State, step: Step)
    requires Reaches(t, s, steps, s') && Enabled(t, s', step)
    ensures Reaches(t, s, steps + [step], Apply(t, s', step))
  {
    assert [step][1..] == [] && Reaches(t, s', [step], Apply(t, s', step));
    ReachesInTwo(t, s, steps, s', [step], Apply(t, s', step));
  }

  /******* Where a call is answered *******/

  // The call has not gone past position j, unless it gave a destination up.
  predicate NotPast(s: State, c: nat, j: nat) {
    c < |s.callers| && (s.callers[c].clean ==>
      match s.callers[c]
      case Scanning(_, pos, _, _, _) => pos <= j
      case Offering(_, src, _, _, _) => src <= j
      case Returned(_, src, _, _, _) => src <= j
      case Refused(_, _, _, _) => false)
  }

  ghost predicate NeverPast(t: Table, s: State, c: nat, j: nat) {
    forall after, s' :: Reaches(t, s, after, s') ==> NotPast(s', c, j)
  }

  ghost predicate HeldBy(t: Table, stores: Stores, key: Bytes, j: nat)
    requires KeyFits(t.pools, key)
  {
    exists i :: 0 <= i <= j && i < |Cands(t, key)| && Holds(stores, Cands(t, key)[i].host, key)
  }

  // Candidates that do not hold the key are passed one by one.
  lemma {:induction false} ScanTo(t: Table, s: State, c: nat, k: nat) returns (steps: seq<Step>)
    requires c < |s.callers| && s.callers[c].Scanning? && s.callers[c].pos == 0 && s.callers[c].trial == 1
    requires KeyFits(t.pools, s.callers[c].key) && k <= |Cands(t, s.callers[c].key)|
    requires Missed(t, s.stores, s.callers[c].key, k)
    ensures Reaches(t, s, steps, s.(callers := s.callers[c := s.callers[c].(pos := k)]))
    decreases k
  {
    if k == 0 {
      steps := [];
      assert s.callers[c := s.callers[c].(pos := 0)] == s.callers;
    } else {
      var before := ScanTo(t, s, c, k - 1);
      var s' := s.(callers := s.callers[c := s.callers[c].(pos := k - 1)]);
      ReachesOneMore(t, s, before, s', Query(c, false));
      assert !Holds(s.stores, Cands(t, s.callers[c].key)[k - 1].host, s.callers[c].key);
      assert s'.callers[c := s.callers[c].(pos := k)] == s.callers[c := s.callers[c].(pos := k)];
      assert Apply(t, s', Query(c, false)).callers[c] == s.callers[c].(pos := k);
      steps := before + [Query(c, false)];
    }
  }

  lemma HeldStops(t: Table, stores: Stores, truth: map<Bytes, Bytes>, s: State, key: Bytes, j: nat, after: seq<Step>,
          s': State)
    requires Closed(t) && Inv(t, stores, truth, s) && KeyFits(t.pools, key) && HeldBy(t, s.stores, key, j)
    requires Reaches(t, Apply(t, s, Call(key)), after, s')
    ensures NotPast(s', |s.callers|, j)
  {
    var called, c := Apply(t, s, Call(key)), |s.callers|;
    InvStep(t, stores, truth, s, Call(key));
    InvRun(t, stores, truth, called, after, s');
    LaterRun(t, called, after, s');
    assert called.callers[c].snap == s.stores && called.callers[c].key == key;
    assert CallerOk(t, stores, truth, s'.stores, s'.callers[c]);
    var i :| 0 <= i <= j && i < |Cands(t, key)| && Holds(s.stores, Cands(t, key)[i].host, key);
  }

  lemma NotHeldPasses(t: Table, s: State, key: Bytes, j: nat)
    requires KeyFits(t.pools, key) && j < |Cands(t, key)| && !HeldBy(t, s.stores, key, j)
    ensures !NeverPast(t, Apply(t, s, Call(key)), |s.callers|, j)
  {
    var called, c := Apply(t, s, Call(key)), |s.callers|;
    forall i | 0 <= i < j + 1 && i < |Cands(t, key)| ensures !Holds(s.stores, Cands(t, key)[i].host, key) {}
    var steps := ScanTo(t, called, c, j + 1);
    var s' := called.(callers := called.callers[c := called.callers[c].(pos := j + 1)]);
    assert Reaches(t, called, steps, s') && !NotPast(s', c, j);
  }

  // "Next time the same block is requested, it will be found" no later than at
  // position j of the lookup, a cache pool's for example: so it is, in every run
  // that gives no destination up, iff a server up to there holds the block when
  // the call is made.
  lemma FoundNextTimeIffHeld(t: Table, stores: Stores, truth: map<Bytes, Bytes>, before: seq<Step>, s: State,
          key: Bytes, j: nat)
    requires Closed(t) && Agree(stores, truth) && Reaches(t, Start(stores), before, s)
    requires KeyFits(t.pools, key) && j < |Cands(t, key)|
    ensures NeverPast(t, Apply(t, s, Call(key)), |s.callers|, j) <==> HeldBy(t, s.stores, key, j)
  {
    InvStarts(t, stores, truth);
    InvRun(t, stores, truth, Start(stores), before, s);
    if HeldBy(t, s.stores, key, j) {
      forall after, s' | Reaches(t, Apply(t, s, Call(key)), after, s') ensures NotPast(s', |s.callers|, j) {
        HeldStops(t, stores, truth, s, key, j, after, s');
      }
    } else {
      NotHeldPasses(t, s, key, j);
    }
  }

  /******* What the workers store *******/

  // Was a write of worker w lost since it was handed its chunk?
  ghost predicate LossSince(t: Table, s: State, steps: seq<Step>, w: nat, before: bool)
    decreases |steps|
  {
    if steps == [] || !Enabled(t, s, steps[0]) then before
    else LossSince(t, Apply(t, s, steps[0]), steps[1..], w, LossAfter(t, s, steps[0], w, before))
  }

  ghost predicate LossAfter(t: Table, s: State, step: Step, w: nat, before: bool)
    requires Enabled(t, s, step)
  {
    match step
    case HandOver(_, v) => v != w && before
    case Commit(v, name, lost, _) =>
      before || (v == w && lost && RouteOf(t.pools[name], s.workers[w].key).Some?)
    case _ => before
  }

  // The worker's mark says just that.
  lemma {:induction false} CleanIffNoLoss(t: Table, s: State, steps: seq<Step>, s': State, w: nat, before: bool)
    requires Reaches(t, s, steps, s') && w < |s'.workers| && s'.workers[w].Committing?
    requires w < |s.workers| && s.workers[w].Committing? ==> s.workers[w].clean == !before
    ensures s'.workers[w].clean <==> !LossSince(t, s, steps, w, before)
    decreases |steps|
  {
    if steps != [] {
      CleanIffNoLoss(t, Apply(t, s, steps[0]), steps[1..], s', w, LossAfter(t, s, steps[0], w, before));
    }
  }

  // A worker at work can write its chunk to all cache pools that are left, and if
  // nothing is lost it then stands on the routed server of each of them.
  lemma CommitAll(t: Table, s: State, w: nat) returns (steps: seq<Step>, s': State)
    requires w < |s.workers| && s.workers[w].Committing?
    requires forall n :: n in s.workers[w].todo ==> n in t.pools && ScanFits(t.pools[n], s.workers[w].key)
    ensures Reaches(t, s, steps, s')
    ensures forall k :: 0 <= k < |steps| ==> steps[k].Commit? && steps[k].w == w && !steps[k].lost
    ensures s'.callers == s.callers && w < |s'.workers| && s'.workers[w] == s.workers[w].(todo := {})
    ensures var worker := s.workers[w];
            s'.stores == PutOnHosts(s.stores, HostsOf(t.pools, worker.todo, worker.key), worker.key, worker.data)
  {
    steps, s' := [], s;
    var done: set<string> := {};
    NoneWritten(t, s, w);
    while s.workers[w].todo - done != {}
      invariant Reaches(t, s, steps, s') && PartlyWritten(t, s, s', w, done)
      invariant forall k :: 0 <= k < |steps| ==> steps[k].Commit? && steps[k].w == w && !steps[k].lost
      decreases s.workers[w].todo - done
    {
      var name :| name in s.workers[w].todo - done;
      var step := Commit(w, name, false, false);
      ReachesOneMore(t, s, steps, s', step);
      OneMoreWritten(t, s, s', w, name, done);
      steps, s', done := steps + [step], Apply(t, s', step), done + {name};
    }
    assert done == s.workers[w].todo;
  }

  // Of the worker's cache pools those that are done have been written to.
  ghost predicate PartlyWritten(t: Table, s: State, s': State, w: nat, done: set<string>)
    requires w < |s.workers| && s.workers[w].Committing?
    requires forall n :: n in s.workers[w].todo ==> n in t.pools && ScanFits(t.pools[n], s.workers[w].key)
  {
    var worker := s.workers[w];
    && done <= worker.todo
    && s'.callers == s.callers && w < |s'.workers| && s'.workers[w] == worker.(todo := worker.todo - done)
    && s'.stores == PutOnHosts(s.stores, HostsOf(t.pools, done, worker.key), worker.key, worker.data)
  }

  lemma NoneWritten(t: Table, s: State, w: nat)
    requires w < |s.workers| && s.workers[w].Committing?
    requires forall n :: n in s.workers[w].todo ==> n in t.pools && ScanFits(t.pools[n], s.workers[w].key)
    ensures PartlyWritten(t, s, s, w, {})
  {
    var worker := s.workers[w];
    assert worker.(todo := worker.todo - {}) == worker;
    assert s.stores == PutOnHosts(s.stores, {}, worker.key, worker.data);
  }

  lemma OneMoreWritten(t: Table, s: State, s': State, w: nat, name: string, done: set<string>)
    requires w < |s.workers| && s.workers[w].Committing?
    requires forall n :: n in s.workers[w].todo ==> n in t.pools && ScanFits(t.pools[n], s.workers[w].key)
    requires PartlyWritten(t, s, s', w, done) && name in s.workers[w].todo - done
    ensures Enabled(t, s', Commit(w, name, false, false))
    ensures PartlyWritten(t, s, Apply(t, s', Commit(w, name, false, false)), w, done + {name})
  {
    CommitOnHosts(t, s, s', w, name, done);
    assert s.workers[w].todo - done - {name} == s.workers[w].todo - (done + {name});
  }

  lemma CommitOnHosts(t: Table, s: State, s': State, w: nat, name: string, done: set<string>)
    requires Enabled(t, s', Commit(w, name, false, false))
    requires forall n :: n in done + {name} ==> n in t.pools && ScanFits(t.pools[n], s'.workers[w].key)
    requires var worker := s'.workers[w];
             s'.stores == PutOnHosts(s.stores, HostsOf(t.pools, done, worker.key), worker.key, worker.data)
    ensures var worker, next := s'.workers[w], Apply(t, s', Commit(w, name, false, false));
      && next.stores == PutOnHosts(s.stores, HostsOf(t.pools, done + {name}, worker.key), worker.key, worker.data)
      && next.callers == s'.callers && |next.workers| == |s'.workers|
      && next.workers[w] == worker.(todo := worker.todo - {name})
  {
    var worker := s'.workers[w];
    var hosts := HostsOf(t.pools, done, worker.key);
    OneHostMore(t.pools, done, name, worker.key);
    var route := RouteOf(t.pools[name], worker.key);
    if route.Some? {
      PutOneMore(s.stores, hosts, route.value.host, worker.key, worker.data);
    } else {
      assert hosts + {} == hosts;
    }
  }

  // So it is in every reachable state; and if nothing was lost before either, every
  // cache pool that routes the key then has the block.
  lemma WorkerCanStore(t: Table, stores: Stores, truth: map<Bytes, Bytes>, before: seq<Step>, s: State, w: nat)
    returns (steps: seq<Step>, s': State)
    requires Closed(t) && Agree(stores, truth) && Reaches(t, Start(stores), before, s)
    requires w < |s.workers| && s.workers[w].Committing?
    ensures Reaches(t, s, steps, s') && w < |s'.workers| && s'.workers[w] == s.workers[w].(todo := {})
    ensures forall k :: 0 <= k < |steps| ==> steps[k].Commit? && steps[k].w == w && !steps[k].lost
    ensures var worker := s.workers[w];
      forall n :: n in t.cache && (n in worker.todo || !LossSince(t, Start(stores), before, w, false)) ==>
        StoredFor(t, s'.stores, n, worker.key, worker.data)
  {
    AlwaysProgress(t, stores, truth, before, s);
    InvStarts(t, stores, truth);
    InvRun(t, stores, truth, Start(stores), before, s);
    var worker := s.workers[w];
    assert WorkerOk(t, stores, truth, s.stores, worker) && CanWork(t, s, w);
    forall n | n in worker.todo ensures n in t.pools && ScanFits(t.pools[n], worker.key) {
      assert Enabled(t, s, Commit(w, n, false, false));
    }
    steps, s' := CommitAll(t, s, w);
    CleanIffNoLoss(t, Start(stores), before, s, w, false);
    forall n | n in t.cache && (n in worker.todo || worker.clean)
      ensures StoredFor(t, s'.stores, n, worker.key, worker.data)
    {
      FitsAllScans(t.pools[n], worker.key);
      if n in worker.todo {
        OnHosts(t, s.stores, worker.todo, n, worker.key, worker.data);
      } else {
        assert Cached(t, s.stores, n, worker.key);
        StillStored(t, s.stores, truth, worker.todo, n, worker.key, worker.data);
      }
    }
  }

  // The pool does not route the key, or its routed server has the block.
  ghost predicate StoredFor(t: Table, stores: Stores, name: string, key: Bytes, data: Bytes) {
    name in t.pools && ScanFits(t.pools[name], key) &&
    match RouteOf(t.pools[name], key)
    case None => true
    case Some(d) => Holds(stores, d.host, key) && Server(stores, d.host)[key] == data
  }

  lemma OnHosts(t: Table, stores: Stores, names: set<string>, name: string, key: Bytes, data: Bytes)
    requires (forall n :: n in names ==> n in t.pools && ScanFits(t.pools[n], key)) && name in names
    ensures StoredFor(t, PutOnHosts(stores, HostsOf(t.pools, names, key), key, data), name, key, data)
  {
    var route := RouteOf(t.pools[name], key);
    if route.Some? {
      assert route.value.host in HostsOf(t.pools, names, key);
    }
  }

  lemma StillStored(t: Table, stores: Stores, truth: map<Bytes, Bytes>, names: set<string>, name: string, key: Bytes,
                    data: Bytes)
    requires forall n :: n in names ==> n in t.pools && ScanFits(t.pools[n], key)
    requires Cached(t, stores, name, key) && Agree(stores, truth) && key in truth && data == truth[key]
    ensures StoredFor(t, PutOnHosts(stores, HostsOf(t.pools, names, key), key, data), name, key, data)
  {
    var route := RouteOf(t.pools[name], key);
    if route.Some? {
      assert Holds(stores, route.value.host, key);
    }
  }

  /******* What a call gives up *******/

  // Some query of call c is its third lost one in a row.
  ghost predicate LosesThree(t: Table, s: State, steps: seq<Step>, c: nat)
    decreases |steps|
  {
    && steps != [] && Enabled(t, s, steps[0])
    && (GivesOneUp(s, steps[0], c) || LosesThree(t, Apply(t, s, steps[0]), steps[1..], c))
  }

  predicate GivesOneUp(s: State, step: Step, c: nat) {
    && step == Query(c, true) && c < |s.callers|
    && s.callers[c].Scanning? && s.callers[c].trial >= 3
  }

  // The call's mark says that there was none.
  lemma {:induction false} CleanIffNothingGivenUp(t: Table, s: State, steps: seq<Step>, s': State, c: nat)
    requires Reaches(t, s, steps, s') && c < |s'.callers|
    ensures s'.callers[c].clean <==> (c < |s.callers| ==> s.callers[c].clean) && !LosesThree(t, s, steps, c)
    decreases |steps|
  {
    if steps != [] {
      CleanIffNothingGivenUp(t, Apply(t, s, steps[0]), steps[1..], s', c);
    }
  }

  // Once a chunk went to every cache pool with no write lost, each later call for the
  // key that loses no three queries in a row is answered no later than by the routed
  // server of the first cache pool that routes the key.
  lemma WriteBackTakesEffect(t: Table, stores: Stores, truth: map<Bytes, Bytes>, before: seq<Step>, s: State, w: nat,
                             after: seq<Step>, s': State, c: nat, j: nat)
    requires Closed(t) && Agree(stores, truth) && Reaches(t, Start(stores), before, s) && Reaches(t, s, after, s')
    requires w < |s.workers| && s.workers[w].Committing? && s.workers[w].todo == {}
    requires !LossSince(t, Start(stores), before, w, false)
    requires |s.callers| <= c < |s'.callers| && s'.callers[c].key == s.workers[w].key && !LosesThree(t, s, after, c)
    requires KeyFits(t.pools, s.workers[w].key) && j < |Cands(t, s.workers[w].key)|
    requires Cands(t, s.workers[w].key)[j].pool in t.cache && RouteOfCand(t, s.workers[w].key, j)
    ensures !s'.callers[c].Refused?
    ensures s'.callers[c].Returned? || s'.callers[c].Offering? ==> s'.callers[c].src <= j
  {
    CleanIffNoLoss(t, Start(stores), before, s, w, false);
    CleanIffNothingGivenUp(t, s, after, s', c);
    CleanCommitIsFound(t, stores, truth, before, s, w, after, s', c, j);
  }

  /******* What a call passes *******/

  ghost predicate Past(s: State, c: nat, i: nat) {
    c < |s.callers| &&
    match s.callers[c]
    case Scanning(_, pos, _, _, _) => pos > i
    case Offering(_, src, _, _, _) => src > i
    case Returned(_, src, _, _, _) => src > i
    case Refused(_, _, _, _) => true
  }

  // The step is the third lost query of call c at position i.
  predicate ThirdLoss(s: State, step: Step, c: nat, i: nat) {
    && step == Query(c, true) && c < |s.callers|
    && s.callers[c].Scanning? && s.callers[c].pos == i && s.callers[c].trial >= 3
  }

  ghost predicate GivesUp(t: Table, s: State, steps: seq<Step>, c: nat, i: nat)
    decreases |steps|
  {
    && steps != [] && Enabled(t, s, steps[0])
    && (ThirdLoss(s, steps[0], c, i) || GivesUp(t, Apply(t, s, steps[0]), steps[1..], c, i))
  }

  ghost predicate AnsweredBy(s: State, c: nat, i: nat) {
    && c < |s.callers| && (s.callers[c].Offering? || s.callers[c].Returned?)
    && s.callers[c].src <= i
  }

  lemma {:induction false} PastStays(t: Table, s: State, steps: seq<Step>, s': State, c: nat, i: nat)
    requires Past(s, c, i) && Reaches(t, s, steps, s')
    ensures Past(s', c, i)
    decreases |steps|
  {
    if steps != [] {
      PastStays(t, Apply(t, s, steps[0]), steps[1..], s', c, i);
    }
  }

  lemma {:induction false} AnswerStays(t: Table, s: State, steps: seq<Step>, s': State, c: nat, i: nat)
    requires AnsweredBy(s, c, i) && Reaches(t, s, steps, s')
    ensures AnsweredBy(s', c, i) && !GivesUp(t, s, steps, c, i)
    decreases |steps|
  {
    if steps != [] {
      AnswerStays(t, Apply(t, s, steps[0]), steps[1..], s', c, i);
    }
  }

  // The call is still on its way to a position whose server holds the block.
  ghost predicate ComesTo(t: Table, s: State, c: nat, i: nat) {
    && c < |s.callers| && s.callers[c].Scanning? && KeyFits(t.pools, s.callers[c].key)
    && s.callers[c].pos <= i < |Cands(t, s.callers[c].key)|
    && Holds(s.stores, Cands(t, s.callers[c].key)[i].host, s.callers[c].key)
  }

  lemma ComesToStep(t: Table, s: State, step: Step, c: nat, i: nat)
    requires ComesTo(t, s, c, i) && Enabled(t, s, step)
    ensures var next := Apply(t, s, step);
      if ThirdLoss(s, step, c, i) then Past(next, c, i) else ComesTo(t, next, c, i) || AnsweredBy(next, c, i)
  {
    LaterStep(t, s, step);
  }

  lemma {:induction false} PassesIffGivesUp(t: Table, s: State, steps: seq<Step>, s': State, c: nat, i: nat)
    requires ComesTo(t, s, c, i) && Reaches(t, s, steps, s')
    ensures Past(s', c, i) <==> GivesUp(t, s, steps, c, i)
    decreases |steps|
  {
    if steps != [] {
      var next := Apply(t, s, steps[0]);
      ComesToStep(t, s, steps[0], c, i);
      if ThirdLoss(s, steps[0], c, i) {
        PastStays(t, next, steps[1..], s', c, i);
      } else if ComesTo(t, next, c, i) {
        PassesIffGivesUp(t, next, steps[1..], s', c, i);
      } else {
        AnswerStays(t, next, steps[1..], s', c, i);
      }
    }
  }

  // A call goes past a server that held the block when the call was made iff it
  // lost three queries in a row to it.
  lemma HolderIsPassedIffGivenUp(t: Table, s: State, key: Bytes, after: seq<Step>, s': State, i: nat)
    requires KeyFits(t.pools, key) && i < |Cands(t, key)| && Holds(s.stores, Cands(t, key)[i].host, key)
    requires Reaches(t, Apply(t, s, Call(key)), after, s')
    ensures Past(s', |s.callers|, i) <==> GivesUp(t, Apply(t, s, Call(key)), after, |s.callers|, i)
  {
    PassesIffGivesUp(t, Apply(t, s, Call(key)), after, s', |s.callers|, i);
  }

  // Only servers that did not hold the block were passed.
  ghost predicate PassedOnlyMisses(t: Table, stores: Stores, key: Bytes, s': State, c: nat)
    requires KeyFits(t.pools, key)
  {
    forall i: nat :: i < |Cands(t, key)| && Past(s', c, i) ==> !Holds(stores, Cands(t, key)[i].host, key)
  }

  ghost predicate GivesHolderUp(t: Table, stores: Stores, key: Bytes, s: State, steps: seq<Step>, c: nat, i: nat)
    requires KeyFits(t.pools, key)
  {
    i < |Cands(t, key)| && Holds(stores, Cands(t, key)[i].host, key) && GivesUp(t, s, steps, c, i)
  }

  // So only a missing key sends a call on, iff it gave up no server that held it.
  lemma OnlyMissesArePassedIff(t: Table, s: State, key: Bytes, after: seq<Step>, s': State)
    requires KeyFits(t.pools, key) && Reaches(t, Apply(t, s, Call(key)), after, s')
    ensures var called, c := Apply(t, s, Call(key)), |s.callers|;
      PassedOnlyMisses(t, s.stores, key, s', c) <==>
      forall i: nat :: !GivesHolderUp(t, s.stores, key, called, after, c, i)
  {
    var called, c := Apply(t, s, Call(key)), |s.callers|;
    forall i: nat | i < |Cands(t, key)| && Holds(s.stores, Cands(t, key)[i].host, key)
      ensures Past(s', c, i) <==> GivesHolderUp(t, s.stores, key, called, after, c, i)
    {
      HolderIsPassedIffGivenUp(t, s, key, after, s', i);
    }
  }

  // A call that is refused gave up every destination that held its key.
  lemma RefusedGaveUpHolders(t: Table, s: State, key: Bytes, after: seq<Step>, s': State, i: nat)
    requires KeyFits(t.pools, key) && Reaches(t, Apply(t, s, Call(key)), after, s')
    requires |s.callers| < |s'.callers| && s'.callers[|s.callers|].Refused?
    requires i < |Cands(t, key)| && Holds(s.stores, Cands(t, key)[i].host, key)
    ensures GivesUp(t, Apply(t, s, Call(key)), after, |s.callers|, i)
  {
    HolderIsPassedIffGivenUp(t, s, key, after, s', i);
  }

  /******* Two runs *******/

  // A local cache in front of a remote pool, as in the documentation.
  const KEY: Bytes := [0]

  function RulesAt(host: string): seq<Rule> {
    [Rule(Ranges.Exact([0]), Destination("zdb", host))]
  }

  const EXAMPLE :=
    Table(map["local" := RulesAt("local"), "remote" := RulesAt("remote")], ["local", "remote"], {"local"})

  lemma RoutesAt(host: string)
    ensures FitsAll(RulesAt(host), KEY) && RoutesOf(RulesAt(host), KEY) == [Destination("zdb", host)]
  {
    assert KEY[..1] == [0];
    assert RulesAt(host)[1..] == [];
  }

  lemma ExampleCands()
    ensures Closed(EXAMPLE) && KeyFits(EXAMPLE.pools, KEY)
    ensures Cands(EXAMPLE, KEY) == [Cand("local", "local"), Cand("remote", "remote")]
  {
    RoutesAt("local");
    RoutesAt("remote");
    var lookup := EXAMPLE.lookup;
    assert lookup[1..] == ["remote"] && ["remote"][1..] == [];
    assert Candidates(EXAMPLE.pools, [], KEY) == [];
    assert Candidates(EXAMPLE.pools, ["remote"], KEY) == CandsOf("remote", RoutesOf(RulesAt("remote"), KEY)) + [];
  }

  // A call that misses in the cache is answered by the remote pool.
  lemma MissGoesOn(s: State, c: nat, data: Bytes) returns (steps: seq<Step>)
    requires c < |s.callers| && s.callers[c].Scanning? && s.callers[c].key == KEY && s.callers[c].pos == 0
        && s.callers[c].trial == 1
    requires !Holds(s.stores, "local", KEY) && Holds(s.stores, "remote", KEY) && Server(s.stores, "remote")[KEY] == data
    ensures var caller := s.callers[c];
      Reaches(EXAMPLE, s, steps, s.(callers := s.callers[c := Offering(KEY, 1, data, caller.clean, caller.snap)]))
  {
    ExampleCands();
    var caller := s.callers[c];
    var first := ScanTo(EXAMPLE, s, c, 1);
    var s' := s.(callers := s.callers[c := caller.(pos := 1)]);
    ReachesOneMore(EXAMPLE, s, first, s', Query(c, false));
    assert s'.callers[c := Offering(KEY, 1, data, caller.clean, caller.snap)]
        == s.callers[c := Offering(KEY, 1, data, caller.clean, caller.snap)];
    steps := first + [Query(c, false)];
  }

  // The first call has returned and its chunk is with a worker that has not yet
  // written it: a second call for the same block goes past the cache.
  lemma SecondCallPassesCache(data: Bytes) returns (stores: Stores, steps: seq<Step>, s: State)
    ensures Agree(stores, map[KEY := data]) && Reaches(EXAMPLE, Start(stores), steps, s)
    ensures |s.callers| == 2 && s.callers[0] == Returned(KEY, 1, data, true, stores)
    ensures |s.workers| > 0 && s.workers[0] == Committing(KEY, data, 1, EXAMPLE.cache, true)
    ensures s.callers[1] == Offering(KEY, 1, data, true, stores)
  {
    stores := map["remote" := map[KEY := data]];
    ExampleCands();
    var s0 := Start(stores);
    var s1 := Apply(EXAMPLE, s0, Call(KEY));
    ReachesOneMore(EXAMPLE, s0, [], s0, Call(KEY));
    var found := MissGoesOn(s1, 0, data);
    var s2 := s1.(callers := [Offering(KEY, 1, data, true, stores)]);
    assert s1.callers[0 := Offering(KEY, 1, data, true, stores)] == s2.callers;
    ReachesInTwo(EXAMPLE, s0, [] + [Call(KEY)], s1, found, s2);
    steps := [] + [Call(KEY)] + found;
    ReachesOneMore(EXAMPLE, s0, steps, s2, HandOver(0, 0));
    var s3 := Apply(EXAMPLE, s2, HandOver(0, 0));
    steps := steps + [HandOver(0, 0)];
    ReachesOneMore(EXAMPLE, s0, steps, s3, Call(KEY));
    var s4 := Apply(EXAMPLE, s3, Call(KEY));
    steps := steps + [Call(KEY)];
    var again := MissGoesOn(s4, 1, data);
    s := s4.(callers := s4.callers[1 := Offering(KEY, 1, data, true, stores)]);
    ReachesInTwo(EXAMPLE, s0, steps, s4, again, s);
    steps := steps + again;
  }

  // The local server holds the block, but loses three commands in a row: the call
  // goes on to the remote pool all the same.
  lemma HolderIsGivenUp(near: Bytes, far: Bytes) returns (stores: Stores, steps: seq<Step>, s: State)
    ensures Holds(stores, "local", KEY) && Server(stores, "local")[KEY] == near
    ensures Reaches(EXAMPLE, Start(stores), steps, s)
    ensures |s.callers| == 1 && s.callers[0] == Offering(KEY, 1, far, false, stores)
  {
    stores := map["local" := map[KEY := near], "remote" := map[KEY := far]];
    ExampleCands();
    var s0 := Start(stores);
    s, steps := Apply(EXAMPLE, s0, Call(KEY)), [Call(KEY)];
    ReachesOneMore(EXAMPLE, s0, [], s0, Call(KEY));
    assert [] + [Call(KEY)] == steps;
    for trial := 1 to BLOCK_GET_RETRIES
      invariant s == State(stores, [Scanning(KEY, 0, trial, true, stores)], s0.workers)
      invariant Reaches(EXAMPLE, s0, steps, s)
    {
      ReachesOneMore(EXAMPLE, s0, steps, s, Query(0, true));
      s, steps := Apply(EXAMPLE, s, Query(0, true)), steps + [Query(0, true)];
    }
    ReachesOneMore(EXAMPLE, s0, steps, s, Query(0, true));
    s, steps := Apply(EXAMPLE, s, Query(0, true)), steps + [Query(0, true)];
    ReachesOneMore(EXAMPLE, s0, steps, s, Query(0, false));
    s, steps := Apply(EXAMPLE, s, Query(0, false)), steps + [Query(0, false)];
  }

  /******* What a call costs *******/

  ghost predicate Sized(t: Table, c: Caller) {
    && KeyFits(t.pools, c.key)
    && (c.Scanning? ==> c.pos <= |Cands(t, c.key)| && 1 <= c.trial <= BLOCK_GET_RETRIES)
  }

  ghost predicate AllSized(t: Table, s: State) {
    forall c :: 0 <= c < |s.callers| ==> Sized(t, s.callers[c])
  }

  // Steps that are left to a call: three queries for each candidate, an end, and a
  // worker's write to each cache pool.
  ghost function CallerWeight(t: Table, c: Caller): nat {
    if !Sized(t, c) then 0
    else match c
      case Scanning(key, pos, trial, _, _) =>
        (if pos < |Cands(t, key)| then 3 * (|Cands(t, key)| - pos) - (trial - 1) else 0) + |t.cache| + 2
      case Offering(_, _, _, _, _) => |t.cache| + 2
      case _ => 0
  }

  function WorkerWeight(w: Worker): nat {
    if w.Idle? then 0 else |w.todo| + 1
  }

  ghost function CallersLoad(t: Table, callers: seq<Caller>, n: nat): nat
    requires n <= |callers|
  {
    if n == 0 then 0 else CallersLoad(t, callers, n - 1) + CallerWeight(t, callers[n - 1])
  }

  function WorkersLoad(workers: seq<Worker>, n: nat): nat
    requires n <= |workers|
  {
    if n == 0 then 0 else WorkersLoad(workers, n - 1) + WorkerWeight(workers[n - 1])
  }

  ghost function Load(t: Table, s: State): nat {
    CallersLoad(t, s.callers, |s.callers|) + WorkersLoad(s.workers, |s.workers|)
  }

  // What a call adds, itself included.
  ghost function CallCost(t: Table, key: Bytes): nat
    requires KeyFits(t.pools, key)
  {
    3 * |Cands(t, key)| + |t.cache| + 3
  }

  ghost function Budget(t: Table, steps: seq<Step>): nat {
    if steps == [] then 0
    else if steps[0].Call? && KeyFits(t.pools, steps[0].key) then CallCost(t, steps[0].key) + Budget(t, steps[1..])
    else Budget(t, steps[1..])
  }

  lemma {:induction false} CallersUpdate(t: Table, callers: seq<Caller>, c: nat, x: Caller, n: nat)
    requires c < |callers| && n <= |callers|
    ensures CallersLoad(t, callers[c := x], n)
         == CallersLoad(t, callers, n) + if c < n then CallerWeight(t, x) - CallerWeight(t, callers[c]) else 0
  {
    if n > 0 {
      CallersUpdate(t, callers, c, x, n - 1);
    }
  }

  lemma {:induction false} CallersAppend(t: Table, callers: seq<Caller>, x: Caller, n: nat)
    requires n <= |callers|
    ensures CallersLoad(t, callers + [x], n) == CallersLoad(t, callers, n)
  {
    if n > 0 {
      CallersAppend(t, callers, x, n - 1);
    }
  }

  lemma {:induction false} WorkersUpdate(workers: seq<Worker>, w: nat, x: Worker, n: nat)
    requires w < |workers| && n <= |workers|
    ensures WorkersLoad(workers[w := x], n)
         == WorkersLoad(workers, n) + if w < n then WorkerWeight(x) - WorkerWeight(workers[w]) else 0
  {
    if n > 0 {
      WorkersUpdate(workers, w, x, n - 1);
    }
  }

  lemma QueryLowers(t: Table, s: State, caller: Caller, lost: bool)
    requires caller.Scanning? && Sized(t, caller) && caller.pos < |Cands(t, caller.key)|
    ensures Sized(t, Queried(t, s, caller, lost))
    ensures CallerWeight(t, Queried(t, s, caller, lost)) < CallerWeight(t, caller)
  {}

  lemma CallerStepLowers(t: Table, s: State, c: nat, x: Caller)
    requires c < |s.callers| && CallerWeight(t, x) < CallerWeight(t, s.callers[c])
    ensures Load(t, s.(callers := s.callers[c := x])) < Load(t, s)
  {
    CallersUpdate(t, s.callers, c, x, |s.callers|);
  }

  lemma WorkerStepLowers(t: Table, s: State, w: nat, x: Worker, stores: Stores)
    requires w < |s.workers| && WorkerWeight(x) < WorkerWeight(s.workers[w])
    ensures Load(t, State(stores, s.callers, s.workers[w := x])) < Load(t, s)
  {
    WorkersUpdate(s.workers, w, x, |s.workers|);
  }

  lemma HandOverLowers(t: Table, s: State, c: nat, w: nat)
    requires AllSized(t, s) && Enabled(t, s, HandOver(c, w))
    ensures Load(t, Apply(t, s, HandOver(c, w))) < Load(t, s)
  {
    var s' := Apply(t, s, HandOver(c, w));
    CallersUpdate(t, s.callers, c, s'.callers[c], |s.callers|);
    WorkersUpdate(s.workers, w, s'.workers[w], |s.workers|);
  }

  lemma StepKeepsSizes(t: Table, s: State, step: Step)
    requires AllSized(t, s) && Enabled(t, s, step)
    ensures AllSized(t, Apply(t, s, step))
  {
    if step.Query? {
      QueryLowers(t, s, s.callers[step.c], step.lost);
    }
  }

  // Every step but a call lowers the load.
  lemma StepLowers(t: Table, s: State, step: Step)
    requires AllSized(t, s) && Enabled(t, s, step)
    ensures Load(t, Apply(t, s, step)) < Load(t, s) + if step.Call? then CallCost(t, step.key) else 0
  {
    match step
    case Call(key) => CallersAppend(t, s.callers, Scanning(key, 0, 1, true, s.stores), |s.callers|);
    case Query(c, lost) =>
      QueryLowers(t, s, s.callers[c], lost);
      CallerStepLowers(t, s, c, Queried(t, s, s.callers[c], lost));
    case GiveUp(c) => CallerStepLowers(t, s, c, Apply(t, s, step).callers[c]);
    case HandOver(c, w) => HandOverLowers(t, s, c, w);
    case Commit(w, _, _, _) => WorkerStepLowers(t, s, w, Apply(t, s, step).workers[w], Apply(t, s, step).stores);
    case Finish(w) => WorkerStepLowers(t, s, w, Idle, s.stores);
  }

  lemma {:induction false} RunIsShort(t: Table, s: State, steps: seq<Step>, s': State)
    requires AllSized(t, s) && Reaches(t, s, steps, s')
    ensures |steps| + Load(t, s') <= Load(t, s) + Budget(t, steps)
    decreases |steps|
  {
    if steps != [] {
      StepKeepsSizes(t, s, steps[0]);
      StepLowers(t, s, steps[0]);
      RunIsShort(t, Apply(t, s, steps[0]), steps[1..], s');
    }
  }

  lemma {:induction false} IdleLoad(n: nat, m: nat)
    requires m <= n
    ensures WorkersLoad(seq(n, _ => Idle), m) == 0
  {
    if m > 0 {
      IdleLoad(n, m - 1);
    }
  }

  // No run is longer than its calls pay for: three steps a candidate, one a cache
  // pool, and three. What is left to do is paid for too.
  lemma RunsAreBounded(t: Table, stores: Stores, steps: seq<Step>, s: State)
    requires Reaches(t, Start(stores), steps, s)
    ensures |steps| + Load(t, s) <= Budget(t, steps)
  {
    RunIsShort(t, Start(stores), steps, s);
    IdleLoad(COMMIT_WORKERS, COMMIT_WORKERS);
  }
}
