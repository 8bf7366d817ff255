/**
 The download protocol of rofs/downloader.go: one feeder, a group of workers, a
 closer and the writing consumer, over unbuffered channels and a context that
 the first failure cancels. Every channel operation, download outcome, write and
 return is one step; a run is any interleaving.
 */
module Downloads {
  import opened Prelude
  import opened Files

  const DEFAULT_WORKERS: int := 4

  datatype BlockInfo = BlockInfo(key: Bytes, decipher: Bytes)

  type Hash = Bytes -> Bytes

  datatype Setup = Setup(blocks: seq<BlockInfo>, blockSize: nat, hash: Hash)

  // The block size field counts 4 KB pages in 16 bits, and a message list has
  // less than 2^29 elements.
  predicate SetupOk(u: Setup) {
    && 0 < |u.blocks| < 0x2000_0000
    && 0 < u.blockSize <= 0xFFFF * 4096
  }

  // The data passed the check against the block's own key.
  predicate Accepted(u: Setup, i: nat, raw: Bytes) {
    i < |u.blocks| && u.hash(raw) == u.blocks[i].decipher
  }

  function Min(a: int, b: int): int {
    if a < b then a else b
  }

  function WorkerCount(setting: int, n: nat): int {
    var workers := Min(setting, n);
    if workers == 0 then Min(DEFAULT_WORKERS, n) else workers
  }

  // The 64-bit product that is passed to Seek.
  function SeekOffset(i: nat, blockSize: nat): int {
    ToInt64(i * blockSize)
  }

  /******* State *******/

  datatype Worker = Ready | Fetching(index: nat) | Offering(index: nat, raw: Bytes) | Gone

  datatype Outcome = Success | BlockFailed(index: nat) | WriteFailed(index: nat)

  datatype Consumer = Receiving | Writing(index: nat, raw: Bytes) | Returned(outcome: Outcome)

  // err: the block whose failure was recorded first; it cancels the context.
  // got, lost: blocks written, and blocks dropped by a failed or cancelled worker (history only).
  datatype State = State(
    fed: nat, feedOpen: bool, workers: seq<Worker>, resultsOpen: bool,
    consumer: Consumer, err: Option<nat>, file: Bytes, got: map<nat, Bytes>, lost: set<nat>)

  datatype Step =
    | Feed(w: nat)
    | CloseFeed
    | StopFeed
    | Fetched(w: nat, data: Bytes)
    | FetchFailed(w: nat)
    | Deliver(w: nat)
    | Abandon(w: nat)
    | Leave(w: nat)
    | CloseResults
    | Write
    | FailWrite(stored: nat)
    | Return

  function Start(workers: nat, file: Bytes): State {
    State(0, true, seq(workers, _ => Ready), true, Receiving, None, file, map[], {})
  }

  predicate AllGone(workers: seq<Worker>) {
    forall w :: 0 <= w < |workers| ==> workers[w].Gone?
  }

  predicate Enabled(u: Setup, s: State, step: Step) {
    match step
    case Feed(w) => s.feedOpen && s.fed < |u.blocks| && w < |s.workers| && s.workers[w].Ready?
    case CloseFeed => s.feedOpen && s.fed == |u.blocks|
    case StopFeed => s.feedOpen && s.fed < |u.blocks| && s.err.Some?
    case Fetched(w, data) => w < |s.workers| && s.workers[w].Fetching? && Accepted(u, s.workers[w].index, data)
    case FetchFailed(w) => w < |s.workers| && s.workers[w].Fetching?
    case Deliver(w) => w < |s.workers| && s.workers[w].Offering? && s.resultsOpen && s.consumer.Receiving?
    case Abandon(w) => w < |s.workers| && s.workers[w].Offering? && s.err.Some?
    case Leave(w) => w < |s.workers| && s.workers[w].Ready? && !s.feedOpen
    case CloseResults => s.resultsOpen && !s.feedOpen && AllGone(s.workers)
    case Write => s.consumer.Writing? && SeekOffset(s.consumer.index, u.blockSize) >= 0
    case FailWrite(stored) => s.consumer.Writing? && stored <= |s.consumer.raw|
                              && (SeekOffset(s.consumer.index, u.blockSize) < 0 ==> stored == 0)
    case Return => s.consumer.Receiving? && !s.resultsOpen
  }

  function Apply(u: Setup, s: State, step: Step): State
    requires Enabled(u, s, step)
  {
    match step
    case Feed(w) => s.(workers := s.workers[w := Fetching(s.fed)], fed := s.fed + 1)
    case CloseFeed => s.(feedOpen := false)
    case StopFeed => s.(feedOpen := false)
    case Fetched(w, data) => s.(workers := s.workers[w := Offering(s.workers[w].index, data)])
    case FetchFailed(w) =>
      s.(workers := s.workers[w := Gone], lost := s.lost + {s.workers[w].index},
         err := if s.err.None? then Some(s.workers[w].index) else s.err)
    case Deliver(w) =>
      s.(workers := s.workers[w := Ready], consumer := Writing(s.workers[w].index, s.workers[w].raw))
    case Abandon(w) => s.(workers := s.workers[w := Gone], lost := s.lost + {s.workers[w].index})
    case Leave(w) => s.(workers := s.workers[w := Gone])
    case CloseResults => s.(resultsOpen := false)
    case Write =>
      var off := SeekOffset(s.consumer.index, u.blockSize);
      s.(consumer := Receiving, file := WriteAt(s.file, off, s.consumer.raw),
         got := s.got[s.consumer.index := s.consumer.raw])
    case FailWrite(stored) =>
      var off := SeekOffset(s.consumer.index, u.blockSize);
      s.(consumer := Returned(WriteFailed(s.consumer.index)),
         file := if off < 0 then s.file else WriteAt(s.file, off, s.consumer.raw[..stored]))
    case Return => s.(consumer := Returned(if s.err.None? then Success else BlockFailed(s.err.value)))
  }

  ghost predicate Reaches(u: Setup, s: State, steps: seq<Step>, s': State)
    decreases |steps|
  {
    if steps == [] then s == s'
    else Enabled(u, s, steps[0]) && Reaches(u, Apply(u, s, steps[0]), steps[1..], s')
  }

  // All data that was fetched in the run comes from the given set.
  ghost predicate Drawn(steps: seq<Step>, data: iset<Bytes>) {
    forall k :: 0 <= k < |steps| && steps[k].Fetched? ==> steps[k].data in data
  }

  ghost function AtMostABlock(u: Setup): iset<Bytes> {
    iset raw: Bytes | |raw| <= u.blockSize
  }

  // No fetched block was longer than the block size.
  ghost predicate AllDataFit(u: Setup, steps: seq<Step>) {
    Drawn(steps, AtMostABlock(u))
  }

  /******* Offsets *******/

  lemma {:induction false} OffsetIsProduct(i: nat, blockSize: nat)
    ensures Offset(i, blockSize) == i * blockSize
  {
    if i > 0 {
      OffsetIsProduct(i - 1, blockSize);
      assert (i - 1) * blockSize + blockSize == i * blockSize;
    }
  }

  lemma ProductBound(a: nat, m: nat, b: nat, n: nat)
    requires a <= m && b <= n
    ensures a * b <= m * n
  {
    assert a * b <= m * b;
    assert m * b <= m * n;
  }

  lemma OffsetBound(i: nat, blockSize: nat)
    requires i <= 0x2000_0000 && blockSize <= 0xFFFF * 4096
    ensures Offset(i, blockSize) <= 0x2000_0000 * 0xFFFF * 4096
  {
    OffsetIsProduct(i, blockSize);
    ProductBound(i, 0x2000_0000, blockSize, 0xFFFF * 4096);
  }

  // The 64-bit product never wraps.
  lemma SeekIsExact(u: Setup, i: nat)
    requires SetupOk(u) && i < |u.blocks|
    ensures SeekOffset(i, u.blockSize) == Offset(i, u.blockSize)
  {
    OffsetIsProduct(i, u.blockSize);
    OffsetBound(i, u.blockSize);
  }

  /******* Invariant *******/

  predicate Held(s: State, w: nat, i: nat) {
    w < |s.workers| && (s.workers[w].Fetching? || s.workers[w].Offering?) && s.workers[w].index == i
  }

  // With the consumer: about to be written, or not written by the write that failed.
  predicate InHand(s: State, i: nat) {
    || (s.consumer.Writing? && s.consumer.index == i)
    || s.consumer == Returned(WriteFailed(i))
  }

  ghost predicate Placed(s: State, i: nat) {
    i in s.got || i in s.lost || InHand(s, i) || exists w: nat :: Held(s, w, i)
  }

  // Every fed block is in exactly one place: held by one worker, in the consumer's
  // hand, written, or dropped; the others are nowhere.
  ghost predicate Conserved(u: Setup, s: State) {
    && s.fed <= |u.blocks|
    && (forall i: nat :: i < s.fed <==> Placed(s, i))
    && (forall w: nat, i: nat :: Held(s, w, i) ==> i !in s.got && i !in s.lost && !InHand(s, i))
    && (forall v: nat, w: nat, i: nat :: Held(s, v, i) && Held(s, w, i) ==> v == w)
    && (forall i :: InHand(s, i) ==> i !in s.got && i !in s.lost)
    && (forall i :: i in s.got ==> i !in s.lost)
  }

  lemma FetchedIsFed(u: Setup, s: State, w: nat)
    requires Conserved(u, s) && w < |s.workers| && s.workers[w].Fetching?
    ensures s.workers[w].index < |u.blocks|
  {
    assert Held(s, w, s.workers[w].index);
    assert Placed(s, s.workers[w].index);
  }

  ghost predicate Checked(u: Setup, s: State) {
    && (forall i :: i in s.got ==> Accepted(u, i, s.got[i]))
    && (forall w :: 0 <= w < |s.workers| && s.workers[w].Offering? ==>
        Accepted(u, s.workers[w].index, s.workers[w].raw))
    && (s.consumer.Writing? ==> Accepted(u, s.consumer.index, s.consumer.raw))
  }

  ghost predicate Control(u: Setup, s: State) {
    && (s.err.Some? ==> s.err.value in s.lost)
    && (s.lost != {} ==> s.err.Some?)
    && (!s.feedOpen ==> s.fed == |u.blocks| || s.err.Some?)
    && (s.feedOpen ==> forall w :: 0 <= w < |s.workers| && s.workers[w].Gone? ==> s.err.Some?)
    && (!s.resultsOpen ==> !s.feedOpen && AllGone(s.workers))
    && (s.consumer.Returned? && !s.consumer.outcome.WriteFailed? ==>
          !s.resultsOpen && s.consumer.outcome == if s.err.None? then Success else BlockFailed(s.err.value))
  }

  ghost predicate FileOk(u: Setup, before: Bytes, s: State) {
    && HoldsAll(s.file, u.blockSize, s.got)
    && (!(s.consumer.Returned? && s.consumer.outcome.WriteFailed?) ==> Painted(before, s.file, u.blockSize, s.got))
  }

  ghost predicate Sound(u: Setup, s: State) {
    Conserved(u, s) && Checked(u, s) && Control(u, s)
  }

  ghost predicate RawsIn(s: State, data: iset<Bytes>) {
    && (forall i :: i in s.got ==> s.got[i] in data)
    && (forall w :: 0 <= w < |s.workers| && s.workers[w].Offering? ==> s.workers[w].raw in data)
    && (s.consumer.Writing? ==> s.consumer.raw in data)
  }

  ghost predicate Inv(u: Setup, before: Bytes, s: State) {
    Sound(u, s) && RawsIn(s, AtMostABlock(u)) && FileOk(u, before, s)
  }

  lemma StartInv(u: Setup, workers: nat, before: Bytes)
    ensures Inv(u, before, Start(workers, before))
  {}

  // Steps that move no block.
  lemma StillConserved(u: Setup, s: State, s': State)
    requires Conserved(u, s)
    requires s'.fed == s.fed && s'.got == s.got && s'.lost == s.lost
    requires forall i :: InHand(s', i) <==> InHand(s, i)
    requires forall w: nat, i: nat :: Held(s', w, i) <==> Held(s, w, i)
    ensures Conserved(u, s')
  {
    forall i: nat ensures Placed(s', i) <==> Placed(s, i) {
      if w: nat :| Held(s, w, i) { assert Held(s', w, i); }
      if w: nat :| Held(s', w, i) { assert Held(s, w, i); }
    }
  }

  // Steps in which worker w hands block j over or drops it.
  lemma LetGoConserved(u: Setup, s: State, w: nat, j: nat, handed: bool, s': State)
    requires Conserved(u, s) && Held(s, w, j)
    requires s'.fed == s.fed && s'.got == s.got
    requires s'.lost == if handed then s.lost else s.lost + {j}
    requires forall i :: InHand(s', i) <==> InHand(s, i) || (handed && i == j)
    requires forall v: nat, i: nat :: Held(s', v, i) <==> Held(s, v, i) && v != w
    ensures Conserved(u, s')
  {
    forall i: nat ensures Placed(s', i) <==> Placed(s, i) {
      if i != j {
        if v: nat :| Held(s, v, i) { assert Held(s', v, i); }
        if v: nat :| Held(s', v, i) { assert Held(s, v, i); }
      }
    }
  }

  lemma FeedConserved(u: Setup, s: State, w: nat)
    requires Conserved(u, s) && Enabled(u, s, Feed(w))
    ensures Conserved(u, Apply(u, s, Feed(w)))
  {
    var s' := Apply(u, s, Feed(w));
    assert Held(s', w, s.fed);
    forall v: nat, i: nat ensures Held(s', v, i) <==> Held(s, v, i) || (v == w && i == s.fed) {}
    assert !Placed(s, s.fed);
    forall i: nat ensures Placed(s', i) <==> Placed(s, i) || i == s.fed {
      if v: nat :| Held(s, v, i) { assert Held(s', v, i); }
      if v: nat :| Held(s', v, i) { assert i != s.fed ==> Held(s, v, i); }
    }
    forall v: nat ensures !Held(s, v, s.fed) {}
  }

  lemma WriteConserved(u: Setup, s: State)
    requires Conserved(u, s) && Enabled(u, s, Write)
    ensures Conserved(u, Apply(u, s, Write))
  {
    var s' := Apply(u, s, Write);
    assert InHand(s, s.consumer.index);
    forall v: nat, i: nat ensures Held(s', v, i) <==> Held(s, v, i) {}
    forall i: nat ensures Placed(s', i) <==> Placed(s, i) {
      if v: nat :| Held(s, v, i) { assert Held(s', v, i); }
      if v: nat :| Held(s', v, i) { assert Held(s, v, i); }
    }
  }

  lemma ConservedStep(u: Setup, s: State, step: Step)
    requires Conserved(u, s) && Control(u, s) && Enabled(u, s, step)
    ensures Conserved(u, Apply(u, s, step))
  {
    var s' := Apply(u, s, step);
    match step
    case Feed(w) => FeedConserved(u, s, w);
    case FetchFailed(w) => LetGoConserved(u, s, w, s.workers[w].index, false, s');
    case Abandon(w) => LetGoConserved(u, s, w, s.workers[w].index, false, s');
    case Deliver(w) => LetGoConserved(u, s, w, s.workers[w].index, true, s');
    case Write => WriteConserved(u, s);
    case _ => StillConserved(u, s, s');
  }

  lemma SoundStep(u: Setup, s: State, step: Step)
    requires Sound(u, s) && Enabled(u, s, step)
    ensures Sound(u, Apply(u, s, step)) && |Apply(u, s, step).workers| == |s.workers|
  {
    ConservedStep(u, s, step);
  }

  lemma {:induction false} SoundRun(u: Setup, s: State, steps: seq<Step>, s': State)
    requires Sound(u, s) && Reaches(u, s, steps, s')
    ensures Sound(u, s') && |s'.workers| == |s.workers|
    decreases |steps|
  {
    if steps != [] {
      SoundStep(u, s, steps[0]);
      SoundRun(u, Apply(u, s, steps[0]), steps[1..], s');
    }
  }

  lemma ReachableSound(u: Setup, workers: nat, before: Bytes, steps: seq<Step>, s: State)
    requires Reaches(u, Start(workers, before), steps, s)
    ensures Sound(u, s) && |s.workers| == workers
  {
    StartInv(u, workers, before);
    SoundRun(u, Start(workers, before), steps, s);
  }

  lemma FileStep(u: Setup, before: Bytes, s: State, step: Step)
    requires SetupOk(u) && Conserved(u, s) && RawsIn(s, AtMostABlock(u)) && FileOk(u, before, s) && Enabled(u, s, step)
    ensures FileOk(u, before, Apply(u, s, step))
  {
    if step.Write? || step.FailWrite? {
      var i, raw := s.consumer.index, s.consumer.raw;
      assert InHand(s, i) && Placed(s, i);
      assert AllFit(u.blockSize, s.got);
      SeekIsExact(u, i);
      if step.Write? {
        PaintOneMore(before, s.file, u.blockSize, s.got, i, raw);
      } else {
        HoldOneMore(s.file, u.blockSize, s.got, i, raw[..step.stored]);
        var more := s.got[i := raw[..step.stored]];
        assert forall j :: j in s.got ==> j in more && more[j] == s.got[j];
      }
    }
  }

  lemma RawsStep(u: Setup, s: State, step: Step, data: iset<Bytes>)
    requires RawsIn(s, data) && Enabled(u, s, step) && (step.Fetched? ==> step.data in data)
    ensures RawsIn(Apply(u, s, step), data)
  {}

  lemma {:induction false} RawsRun(u: Setup, s: State, steps: seq<Step>, s': State, data: iset<Bytes>)
    requires RawsIn(s, data) && Reaches(u, s, steps, s') && Drawn(steps, data)
    ensures RawsIn(s', data)
    decreases |steps|
  {
    if steps != [] {
      RawsStep(u, s, steps[0], data);
      RawsRun(u, Apply(u, s, steps[0]), steps[1..], s', data);
    }
  }

  lemma InvStep(u: Setup, before: Bytes, s: State, step: Step)
    requires SetupOk(u) && Inv(u, before, s) && Enabled(u, s, step)
    requires step.Fetched? ==> |step.data| <= u.blockSize
    ensures Inv(u, before, Apply(u, s, step))
  {
    SoundStep(u, s, step);
    RawsStep(u, s, step, AtMostABlock(u));
    FileStep(u, before, s, step);
  }

  lemma {:induction false} InvRun(u: Setup, before: Bytes, s: State, steps: seq<Step>, s': State)
    requires SetupOk(u) && Inv(u, before, s) && Reaches(u, s, steps, s') && AllDataFit(u, steps)
    ensures Inv(u, before, s')
    decreases |steps|
  {
    if steps != [] {
      InvStep(u, before, s, steps[0]);
      assert AllDataFit(u, steps[1..]);
      InvRun(u, before, Apply(u, s, steps[0]), steps[1..], s');
    }
  }

  lemma ReachableInv(u: Setup, workers: nat, before: Bytes, steps: seq<Step>, s: State)
    requires SetupOk(u) && Reaches(u, Start(workers, before), steps, s) && AllDataFit(u, steps)
    ensures Inv(u, before, s)
  {
    StartInv(u, workers, before);
    InvRun(u, before, Start(workers, before), steps, s);
  }

  /******* Results over every run *******/

  // In every reachable state each fed block is in one place, what was written
  // passed its check, blocks are dropped only after a recorded failure, and the
  // channels are closed only when nobody is left to send.
  lemma EveryStateIsSound(u: Setup, workers: nat, before: Bytes, steps: seq<Step>, s: State)
    requires Reaches(u, Start(workers, before), steps, s)
    ensures Conserved(u, s) && (s.lost != {} <==> s.err.Some?)
    ensures forall i :: i in s.got ==> Accepted(u, i, s.got[i])
    ensures !s.resultsOpen ==> forall w :: 0 <= w < |s.workers| ==> s.workers[w].Gone?
    ensures !s.resultsOpen ==> !s.feedOpen
  {
    ReachableSound(u, workers, before, steps, s);
  }

  // In every reachable state, of failing runs too, the file holds each written
  // block at its place; and unless a write failed, nothing else in it changed.
  lemma EveryBlockIsInPlace(u: Setup, workers: nat, before: Bytes, steps: seq<Step>, s: State)
    requires SetupOk(u) && Reaches(u, Start(workers, before), steps, s) && AllDataFit(u, steps)
    ensures forall i :: i in s.got ==> HoldsAt(s.file, Offset(i, u.blockSize), s.got[i])
    ensures !(s.consumer.Returned? && s.consumer.outcome.WriteFailed?) ==> Painted(before, s.file, u.blockSize, s.got)
  {
    ReachableInv(u, workers, before, steps, s);
  }

  predicate Succeeded(s: State) {
    s.consumer == Returned(Success)
  }

  // One datum for each block, each of which passed its check.
  ghost predicate AllAccepted(u: Setup, contents: seq<Bytes>) {
    |contents| == |u.blocks| && forall i :: 0 <= i < |contents| ==> Accepted(u, i, contents[i])
  }

  lemma SuccessWroteAll(u: Setup, workers: nat, before: Bytes, steps: seq<Step>, s: State)
    returns (contents: seq<Bytes>)
    requires Reaches(u, Start(workers, before), steps, s) && Succeeded(s)
    ensures AllAccepted(u, contents) && s.got == AsMap(contents) && s.lost == {}
  {
    ReachableSound(u, workers, before, steps, s);
    assert forall w: nat, i: nat :: !Held(s, w, i);
    forall i: nat ensures i < |u.blocks| <==> i in s.got {
      assert i < s.fed <==> Placed(s, i);
    }
    contents := seq(|u.blocks|, i requires 0 <= i < |u.blocks| => s.got[i]);
    assert s.got == AsMap(contents);
  }

  // Steps that are on the way to a nil return drop nothing and fail no write, and
  // what they fetch is written: it is among the data of the blocks in the end.
  lemma NilStepKeeps(u: Setup, s: State, step: Step, data: iset<Bytes>)
    requires Sound(u, s) && Enabled(u, s, step)
    requires var next := Apply(u, s, step);
      RawsIn(next, data) && next.lost == {} && (next.consumer.Returned? ==> Succeeded(next))
    ensures RawsIn(s, data) && s.lost == {} && (s.consumer.Returned? ==> Succeeded(s))
    ensures step.Fetched? ==> step.data in data
  {
    var next := Apply(u, s, step);
    forall v | 0 <= v < |s.workers| && s.workers[v].Offering? ensures s.workers[v].raw in data {
      assert next.workers[v] == s.workers[v] || step == Deliver(v);
    }
    if step.Fetched? {
      assert next.workers[step.w].raw == step.data;
    }
    if step.Write? {
      assert InHand(s, s.consumer.index);
      assert next.got[s.consumer.index] == s.consumer.raw;
      assert forall i :: i in s.got ==> next.got[i] == s.got[i];
    }
  }

  lemma {:induction false} NilKeepsAll(u: Setup, s: State, steps: seq<Step>, s': State, data: iset<Bytes>)
    requires Sound(u, s) && Reaches(u, s, steps, s') && Succeeded(s')
    requires forall i :: i in s'.got ==> s'.got[i] in data
    ensures RawsIn(s, data) && s.lost == {} && (s.consumer.Returned? ==> Succeeded(s)) && Drawn(steps, data)
    decreases |steps|
  {
    if steps != [] {
      SoundStep(u, s, steps[0]);
      NilKeepsAll(u, Apply(u, s, steps[0]), steps[1..], s', data);
      NilStepKeeps(u, s, steps[0], data);
    }
  }

  // A nil return means that no block was dropped and each was written once;
  // whatever the interleaving, the file is what writing them in order would leave,
  // unless one of them is longer than a block.
  lemma SuccessWritesInOrder(u: Setup, workers: nat, before: Bytes, steps: seq<Step>, s: State)
    returns (contents: seq<Bytes>)
    requires SetupOk(u) && Reaches(u, Start(workers, before), steps, s) && Succeeded(s)
    ensures AllAccepted(u, contents) && s.got == AsMap(contents) && s.lost == {}
    ensures (forall i :: 0 <= i < |contents| ==> |contents[i]| <= u.blockSize) ==>
              s.file == InOrder(before, u.blockSize, contents)
  {
    contents := SuccessWroteAll(u, workers, before, steps, s);
    if forall i :: 0 <= i < |contents| ==> |contents[i]| <= u.blockSize {
      StartInv(u, workers, before);
      NilKeepsAll(u, Start(workers, before), steps, s, AtMostABlock(u));
      ReachableInv(u, workers, before, steps, s);
      AnyOrderIsInOrder(before, s.file, u.blockSize, contents);
    }
  }

  // With full blocks the file starts with their concatenation, and only what an
  // older and longer file had beyond it remains.
  lemma SuccessIsConcat(u: Setup, workers: nat, before: Bytes, steps: seq<Step>, s: State)
    returns (contents: seq<Bytes>)
    requires SetupOk(u) && Reaches(u, Start(workers, before), steps, s) && Succeeded(s)
    ensures AllAccepted(u, contents) && s.got == AsMap(contents)
    ensures FullBlocks(u.blockSize, contents) ==>
              && s.file == Over(before, Concat(contents))
              && (s.file == Concat(contents) <==> |before| <= |Concat(contents)|)
  {
    contents := SuccessWritesInOrder(u, workers, before, steps, s);
    if FullBlocks(u.blockSize, contents) {
      FullBlocksConcat(before, u.blockSize, contents);
    }
  }

  lemma WrittenWasFetched(u: Setup, workers: nat, before: Bytes, steps: seq<Step>, s: State, data: iset<Bytes>)
    requires Reaches(u, Start(workers, before), steps, s) && Drawn(steps, data)
    ensures forall i :: i in s.got ==> s.got[i] in data
  {
    RawsRun(u, Start(workers, before), steps, s, data);
  }

  /******* Failure *******/

  // The block of the first fetch in the run that fails.
  ghost function FirstFailure(u: Setup, s: State, steps: seq<Step>): Option<nat>
    decreases |steps|
  {
    if steps == [] || !Enabled(u, s, steps[0]) then None
    else if steps[0].FetchFailed? then Some(s.workers[steps[0].w].index)
    else FirstFailure(u, Apply(u, s, steps[0]), steps[1..])
  }

  ghost predicate NoFetchFails(steps: seq<Step>) {
    forall k :: 0 <= k < |steps| ==> !steps[k].FetchFailed?
  }

  lemma {:induction false} ErrIsFirstFailure(u: Setup, s: State, steps: seq<Step>, s': State)
    requires Reaches(u, s, steps, s')
    ensures s'.err == if s.err.Some? then s.err else FirstFailure(u, s, steps)
    ensures FirstFailure(u, s, steps).None? <==> NoFetchFails(steps)
    decreases |steps|
  {
    if steps != [] {
      ErrIsFirstFailure(u, Apply(u, s, steps[0]), steps[1..], s');
      assert NoFetchFails(steps) <==> !steps[0].FetchFailed? && NoFetchFails(steps[1..]) by {
        assert forall k :: 0 < k < |steps| ==> steps[k] == steps[1..][k - 1];
      }
    }
  }

  // A failure that is returned is that of the first fetch that failed, and its
  // block is among those that were never written.
  lemma FailureIsTheFirst(u: Setup, workers: nat, before: Bytes, steps: seq<Step>, s: State, i: nat)
    requires Reaches(u, Start(workers, before), steps, s)
    requires s.consumer == Returned(BlockFailed(i))
    ensures FirstFailure(u, Start(workers, before), steps) == Some(i)
    ensures i < |u.blocks| && i in s.lost && i !in s.got
  {
    ReachableSound(u, workers, before, steps, s);
    ErrIsFirstFailure(u, Start(workers, before), steps, s);
    assert Placed(s, i);
  }

  // A download whose writes succeed returns nil iff no fetch failed.
  lemma NilIffNoFetchFails(u: Setup, workers: nat, before: Bytes, steps: seq<Step>, s: State)
    requires Reaches(u, Start(workers, before), steps, s)
    requires s.consumer.Returned? && !s.consumer.outcome.WriteFailed?
    ensures Succeeded(s) <==> NoFetchFails(steps)
  {
    ReachableSound(u, workers, before, steps, s);
    ErrIsFirstFailure(u, Start(workers, before), steps, s);
  }

  /******* Termination and deadlock freedom *******/

  function Weight(w: Worker): nat {
    match w
    case Gone => 0
    case Ready => 1
    case Offering(_, _) => 3
    case Fetching(_) => 4
  }

  function Weights(workers: seq<Worker>): nat {
    if workers == [] then 0 else Weight(workers[0]) + Weights(workers[1..])
  }

  // Unfed blocks, worker phases, open channels and the consumer.
  function Measure(u: Setup, s: State): nat {
    4 * (if s.fed <= |u.blocks| then |u.blocks| - s.fed else 0) + Weights(s.workers)
    + (if s.feedOpen then 1 else 0) + (if s.resultsOpen then 1 else 0)
    + match s.consumer case Receiving => 1 case Writing(_, _) => 2 case Returned(_) => 0
  }

  lemma {:induction false} WeightsUpdate(workers: seq<Worker>, w: nat, x: Worker)
    requires w < |workers|
    ensures Weights(workers[w := x]) == Weights(workers) - Weight(workers[w]) + Weight(x)
  {
    if w > 0 {
      assert workers[w := x][1..] == workers[1..][w - 1 := x];
      WeightsUpdate(workers[1..], w - 1, x);
    } else {
      assert workers[w := x][1..] == workers[1..];
    }
  }

  lemma {:induction false} WeightsOfReady(n: nat)
    ensures Weights(seq(n, _ => Ready)) == n
  {
    if n > 0 {
      assert seq(n, _ => Ready)[1..] == seq(n - 1, _ => Ready);
      WeightsOfReady(n - 1);
    }
  }

  lemma StepDecreases(u: Setup, s: State, step: Step)
    requires Enabled(u, s, step)
    ensures Measure(u, Apply(u, s, step)) < Measure(u, s)
  {
    match step
    case Feed(w) => WeightsUpdate(s.workers, w, Fetching(s.fed));
    case Fetched(w, data) => WeightsUpdate(s.workers, w, Offering(s.workers[w].index, data));
    case FetchFailed(w) => WeightsUpdate(s.workers, w, Gone);
    case Deliver(w) => WeightsUpdate(s.workers, w, Ready);
    case Abandon(w) => WeightsUpdate(s.workers, w, Gone);
    case Leave(w) => WeightsUpdate(s.workers, w, Gone);
    case _ =>
  }

  lemma {:induction false} RunIsShort(u: Setup, s: State, steps: seq<Step>, s': State)
    requires Reaches(u, s, steps, s')
    ensures |steps| + Measure(u, s') <= Measure(u, s)
    decreases |steps|
  {
    if steps != [] {
      StepDecreases(u, s, steps[0]);
      RunIsShort(u, Apply(u, s, steps[0]), steps[1..], s');
    }
  }

  // No run of a download has more than four steps a block, one a worker, and three.
  lemma RunsAreBounded(u: Setup, workers: nat, before: Bytes, steps: seq<Step>, s: State)
    requires Reaches(u, Start(workers, before), steps, s)
    ensures |steps| <= 4 * |u.blocks| + workers + 3
  {
    RunIsShort(u, Start(workers, before), steps, s);
    WeightsOfReady(workers);
  }

  // A party that can move, and a step of it. How a fetch or a write ends is up to
  // the storage and the disk; that it ends is all that is used.
  function NextStep(u: Setup, s: State): Option<Step> {
    if s.consumer.Returned? then None
    else if s.consumer.Writing? then Some(Write)
    else if !s.resultsOpen then Some(Return)
    else match Busy(s.workers)
      case Some(w) =>
        if s.workers[w].Offering? then Some(Deliver(w))
        else if s.workers[w].Fetching? then Some(FetchFailed(w))
        else if !s.feedOpen then Some(Leave(w))
        else if s.fed < |u.blocks| then Some(Feed(w))
        else Some(CloseFeed)
      case None =>
        if !s.feedOpen then Some(CloseResults)
        else if s.fed == |u.blocks| then Some(CloseFeed)
        else Some(StopFeed)
  }

  function Busy(workers: seq<Worker>): (w: Option<nat>)
    ensures w.Some? ==> w.value < |workers| && !workers[w.value].Gone?
    ensures w.None? ==> AllGone(workers)
  {
    if workers == [] then None
    else if !workers[0].Gone? then Some(0)
    else match Busy(workers[1..])
      case Some(w) => Some(w + 1)
      case None => None
  }

  lemma NextStepEnabled(u: Setup, s: State)
    requires SetupOk(u) && Sound(u, s) && |s.workers| > 0 && !s.consumer.Returned?
    ensures NextStep(u, s).Some? && Enabled(u, s, NextStep(u, s).value)
  {
    if s.consumer.Writing? {
      SeekIsExact(u, s.consumer.index);
    }
    if Busy(s.workers).None? {
      assert s.workers[0].Gone?;
    }
  }

  // With at least one worker no reachable state is stuck before the return.
  lemma NoDeadlock(u: Setup, workers: nat, before: Bytes, steps: seq<Step>, s: State)
    requires SetupOk(u) && Reaches(u, Start(workers, before), steps, s)
    requires workers > 0 && !s.consumer.Returned?
    ensures exists step :: Enabled(u, s, step) && !step.FailWrite?
  {
    ReachableSound(u, workers, before, steps, s);
    NextStepEnabled(u, s);
    assert Enabled(u, s, NextStep(u, s).value);
  }

  // What a download is before its first step: a negative count starts no worker.
  function Begun(u: Setup, setting: int, file: Bytes): State {
    var count := WorkerCount(setting, |u.blocks|);
    Start(if count < 0 then 0 else count, file)
  }

  // Workers start, and the download can move, iff the setting is not negative;
  // there are as many as asked for, or as there are blocks.
  lemma StuckIffNegative(u: Setup, setting: int, before: Bytes)
    requires SetupOk(u)
    ensures setting >= 0 <==> 1 <= |Begun(u, setting, before).workers| <= |u.blocks|
    ensures (exists step :: Enabled(u, Begun(u, setting, before), step)) <==> setting >= 0
    ensures setting >= 0 ==>
              var asked := if setting == 0 then 4 else setting;
              var count := |Begun(u, setting, before).workers|;
              count <= asked && (count == asked || count == |u.blocks|)
  {
    if setting >= 0 {
      assert Enabled(u, Begun(u, setting, before), Feed(0));
    }
  }

  lemma {:induction false} ReachesOneMore(u: Setup, s: State, steps: seq<Step>, s': State, step: Step)
    requires Reaches(u, s, steps, s') && Enabled(u, s', step)
    ensures Reaches(u, s, steps + [step], Apply(u, s', step))
    decreases |steps|
  {
    if steps == [] {
      assert Reaches(u, Apply(u, s, step), [], Apply(u, s', step));
    } else {
      assert (steps + [step])[1..] == steps[1..] + [step];
      ReachesOneMore(u, Apply(u, s, steps[0]), steps[1..], s', step);
    }
  }

  // Nothing is ruled out where the code leaves a choice: a fetch may fail or give any
  // data that passes its check; after a failure a worker with a result may hand it over
  // or give it up, and the feeder may feed another block or stop; a write may stop
  // anywhere.
  lemma ChoicesAreFree(u: Setup, s: State, w: nat)
    requires SetupOk(u) && Sound(u, s) && w < |s.workers|
    ensures s.workers[w].Fetching? ==>
              && Enabled(u, s, FetchFailed(w))
              && forall raw :: Accepted(u, s.workers[w].index, raw) ==> Enabled(u, s, Fetched(w, raw))
    ensures s.workers[w].Offering? && s.consumer.Receiving? ==>
              Enabled(u, s, Deliver(w)) && (s.err.Some? ==> Enabled(u, s, Abandon(w)))
    ensures s.workers[w].Ready? && s.feedOpen && s.fed < |u.blocks| ==>
              Enabled(u, s, Feed(w)) && (s.err.Some? ==> Enabled(u, s, StopFeed))
    ensures s.consumer.Writing? ==>
              Enabled(u, s, Write) && forall n: nat :: n <= |s.consumer.raw| ==> Enabled(u, s, FailWrite(n))
  {
    if s.consumer.Writing? {
      assert InHand(s, s.consumer.index) && Placed(s, s.consumer.index);
      SeekIsExact(u, s.consumer.index);
    }
    assert s.workers[w].Offering? ==> s.resultsOpen;
  }

  // The setting is given as an unsigned 64-bit number: from 2^63 on it is negative
  // when it is stored, and the download cannot begin.
  lemma BeginsIffSettingFits(u: Setup, nr: nat, before: Bytes)
    requires SetupOk(u) && nr < 0x1_0000_0000_0000_0000
    ensures (exists step :: Enabled(u, Begun(u, ToInt64(nr), before), step)) <==> nr < 0x8000_0000_0000_0000
  {
    StuckIffNegative(u, ToInt64(nr), before);
  }

  // The same step, with a fetch that fails replaced by one that succeeds.
  function Smooth(s: State, step: Step, contents: seq<Bytes>): Step {
    if step.FetchFailed? && step.w < |s.workers| && s.workers[step.w].Fetching? && s.workers[step.w].index < |contents|
    then Fetched(step.w, contents[s.workers[step.w].index])
    else step
  }

  ghost function OneOf(contents: seq<Bytes>): iset<Bytes> {
    iset raw: Bytes | raw in contents
  }

  lemma SmoothStepEnabled(u: Setup, s: State, contents: seq<Bytes>)
    requires SetupOk(u) && Sound(u, s) && |s.workers| > 0 && !s.consumer.Returned? && s.err.None?
        && AllAccepted(u, contents)
    ensures var step := Smooth(s, NextStep(u, s).value, contents);
      && Enabled(u, s, step) && !step.FetchFailed? && !step.FailWrite?
      && (step.Fetched? ==> step.data in contents)
  {
    NextStepEnabled(u, s);
    var step := NextStep(u, s).value;
    if step.FetchFailed? {
      FetchedIsFed(u, s, step.w);
    }
  }

  // Whenever each block has data that passes its check, some run fetches just
  // that data and returns nil.
  lemma SuccessExists(u: Setup, workers: nat, before: Bytes, contents: seq<Bytes>) returns (steps: seq<Step>, s: State)
    requires SetupOk(u) && workers > 0 && AllAccepted(u, contents)
    ensures Reaches(u, Start(workers, before), steps, s) && Succeeded(s) && Drawn(steps, OneOf(contents))
  {
    s, steps := Start(workers, before), [];
    StartInv(u, workers, before);
    while !s.consumer.Returned?
      invariant Reaches(u, Start(workers, before), steps, s) && Sound(u, s) && |s.workers| > 0
      invariant s.err.None? && Drawn(steps, OneOf(contents)) && (s.consumer.Returned? ==> Succeeded(s))
      decreases Measure(u, s)
    {
      SmoothStepEnabled(u, s, contents);
      var step := Smooth(s, NextStep(u, s).value, contents);
      SoundStep(u, s, step);
      StepDecreases(u, s, step);
      ReachesOneMore(u, Start(workers, before), steps, s, step);
      steps, s := steps + [step], Apply(u, s, step);
    }
  }
}
