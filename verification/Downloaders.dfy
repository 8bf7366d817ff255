/**
 The downloader as code: one block fetched and checked, and the whole download
 as a scheduler that takes any step the protocol allows.
 */
module Downloaders {
  import opened Prelude
  import opened Files
  import opened Downloads

  // Decryption and decompression are library code.
  datatype Codec = Codec(decrypt: (Bytes, Bytes) -> Bytes, decode: Bytes -> Option<Bytes>, hash: Hash)

  datatype FetchError = StorageError | DecodeError | WrongHash

  // Hangs stands for a call that never returns.
  datatype DownloadError = NoBlocks | NoBlockSize | Hangs | Failed(outcome: Outcome)

  datatype Asked = Asked(key: Bytes, answer: Option<Bytes>)

  // A block store may fail; may says what it can ever answer under a key. The log
  // holds what it was asked, and its answers.
  class Storage {
    const may: (Bytes, Bytes) -> bool
    ghost var log: seq<Asked>

    constructor (may: (Bytes, Bytes) -> bool)
      ensures this.may == may && log == []
    {
      this.may := may;
      log := [];
    }

    method Get(key: Bytes) returns (body: Option<Bytes>)
      modifies this
      ensures body.Some? ==> may(key, body.value)
      ensures log == old(log) + [Asked(key, body)]
    {
      var any: Option<Bytes> := *;
      body := if any.Some? && may(key, any.value) then any else None;
      log := log + [Asked(key, body)];
    }
  }

  // What an answer for the block is worth.
  function FetchOf(codec: Codec, block: BlockInfo, answer: Option<Bytes>): Result<Bytes, FetchError> {
    if answer.None? then Err(StorageError)
    else match codec.decode(codec.decrypt(answer.value, block.decipher))
      case None => Err(DecodeError)
      case Some(data) => if codec.hash(data) == block.decipher then Ok(data) else Err(WrongHash)
  }

  // Data passes iff it is what the answer decodes to and what the block's key names;
  // otherwise the error says what was wrong.
  lemma FetchedIff(codec: Codec, block: BlockInfo, answer: Option<Bytes>, raw: Bytes)
    ensures var plain := if answer.Some? then codec.decode(codec.decrypt(answer.value, block.decipher)) else None;
      && (FetchOf(codec, block, answer) == Ok(raw) <==> plain == Some(raw) && codec.hash(raw) == block.decipher)
      && (FetchOf(codec, block, answer) == Err(StorageError) <==> answer.None?)
      && (FetchOf(codec, block, answer) == Err(DecodeError) <==> answer.Some? && plain.None?)
      && (FetchOf(codec, block, answer) == Err(WrongHash) <==> plain.Some? && codec.hash(plain.value) != block.decipher)
  {}

  // The data that the store may give for the blocks, each under its own key.
  ghost function Answers(may: (Bytes, Bytes) -> bool, codec: Codec, blocks: seq<BlockInfo>): iset<Bytes> {
    iset raw: Bytes | exists b, body :: b in blocks && may(b.key, body) && FetchOf(codec, b, Some(body)) == Ok(raw)
  }

  /******* What was fetched *******/

  // A block that was asked for, by its index, and the answer.
  datatype Attempt = Attempt(index: nat, answer: Option<Bytes>)

  predicate Indexed(blocks: seq<BlockInfo>, attempts: seq<Attempt>) {
    forall k :: 0 <= k < |attempts| ==> attempts[k].index < |blocks|
  }

  ghost function LogOf(blocks: seq<BlockInfo>, attempts: seq<Attempt>): seq<Asked>
    requires Indexed(blocks, attempts)
  {
    seq(|attempts|, k requires 0 <= k < |attempts| => Asked(blocks[attempts[k].index].key, attempts[k].answer))
  }

  predicate Fine(codec: Codec, blocks: seq<BlockInfo>, a: Attempt) {
    a.index < |blocks| && FetchOf(codec, blocks[a.index], a.answer).Ok?
  }

  ghost predicate AllFine(codec: Codec, blocks: seq<BlockInfo>, attempts: seq<Attempt>) {
    forall k :: 0 <= k < |attempts| ==> Fine(codec, blocks, attempts[k])
  }

  // The first attempt that failed was for the block.
  ghost predicate FailedFirst(codec: Codec, blocks: seq<BlockInfo>, attempts: seq<Attempt>, index: nat) {
    exists k :: 0 <= k < |attempts| && attempts[k].index == index && !Fine(codec, blocks, attempts[k])
                && forall j :: 0 <= j < k ==> Fine(codec, blocks, attempts[j])
  }

  ghost predicate Tried(attempts: seq<Attempt>, i: nat) {
    exists k :: 0 <= k < |attempts| && attempts[k].index == i
  }

  ghost predicate NoneTwice(attempts: seq<Attempt>) {
    forall j, k :: 0 <= j < k < |attempts| ==> attempts[j].index != attempts[k].index
  }

  ghost predicate BeingFetched(s: State, i: nat) {
    exists w: nat :: w < |s.workers| && s.workers[w] == Fetching(i)
  }

  // Of the blocks fed so far, those that no worker is fetching were asked for, once
  // each, and the recorded failure is that of the first that failed.
  ghost predicate Tracks(u: Setup, codec: Codec, s: State, attempts: seq<Attempt>) {
    && Indexed(u.blocks, attempts) && NoneTwice(attempts)
    && (forall i: nat :: i < s.fed <==> Tried(attempts, i) || BeingFetched(s, i))
    && (forall i: nat :: !(Tried(attempts, i) && BeingFetched(s, i)))
    && (match s.err
        case None => AllFine(codec, u.blocks, attempts)
        case Some(i) => FailedFirst(codec, u.blocks, attempts, i))
  }

  lemma TracksStart(u: Setup, codec: Codec, workers: nat, before: Bytes)
    ensures Tracks(u, codec, Start(workers, before), [])
  {}

  // A step that fetches nothing.
  lemma TracksOther(u: Setup, codec: Codec, s: State, step: Step, attempts: seq<Attempt>)
    requires Sound(u, s) && Enabled(u, s, step) && Tracks(u, codec, s, attempts) && !step.Fetched? && !step.FetchFailed?
    ensures Tracks(u, codec, Apply(u, s, step), attempts)
  {
    var next := Apply(u, s, step);
    assert next.err == s.err;
    if step.Feed? {
      assert next.workers[step.w] == Fetching(s.fed);
      forall i: nat ensures BeingFetched(next, i) <==> BeingFetched(s, i) || i == s.fed {
        if w: nat :| w < |s.workers| && s.workers[w] == Fetching(i) { assert next.workers[w] == Fetching(i); }
      }
    } else {
      forall i: nat ensures BeingFetched(next, i) <==> BeingFetched(s, i) {
        if w: nat :| w < |s.workers| && s.workers[w] == Fetching(i) { assert next.workers[w] == Fetching(i); }
      }
    }
  }

  lemma FetchEnds(u: Setup, s: State, step: Step, i: nat)
    requires Sound(u, s) && Enabled(u, s, step) && (step.Fetched? || step.FetchFailed?)
    ensures BeingFetched(Apply(u, s, step), i) <==> BeingFetched(s, i) && i != s.workers[step.w].index
  {
    var next := Apply(u, s, step);
    assert Held(s, step.w, s.workers[step.w].index);
    if w: nat :| w < |next.workers| && next.workers[w] == Fetching(i) {
      assert s.workers[w] == Fetching(i) && Held(s, w, i);
    }
    if w: nat :| w < |s.workers| && s.workers[w] == Fetching(i) {
      assert w != step.w ==> next.workers[w] == Fetching(i);
    }
  }

  lemma TracksFetch(u: Setup, codec: Codec, s: State, step: Step, attempts: seq<Attempt>, a: Attempt)
    requires Sound(u, s) && Enabled(u, s, step) && Tracks(u, codec, s, attempts) && (step.Fetched? || step.FetchFailed?)
    requires a.index == s.workers[step.w].index < |u.blocks| && (Fine(codec, u.blocks, a) <==> step.Fetched?)
    ensures Tracks(u, codec, Apply(u, s, step), attempts + [a])
  {
    assert BeingFetched(s, a.index);
    forall i: nat ensures BeingFetched(Apply(u, s, step), i) <==> BeingFetched(s, i) && i != a.index {
      FetchEnds(u, s, step, i);
    }
    TracksNext(u, codec, s, Apply(u, s, step), attempts, a);
  }

  lemma TracksNext(u: Setup, codec: Codec, s: State, next: State, attempts: seq<Attempt>, a: Attempt)
    requires Tracks(u, codec, s, attempts) && a.index < |u.blocks| && next.fed == s.fed
    requires BeingFetched(s, a.index) && forall i: nat :: BeingFetched(next, i) <==> BeingFetched(s, i) && i != a.index
    requires next.err == if s.err.Some? || Fine(codec, u.blocks, a) then s.err else Some(a.index)
    ensures Tracks(u, codec, next, attempts + [a])
  {
    forall i: nat ensures Tried(attempts + [a], i) <==> Tried(attempts, i) || i == a.index {
      TriedOneMore(attempts, a, i);
    }
    assert forall j :: 0 <= j < |attempts| ==> Tried(attempts, attempts[j].index);
    FailsOneMore(codec, u.blocks, attempts, a);
  }

  lemma TriedOneMore(attempts: seq<Attempt>, a: Attempt, i: nat)
    ensures Tried(attempts + [a], i) <==> Tried(attempts, i) || i == a.index
  {
    var more := attempts + [a];
    assert more[|attempts|] == a;
    if Tried(attempts, i) {
      var k :| 0 <= k < |attempts| && attempts[k].index == i;
      assert more[k].index == i;
    }
  }

  lemma FailsOneMore(codec: Codec, blocks: seq<BlockInfo>, attempts: seq<Attempt>, a: Attempt)
    ensures AllFine(codec, blocks, attempts) && Fine(codec, blocks, a) ==> AllFine(codec, blocks, attempts + [a])
    ensures AllFine(codec, blocks, attempts) && !Fine(codec, blocks, a) ==>
              FailedFirst(codec, blocks, attempts + [a], a.index)
    ensures forall i: nat :: FailedFirst(codec, blocks, attempts, i) ==> FailedFirst(codec, blocks, attempts + [a], i)
  {
    var more := attempts + [a];
    assert more[|attempts|] == a && forall k :: 0 <= k < |attempts| ==> more[k] == attempts[k];
  }

  // A run so far, that has fetched nothing but given data.
  ghost predicate InRun(u: Setup, start: State, steps: seq<Step>, s: State, data: iset<Bytes>) {
    Reaches(u, start, steps, s) && Sound(u, s) && |s.workers| > 0 && Drawn(steps, data)
  }

  lemma RunBegins(u: Setup, setting: int, before: Bytes, data: iset<Bytes>)
    requires SetupOk(u) && setting >= 0
    ensures InRun(u, Begun(u, setting, before), [], Begun(u, setting, before), data)
  {
    StuckIffNegative(u, setting, before);
    StartInv(u, |Begun(u, setting, before).workers|, before);
  }

  lemma RunGoesOn(u: Setup, start: State, steps: seq<Step>, s: State, data: iset<Bytes>, step: Step)
    requires InRun(u, start, steps, s, data) && Enabled(u, s, step) && (step.Fetched? ==> step.data in data)
    ensures InRun(u, start, steps + [step], Apply(u, s, step), data)
  {
    SoundStep(u, s, step);
    ReachesOneMore(u, start, steps, s, step);
  }

  lemma LogInTwo(blocks: seq<BlockInfo>, attempts: seq<Attempt>, more: seq<Attempt>, log: seq<Asked>)
    requires Indexed(blocks, more) && attempts <= more
    ensures log + LogOf(blocks, attempts) + LogOf(blocks, more[|attempts|..]) == log + LogOf(blocks, more)
  {}

  // How a download that was not refused ends: by the first fetch that failed, by a
  // write that failed, or with every block fetched.
  ghost predicate EndsAs(codec: Codec, blocks: seq<BlockInfo>, attempts: seq<Attempt>, writeFailed: bool,
                         outcome: Outcome) {
    match outcome
    case Success =>
      !writeFailed && AllFine(codec, blocks, attempts) && forall i: nat :: i < |blocks| ==> Tried(attempts, i)
    case BlockFailed(i) => !writeFailed && FailedFirst(codec, blocks, attempts, i)
    case WriteFailed(_) => writeFailed
  }

  lemma TracksEnd(u: Setup, codec: Codec, s: State, attempts: seq<Attempt>, writeFailed: bool)
    requires Sound(u, s) && Tracks(u, codec, s, attempts) && s.consumer.Returned?
    requires writeFailed <==> s.consumer.outcome.WriteFailed?
    ensures EndsAs(codec, u.blocks, attempts, writeFailed, s.consumer.outcome)
  {}

  // Some run of the protocol over the data turns before into after and returns
  // the outcome.
  ghost predicate Ran(u: Setup, setting: int, data: iset<Bytes>, before: Bytes, after: Bytes, outcome: Outcome) {
    exists steps, s :: RanBy(u, setting, data, before, after, outcome, steps, s)
  }

  ghost predicate RanBy(u: Setup, setting: int, data: iset<Bytes>, before: Bytes, after: Bytes, outcome: Outcome,
                        steps: seq<Step>, s: State) {
    && Reaches(u, Begun(u, setting, before), steps, s) && Drawn(steps, data)
    && s.file == after && s.consumer == Returned(outcome)
  }

  class Downloader {
    const workers: int
    const storage: Storage
    const blocks: seq<BlockInfo>
    const blockSize: nat
    const codec: Codec

    constructor (storage: Storage, codec: Codec, blocks: seq<BlockInfo>, blockSize: nat, workers: int)
      ensures this.storage == storage && this.codec == codec && this.blocks == blocks
      ensures this.blockSize == blockSize && this.workers == workers
    {
      this.storage, this.codec, this.blocks, this.blockSize, this.workers := storage, codec, blocks, blockSize, workers;
    }

    function Plan(): Setup {
      Setup(blocks, blockSize, codec.hash)
    }

    ghost function Data(): iset<Bytes> {
      Answers(storage.may, codec, blocks)
    }

    // The store is asked once, for the block's own key. Whatever it answers, only data
    // that hashes to the block's key passes.
    method DownloadBlock(block: BlockInfo) returns (r: Result<Bytes, FetchError>, ghost answer: Option<Bytes>)
      modifies storage
      ensures storage.log == old(storage.log) + [Asked(block.key, answer)]
      ensures answer.Some? ==> storage.may(block.key, answer.value)
      ensures r == FetchOf(codec, block, answer)
    {
      var body := storage.Get(block.key);
      answer := body;
      if body.None? {
        return Err(StorageError), answer;
      }
      var data := codec.decode(codec.decrypt(body.value, block.decipher));
      if data.None? {
        return Err(DecodeError), answer;
      }
      if codec.hash(data.value) != block.decipher {
        return Err(WrongHash), answer;
      }
      return Ok(data.value), answer;
    }

    // The scheduler's choice is arbitrary; the outcome of a download or a write is
    // the storage's and the disk's. A call that is refused or hangs asks for nothing.
    method Download(output: File) returns (r: Result<(), DownloadError>, ghost attempts: seq<Attempt>)
      requires |blocks| < 0x2000_0000 && blockSize <= 0xFFFF * 4096
      modifies output, output.inode, storage
      ensures blocks == [] <==> r == Err(NoBlocks)
      ensures blocks != [] && blockSize == 0 <==> r == Err(NoBlockSize)
      ensures blocks != [] && blockSize != 0 && workers < 0 <==> r == Err(Hangs)
      ensures r.Err? && !r.error.Failed? ==>
                attempts == [] && output.inode.bytes == old(output.inode.bytes) && output.faults == old(output.faults)
      ensures Indexed(blocks, attempts) && NoneTwice(attempts)
      ensures storage.log == old(storage.log) + LogOf(blocks, attempts) && output.faults >= old(output.faults)
      ensures r.Ok? || r.error.Failed? ==>
                var outcome := if r.Ok? then Success else r.error.outcome;
                && (r.Err? ==> outcome != Success)
                && EndsAs(codec, blocks, attempts, output.faults > old(output.faults), outcome)
                && Ran(Plan(), workers, Data(), old(output.inode.bytes), output.inode.bytes, outcome)
    {
      attempts := [];
      assert storage.log == storage.log + LogOf(blocks, []);
      if |blocks| == 0 {
        return Err(NoBlocks), [];
      }
      if blockSize == 0 {
        return Err(NoBlockSize), [];
      }
      if workers < 0 {
        return Err(Hangs), [];
      }
      var outcome;
      outcome, attempts := Run(output);
      match outcome {
        case Success => return Ok(()), attempts;
        case other => return Err(Failed(other)), attempts;
      }
    }

    method Run(output: File) returns (outcome: Outcome, ghost attempts: seq<Attempt>)
      requires SetupOk(Plan()) && workers >= 0
      modifies output, output.inode, storage
      ensures Indexed(blocks, attempts) && NoneTwice(attempts)
      ensures storage.log == old(storage.log) + LogOf(blocks, attempts) && output.faults >= old(output.faults)
      ensures EndsAs(codec, blocks, attempts, output.faults > old(output.faults), outcome)
      ensures Ran(Plan(), workers, Data(), old(output.inode.bytes), output.inode.bytes, outcome)
    {
      var u := Plan();
      var s := Begun(u, workers, output.inode.bytes);
      ghost var start, steps := s, [];
      attempts := [];
      RunBegins(u, workers, output.inode.bytes, Data());
      TracksStart(u, codec, |s.workers|, output.inode.bytes);
      assert storage.log == storage.log + LogOf(blocks, []);
      while !s.consumer.Returned?
        invariant InRun(u, start, steps, s, Data()) && Tracks(u, codec, s, attempts)
        invariant s.file == output.inode.bytes && storage.log == old(storage.log) + LogOf(blocks, attempts)
        invariant output.faults >= old(output.faults)
        invariant output.faults > old(output.faults) <==> s.consumer.Returned? && s.consumer.outcome.WriteFailed?
        decreases Measure(u, s)
      {
        ghost var was := attempts;
        var step;
        step, attempts := Take(u, s, output, attempts);
        LogInTwo(blocks, was, attempts, old(storage.log));
        StepDecreases(u, s, step);
        RunGoesOn(u, start, steps, s, Data(), step);
        steps := steps + [step];
        s := Apply(u, s, step);
      }
      assert RanBy(u, workers, Data(), old(output.inode.bytes), output.inode.bytes, s.consumer.outcome, steps, s);
      TracksEnd(u, codec, s, attempts, output.faults > old(output.faults));
      return s.consumer.outcome, attempts;
    }

    // Any step that can be taken now.
    method Choose(u: Setup, s: State) returns (step: Step)
      requires SetupOk(u) && Sound(u, s) && |s.workers| > 0 && !s.consumer.Returned?
      ensures Enabled(u, s, step)
    {
      NextStepEnabled(u, s);
      var any: Step := *;
      step := if Enabled(u, s, any) then any else NextStep(u, s).value;
    }

    method Take(u: Setup, s: State, output: File, ghost attempts: seq<Attempt>)
      returns (step: Step, ghost more: seq<Attempt>)
      requires u == Plan() && SetupOk(u) && Sound(u, s) && |s.workers| > 0
      requires !s.consumer.Returned? && s.file == output.inode.bytes && Tracks(u, codec, s, attempts)
      modifies output, output.inode, storage
      ensures Enabled(u, s, step) && Apply(u, s, step).file == output.inode.bytes
      ensures step.Fetched? ==> step.data in Data()
      ensures Tracks(u, codec, Apply(u, s, step), more) && attempts <= more
      ensures storage.log == old(storage.log) + LogOf(blocks, more[|attempts|..])
      ensures output.faults == old(output.faults) + if step.FailWrite? then 1 else 0
    {
      step := Choose(u, s);
      if step.Fetched? || step.FetchFailed? {
        step, more := TakeFetch(u, s, step.w, attempts);
      } else {
        if step.Write? || step.FailWrite? {
          step := WriteBlock(u, s, output);
        }
        TracksOther(u, codec, s, step, attempts);
        more := attempts;
        assert LogOf(blocks, []) == [];
      }
    }

    method TakeFetch(u: Setup, s: State, w: nat, ghost attempts: seq<Attempt>)
      returns (step: Step, ghost more: seq<Attempt>)
      requires u == Plan() && Sound(u, s) && w < |s.workers| && s.workers[w].Fetching? && Tracks(u, codec, s, attempts)
      modifies storage
      ensures Enabled(u, s, step) && (step.Fetched? || step.FetchFailed?) && Apply(u, s, step).file == s.file
      ensures step.Fetched? ==> step.data in Data()
      ensures Tracks(u, codec, Apply(u, s, step), more) && attempts <= more
      ensures storage.log == old(storage.log) + LogOf(blocks, more[|attempts|..])
    {
      FetchedIsFed(u, s, w);
      ghost var a;
      step, a := Fetch(u, s, w);
      TracksFetch(u, codec, s, step, attempts, a);
      more := attempts + [a];
      assert more[|attempts|..] == [a];
    }

    method Fetch(u: Setup, s: State, w: nat) returns (step: Step, ghost a: Attempt)
      requires u == Plan() && w < |s.workers| && s.workers[w].Fetching? && s.workers[w].index < |blocks|
      modifies storage
      ensures Enabled(u, s, step) && (step.Fetched? || step.FetchFailed?) && step.w == w
      ensures a.index == s.workers[w].index && storage.log == old(storage.log) + LogOf(blocks, [a])
      ensures match FetchOf(codec, blocks[a.index], a.answer)
              case Ok(raw) => step == Fetched(w, raw) && raw in Data()
              case Err(_) => step == FetchFailed(w)
    {
      var block := blocks[s.workers[w].index];
      ghost var answer;
      var raw;
      raw, answer := DownloadBlock(block);
      a := Attempt(s.workers[w].index, answer);
      step := if raw.Ok? then Fetched(w, raw.value) else FetchFailed(w);
    }

    method WriteBlock(u: Setup, s: State, output: File) returns (step: Step)
      requires u == Plan() && s.consumer.Writing? && s.file == output.inode.bytes
      modifies output, output.inode
      ensures Enabled(u, s, step) && (step.Write? || step.FailWrite?)
      ensures Apply(u, s, step).file == output.inode.bytes
      ensures output.faults == old(output.faults) + if step.FailWrite? then 1 else 0
    {
      var off := SeekOffset(s.consumer.index, blockSize);
      var ok := output.Seek(off);
      if !ok {
        return FailWrite(0);
      }
      var n := output.Write(s.consumer.raw);
      assert s.consumer.raw[..|s.consumer.raw|] == s.consumer.raw;
      step := if n == |s.consumer.raw| then Write else FailWrite(n);
    }
  }
}
