/**
 The router of storage/router/router.go: ordered lookup over pools, the choice
 of what is written back to the cache pools, and the merging of routers under
 numbered names.
 */
module Routers {
  import opened Prelude
  import opened Pools

  // The routing decisions of a router, without its connections.
  datatype Table = Table(pools: map<string, seq<Rule>>, lookup: seq<string>, cache: set<string>)

  datatype Hit = Hit(src: string, data: Bytes)

  datatype Chunk = Chunk(key: Bytes, data: Bytes)

  // The key is at least as long as every bound in the table.
  predicate KeyFits(pools: map<string, seq<Rule>>, key: Bytes) {
    forall n :: n in pools ==> FitsAll(pools[n], key)
  }

  // Lookup and cache name only pools that exist.
  predicate Closed(t: Table) {
    && (forall n :: n in t.lookup ==> n in t.pools)
    && t.cache <= t.pools.Keys
  }

  // What an ordered lookup answers when no destination is given up.
  function Answer(pools: map<string, seq<Rule>>, lookup: seq<string>, stores: Stores, key: Bytes): Result<Hit, Error>
    requires KeyFits(pools, key)
  {
    if lookup == [] then Err(NotRoutable)
    else if lookup[0] !in pools then Err(PoolNotFound)
    else match PoolAnswer(pools[lookup[0]], stores, key)
      case Ok(data) => Ok(Hit(lookup[0], data))
      case Err(_) => Answer(pools, lookup[1..], stores, key)
  }

  lemma {:induction false} ClosedNeverMissesPool(pools: map<string, seq<Rule>>, lookup: seq<string>, stores: Stores,
          key: Bytes)
    requires KeyFits(pools, key)
    ensures (forall n :: n in lookup ==> n in pools) ==> Answer(pools, lookup, stores, key) != Err(PoolNotFound)
    ensures Answer(pools, lookup, stores, key).Ok? ==>
              Answer(pools, lookup, stores, key).value.src in lookup
  {
    if lookup != [] && lookup[0] in pools {
      ClosedNeverMissesPool(pools, lookup[1..], stores, key);
    }
  }

  // Up to position i every pool exists and has no answer.
  ghost predicate NoAnswerBefore(pools: map<string, seq<Rule>>, lookup: seq<string>, stores: Stores, key: Bytes, i: nat)
    requires KeyFits(pools, key)
  {
    i <= |lookup| && forall j :: 0 <= j < i ==> lookup[j] in pools && PoolAnswer(pools[lookup[j]], stores, key).Err?
  }

  // Position i of the lookup decides the answer.
  ghost predicate DecidedAt(pools: map<string, seq<Rule>>, lookup: seq<string>, stores: Stores, key: Bytes,
                            i: nat, answer: Result<Hit, Error>)
    requires KeyFits(pools, key)
  {
    && i < |lookup| && NoAnswerBefore(pools, lookup, stores, key, i)
    && match answer
       case Ok(hit) =>
         hit.src == lookup[i] && lookup[i] in pools && PoolAnswer(pools[lookup[i]], stores, key) == Ok(hit.data)
       case Err(_) => lookup[i] !in pools
  }

  // The answer is that of the first pool of the lookup that has one, unless a pool
  // before it is missing.
  lemma {:induction false} AnswerIsFirst(pools: map<string, seq<Rule>>, lookup: seq<string>, stores: Stores, key: Bytes)
    requires KeyFits(pools, key)
    ensures var answer := Answer(pools, lookup, stores, key);
      if answer == Err(NotRoutable) then NoAnswerBefore(pools, lookup, stores, key, |lookup|)
      else
        && (answer.Ok? || answer == Err(PoolNotFound))
        && exists i: nat :: DecidedAt(pools, lookup, stores, key, i, answer)
  {
    if lookup != [] {
      var answer, rest := Answer(pools, lookup, stores, key), lookup[1..];
      if lookup[0] in pools && PoolAnswer(pools[lookup[0]], stores, key).Err? {
        AnswerIsFirst(pools, rest, stores, key);
        if answer != Err(NotRoutable) {
          var i: nat :| DecidedAt(pools, rest, stores, key, i, answer);
          assert NoAnswerBefore(pools, lookup, stores, key, i + 1) by {
            assert forall j :: 0 < j < i + 1 ==> lookup[j] == rest[j - 1];
          }
          assert DecidedAt(pools, lookup, stores, key, i + 1, answer);
        } else {
          assert forall j :: 0 < j < |lookup| ==> lookup[j] == rest[j - 1];
        }
      } else {
        assert DecidedAt(pools, lookup, stores, key, 0, answer);
      }
    }
  }

  lemma {:induction false} AnswerConcat(pools: map<string, seq<Rule>>, a: seq<string>, b: seq<string>,
          stores: Stores, key: Bytes)
    requires KeyFits(pools, key)
    ensures Answer(pools, a + b, stores, key)
         == match Answer(pools, a, stores, key)
            case Err(NotRoutable) => Answer(pools, b, stores, key)
            case other => other
  {
    if a == [] {
      assert a + b == b;
    } else {
      assert (a + b)[1..] == a[1..] + b;
      AnswerConcat(pools, a[1..], b, stores, key);
    }
  }

  /******* What the code says about itself *******/

  // What the loop makes of the replies of the pools in lookup order, whatever kind
  // of pools they are. PoolNotFound stands for a pool that does not exist, and
  // ConnectionError for any failure of a pool but the two kinds of a miss.
  function Tried(replies: seq<Result<Bytes, Error>>): Result<Bytes, Error> {
    if replies == [] then Err(NotRoutable)
    else match replies[0]
      case Ok(data) => Ok(data)
      case Err(PoolNotFound) => Err(PoolNotFound)
      case Err(_) => Tried(replies[1..])
  }

  // What the comment in the loop says: only a miss goes on to the next pool.
  function TriedAsCommented(replies: seq<Result<Bytes, Error>>): Result<Bytes, Error> {
    if replies == [] then Err(NotRoutable)
    else match replies[0]
      case Err(NotRoutable) => TriedAsCommented(replies[1..])
      case Err(NotFound) => TriedAsCommented(replies[1..])
      case decided => decided
  }

  predicate Decides(reply: Result<Bytes, Error>) {
    reply.Ok? || reply.error == PoolNotFound
  }

  // No pool reports another failure before the loop ends.
  ghost predicate OnlyMisses(replies: seq<Result<Bytes, Error>>) {
    forall i :: 0 <= i < |replies| && replies[i] == Err(ConnectionError) ==>
      exists j :: 0 <= j < i && Decides(replies[j])
  }

  lemma OnlyMissesAfterFirst(replies: seq<Result<Bytes, Error>>)
    requires replies != [] && !Decides(replies[0]) && replies[0] != Err(ConnectionError)
    ensures OnlyMisses(replies) <==> OnlyMisses(replies[1..])
  {
    var rest := replies[1..];
    if OnlyMisses(replies) {
      forall i | 0 <= i < |rest| && rest[i] == Err(ConnectionError) ensures exists j :: 0 <= j < i && Decides(rest[j]) {
        assert replies[i + 1] == rest[i];
        var j :| 0 <= j < i + 1 && Decides(replies[j]);
        assert rest[j - 1] == replies[j];
      }
    }
    if OnlyMisses(rest) {
      forall i | 0 <= i < |replies| && replies[i] == Err(ConnectionError)
        ensures exists j :: 0 <= j < i && Decides(replies[j])
      {
        assert rest[i - 1] == replies[i];
        var j :| 0 <= j < i - 1 && Decides(rest[j]);
        assert replies[j + 1] == rest[j];
      }
    }
  }

  // The comment is right about a lookup iff no pool fails in another way than by
  // a miss before the lookup is decided.
  lemma {:induction false} CommentHoldsIffOnlyMisses(replies: seq<Result<Bytes, Error>>)
    ensures Tried(replies) == TriedAsCommented(replies) <==> OnlyMisses(replies)
  {
    if replies != [] && !Decides(replies[0]) {
      if replies[0] == Err(ConnectionError) {
        TriedIsNoFailure(replies);
        assert !OnlyMisses(replies);
      } else {
        CommentHoldsIffOnlyMisses(replies[1..]);
        OnlyMissesAfterFirst(replies);
      }
    }
  }

  lemma {:induction false} TriedIsNoFailure(replies: seq<Result<Bytes, Error>>)
    ensures Tried(replies) != Err(ConnectionError)
  {
    if replies != [] {
      TriedIsNoFailure(replies[1..]);
    }
  }

  // The first pool fails, the second one answers.
  lemma FailureIsPassed(data: Bytes)
    ensures var replies := [Err(ConnectionError), Ok(data)];
            Tried(replies) == Ok(data) && TriedAsCommented(replies) == Err(ConnectionError)
  {
    assert [Err(ConnectionError), Ok(data)][1..] == [Ok(data)];
  }

  lemma {:induction false} TriedAfterMisses(misses: seq<Result<Bytes, Error>>, reply: Result<Bytes, Error>)
    requires forall i :: 0 <= i < |misses| ==> !Decides(misses[i])
    ensures Tried(misses + [reply]) == Tried([reply]) && Tried(misses) == Err(NotRoutable)
  {
    if misses == [] {
      assert misses + [reply] == [reply];
    } else {
      assert (misses + [reply])[1..] == misses[1..] + [reply];
      TriedAfterMisses(misses[1..], reply);
    }
  }

  lemma SingleReply(reply: Result<Bytes, Error>)
    ensures Tried([reply]) == if Decides(reply) then reply else Err(NotRoutable)
  {
    var one := [reply];
    assert one[1..] == [];
  }

  /******* Numbered names *******/

  function Decimal(n: nat): (s: string)
    ensures s != "" && forall i :: 0 <= i < |s| ==> '0' <= s[i] <= '9'
  {
    (if n < 10 then "" else Decimal(n / 10)) + [('0' as int + n % 10) as char]
  }

  // The number that decimal digits write.
  function DecimalValue(s: string): int {
    if s == "" then 0 else 10 * DecimalValue(s[..|s| - 1]) + (s[|s| - 1] as int - '0' as int)
  }

  lemma {:induction false} DecimalIsTheNumber(n: nat)
    ensures DecimalValue(Decimal(n)) == n
    ensures Decimal(n)[0] == '0' ==> n == 0
  {
    var s := Decimal(n);
    assert s[..|s| - 1] == if n < 10 then "" else Decimal(n / 10);
    if n >= 10 {
      DecimalIsTheNumber(n / 10);
      assert s[0] == Decimal(n / 10)[0];
    }
  }

  lemma DecimalIsInjective(m: nat, n: nat)
    requires Decimal(m) == Decimal(n)
    ensures m == n
  {
    DecimalIsTheNumber(m);
    DecimalIsTheNumber(n);
  }

  function NameIn(i: nat, name: string): string {
    Decimal(i) + "." + name
  }

  // A decimal index holds no dot, so the first dot ends it.
  lemma NameIsInjective(i: nat, m: string, j: nat, n: string)
    requires NameIn(i, m) == NameIn(j, n)
    ensures i == j && m == n
  {
    var a, b, s := |Decimal(i)|, |Decimal(j)|, NameIn(i, m);
    assert s[a] == '.' && s[b] == '.';
    assert forall k :: 0 <= k < a ==> s[k] == Decimal(i)[k];
    assert forall k :: 0 <= k < b ==> s[k] == Decimal(j)[k];
    assert a == b;
    assert s[..a] == Decimal(i) && s[..b] == Decimal(j);
    assert s[a + 1..] == m && s[b + 1..] == n;
    DecimalIsInjective(i, j);
  }

  lemma FirstNames()
    ensures NameIn(0, "local") == "0.local" && NameIn(1, "remote") == "1.remote"
  {
    assert Decimal(0) == "0" && Decimal(1) == "1";
  }

  function NamesIn(i: nat, names: seq<string>): seq<string> {
    seq(|names|, k requires 0 <= k < |names| => NameIn(i, names[k]))
  }

  /******* Merging *******/

  function MergedLookup(rs: seq<Option<Table>>, upto: nat): seq<string>
    requires upto <= |rs|
  {
    if upto == 0 then []
    else if rs[upto - 1].None? then MergedLookup(rs, upto - 1)
    else MergedLookup(rs, upto - 1) + NamesIn(upto - 1, rs[upto - 1].value.lookup)
  }

  ghost predicate HasName(rs: seq<Option<Table>>, upto: nat, i: nat, n: string)
    requires upto <= |rs|
  {
    i < upto && rs[i].Some? && n in rs[i].value.pools
  }

  ghost predicate HasCache(rs: seq<Option<Table>>, upto: nat, i: nat, n: string)
    requires upto <= |rs|
  {
    i < upto && rs[i].Some? && n in rs[i].value.cache
  }

  // t holds exactly what the first upto routers hold, under their numbered names.
  ghost predicate Merges(rs: seq<Option<Table>>, upto: nat, t: Table)
    requires upto <= |rs|
  {
    && t.lookup == MergedLookup(rs, upto)
    && MergesPools(rs, upto, t.pools)
    && MergesCache(rs, upto, t.cache)
  }

  ghost predicate MergesPools(rs: seq<Option<Table>>, upto: nat, pools: map<string, seq<Rule>>)
    requires upto <= |rs|
  {
    && KeepsPools(rs, upto, pools)
    && (forall x :: x in pools ==> exists i: nat, n :: HasName(rs, upto, i, n) && x == NameIn(i, n))
  }

  ghost predicate KeepsPools(rs: seq<Option<Table>>, upto: nat, pools: map<string, seq<Rule>>)
    requires upto <= |rs|
  {
    forall i: nat, n :: HasName(rs, upto, i, n) ==>
      NameIn(i, n) in pools && pools[NameIn(i, n)] == rs[i].value.pools[n]
  }

  ghost predicate MergesCache(rs: seq<Option<Table>>, upto: nat, cache: set<string>)
    requires upto <= |rs|
  {
    && (forall i: nat, n :: HasCache(rs, upto, i, n) ==> NameIn(i, n) in cache)
    && (forall x :: x in cache ==> exists i: nat, n :: HasCache(rs, upto, i, n) && x == NameIn(i, n))
  }

  ghost predicate AllFit(rs: seq<Option<Table>>, key: Bytes) {
    forall i :: 0 <= i < |rs| && rs[i].Some? ==> KeyFits(rs[i].value.pools, key)
  }

  function Renamed(i: nat, r: Result<Hit, Error>): Result<Hit, Error> {
    match r
    case Ok(hit) => Ok(Hit(NameIn(i, hit.src), hit.data))
    case Err(e) => Err(e)
  }

  // Each router in turn; a missing pool ends the search, a miss goes on.
  ghost function AnswerInTurn(rs: seq<Option<Table>>, upto: nat, stores: Stores, key: Bytes): Result<Hit, Error>
    requires upto <= |rs| && AllFit(rs, key)
  {
    if upto == 0 then Err(NotRoutable)
    else
      var before := AnswerInTurn(rs, upto - 1, stores, key);
      if before != Err(NotRoutable) || rs[upto - 1].None? then before
      else
        Renamed(upto - 1, Answer(rs[upto - 1].value.pools, rs[upto - 1].value.lookup, stores, key))
  }

  lemma MergedKeyFits(rs: seq<Option<Table>>, t: Table, key: Bytes)
    requires Merges(rs, |rs|, t) && AllFit(rs, key)
    ensures KeyFits(t.pools, key)
  {
    forall x | x in t.pools ensures FitsAll(t.pools[x], key) {
      var i: nat, n :| HasName(rs, |rs|, i, n) && x == NameIn(i, n);
    }
  }

  // The i-th part's name n means in pools what it means in the part itself.
  ghost predicate SameUnder(own: map<string, seq<Rule>>, pools: map<string, seq<Rule>>, i: nat, n: string) {
    && (NameIn(i, n) in pools <==> n in own)
    && (n in own ==> pools[NameIn(i, n)] == own[n])
  }

  lemma FirstUnderName(own: map<string, seq<Rule>>, pools: map<string, seq<Rule>>, i: nat, lookup: seq<string>,
          stores: Stores, key: Bytes)
    requires KeyFits(own, key) && KeyFits(pools, key) && lookup != [] && SameUnder(own, pools, i, lookup[0])
    requires Answer(pools, NamesIn(i, lookup[1..]), stores, key) == Renamed(i, Answer(own, lookup[1..], stores, key))
    ensures Answer(pools, NamesIn(i, lookup), stores, key) == Renamed(i, Answer(own, lookup, stores, key))
  {
    assert NamesIn(i, lookup)[1..] == NamesIn(i, lookup[1..]);
    assert NamesIn(i, lookup)[0] == NameIn(i, lookup[0]);
  }

  // Looking up the same names under other names, in pools that agree on them.
  lemma {:induction false} AnswerUnderName(own: map<string, seq<Rule>>, pools: map<string, seq<Rule>>, i: nat,
                                           lookup: seq<string>, stores: Stores, key: Bytes)
    requires KeyFits(own, key) && KeyFits(pools, key)
    requires forall n :: SameUnder(own, pools, i, n)
    ensures Answer(pools, NamesIn(i, lookup), stores, key)
         == Renamed(i, Answer(own, lookup, stores, key))
  {
    if lookup != [] {
      AnswerUnderName(own, pools, i, lookup[1..], stores, key);
      assert SameUnder(own, pools, i, lookup[0]);
      FirstUnderName(own, pools, i, lookup, stores, key);
    }
  }

  // A source counts as a cache in the merged router iff it did in its own.
  lemma MergeKeepsMarks(rs: seq<Option<Table>>, t: Table, i: nat, n: string)
    requires Merges(rs, |rs|, t) && i < |rs| && rs[i].Some?
    ensures NameIn(i, n) in t.cache <==> n in rs[i].value.cache
    ensures NameIn(i, n) in t.pools <==> n in rs[i].value.pools
  {
    if NameIn(i, n) in t.cache {
      var j: nat, m :| HasCache(rs, |rs|, j, m) && NameIn(i, n) == NameIn(j, m);
      NameIsInjective(i, n, j, m);
    }
    if NameIn(i, n) in t.pools {
      var j: nat, m :| HasName(rs, |rs|, j, m) && NameIn(i, n) == NameIn(j, m);
      NameIsInjective(i, n, j, m);
    }
    assert n in rs[i].value.cache ==> HasCache(rs, |rs|, i, n);
    assert n in rs[i].value.pools ==> HasName(rs, |rs|, i, n);
  }

  lemma AnswerOfPart(rs: seq<Option<Table>>, t: Table, i: nat, stores: Stores, key: Bytes)
    requires i < |rs| && rs[i].Some? && Merges(rs, |rs|, t)
    requires KeyFits(rs[i].value.pools, key) && KeyFits(t.pools, key)
    ensures Answer(t.pools, NamesIn(i, rs[i].value.lookup), stores, key)
         == Renamed(i, Answer(rs[i].value.pools, rs[i].value.lookup, stores, key))
  {
    var r := rs[i].value;
    forall n ensures SameUnder(r.pools, t.pools, i, n) {
      MergeKeepsMarks(rs, t, i, n);
      assert n in r.pools ==> HasName(rs, |rs|, i, n);
    }
    AnswerUnderName(r.pools, t.pools, i, r.lookup, stores, key);
  }

  lemma AnswerThen(pools: map<string, seq<Rule>>, before: seq<string>, own: seq<string>, stores: Stores, key: Bytes,
                   first: Result<Hit, Error>, second: Result<Hit, Error>)
    requires KeyFits(pools, key)
    requires Answer(pools, before, stores, key) == first && Answer(pools, own, stores, key) == second
    ensures Answer(pools, before + own, stores, key) == if first == Err(NotRoutable) then second else first
  {
    AnswerConcat(pools, before, own, stores, key);
  }

  // In the given pools, the i-th part's numbered names answer as the part itself.
  ghost predicate PartAnswers(rs: seq<Option<Table>>, pools: map<string, seq<Rule>>, i: nat, stores: Stores, key: Bytes)
    requires AllFit(rs, key) && KeyFits(pools, key)
  {
    i < |rs| && rs[i].Some? ==>
      Answer(pools, NamesIn(i, rs[i].value.lookup), stores, key)
      == Renamed(i, Answer(rs[i].value.pools, rs[i].value.lookup, stores, key))
  }

  lemma {:induction false} MergedAnswerUpTo(rs: seq<Option<Table>>, pools: map<string, seq<Rule>>, upto: nat,
          stores: Stores, key: Bytes)
    requires upto <= |rs| && AllFit(rs, key) && KeyFits(pools, key)
    requires forall i: nat :: PartAnswers(rs, pools, i, stores, key)
    ensures Answer(pools, MergedLookup(rs, upto), stores, key) == AnswerInTurn(rs, upto, stores, key)
  {
    if upto > 0 {
      var i := upto - 1;
      MergedAnswerUpTo(rs, pools, i, stores, key);
      if rs[i].Some? {
        assert PartAnswers(rs, pools, i, stores, key);
        AnswerThen(pools, MergedLookup(rs, i), NamesIn(i, rs[i].value.lookup), stores, key,
          AnswerInTurn(rs, i, stores, key), Renamed(i, Answer(rs[i].value.pools, rs[i].value.lookup, stores, key)));
      }
    }
  }

  // A merged router answers as its routers would, asked one after the other.
  lemma MergeIsSequential(rs: seq<Option<Table>>, t: Table, stores: Stores, key: Bytes)
    requires Merges(rs, |rs|, t) && AllFit(rs, key)
    ensures KeyFits(t.pools, key)
    ensures Answer(t.pools, t.lookup, stores, key) == AnswerInTurn(rs, |rs|, stores, key)
  {
    MergedKeyFits(rs, t, key);
    forall i: nat ensures PartAnswers(rs, t.pools, i, stores, key) {
      if i < |rs| && rs[i].Some? {
        AnswerOfPart(rs, t, i, stores, key);
      }
    }
    MergedAnswerUpTo(rs, t.pools, |rs|, stores, key);
  }

  lemma {:induction false} MergedLookupNames(rs: seq<Option<Table>>, upto: nat, x: string)
    requires upto <= |rs| && x in MergedLookup(rs, upto)
    ensures exists i: nat, n :: i < upto && rs[i].Some? && n in rs[i].value.lookup && x == NameIn(i, n)
  {
    if x in MergedLookup(rs, upto - 1) {
      MergedLookupNames(rs, upto - 1, x);
    } else {
      var own := rs[upto - 1].value.lookup;
      var k :| 0 <= k < |own| && x == NamesIn(upto - 1, own)[k];
      assert own[k] in own && x == NameIn(upto - 1, own[k]);
    }
  }

  lemma MergeOfClosedIsClosed(rs: seq<Option<Table>>, t: Table)
    requires Merges(rs, |rs|, t)
    requires forall i :: 0 <= i < |rs| && rs[i].Some? ==> Closed(rs[i].value)
    ensures Closed(t)
  {
    forall x | x in t.lookup ensures x in t.pools {
      MergedLookupNames(rs, |rs|, x);
      var i: nat, n :| i < |rs| && rs[i].Some? && n in rs[i].value.lookup && x == NameIn(i, n);
      assert HasName(rs, |rs|, i, n);
    }
    forall x | x in t.cache ensures x in t.pools {
      var i: nat, n :| HasCache(rs, |rs|, i, n) && x == NameIn(i, n);
      assert HasName(rs, |rs|, i, n);
    }
  }

  /******* Writing back *******/

  // What a pool can reply: see Pools.
  ghost predicate PoolReplies(rules: seq<Rule>, stores: Stores, key: Bytes, reply: Result<Bytes, Error>)
    requires FitsAll(rules, key)
  {
    exists said :: RepliesOf(RoutesOf(rules, key), stores, key, said) && Concludes(RoutesOf(rules, key), said, reply)
  }

  // What the pools of the lookup that were asked replied, in their order: only the
  // last reply can end the search.
  ghost predicate AskedInOrder(pools: map<string, seq<Rule>>, lookup: seq<string>, stores: Stores, key: Bytes,
                               replies: seq<Result<Bytes, Error>>)
    requires KeyFits(pools, key)
  {
    && |replies| <= |lookup|
    && (forall i :: 0 <= i < |replies| ==>
          if lookup[i] !in pools then replies[i] == Err(PoolNotFound)
          else PoolReplies(pools[lookup[i]], stores, key, replies[i]))
    && (forall i :: 0 <= i < |replies| - 1 ==> !Decides(replies[i]))
  }

  ghost predicate NoneDecides(replies: seq<Result<Bytes, Error>>) {
    forall i :: 0 <= i < |replies| ==> !Decides(replies[i])
  }

  // The reply that ended the search, or a miss once all pools were asked.
  ghost predicate Found(lookup: seq<string>, replies: seq<Result<Bytes, Error>>, r: Result<Hit, Error>) {
    match r
    case Ok(hit) =>
      0 < |replies| <= |lookup| && hit.src == lookup[|replies| - 1] && replies[|replies| - 1] == Ok(hit.data)
    case Err(PoolNotFound) => replies != [] && replies[|replies| - 1] == Err(PoolNotFound)
    case Err(error) => error == NotRoutable && |replies| == |lookup| && NoneDecides(replies)
  }

  // The replies are what the pools answer when no destination is given up.
  ghost predicate TrueReplies(pools: map<string, seq<Rule>>, lookup: seq<string>, stores: Stores, key: Bytes,
                              replies: seq<Result<Bytes, Error>>)
    requires KeyFits(pools, key)
  {
    forall i :: 0 <= i < |replies| && i < |lookup| && lookup[i] in pools ==>
      replies[i] == PoolAnswer(pools[lookup[i]], stores, key)
  }

  lemma NothingAsked(pools: map<string, seq<Rule>>, lookup: seq<string>, stores: Stores, key: Bytes)
    requires KeyFits(pools, key)
    ensures AskedInOrder(pools, lookup, stores, key, []) && NoneDecides([])
    ensures TrueReplies(pools, lookup, stores, key, [])
  {}

  lemma HitIsFound(lookup: seq<string>, replies: seq<Result<Bytes, Error>>, data: Bytes)
    requires |replies| < |lookup|
    ensures Found(lookup, replies + [Ok(data)], Ok(Hit(lookup[|replies|], data)))
  {}

  lemma OneReplyMore(pools: map<string, seq<Rule>>, lookup: seq<string>, stores: Stores, key: Bytes,
                     replies: seq<Result<Bytes, Error>>, reply: Result<Bytes, Error>, said: seq<Reply>)
    requires KeyFits(pools, key) && |replies| < |lookup| && lookup[|replies|] in pools
    requires AskedInOrder(pools, lookup, stores, key, replies) && NoneDecides(replies)
    requires var dests := RoutesOf(pools[lookup[|replies|]], key);
             RepliesOf(dests, stores, key, said) && Concludes(dests, said, reply)
    ensures AskedInOrder(pools, lookup, stores, key, replies + [reply])
    ensures NoneDecides(replies + [reply]) <==> reply.Err?
  {
    assert PoolReplies(pools[lookup[|replies|]], stores, key, reply);
    var all := replies + [reply];
    assert all[|replies|] == reply;
  }

  lemma OneTrueReplyMore(pools: map<string, seq<Rule>>, lookup: seq<string>, stores: Stores, key: Bytes,
                         replies: seq<Result<Bytes, Error>>, reply: Result<Bytes, Error>)
    requires KeyFits(pools, key) && |replies| < |lookup| && lookup[|replies|] in pools
    requires TrueReplies(pools, lookup, stores, key, replies)
    requires reply == PoolAnswer(pools[lookup[|replies|]], stores, key)
    ensures TrueReplies(pools, lookup, stores, key, replies + [reply])
  {}

  lemma MissingPoolReply(pools: map<string, seq<Rule>>, lookup: seq<string>, stores: Stores, key: Bytes,
                         replies: seq<Result<Bytes, Error>>)
    requires KeyFits(pools, key) && |replies| < |lookup| && lookup[|replies|] !in pools
    requires AskedInOrder(pools, lookup, stores, key, replies) && NoneDecides(replies)
    ensures var all := replies + [Err(PoolNotFound)];
      && AskedInOrder(pools, lookup, stores, key, all) && Found(lookup, all, Err(PoolNotFound))
      && (TrueReplies(pools, lookup, stores, key, replies) ==> TrueReplies(pools, lookup, stores, key, all))
  {}

  lemma TrueRepliesAnswer(pools: map<string, seq<Rule>>, lookup: seq<string>, stores: Stores, key: Bytes,
                          replies: seq<Result<Bytes, Error>>, r: Result<Hit, Error>)
    requires KeyFits(pools, key) && AskedInOrder(pools, lookup, stores, key, replies) && Found(lookup, replies, r)
    requires TrueReplies(pools, lookup, stores, key, replies)
    ensures r == Answer(pools, lookup, stores, key)
  {
    AnswerIsFirst(pools, lookup, stores, key);
    var answer := Answer(pools, lookup, stores, key);
    if answer != Err(NotRoutable) {
      var i: nat :| DecidedAt(pools, lookup, stores, key, i, answer);
      assert r != Err(NotRoutable) ==> i == |replies| - 1;
    }
  }

  // The pools of the package report no failure but a miss.
  lemma ScanPoolsKeepComment(pools: map<string, seq<Rule>>, lookup: seq<string>, stores: Stores, key: Bytes,
                             replies: seq<Result<Bytes, Error>>)
    requires KeyFits(pools, key) && AskedInOrder(pools, lookup, stores, key, replies)
    ensures Tried(replies) == TriedAsCommented(replies)
  {
    CommentHoldsIffOnlyMisses(replies);
  }

  // What is found is what the loop makes of the replies.
  lemma FoundIsTried(pools: map<string, seq<Rule>>, lookup: seq<string>, stores: Stores, key: Bytes,
                     replies: seq<Result<Bytes, Error>>, r: Result<Hit, Error>)
    requires KeyFits(pools, key) && AskedInOrder(pools, lookup, stores, key, replies) && Found(lookup, replies, r)
    ensures Tried(replies) == if r.Ok? then Ok(r.value.data) else Err(r.error)
  {
    if replies != [] {
      var last := |replies| - 1;
      assert replies == replies[..last] + [replies[last]];
      TriedAfterMisses(replies[..last], replies[last]);
      SingleReply(replies[last]);
    }
  }

  lemma FoundIsHeld(pools: map<string, seq<Rule>>, lookup: seq<string>, stores: Stores, key: Bytes,
                    replies: seq<Result<Bytes, Error>>, hit: Hit)
    requires KeyFits(pools, key) && AskedInOrder(pools, lookup, stores, key, replies) && Found(lookup, replies, Ok(hit))
    ensures hit.src in lookup && hit.src in pools
    ensures exists d :: d in RoutesOf(pools[hit.src], key) && ReplyOf(stores, d.host, key) == Data(hit.data)
  {
    var last := |replies| - 1;
    assert lookup[last] in lookup && PoolReplies(pools[lookup[last]], stores, key, replies[last]);
    var dests := RoutesOf(pools[hit.src], key);
    var said :| RepliesOf(dests, stores, key, said) && Concludes(dests, said, Ok(hit.data));
    assert dests[|said| - 1] in dests;
  }

  // The hosts that a chunk for the key is written to.
  ghost function HostsOf(pools: map<string, seq<Rule>>, names: set<string>, key: Bytes): set<string>
    requires forall n :: n in names ==> n in pools && ScanFits(pools[n], key)
  {
    set n | n in names && RouteOf(pools[n], key).Some? :: RouteOf(pools[n], key).value.host
  }

  lemma OneHostMore(pools: map<string, seq<Rule>>, names: set<string>, name: string, key: Bytes)
    requires forall n :: n in names + {name} ==> n in pools && ScanFits(pools[n], key)
    ensures HostsOf(pools, names + {name}, key)
         == HostsOf(pools, names, key) + match RouteOf(pools[name], key)
                                         case Some(d) => {d.host}
                                         case None => {}
  {}

  // All the hosts of the pools that did not fail, and none but those of the pools.
  ghost predicate HostsBetween(pools: map<string, seq<Rule>>, done: set<string>, failed: set<string>, key: Bytes,
                               hosts: set<string>)
    requires forall n :: n in done ==> n in pools && ScanFits(pools[n], key)
  {
    HostsOf(pools, done - failed, key) <= hosts <= HostsOf(pools, done, key)
  }

  // The pool's routed host got the chunk, or nothing changed.
  ghost predicate Written(pools: map<string, seq<Rule>>, before: Stores, after: Stores, name: string, chunk: Chunk,
                          wrote: bool)
    requires name in pools && ScanFits(pools[name], chunk.key)
  {
    var route := RouteOf(pools[name], chunk.key);
    if wrote then route.Some? && after == Put(before, route.value.host, chunk.key, chunk.data) else after == before
  }

  // The chunk stands at hosts, where the pools that are done put it; failed are those
  // whose write was lost.
  ghost predicate Committed(pools: map<string, seq<Rule>>, done: set<string>, failed: set<string>, chunk: Chunk,
                            hosts: set<string>, before: Stores, after: Stores)
  {
    && failed <= done
    && (forall n :: n in done ==> n in pools && ScanFits(pools[n], chunk.key))
    && HostsBetween(pools, done, failed, chunk.key, hosts)
    && after == PutOnHosts(before, hosts, chunk.key, chunk.data)
  }

  lemma NothingCommitted(pools: map<string, seq<Rule>>, chunk: Chunk, stores: Stores)
    ensures Committed(pools, {}, {}, chunk, {}, stores, stores)
  {
    assert stores == PutOnHosts(stores, {}, chunk.key, chunk.data);
  }

  lemma CommittedOneMore(pools: map<string, seq<Rule>>, done: set<string>, failed: set<string>, chunk: Chunk,
                         hosts: set<string>, stores: Stores, before: Stores, after: Stores, name: string,
                         wrote: bool, lost: bool) returns (more: set<string>)
    requires Committed(pools, done, failed, chunk, hosts, stores, before) && name !in done
    requires name in pools && ScanFits(pools[name], chunk.key)
    requires Written(pools, before, after, name, chunk, wrote)
    requires wrote || lost || RouteOf(pools[name], chunk.key).None?
    ensures Committed(pools, done + {name}, failed + if lost then {name} else {}, chunk, more, stores, after)
  {
    HostsOneMore(pools, done, failed, chunk.key, hosts, name, wrote, lost);
    if wrote {
      PutOneMore(stores, hosts, RouteOf(pools[name], chunk.key).value.host, chunk.key, chunk.data);
    } else {
      assert hosts + {} == hosts;
    }
    more := hosts + if wrote then {RouteOf(pools[name], chunk.key).value.host} else {};
  }

  lemma HostsOneMore(pools: map<string, seq<Rule>>, done: set<string>, failed: set<string>, key: Bytes,
                     hosts: set<string>, name: string, wrote: bool, lost: bool)
    requires forall n :: n in done + {name} ==> n in pools && ScanFits(pools[n], key)
    requires name !in done && failed <= done && HostsBetween(pools, done, failed, key, hosts)
    requires wrote ==> RouteOf(pools[name], key).Some?
    requires wrote || lost || RouteOf(pools[name], key).None?
    ensures var more := hosts + if wrote then {RouteOf(pools[name], key).value.host} else {};
            HostsBetween(pools, done + {name}, failed + if lost then {name} else {}, key, more)
  {
    OneHostMore(pools, done, name, key);
    if lost {
      assert done + {name} - (failed + {name}) == done - failed;
    } else {
      assert done + {name} - failed == (done - failed) + {name};
      OneHostMore(pools, done - failed, name, key);
    }
  }

  function PutOnHosts(stores: Stores, hosts: set<string>, key: Bytes, data: Bytes): Stores {
    map h | h in stores.Keys + hosts :: if h in hosts then Server(stores, h)[key := data] else stores[h]
  }

  lemma PutOneMore(stores: Stores, hosts: set<string>, host: string, key: Bytes, data: Bytes)
    ensures Put(PutOnHosts(stores, hosts, key, data), host, key, data)
         == PutOnHosts(stores, hosts + {host}, key, data)
  {
    var one, all := Put(PutOnHosts(stores, hosts, key, data), host, key, data),
        PutOnHosts(stores, hosts + {host}, key, data);
    assert one.Keys == all.Keys;
    forall h | h in one ensures one[h] == all[h] {
      if h == host {
        assert Server(stores, h)[key := data][key := data] == Server(stores, h)[key := data];
      }
    }
  }

  /******* The router *******/

  function RulesOf(pools: map<string, ScanPool>): map<string, seq<Rule>> {
    map n | n in pools :: pools[n].rules
  }

  class Router {
    const pools: map<string, ScanPool>
    const lookup: seq<string>
    const cache: set<string>
    var feed: seq<Chunk>

    function View(): Table {
      Table(RulesOf(pools), lookup, cache)
    }

    ghost predicate Valid()
      reads pools.Values
    {
      forall n :: n in pools ==> pools[n].Valid()
    }

    constructor (pools: map<string, ScanPool>, lookup: seq<string>, cache: set<string>)
      ensures this.pools == pools && this.lookup == lookup && this.cache == cache && feed == []
    {
      this.pools, this.lookup, this.cache := pools, lookup, cache;
      feed := [];
    }

    // Every failure of a pool but its absence sends the search to the next one.
    method Lookup(net: Network, key: Bytes) returns (r: Result<Hit, Error>, ghost replies: seq<Result<Bytes, Error>>)
      requires Valid() && KeyFits(View().pools, key)
      modifies pools.Values, net
      ensures Valid() && net.stores == old(net.stores) && old(net.faults) <= net.faults
      ensures AskedInOrder(View().pools, lookup, net.stores, key, replies) && Found(lookup, replies, r)
      ensures net.faults < old(net.faults) + BLOCK_GET_RETRIES ==>
                r == Answer(View().pools, lookup, net.stores, key)
    {
      r, replies := Search(net, key);
      if net.faults < old(net.faults) + BLOCK_GET_RETRIES {
        TrueRepliesAnswer(View().pools, lookup, net.stores, key, replies, r);
      }
    }

    method Search(net: Network, key: Bytes) returns (r: Result<Hit, Error>, ghost replies: seq<Result<Bytes, Error>>)
      requires Valid() && KeyFits(View().pools, key)
      modifies pools.Values, net
      ensures Valid() && net.stores == old(net.stores) && old(net.faults) <= net.faults
      ensures AskedInOrder(View().pools, lookup, net.stores, key, replies) && Found(lookup, replies, r)
      ensures net.faults < old(net.faults) + BLOCK_GET_RETRIES ==>
                TrueReplies(View().pools, lookup, net.stores, key, replies)
    {
      ghost var rules := View().pools;
      replies := [];
      NothingAsked(rules, lookup, net.stores, key);
      for i := 0 to |lookup|
        invariant Valid() && net.stores == old(net.stores) && old(net.faults) <= net.faults
        invariant |replies| == i && AskedInOrder(rules, lookup, net.stores, key, replies) && NoneDecides(replies)
        invariant net.faults < old(net.faults) + BLOCK_GET_RETRIES ==>
                    TrueReplies(rules, lookup, net.stores, key, replies)
      {
        if lookup[i] !in pools {
          MissingPoolReply(rules, lookup, net.stores, key, replies);
          replies := replies + [Err(PoolNotFound)];
          return Err(PoolNotFound), replies;
        }
        assert rules[lookup[i]] == pools[lookup[i]].rules;
        var data;
        ghost var said;
        data, said := pools[lookup[i]].Get(net, key);
        OneReplyMore(rules, lookup, net.stores, key, replies, data, said);
        if net.faults < old(net.faults) + BLOCK_GET_RETRIES {
          OneTrueReplyMore(rules, lookup, net.stores, key, replies, data);
        }
        if data.Ok? {
          HitIsFound(lookup, replies, data.value);
          replies := replies + [data];
          return Ok(Hit(lookup[i], data.value)), replies;
        }
        replies := replies + [data];
      }
      return Err(NotRoutable), replies;
    }

    // Only a block that no cache pool answered is fed to the cache workers.
    method UpdateCache(src: string, key: Bytes, data: Bytes)
      modifies this
      ensures feed == old(feed) + if src in cache then [] else [Chunk(key, data)]
    {
      if src in cache {
        return;
      }
      feed := feed + [Chunk(key, data)];
    }

    method Get(net: Network, key: Bytes) returns (r: Result<Bytes, Error>)
      requires Valid() && KeyFits(View().pools, key)
      modifies this, pools.Values, net
      ensures Valid() && net.stores == old(net.stores)
      ensures r.Err? ==> feed == old(feed)
      ensures r.Ok? ==> exists src, d ::
                && src in lookup && src in View().pools && d in RoutesOf(View().pools[src], key)
                && ReplyOf(net.stores, d.host, key) == Data(r.value)
                && feed == old(feed) + if src in cache then [] else [Chunk(key, r.value)]
      ensures net.faults < old(net.faults) + BLOCK_GET_RETRIES ==>
                match Answer(View().pools, lookup, net.stores, key)
                case Ok(hit) => r == Ok(hit.data) && (feed == old(feed) <==> hit.src in cache)
                case Err(e) => r == Err(e)
    {
      ghost var replies;
      var hit;
      hit, replies := Lookup(net, key);
      if hit.Err? {
        return Err(hit.error);
      }
      FoundIsHeld(View().pools, lookup, net.stores, key, replies, hit.value);
      UpdateCache(hit.value.src, key, hit.value.data);
      return Ok(hit.value.data);
    }

    // One turn of a cache worker: the chunk goes to every cache pool, in no fixed
    // order, and a pool whose write fails does not keep it from the others.
    method Commit(net: Network) returns (chunk: Chunk, ghost failed: set<string>, ghost hosts: set<string>)
      requires Valid() && Closed(View()) && feed != []
      requires forall n :: n in cache ==> ScanFits(View().pools[n], feed[0].key)
      modifies this, pools.Values, net
      ensures Valid() && chunk == old(feed)[0] && feed == old(feed)[1..]
      ensures net.faults == old(net.faults) + |failed|
      ensures Committed(View().pools, cache, failed, chunk, hosts, old(net.stores), net.stores)
    {
      chunk, feed := feed[0], feed[1..];
      failed, hosts := WriteAll(net, chunk);
    }

    method WriteAll(net: Network, chunk: Chunk) returns (ghost failed: set<string>, ghost hosts: set<string>)
      requires Valid() && forall n :: n in cache ==> n in pools && ScanFits(View().pools[n], chunk.key)
      modifies pools.Values, net
      ensures Valid() && net.faults == old(net.faults) + |failed|
      ensures Committed(View().pools, cache, failed, chunk, hosts, old(net.stores), net.stores)
    {
      failed, hosts := {}, {};
      ghost var rules, done := View().pools, {};
      var todo := cache;
      NothingCommitted(rules, chunk, net.stores);
      while todo != {}
        invariant Valid() && todo <= cache && done == cache - todo && net.faults == old(net.faults) + |failed|
        invariant Committed(rules, done, failed, chunk, hosts, old(net.stores), net.stores)
        decreases todo
      {
        var name :| name in todo;
        ghost var was := net.stores;
        todo := todo - {name};
        ghost var wrote, lost := Write(net, name, chunk);
        hosts := CommittedOneMore(rules, done, failed, chunk, hosts, old(net.stores), was, net.stores,
          name, wrote, lost);
        done, failed := done + {name}, failed + if lost then {name} else {};
      }
      assert done == cache;
    }

    // One cache pool of the turn; a failure is logged and no more.
    method Write(net: Network, name: string, chunk: Chunk) returns (ghost wrote: bool, ghost lost: bool)
      requires Valid() && name in pools && ScanFits(View().pools[name], chunk.key)
      modifies pools.Values, net
      ensures Valid() && Written(View().pools, old(net.stores), net.stores, name, chunk, wrote)
      ensures net.faults == old(net.faults) + if lost then 1 else 0
      ensures wrote || lost || RouteOf(View().pools[name], chunk.key).None?
    {
      assert View().pools[name] == pools[name].rules;
      var r := pools[name].Set(net, chunk.key, chunk.data);
      lost := r != Err(NotRoutable) && r.Err?;
      wrote := r.Ok? || net.stores != old(net.stores);
    }
  }

  function Views(routers: seq<Router?>): seq<Option<Table>> {
    seq(|routers|, i requires 0 <= i < |routers| => if routers[i] == null then None else Some(routers[i].View()))
  }

  // all is pools and, under their numbered names, the first of own.
  ghost predicate Added(own: map<string, ScanPool>, i: nat, done: set<string>, pools: map<string, ScanPool>,
          all: map<string, ScanPool>)
    requires done <= own.Keys
  {
    && (forall x :: x in pools ==> x in all && all[x] == pools[x])
    && (forall n :: n in done ==> NameIn(i, n) in all && all[NameIn(i, n)] == own[n])
    && (forall x :: x in all ==> x in pools || AddedName(own, i, x))
  }

  ghost predicate AddedName(own: map<string, ScanPool>, i: nat, x: string) {
    exists n :: n in own && x == NameIn(i, n)
  }

  lemma AddOnePool(own: map<string, ScanPool>, i: nat, done: set<string>, name: string, pools: map<string, ScanPool>,
          all: map<string, ScanPool>)
    requires done <= own.Keys && name in own && Added(own, i, done, pools, all)
    requires NameIn(i, name) !in pools
    ensures Added(own, i, done + {name}, pools, all[NameIn(i, name) := own[name]])
  {
    forall n | n in done && NameIn(i, n) == NameIn(i, name) ensures n == name {
      NameIsInjective(i, n, i, name);
    }
    assert AddedName(own, i, NameIn(i, name));
  }

  // Every pool of the i-th router, under its numbered name.
  method AddPools(ghost rs: seq<Option<Table>>, i: nat, r: Router, pools: map<string, ScanPool>, ghost t: Table)
    returns (all: map<string, ScanPool>)
    requires i < |rs| && Merges(rs, i, t) && t.pools == RulesOf(pools)
    ensures Added(r.pools, i, r.pools.Keys, pools, all)
  {
    all := pools;
    var todo := r.pools.Keys;
    while todo != {}
      invariant todo <= r.pools.Keys && Added(r.pools, i, r.pools.Keys - todo, pools, all)
      decreases todo
    {
      var name :| name in todo;
      NewNameIsFresh(rs, i, t.pools, name);
      AddOnePool(r.pools, i, r.pools.Keys - todo, name, pools, all);
      assert r.pools.Keys - todo + {name} == r.pools.Keys - (todo - {name});
      todo := todo - {name};
      all := all[NameIn(i, name) := r.pools[name]];
    }
  }

  method AddNames(i: nat, names: seq<string>, lookup: seq<string>) returns (all: seq<string>)
    ensures all == lookup + NamesIn(i, names)
  {
    all := lookup;
    for k := 0 to |names|
      invariant all == lookup + NamesIn(i, names[..k])
    {
      all := all + [NameIn(i, names[k])];
      assert NamesIn(i, names[..k + 1]) == NamesIn(i, names[..k]) + [NameIn(i, names[k])];
    }
    assert names[..|names|] == names;
  }

  method AddMarks(i: nat, names: set<string>, cache: set<string>) returns (all: set<string>)
    ensures cache <= all
    ensures forall n :: n in names ==> NameIn(i, n) in all
    ensures forall x :: x in all ==> x in cache || exists n :: n in names && x == NameIn(i, n)
  {
    all := cache;
    var todo := names;
    while todo != {}
      invariant todo <= names && cache <= all
      invariant forall n :: n in names - todo ==> NameIn(i, n) in all
      invariant forall x :: x in all ==> x in cache || exists n :: n in names && x == NameIn(i, n)
      decreases todo
    {
      var name :| name in todo;
      todo := todo - {name};
      all := all + {NameIn(i, name)};
    }
  }

  predicate OwnsPool(r: Router?, n: string) {
    r != null && n in r.pools
  }

  ghost predicate OwnedBySome(routers: seq<Router?>, pool: ScanPool) {
    exists i, n :: 0 <= i < |routers| && OwnsPool(routers[i], n) && pool == routers[i].pools[n]
  }

  ghost predicate AllOwned(routers: seq<Router?>, pools: map<string, ScanPool>) {
    forall x :: x in pools ==> OwnedBySome(routers, pools[x])
  }

  lemma OwnedOneMore(routers: seq<Router?>, i: nat, pools: map<string, ScanPool>, all: map<string, ScanPool>)
    requires i < |routers| && routers[i] != null && AllOwned(routers, pools)
    requires Added(routers[i].pools, i, routers[i].pools.Keys, pools, all)
    ensures AllOwned(routers, all)
  {
    forall x | x in all ensures OwnedBySome(routers, all[x]) {
      if x !in pools {
        assert AddedName(routers[i].pools, i, x);
        var n :| n in routers[i].pools && x == NameIn(i, n);
        assert OwnsPool(routers[i], n);
      }
    }
  }

  lemma MergeOnePoolsMore(rs: seq<Option<Table>>, i: nat, own: map<string, ScanPool>, pools: map<string, ScanPool>,
          all: map<string, ScanPool>)
    requires i < |rs| && rs[i].Some? && rs[i].value.pools == RulesOf(own)
    requires MergesPools(rs, i, RulesOf(pools)) && Added(own, i, own.Keys, pools, all)
    ensures MergesPools(rs, i + 1, RulesOf(all))
  {
    KeepMorePools(rs, i, RulesOf(pools), RulesOf(all));
    forall x | x in all && x !in pools ensures exists n :: n in rs[i].value.pools && x == NameIn(i, n) {
      assert AddedName(own, i, x);
    }
    MergeMorePools(rs, i, RulesOf(pools), RulesOf(all));
  }

  method Merge(routers: seq<Router?>) returns (merged: Router)
    requires |routers| > 0
    ensures fresh(merged) && merged.feed == []
    ensures Merges(Views(routers), |routers|, merged.View())
    ensures AllOwned(routers, merged.pools)
  {
    ghost var rs := Views(routers);
    var pools: map<string, ScanPool>, lookup: seq<string>, cache: set<string> := map[], [], {};
    for i := 0 to |routers|
      invariant Merges(rs, i, Table(RulesOf(pools), lookup, cache)) && AllOwned(routers, pools)
    {
      ghost var before := Table(RulesOf(pools), lookup, cache);
      if routers[i] != null {
        var all := AddPools(rs, i, routers[i], pools, before);
        OwnedOneMore(routers, i, pools, all);
        assert rs[i] == Some(routers[i].View());
        MergeOnePoolsMore(rs, i, routers[i].pools, pools, all);
        pools := all;
        lookup := AddNames(i, routers[i].lookup, lookup);
        cache := AddMarks(i, routers[i].cache, cache);
        MergeMoreCache(rs, i, before.cache, cache);
      } else {
        MergeNoMore(rs, i, before);
      }
    }
    merged := new Router(pools, lookup, cache);
  }

  lemma NewNameIsFresh(rs: seq<Option<Table>>, i: nat, pools: map<string, seq<Rule>>, name: string)
    requires i < |rs| && MergesPools(rs, i, pools)
    ensures NameIn(i, name) !in pools
  {
    if NameIn(i, name) in pools {
      var j: nat, n :| HasName(rs, i, j, n) && NameIn(i, name) == NameIn(j, n);
      NameIsInjective(i, name, j, n);
    }
  }

  // How merging one router more changes the merged table.
  lemma KeepMorePools(rs: seq<Option<Table>>, i: nat, before: map<string, seq<Rule>>, after: map<string, seq<Rule>>)
    requires i < |rs| && rs[i].Some? && KeepsPools(rs, i, before)
    requires forall x :: x in before ==> x in after && after[x] == before[x]
    requires forall n :: n in rs[i].value.pools ==>
               NameIn(i, n) in after && after[NameIn(i, n)] == rs[i].value.pools[n]
    ensures KeepsPools(rs, i + 1, after)
  {
    forall j: nat, n | HasName(rs, i + 1, j, n)
      ensures NameIn(j, n) in after && after[NameIn(j, n)] == rs[j].value.pools[n]
    {
      if j < i {
        assert HasName(rs, i, j, n);
        assert NameIn(j, n) in before;
      }
    }
  }

  lemma MergeMorePools(rs: seq<Option<Table>>, i: nat, before: map<string, seq<Rule>>, after: map<string, seq<Rule>>)
    requires i < |rs| && rs[i].Some? && MergesPools(rs, i, before) && KeepsPools(rs, i + 1, after)
    requires forall x :: x in after ==> x in before || exists n :: n in rs[i].value.pools && x == NameIn(i, n)
    ensures MergesPools(rs, i + 1, after)
  {
    forall x | x in after ensures exists j: nat, n :: HasName(rs, i + 1, j, n) && x == NameIn(j, n) {
      if x in before {
        var j: nat, n :| HasName(rs, i, j, n) && x == NameIn(j, n);
        assert HasName(rs, i + 1, j, n);
      } else {
        var n :| n in rs[i].value.pools && x == NameIn(i, n);
        assert HasName(rs, i + 1, i, n);
      }
    }
  }

  lemma MergeMoreCache(rs: seq<Option<Table>>, i: nat, before: set<string>, after: set<string>)
    requires i < |rs| && rs[i].Some? && MergesCache(rs, i, before) && before <= after
    requires forall n :: n in rs[i].value.cache ==> NameIn(i, n) in after
    requires forall x :: x in after ==> x in before || exists n :: n in rs[i].value.cache && x == NameIn(i, n)
    ensures MergesCache(rs, i + 1, after)
  {
    forall j: nat, n | HasCache(rs, i + 1, j, n) ensures NameIn(j, n) in after {
      if j < i { assert HasCache(rs, i, j, n); }
    }
    forall x | x in after ensures exists j: nat, n :: HasCache(rs, i + 1, j, n) && x == NameIn(j, n) {
      if x in before {
        var j: nat, n :| HasCache(rs, i, j, n) && x == NameIn(j, n);
        assert HasCache(rs, i + 1, j, n);
      } else {
        var n :| n in rs[i].value.cache && x == NameIn(i, n);
        assert HasCache(rs, i + 1, i, n);
      }
    }
  }

  // A nil router adds nothing but takes a number.
  lemma MergeNoMore(rs: seq<Option<Table>>, i: nat, t: Table)
    requires i < |rs| && rs[i].None? && Merges(rs, i, t)
    ensures Merges(rs, i + 1, t)
  {
    assert forall j: nat, n :: HasName(rs, i + 1, j, n) <==> HasName(rs, i, j, n);
    assert forall j: nat, n :: HasCache(rs, i + 1, j, n) <==> HasCache(rs, i, j, n);
  }
}
