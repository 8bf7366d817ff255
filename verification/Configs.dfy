/**
 Router configuration: what storage/router/config.go accepts, and that what it
 accepts makes routers that never look for a pool that does not exist.
 */
module Configs {
  import opened Prelude
  import opened Pools
  import opened Routers
  import Ranges

  const SUPPORTED_SCHEMES := ["ardb", "zdb", "redis"]

  // The URL parser is library code.
  type UrlParser = string -> Option<Destination>

  function NewDestination(parse: UrlParser, s: string): Option<Destination> {
    match parse(s)
    case None => None
    case Some(d) => if d.scheme in SUPPORTED_SCHEMES then Some(d) else None
  }

  // A destination is what its text parses to, if the scheme is one of three.
  lemma ThreeSchemes(parse: UrlParser, s: string)
    ensures NewDestination(parse, s).Some? <==>
              && parse(s).Some?
              && (|| parse(s).value.scheme == "ardb"
                  || parse(s).value.scheme == "zdb"
                  || parse(s).value.scheme == "redis")
    ensures NewDestination(parse, s).Some? ==> NewDestination(parse, s) == parse(s)
  {
    assert SUPPORTED_SCHEMES[0] == "ardb" && SUPPORTED_SCHEMES[1] == "zdb" && SUPPORTED_SCHEMES[2] == "redis";
  }

  // pools: for each name, destinations by hash range, both still text.
  datatype Config = Config(pools: map<string, map<string, string>>, lookup: seq<string>, cache: seq<string>)

  datatype Fault = NoLookup | NoPool(name: string) | BadRange(range: string) | BadDestination(dest: string)

  ghost predicate Has(c: Config, pool: string, range: string, dest: string) {
    pool in c.pools && range in c.pools[pool] && c.pools[pool][range] == dest
  }

  // What is wrong with a configuration.
  ghost predicate IsFault(parse: UrlParser, c: Config, f: Fault) {
    match f
    case NoLookup => c.lookup == []
    case NoPool(name) => (name in c.lookup || name in c.cache) && name !in c.pools
    case BadRange(range) => Ranges.NewRange(range).None? && exists pool, dest :: Has(c, pool, range, dest)
    case BadDestination(dest) => NewDestination(parse, dest).None? && exists pool, range :: Has(c, pool, range, dest)
  }

  ghost predicate ConfigOk(parse: UrlParser, c: Config) {
    forall f :: !IsFault(parse, c, f)
  }

  predicate RuleOk(parse: UrlParser, range: string, dest: string) {
    Ranges.NewRange(range).Some? && NewDestination(parse, dest).Some?
  }

  ghost predicate PoolOk(parse: UrlParser, cfg: map<string, string>) {
    forall range :: range in cfg ==> RuleOk(parse, range, cfg[range])
  }

  // Ranges and destinations all parse; names may still be dangling.
  ghost predicate RulesOk(parse: UrlParser, c: Config) {
    forall pool :: pool in c.pools ==> PoolOk(parse, c.pools[pool])
  }

  // Each entry of the pool made one rule, in some order.
  ghost predicate Built(parse: UrlParser, cfg: map<string, string>, order: seq<string>, rules: seq<Rule>) {
    && |order| == |rules|
    && (forall i, j :: 0 <= i < j < |order| ==> order[i] != order[j])
    && (forall i :: 0 <= i < |order| ==>
          && order[i] in cfg && RuleOk(parse, order[i], cfg[order[i]])
          && rules[i] == Rule(Ranges.NewRange(order[i]).value, NewDestination(parse, cfg[order[i]]).value))
  }

  ghost predicate BuiltPool(parse: UrlParser, cfg: map<string, string>, rules: seq<Rule>) {
    exists order :: Built(parse, cfg, order, rules) && forall range :: range in cfg ==> range in order
  }

  ghost predicate BuiltFrom(parse: UrlParser, c: Config, t: Table) {
    && t.lookup == c.lookup
    && t.cache == (set n | n in c.cache)
    && t.pools.Keys == c.pools.Keys
    && forall n :: n in c.pools ==> BuiltPool(parse, c.pools[n], t.pools[n])
  }

  // Every fault is reported, and nothing else is.
  method Valid(parse: UrlParser, c: Config) returns (faults: seq<Fault>)
    ensures forall f :: f in faults <==> IsFault(parse, c, f)
    ensures faults == [] <==> ConfigOk(parse, c)
  {
    faults := [];
    if |c.lookup| == 0 {
      faults := faults + [NoLookup];
    }
    faults := MissingPools(c, c.lookup, faults);
    faults := MissingPools(c, c.cache, faults);
    ghost var named := faults;
    var todo := c.pools.Keys;
    while todo != {}
      invariant todo <= c.pools.Keys
      invariant forall f :: f in faults <==>
          f in named || exists n :: n in c.pools.Keys - todo && IsPoolFault(parse, c.pools[n], f)
      decreases todo
    {
      var n :| n in todo;
      todo := todo - {n};
      faults := PoolFaults(parse, c.pools[n], faults);
    }
    forall f ensures f in faults <==> IsFault(parse, c, f) {
      if n :| n in c.pools && IsPoolFault(parse, c.pools[n], f) {
        var range :| IsRuleFault(parse, c.pools[n], range, f);
        assert Has(c, n, range, c.pools[n][range]);
      }
      if f.BadRange? && IsFault(parse, c, f) {
        var pool, dest :| Has(c, pool, f.range, dest);
        assert IsRuleFault(parse, c.pools[pool], f.range, f);
        assert IsPoolFault(parse, c.pools[pool], f);
      }
      if f.BadDestination? && IsFault(parse, c, f) {
        var pool, range :| Has(c, pool, range, f.dest);
        assert IsRuleFault(parse, c.pools[pool], range, f);
        assert IsPoolFault(parse, c.pools[pool], f);
      }
    }
    assert |faults| > 0 ==> faults[0] in faults;
  }

  method MissingPools(c: Config, names: seq<string>, before: seq<Fault>) returns (faults: seq<Fault>)
    ensures forall f :: f in faults <==> f in before || (f.NoPool? && f.name in names && f.name !in c.pools)
  {
    faults := before;
    for i := 0 to |names|
      invariant forall f :: f in faults <==> f in before || (f.NoPool? && f.name in names[..i] && f.name !in c.pools)
    {
      if names[i] !in c.pools {
        faults := faults + [NoPool(names[i])];
      }
    }
  }

  ghost predicate IsPoolFault(parse: UrlParser, cfg: map<string, string>, f: Fault) {
    exists range :: IsRuleFault(parse, cfg, range, f)
  }

  ghost predicate IsRuleFault(parse: UrlParser, cfg: map<string, string>, range: string, f: Fault) {
    range in cfg &&
    match f
    case BadRange(r) => r == range && Ranges.NewRange(range).None?
    case BadDestination(d) => d == cfg[range] && NewDestination(parse, cfg[range]).None?
    case _ => false
  }

  method RuleFaults(parse: UrlParser, cfg: map<string, string>, range: string, before: seq<Fault>)
    returns (faults: seq<Fault>)
    requires range in cfg
    ensures forall f :: f in faults <==> f in before || IsRuleFault(parse, cfg, range, f)
  {
    faults := before;
    if Ranges.NewRange(range).None? {
      faults := faults + [BadRange(range)];
    }
    if NewDestination(parse, cfg[range]).None? {
      faults := faults + [BadDestination(cfg[range])];
    }
  }

  method PoolFaults(parse: UrlParser, cfg: map<string, string>, before: seq<Fault>) returns (faults: seq<Fault>)
    ensures forall f :: f in faults <==> f in before || IsPoolFault(parse, cfg, f)
  {
    faults := before;
    var todo := cfg.Keys;
    while todo != {}
      invariant todo <= cfg.Keys
      invariant forall f :: f in faults ==> f in before || IsPoolFault(parse, cfg, f)
      invariant forall f :: f in before ==> f in faults
      invariant forall r, f :: r in cfg.Keys - todo && IsRuleFault(parse, cfg, r, f) ==> f in faults
      decreases todo
    {
      var range :| range in todo;
      todo := todo - {range};
      faults := RuleFaults(parse, cfg, range, faults);
    }
  }

  // Pools are built whether or not lookup and cache name them.
  method MakeRouter(parse: UrlParser, c: Config) returns (r: Option<Router>)
    ensures r.Some? <==> RulesOk(parse, c)
    ensures r.Some? ==> fresh(r.value) && r.value.Valid() && r.value.feed == []
    ensures r.Some? ==> BuiltFrom(parse, c, r.value.View())
  {
    var cache := set n | n in c.cache;
    var pools: map<string, ScanPool> := map[];
    var todo := c.pools.Keys;
    while todo != {}
      invariant todo <= c.pools.Keys && pools.Keys == c.pools.Keys - todo
      invariant forall n :: n in pools ==> fresh(pools[n]) && pools[n].Valid()
      invariant forall n :: n in pools ==> BuiltPool(parse, c.pools[n], pools[n].rules) && PoolOk(parse, c.pools[n])
      decreases todo
    {
      var name :| name in todo;
      todo := todo - {name};
      var rules := MakeRules(parse, c.pools[name]);
      if rules.None? {
        return None;
      }
      var pool := new ScanPool(rules.value);
      pools := pools[name := pool];
    }
    var router := new Router(pools, c.lookup, cache);
    return Some(router);
  }

  method MakeRules(parse: UrlParser, cfg: map<string, string>) returns (rules: Option<seq<Rule>>)
    ensures rules.Some? <==> PoolOk(parse, cfg)
    ensures rules.Some? ==> BuiltPool(parse, cfg, rules.value)
  {
    var made: seq<Rule> := [];
    ghost var order: seq<string> := [];
    var todo := cfg.Keys;
    while todo != {}
      invariant todo <= cfg.Keys && Built(parse, cfg, order, made)
      invariant forall range :: range in cfg ==> (range in order <==> range !in todo)
      decreases todo
    {
      var range :| range in todo;
      var hashRange := Ranges.NewRange(range);
      if hashRange.None? {
        assert !RuleOk(parse, range, cfg[range]);
        return None;
      }
      var dest := NewDestination(parse, cfg[range]);
      if dest.None? {
        assert !RuleOk(parse, range, cfg[range]);
        return None;
      }
      made := made + [Rule(hashRange.value, dest.value)];
      order := order + [range];
      todo := todo - {range};
    }
    assert forall range :: range in cfg ==> exists i :: 0 <= i < |order| && order[i] == range;
    return Some(made);
  }

  lemma FaultsOfRules(parse: UrlParser, c: Config)
    ensures (forall f: Fault :: f.BadRange? || f.BadDestination? ==> !IsFault(parse, c, f)) <==> RulesOk(parse, c)
  {
    if forall f: Fault :: f.BadRange? || f.BadDestination? ==> !IsFault(parse, c, f) {
      forall pool, range | pool in c.pools && range in c.pools[pool]
        ensures RuleOk(parse, range, c.pools[pool][range])
      {
        assert Has(c, pool, range, c.pools[pool][range]);
        assert !IsFault(parse, c, BadRange(range));
        assert !IsFault(parse, c, BadDestination(c.pools[pool][range]));
      }
    }
    if RulesOk(parse, c) {
      forall pool, range, dest | Has(c, pool, range, dest) ensures RuleOk(parse, range, dest) {
        assert PoolOk(parse, c.pools[pool]);
      }
    }
  }

  // What is right is a lookup that is not empty, over pools that exist as those of the
  // cache do, and ranges and destinations that parse.
  lemma ConfigOkIff(parse: UrlParser, c: Config)
    ensures ConfigOk(parse, c) <==>
              && c.lookup != [] && (forall n :: n in c.lookup || n in c.cache ==> n in c.pools)
              && RulesOk(parse, c)
  {
    FaultsOfRules(parse, c);
    if ConfigOk(parse, c) {
      assert !IsFault(parse, c, NoLookup);
      forall n | n in c.lookup || n in c.cache ensures n in c.pools {
        assert !IsFault(parse, c, NoPool(n));
      }
    }
  }

  // A valid configuration always makes a router, and its names all resolve.
  lemma ValidMakesClosed(parse: UrlParser, c: Config, t: Table)
    requires ConfigOk(parse, c)
    ensures RulesOk(parse, c)
    ensures BuiltFrom(parse, c, t) ==> Closed(t) && t.lookup != []
  {
    ConfigOkIff(parse, c);
  }

  // Routers made from valid configurations, merged in any number and with nil
  // routers among them, never look for a pool that does not exist.
  lemma ValidRoutersNeverMissPools(parse: UrlParser, rs: seq<Option<Table>>, configs: seq<Config>, t: Table,
          stores: Stores, key: Bytes)
    requires |configs| == |rs| && Merges(rs, |rs|, t) && KeyFits(t.pools, key)
    requires forall i :: 0 <= i < |rs| && rs[i].Some? ==>
               ConfigOk(parse, configs[i]) && BuiltFrom(parse, configs[i], rs[i].value)
    ensures Closed(t) && Answer(t.pools, t.lookup, stores, key) != Err(PoolNotFound)
  {
    forall i | 0 <= i < |rs| && rs[i].Some? ensures Closed(rs[i].value) {
      ValidMakesClosed(parse, configs[i], rs[i].value);
    }
    MergeOfClosedIsClosed(rs, t);
    ClosedNeverMissesPool(t.pools, t.lookup, stores, key);
  }
}
