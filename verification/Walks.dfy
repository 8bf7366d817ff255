/**
 The walk of meta/store.go over a finite tree, and the pruned pre-order that it
 refines: a flat list in which every entry says where a skip continues.
 */
module Walks {
  import opened Prelude

  datatype Tree = Dir(name: string, kids: seq<Tree>) | Leaf(name: string)

  // ErrSkipDir is Skip; any other error ends the walk.
  datatype Verdict = Continue | Skip | Fail(error: string)

  datatype Visit = Visit(path: Path, isDir: bool, verdict: Verdict)

  // A callback may depend on everything it was called with before.
  type WalkFn = (seq<Visit>, Path, Tree) -> Verdict

  datatype Outcome = Outcome(log: seq<Visit>, error: Option<string>)

  /******* The recursion of the code *******/

  function WalkDir(fn: WalkFn, p: Path, t: Tree, log: seq<Visit>): Outcome
    requires t.Dir?
    decreases t, 1
  {
    var v := fn(log, p, t);
    var seen := log + [Visit(p, t.Dir?, v)];
    match v
    case Skip => Outcome(seen, None)
    case Fail(e) => Outcome(seen, Some(e))
    case Continue => WalkKids(fn, p, t.kids, seen)
  }

  function WalkKids(fn: WalkFn, p: Path, kids: seq<Tree>, log: seq<Visit>): Outcome
    decreases kids, 0
  {
    if kids == [] then Outcome(log, None)
    else
      var q := p + [kids[0].name];
      if kids[0].Dir? then
        var o := WalkDir(fn, q, kids[0], log);
        if o.error.Some? then o else WalkKids(fn, p, kids[1..], o.log)
      else
        var v := fn(log, q, kids[0]);
        var seen := log + [Visit(q, false, v)];
        match v
        case Skip => Outcome(seen, None)
        case Fail(e) => Outcome(seen, Some(e))
        case Continue => WalkKids(fn, p, kids[1..], seen)
  }

  // The callback as an object that remembers its calls.
  class Visitor {
    const fn: WalkFn
    var log: seq<Visit>

    constructor (fn: WalkFn)
      ensures this.fn == fn && log == []
    {
      this.fn, log := fn, [];
    }

    method Call(p: Path, t: Tree) returns (v: Verdict)
      modifies this
      ensures v == fn(old(log), p, t) && log == old(log) + [Visit(p, t.Dir?, v)]
    {
      v := fn(log, p, t);
      log := log + [Visit(p, t.Dir?, v)];
    }
  }

  method WalkDirectory(p: Path, t: Tree, visitor: Visitor) returns (error: Option<string>)
    requires t.Dir?
    modifies visitor
    ensures Outcome(visitor.log, error) == WalkDir(visitor.fn, p, t, old(visitor.log))
    decreases t
  {
    var v := visitor.Call(p, t);
    match v {
      case Skip => return None;
      case Fail(e) => return Some(e);
      case Continue =>
    }
    ghost var start := visitor.log;
    for i := 0 to |t.kids|
      invariant WalkKids(visitor.fn, p, t.kids, start) == WalkKids(visitor.fn, p, t.kids[i..], visitor.log)
    {
      var child := t.kids[i];
      assert t.kids[i..][0] == child && t.kids[i..][1..] == t.kids[i + 1..];
      var q := p + [child.name];
      if child.Dir? {
        var e := WalkDirectory(q, child, visitor);
        if e.Some? {
          return e;
        }
        continue;
      }
      var w := visitor.Call(q, child);
      match w {
        case Skip => return None;
        case Fail(e) => return Some(e);
        case Continue =>
      }
    }
    return None;
  }

  const NOT_FOUND := "not found"

  // root: what the lookup of p found. A root that is not a directory hands the
  // callback's own result back.
  method Walk(p: Path, root: Option<Tree>, visitor: Visitor) returns (r: Verdict)
    modifies visitor
    ensures root.None? ==> r == Fail(NOT_FOUND) && visitor.log == old(visitor.log)
    ensures root.Some? && root.value.Dir? ==>
              && r != Skip
              && Outcome(visitor.log, if r.Fail? then Some(r.error) else None)
                 == WalkDir(visitor.fn, p, root.value, old(visitor.log))
    ensures root.Some? && root.value.Leaf? ==>
              && r == visitor.fn(old(visitor.log), p, root.value)
              && visitor.log == old(visitor.log) + [Visit(p, false, r)]
  {
    if root.None? {
      return Fail(NOT_FOUND);
    }
    if root.value.Dir? {
      var e := WalkDirectory(p, root.value, visitor);
      return if e.Some? then Fail(e.value) else Continue;
    }
    r := visitor.Call(p, root.value);
  }

  /******* Pruned pre-order *******/

  // next: where the walk goes on when this entry is skipped.
  datatype Entry = Entry(path: Path, tree: Tree, next: nat)

  function Size(t: Tree): (n: nat)
    ensures n > 0
    decreases t, 1
  {
    match t
    case Leaf(_) => 1
    case Dir(_, kids) => 1 + Sizes(kids)
  }

  function Sizes(kids: seq<Tree>): nat
    decreases kids, 0
  {
    if kids == [] then 0 else Size(kids[0]) + Sizes(kids[1..])
  }

  // The tree in pre-order, placed at position base. A skipped directory goes on
  // behind its subtree, a skipped leaf behind the subtree of its parent.
  function Flat(p: Path, t: Tree, base: nat, end: nat): (es: seq<Entry>)
    ensures |es| == Size(t)
    decreases t, 1
  {
    match t
    case Leaf(_) => [Entry(p, t, end)]
    case Dir(_, kids) => [Entry(p, t, base + Size(t))] + FlatKids(p, kids, base + 1, base + Size(t))
  }

  function FlatKids(p: Path, kids: seq<Tree>, base: nat, end: nat): (es: seq<Entry>)
    ensures |es| == Sizes(kids)
    decreases kids, 0
  {
    if kids == [] then []
    else
      Flat(p + [kids[0].name], kids[0], base, end) + FlatKids(p, kids[1..], base + Size(kids[0]), end)
  }

  function PreOrder(p: Path, t: Tree): seq<Entry> {
    Flat(p, t, 0, Size(t))
  }

  ghost predicate Forward(es: seq<Entry>) {
    forall k :: 0 <= k < |es| ==> k < es[k].next <= |es|
  }

  // Left to right, with jumps.
  ghost function Run(fn: WalkFn, es: seq<Entry>, k: nat, log: seq<Visit>): Outcome
    requires Forward(es) && k <= |es|
    decreases |es| - k
  {
    if k == |es| then Outcome(log, None)
    else
      var v := fn(log, es[k].path, es[k].tree);
      var seen := log + [Visit(es[k].path, es[k].tree.Dir?, v)];
      match v
      case Continue => Run(fn, es, k + 1, seen)
      case Skip => Run(fn, es, es[k].next, seen)
      case Fail(e) => Outcome(seen, Some(e))
  }

  lemma {:induction false} FlatForward(p: Path, t: Tree, base: nat, end: nat)
    requires base + Size(t) <= end
    ensures forall k :: 0 <= k < Size(t) ==> base + k < Flat(p, t, base, end)[k].next <= end
    decreases t, 1
  {
    if t.Dir? {
      FlatKidsForward(p, t.kids, base + 1, base + Size(t));
    }
  }

  lemma {:induction false} FlatKidsForward(p: Path, kids: seq<Tree>, base: nat, end: nat)
    requires base + Sizes(kids) <= end
    ensures forall k :: 0 <= k < Sizes(kids) ==> base + k < FlatKids(p, kids, base, end)[k].next <= end
    decreases kids, 0
  {
    if kids != [] {
      FlatForward(p + [kids[0].name], kids[0], base, end);
      FlatKidsForward(p, kids[1..], base + Size(kids[0]), end);
    }
  }

  // What a finished or failed part of the walk leads to.
  ghost function Then(fn: WalkFn, es: seq<Entry>, o: Outcome, k: nat): Outcome
    requires Forward(es) && k <= |es|
  {
    if o.error.Some? then o else Run(fn, es, k, o.log)
  }

  // The entries of part stand in es from position base on.
  ghost predicate Placed(es: seq<Entry>, base: nat, part: seq<Entry>) {
    base + |part| <= |es| && forall k :: 0 <= k < |part| ==> es[base + k] == part[k]
  }

  lemma PlacedParts(es: seq<Entry>, base: nat, a: seq<Entry>, b: seq<Entry>)
    requires Placed(es, base, a + b)
    ensures Placed(es, base, a) && Placed(es, base + |a|, b)
  {
    forall k | 0 <= k < |a| ensures es[base + k] == a[k] { assert (a + b)[k] == a[k]; }
    forall k | 0 <= k < |b| ensures es[base + |a| + k] == b[k] { assert (a + b)[|a| + k] == b[k]; }
  }

  // One step of the run.
  lemma RunAt(fn: WalkFn, es: seq<Entry>, k: nat, log: seq<Visit>, e: Entry)
    requires Forward(es) && k < |es| && es[k] == e
    ensures var v := fn(log, e.path, e.tree);
            var seen := log + [Visit(e.path, e.tree.Dir?, v)];
            e.next <= |es| &&
            Run(fn, es, k, log) == match v
                                   case Continue => Run(fn, es, k + 1, seen)
                                   case Skip => Run(fn, es, e.next, seen)
                                   case Fail(error) => Outcome(seen, Some(error))
  {}

  // A directory's own entry comes first, its children's follow.
  lemma DirPlaced(es: seq<Entry>, p: Path, t: Tree, base: nat, end: nat)
    requires t.Dir? && Placed(es, base, Flat(p, t, base, end))
    ensures base < |es| && es[base] == Entry(p, t, base + Size(t))
    ensures Placed(es, base + 1, FlatKids(p, t.kids, base + 1, base + Size(t)))
  {
    var head := [Entry(p, t, base + Size(t))];
    PlacedParts(es, base, head, FlatKids(p, t.kids, base + 1, base + Size(t)));
    assert es[base + 0] == head[0];
  }

  lemma {:induction false} DirRuns(fn: WalkFn, es: seq<Entry>, p: Path, t: Tree, base: nat, end: nat, log: seq<Visit>)
    requires Forward(es) && t.Dir? && Placed(es, base, Flat(p, t, base, end))
    ensures Run(fn, es, base, log) == Then(fn, es, WalkDir(fn, p, t, log), base + Size(t))
    decreases t, 1
  {
    DirPlaced(es, p, t, base, end);
    RunAt(fn, es, base, log, Entry(p, t, base + Size(t)));
    var v := fn(log, p, t);
    if v == Continue {
      KidsRun(fn, es, p, t.kids, base + 1, base + Size(t), log + [Visit(p, t.Dir?, v)]);
    }
  }

  // A leaf's entry skips to the end of its siblings.
  lemma LeafRuns(fn: WalkFn, es: seq<Entry>, q: Path, leaf: Tree, base: nat, end: nat, log: seq<Visit>)
    requires Forward(es) && leaf.Leaf? && Placed(es, base, Flat(q, leaf, base, end))
    ensures var v := fn(log, q, leaf);
            var seen := log + [Visit(q, false, v)];
            base < |es| && end <= |es| &&
            Run(fn, es, base, log) == match v
                                      case Continue => Run(fn, es, base + 1, seen)
                                      case Skip => Run(fn, es, end, seen)
                                      case Fail(error) => Outcome(seen, Some(error))
  {
    assert es[base + 0] == Flat(q, leaf, base, end)[0];
    RunAt(fn, es, base, log, Entry(q, leaf, end));
  }

  // The first child's entries come first, those of its siblings follow.
  lemma KidsPlaced(es: seq<Entry>, p: Path, kids: seq<Tree>, base: nat, end: nat)
    requires kids != [] && Placed(es, base, FlatKids(p, kids, base, end))
    ensures Placed(es, base, Flat(p + [kids[0].name], kids[0], base, end))
    ensures Placed(es, base + Size(kids[0]), FlatKids(p, kids[1..], base + Size(kids[0]), end))
  {
    var n := Size(kids[0]);
    PlacedParts(es, base, Flat(p + [kids[0].name], kids[0], base, end), FlatKids(p, kids[1..], base + n, end));
  }

  lemma {:induction false} KidsRun(fn: WalkFn, es: seq<Entry>, p: Path, kids: seq<Tree>, base: nat, end: nat,
          log: seq<Visit>)
    requires Forward(es) && base + Sizes(kids) == end && Placed(es, base, FlatKids(p, kids, base, end))
    ensures Run(fn, es, base, log) == Then(fn, es, WalkKids(fn, p, kids, log), end)
    decreases kids, 0
  {
    if kids != [] {
      var q, n := p + [kids[0].name], Size(kids[0]);
      KidsPlaced(es, p, kids, base, end);
      if kids[0].Dir? {
        DirRuns(fn, es, q, kids[0], base, end, log);
        var o := WalkDir(fn, q, kids[0], log);
        if o.error.None? {
          KidsRun(fn, es, p, kids[1..], base + n, end, o.log);
        }
      } else {
        LeafRuns(fn, es, q, kids[0], base, end, log);
        var v := fn(log, q, kids[0]);
        if v == Continue {
          KidsRun(fn, es, p, kids[1..], base + n, end, log + [Visit(q, false, v)]);
        }
      }
    }
  }

  // The recursion makes the calls of the pruned pre-order, in its order, and ends
  // as it does.
  lemma WalkIsPrunedPreOrder(fn: WalkFn, p: Path, t: Tree)
    requires t.Dir?
    ensures Forward(PreOrder(p, t))
    ensures WalkDir(fn, p, t, []) == Run(fn, PreOrder(p, t), 0, [])
  {
    var es := PreOrder(p, t);
    FlatForward(p, t, 0, Size(t));
    DirRuns(fn, es, p, t, 0, Size(t), []);
  }

  /******* What a walk visits *******/

  ghost predicate UniqueNames(t: Tree)
    decreases t, 1
  {
    t.Dir? ==> UniqueKids(t.kids)
  }

  ghost predicate UniqueKids(kids: seq<Tree>)
    decreases kids, 0
  {
    kids != [] ==>
      && (forall j :: 0 < j < |kids| ==> kids[j].name != kids[0].name)
      && UniqueNames(kids[0]) && UniqueKids(kids[1..])
  }

  ghost predicate Within(p: Path, q: Path) {
    p <= q
  }

  ghost predicate DistinctPaths(es: seq<Entry>) {
    forall i, j :: 0 <= i < j < |es| ==> es[i].path != es[j].path
  }

  lemma {:induction false} FlatWithin(p: Path, t: Tree, base: nat, end: nat)
    ensures forall k :: 0 <= k < Size(t) ==> Within(p, Flat(p, t, base, end)[k].path)
    decreases t, 1
  {
    if t.Dir? {
      FlatKidsWithin(p, t.kids, base + 1, base + Size(t));
      forall k | 0 <= k < Size(t) ensures Within(p, Flat(p, t, base, end)[k].path) {
        if k > 0 {
          var i := KidAt(p, t.kids, base + 1, base + Size(t), k - 1);
        }
      }
    }
  }

  ghost predicate BelowKid(p: Path, kids: seq<Tree>, q: Path) {
    exists i :: 0 <= i < |kids| && Within(p + [kids[i].name], q)
  }

  lemma FirstIsBelowKid(p: Path, kids: seq<Tree>, q: Path)
    requires kids != [] && Within(p + [kids[0].name], q)
    ensures BelowKid(p, kids, q)
  {}

  lemma RestIsBelowKid(p: Path, kids: seq<Tree>, q: Path)
    requires kids != [] && BelowKid(p, kids[1..], q)
    ensures BelowKid(p, kids, q)
  {
    var i :| 0 <= i < |kids| - 1 && Within(p + [kids[1..][i].name], q);
    assert kids[1..][i] == kids[i + 1];
  }

  // Each of the children's entries lies within the path of one child.
  lemma {:induction false} FlatKidsWithin(p: Path, kids: seq<Tree>, base: nat, end: nat)
    ensures forall k :: 0 <= k < Sizes(kids) ==> BelowKid(p, kids, FlatKids(p, kids, base, end)[k].path)
    decreases kids, 0
  {
    if kids != [] {
      var n := Size(kids[0]);
      var first, rest := Flat(p + [kids[0].name], kids[0], base, end), FlatKids(p, kids[1..], base + n, end);
      FlatWithin(p + [kids[0].name], kids[0], base, end);
      FlatKidsWithin(p, kids[1..], base + n, end);
      forall k: int | 0 <= k < Sizes(kids) ensures BelowKid(p, kids, FlatKids(p, kids, base, end)[k].path) {
        KidEntry(first, rest, k);
        if k < n {
          FirstIsBelowKid(p, kids, first[k].path);
        } else {
          RestIsBelowKid(p, kids, rest[k - n].path);
        }
      }
    }
  }

  lemma KidEntry(first: seq<Entry>, rest: seq<Entry>, k: nat)
    requires k < |first| + |rest|
    ensures (first + rest)[k] == if k < |first| then first[k] else rest[k - |first|]
  {}

  lemma KidAt(p: Path, kids: seq<Tree>, base: nat, end: nat, k: nat) returns (i: nat)
    requires k < Sizes(kids)
    ensures i < |kids| && Within(p + [kids[i].name], FlatKids(p, kids, base, end)[k].path)
    ensures Within(p, FlatKids(p, kids, base, end)[k].path) && p != FlatKids(p, kids, base, end)[k].path
    decreases kids, 1
  {
    FlatKidsWithin(p, kids, base, end);
    assert BelowKid(p, kids, FlatKids(p, kids, base, end)[k].path);
    i :| 0 <= i < |kids| && Within(p + [kids[i].name], FlatKids(p, kids, base, end)[k].path);
    var q := FlatKids(p, kids, base, end)[k].path;
    assert q[..|p|] == (p + [kids[i].name])[..|p|] == p;
  }

  lemma {:induction false} FlatDistinct(p: Path, t: Tree, base: nat, end: nat)
    requires UniqueNames(t)
    ensures DistinctPaths(Flat(p, t, base, end))
    decreases t, 1
  {
    if t.Dir? {
      var es := Flat(p, t, base, end);
      FlatKidsDistinct(p, t.kids, base + 1, base + Size(t));
      forall i, j | 0 <= i < j < |es| ensures es[i].path != es[j].path {
        if i == 0 {
          var _ := KidAt(p, t.kids, base + 1, base + Size(t), j - 1);
        } else {
          assert es[i] == FlatKids(p, t.kids, base + 1, base + Size(t))[i - 1];
        }
      }
    }
  }

  lemma {:induction false} FlatKidsDistinct(p: Path, kids: seq<Tree>, base: nat, end: nat)
    requires UniqueKids(kids)
    ensures DistinctPaths(FlatKids(p, kids, base, end))
    decreases kids, 0
  {
    if kids != [] {
      var q, n, es := p + [kids[0].name], Size(kids[0]), FlatKids(p, kids, base, end);
      var first, rest := Flat(q, kids[0], base, end), FlatKids(p, kids[1..], base + n, end);
      FlatDistinct(q, kids[0], base, end);
      FlatKidsDistinct(p, kids[1..], base + n, end);
      FlatWithin(q, kids[0], base, end);
      forall i, j | 0 <= i < j < |es| ensures es[i].path != es[j].path {
        if j < n {
          assert es[i] == first[i] && es[j] == first[j];
        } else if i >= n {
          assert es[i] == rest[i - n] && es[j] == rest[j - n];
        } else {
          var m := KidAt(p, kids[1..], base + n, end, j - n);
          assert Within(q, es[i].path) && es[j] == rest[j - n];
          assert es[i].path[|p|] == kids[0].name;
          assert es[j].path[|p|] == (p + [kids[1..][m].name])[|p|] == kids[m + 1].name;
        }
      }
    }
  }

  // ks: the positions that a run visits, each once and in order.
  lemma {:induction false} RunVisits(fn: WalkFn, es: seq<Entry>, k: nat, log: seq<Visit>) returns (ks: seq<nat>)
    requires Forward(es) && k <= |es|
    ensures |Run(fn, es, k, log).log| == |log| + |ks| && log <= Run(fn, es, k, log).log
    ensures forall i :: 0 <= i < |ks| ==> k <= ks[i] < |es| && Run(fn, es, k, log).log[|log| + i].path == es[ks[i]].path
    ensures forall i, j :: 0 <= i < j < |ks| ==> ks[i] < ks[j]
    decreases |es| - k
  {
    if k == |es| {
      return [];
    }
    var v := fn(log, es[k].path, es[k].tree);
    var seen := log + [Visit(es[k].path, es[k].tree.Dir?, v)];
    var rest: seq<nat> := [];
    match v {
      case Continue => rest := RunVisits(fn, es, k + 1, seen);
      case Skip => rest := RunVisits(fn, es, es[k].next, seen);
      case Fail(_) =>
    }
    ks := [k] + rest;
    var o := Run(fn, es, k, log);
    assert seen <= o.log && o.log[|log|] == seen[|log|];
    forall i | 0 < i < |ks| ensures k <= ks[i] < |es| && o.log[|log| + i].path == es[ks[i]].path {
      assert o.log[|log| + i] == o.log[|seen| + (i - 1)] && ks[i] == rest[i - 1];
    }
  }

  // A failure is the verdict of the last call and of no other.
  lemma {:induction false} RunFailsLast(fn: WalkFn, es: seq<Entry>, k: nat, log: seq<Visit>)
    requires Forward(es) && k <= |es|
    ensures var o := Run(fn, es, k, log);
      && log <= o.log
      && (forall i :: |log| <= i < |o.log| && o.log[i].verdict.Fail? ==>
          i == |o.log| - 1 && o.error == Some(o.log[i].verdict.error))
      && (o.error.Some? ==> |log| < |o.log| && o.log[|o.log| - 1].verdict == Fail(o.error.value))
    decreases |es| - k
  {
    if k < |es| {
      var v := fn(log, es[k].path, es[k].tree);
      var seen := log + [Visit(es[k].path, es[k].tree.Dir?, v)];
      match v {
        case Continue => RunFailsLast(fn, es, k + 1, seen);
        case Skip => RunFailsLast(fn, es, es[k].next, seen);
        case Fail(_) =>
      }
      assert Run(fn, es, k, log).log[|log|] == seen[|log|];
    }
  }

  // A run without a skip or a failure visits every entry.
  lemma {:induction false} RunVisitsAll(fn: WalkFn, es: seq<Entry>, k: nat, log: seq<Visit>)
    requires Forward(es) && k <= |es|
    requires forall i :: |log| <= i < |Run(fn, es, k, log).log| ==> Run(fn, es, k, log).log[i].verdict == Continue
    ensures |Run(fn, es, k, log).log| == |log| + |es| - k
    ensures forall i :: k <= i < |es| ==> Run(fn, es, k, log).log[|log| + i - k].path == es[i].path
    decreases |es| - k
  {
    if k < |es| {
      var v := fn(log, es[k].path, es[k].tree);
      var seen := log + [Visit(es[k].path, es[k].tree.Dir?, v)];
      var o := Run(fn, es, k, log);
      var _ := RunVisits(fn, es, k, log);
      RunStarts(fn, es, k, log);
      assert v == Continue;
      RunVisitsAll(fn, es, k + 1, seen);
    }
  }

  lemma RunStarts(fn: WalkFn, es: seq<Entry>, k: nat, log: seq<Visit>)
    requires Forward(es) && k < |es|
    ensures |log| < |Run(fn, es, k, log).log|
    ensures Run(fn, es, k, log).log[|log|] == Visit(es[k].path, es[k].tree.Dir?, fn(log, es[k].path, es[k].tree))
  {
    var v := fn(log, es[k].path, es[k].tree);
    var seen := log + [Visit(es[k].path, es[k].tree.Dir?, v)];
    match v {
      case Continue => RunFailsLast(fn, es, k + 1, seen);
      case Skip => RunFailsLast(fn, es, es[k].next, seen);
      case Fail(_) =>
    }
  }

  // Over a tree with unique sibling names no path is visited twice; a walk ends
  // with the first failure, and one that skips nothing visits everything.
  lemma WalkVisitsOnce(fn: WalkFn, p: Path, t: Tree)
    requires t.Dir? && UniqueNames(t)
    ensures var o := WalkDir(fn, p, t, []);
      && (forall i, j :: 0 <= i < j < |o.log| ==> o.log[i].path != o.log[j].path)
      && (forall i :: 0 <= i < |o.log| && o.log[i].verdict.Fail? ==>
          i == |o.log| - 1 && o.error == Some(o.log[i].verdict.error))
      && (o.error.Some? ==> o.log != [] && o.log[|o.log| - 1].verdict == Fail(o.error.value))
      && ((forall i :: 0 <= i < |o.log| ==> o.log[i].verdict == Continue) ==>
            |o.log| == Size(t) && forall i :: 0 <= i < Size(t) ==> o.log[i].path == PreOrder(p, t)[i].path)
  {
    var es, o := PreOrder(p, t), WalkDir(fn, p, t, []);
    WalkIsPrunedPreOrder(fn, p, t);
    RunFailsLast(fn, es, 0, []);
    if forall i :: 0 <= i < |o.log| ==> o.log[i].verdict == Continue {
      RunVisitsAll(fn, es, 0, []);
      forall i | 0 <= i < Size(t) ensures o.log[i].path == es[i].path {
        assert o.log[0 + i - 0].path == es[i].path;
      }
    }
    WalkPathsDiffer(fn, p, t);
  }

  lemma WalkPathsDiffer(fn: WalkFn, p: Path, t: Tree)
    requires t.Dir? && UniqueNames(t)
    ensures forall i, j :: 0 <= i < j < |WalkDir(fn, p, t, []).log| ==>
              WalkDir(fn, p, t, []).log[i].path != WalkDir(fn, p, t, []).log[j].path
  {
    var es, o := PreOrder(p, t), WalkDir(fn, p, t, []);
    WalkIsPrunedPreOrder(fn, p, t);
    FlatDistinct(p, t, 0, Size(t));
    var ks := RunVisits(fn, es, 0, []);
    forall i, j | 0 <= i < j < |o.log| ensures o.log[i].path != o.log[j].path {
      assert o.log[0 + i].path == es[ks[i]].path && o.log[0 + j].path == es[ks[j]].path;
    }
  }

  ghost predicate Visits(es: seq<Entry>, q: Path) {
    exists k :: 0 <= k < |es| && es[k].path == q
  }

  // The tree has something at q, a path relative to it.
  ghost predicate Holds(t: Tree, q: Path)
    decreases |q|, 1
  {
    q == [] || (t.Dir? && KidsHold(t.kids, q))
  }

  ghost predicate KidsHold(kids: seq<Tree>, q: Path)
    decreases |q|, 0
  {
    q != [] && exists i :: 0 <= i < |kids| && kids[i].name == q[0] && Holds(kids[i], q[1..])
  }

  lemma VisitsEither(a: seq<Entry>, b: seq<Entry>, q: Path)
    ensures Visits(a + b, q) <==> Visits(a, q) || Visits(b, q)
  {
    if Visits(a, q) {
      var k :| 0 <= k < |a| && a[k].path == q;
      assert (a + b)[k].path == q;
    }
    if Visits(b, q) {
      var k :| 0 <= k < |b| && b[k].path == q;
      assert (a + b)[|a| + k].path == q;
    }
  }

  // The pre-order lists every path of the tree, and no other.
  lemma {:induction false} FlatIsTheTree(p: Path, t: Tree, base: nat, end: nat, q: Path)
    ensures Visits(Flat(p, t, base, end), p + q) <==> Holds(t, q)
    decreases t, 1
  {
    var head := [Entry(p, t, if t.Dir? then base + Size(t) else end)];
    assert Visits(head, p + q) <==> q == [] by {
      assert head[0].path == p;
      if q == [] {
        assert p + q == p;
      } else {
        assert |p + q| > |p|;
      }
    }
    if t.Dir? {
      FlatKidsAreTheTree(p, t.kids, base + 1, base + Size(t), q);
      VisitsEither(head, FlatKids(p, t.kids, base + 1, base + Size(t)), p + q);
    }
  }

  lemma {:induction false} FlatKidsAreTheTree(p: Path, kids: seq<Tree>, base: nat, end: nat, q: Path)
    ensures Visits(FlatKids(p, kids, base, end), p + q) <==> KidsHold(kids, q)
    decreases kids, 0
  {
    if kids != [] {
      var n := Size(kids[0]);
      FlatKidsAreTheTree(p, kids[1..], base + n, end, q);
      FirstKidIsTheTree(p, kids, base, end, q);
      VisitsEither(Flat(p + [kids[0].name], kids[0], base, end), FlatKids(p, kids[1..], base + n, end), p + q);
      KidsHoldEither(kids, q);
    }
  }

  lemma FirstKidIsTheTree(p: Path, kids: seq<Tree>, base: nat, end: nat, q: Path)
    requires kids != []
    ensures Visits(Flat(p + [kids[0].name], kids[0], base, end), p + q) <==>
        q != [] && kids[0].name == q[0] && Holds(kids[0], q[1..])
    decreases kids, 0, 0
  {
    var sub := p + [kids[0].name];
    FlatWithin(sub, kids[0], base, end);
    WithinKid(p, kids[0].name, q);
    if q != [] && q[0] == kids[0].name {
      assert p + q == sub + q[1..];
      FlatIsTheTree(sub, kids[0], base, end, q[1..]);
    }
  }

  lemma WithinKid(p: Path, name: string, q: Path)
    ensures Within(p + [name], p + q) ==> q != [] && q[0] == name
  {
    if Within(p + [name], p + q) {
      assert (p + q)[|p|] == (p + [name])[|p|];
    }
  }

  lemma KidsHoldEither(kids: seq<Tree>, q: Path)
    requires kids != []
    ensures KidsHold(kids, q) <==> (q != [] && kids[0].name == q[0] && Holds(kids[0], q[1..])) || KidsHold(kids[1..], q)
  {
    if KidsHold(kids[1..], q) {
      var i :| 0 <= i < |kids| - 1 && kids[1..][i].name == q[0] && Holds(kids[1..][i], q[1..]);
      assert kids[i + 1].name == q[0] && Holds(kids[i + 1], q[1..]);
    }
    if KidsHold(kids, q) {
      var i :| 0 <= i < |kids| && kids[i].name == q[0] && Holds(kids[i], q[1..]);
      if i > 0 {
        assert kids[1..][i - 1] == kids[i];
      }
    }
  }

  /******* The order of the calls *******/

  // The subtree d stands in t at the path q.
  ghost predicate IsAt(t: Tree, q: Path, d: Tree)
    decreases |q|
  {
    if q == [] then t == d
    else t.Dir? && exists i :: 0 <= i < |t.kids| && t.kids[i].name == q[0] && IsAt(t.kids[i], q[1..], d)
  }

  ghost predicate Precedes(es: seq<Entry>, a: iset<Path>, b: iset<Path>) {
    forall k, m :: 0 <= k < |es| && 0 <= m < |es| && es[k].path in a && es[m].path in b ==> k < m
  }

  ghost predicate AllWithin(r: Path, a: iset<Path>) {
    forall x :: x in a ==> Within(r, x)
  }

  ghost function Below(p: Path): iset<Path> {
    iset x: Path | Within(p, x)
  }

  ghost function StrictlyBelow(p: Path): iset<Path> {
    iset x: Path | Within(p, x) && x != p
  }

  lemma PrecedesRight(x: seq<Entry>, y: seq<Entry>, a: iset<Path>, b: iset<Path>)
    requires Precedes(y, a, b) && forall k :: 0 <= k < |x| ==> x[k].path !in a && x[k].path !in b
    ensures Precedes(x + y, a, b)
  {
    var es := x + y;
    forall k, m | 0 <= k < |es| && 0 <= m < |es| && es[k].path in a && es[m].path in b ensures k < m {
      assert es[k] == y[k - |x|] && es[m] == y[m - |x|];
    }
  }

  lemma PrecedesLeft(x: seq<Entry>, y: seq<Entry>, a: iset<Path>, b: iset<Path>)
    requires Precedes(x, a, b) && forall k :: 0 <= k < |y| ==> y[k].path !in a && y[k].path !in b
    ensures Precedes(x + y, a, b)
  {
    var es := x + y;
    assert forall k :: |x| <= k < |es| ==> es[k] == y[k - |x|];
    assert forall k :: 0 <= k < |es| && (es[k].path in a || es[k].path in b) ==> k < |x| && es[k] == x[k];
  }

  lemma PrecedesAcross(x: seq<Entry>, y: seq<Entry>, a: iset<Path>, b: iset<Path>)
    requires forall k :: 0 <= k < |x| ==> x[k].path !in b
    requires forall k :: 0 <= k < |y| ==> y[k].path !in a
    ensures Precedes(x + y, a, b)
  {
    var es := x + y;
    assert forall k :: |x| <= k < |es| ==> es[k] == y[k - |x|];
    assert forall k :: 0 <= k < |x| ==> es[k] == x[k];
  }

  lemma OtherName(p: Path, m: string, n: string, x: Path)
    requires Within(p + [m], x) && Within(p + [n], x)
    ensures m == n
  {
    assert x[|p|] == (p + [m])[|p|] == (p + [n])[|p|];
  }

  // No entry of the other children lies within a child's path.
  lemma ApartFromFirst(p: Path, kids: seq<Tree>, base: nat, end: nat, k: nat)
    requires kids != [] && UniqueKids(kids) && k < Sizes(kids[1..])
    ensures !Within(p + [kids[0].name], FlatKids(p, kids[1..], base, end)[k].path)
  {
    var i := KidAt(p, kids[1..], base, end, k);
    var x := FlatKids(p, kids[1..], base, end)[k].path;
    assert kids[1..][i] == kids[i + 1];
    if Within(p + [kids[0].name], x) {
      OtherName(p, kids[0].name, kids[1..][i].name, x);
    }
  }

  lemma {:induction false} KidPrecedes(p: Path, kids: seq<Tree>, base: nat, end: nat, m: nat,
                                       a: iset<Path>, b: iset<Path>)
    requires UniqueKids(kids) && m < |kids|
    requires AllWithin(p + [kids[m].name], a) && AllWithin(p + [kids[m].name], b)
    requires forall x: nat, y: nat :: Precedes(Flat(p + [kids[m].name], kids[m], x, y), a, b)
    ensures Precedes(FlatKids(p, kids, base, end), a, b)
    decreases |kids|
  {
    var q, n := p + [kids[0].name], Size(kids[0]);
    var first, rest := Flat(q, kids[0], base, end), FlatKids(p, kids[1..], base + n, end);
    if m == 0 {
      forall k | 0 <= k < |rest| ensures rest[k].path !in a && rest[k].path !in b {
        ApartFromFirst(p, kids, base + n, end, k);
      }
      assert Precedes(first, a, b);
      PrecedesLeft(first, rest, a, b);
    } else {
      assert kids[1..][m - 1] == kids[m];
      KidPrecedes(p, kids[1..], base + n, end, m - 1, a, b);
      FlatWithin(q, kids[0], base, end);
      forall k | 0 <= k < |first| ensures first[k].path !in a && first[k].path !in b {
        assert Within(q, first[k].path);
        if Within(p + [kids[m].name], first[k].path) {
          OtherName(p, kids[0].name, kids[m].name, first[k].path);
        }
      }
      PrecedesRight(first, rest, a, b);
    }
  }

  // The children's entries come in the children's order.
  lemma {:induction false} KidsInOrder(p: Path, kids: seq<Tree>, base: nat, end: nat, i: nat, j: nat)
    requires UniqueKids(kids) && i < j < |kids|
    ensures Precedes(FlatKids(p, kids, base, end), Below(p + [kids[i].name]), Below(p + [kids[j].name]))
    decreases |kids|
  {
    var q, n := p + [kids[0].name], Size(kids[0]);
    var first, rest := Flat(q, kids[0], base, end), FlatKids(p, kids[1..], base + n, end);
    var a, b := Below(p + [kids[i].name]), Below(p + [kids[j].name]);
    FlatWithin(q, kids[0], base, end);
    forall k | 0 <= k < |first| ensures first[k].path !in b && (i > 0 ==> first[k].path !in a) {
      assert Within(q, first[k].path);
      if first[k].path in b { OtherName(p, kids[0].name, kids[j].name, first[k].path); }
      if i > 0 && first[k].path in a { OtherName(p, kids[0].name, kids[i].name, first[k].path); }
    }
    if i == 0 {
      forall k | 0 <= k < |rest| ensures rest[k].path !in a {
        ApartFromFirst(p, kids, base + n, end, k);
      }
      PrecedesAcross(first, rest, a, b);
    } else {
      assert kids[1..][i - 1] == kids[i] && kids[1..][j - 1] == kids[j];
      KidsInOrder(p, kids[1..], base + n, end, i - 1, j - 1);
      PrecedesRight(first, rest, a, b);
    }
  }

  lemma DirInOrder(p: Path, d: Tree, base: nat, end: nat, i: nat, j: nat)
    requires d.Dir? && UniqueNames(d) && i < j < |d.kids|
    ensures Precedes(Flat(p, d, base, end), Below(p + [d.kids[i].name]), Below(p + [d.kids[j].name]))
  {
    KidsInOrder(p, d.kids, base + 1, base + Size(d), i, j);
    PrecedesRight([Entry(p, d, base + Size(d))], FlatKids(p, d.kids, base + 1, base + Size(d)),
      Below(p + [d.kids[i].name]), Below(p + [d.kids[j].name]));
  }

  lemma DirIsFirst(p: Path, d: Tree, base: nat, end: nat)
    requires d.Dir?
    ensures Precedes(Flat(p, d, base, end), iset{p}, StrictlyBelow(p))
  {
    var head, rest := [Entry(p, d, base + Size(d))], FlatKids(p, d.kids, base + 1, base + Size(d));
    forall k | 0 <= k < |rest| ensures rest[k].path !in iset{p} {
      var _ := KidAt(p, d.kids, base + 1, base + Size(d), k);
    }
    PrecedesAcross(head, rest, iset{p}, StrictlyBelow(p));
  }

  // What holds among the entries of a subtree holds among those of the whole tree.
  lemma {:induction false} DeepPrecedes(p: Path, t: Tree, base: nat, end: nat, q: Path, d: Tree,
                                        a: iset<Path>, b: iset<Path>)
    requires UniqueNames(t) && IsAt(t, q, d) && AllWithin(p + q, a) && AllWithin(p + q, b)
    requires forall x: nat, y: nat :: Precedes(Flat(p + q, d, x, y), a, b)
    ensures Precedes(Flat(p, t, base, end), a, b)
    decreases |q|
  {
    if q == [] {
      assert p + q == p;
      assert Precedes(Flat(p + q, d, base, end), a, b);
    } else {
      var m :| 0 <= m < |t.kids| && t.kids[m].name == q[0] && IsAt(t.kids[m], q[1..], d);
      var sub := p + [t.kids[m].name];
      assert sub + q[1..] == p + q;
      UniqueAt(t.kids, m);
      forall x: nat, y: nat ensures Precedes(Flat(sub, t.kids[m], x, y), a, b) {
        DeepPrecedes(sub, t.kids[m], x, y, q[1..], d, a, b);
      }
      forall x | Within(p + q, x) ensures Within(sub, x) && x != p {
        assert sub <= sub + q[1..];
      }
      KidPrecedes(p, t.kids, base + 1, base + Size(t), m, a, b);
      PrecedesRight([Entry(p, t, base + Size(t))], FlatKids(p, t.kids, base + 1, base + Size(t)), a, b);
    }
  }

  lemma {:induction false} UniqueAt(kids: seq<Tree>, m: nat)
    requires UniqueKids(kids) && m < |kids|
    ensures UniqueNames(kids[m])
  {
    if m > 0 {
      UniqueAt(kids[1..], m - 1);
    }
  }

  lemma {:induction false} UniqueBelow(t: Tree, q: Path, d: Tree)
    requires UniqueNames(t) && IsAt(t, q, d)
    ensures UniqueNames(d)
    decreases |q|
  {
    if q != [] {
      var m :| 0 <= m < |t.kids| && t.kids[m].name == q[0] && IsAt(t.kids[m], q[1..], d);
      UniqueAt(t.kids, m);
      UniqueBelow(t.kids[m], q[1..], d);
    }
  }

  ghost predicate CalledBefore(log: seq<Visit>, a: iset<Path>, b: iset<Path>) {
    forall k, m :: 0 <= k < |log| && 0 <= m < |log| && log[k].path in a && log[m].path in b ==> k < m
  }

  lemma WalkPrecedes(fn: WalkFn, p: Path, t: Tree, a: iset<Path>, b: iset<Path>)
    requires t.Dir? && Precedes(PreOrder(p, t), a, b) && a !! b
    ensures CalledBefore(WalkDir(fn, p, t, []).log, a, b)
  {
    var es, log := PreOrder(p, t), WalkDir(fn, p, t, []).log;
    WalkIsPrunedPreOrder(fn, p, t);
    var ks := RunVisits(fn, es, 0, []);
    assert forall k, m :: 0 <= k < m < |ks| ==> ks[k] < ks[m];
    forall k, m | 0 <= k < |log| && 0 <= m < |log| && log[k].path in a && log[m].path in b ensures k < m {
      assert log[0 + k].path == es[ks[k]].path && log[0 + m].path == es[ks[m]].path;
    }
  }

  // A walk calls a directory before everything below it, and everything below one of
  // its children before everything below a later one.
  lemma WalkGoesInOrder(fn: WalkFn, p: Path, t: Tree, q: Path, d: Tree)
    requires t.Dir? && UniqueNames(t) && IsAt(t, q, d) && d.Dir?
    ensures CalledBefore(WalkDir(fn, p, t, []).log, iset{p + q}, StrictlyBelow(p + q))
    ensures forall i, j :: 0 <= i < j < |d.kids| ==>
              CalledBefore(WalkDir(fn, p, t, []).log, Below(p + q + [d.kids[i].name]), Below(p + q + [d.kids[j].name]))
  {
    var r := p + q;
    forall x: nat, y: nat ensures Precedes(Flat(r, d, x, y), iset{r}, StrictlyBelow(r)) {
      DirIsFirst(r, d, x, y);
    }
    DeepPrecedes(p, t, 0, Size(t), q, d, iset{r}, StrictlyBelow(r));
    WalkPrecedes(fn, p, t, iset{r}, StrictlyBelow(r));
    UniqueBelow(t, q, d);
    forall i, j | 0 <= i < j < |d.kids|
      ensures CalledBefore(WalkDir(fn, p, t, []).log, Below(r + [d.kids[i].name]), Below(r + [d.kids[j].name]))
    {
      KidsWalkInOrder(fn, p, t, q, d, i, j);
    }
  }

  lemma KidsWalkInOrder(fn: WalkFn, p: Path, t: Tree, q: Path, d: Tree, i: nat, j: nat)
    requires t.Dir? && UniqueNames(t) && IsAt(t, q, d) && d.Dir? && UniqueNames(d) && i < j < |d.kids|
    ensures CalledBefore(WalkDir(fn, p, t, []).log, Below(p + q + [d.kids[i].name]), Below(p + q + [d.kids[j].name]))
  {
    var r := p + q;
    var a, b := Below(r + [d.kids[i].name]), Below(r + [d.kids[j].name]);
    forall x: nat, y: nat ensures Precedes(Flat(r, d, x, y), a, b) {
      DirInOrder(r, d, x, y, i, j);
    }
    assert forall x :: Within(r + [d.kids[i].name], x) || Within(r + [d.kids[j].name], x) ==> Within(r, x);
    DeepPrecedes(p, t, 0, Size(t), q, d, a, b);
    DifferentNames(d.kids, i, j);
    forall x | x in a && x in b ensures false {
      OtherName(r, d.kids[i].name, d.kids[j].name, x);
    }
    WalkPrecedes(fn, p, t, a, b);
  }

  lemma {:induction false} DifferentNames(kids: seq<Tree>, i: nat, j: nat)
    requires UniqueKids(kids) && i < j < |kids|
    ensures kids[i].name != kids[j].name
  {
    if i > 0 {
      assert kids[1..][i - 1] == kids[i] && kids[1..][j - 1] == kids[j];
      DifferentNames(kids[1..], i - 1, j - 1);
    }
  }

  /******* What a skip leaves out *******/

  predicate Cuttable(v: Visit) {
    v.isDir || v.path != []
  }

  // Below which path a skip stops the walk: the skipped directory, or the
  // directory of the skipped leaf.
  function Cut(v: Visit): Path
    requires Cuttable(v)
  {
    if v.isDir then v.path else v.path[..|v.path| - 1]
  }

  // The calls from position i on: each lies below p, and none lies below what an
  // earlier skip among them cut off, which itself lies below p.
  ghost predicate Pruned(log: seq<Visit>, i: nat, p: Path) {
    && (forall j :: i <= j < |log| ==> Cuttable(log[j]) && Within(p, log[j].path))
    && (forall j :: i <= j < |log| && log[j].verdict == Skip ==> Within(p, Cut(log[j])))
    && (forall j, k :: i <= j < k < |log| && log[j].verdict == Skip ==> !Within(Cut(log[j]), log[k].path))
  }

  ghost predicate AllBelowKids(log: seq<Visit>, i: nat, p: Path, kids: seq<Tree>) {
    forall j :: i <= j < |log| ==> BelowKid(p, kids, log[j].path)
  }

  lemma {:induction false} WalkDirPrunes(fn: WalkFn, p: Path, t: Tree, log: seq<Visit>)
    requires t.Dir? && UniqueNames(t)
    ensures log <= WalkDir(fn, p, t, log).log && Pruned(WalkDir(fn, p, t, log).log, |log|, p)
    decreases t, 1
  {
    var v := fn(log, p, t);
    if v == Continue {
      var seen := log + [Visit(p, true, v)];
      WalkKidsPrunes(fn, p, t.kids, seen);
      var o := WalkKids(fn, p, t.kids, seen).log;
      assert o[|log|] == seen[|log|];
    }
  }

  lemma {:induction false} WalkKidsPrunes(fn: WalkFn, p: Path, kids: seq<Tree>, log: seq<Visit>)
    requires UniqueKids(kids)
    ensures log <= WalkKids(fn, p, kids, log).log
    ensures Pruned(WalkKids(fn, p, kids, log).log, |log|, p)
    ensures AllBelowKids(WalkKids(fn, p, kids, log).log, |log|, p, kids)
    decreases kids, 0
  {
    if kids != [] {
      var q := p + [kids[0].name];
      assert Within(q, q);
      if kids[0].Dir? {
        WalkDirPrunes(fn, q, kids[0], log);
        var o := WalkDir(fn, q, kids[0], log);
        if o.error.None? {
          WalkKidsPrunes(fn, p, kids[1..], o.log);
        }
        PrunedOneMore(p, kids, log, o.log, WalkKids(fn, p, kids, log).log);
      } else {
        var v := fn(log, q, kids[0]);
        var seen := log + [Visit(q, false, v)];
        if v == Continue {
          WalkKidsPrunes(fn, p, kids[1..], seen);
          PrunedOneMore(p, kids, log, seen, WalkKids(fn, p, kids, log).log);
        }
      }
    }
  }

  // The first child's calls, then those of the children after it.
  lemma PrunedOneMore(p: Path, kids: seq<Tree>, log: seq<Visit>, first: seq<Visit>, all: seq<Visit>)
    requires kids != [] && UniqueKids(kids) && log <= first <= all
    requires Pruned(first, |log|, p + [kids[0].name])
    requires Pruned(all, |first|, p) && AllBelowKids(all, |first|, p, kids[1..])
    ensures Pruned(all, |log|, p) && AllBelowKids(all, |log|, p, kids)
  {
    var q := p + [kids[0].name];
    forall j | |log| <= j < |all|
      ensures Cuttable(all[j]) && Within(p, all[j].path) && BelowKid(p, kids, all[j].path)
      ensures all[j].verdict == Skip ==> Within(p, Cut(all[j]))
    {
      if j < |first| {
        assert all[j] == first[j];
        assert Within(q, first[j].path) && p <= q;
      } else {
        assert BelowKid(p, kids[1..], all[j].path);
        var i :| 0 <= i < |kids| - 1 && Within(p + [kids[1..][i].name], all[j].path);
        assert kids[1..][i] == kids[i + 1];
      }
    }
    forall j, k | |log| <= j < |first| <= k < |all| && all[j].verdict == Skip
      ensures !Within(Cut(all[j]), all[k].path)
    {
      assert all[j] == first[j] && Within(q, Cut(first[j]));
      assert BelowKid(p, kids[1..], all[k].path);
      var i :| 0 <= i < |kids| - 1 && Within(p + [kids[1..][i].name], all[k].path);
      assert all[k].path[|p|] == kids[1..][i].name == kids[i + 1].name != kids[0].name == q[|p|];
    }
    forall j, k | |log| <= j < k < |first| && all[j].verdict == Skip ensures !Within(Cut(all[j]), all[k].path) {
      assert all[j] == first[j] && all[k] == first[k];
    }
  }

  /******* What a skip does not leave out *******/

  // Called, or within what a skip cuts off.
  ghost predicate CalledOrCut(log: seq<Visit>, from: nat, q: Path) {
    || (exists k :: from <= k < |log| && log[k].path == q)
    || (exists k :: from <= k < |log| && log[k].verdict == Skip && Cuttable(log[k]) && Within(Cut(log[k]), q))
  }

  lemma CalledOrCutLater(log: seq<Visit>, from: nat, all: seq<Visit>, start: nat, q: Path)
    requires CalledOrCut(log, from, q) && start <= from && log <= all
    ensures CalledOrCut(all, start, q)
  {
    var k :| from <= k < |log| &&
      (log[k].path == q || (log[k].verdict == Skip && Cuttable(log[k]) && Within(Cut(log[k]), q)));
    assert all[k] == log[k];
  }

  lemma {:induction false} DirExtends(fn: WalkFn, p: Path, t: Tree, log: seq<Visit>)
    requires t.Dir?
    ensures log + [Visit(p, true, fn(log, p, t))] <= WalkDir(fn, p, t, log).log
    decreases t, 1
  {
    if fn(log, p, t) == Continue {
      KidsExtend(fn, p, t.kids, log + [Visit(p, true, Continue)]);
    }
  }

  lemma {:induction false} KidsExtend(fn: WalkFn, p: Path, kids: seq<Tree>, log: seq<Visit>)
    ensures log <= WalkKids(fn, p, kids, log).log
    decreases kids, 0
  {
    if kids != [] {
      var q := p + [kids[0].name];
      if kids[0].Dir? {
        DirExtends(fn, q, kids[0], log);
        KidsExtend(fn, p, kids[1..], WalkDir(fn, q, kids[0], log).log);
      } else {
        KidsExtend(fn, p, kids[1..], log + [Visit(q, false, fn(log, q, kids[0]))]);
      }
    }
  }

  lemma {:induction false} DirReaches(fn: WalkFn, p: Path, t: Tree, log: seq<Visit>, q: Path)
    requires t.Dir? && WalkDir(fn, p, t, log).error.None? && Holds(t, q)
    ensures CalledOrCut(WalkDir(fn, p, t, log).log, |log|, p + q)
    decreases t, 2
  {
    var own, all := Visit(p, true, fn(log, p, t)), WalkDir(fn, p, t, log).log;
    DirExtends(fn, p, t, log);
    assert all[|log|] == (log + [own])[|log|] == own;
    if q == [] {
      assert p + q == p;
    } else if own.verdict == Continue {
      KidsReach(fn, p, t.kids, log + [own], q);
      CalledOrCutLater(all, |log| + 1, all, |log|, p + q);
    }
  }

  lemma {:induction false} KidsReach(fn: WalkFn, p: Path, kids: seq<Tree>, log: seq<Visit>, q: Path)
    requires WalkKids(fn, p, kids, log).error.None? && KidsHold(kids, q)
    ensures CalledOrCut(WalkKids(fn, p, kids, log).log, |log|, p + q)
    decreases kids, 1
  {
    var sub, all := p + [kids[0].name], WalkKids(fn, p, kids, log).log;
    KidsHoldEither(kids, q);
    if kids[0].Dir? {
      var first := WalkDir(fn, sub, kids[0], log).log;
      DirExtends(fn, sub, kids[0], log);
      KidsExtend(fn, p, kids[1..], first);
      if KidsHold(kids[1..], q) {
        KidsReach(fn, p, kids[1..], first, q);
        CalledOrCutLater(all, |first|, all, |log|, p + q);
      } else {
        DirReaches(fn, sub, kids[0], log, q[1..]);
        assert sub + q[1..] == p + q;
        CalledOrCutLater(first, |log|, all, |log|, p + q);
      }
    } else {
      LeafReaches(fn, p, kids, log, q);
    }
  }

  lemma {:induction false} LeafReaches(fn: WalkFn, p: Path, kids: seq<Tree>, log: seq<Visit>, q: Path)
    requires kids != [] && kids[0].Leaf? && WalkKids(fn, p, kids, log).error.None? && KidsHold(kids, q)
    requires KidsHold(kids[1..], q) || (kids[0].name == q[0] && Holds(kids[0], q[1..]))
    ensures CalledOrCut(WalkKids(fn, p, kids, log).log, |log|, p + q)
    decreases kids, 0
  {
    var sub, all := p + [kids[0].name], WalkKids(fn, p, kids, log).log;
    var own := Visit(sub, false, fn(log, sub, kids[0]));
    KidsExtend(fn, p, kids[1..], log + [own]);
    assert all[|log|] == (log + [own])[|log|] == own;
    if own.verdict == Skip {
      assert Cut(own) == p;
    } else if KidsHold(kids[1..], q) {
      KidsReach(fn, p, kids[1..], log + [own], q);
      CalledOrCutLater(all, |log| + 1, all, |log|, p + q);
    } else {
      assert q == [kids[0].name];
    }
  }

  // A walk that does not fail calls every path of the tree that no skip cuts off.
  lemma WalkMissesOnlyCuts(fn: WalkFn, p: Path, t: Tree, q: Path)
    requires t.Dir? && WalkDir(fn, p, t, []).error.None? && Holds(t, q)
    ensures CalledOrCut(WalkDir(fn, p, t, []).log, 0, p + q)
  {
    DirReaches(fn, p, t, [], q);
  }
}
