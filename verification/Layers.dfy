/**
 The union of metadata stores of meta/layer.go: a lookup that stops at the first
 layer that has the path, and directories whose listings are merged by name.
 */
module Layers {
  import opened Prelude

  // File stands for everything that is not a directory. Merged embeds its top
  // directory, which lends it its own attributes.
  datatype Meta =
    | File(name: string, id: string)
    | Dir(name: string, kids: seq<Meta>)
    | Merged(top: Meta, lower: seq<Meta>)

  function Base(m: Meta): Meta {
    if m.Merged? then Base(m.top) else m
  }

  function Name(m: Meta): string {
    match m
    case Merged(top, _) => Name(top)
    case _ => m.name
  }

  predicate IsDir(m: Meta) {
    match m
    case File(_, _) => false
    case Dir(_, _) => true
    case Merged(top, _) => IsDir(top)
  }

  type Listing = map<string, Meta>

  // Storing the children one by one under their names.
  function LastWins(kids: seq<Meta>): Listing {
    if kids == [] then map[] else LastWins(kids[..|kids| - 1])[Name(kids[|kids| - 1]) := kids[|kids| - 1]]
  }

  // Storing only the children whose name is not taken yet.
  function FirstWins(kids: seq<Meta>): Listing {
    if kids == [] then map[]
    else FirstWins(kids[..|kids| - 1]) + OneUnless(FirstWins(kids[..|kids| - 1]), kids[|kids| - 1])
  }

  function OneUnless(taken: Listing, m: Meta): Listing {
    if Name(m) in taken then map[] else map[Name(m) := m]
  }

  // The listing of a directory on top of others, and under others.
  function TopMap(m: Meta): Listing {
    match m
    case File(_, _) => map[]
    case Dir(_, kids) => LastWins(kids)
    case Merged(top, lower) => Overlay(TopMap(top), lower)
  }

  function LowMap(m: Meta): Listing {
    match m
    case File(_, _) => map[]
    case Dir(_, kids) => FirstWins(kids)
    case Merged(top, lower) => Overlay(TopMap(top), lower)
  }

  // Names in upper hide the same names further down.
  function Overlay(upper: Listing, lower: seq<Meta>): Listing
    decreases lower
  {
    if lower == [] then upper else Overlay(LowMap(lower[0]) + upper, lower[1..])
  }

  predicate UniqueNames(kids: seq<Meta>) {
    forall i, j :: 0 <= i < j < |kids| ==> Name(kids[i]) != Name(kids[j])
  }

  // cs is a result of asking m for its children: a merged directory lists its
  // entries in no fixed order.
  ghost predicate Lists(m: Meta, cs: seq<Meta>) {
    match m
    case File(_, _) => cs == []
    case Dir(_, kids) => cs == kids
    case Merged(_, _) => UniqueNames(cs) && LastWins(cs) == TopMap(m)
  }

  ghost predicate HasName(kids: seq<Meta>, n: string) {
    exists i :: 0 <= i < |kids| && Name(kids[i]) == n
  }

  lemma {:induction false} ListedNames(kids: seq<Meta>, n: string)
    ensures n in LastWins(kids) <==> HasName(kids, n)
  {
    if kids != [] {
      var rest, last := kids[..|kids| - 1], kids[|kids| - 1];
      ListedNames(rest, n);
      assert kids == rest + [last];
      if HasName(rest, n) {
        var i :| 0 <= i < |rest| && Name(rest[i]) == n;
        assert Name(kids[i]) == n;
      }
    }
  }

  // The last child of a name is stored under it, and the first one.
  lemma {:induction false} LastWinsIsLast(kids: seq<Meta>, n: string)
    ensures if n in LastWins(kids) then exists i :: NamedLast(kids, i, n) && LastWins(kids)[n] == kids[i]
            else !HasName(kids, n)
  {
    ListedNames(kids, n);
    if kids != [] && n in LastWins(kids) {
      var rest, last := kids[..|kids| - 1], |kids| - 1;
      if Name(kids[last]) == n {
        assert NamedLast(kids, last, n);
      } else {
        LastWinsIsLast(rest, n);
        var i :| NamedLast(rest, i, n) && LastWins(rest)[n] == rest[i];
        assert NamedLast(kids, i, n) by {
          assert forall j :: 0 <= j < |rest| ==> kids[j] == rest[j];
        }
      }
    }
  }

  lemma {:induction false} FirstWinsIsFirst(kids: seq<Meta>, n: string)
    ensures if n in FirstWins(kids) then exists i :: NamedFirst(kids, i, n) && FirstWins(kids)[n] == kids[i]
            else !HasName(kids, n)
  {
    if kids != [] {
      var rest, last := kids[..|kids| - 1], |kids| - 1;
      FirstWinsIsFirst(rest, n);
      assert forall j :: 0 <= j < |rest| ==> kids[j] == rest[j];
      if n in FirstWins(rest) {
        var i :| NamedFirst(rest, i, n) && FirstWins(rest)[n] == rest[i];
        assert NamedFirst(kids, i, n);
      } else if Name(kids[last]) == n {
        assert forall j :: 0 <= j < last ==> Name(rest[j]) != n;
        assert NamedFirst(kids, last, n);
      }
    }
  }

  ghost predicate NamedLast(kids: seq<Meta>, i: int, n: string) {
    0 <= i < |kids| && Name(kids[i]) == n && forall j :: i < j < |kids| ==> Name(kids[j]) != n
  }

  ghost predicate NamedFirst(kids: seq<Meta>, i: int, n: string) {
    0 <= i < |kids| && Name(kids[i]) == n && forall j :: 0 <= j < i ==> Name(kids[j]) != n
  }

  // The directory that gives a merged listing its entry of the name: the first from
  // the top that lists it.
  ghost predicate ListsFirst(lower: seq<Meta>, i: int, n: string) {
    0 <= i < |lower| && n in LowMap(lower[i]) && forall j :: 0 <= j < i ==> n !in LowMap(lower[j])
  }

  lemma {:induction false} OverlayIsFirst(upper: Listing, lower: seq<Meta>, n: string)
    ensures var all := Overlay(upper, lower);
      if n in upper then n in all && all[n] == upper[n]
      else if n in all then exists i :: ListsFirst(lower, i, n) && all[n] == LowMap(lower[i])[n]
      else forall i :: 0 <= i < |lower| ==> n !in LowMap(lower[i])
    decreases |lower|
  {
    if lower != [] {
      var rest := lower[1..];
      OverlayIsFirst(LowMap(lower[0]) + upper, rest, n);
      assert forall j :: 0 < j < |lower| ==> lower[j] == rest[j - 1];
      if n !in upper && n in LowMap(lower[0]) {
        assert ListsFirst(lower, 0, n);
      } else if n !in upper && n in Overlay(upper, lower) {
        var i :| ListsFirst(rest, i, n) && Overlay(upper, lower)[n] == LowMap(rest[i])[n];
        assert ListsFirst(lower, i + 1, n);
      }
    }
  }

  lemma {:induction false} ListedAt(kids: seq<Meta>, i: nat)
    requires UniqueNames(kids) && i < |kids|
    ensures Name(kids[i]) in LastWins(kids) && LastWins(kids)[Name(kids[i])] == kids[i]
  {
    if i < |kids| - 1 {
      ListedAt(kids[..|kids| - 1], i);
    }
  }

  lemma {:induction false} UniqueMeansOneListing(kids: seq<Meta>)
    requires UniqueNames(kids)
    ensures LastWins(kids) == FirstWins(kids)
  {
    if kids != [] {
      var rest, last := kids[..|kids| - 1], kids[|kids| - 1];
      UniqueMeansOneListing(rest);
      ListedNames(rest, Name(last));
      assert Name(last) !in LastWins(rest);
    }
  }

  lemma ListsGivesMaps(m: Meta, cs: seq<Meta>)
    requires Lists(m, cs)
    ensures LastWins(cs) == TopMap(m) && FirstWins(cs) == LowMap(m)
  {
    if m.Merged? {
      UniqueMeansOneListing(cs);
    }
  }

  /******* Merging by code *******/

  method ChildrenOf(m: Meta) returns (cs: seq<Meta>)
    ensures Lists(m, cs)
    decreases m
  {
    match m {
      case File(_, _) => return [];
      case Dir(_, kids) => return kids;
      case Merged(top, lower) =>
        var tops := ChildrenOf(top);
        ListsGivesMaps(top, tops);
        var all := map[];
        for i := 0 to |tops|
          invariant all == LastWins(tops[..i])
        {
          all := all[Name(tops[i]) := tops[i]];
          assert tops[..i + 1][..i] == tops[..i];
        }
        assert tops[..|tops|] == tops;
        for k := 0 to |lower|
          invariant Overlay(TopMap(top), lower) == Overlay(all, lower[k..])
        {
          var under := ChildrenOf(lower[k]);
          ListsGivesMaps(lower[k], under);
          all := AddMissing(all, under);
          assert lower[k..][1..] == lower[k + 1..];
        }
        cs := Entries(all, m);
    }
  }

  lemma OneMissing(first: Listing, upper: Listing, m: Meta)
    ensures (first + OneUnless(first, m)) + upper
         == if Name(m) in first + upper then first + upper else (first + upper)[Name(m) := m]
  {}

  method AddMissing(upper: Listing, under: seq<Meta>) returns (all: Listing)
    ensures all == FirstWins(under) + upper
  {
    all := upper;
    assert map[] + upper == upper;
    for i := 0 to |under|
      invariant all == FirstWins(under[..i]) + upper
    {
      OneMissing(FirstWins(under[..i]), upper, under[i]);
      assert under[..i + 1][..i] == under[..i];
      if Name(under[i]) !in all {
        all := all[Name(under[i]) := under[i]];
      }
    }
    assert under[..|under|] == under;
  }

  ghost predicate NamesMatch(listing: Listing) {
    forall n :: n in listing ==> Name(listing[n]) == n
  }

  // The entries of the map, in any order.
  method Entries(all: Listing, ghost m: Meta) returns (cs: seq<Meta>)
    requires m.Merged? && all == TopMap(m)
    ensures Lists(m, cs)
  {
    ListingNames(m);
    cs := [];
    var todo := all.Keys;
    while todo != {}
      invariant todo <= all.Keys && UniqueNames(cs)
      invariant forall n :: n in all && n !in todo <==> n in LastWins(cs)
      invariant forall n :: n in LastWins(cs) ==> LastWins(cs)[n] == all[n]
      invariant forall i :: 0 <= i < |cs| ==> Name(cs[i]) !in todo
      decreases todo
    {
      var n :| n in todo;
      todo := todo - {n};
      ghost var was := cs;
      cs := cs + [all[n]];
      assert cs[..|cs| - 1] == was;
    }
  }

  lemma {:induction false} KidsNames(kids: seq<Meta>)
    ensures NamesMatch(LastWins(kids)) && NamesMatch(FirstWins(kids))
  {
    if kids != [] {
      KidsNames(kids[..|kids| - 1]);
    }
  }

  lemma {:induction false} ListingNames(m: Meta)
    ensures NamesMatch(TopMap(m)) && NamesMatch(LowMap(m))
    decreases m
  {
    match m
    case File(_, _) =>
    case Dir(_, kids) => KidsNames(kids);
    case Merged(top, lower) =>
      ListingNames(top);
      OverlayNames(TopMap(top), lower);
  }

  lemma {:induction false} OverlayNames(upper: Listing, lower: seq<Meta>)
    requires NamesMatch(upper)
    ensures NamesMatch(Overlay(upper, lower))
    decreases lower
  {
    if lower != [] {
      ListingNames(lower[0]);
      OverlayNames(LowMap(lower[0]) + upper, lower[1..]);
    }
  }

  // The memo of a merged directory: computed once, the same ever after.
  class MergedDir {
    const top: Meta
    const lower: seq<Meta>
    var merged: Option<seq<Meta>>

    ghost predicate Valid()
      reads this
    {
      merged.Some? ==> Lists(Merged(top, lower), merged.value)
    }

    constructor (top: Meta, lower: seq<Meta>)
      ensures Valid() && this.top == top && this.lower == lower && merged == None
    {
      this.top, this.lower, merged := top, lower, None;
    }

    method Children() returns (cs: seq<Meta>)
      requires Valid()
      modifies this
      ensures Valid() && merged == Some(cs) && Lists(Merged(top, lower), cs)
      ensures old(merged).Some? ==> merged == old(merged)
    {
      if merged.None? {
        var all := ChildrenOf(Merged(top, lower));
        merged := Some(all);
      }
      return merged.value;
    }
  }

  /******* Stores *******/

  type Store = Path -> Option<Meta>

  // What the layers hold at the path.
  function Under(layers: seq<Store>, p: Path): seq<Meta> {
    if layers == [] then []
    else match layers[0](p)
      case Some(m) => [m] + Under(layers[1..], p)
      case None => Under(layers[1..], p)
  }

  // The topmost layer comes first.
  function Lookup(layers: seq<Store>, p: Path): Option<Meta> {
    if layers == [] then None
    else match layers[0](p)
      case None => Lookup(layers[1..], p)
      case Some(m) =>
        if !IsDir(m) || |layers| == 1 then Some(m) else Some(Merged(m, Under(layers[1..], p)))
  }

  function AsStore(layers: seq<Store>): Store {
    (p: Path) => Lookup(layers, p)
  }

  method GetMerge(p: Path, top: Meta, under: seq<Store>) returns (m: Meta)
    ensures m == Merged(top, Under(under, p))
  {
    var lower: seq<Meta> := [];
    for i := 0 to |under|
      invariant Under(under, p) == lower + Under(under[i..], p)
    {
      var found := under[i](p);
      if found.Some? {
        lower := lower + [found.value];
      }
      assert under[i..][1..] == under[i + 1..];
    }
    return Merged(top, lower);
  }

  method Get(layers: seq<Store>, p: Path) returns (r: Option<Meta>)
    ensures r == Lookup(layers, p)
  {
    for i := 0 to |layers|
      invariant Lookup(layers, p) == Lookup(layers[i..], p)
    {
      var found := layers[i](p);
      assert layers[i..][1..] == layers[i + 1..];
      if found.Some? {
        if !IsDir(found.value) {
          return found;
        }
        if i + 1 == |layers| {
          return found;
        }
        var m := GetMerge(p, found.value, layers[i + 1..]);
        return Some(m);
      }
    }
    return None;
  }

  // The stores from the last to the first, without those that are nil.
  function Present(stores: seq<Option<Store>>): seq<Store> {
    if stores == [] then []
    else (if stores[|stores| - 1].Some? then [stores[|stores| - 1].value] else []) + Present(stores[..|stores| - 1])
  }

  ghost predicate HasAt(stores: seq<Option<Store>>, i: nat, p: Path) {
    i < |stores| && stores[i].Some? && stores[i].value(p).Some?
  }

  // Store i is the last that has the path.
  ghost predicate LastWithPath(stores: seq<Option<Store>>, i: nat, p: Path) {
    HasAt(stores, i, p) && forall j: nat :: HasAt(stores, j, p) ==> j <= i
  }

  // What the first n stores have at the path, from the last of them to the first.
  function Before(stores: seq<Option<Store>>, n: nat, p: Path): seq<Meta>
    requires n <= |stores|
  {
    if n == 0 then []
    else (if stores[n - 1].Some? && stores[n - 1].value(p).Some? then [stores[n - 1].value(p).value] else [])
         + Before(stores, n - 1, p)
  }

  // The last store that has the path is on top, and a directory in it is laid over
  // what the stores before it have, a later one over an earlier one.
  ghost predicate ShowsLast(stores: seq<Option<Store>>, p: Path, r: Option<Meta>) {
    && (r.Some? <==> exists i: nat :: HasAt(stores, i, p))
    && forall i: nat :: LastWithPath(stores, i, p) ==> r.Some? && Shows(stores, i, p, r.value)
  }

  ghost predicate Shows(stores: seq<Option<Store>>, i: nat, p: Path, m: Meta)
    requires HasAt(stores, i, p)
  {
    var top := stores[i].value(p).value;
    && Base(m) == Base(top)
    && (IsDir(top) ==> TopMap(m) == Overlay(TopMap(top), Before(stores, i, p)))
    && (!IsDir(top) ==> m == top)
  }

  lemma {:induction false} UnderPresent(stores: seq<Option<Store>>, p: Path)
    ensures Under(Present(stores), p) == Before(stores, |stores|, p)
  {
    if stores != [] {
      var n := |stores| - 1;
      UnderPresent(stores[..n], p);
      BeforePrefix(stores, n, n, p);
      PresentStep(stores);
      assert [] + Before(stores, n, p) == Before(stores, n, p);
    }
  }

  lemma PresentStep(stores: seq<Option<Store>>)
    requires stores != []
    ensures var n := |stores| - 1;
      var layers, rest := Present(stores), Present(stores[..n]);
      if stores[n].None? then layers == rest
      else layers != [] && layers[0] == stores[n].value && layers[1..] == rest
  {}

  lemma {:induction false} BeforePrefix(stores: seq<Option<Store>>, k: nat, n: nat, p: Path)
    requires n <= k <= |stores|
    ensures Before(stores[..k], n, p) == Before(stores, n, p)
  {
    if n > 0 {
      BeforePrefix(stores, k, n - 1, p);
    }
  }

  lemma LastIsShown(stores: seq<Option<Store>>, p: Path)
    requires stores != [] && HasAt(stores, |stores| - 1, p)
    ensures Lookup(Present(stores), p).Some? && Shows(stores, |stores| - 1, p, Lookup(Present(stores), p).value)
  {
    var n := |stores| - 1;
    PresentStep(stores);
    UnderPresent(stores[..n], p);
    BeforePrefix(stores, n, n, p);
  }

  lemma PassesLast(stores: seq<Option<Store>>, p: Path, r: Option<Meta>)
    requires stores != [] && !HasAt(stores, |stores| - 1, p) && ShowsLast(stores[..|stores| - 1], p, r)
    ensures ShowsLast(stores, p, r)
  {
    var n := |stores| - 1;
    var rest := stores[..n];
    assert forall i: nat :: HasAt(stores, i, p) <==> HasAt(rest, i, p);
    forall i: nat | LastWithPath(stores, i, p) ensures r.Some? && Shows(stores, i, p, r.value) {
      assert LastWithPath(rest, i, p);
      assert Shows(rest, i, p, r.value);
      BeforePrefix(stores, n, i, p);
    }
  }

  lemma {:induction false} LayeredShowsLast(stores: seq<Option<Store>>, p: Path)
    ensures ShowsLast(stores, p, Lookup(Present(stores), p))
  {
    if stores != [] {
      var n := |stores| - 1;
      if HasAt(stores, n, p) {
        LastIsShown(stores, p);
      } else {
        LayeredShowsLast(stores[..n], p);
        PresentStep(stores);
        PassesLast(stores, p, Lookup(Present(stores[..n]), p));
      }
    }
  }

  ghost predicate ListsAt(stores: seq<Option<Store>>, j: nat, p: Path, n: string) {
    HasAt(stores, j, p) && n in LowMap(stores[j].value(p).value)
  }

  // Of the first i stores, j is the last that lists the name at the path.
  ghost predicate ListsLast(stores: seq<Option<Store>>, i: nat, j: nat, p: Path, n: string) {
    j < i && ListsAt(stores, j, p, n) && forall k: nat :: j < k < i ==> !ListsAt(stores, k, p, n)
  }

  // A name that the directory on top does not list comes from the last of the stores
  // before it that list it.
  lemma {:induction false} LaterHidesEarlier(stores: seq<Option<Store>>, i: nat, p: Path, upper: Listing, n: string)
    requires i <= |stores| && n !in upper
    ensures var all := Overlay(upper, Before(stores, i, p));
      if n in all then exists j: nat :: ListsLast(stores, i, j, p, n) && all[n] == LowMap(stores[j].value(p).value)[n]
      else forall j: nat :: j < i ==> !ListsAt(stores, j, p, n)
    decreases i
  {
    if i > 0 {
      var last := i - 1;
      if ListsAt(stores, last, p, n) {
        LastListerWins(stores, last, p, upper, n);
        assert ListsLast(stores, i, last, p, n);
      } else {
        SilentStorePasses(stores, last, p, upper);
        var over := if HasAt(stores, last, p) then LowMap(stores[last].value(p).value) + upper else upper;
        LaterHidesEarlier(stores, last, p, over, n);
        if n in Overlay(over, Before(stores, last, p)) {
          var j: nat :| ListsLast(stores, last, j, p, n)
            && Overlay(over, Before(stores, last, p))[n] == LowMap(stores[j].value(p).value)[n];
          assert ListsLast(stores, i, j, p, n);
        }
      }
    }
  }

  lemma SilentStorePasses(stores: seq<Option<Store>>, last: nat, p: Path, upper: Listing)
    requires last < |stores|
    ensures Overlay(upper, Before(stores, last + 1, p))
         == Overlay(if HasAt(stores, last, p) then LowMap(stores[last].value(p).value) + upper else upper,
              Before(stores, last, p))
  {
    var all := Before(stores, last + 1, p);
    if HasAt(stores, last, p) {
      assert all[0] == stores[last].value(p).value && all[1..] == Before(stores, last, p);
    } else {
      assert all == Before(stores, last, p);
    }
  }

  lemma LastListerWins(stores: seq<Option<Store>>, last: nat, p: Path, upper: Listing, n: string)
    requires last < |stores| && ListsAt(stores, last, p, n) && n !in upper
    ensures var all := Overlay(upper, Before(stores, last + 1, p));
            n in all && all[n] == LowMap(stores[last].value(p).value)[n]
  {
    SilentStorePasses(stores, last, p, upper);
    OverlayIsFirst(LowMap(stores[last].value(p).value) + upper, Before(stores, last, p), n);
  }

  // The last store is on top. Nil stores are left out, except that a single store is
  // returned as it is.
  method Layered(stores: seq<Option<Store>>) returns (s: Option<Store>)
    ensures |stores| == 1 ==> s == stores[0]
    ensures |stores| != 1 ==> s.Some? && forall p :: ShowsLast(stores, p, s.value(p))
    ensures |stores| != 1 ==> s.Some? && forall p :: s.value(p) == Lookup(Present(stores), p)
  {
    if |stores| == 1 {
      return stores[0];
    }
    var layers: seq<Store> := [];
    assert stores[..|stores|] == stores;
    for i := |stores| downto 0
      invariant Present(stores) == layers + Present(stores[..i])
    {
      if stores[i].Some? {
        layers := layers + [stores[i].value];
      }
      assert stores[..i + 1][..i] == stores[..i];
    }
    assert layers == layers + [] == Present(stores);
    s := Some(AsStore(layers));
    forall p ensures ShowsLast(stores, p, s.value(p)) {
      LayeredShowsLast(stores, p);
    }
  }

  /******* Overlays *******/

  lemma {:induction false} OverlayConcat(upper: Listing, a: seq<Meta>, b: seq<Meta>)
    ensures Overlay(upper, a + b) == Overlay(Overlay(upper, a), b)
    decreases |a|
  {
    if a == [] {
      assert a + b == b;
    } else {
      assert (a + b)[1..] == a[1..] + b;
      OverlayConcat(LowMap(a[0]) + upper, a[1..], b);
    }
  }

  // A name comes from above, or else from the first layer below that lists it.
  lemma {:induction false} OverlaySplits(upper: Listing, lower: seq<Meta>)
    ensures Overlay(upper, lower) == Overlay(map[], lower) + upper
    decreases |lower|
  {
    if lower == [] {
      assert map[] + upper == upper;
    } else {
      var l := LowMap(lower[0]);
      OverlaySplits(l + upper, lower[1..]);
      OverlaySplits(l, lower[1..]);
      assert l + map[] == l;
      var rest := Overlay(map[], lower[1..]);
      assert rest + (l + upper) == (rest + l) + upper;
    }
  }

  lemma {:induction false} UnderConcat(a: seq<Store>, b: seq<Store>, p: Path)
    ensures Under(a + b, p) == Under(a, p) + Under(b, p)
  {
    if a == [] {
      assert a + b == b;
    } else {
      assert (a + b)[1..] == a[1..] + b;
      UnderConcat(a[1..], b, p);
    }
  }

  // Same attributes, same listing.
  ghost predicate Same(a: Option<Meta>, b: Option<Meta>) {
    && a.Some? == b.Some?
    && (a.Some? ==> Base(a.value) == Base(b.value) && TopMap(a.value) == TopMap(b.value))
  }

  lemma {:induction false} BaseDecidesKind(m: Meta)
    ensures IsDir(m) == IsDir(Base(m)) && Name(m) == Name(Base(m)) && !Base(m).Merged?
  {
    if m.Merged? {
      BaseDecidesKind(m.top);
    }
  }

  /******* Nesting *******/

  // A layered store on top of others is the same as its layers on top of them.
  lemma {:induction false} NestingOnTopIsFlat(tops: seq<Store>, under: seq<Store>, p: Path)
    ensures Same(Lookup([AsStore(tops)] + under, p), Lookup(tops + under, p))
  {
    var nested := [AsStore(tops)] + under;
    assert nested[1..] == under;
    if tops == [] {
      assert tops + under == under;
    } else {
      assert (tops + under)[1..] == tops[1..] + under;
      match tops[0](p)
      case None =>
        NestingOnTopIsFlat(tops[1..], under, p);
        var shorter := [AsStore(tops[1..])] + under;
        assert shorter[1..] == under;
      case Some(m) =>
        UnderConcat(tops[1..], under, p);
        OverlayConcat(TopMap(m), Under(tops[1..], p), Under(under, p));
    }
  }

  // Nothing but a directory has a listing, and its names are unique.
  ghost predicate Regular(s: Store, p: Path) {
    s(p).Some? ==> TopMap(s(p).value) == LowMap(s(p).value) && (!IsDir(s(p).value) ==> s(p).value.File?)
  }

  ghost predicate AllRegular(layers: seq<Store>, p: Path) {
    forall i :: 0 <= i < |layers| ==> Regular(layers[i], p)
  }

  // Everything that the layers list at the path.
  function Union(layers: seq<Store>, p: Path): Listing {
    Overlay(map[], Under(layers, p))
  }

  lemma {:induction false} LookupListing(layers: seq<Store>, p: Path)
    requires AllRegular(layers, p) && Lookup(layers, p).Some?
    ensures var m := Lookup(layers, p).value;
            TopMap(m) == LowMap(m) == if IsDir(m) then Union(layers, p) else map[]
  {
    match layers[0](p)
    case None =>
      assert AllRegular(layers[1..], p);
      LookupListing(layers[1..], p);
    case Some(m) =>
      assert Regular(layers[0], p);
      var rest := Under(layers[1..], p);
      assert ([m] + rest)[1..] == rest;
      assert LowMap(m) + map[] == LowMap(m);
      assert Union(layers, p) == Overlay(LowMap(m), rest);
      assert |layers| == 1 ==> rest == [];
  }

  // The layers under a directory begin with a file there, and below it something
  // is listed that the upper layers do not list.
  ghost predicate Hides(tops: seq<Store>, under: seq<Store>, p: Path) {
    && Lookup(tops, p).Some? && IsDir(Lookup(tops, p).value)
    && Lookup(under, p).Some? && !IsDir(Lookup(under, p).value)
    && !(Union(under, p).Keys <= TopMap(Lookup(tops, p).value).Keys)
  }

  lemma OverHiddenNames(o: Listing, acc: Listing)
    ensures o + acc == acc <==> o.Keys <= acc.Keys
  {
    if o + acc == acc {
      assert o.Keys <= (o + acc).Keys;
    }
  }

  // The same for a directory that the topmost layer has.
  lemma DirOverLayered(m: Meta, rest: seq<Store>, under: seq<Store>, p: Path)
    requires AllRegular(under, p)
    ensures var acc := Overlay(TopMap(m), Under(rest, p));
      Overlay(TopMap(m), Under(rest + [AsStore(under)], p)) == Overlay(TopMap(m), Under(rest + under, p)) <==>
        !(Lookup(under, p).Some? && !IsDir(Lookup(under, p).value) && !(Union(under, p).Keys <= acc.Keys))
  {
    var acc, below := Overlay(TopMap(m), Under(rest, p)), [AsStore(under)];
    UnderConcat(rest, under, p);
    UnderConcat(rest, below, p);
    OverlayConcat(TopMap(m), Under(rest, p), Under(under, p));
    OverlayConcat(TopMap(m), Under(rest, p), Under(below, p));
    OverlaySplits(acc, Under(under, p));
    BelowListing(under, acc, p);
    OverHiddenNames(Union(under, p), acc);
    assert map[] + acc == acc;
  }

  // Layers on top of a layered store show what they would on top of its layers,
  // except where a file in it hides a directory further down.
  lemma {:induction false} NestingBelowIsFlatUnlessHidden(tops: seq<Store>, under: seq<Store>, p: Path)
    requires AllRegular(under, p)
    ensures Same(Lookup(tops + [AsStore(under)], p), Lookup(tops + under, p)) <==> !Hides(tops, under, p)
  {
    var below := [AsStore(under)];
    if tops == [] {
      assert tops + below == below && tops + under == under;
      assert below[1..] == [];
    } else {
      assert (tops + below)[1..] == tops[1..] + below && (tops + under)[1..] == tops[1..] + under;
      match tops[0](p)
      case None => NestingBelowIsFlatUnlessHidden(tops[1..], under, p);
      case Some(m) =>
        if IsDir(m) {
          DirOverLayered(m, tops[1..], under, p);
          assert TopMap(Lookup(tops, p).value) == Overlay(TopMap(m), Under(tops[1..], p));
        }
    }
  }

  lemma BelowListing(under: seq<Store>, acc: Listing, p: Path)
    requires AllRegular(under, p)
    ensures Overlay(acc, Under([AsStore(under)], p))
         == match Lookup(under, p)
            case Some(m) => if IsDir(m) then Union(under, p) + acc else acc
            case None => acc
    ensures Lookup(under, p).None? ==> Union(under, p) == map[]
  {
    var below := [AsStore(under)];
    assert below[1..] == [] && Under(below[1..], p) == [];
    match Lookup(under, p)
    case Some(m) =>
      LookupListing(under, p);
      assert Under(below, p) == [m];
      assert [m][1..] == [];
      assert map[] + acc == acc;
    case None =>
      NothingUnder(under, p);
      assert Under(below, p) == [];
  }

  lemma {:induction false} NothingUnder(layers: seq<Store>, p: Path)
    ensures Lookup(layers, p).None? <==> Under(layers, p) == []
  {
    if layers != [] && layers[0](p).None? {
      NothingUnder(layers[1..], p);
    }
  }

  /******* Listing and lookup *******/

  // In a single tree a path is found iff the directory above lists its last name.
  ghost predicate TreeAt(s: Store, p: Path, name: string) {
    var here, below := s(p), s(p + [name]);
    && (below.Some? <==> here.Some? && name in TopMap(here.value))
    && (below.Some? ==> Base(below.value) == Base(TopMap(here.value)[name]))
  }

  ghost predicate TreesAt(layers: seq<Store>, p: Path, name: string) {
    forall i :: 0 <= i < |layers| ==> TreeAt(layers[i], p, name)
  }

  ghost predicate Trees(layers: seq<Store>, p: Path) {
    forall name :: TreesAt(layers, p, name)
  }

  // The first layer that has the path, from the top.
  ghost predicate Topmost(layers: seq<Store>, p: Path, i: nat) {
    i < |layers| && layers[i](p).Some? && forall j :: 0 <= j < i ==> layers[j](p).None?
  }

  // The union lists a name iff the lookup finds it one level down, and both give
  // the entry of the topmost layer that has it.
  lemma {:induction false} UnionAgrees(layers: seq<Store>, p: Path, name: string)
    requires AllRegular(layers, p) && TreesAt(layers, p, name)
    ensures name in Union(layers, p) <==> Lookup(layers, p + [name]).Some?
    ensures name in Union(layers, p) ==>
      exists i: nat :: Topmost(layers, p + [name], i)
        && Base(Union(layers, p)[name]) == Base(layers[i](p + [name]).value) == Base(Lookup(layers, p + [name]).value)
  {
    if layers != [] {
      var rest := layers[1..];
      assert AllRegular(rest, p) && TreesAt(rest, p, name);
      UnionAgrees(rest, p, name);
      assert Regular(layers[0], p) && TreeAt(layers[0], p, name);
      UnionOfFirst(layers, p);
      if layers[0](p + [name]).Some? {
        assert Topmost(layers, p + [name], 0);
      } else if name in Union(rest, p) {
        var i: nat :| Topmost(rest, p + [name], i)
          && Base(Union(rest, p)[name]) == Base(rest[i](p + [name]).value) == Base(Lookup(rest, p + [name]).value);
        assert layers[i + 1] == rest[i];
        assert Topmost(layers, p + [name], i + 1);
      }
    }
  }

  lemma UnionOfFirst(layers: seq<Store>, p: Path)
    requires layers != []
    ensures Union(layers, p)
         == match layers[0](p)
            case Some(m) => Union(layers[1..], p) + LowMap(m)
            case None => Union(layers[1..], p)
  {
    if layers[0](p).Some? {
      var m := layers[0](p).value;
      assert Under(layers, p)[1..] == Under(layers[1..], p);
      assert LowMap(m) + map[] == LowMap(m);
      OverlaySplits(LowMap(m), Under(layers[1..], p));
    }
  }

  // Where the union shows a directory, listing and lookup agree.
  lemma ListingAgreesWithLookup(layers: seq<Store>, p: Path, name: string)
    requires AllRegular(layers, p) && TreesAt(layers, p, name)
    requires Lookup(layers, p).Some? && IsDir(Lookup(layers, p).value)
    ensures var listing := TopMap(Lookup(layers, p).value);
      && (name in listing <==> Lookup(layers, p + [name]).Some?)
      && (name in listing ==>
            exists i: nat :: Topmost(layers, p + [name], i)
              && Base(listing[name]) == Base(layers[i](p + [name]).value) == Base(Lookup(layers, p + [name]).value))
  {
    LookupListing(layers, p);
    UnionAgrees(layers, p, name);
  }

  // They agree at a path iff it shows a directory, or no layer lists anything
  // there: a file does not stop a lookup from going past it.
  lemma AgreementIffNothingBehindFile(layers: seq<Store>, p: Path)
    requires AllRegular(layers, p) && Trees(layers, p) && Lookup(layers, p).Some?
    ensures (forall name :: name in TopMap(Lookup(layers, p).value) <==> Lookup(layers, p + [name]).Some?)
       <==> IsDir(Lookup(layers, p).value) || Union(layers, p) == map[]
  {
    LookupListing(layers, p);
    forall name ensures name in Union(layers, p) <==> Lookup(layers, p + [name]).Some? {
      UnionAgrees(layers, p, name);
    }
    if Union(layers, p) != map[] {
      var name :| name in Union(layers, p);
      assert Lookup(layers, p + [name]).Some?;
    }
  }

  /******* The listed child and the entry that is looked up *******/

  // The store's directories list what a lookup finds, with everything below it.
  ghost predicate ExactAt(s: Store, p: Path, name: string) {
    var here, below := s(p), s(p + [name]);
    here.Some? && below.Some? && name in TopMap(here.value) ==> TopMap(here.value)[name] == below.value
  }

  ghost predicate AllExact(layers: seq<Store>, p: Path, name: string) {
    forall i :: 0 <= i < |layers| ==> ExactAt(layers[i], p, name)
  }

  // The child in a union's listing is what the topmost layer that has the path
  // holds there, and its own listing prevails in the union one level down.
  lemma {:induction false} ListedIsTopmost(layers: seq<Store>, p: Path, name: string) returns (i: nat)
    requires AllRegular(layers, p) && AllRegular(layers, p + [name])
    requires TreesAt(layers, p, name) && AllExact(layers, p, name)
    requires name in Union(layers, p)
    ensures Topmost(layers, p + [name], i) && Union(layers, p)[name] == layers[i](p + [name]).value
    ensures Lookup(layers, p + [name]).Some?
    ensures Base(Lookup(layers, p + [name]).value) == Base(layers[i](p + [name]).value)
    ensures Union(layers, p + [name]) + LowMap(layers[i](p + [name]).value) == Union(layers, p + [name])
  {
    var q := p + [name];
    assert Regular(layers[0], p) && TreeAt(layers[0], p, name) && ExactAt(layers[0], p, name) by {
      assert layers != [];
    }
    UnionOfFirst(layers, p);
    UnionOfFirst(layers, q);
    if layers[0](q).Some? {
      return 0;
    }
    var rest := layers[1..];
    assert AllRegular(rest, p) && AllRegular(rest, q) && TreesAt(rest, p, name) && AllExact(rest, p, name);
    i := ListedIsTopmost(rest, p, name);
    assert layers[i + 1] == rest[i];
    i := i + 1;
  }

  // A listed directory lists its own layer only. So it is the same as the entry
  // that its path's lookup finds iff it lists all that the layers list there.
  lemma ListedChildIsSameIff(layers: seq<Store>, p: Path, name: string)
    requires AllRegular(layers, p) && AllRegular(layers, p + [name])
    requires TreesAt(layers, p, name) && AllExact(layers, p, name)
    requires name in Union(layers, p)
    ensures var child := Union(layers, p)[name];
      Same(Some(child), Lookup(layers, p + [name])) <==>
        !IsDir(child) || Union(layers, p + [name]).Keys <= TopMap(child).Keys
  {
    var q := p + [name];
    var i := ListedIsTopmost(layers, p, name);
    assert Regular(layers[i], q);
    var child, union := Union(layers, p)[name], Union(layers, q);
    LookupListing(layers, q);
    BaseDecidesKind(child);
    BaseDecidesKind(Lookup(layers, q).value);
    if IsDir(child) && union.Keys <= TopMap(child).Keys {
      OverHiddenNames(union, TopMap(child));
      assert union == TopMap(child);
    }
  }

  /******* Stores of one tree *******/

  function FirstKid(kids: seq<Meta>, name: string): (r: Option<Meta>)
    ensures r.Some? ==> r.value in kids && Name(r.value) == name
    ensures r.None? ==> !HasName(kids, name)
  {
    if kids == [] then None else if Name(kids[0]) == name then Some(kids[0]) else FirstKid(kids[1..], name)
  }

  function Find(m: Meta, p: Path): Option<Meta>
    decreases |p|
  {
    if p == [] then Some(m)
    else if !m.Dir? then None
    else match FirstKid(m.kids, p[0])
      case None => None
      case Some(kid) => Find(kid, p[1..])
  }

  // The store that holds just the tree below root.
  function TreeStore(root: Meta): Store {
    (p: Path) => Find(root, p)
  }

  // No merged directories, and unique names in each directory.
  ghost predicate Plain(m: Meta) {
    match m
    case File(_, _) => true
    case Dir(_, kids) => UniqueNames(kids) && forall i :: 0 <= i < |kids| ==> Plain(kids[i])
    case Merged(_, _) => false
  }

  lemma {:induction false} FindOneMore(m: Meta, p: Path, name: string)
    requires Plain(m)
    ensures Find(m, p).Some? ==> Plain(Find(m, p).value)
    ensures Find(m, p + [name])
         == match Find(m, p)
            case None => None
            case Some(n) => if n.Dir? then FirstKid(n.kids, name) else None
    decreases |p|
  {
    if p == [] {
      assert [name][1..] == [];
    } else {
      assert (p + [name])[1..] == p[1..] + [name];
      if m.Dir? && FirstKid(m.kids, p[0]).Some? {
        FindOneMore(FirstKid(m.kids, p[0]).value, p[1..], name);
      }
    }
  }

  lemma ListedKid(kids: seq<Meta>, name: string)
    requires UniqueNames(kids)
    ensures name in LastWins(kids) <==> FirstKid(kids, name).Some?
    ensures name in LastWins(kids) ==> LastWins(kids)[name] == FirstKid(kids, name).value
  {
    ListedNames(kids, name);
    if FirstKid(kids, name).Some? {
      var i :| 0 <= i < |kids| && kids[i] == FirstKid(kids, name).value;
      ListedAt(kids, i);
    }
  }

  // Such a store is all that is asked of a layer.
  lemma TreeStoreIsTree(root: Meta, p: Path, name: string)
    requires Plain(root)
    ensures TreeAt(TreeStore(root), p, name) && Regular(TreeStore(root), p) && ExactAt(TreeStore(root), p, name)
  {
    FindOneMore(root, p, name);
    var here := Find(root, p);
    if here.Some? && here.value.Dir? {
      UniqueMeansOneListing(here.value.kids);
      ListedKid(here.value.kids, name);
    }
  }

  ghost predicate TreesEverywhere(layers: seq<Store>) {
    && (forall p, name :: TreesAt(layers, p, name))
    && (forall p :: AllRegular(layers, p))
    && (forall p, name :: AllExact(layers, p, name))
  }

  lemma TreeStoresAreTrees(roots: seq<Meta>, layers: seq<Store>)
    requires |layers| == |roots| && forall i :: 0 <= i < |roots| ==> Plain(roots[i]) && layers[i] == TreeStore(roots[i])
    ensures TreesEverywhere(layers)
  {
    forall i, p, name | 0 <= i < |layers|
      ensures TreeAt(layers[i], p, name) && Regular(layers[i], p) && ExactAt(layers[i], p, name)
    {
      TreeStoreIsTree(roots[i], p, name);
    }
    forall p, i | 0 <= i < |layers| ensures Regular(layers[i], p) {
      TreeStoreIsTree(roots[i], p, "");
    }
  }

  /******* Three stacks of stores *******/

  // A root with one entry.
  function Holding(m: Meta): Meta {
    Dir("", [m])
  }

  const EMPTY_DIR := Dir("d", [])
  const FILE := File("d", "")
  const DIR_WITH_X := Dir("d", [File("x", "")])
  const DIR_WITH_Y := Dir("d", [File("y", "")])

  lemma FindHeld(m: Meta)
    requires m.Dir? || m.File?
    ensures Find(Holding(m), ["d"]) == if m.name == "d" then Some(m) else None
  {
    assert ["d"][1..] == [];
    assert [m][1..] == [] && FirstKid([], "d") == None;
    assert FirstKid([m], "d") == if Name(m) == "d" then Some(m) else None;
    assert Find(m, []) == Some(m);
  }

  lemma ListingOfOne(m: Meta)
    ensures LastWins([m]) == map[Name(m) := m]
  {
    assert [m][..0] == [];
  }

  // A file "d" between two directories "d": nested below the upper one, it takes
  // the lower one's "x" out of the listing.
  lemma ReloadCanHide()
    ensures var bottom, middle := TreeStore(Holding(DIR_WITH_X)), TreeStore(Holding(FILE));
      var top := TreeStore(Holding(EMPTY_DIR));
      && TreesEverywhere([top, middle, bottom])
      && !Same(Lookup([top] + [AsStore([middle, bottom])], ["d"]), Lookup([top] + [middle, bottom], ["d"]))
  {
    var roots := [Holding(EMPTY_DIR), Holding(FILE), Holding(DIR_WITH_X)];
    var bottom, middle, top := TreeStore(roots[2]), TreeStore(roots[1]), TreeStore(roots[0]);
    TreeStoresAreTrees(roots, [top, middle, bottom]);
    FindHeld(EMPTY_DIR);
    FindHeld(FILE);
    FindHeld(DIR_WITH_X);
    var tops, under := [top], [middle, bottom];
    assert under[1..] == [bottom] && [bottom][1..] == [] && tops[1..] == [];
    assert Lookup(tops, ["d"]) == Some(EMPTY_DIR) && Lookup(under, ["d"]) == Some(FILE);
    UnionWithX(middle, bottom);
    assert Regular(middle, ["d"]) && Regular(bottom, ["d"]) by {
      TreeStoreIsTree(roots[1], ["d"], "");
      TreeStoreIsTree(roots[2], ["d"], "");
    }
    NestingBelowIsFlatUnlessHidden(tops, under, ["d"]);
  }

  lemma UnionWithX(upper: Store, lower: Store)
    requires upper(["d"]) == Some(FILE) && lower(["d"]) == Some(DIR_WITH_X)
    ensures Union([upper, lower], ["d"]) == map["x" := File("x", "")]
  {
    assert [upper, lower][1..] == [lower] && [lower][1..] == [];
    UnionOfFirst([upper, lower], ["d"]);
    UnionOfFirst([lower], ["d"]);
    ListingOfOne(File("x", ""));
    UniqueMeansOneListing(DIR_WITH_X.kids);
    assert Union([], ["d"]) == map[];
  }

  // A file "d" over a directory "d": the union shows the file, which lists nothing,
  // and yet a lookup finds "x" below it.
  lemma LookupPassesFile()
    ensures var layers := [TreeStore(Holding(FILE)), TreeStore(Holding(DIR_WITH_X))];
      && TreesEverywhere(layers)
      && Lookup(layers, ["d"]) == Some(FILE) && Lookup(layers, ["d", "x"]).Some?
  {
    var roots := [Holding(FILE), Holding(DIR_WITH_X)];
    var layers := [TreeStore(roots[0]), TreeStore(roots[1])];
    TreeStoresAreTrees(roots, layers);
    FindHeld(FILE);
    FindHeld(DIR_WITH_X);
    UnionWithX(layers[0], layers[1]);
    assert TreesAt(layers, ["d"], "x") && AllRegular(layers, ["d"]);
    UnionAgrees(layers, ["d"], "x");
    assert ["d"] + ["x"] == ["d", "x"];
  }

  // Two directories "d": the one that the union of the roots lists lacks the "y"
  // that a lookup of its path shows.
  lemma ListedDirIsNotTheUnion()
    ensures var layers := [TreeStore(Holding(DIR_WITH_X)), TreeStore(Holding(DIR_WITH_Y))];
      && TreesEverywhere(layers)
      && "d" in Union(layers, []) && !Same(Some(Union(layers, [])["d"]), Lookup(layers, ["d"]))
  {
    var roots := [Holding(DIR_WITH_X), Holding(DIR_WITH_Y)];
    var layers := [TreeStore(roots[0]), TreeStore(roots[1])];
    TreeStoresAreTrees(roots, layers);
    FindHeld(DIR_WITH_X);
    FindHeld(DIR_WITH_Y);
    assert TreesAt(layers, [], "d") && AllRegular(layers, []) && AllRegular(layers, ["d"]) && AllExact(layers, [], "d");
    assert [] + ["d"] == ["d"];
    UnionAgrees(layers, [], "d");
    var i := ListedIsTopmost(layers, [], "d");
    assert layers[0](["d"]) == Some(DIR_WITH_X);
    assert i == 0;
    UnionWithY(layers[0], layers[1]);
    ListingOfOne(File("x", ""));
    ListedChildIsSameIff(layers, [], "d");
  }

  lemma UnionWithY(upper: Store, lower: Store)
    requires upper(["d"]) == Some(DIR_WITH_X) && lower(["d"]) == Some(DIR_WITH_Y)
    ensures "y" in Union([upper, lower], ["d"])
  {
    assert [upper, lower][1..] == [lower] && [lower][1..] == [];
    UnionOfFirst([upper, lower], ["d"]);
    UnionOfFirst([lower], ["d"]);
    ListingOfOne(File("y", ""));
    UniqueMeansOneListing(DIR_WITH_Y.kids);
  }
}
