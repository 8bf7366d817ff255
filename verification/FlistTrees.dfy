/**
 The finite tree that a well-formed flist describes: what it is as a layer of
 meta/layer.go, and what a walk over it finds.
 */
module FlistTrees {
  import opened Prelude
  import opened Flists
  import Layers
  import Walks

  lemma {:induction false} DirNodeOrigin(table: Table, inodes: seq<Inode>, n: Node) returns (i: nat)
    requires n in NodesOf(table, inodes) && n.DirNode?
    ensures i < |inodes| && inodes[i].attributes.SubDir? && ReadDir(table, inodes[i].attributes.key) == Some(n)
  {
    if ChildOf(table, inodes[0]) == Some(n) {
      return 0;
    }
    i := DirNodeOrigin(table, inodes[1..], n);
    i := i + 1;
  }

  lemma SubDirIsFoundByHash(table: Table, hash: Hash, asked: iset<Path>, p: Path, parent: Node, n: Node)
    requires WellFormed(table, hash, asked) && p in asked && ReadDir(table, hash(p)) == Some(parent)
    requires n in ChildrenOf(table, parent) && n.DirNode?
    ensures ReadDir(table, hash(p + [NameOf(n)])) == Some(n)
  {
    assert GoodAt(table, hash, asked, p);
    var i := DirNodeOrigin(table, parent.record.contents.value, n);
    assert KeyFits(table, hash, p, parent.record.contents.value[i]);
  }

  lemma OneDownIsFoundByHash(table: Table, hash: Hash, asked: iset<Path>, p: Path, parent: Node, n: Node)
    requires WellFormed(table, hash, asked) && p != [] && p[..|p| - 1] in asked
    requires ReadDir(table, hash(p[..|p| - 1])) == Some(parent)
    requires n in ChildrenOf(table, parent) && n.DirNode? && NameOf(n) == p[|p| - 1]
    ensures ReadDir(table, hash(p)) == Some(n)
  {
    var above := p[..|p| - 1];
    assert above + [NameOf(n)] == p;
    SubDirIsFoundByHash(table, hash, asked, above, parent, n);
  }

  // Every directory of the tree is the one that its path's hash finds.
  lemma {:induction false} DirIsFoundByHash(table: Table, hash: Hash, asked: iset<Path>, p: Path, n: Node)
    requires WellFormed(table, hash, asked) && p in asked && FromRoot(table, hash, p) == Some(n) && n.DirNode?
    ensures ReadDir(table, hash(p)) == Some(n)
  {
    if p != [] {
      var parent := ParentOf(table, hash, p, n);
      PrefixIsAsked(table, hash, asked, p, |p| - 1);
      DirIsFoundByHash(table, hash, asked, p[..|p| - 1], parent);
      OneDownIsFoundByHash(table, hash, asked, p, parent, n);
    }
  }

  lemma ParentOf(table: Table, hash: Hash, p: Path, n: Node) returns (parent: Node)
    requires p != [] && FromRoot(table, hash, p) == Some(n)
    ensures FromRoot(table, hash, p[..|p| - 1]) == Some(parent) && parent.DirNode?
    ensures n in ChildrenOf(table, parent) && NameOf(n) == p[|p| - 1]
  {
    FromRootOneMore(table, hash, p);
    parent := FromRoot(table, hash, p[..|p| - 1]).value;
  }

  lemma KidIsAsked(table: Table, hash: Hash, asked: iset<Path>, p: Path, parent: Node, n: Node)
    requires WellFormed(table, hash, asked) && p in asked && ReadDir(table, hash(p)) == Some(parent)
    requires n in ChildrenOf(table, parent)
    ensures p + [NameOf(n)] in asked
  {
    assert GoodAt(table, hash, asked, p);
    var i :| 0 <= i < |ChildrenOf(table, parent)| && ChildrenOf(table, parent)[i] == n;
  }

  lemma LastKidIsAsked(table: Table, hash: Hash, asked: iset<Path>, p: Path, parent: Node, n: Node)
    requires WellFormed(table, hash, asked) && p != [] && p[..|p| - 1] in asked
    requires ReadDir(table, hash(p[..|p| - 1])) == Some(parent)
    requires n in ChildrenOf(table, parent) && NameOf(n) == p[|p| - 1]
    ensures p in asked
  {
    var above := p[..|p| - 1];
    assert above + [NameOf(n)] == p;
    KidIsAsked(table, hash, asked, above, parent, n);
  }

  lemma {:induction false} ReachedIsAsked(table: Table, hash: Hash, asked: iset<Path>, p: Path, n: Node)
    requires WellFormed(table, hash, asked) && FromRoot(table, hash, p) == Some(n)
    ensures p in asked
  {
    if p != [] {
      var parent := ParentOf(table, hash, p, n);
      ReachedIsAsked(table, hash, asked, p[..|p| - 1], parent);
      DirIsFoundByHash(table, hash, asked, p[..|p| - 1], parent);
      LastKidIsAsked(table, hash, asked, p, parent, n);
    }
  }

  // The keys under which the directories from the root down to p are stored.
  ghost function KeysTo(hash: Hash, p: Path): set<string> {
    if p == [] then {hash(p)} else KeysTo(hash, p[..|p| - 1]) + {hash(p)}
  }

  lemma {:induction false} KeysToAre(hash: Hash, p: Path, key: string)
    requires key in KeysTo(hash, p)
    ensures exists k :: 0 <= k <= |p| && key == hash(p[..k])
  {
    if key == hash(p) {
      assert p[..|p|] == p;
    } else {
      var above := p[..|p| - 1];
      KeysToAre(hash, above, key);
      var k :| 0 <= k <= |above| && key == hash(above[..k]);
      assert above[..k] == p[..k];
    }
  }

  lemma HasHome(table: Table, hash: Hash, asked: iset<Path>, p: Path)
    requires WellFormed(table, hash, asked) && p in asked && p != [] && ReadDir(table, hash(p)).Some?
    ensures p[..|p| - 1] in asked && ReadDir(table, hash(p[..|p| - 1])).Some?
  {
    assert GoodAt(table, hash, asked, p);
  }

  lemma KeyIsNew(table: Table, hash: Hash, asked: iset<Path>, p: Path)
    requires WellFormed(table, hash, asked) && Injective(hash, asked) && p in asked && p != []
    ensures hash(p) !in KeysTo(hash, p[..|p| - 1])
  {
    var above := p[..|p| - 1];
    if hash(p) in KeysTo(hash, above) {
      KeysToAre(hash, above, hash(p));
      var k :| 0 <= k <= |above| && hash(p) == hash(above[..k]);
      assert above[..k] == p[..k];
      PrefixIsAsked(table, hash, asked, p, k);
    }
  }

  lemma {:induction false} KeysToCount(table: Table, hash: Hash, asked: iset<Path>, p: Path)
    requires WellFormed(table, hash, asked) && p in asked && Injective(hash, asked) && ReadDir(table, hash(p)).Some?
    ensures |KeysTo(hash, p)| == |p| + 1 && KeysTo(hash, p) <= table.Keys
  {
    if p != [] {
      var above := p[..|p| - 1];
      HasHome(table, hash, asked, p);
      KeysToCount(table, hash, asked, above);
      KeyIsNew(table, hash, asked, p);
    }
  }

  // No directory lies deeper than the table is large: the tree is finite.
  lemma DepthBound(table: Table, hash: Hash, asked: iset<Path>, p: Path)
    requires WellFormed(table, hash, asked) && p in asked && Injective(hash, asked) && ReadDir(table, hash(p)).Some?
    ensures |p| < |table|
  {
    KeysToCount(table, hash, asked, p);
    var keys := KeysTo(hash, p);
    assert table.Keys == keys + (table.Keys - keys);
  }

  // The node belongs at p: a directory is the one that the path's hash finds.
  ghost predicate Sits(table: Table, hash: Hash, asked: iset<Path>, p: Path, n: Node) {
    p in asked && (n.DirNode? ==> ReadDir(table, hash(p)) == Some(n))
  }

  lemma FoundSits(table: Table, hash: Hash, asked: iset<Path>, p: Path, n: Node)
    requires WellFormed(table, hash, asked) && p in asked && Lookup(table, hash, p) == Some(n)
    ensures Sits(table, hash, asked, p, n) && FromRoot(table, hash, p) == Some(n)
  {
    WellFormedLookup(table, hash, asked, p);
    if n.DirNode? {
      DirIsFoundByHash(table, hash, asked, p, n);
    }
  }

  lemma KidSits(table: Table, hash: Hash, asked: iset<Path>, p: Path, n: Node, i: nat)
    requires WellFormed(table, hash, asked) && Sits(table, hash, asked, p, n) && i < |ChildrenOf(table, n)|
    ensures n.DirNode? && UniqueNames(ChildrenOf(table, n))
    ensures Sits(table, hash, asked, p + [NameOf(ChildrenOf(table, n)[i])], ChildrenOf(table, n)[i])
  {
    var child := ChildrenOf(table, n)[i];
    assert GoodAt(table, hash, asked, p);
    KidIsAsked(table, hash, asked, p, n, child);
    if child.DirNode? {
      SubDirIsFoundByHash(table, hash, asked, p, n, child);
    }
  }

  function IdOf(n: Node): string {
    match n
    case FileNode(inode, _) => if inode.attributes.FileAttr? then inode.attributes.id else ""
    case _ => ""
  }

  // m is what the node shows to the layers above it, all the way down.
  ghost predicate MetaOf(table: Table, n: Node, m: Layers.Meta)
    decreases m
  {
    match m
    case File(name, id) => !n.DirNode? && name == NameOf(n) && id == IdOf(n)
    case Dir(name, kids) =>
      && n.DirNode? && name == NameOf(n)
      && |kids| == |ChildrenOf(table, n)|
      && forall i :: 0 <= i < |kids| ==> MetaOf(table, ChildrenOf(table, n)[i], kids[i])
    case Merged(_, _) => false
  }

  ghost predicate FirstShown(table: Table, children: seq<Node>, kids: seq<Layers.Meta>) {
    |kids| <= |children| && forall j :: 0 <= j < |kids| ==> MetaOf(table, children[j], kids[j])
  }

  lemma ShownDir(table: Table, n: Node, kids: seq<Layers.Meta>)
    requires n.DirNode? && |kids| == |ChildrenOf(table, n)| && FirstShown(table, ChildrenOf(table, n), kids)
    ensures MetaOf(table, n, Layers.Dir(NameOf(n), kids))
  {}

  // Asking for children all the way down ends.
  lemma {:induction false} Unfolds(table: Table, hash: Hash, asked: iset<Path>, p: Path, n: Node)
    returns (m: Layers.Meta)
    requires WellFormed(table, hash, asked) && Injective(hash, asked) && Sits(table, hash, asked, p, n)
    ensures MetaOf(table, n, m)
    decreases |table| - |p|
  {
    if !n.DirNode? {
      return Layers.File(NameOf(n), IdOf(n));
    }
    DepthBound(table, hash, asked, p);
    var children := ChildrenOf(table, n);
    var kids: seq<Layers.Meta> := [];
    for i := 0 to |children|
      invariant |kids| == i && FirstShown(table, children, kids)
    {
      KidSits(table, hash, asked, p, n, i);
      var kid := Unfolds(table, hash, asked, p + [NameOf(children[i])], children[i]);
      kids := kids + [kid];
    }
    ShownDir(table, n, kids);
    return Layers.Dir(NameOf(n), kids);
  }

  lemma IsShown(table: Table, hash: Hash, asked: iset<Path>, p: Path, n: Node)
    requires WellFormed(table, hash, asked) && Injective(hash, asked) && Sits(table, hash, asked, p, n)
    ensures exists m :: MetaOf(table, n, m)
  {
    var _ := Unfolds(table, hash, asked, p, n);
  }

  lemma {:induction false} MetaIsUnique(table: Table, n: Node, a: Layers.Meta, b: Layers.Meta)
    requires MetaOf(table, n, a) && MetaOf(table, n, b)
    ensures a == b
    decreases a
  {
    if a.Dir? {
      forall i | 0 <= i < |a.kids| ensures a.kids[i] == b.kids[i] {
        MetaIsUnique(table, ChildrenOf(table, n)[i], a.kids[i], b.kids[i]);
      }
      assert a.kids == b.kids;
    }
  }

  /******* An flist as a layer *******/

  // A path that is never asked for shows nothing.
  ghost function LayerAt(table: Table, hash: Hash, asked: iset<Path>, p: Path): Option<Layers.Meta>
    requires WellFormed(table, hash, asked) && Injective(hash, asked)
  {
    if p !in asked then None
    else match Lookup(table, hash, p)
      case None => None
      case Some(n) =>
        FoundSits(table, hash, asked, p, n);
        IsShown(table, hash, asked, p, n);
        var m :| MetaOf(table, n, m);
        Some(m)
  }

  ghost function AsLayer(table: Table, hash: Hash, asked: iset<Path>): Layers.Store
    requires WellFormed(table, hash, asked) && Injective(hash, asked)
  {
    (p: Path) => LayerAt(table, hash, asked, p)
  }

  lemma KidNames(table: Table, n: Node, m: Layers.Meta)
    requires MetaOf(table, n, m) && m.Dir?
    ensures forall i :: 0 <= i < |m.kids| ==> Layers.Name(m.kids[i]) == NameOf(ChildrenOf(table, n)[i])
  {
    forall i | 0 <= i < |m.kids| ensures Layers.Name(m.kids[i]) == NameOf(ChildrenOf(table, n)[i]) {
      assert MetaOf(table, ChildrenOf(table, n)[i], m.kids[i]);
    }
  }

  lemma LayerIsRegular(table: Table, hash: Hash, asked: iset<Path>, p: Path)
    requires WellFormed(table, hash, asked) && Injective(hash, asked)
    ensures Layers.Regular(AsLayer(table, hash, asked), p)
  {
    if p in asked && Lookup(table, hash, p).Some? && Lookup(table, hash, p).value.DirNode? {
      var n := Lookup(table, hash, p).value;
      FoundSits(table, hash, asked, p, n);
      assert GoodAt(table, hash, asked, p);
      var m := LayerAt(table, hash, asked, p).value;
      KidNames(table, n, m);
      Layers.UniqueMeansOneListing(m.kids);
    }
  }

  // The entry that a directory lists under a child's name is that child.
  lemma ListedChild(table: Table, n: Node, m: Layers.Meta, i: nat)
    requires MetaOf(table, n, m) && m.Dir? && i < |m.kids| && UniqueNames(ChildrenOf(table, n))
    ensures var name := NameOf(ChildrenOf(table, n)[i]);
            name in Layers.LastWins(m.kids) && Layers.LastWins(m.kids)[name] == m.kids[i]
  {
    KidNames(table, n, m);
    Layers.ListedAt(m.kids, i);
  }

  // Of the children of a directory that is asked for, all are asked for.
  lemma FoundChildIsAsked(table: Table, hash: Hash, asked: iset<Path>, p: Path, n: Node, name: string)
    requires WellFormed(table, hash, asked) && Sits(table, hash, asked, p, n) && n.DirNode?
    requires p + [name] !in asked
    ensures FirstNamed(ChildrenOf(table, n), name) == None
  {
    assert GoodAt(table, hash, asked, p);
    var child := FirstNamed(ChildrenOf(table, n), name);
    if child.Some? {
      KidIsAsked(table, hash, asked, p, n, child.value);
    }
  }

  // A well-formed flist is a layer in which listing and lookup agree, as the
  // union of layers requires of each, at every path.
  lemma LayerIsTree(table: Table, hash: Hash, asked: iset<Path>, p: Path, name: string)
    requires WellFormed(table, hash, asked) && Injective(hash, asked)
    ensures var s := AsLayer(table, hash, asked); Layers.TreeAt(s, p, name) && Layers.ExactAt(s, p, name)
  {
    var s, q := AsLayer(table, hash, asked), p + [name];
    assert s(p) == LayerAt(table, hash, asked, p) && s(q) == LayerAt(table, hash, asked, q);
    if q in asked {
      WellFormedListing(table, hash, asked, p, name);
    }
    if p in asked && Lookup(table, hash, p).Some? && Lookup(table, hash, p).value.DirNode? {
      var n := Lookup(table, hash, p).value;
      FoundSits(table, hash, asked, p, n);
      assert GoodAt(table, hash, asked, p);
      if q !in asked {
        FoundChildIsAsked(table, hash, asked, p, n, name);
      }
      ChildIsShown(table, n, s(p).value, name, s(q));
    }
  }

  lemma ChildIsShown(table: Table, n: Node, m: Layers.Meta, name: string, below: Option<Layers.Meta>)
    requires n.DirNode? && MetaOf(table, n, m) && UniqueNames(ChildrenOf(table, n))
    requires match FirstNamed(ChildrenOf(table, n), name)
             case None => below == None
             case Some(child) => below.Some? && MetaOf(table, child, below.value)
    ensures below.Some? <==> name in Layers.LastWins(m.kids)
    ensures below.Some? ==> below.value == Layers.LastWins(m.kids)[name]
  {
    KidNames(table, n, m);
    Layers.ListedNames(m.kids, name);
    var child := FirstNamed(ChildrenOf(table, n), name);
    if child.Some? {
      var i :| 0 <= i < |m.kids| && ChildrenOf(table, n)[i] == child.value;
      ListedChild(table, n, m, i);
      MetaIsUnique(table, child.value, below.value, m.kids[i]);
    }
  }

  /******* A stack of flists *******/

  datatype Flist = Flist(table: Table, hash: Hash, asked: iset<Path>)

  ghost predicate AllWellFormed(flists: seq<Flist>) {
    forall i :: 0 <= i < |flists| ==>
      WellFormed(flists[i].table, flists[i].hash, flists[i].asked) && Injective(flists[i].hash, flists[i].asked)
  }

  // The topmost comes first.
  ghost function Stack(flists: seq<Flist>): seq<Layers.Store>
    requires AllWellFormed(flists)
  {
    seq(|flists|, i requires 0 <= i < |flists| => AsLayer(flists[i].table, flists[i].hash, flists[i].asked))
  }

  lemma StackIsTrees(flists: seq<Flist>)
    requires AllWellFormed(flists)
    ensures Layers.TreesEverywhere(Stack(flists))
  {
    var layers := Stack(flists);
    forall i, p, name | 0 <= i < |layers|
      ensures Layers.TreeAt(layers[i], p, name) && Layers.ExactAt(layers[i], p, name)
    {
      LayerIsTree(flists[i].table, flists[i].hash, flists[i].asked, p, name);
    }
    forall i, p | 0 <= i < |layers| ensures Layers.Regular(layers[i], p) {
      LayerIsRegular(flists[i].table, flists[i].hash, flists[i].asked, p);
    }
  }

  // What a mount lists is what it finds: where any stack of well-formed flists shows
  // a directory, its listing has exactly the names that a lookup below it finds,
  // with the attributes that the topmost flist with the path has for it.
  lemma MountListsWhatItFinds(flists: seq<Flist>, p: Path, name: string)
    requires AllWellFormed(flists)
    requires var shown := Layers.Lookup(Stack(flists), p); shown.Some? && Layers.IsDir(shown.value)
    ensures var layers, q := Stack(flists), p + [name];
      var listing := Layers.TopMap(Layers.Lookup(layers, p).value);
      && (name in listing <==> Layers.Lookup(layers, q).Some?)
      && (name in listing ==>
            exists i: nat :: Layers.Topmost(layers, q, i)
              && Layers.Base(listing[name]) == Layers.Base(layers[i](q).value)
              && Layers.Base(listing[name]) == Layers.Base(Layers.Lookup(layers, q).value))
  {
    StackIsTrees(flists);
    var layers := Stack(flists);
    assert Layers.AllRegular(layers, p) && Layers.TreesAt(layers, p, name);
    Layers.ListingAgreesWithLookup(layers, p, name);
  }

  /******* A walk of an flist *******/

  // t is the tree below n, node by node.
  ghost predicate Shows(table: Table, n: Node, t: Walks.Tree)
    decreases t
  {
    match t
    case Leaf(name) => !n.DirNode? && name == NameOf(n)
    case Dir(name, kids) =>
      && n.DirNode? && name == NameOf(n)
      && |kids| == |ChildrenOf(table, n)|
      && forall i :: 0 <= i < |kids| ==> Shows(table, ChildrenOf(table, n)[i], kids[i])
  }

  // Stores that can be walked have no merged directories.
  function TreeOf(m: Layers.Meta): Walks.Tree {
    match m
    case File(name, _) => Walks.Leaf(name)
    case Dir(name, kids) => Walks.Dir(name, seq(|kids|, i requires 0 <= i < |kids| => TreeOf(kids[i])))
    case Merged(top, _) => TreeOf(top)
  }

  lemma {:induction false} ShownAsTree(table: Table, n: Node, m: Layers.Meta)
    requires MetaOf(table, n, m)
    ensures Shows(table, n, TreeOf(m))
    decreases m
  {
    if m.Dir? {
      forall i | 0 <= i < |m.kids| ensures Shows(table, ChildrenOf(table, n)[i], TreeOf(m).kids[i]) {
        ShownAsTree(table, ChildrenOf(table, n)[i], m.kids[i]);
      }
    }
  }

  // The directory of every path has a finite tree to walk.
  lemma HasTree(table: Table, hash: Hash, asked: iset<Path>, p: Path, n: Node) returns (t: Walks.Tree)
    requires WellFormed(table, hash, asked) && p in asked && Injective(hash, asked) && Lookup(table, hash, p) == Some(n)
    ensures Shows(table, n, t)
  {
    FoundSits(table, hash, asked, p, n);
    var m := Unfolds(table, hash, asked, p, n);
    ShownAsTree(table, n, m);
    t := TreeOf(m);
  }

  lemma {:induction false} UniqueTrees(kids: seq<Walks.Tree>)
    requires forall i :: 0 <= i < |kids| ==> Walks.UniqueNames(kids[i])
    requires forall i, j :: 0 <= i < j < |kids| ==> kids[i].name != kids[j].name
    ensures Walks.UniqueKids(kids)
  {
    if kids != [] {
      UniqueTrees(kids[1..]);
    }
  }

  lemma {:induction false} ShownNamesAreUnique(table: Table, hash: Hash, asked: iset<Path>, p: Path, n: Node,
          t: Walks.Tree)
    requires WellFormed(table, hash, asked) && Sits(table, hash, asked, p, n) && Shows(table, n, t)
    ensures Walks.UniqueNames(t)
    decreases t
  {
    if t.Dir? && t.kids != [] {
      var children := ChildrenOf(table, n);
      forall i | 0 <= i < |t.kids| ensures Walks.UniqueNames(t.kids[i]) && t.kids[i].name == NameOf(children[i]) {
        KidSits(table, hash, asked, p, n, i);
        ShownNamesAreUnique(table, hash, asked, p + [NameOf(children[i])], children[i], t.kids[i]);
      }
      KidSits(table, hash, asked, p, n, 0);
      UniqueTrees(t.kids);
    }
  }

  lemma KidIsBelow(table: Table, n: Node, t: Walks.Tree, q: Path, i: nat)
    requires Shows(table, n, t) && t.Dir? && q != [] && i < |t.kids| && UniqueNames(ChildrenOf(table, n))
    requires NameOf(ChildrenOf(table, n)[i]) == q[0]
    ensures Walks.Holds(t, q) <==> Walks.Holds(t.kids[i], q[1..])
    ensures Down(table, n, q) == Down(table, ChildrenOf(table, n)[i], q[1..])
  {
    ShownNames(table, n, t);
    FirstOfUnique(ChildrenOf(table, n), ChildrenOf(table, n)[i]);
  }

  lemma {:induction false} ShownIsBelow(table: Table, hash: Hash, asked: iset<Path>, p: Path, n: Node,
          t: Walks.Tree, q: Path)
    requires WellFormed(table, hash, asked) && Sits(table, hash, asked, p, n) && Shows(table, n, t)
    ensures Walks.Holds(t, q) <==> Down(table, n, q).Some?
    decreases |q|
  {
    if q != [] && t.Dir? {
      var children := ChildrenOf(table, n);
      var child := FirstNamed(children, q[0]);
      ShownNames(table, n, t);
      if child.Some? {
        var i :| 0 <= i < |children| && children[i] == child.value;
        KidSits(table, hash, asked, p, n, i);
        KidIsBelow(table, n, t, q, i);
        ShownIsBelow(table, hash, asked, p + [q[0]], child.value, t.kids[i], q[1..]);
      }
    }
  }

  lemma ShownNames(table: Table, n: Node, t: Walks.Tree)
    requires Shows(table, n, t) && t.Dir?
    ensures forall j :: 0 <= j < |t.kids| ==> t.kids[j].name == NameOf(ChildrenOf(table, n)[j])
  {
    forall j | 0 <= j < |t.kids| ensures t.kids[j].name == NameOf(ChildrenOf(table, n)[j]) {
      assert Shows(table, ChildrenOf(table, n)[j], t.kids[j]);
    }
  }

  lemma {:induction false} DownInTwo(table: Table, n: Node, p: Path, q: Path)
    ensures Down(table, n, p + q)
         == match Down(table, n, p)
            case None => None
            case Some(m) => Down(table, m, q)
    decreases |p|
  {
    if p == [] {
      assert p + q == q;
    } else {
      assert (p + q)[1..] == p[1..] + q;
      var child := FirstNamed(ChildrenOf(table, n), p[0]);
      if child.Some? {
        DownInTwo(table, child.value, p[1..], q);
      }
    }
  }

  ghost predicate Called(log: seq<Walks.Visit>, q: Path) {
    exists i :: 0 <= i < |log| && log[i].path == q
  }

  // A walk from a directory that skips nothing and meets no failure calls its
  // function exactly for the paths at or below it that a lookup finds, once each.
  // All of them are among those that matter.
  lemma WalkCallsWhatLookupFinds(table: Table, hash: Hash, asked: iset<Path>, p: Path, n: Node,
          t: Walks.Tree, fn: Walks.WalkFn)
    requires WellFormed(table, hash, asked) && p in asked && Lookup(table, hash, p) == Some(n)
    requires n.DirNode? && Shows(table, n, t)
    requires forall i :: 0 <= i < |Walks.WalkDir(fn, p, t, []).log| ==>
        Walks.WalkDir(fn, p, t, []).log[i].verdict == Walks.Continue
    ensures var log := Walks.WalkDir(fn, p, t, []).log;
      && (forall i, j :: 0 <= i < j < |log| ==> log[i].path != log[j].path)
      && (forall q :: Called(log, q) <==> p <= q && q in asked && Lookup(table, hash, q).Some?)
  {
    var log, es := Walks.WalkDir(fn, p, t, []).log, Walks.PreOrder(p, t);
    FoundSits(table, hash, asked, p, n);
    ShownNamesAreUnique(table, hash, asked, p, n, t);
    Walks.WalkVisitsOnce(fn, p, t);
    assert SamePaths(log, es);
    forall q ensures Called(log, q) <==> p <= q && q in asked && Lookup(table, hash, q).Some? {
      CalledIffVisited(log, es, q);
      VisitedIffFound(table, hash, asked, p, n, t, q);
    }
  }

  ghost predicate SamePaths(log: seq<Walks.Visit>, es: seq<Walks.Entry>) {
    |log| == |es| && forall i :: 0 <= i < |es| ==> log[i].path == es[i].path
  }

  lemma CalledIffVisited(log: seq<Walks.Visit>, es: seq<Walks.Entry>, q: Path)
    requires SamePaths(log, es)
    ensures Called(log, q) <==> Walks.Visits(es, q)
  {
    if Walks.Visits(es, q) {
      var k :| 0 <= k < |es| && es[k].path == q;
      assert log[k].path == q;
    }
  }

  lemma FoundIffReached(table: Table, hash: Hash, asked: iset<Path>, q: Path)
    requires WellFormed(table, hash, asked)
    ensures q in asked && Lookup(table, hash, q).Some? <==> FromRoot(table, hash, q).Some?
  {
    if q in asked {
      WellFormedLookup(table, hash, asked, q);
    } else if FromRoot(table, hash, q).Some? {
      ReachedIsAsked(table, hash, asked, q, FromRoot(table, hash, q).value);
    }
  }

  lemma ReachedIffDown(table: Table, hash: Hash, p: Path, n: Node, q: Path)
    requires FromRoot(table, hash, p) == Some(n)
    ensures FromRoot(table, hash, p + q) == Down(table, n, q)
  {
    DownInTwo(table, ReadDir(table, hash([])).value, p, q);
  }

  lemma VisitedIffFound(table: Table, hash: Hash, asked: iset<Path>, p: Path, n: Node, t: Walks.Tree, q: Path)
    requires WellFormed(table, hash, asked) && Sits(table, hash, asked, p, n) && Shows(table, n, t)
    requires FromRoot(table, hash, p) == Some(n)
    ensures Walks.Visits(Walks.PreOrder(p, t), q) <==> p <= q && q in asked && Lookup(table, hash, q).Some?
  {
    VisitedIsBelow(p, t, q);
    if p <= q {
      var rest := q[|p|..];
      assert p + rest == q;
      FoundIffReached(table, hash, asked, q);
      ReachedIffDown(table, hash, p, n, rest);
      ShownIsBelow(table, hash, asked, p, n, t, rest);
      Walks.FlatIsTheTree(p, t, 0, Walks.Size(t), rest);
    }
  }

  lemma VisitedIsBelow(p: Path, t: Walks.Tree, q: Path)
    ensures Walks.Visits(Walks.PreOrder(p, t), q) ==> p <= q
  {
    Walks.FlatWithin(p, t, 0, Walks.Size(t));
  }

  /******* A well-formed flist *******/

  // "d" below the root, and "f" in it. The hash is injective on these paths only.
  const ROOT := Record("", Some([Inode("d", SubDir("k"), "")]), "")
  const SUB := Record("d", Some([Inode("f", FileAttr("1"), "")]), "")
  const SMALL: Table := map["r" := Row(Some(ROOT), None), "k" := Row(Some(SUB), None)]

  function SmallHash(p: Path): string {
    if p == [] then "r" else if p == ["d"] then "k" else "none"
  }

  lemma NodesOfOne(table: Table, inode: Inode)
    ensures NodesOf(table, [inode]) == ListOf(ChildOf(table, inode))
  {
    assert [inode][1..] == [];
  }

  lemma SmallChildren()
    ensures ReadDir(SMALL, "r") == Some(DirNode(ROOT, DEFAULT_ACCESS))
    ensures ReadDir(SMALL, "k") == Some(DirNode(SUB, DEFAULT_ACCESS))
    ensures ChildrenOf(SMALL, DirNode(ROOT, DEFAULT_ACCESS)) == [DirNode(SUB, DEFAULT_ACCESS)]
    ensures ChildrenOf(SMALL, DirNode(SUB, DEFAULT_ACCESS)) == [FileNode(SUB.contents.value[0], DEFAULT_ACCESS)]
  {
    assert "" !in SMALL;
    NodesOfOne(SMALL, ROOT.contents.value[0]);
    NodesOfOne(SMALL, SUB.contents.value[0]);
  }

  const ASKED: iset<Path> := iset{[], ["d"], ["d", "f"]}

  lemma SmallIsGood()
    ensures GoodAt(SMALL, SmallHash, ASKED, [])
    ensures GoodAt(SMALL, SmallHash, ASKED, ["d"])
    ensures GoodAt(SMALL, SmallHash, ASKED, ["d", "f"])
  {
    SmallChildren();
    assert [] + ["d"] == ["d"] && ["d"] + ["f"] == ["d", "f"];
    assert ["d"][..0] == [] && ["d", "f"][..1] == ["d"];
    assert ROOT.contents.value[0].attributes == SubDir("k");
  }

  lemma SmallIsWellFormed()
    ensures WellFormed(SMALL, SmallHash, ASKED) && Injective(SmallHash, ASKED)
    ensures Lookup(SMALL, SmallHash, ["d", "f"]) == Some(FileNode(SUB.contents.value[0], DEFAULT_ACCESS))
  {
    SmallIsGood();
    SmallChildren();
    assert ["d", "f"][..1] == ["d"];
    var sub := DirNode(SUB, DEFAULT_ACCESS);
    assert Lookup(SMALL, SmallHash, ["d"]) == Some(sub);
    assert "none" !in SMALL && SmallHash(["d", "f"]) == "none";
    assert FirstNamed(ChildrenOf(SMALL, sub), "f") == Some(FileNode(SUB.contents.value[0], DEFAULT_ACCESS));
  }
}
