/**
 The metadata of one flist, meta/store.go and meta/dir.go: a read-only table of
 rows, a lookup that goes straight to the row of a path's hash and else asks the
 parent directory, and the caches in front of it.
 */
module Flists {
  import opened Prelude

  type Hash = Path -> string

  datatype Access = Access(mode: nat, uid: nat, gid: nat)

  // 0400
  const DEFAULT_ACCESS := Access(256, 1000, 1000)

  datatype Attributes = SubDir(key: string) | FileAttr(id: string) | LinkAttr(target: string) | Special

  datatype Inode = Inode(name: string, attributes: Attributes, aclKey: string)

  // contents is None when the record has none, or none that can be read.
  datatype Record = Record(name: string, contents: Option<seq<Inode>>, aclKey: string)

  // What the bytes of a row are when they are read as a directory and as an ACI.
  datatype Row = Row(dir: Option<Record>, aci: Option<Access>)

  type Table = map<string, Row>

  datatype AclFault = NoAci | BrokenAci

  datatype Node =
    | DirNode(record: Record, access: Access)
    | FileNode(inode: Inode, access: Access)
    | LinkNode(inode: Inode, access: Access)

  // A directory is named by its own record, not by the inode that leads to it.
  function NameOf(n: Node): string {
    if n.DirNode? then n.record.name else n.inode.name
  }

  function AccessOf(table: Table, key: string): Result<Access, AclFault> {
    if key !in table then Err(NoAci)
    else match table[key].aci
      case Some(access) => Ok(access)
      case None => Err(BrokenAci)
  }

  function AccessOrDefault(table: Table, key: string): Access {
    match AccessOf(table, key)
    case Ok(access) => access
    case Err(_) => DEFAULT_ACCESS
  }

  // A missing ACI leaves a directory with the default access, a broken one makes
  // the directory unreadable.
  function ReadDir(table: Table, key: string): Option<Node> {
    if key !in table || table[key].dir.None? then None
    else
      var record := table[key].dir.value;
      if AccessOf(table, record.aclKey) == Err(BrokenAci) then None
      else Some(DirNode(record, AccessOrDefault(table, record.aclKey)))
  }

  function ChildOf(table: Table, inode: Inode): Option<Node> {
    match inode.attributes
    case SubDir(key) => ReadDir(table, key)
    case FileAttr(_) => Some(FileNode(inode, AccessOrDefault(table, inode.aclKey)))
    case LinkAttr(_) => Some(LinkNode(inode, AccessOrDefault(table, inode.aclKey)))
    case Special => None
  }

  function ListOf<T>(o: Option<T>): seq<T> {
    if o.Some? then [o.value] else []
  }

  function NodesOf(table: Table, inodes: seq<Inode>): seq<Node> {
    if inodes == [] then [] else ListOf(ChildOf(table, inodes[0])) + NodesOf(table, inodes[1..])
  }

  function ChildrenOf(table: Table, n: Node): seq<Node> {
    if n.DirNode? && n.record.contents.Some? then NodesOf(table, n.record.contents.value) else []
  }

  function FirstNamed(nodes: seq<Node>, name: string): (r: Option<Node>)
    ensures r.Some? ==> r.value in nodes && NameOf(r.value) == name
    ensures r.None? ==> forall i :: 0 <= i < |nodes| ==> NameOf(nodes[i]) != name
  {
    if nodes == [] then None
    else if NameOf(nodes[0]) == name then Some(nodes[0])
    else FirstNamed(nodes[1..], name)
  }

  // A directory is readable unless its ACI is there and broken; its access is that of
  // the ACI, or else the default one.
  lemma DirIsReadableIff(table: Table, key: string)
    ensures ReadDir(table, key).Some? <==>
              && key in table && table[key].dir.Some?
              && (table[key].dir.value.aclKey in table ==> table[table[key].dir.value.aclKey].aci.Some?)
    ensures ReadDir(table, key).Some? ==>
              var record := table[key].dir.value;
              && ReadDir(table, key).value.DirNode? && ReadDir(table, key).value.record == record
              && ReadDir(table, key).value.access ==
                   if record.aclKey in table then table[record.aclKey].aci.value else Access(256, 1000, 1000)
  {}

  // A file or a link is listed whatever its ACI; without a good one it has the default
  // access. A directory is listed as its key's row, and nothing else is listed.
  lemma ChildIs(table: Table, inode: Inode)
    ensures inode.attributes.SubDir? ==> ChildOf(table, inode) == ReadDir(table, inode.attributes.key)
    ensures inode.attributes.Special? ==> ChildOf(table, inode) == None
    ensures inode.attributes.FileAttr? || inode.attributes.LinkAttr? ==>
              var access := if inode.aclKey in table && table[inode.aclKey].aci.Some?
                            then table[inode.aclKey].aci.value else Access(256, 1000, 1000);
              ChildOf(table, inode) ==
                Some(if inode.attributes.FileAttr? then FileNode(inode, access) else LinkNode(inode, access))
  {}

  // What there is from n on, in order; ks holds the positions.
  ghost predicate Picked<T>(all: seq<Option<T>>, n: nat, some: seq<T>, ks: seq<nat>) {
    && |ks| == |some|
    && (forall k :: 0 <= k < |ks| ==> n <= ks[k] < |all| && all[ks[k]] == Some(some[k]))
    && (forall j, k :: 0 <= j < k < |ks| ==> ks[j] < ks[k])
    && (forall i :: n <= i < |all| && all[i].Some? ==> i in ks)
  }

  lemma PickedBefore<T>(all: seq<Option<T>>, n: nat, some: seq<T>, ks: seq<nat>) returns (more: seq<nat>)
    requires n < |all| && Picked(all, n + 1, some, ks)
    ensures Picked(all, n, ListOf(all[n]) + some, more)
  {
    if all[n].None? {
      assert ListOf(all[n]) + some == some;
      return ks;
    }
    more := [n] + ks;
    assert forall i :: i in ks ==> i in more;
    assert n in more;
  }

  function ChildList(table: Table, inodes: seq<Inode>): seq<Option<Node>> {
    seq(|inodes|, i requires 0 <= i < |inodes| => ChildOf(table, inodes[i]))
  }

  // The nodes are the children of the inodes, in the inodes' order.
  lemma {:induction false} NodesAreInOrder(table: Table, inodes: seq<Inode>, n: nat) returns (ks: seq<nat>)
    requires n <= |inodes|
    ensures Picked(ChildList(table, inodes), n, NodesOf(table, inodes[n..]), ks)
    decreases |inodes| - n
  {
    if n == |inodes| {
      return [];
    }
    var after := NodesAreInOrder(table, inodes, n + 1);
    assert inodes[n..][1..] == inodes[n + 1..];
    ks := PickedBefore(ChildList(table, inodes), n, NodesOf(table, inodes[n + 1..]), after);
  }

  lemma {:induction false} FirstNamedIsFirst(nodes: seq<Node>, name: string)
    requires FirstNamed(nodes, name).Some?
    ensures exists i :: 0 <= i < |nodes| && nodes[i] == FirstNamed(nodes, name).value && NameOf(nodes[i]) == name
              && forall j :: 0 <= j < i ==> NameOf(nodes[j]) != name
  {
    if NameOf(nodes[0]) != name {
      var rest := nodes[1..];
      FirstNamedIsFirst(rest, name);
      var i :| 0 <= i < |rest| && rest[i] == FirstNamed(rest, name).value && NameOf(rest[i]) == name
        && forall j :: 0 <= j < i ==> NameOf(rest[j]) != name;
      assert nodes[i + 1] == rest[i];
      forall j | 0 <= j < i + 1 ensures NameOf(nodes[j]) != name {
        if j > 0 { assert nodes[j] == rest[j - 1]; }
      }
    }
  }

  // The lookup without its caches.
  function Lookup(table: Table, hash: Hash, p: Path): Option<Node> {
    match ReadDir(table, hash(p))
    case Some(dir) => Some(dir)
    case None =>
      if p == [] then None
      else match Lookup(table, hash, p[..|p| - 1])
        case None => None
        case Some(parent) => FirstNamed(ChildrenOf(table, parent), p[|p| - 1])
  }

  // What the code puts in its list of children: a sub-directory whose key leads to
  // no readable directory leaves a nil entry, here None.
  function Entries(table: Table, inodes: seq<Inode>): seq<Option<Node>> {
    if inodes == [] then []
    else (if inodes[0].attributes.Special? then [] else [ChildOf(table, inodes[0])]) + Entries(table, inodes[1..])
  }

  function EntriesOf(table: Table, n: Node): seq<Option<Node>> {
    if n.DirNode? && n.record.contents.Some? then Entries(table, n.record.contents.value) else []
  }

  function Present(entries: seq<Option<Node>>): seq<Node> {
    if entries == [] then [] else ListOf(entries[0]) + Present(entries[1..])
  }

  lemma {:induction false} EntriesAreNodes(table: Table, inodes: seq<Inode>)
    ensures Present(Entries(table, inodes)) == NodesOf(table, inodes)
  {
    if inodes != [] {
      EntriesAreNodes(table, inodes[1..]);
      if inodes[0].attributes.Special? {
        assert Entries(table, inodes) == Entries(table, inodes[1..]);
      } else {
        assert Entries(table, inodes)[1..] == Entries(table, inodes[1..]);
      }
    }
  }

  // Asking a nil entry for its name is a run-time panic: the scan for a name must
  // find it before it meets one.
  predicate ScanSafe(entries: seq<Option<Node>>, name: string) {
    entries == [] || (entries[0].Some? && (NameOf(entries[0].value) == name || ScanSafe(entries[1..], name)))
  }

  // The directories that the lookup falls back to can be scanned.
  predicate Safe(table: Table, hash: Hash, p: Path) {
    || ReadDir(table, hash(p)).Some?
    || p == []
    || (Safe(table, hash, p[..|p| - 1]) &&
        match Lookup(table, hash, p[..|p| - 1])
        case None => true
        case Some(parent) => ScanSafe(EntriesOf(table, parent), p[|p| - 1]))
  }

  // The key of a sub-directory leads to a readable directory.
  predicate Resolves(table: Table, inode: Inode) {
    inode.attributes.SubDir? ==> ReadDir(table, inode.attributes.key).Some?
  }

  predicate RecordResolves(table: Table, record: Record) {
    record.contents.Some? ==> forall i :: 0 <= i < |record.contents.value| ==> Resolves(table, record.contents.value[i])
  }

  predicate NodeResolves(table: Table, n: Node) {
    n.DirNode? ==> RecordResolves(table, n.record)
  }

  predicate Linked(table: Table) {
    forall key :: key in table && table[key].dir.Some? ==> RecordResolves(table, table[key].dir.value)
  }

  lemma NextEntry(table: Table, inodes: seq<Inode>, i: nat, before: seq<Option<Node>>)
    requires i < |inodes|
    ensures before + Entries(table, inodes[i..])
         == before + (if inodes[i].attributes.Special? then [] else [ChildOf(table, inodes[i])])
            + Entries(table, inodes[i + 1..])
  {
    assert inodes[i..][0] == inodes[i] && inodes[i..][1..] == inodes[i + 1..];
  }

  /******* The store *******/

  // An LRU cache, whatever it chooses to evict.
  class Lru<K(==), V> {
    var entries: map<K, V>

    constructor ()
      ensures entries == map[]
    {
      entries := map[];
    }

    method Add(k: K, v: V)
      modifies this
      ensures k in entries && entries[k] == v
      ensures forall q :: q in entries && q != k ==> q in old(entries) && entries[q] == old(entries)[q]
    {
      var keep: set<K> := *;
      entries := (map q | q in entries && q in keep :: entries[q])[k := v];
    }
  }

  class SqlStore {
    const table: Table
    const hash: Hash
    const dirs: Lru<Path, Node>
    const acl: Lru<string, Access>

    ghost predicate Valid()
      reads dirs, acl
    {
      && (forall p :: p in dirs.entries ==> ReadDir(table, hash(p)) == Some(dirs.entries[p]))
      && (forall key :: key in acl.entries ==> AccessOf(table, key) == Ok(acl.entries[key]))
    }

    constructor (table: Table, hash: Hash)
      ensures Valid() && this.table == table && this.hash == hash && fresh(dirs) && fresh(acl)
    {
      this.table, this.hash := table, hash;
      dirs := new Lru();
      acl := new Lru();
    }

    method GetAccess(key: string) returns (r: Result<Access, AclFault>)
      requires Valid()
      modifies acl
      ensures Valid() && r == AccessOf(table, key) && (r.Ok? ==> key in acl.entries)
    {
      if key in acl.entries {
        return Ok(acl.entries[key]);
      }
      if key !in table {
        return Err(NoAci);
      }
      match table[key].aci {
        case None => return Err(BrokenAci);
        case Some(access) =>
          acl.Add(key, access);
          return Ok(access);
      }
    }

    method GetDirWithHash(key: string) returns (r: Option<Node>)
      requires Valid()
      modifies acl
      ensures Valid() && r == ReadDir(table, key)
    {
      if key !in table || table[key].dir.None? {
        return None;
      }
      var record := table[key].dir.value;
      var access := GetAccess(record.aclKey);
      match access {
        case Ok(found) => return Some(DirNode(record, found));
        case Err(fault) => return if fault == NoAci then Some(DirNode(record, DEFAULT_ACCESS)) else None;
      }
    }

    method GetChild(inode: Inode) returns (m: Option<Node>)
      requires Valid()
      modifies acl
      ensures Valid() && m == ChildOf(table, inode)
    {
      match inode.attributes {
        case SubDir(key) =>
          m := GetDirWithHash(key);
        case FileAttr(_) =>
          var access := GetAccess(inode.aclKey);
          m := Some(FileNode(inode, if access.Ok? then access.value else DEFAULT_ACCESS));
        case LinkAttr(_) =>
          var access := GetAccess(inode.aclKey);
          m := Some(LinkNode(inode, if access.Ok? then access.value else DEFAULT_ACCESS));
        case Special =>
          m := None;
      }
    }

    method GetChildren(n: Node) returns (children: seq<Option<Node>>)
      requires Valid()
      modifies acl
      ensures Valid() && children == EntriesOf(table, n)
    {
      children := [];
      if !n.DirNode? || n.record.contents.None? {
        return;
      }
      var contents := n.record.contents.value;
      for i := 0 to |contents|
        invariant Valid()
        invariant Entries(table, contents) == children + Entries(table, contents[i..])
      {
        NextEntry(table, contents, i, children);
        var m := GetChild(contents[i]);
        if !contents[i].attributes.Special? {
          children := children + [m];
        }
      }
    }

    // The answer depends neither on what is cached nor on what was evicted.
    method Get(p: Path) returns (r: Option<Node>)
      requires Valid() && Safe(table, hash, p)
      modifies dirs, acl
      ensures Valid() && r == Lookup(table, hash, p)
      ensures ReadDir(table, hash(p)).Some? ==> p in dirs.entries
      decreases |p|
    {
      if p in dirs.entries {
        return Some(dirs.entries[p]);
      }
      var dir := GetDirWithHash(hash(p));
      if dir.Some? {
        dirs.Add(p, dir.value);
        return dir;
      }
      if p == [] {
        return None;
      }
      var parent := Get(p[..|p| - 1]);
      if parent.None? {
        return None;
      }
      var children := GetChildren(parent.value);
      r := Scan(children, p[|p| - 1]);
      ChildrenArePresent(table, parent.value);
    }

    // The first child of the name.
    method Scan(children: seq<Option<Node>>, name: string) returns (r: Option<Node>)
      requires ScanSafe(children, name)
      ensures r == FirstNamed(Present(children), name)
    {
      for i := 0 to |children|
        invariant ScanSafe(children[i..], name)
        invariant FirstNamed(Present(children), name) == FirstNamed(Present(children[i..]), name)
      {
        FirstPresent(children[i..], name);
        assert children[i..][0] == children[i] && children[i..][1..] == children[i + 1..];
        if NameOf(children[i].value) == name {
          return children[i];
        }
      }
      return None;
    }
  }

  lemma FirstPresent(entries: seq<Option<Node>>, name: string)
    requires entries != [] && entries[0].Some?
    ensures FirstNamed(Present(entries), name)
         == if NameOf(entries[0].value) == name then entries[0] else FirstNamed(Present(entries[1..]), name)
  {
    assert Present(entries)[1..] == Present(entries[1..]);
  }

  lemma ChildrenArePresent(table: Table, n: Node)
    ensures Present(EntriesOf(table, n)) == ChildrenOf(table, n)
  {
    if n.DirNode? && n.record.contents.Some? {
      EntriesAreNodes(table, n.record.contents.value);
    }
  }

  // A directory that remembers its children.
  class Dir {
    const node: Node
    const store: SqlStore
    var children: Option<seq<Option<Node>>>

    ghost predicate Valid()
      reads this, store.dirs, store.acl
    {
      store.Valid() && (children.Some? ==> children.value == EntriesOf(store.table, node))
    }

    constructor (node: Node, store: SqlStore)
      requires store.Valid()
      ensures Valid() && this.node == node && this.store == store
    {
      this.node, this.store, children := node, store, None;
    }

    method Children() returns (cs: seq<Option<Node>>)
      requires Valid()
      modifies this, store.acl
      ensures Valid() && children == Some(cs) && cs == EntriesOf(store.table, node)
    {
      if children.None? {
        var all := store.GetChildren(node);
        children := Some(all);
      }
      return children.value;
    }
  }

  lemma {:induction false} ChildrenResolve(table: Table, inodes: seq<Inode>)
    requires Linked(table)
    ensures forall n :: n in NodesOf(table, inodes) ==> NodeResolves(table, n)
  {
    if inodes != [] {
      ChildrenResolve(table, inodes[1..]);
    }
  }

  lemma {:induction false} LookupResolves(table: Table, hash: Hash, p: Path)
    requires Linked(table)
    ensures Lookup(table, hash, p).Some? ==> NodeResolves(table, Lookup(table, hash, p).value)
  {
    if ReadDir(table, hash(p)).None? && p != [] {
      LookupResolves(table, hash, p[..|p| - 1]);
      var parent := Lookup(table, hash, p[..|p| - 1]);
      if parent.Some? && parent.value.DirNode? && parent.value.record.contents.Some? {
        ChildrenResolve(table, parent.value.record.contents.value);
      }
    }
  }

  lemma {:induction false} ResolvedScans(table: Table, inodes: seq<Inode>, name: string)
    requires forall i :: 0 <= i < |inodes| ==> Resolves(table, inodes[i])
    ensures ScanSafe(Entries(table, inodes), name)
  {
    if inodes != [] {
      assert Resolves(table, inodes[0]);
      ResolvedScans(table, inodes[1..], name);
      if inodes[0].attributes.Special? {
        assert Entries(table, inodes) == Entries(table, inodes[1..]);
      } else {
        assert Entries(table, inodes)[1..] == Entries(table, inodes[1..]);
      }
    }
  }

  // If every sub-directory key resolves, no lookup meets a nil entry.
  lemma {:induction false} LinkedIsSafe(table: Table, hash: Hash, p: Path)
    requires Linked(table)
    ensures Safe(table, hash, p)
  {
    if p != [] {
      var above := p[..|p| - 1];
      LinkedIsSafe(table, hash, above);
      LookupResolves(table, hash, above);
      var parent := Lookup(table, hash, above);
      if parent.Some? && parent.value.DirNode? && parent.value.record.contents.Some? {
        ResolvedScans(table, parent.value.record.contents.value, p[|p| - 1]);
      }
    }
  }

  /******* Lookup and the tree *******/

  // Down from a node, one name at a time.
  function Down(table: Table, n: Node, p: Path): Option<Node>
    decreases |p|
  {
    if p == [] then Some(n)
    else match FirstNamed(ChildrenOf(table, n), p[0])
      case None => None
      case Some(child) => Down(table, child, p[1..])
  }

  function FromRoot(table: Table, hash: Hash, p: Path): Option<Node> {
    match ReadDir(table, hash([]))
    case None => None
    case Some(root) => Down(table, root, p)
  }

  lemma {:induction false} DownOneMore(table: Table, n: Node, p: Path, name: string)
    ensures Down(table, n, p + [name])
         == match Down(table, n, p)
            case None => None
            case Some(m) => FirstNamed(ChildrenOf(table, m), name)
    decreases |p|
  {
    if p == [] {
      assert [name][1..] == [];
    } else {
      assert (p + [name])[1..] == p[1..] + [name];
      var child := FirstNamed(ChildrenOf(table, n), p[0]);
      if child.Some? {
        DownOneMore(table, child.value, p[1..], name);
      }
    }
  }

  lemma FromRootOneMore(table: Table, hash: Hash, p: Path)
    requires p != []
    ensures FromRoot(table, hash, p)
         == match FromRoot(table, hash, p[..|p| - 1])
            case None => None
            case Some(m) => FirstNamed(ChildrenOf(table, m), p[|p| - 1])
  {
    assert p == p[..|p| - 1] + [p[|p| - 1]];
    if ReadDir(table, hash([])).Some? {
      DownOneMore(table, ReadDir(table, hash([])).value, p[..|p| - 1], p[|p| - 1]);
    }
  }

  // Where a row answers to a path's hash, the tree shows that row's directory.
  ghost predicate ConsistentAt(table: Table, hash: Hash, p: Path) {
    ReadDir(table, hash(p)).Some? ==> FromRoot(table, hash, p) == ReadDir(table, hash(p))
  }

  // No row is met on the way to p but where the tree has it.
  ghost predicate ConsistentTo(table: Table, hash: Hash, p: Path) {
    forall k :: 0 <= k <= |p| ==> ConsistentAt(table, hash, p[..k])
  }

  lemma {:induction false} LookupIsFromRoot(table: Table, hash: Hash, p: Path)
    requires ConsistentTo(table, hash, p)
    ensures Lookup(table, hash, p) == FromRoot(table, hash, p)
  {
    assert ConsistentAt(table, hash, p[..|p|]) && p[..|p|] == p;
    if p != [] {
      var above := p[..|p| - 1];
      forall k | 0 <= k <= |above| ensures ConsistentAt(table, hash, above[..k]) {
        assert above[..k] == p[..k];
      }
      LookupIsFromRoot(table, hash, above);
      FromRootOneMore(table, hash, p);
    }
  }

  // Going by hash first agrees with going down from the root, for every path, iff
  // every row that a path's hash finds is where the tree has it.
  lemma LookupIsTreeWalkIffConsistent(table: Table, hash: Hash)
    ensures (forall p :: Lookup(table, hash, p) == FromRoot(table, hash, p)) <==>
            (forall p :: ConsistentAt(table, hash, p))
  {
    if forall p :: ConsistentAt(table, hash, p) {
      forall p ensures Lookup(table, hash, p) == FromRoot(table, hash, p) {
        LookupIsFromRoot(table, hash, p);
      }
    }
    if forall p :: Lookup(table, hash, p) == FromRoot(table, hash, p) {
      forall p ensures ConsistentAt(table, hash, p) {
        assert Lookup(table, hash, p) == FromRoot(table, hash, p);
      }
    }
  }

  /******* Well-formed flists *******/

  ghost predicate UniqueNames(nodes: seq<Node>) {
    forall i, j :: 0 <= i < j < |nodes| ==> NameOf(nodes[i]) != NameOf(nodes[j])
  }

  ghost predicate HasSubDir(record: Record, key: string) {
    && record.contents.Some?
    && exists i :: 0 <= i < |record.contents.value| && record.contents.value[i].attributes == SubDir(key)
  }

  // A directory found under a path's hash carries the path's last name and is
  // listed, by that hash, in the directory found for the parent.
  ghost predicate HomeAt(table: Table, hash: Hash, p: Path) {
    p != [] && ReadDir(table, hash(p)).Some? ==>
      && ReadDir(table, hash(p)).value.record.name == p[|p| - 1]
      && ReadDir(table, hash(p[..|p| - 1])).Some?
      && HasSubDir(ReadDir(table, hash(p[..|p| - 1])).value.record, hash(p))
  }

  // The sub-directories of a directory are keyed by the hash of their path.
  ghost predicate KeysAt(table: Table, hash: Hash, p: Path) {
    var dir := ReadDir(table, hash(p));
    dir.Some? && dir.value.record.contents.Some? ==>
      forall i :: 0 <= i < |dir.value.record.contents.value| ==>
          KeyFits(table, hash, p, dir.value.record.contents.value[i])
  }

  ghost predicate KeyFits(table: Table, hash: Hash, p: Path, inode: Inode) {
    inode.attributes.SubDir? ==>
      && ReadDir(table, inode.attributes.key).Some?
      && inode.attributes.key == hash(p + [ReadDir(table, inode.attributes.key).value.record.name])
  }

  ghost predicate NamesAt(table: Table, hash: Hash, p: Path) {
    ReadDir(table, hash(p)).Some? ==> UniqueNames(ChildrenOf(table, ReadDir(table, hash(p)).value))
  }

  // The paths that matter: what is asked for, and what the directories list.
  ghost predicate AskedAt(table: Table, hash: Hash, asked: iset<Path>, p: Path) {
    && (p != [] ==> p[..|p| - 1] in asked)
    && (ReadDir(table, hash(p)).Some? ==> KidsAsked(asked, p, ChildrenOf(table, ReadDir(table, hash(p)).value)))
  }

  ghost predicate KidsAsked(asked: iset<Path>, p: Path, kids: seq<Node>) {
    forall i :: 0 <= i < |kids| ==> p + [NameOf(kids[i])] in asked
  }

  // A 16-byte hash cannot be expected to be injective on all paths, but on those.
  ghost predicate Injective(hash: Hash, asked: iset<Path>) {
    forall p, q :: p in asked && q in asked && hash(p) == hash(q) ==> p == q
  }

  ghost predicate GoodAt(table: Table, hash: Hash, asked: iset<Path>, p: Path) {
    HomeAt(table, hash, p) && KeysAt(table, hash, p) && NamesAt(table, hash, p) && AskedAt(table, hash, asked, p)
  }

  ghost predicate WellFormed(table: Table, hash: Hash, asked: iset<Path>) {
    && [] in asked && ReadDir(table, hash([])).Some?
    && forall p {:trigger GoodAt(table, hash, asked, p)} :: p in asked ==> GoodAt(table, hash, asked, p)
  }

  lemma {:induction false} FirstOfUnique(nodes: seq<Node>, n: Node)
    requires UniqueNames(nodes) && n in nodes
    ensures FirstNamed(nodes, NameOf(n)) == Some(n)
  {
    if nodes[0] != n {
      assert nodes[1..] == nodes[1..|nodes|];
      FirstOfUnique(nodes[1..], n);
      var j :| 0 <= j < |nodes| && nodes[j] == n;
    }
  }

  lemma {:induction false} ChildIsListed(table: Table, inodes: seq<Inode>, i: nat)
    requires i < |inodes| && ChildOf(table, inodes[i]).Some?
    ensures ChildOf(table, inodes[i]).value in NodesOf(table, inodes)
  {
    if i > 0 {
      ChildIsListed(table, inodes[1..], i - 1);
    }
  }

  lemma {:induction false} WellFormedIsConsistent(table: Table, hash: Hash, asked: iset<Path>, p: Path)
    requires WellFormed(table, hash, asked) && p in asked
    ensures ConsistentAt(table, hash, p)
  {
    if p != [] && ReadDir(table, hash(p)).Some? {
      var above := p[..|p| - 1];
      assert GoodAt(table, hash, asked, p) && GoodAt(table, hash, asked, above);
      WellFormedIsConsistent(table, hash, asked, above);
      FromRootOneMore(table, hash, p);
      var parent, dir := ReadDir(table, hash(above)).value, ReadDir(table, hash(p)).value;
      var inodes := parent.record.contents.value;
      var i :| 0 <= i < |inodes| && inodes[i].attributes == SubDir(hash(p));
      ChildIsListed(table, inodes, i);
      FirstOfUnique(ChildrenOf(table, parent), dir);
    }
  }

  lemma {:induction false} PrefixIsAsked(table: Table, hash: Hash, asked: iset<Path>, p: Path, k: nat)
    requires WellFormed(table, hash, asked) && p in asked && k <= |p|
    ensures p[..k] in asked
  {
    if k == |p| {
      assert p[..k] == p;
    } else {
      assert GoodAt(table, hash, asked, p);
      PrefixIsAsked(table, hash, asked, p[..|p| - 1], k);
      assert p[..|p| - 1][..k] == p[..k];
    }
  }

  // On a well-formed flist the lookup is the walk down the tree.
  lemma WellFormedLookup(table: Table, hash: Hash, asked: iset<Path>, p: Path)
    requires WellFormed(table, hash, asked) && p in asked
    ensures Lookup(table, hash, p) == FromRoot(table, hash, p)
  {
    forall k | 0 <= k <= |p| ensures ConsistentAt(table, hash, p[..k]) {
      PrefixIsAsked(table, hash, asked, p, k);
      WellFormedIsConsistent(table, hash, asked, p[..k]);
    }
    LookupIsFromRoot(table, hash, p);
  }

  // What it lists under a directory is what it finds one level down.
  lemma WellFormedListing(table: Table, hash: Hash, asked: iset<Path>, p: Path, name: string)
    requires WellFormed(table, hash, asked) && p + [name] in asked
    ensures p in asked
    ensures Lookup(table, hash, p + [name])
         == match Lookup(table, hash, p)
            case None => None
            case Some(n) => FirstNamed(ChildrenOf(table, n), name)
  {
    PrefixIsAsked(table, hash, asked, p + [name], |p|);
    assert (p + [name])[..|p|] == p;
    WellFormedLookup(table, hash, asked, p);
    WellFormedLookup(table, hash, asked, p + [name]);
    FromRootOneMore(table, hash, p + [name]);
  }
}
