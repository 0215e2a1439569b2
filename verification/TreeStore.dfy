/**
 * The tree of directories and files whose nodes may expire. The heap beside it
 * always holds exactly the attached nodes that expire, so deleting expired keys
 * removes exactly the expired nodes and what lies under them.
 */
module TreeStore {
  import opened TtlHeap

  /** A path as the sequence of its components; the root is the empty one. */
  type Path = seq<string>

  const PERMANENT := 0

  /** Expiration times before this one stand for none. */
  const MIN_EXPIRE_TIME := 946684800

  datatype Node = Node(path: Path, dir: bool, value: string, expire: nat, created: nat, modified: nat)

  /** Every node made so far, and where the attached ones hang. */
  type Nodes = map<NodeId, Node>
  type Tree = map<Path, NodeId>

  datatype Error = NoError | KeyNotFound | NotDir | NotFile | NodeExist | DirNotEmpty | RootReadOnly | TestFailed

  function Dirname(p: Path): Path { if p == [] then [] else p[..|p|-1] }

  function TimesOf(nodes: Nodes): Times { map id | id in nodes :: nodes[id].expire }

  ghost predicate NodeOk(tree: Tree, nodes: Nodes, p: Path)
    requires p in tree
  {
    && tree[p] in nodes && nodes[tree[p]].path == p
    && (p != [] ==> Dirname(p) in tree && tree[Dirname(p)] in nodes && nodes[tree[Dirname(p)]].dir)
  }

  /** Attached nodes know their path and hang under directories; the root is a permanent directory. */
  ghost predicate TreeOk(tree: Tree, nodes: Nodes) {
    && [] in tree && tree[[]] in nodes && nodes[tree[[]]].dir && nodes[tree[[]]].expire == PERMANENT
    && forall p | p in tree :: NodeOk(tree, nodes, p)
  }

  predicate Expires(tree: Tree, nodes: Nodes, p: Path) {
    p in tree && tree[p] in nodes && nodes[tree[p]].expire != PERMANENT
  }

  /** The attached nodes that expire. */
  ghost function Expiring(tree: Tree, nodes: Nodes): set<NodeId> {
    set p | p in tree && Expires(tree, nodes, p) :: tree[p]
  }

  /** The directories nobody may change are there to stay: the root and some just below it. */
  ghost predicate RootsOk(tree: Tree, nodes: Nodes, roots: set<Path>) {
    && [] in roots
    && forall p | p in roots ::
         |p| <= 1 && p in tree && tree[p] in nodes && nodes[tree[p]].dir && nodes[tree[p]].expire == PERMANENT
  }

  /** A file stands where the path needs a directory. */
  ghost predicate FileAbove(tree: Tree, nodes: Nodes, p: Path) {
    exists i | 0 <= i < |p| :: IsFile(tree, nodes, p[..i])
  }

  predicate IsFile(tree: Tree, nodes: Nodes, p: Path) { p in tree && tree[p] in nodes && !nodes[tree[p]].dir }

  predicate IsDirectory(tree: Tree, nodes: Nodes, p: Path) { p in tree && tree[p] in nodes && nodes[tree[p]].dir }

  ghost function Below(tree: Tree, p: Path): set<Path> { set q | q in tree && p <= q }

  function ChildPaths(tree: Tree, p: Path): set<Path> { set q | q in tree && |q| == |p| + 1 && p <= q }

  function Detached(tree: Tree, p: Path): Tree { map q | q in tree && !(p <= q) :: tree[q] }

  // ----- Facts about trees -----

  lemma {:induction false} PrefixInTree(tree: Tree, nodes: Nodes, p: Path, i: nat)
    requires TreeOk(tree, nodes) && p in tree && i <= |p|
    ensures p[..i] in tree && (i < |p| ==> nodes[tree[p[..i]]].dir)
    decreases |p|
  {
    assert NodeOk(tree, nodes, p);
    if i < |p| {
      var d := Dirname(p);
      PrefixInTree(tree, nodes, d, i);
      assert d[..i] == p[..i];
      if i == |d| { assert p[..i] == d; }
    } else {
      assert p[..i] == p;
    }
  }

  /** A node strictly below p hangs under a child of p. */
  lemma ChildAbove(tree: Tree, nodes: Nodes, p: Path, q: Path)
    requires TreeOk(tree, nodes) && p in tree && q in tree && p < q
    ensures q[..|p|+1] in ChildPaths(tree, p) && q[..|p|+1] <= q && nodes[tree[p]].dir
  {
    PrefixInTree(tree, nodes, q, |p| + 1);
    PrefixInTree(tree, nodes, q, |p|);
    assert q[..|p|] == p;
  }

  lemma DetachedOk(tree: Tree, nodes: Nodes, p: Path)
    requires TreeOk(tree, nodes) && p != []
    ensures TreeOk(Detached(tree, p), nodes)
  {
    var t := Detached(tree, p);
    forall q | q in t ensures NodeOk(t, nodes, q) {
      assert NodeOk(tree, nodes, q);
      assert p <= Dirname(q) ==> p <= q;
    }
  }

  lemma DetachedExpiring(tree: Tree, nodes: Nodes, p: Path)
    requires TreeOk(tree, nodes) && p in tree && Below(tree, p) == {p}
    ensures Expiring(Detached(tree, p), nodes) == Expiring(tree, nodes) - {tree[p]}
  {
    var t := Detached(tree, p);
    forall id ensures id in Expiring(t, nodes) <==> id in Expiring(tree, nodes) && id != tree[p] {
      if id in Expiring(t, nodes) {
        var q :| q in t && Expires(t, nodes, q) && t[q] == id;
        assert Expires(tree, nodes, q) && NodeOk(tree, nodes, q) && NodeOk(tree, nodes, p);
      }
      if id in Expiring(tree, nodes) && id != tree[p] {
        var q :| q in tree && Expires(tree, nodes, q) && tree[q] == id;
        assert q !in Below(tree, p);
        assert Expires(t, nodes, q);
      }
    }
  }

  lemma AttachOk(tree: Tree, nodes: Nodes, p: Path, id: NodeId, n: Node)
    requires TreeOk(tree, nodes) && p !in tree && id !in nodes && n.path == p && p != []
    requires Dirname(p) in tree && nodes[tree[Dirname(p)]].dir
    ensures TreeOk(tree[p := id], nodes[id := n])
    ensures Expiring(tree[p := id], nodes[id := n]) == Expiring(tree, nodes) + if n.expire != PERMANENT then {id} else {}
  {
    var t, ns := tree[p := id], nodes[id := n];
    forall q | q in t ensures NodeOk(t, ns, q) {
      if q != p { assert NodeOk(tree, nodes, q); } else { assert NodeOk(tree, nodes, Dirname(p)); }
    }
    forall x ensures x in Expiring(t, ns) <==> x in Expiring(tree, nodes) || (x == id && n.expire != PERMANENT) {
      if x in Expiring(tree, nodes) {
        var q :| q in tree && Expires(tree, nodes, q) && tree[q] == x;
        assert Expires(t, ns, q);
      }
      if x == id && n.expire != PERMANENT { assert Expires(t, ns, p); }
      if x in Expiring(t, ns) && x != id {
        var q :| q in t && Expires(t, ns, q) && t[q] == x;
        assert Expires(tree, nodes, q);
      }
    }
  }

  /** Changing fields other than path and kind of an attached node. */
  lemma ChangeOk(tree: Tree, nodes: Nodes, p: Path, n: Node)
    requires TreeOk(tree, nodes) && p in tree && n.path == p && n.dir == nodes[tree[p]].dir
    requires p == [] ==> n.expire == PERMANENT
    ensures TreeOk(tree, nodes[tree[p] := n])
    ensures Expiring(tree, nodes[tree[p] := n]) ==
            if n.expire != PERMANENT then Expiring(tree, nodes) + {tree[p]} else Expiring(tree, nodes) - {tree[p]}
  {
    var ns := nodes[tree[p] := n];
    forall q | q in tree ensures NodeOk(tree, ns, q) {
      assert NodeOk(tree, nodes, q);
      assert NodeOk(tree, nodes, p);
    }
    forall x ensures x in Expiring(tree, ns) <==>
                     if x == tree[p] then n.expire != PERMANENT else x in Expiring(tree, nodes) {
      if x == tree[p] && n.expire != PERMANENT { assert Expires(tree, ns, p); }
      if x in Expiring(tree, ns) {
        var q :| q in tree && Expires(tree, ns, q) && tree[q] == x;
        if x != tree[p] { assert Expires(tree, nodes, q); }
      }
      if x in Expiring(tree, nodes) && x != tree[p] {
        var q :| q in tree && Expires(tree, nodes, q) && tree[q] == x;
        assert Expires(tree, ns, q);
      }
    }
  }

  lemma HoldsNothing(heap: Heap, t: Times)
    requires heap.arr == [] && heap.keyMap == map[]
    ensures heap.Holds(t, {})
  {
  }

  /** The heap does not notice times of nodes it does not hold. */
  lemma HoldsStill(heap: Heap, t: Times, u: Times, s: set<NodeId>)
    requires heap.Holds(t, s) && forall y | y in s :: TimeOf(u, y) == TimeOf(t, y)
    ensures heap.Holds(u, s)
  {
    SameTimes(heap.arr, heap.keyMap, t, u);
  }

  class Store {
    var nodes: Nodes
    var tree: Tree
    var heap: Heap
    var nextId: NodeId
    var currentIndex: nat
    /** The root and the namespaces, which nobody may change. */
    var readonly: set<Path>

    /** The heap holds exactly the attached nodes that expire. */
    ghost predicate Valid()
      reads this, heap
    {
      ValidBut({})
    }

    /** As Valid, for all nodes but some that have been popped already. */
    ghost predicate ValidBut(popped: set<NodeId>)
      reads this, heap
    {
      && TreeOk(tree, nodes) && RootsOk(tree, nodes, readonly) && (forall id | id in nodes :: id < nextId)
      && heap.Holds(TimesOf(nodes), Expiring(tree, nodes) - popped)
    }

    /** A store that holds its namespaces. */
    constructor (namespaces: seq<string>)
      ensures Valid() && currentIndex == 0 && fresh(heap)
      ensures tree.Keys == readonly == {[]} + (set k | 0 <= k < |namespaces| :: [namespaces[k]])
    {
      readonly := {[]};
      nodes := map[0 := Node([], true, "", PERMANENT, 0, 0)];
      tree := map[[] := 0];
      nextId, currentIndex := 1, 0;
      heap := new Heap();
      new;
      hide TreeOk, RootsOk, Expiring, TimesOf, Heap.Holds;
      OnlyRoot(tree, nodes);
      HoldsNothing(heap, TimesOf(nodes));
      assert Expiring(tree, nodes) - {} == {};
      AddNamespaces(namespaces);
    }

    method AddNamespaces(namespaces: seq<string>)
      requires Valid() && tree.Keys == readonly == {[]}
      modifies this`nodes, this`tree, this`nextId, this`readonly, heap
      ensures Valid() && tree.Keys == readonly == {[]} + (set k | 0 <= k < |namespaces| :: [namespaces[k]])
    {
      hide TreeOk, NodeOk, TimesOf, Expiring, RootsOk, Heap.Holds;
      var i := 0;
      while i < |namespaces|
        invariant 0 <= i <= |namespaces| && Valid()
        invariant tree.Keys == readonly == {[]} + (set k | 0 <= k < i :: [namespaces[k]])
      {
        var p := [namespaces[i]];
        RootDir(tree, nodes);
        if p !in tree {
          Add(p, true, "", PERMANENT, currentIndex);
          RootsMore(tree, nodes, readonly, p);
          readonly := readonly + {p};
        }
        i := i + 1;
      }
    }

    /** Detaches a node that has nothing below it and forgets its expiration. */
    method Detach(p: Path, ghost popped: set<NodeId>)
      requires ValidBut(popped) && p in tree && p !in readonly && Below(tree, p) == {p}
      modifies this`tree, heap
      ensures ValidBut(popped) && tree == Detached(old(tree), p)
    {
      RootsDetached(tree, nodes, readonly, p);
      DetachedOk(tree, nodes, p);
      DetachedExpiring(tree, nodes, p);
      assert NodeOk(tree, nodes, p);
      var id := tree[p];
      ghost var s := Expiring(tree, nodes);
      tree := Detached(tree, p);
      assert (s - popped) - {id} == (s - {id}) - popped;
      if nodes[id].expire != PERMANENT {
        heap.Remove(id, TimesOf(nodes), TimesOf(nodes), s - popped);
      } else {
        NotExpiring(old(tree), nodes, p);
        assert s - {id} == s;
      }
    }

    /** Removes a node and, if it is a directory, first everything under it. */
    method RemoveAll(p: Path, ghost popped: set<NodeId>)
      requires ValidBut(popped) && p in tree && p !in readonly
      modifies this`tree, heap
      ensures ValidBut(popped) && tree == Detached(old(tree), p)
      decreases Below(tree, p)
    {
      assert NodeOk(tree, nodes, p);
      if nodes[tree[p]].dir {
        RemoveChildren(p, popped);
      } else {
        FileAlone(tree, nodes, p);
      }
      ghost var t := tree;
      Detach(p, popped);
      if t != old(tree) { DetachLast(old(tree), t, p); }
    }

    method RemoveChildren(p: Path, ghost popped: set<NodeId>)
      requires ValidBut(popped) && p in tree && p !in readonly
      modifies this`tree, heap
      ensures ValidBut(popped) && Below(tree, p) == {p} && Shrunk(old(tree), tree, p)
      decreases Below(tree, p), 0
    {
      hide TreeOk, RootsOk, Expiring, TimesOf, Below, Shrunk, Detached, ChildPaths;
      var todo := ChildPaths(tree, p);
      ShrunkNot(tree, p);
      while todo != {}
        invariant ValidBut(popped) && p in tree && todo == ChildPaths(tree, p) && Shrunk(old(tree), tree, p)
        decreases todo
      {
        var q :| q in todo;
        ChildBelow(old(tree), tree, p, q);
        ChildNotRoot(tree, nodes, readonly, p, q);
        ghost var t := tree;
        RemoveAll(q, popped);
        ChildDetached(old(tree), t, p, q);
        todo := todo - {q};
      }
      Childless(tree, nodes, p);
    }

    /** Changes the expiration of an attached node. Its time changes before the heap is told. */
    method UpdateTTL(p: Path, expire: nat)
      requires Valid() && p in tree && p !in readonly
      modifies this`nodes, heap
      ensures Valid() && nodes == old(nodes)[tree[p] := old(nodes)[tree[p]].(expire := expire)]
    {
      hide TreeOk, RootsOk, TimesOf, Expiring;
      var id := tree[p];
      TreeNode(tree, nodes, p);
      TimesElsewhere(nodes, id, nodes[id].(expire := expire));
      ghost var t, s := TimesOf(nodes), Expiring(tree, nodes);
      var n := nodes[id];
      RootsChange(tree, nodes, readonly, p, n.(expire := expire));
      ChangeOk(tree, nodes, p, n.(expire := expire));
      ExpiringIs(tree, nodes, p);
      if n.expire != PERMANENT {
        nodes := nodes[id := n.(expire := expire)];
        if expire == PERMANENT {
          heap.Remove(id, t, TimesOf(nodes), s);
        } else {
          assert s + {id} == s;
          heap.Update(id, t, TimesOf(nodes), s);
        }
      } else if expire != PERMANENT {
        nodes := nodes[id := n.(expire := expire)];
        HoldsStill(heap, t, TimesOf(nodes), s);
        heap.Push(id, TimesOf(nodes), s);
      } else {
        assert nodes[id := n.(expire := expire)] == nodes;
      }
    }

    /** Attaches a new node under an existing directory. */
    method Add(p: Path, dir: bool, value: string, expire: nat, index: nat)
      requires Valid() && p !in tree && p != [] && Dirname(p) in tree && nodes[tree[Dirname(p)]].dir
      modifies this`nodes, this`tree, this`nextId, heap
      ensures Valid() && old(nextId) !in old(nodes) && tree == old(tree)[p := old(nextId)]
      ensures nodes == old(nodes)[old(nextId) := Node(p, dir, value, expire, index, index)]
    {
      hide TreeOk, RootsOk, NodeOk, TimesOf, Expiring;
      var id, n := nextId, Node(p, dir, value, expire, index, index);
      RootsAttached(tree, nodes, readonly, p, id, n);
      AttachOk(tree, nodes, p, id, n);
      ghost var t, s := TimesOf(nodes), Expiring(tree, nodes);
      NotYetExpiring(tree, nodes, id);
      TimesElsewhere(nodes, id, n);
      nodes := nodes[id := n];
      tree := tree[p := id];
      nextId := nextId + 1;
      HoldsStill(heap, t, TimesOf(nodes), s);
      if expire != PERMANENT {
        heap.Push(id, TimesOf(nodes), s);
      } else {
        assert s + {} == s;
      }
    }

    /** Walks to a directory, creating the ones that are missing, without expiration. */
    method CheckDirs(d: Path) returns (err: Error)
      requires Valid()
      modifies this`nodes, this`tree, this`nextId, heap
      ensures Valid()
      ensures err == if FileAbove(old(tree), old(nodes), d) || IsFile(old(tree), old(nodes), d) then NotDir else NoError
      ensures err != NoError ==> tree == old(tree) && nodes == old(nodes)
      ensures err == NoError ==> IsDirectory(tree, nodes, d) && Grown(old(tree), old(nodes), tree, nodes, d, currentIndex + 1)
      ensures d in old(tree) ==> tree == old(tree) && nodes == old(nodes)
    {
      hide TreeOk, NodeOk, RootsOk, TimesOf, Expiring, FileAbove, Grown, Kept, Heap.Holds;
      var i := 0;
      GrownNot(tree, nodes, d, currentIndex + 1);
      assert d[..0] == [];
      RootDir(tree, nodes);
      while i < |d|
        invariant 0 <= i <= |d| && Valid() && IsDirectory(tree, nodes, d[..i])
        invariant Grown(old(tree), old(nodes), tree, nodes, d[..i], currentIndex + 1)
        invariant d[..i] in old(tree) ==> tree == old(tree) && nodes == old(nodes)
        invariant d[..i] !in old(tree) ==> !FileAbove(old(tree), old(nodes), d) && !IsFile(old(tree), old(nodes), d)
      {
        var q := d[..i+1];
        assert Dirname(q) == d[..i];
        if q in tree {
          GrownThere(old(tree), old(nodes), tree, nodes, d, i, currentIndex + 1);
          TreeNode(tree, nodes, q);
          if !nodes[tree[q]].dir {
            FileOnPath(tree, nodes, d, i + 1);
            return NotDir;
          }
        } else {
          if d[..i] in old(tree) { MissingBelow(tree, nodes, d, i); }
          GrownMore(old(tree), old(nodes), tree, nodes, d, i, currentIndex + 1, nextId);
          Add(q, true, "", PERMANENT, currentIndex + 1);
        }
        i := i + 1;
      }
      assert d[..|d|] == d;
      if d in old(tree) { WalkArrives(tree, nodes, d); }
      return NoError;
    }

    /** Walks down to a node. */
    method Lookup(p: Path) returns (err: Error)
      requires Valid()
      ensures err == LookupOutcome(tree, nodes, p) && (err == NoError <==> p in tree)
    {
      hide RootsOk, TimesOf, Expiring, FileAbove, Heap.Holds;
      var i := 0;
      assert p[..0] == [];
      while i < |p|
        invariant 0 <= i <= |p| && p[..i] in tree
      {
        TreeNode(tree, nodes, p[..i]);
        if !nodes[tree[p[..i]]].dir {
          FileOnPath(tree, nodes, p, i);
          FileEnds(tree, nodes, p, i);
          return NotDir;
        }
        if p[..i+1] !in tree {
          WalkStops(tree, nodes, p, i);
          return KeyNotFound;
        }
        i := i + 1;
      }
      assert p[..|p|] == p;
      WalkArrives(tree, nodes, p);
      return NoError;
    }

    /** Creates a node at a path, replacing a file there if asked to. */
    method InternalCreate(p: Path, dir: bool, value: string, replace: bool, expireTime: nat) returns (err: Error)
      requires Valid()
      modifies this`nodes, this`tree, this`nextId, this`currentIndex, heap
      ensures Valid() && err == CreateOutcome(old(tree), old(nodes), readonly, p, replace)
      ensures err != NoError ==> tree == old(tree) && nodes == old(nodes) && currentIndex == old(currentIndex)
      ensures err == NoError ==>
                && currentIndex == old(currentIndex) + 1
                && Created(old(tree), old(nodes), tree, nodes,
                           Node(p, dir, if dir then "" else value, if expireTime < 946684800 then PERMANENT else expireTime,
                                currentIndex, currentIndex))
    {
      hide TreeOk, NodeOk, RootsOk, TimesOf, Expiring, FileAbove, Grown, Created, Heap.Holds;
      if p in readonly { return RootReadOnly; }
      RootIn(tree, nodes, readonly);
      DirnameFile(tree, nodes, p);
      err := CheckDirs(Dirname(p));
      if err != NoError { return; }
      if p in old(tree) { DirnameIn(old(tree), old(nodes), p); }
      ghost var t, ns := tree, nodes;
      var expire := if expireTime < MIN_EXPIRE_TIME then PERMANENT else expireTime;
      err := CreateIn(p, dir, value, replace, expire, currentIndex + 1);
      GrownElsewhere(old(tree), old(nodes), t, ns, p, currentIndex + 1);
      if err != NoError { return; }
      CreatedAfter(old(tree), old(nodes), t, ns, tree, nodes, Dirname(p),
                   Node(p, dir, if dir then "" else value, expire, currentIndex + 1, currentIndex + 1));
      currentIndex := currentIndex + 1;
    }

    /** Creates a node in a directory that exists. */
    method CreateIn(p: Path, dir: bool, value: string, replace: bool, expire: nat, next: nat) returns (err: Error)
      requires Valid() && p !in readonly && p != [] && IsDirectory(tree, nodes, Dirname(p))
      modifies this`nodes, this`tree, this`nextId, heap
      ensures Valid()
      ensures err == if p in old(tree) && !replace then NodeExist
                     else if IsDirectory(old(tree), old(nodes), p) then NotFile else NoError
      ensures err != NoError ==> tree == old(tree) && nodes == old(nodes)
      ensures err == NoError ==> Created(old(tree), old(nodes), tree, nodes,
                                         Node(p, dir, if dir then "" else value, expire, next, next))
    {
      hide TreeOk, NodeOk, RootsOk, TimesOf, Expiring, Created, Heap.Holds;
      if p in tree {
        TreeNode(tree, nodes, p);
        if !replace { return NodeExist; }
        if nodes[tree[p]].dir { return NotFile; }
        FileAlone(tree, nodes, p);
        DetachedAlone(tree, p);
        RemoveAll(p, {});
      }
      ghost var t := tree;
      Add(p, dir, if dir then "" else value, expire, next);
      CreatedIn(old(tree), old(nodes), t, p, tree[p], nodes[tree[p]]);
      return NoError;
    }

    method Create(p: Path, dir: bool, value: string, expireTime: nat) returns (err: Error)
      requires Valid()
      modifies this`nodes, this`tree, this`nextId, this`currentIndex, heap
      ensures Valid() && err == CreateOutcome(old(tree), old(nodes), readonly, p, false)
      ensures err != NoError ==> tree == old(tree) && nodes == old(nodes) && currentIndex == old(currentIndex)
      ensures err == NoError ==>
                && currentIndex == old(currentIndex) + 1 && p !in old(tree)
                && Created(old(tree), old(nodes), tree, nodes,
                           Node(p, dir, if dir then "" else value, if expireTime < 946684800 then PERMANENT else expireTime,
                                currentIndex, currentIndex))
    {
      hide TreeOk, RootsOk, FileAbove, Created;
      err := InternalCreate(p, dir, value, false, expireTime);
    }

    method Set(p: Path, dir: bool, value: string, expireTime: nat, refresh: bool) returns (err: Error)
      requires Valid()
      modifies this`nodes, this`tree, this`nextId, this`currentIndex, heap
      ensures Valid() && err == SetOutcome(old(tree), old(nodes), readonly, p, refresh)
      ensures err != NoError ==> tree == old(tree) && nodes == old(nodes) && currentIndex == old(currentIndex)
      ensures err == NoError ==>
                && currentIndex == old(currentIndex) + 1 && (refresh ==> IsFile(old(tree), old(nodes), p))
                && Created(old(tree), old(nodes), tree, nodes,
                           Node(p, dir, if dir then "" else if refresh then old(nodes)[old(tree)[p]].value else value,
                                if expireTime < 946684800 then PERMANENT else expireTime, currentIndex, currentIndex))
    {
      hide TreeOk, NodeOk, RootsOk, FileAbove, Created;
      err := Lookup(p);
      if err != NoError && err != KeyNotFound { return; }
      var v := value;
      if refresh {
        if err != NoError { return; }
        TreeNode(tree, nodes, p);
        v := nodes[tree[p]].value;
      }
      err := InternalCreate(p, dir, v, true, expireTime);
    }

    /** Writes the value of a file. */
    method Write(p: Path, value: string, index: nat)
      requires Valid() && p in tree
      modifies this`nodes
      ensures Valid()
      ensures tree[p] in old(nodes)
      ensures var n := old(nodes)[tree[p]]; nodes == old(nodes)[tree[p] := if n.dir then n else n.(value := value, modified := index)]
    {
      hide RootsOk, Heap.Holds;
      TreeNode(tree, nodes, p);
      var id := tree[p];
      var n := nodes[id];
      assert nodes[id := n] == nodes;
      if n.dir { return; }
      NotRoot(tree, nodes, readonly, p);
      ghost var t, s := TimesOf(nodes), Expiring(tree, nodes);
      RootsChange(tree, nodes, readonly, p, n.(value := value, modified := index));
      ChangeOk(tree, nodes, p, n.(value := value, modified := index));
      ExpiringIs(tree, nodes, p);
      nodes := nodes[id := n.(value := value, modified := index)];
      assert Expiring(tree, nodes) == s;
      assert TimesOf(nodes) == t;
    }

    /** Changes value and expiration of a file, or only the expiration of a directory. */
    method Update(p: Path, newValue: string, expireTime: nat, refresh: bool) returns (err: Error)
      requires Valid()
      modifies this`nodes, this`currentIndex, heap
      ensures Valid() && err == UpdateOutcome(old(tree), old(nodes), readonly, p, newValue)
      ensures err != NoError ==> nodes == old(nodes) && currentIndex == old(currentIndex)
      ensures err == NoError ==>
                && p in tree && tree[p] in old(nodes) && currentIndex == old(currentIndex) + 1
                && var n := old(nodes)[tree[p]];
                   nodes == old(nodes)[tree[p] :=
                     if n.dir then n.(expire := expireTime)
                     else n.(value := if refresh then n.value else newValue, modified := currentIndex, expire := expireTime)]
    {
      hide TreeOk, NodeOk, RootsOk, FileAbove, TimesOf, Expiring, Heap.Holds;
      if p in readonly { return RootReadOnly; }
      err := Lookup(p);
      if err != NoError { return; }
      TreeNode(tree, nodes, p);
      var n := nodes[tree[p]];
      if n.dir && newValue != "" { return NotFile; }
      Write(p, if refresh then n.value else newValue, currentIndex + 1);
      UpdateTTL(p, expireTime);
      currentIndex := currentIndex + 1;
    }

    method CompareAndSwap(p: Path, prevValue: string, prevIndex: nat, value: string, expireTime: nat, refresh: bool)
      returns (err: Error)
      requires Valid()
      modifies this`nodes, this`currentIndex, heap
      ensures Valid()
      ensures err == if p in readonly then RootReadOnly else CompareOutcome(old(tree), old(nodes), p, prevValue, prevIndex)
      ensures IsFile(old(tree), old(nodes), p) && p !in readonly ==>
                (err == NoError <==>
                 var n := old(nodes)[old(tree)[p]];
                 (prevIndex == 0 || n.modified == prevIndex) && (prevValue == "" || n.value == prevValue))
      ensures err != NoError ==> nodes == old(nodes) && currentIndex == old(currentIndex)
      ensures err == NoError ==>
                && IsFile(old(tree), old(nodes), p) && currentIndex == old(currentIndex) + 1
                && var n := old(nodes)[tree[p]];
                   nodes == old(nodes)[tree[p] :=
                     n.(value := if refresh then n.value else value, modified := currentIndex, expire := expireTime)]
    {
      hide TreeOk, NodeOk, RootsOk, FileAbove, TimesOf, Expiring, Heap.Holds;
      if p in readonly { return RootReadOnly; }
      err := Lookup(p);
      if err != NoError { return; }
      TreeNode(tree, nodes, p);
      var n := nodes[tree[p]];
      if n.dir { return NotFile; }
      if !Compare(n, prevValue, prevIndex) { return TestFailed; }
      currentIndex := currentIndex + 1;
      Write(p, if refresh then n.value else value, currentIndex);
      UpdateTTL(p, expireTime);
    }

    method Delete(p: Path, dirFlag: bool, recursive: bool) returns (err: Error)
      requires Valid()
      modifies this`tree, this`currentIndex, heap
      ensures Valid() && err == DeleteOutcome(old(tree), old(nodes), readonly, p, dirFlag, recursive)
      ensures err != NoError ==> tree == old(tree) && currentIndex == old(currentIndex)
      ensures err == NoError ==> p in old(tree) && currentIndex == old(currentIndex) + 1
      ensures err == NoError ==> tree == map q | q in old(tree) && !(p <= q) :: old(tree)[q]
    {
      hide TreeOk, NodeOk, RootsOk, FileAbove, TimesOf, Expiring, Heap.Holds;
      if p in readonly { return RootReadOnly; }
      err := Lookup(p);
      if err != NoError { return; }
      TreeNode(tree, nodes, p);
      if nodes[tree[p]].dir {
        if !(dirFlag || recursive) { return NotFile; }
        ChildlessExactly(tree, nodes, p);
        if ChildPaths(tree, p) != {} && !recursive { return DirNotEmpty; }
      } else {
        FileAlone(tree, nodes, p);
      }
      RemoveAll(p, {});
      currentIndex := currentIndex + 1;
    }

    /** Deletes a file if it compares. No test of the read-only set is needed: it holds directories only. */
    method CompareAndDelete(p: Path, prevValue: string, prevIndex: nat) returns (err: Error)
      requires Valid()
      modifies this`tree, this`currentIndex, heap
      ensures Valid() && err == CompareOutcome(old(tree), old(nodes), p, prevValue, prevIndex)
      ensures IsFile(old(tree), old(nodes), p) ==>
                (err == NoError <==>
                 var n := old(nodes)[old(tree)[p]];
                 (prevIndex == 0 || n.modified == prevIndex) && (prevValue == "" || n.value == prevValue))
      ensures err != NoError ==> tree == old(tree) && currentIndex == old(currentIndex)
      ensures err == NoError ==>
                && p in old(tree) && p !in readonly && currentIndex == old(currentIndex) + 1
                && tree == map q | q in old(tree) && q != p :: old(tree)[q]
    {
      hide TreeOk, NodeOk, RootsOk, FileAbove, TimesOf, Expiring, Heap.Holds;
      err := Lookup(p);
      if err != NoError { return; }
      TreeNode(tree, nodes, p);
      var n := nodes[tree[p]];
      if n.dir { return NotFile; }
      if !Compare(n, prevValue, prevIndex) { return TestFailed; }
      NotRoot(tree, nodes, readonly, p);
      FileAlone(tree, nodes, p);
      currentIndex := currentIndex + 1;
      RemoveAll(p, {});
      assert forall q | q in old(tree) && p <= q :: q in Below(old(tree), p);
    }

    /** Deletes exactly the nodes that have expired at cutoff or lie under one that has. */
    method DeleteExpiredKeys(cutoff: nat)
      requires Valid()
      modifies this`tree, this`currentIndex, heap
      ensures Valid() && currentIndex >= old(currentIndex)
      ensures forall p | p in tree :: p in old(tree) && tree[p] == old(tree)[p]
      ensures forall p | p in old(tree) :: p !in tree <==> UnderExpired(old(tree), nodes, p, cutoff)
    {
      hide TreeOk, RootsOk, Expiring, TimesOf;
      CleanedNot(tree, nodes, cutoff);
      while true
        invariant Valid() && currentIndex >= old(currentIndex) && Cleaned(old(tree), tree, nodes, cutoff)
        decreases tree.Keys
      {
        if |heap.arr| == 0 { break; }
        var id := heap.Top();
        TopExpires(heap, tree, nodes, id);
        if nodes[id].expire > cutoff { break; }
        currentIndex := currentIndex + 1;
        var p := nodes[id].path;
        NotRoot(tree, nodes, readonly, p);
        ghost var s := Expiring(tree, nodes);
        assert s - {} == s;
        var popped := heap.Pop(TimesOf(nodes), s);
        ghost var t := tree;
        RemoveAll(p, {id});
        CleanedMore(old(tree), t, nodes, p, cutoff);
        NotAttached(t, nodes, p);
      }
      AllCleaned(heap, old(tree), tree, nodes, cutoff);
    }

    /** After the tree has been read back, a new heap is filled. */
    method Recover()
      requires TreeOk(tree, nodes) && RootsOk(tree, nodes, readonly) && (forall id | id in nodes :: id < nextId)
      modifies this`heap
      ensures Valid() && fresh(heap)
    {
      hide TreeOk, RootsOk, TimesOf;
      heap := new Heap();
      var todo := tree.Keys;
      ghost var done: set<NodeId> := {};
      while todo != {}
        invariant todo <= tree.Keys && fresh(heap) && heap.Holds(TimesOf(nodes), done)
        invariant done == set p | p in tree && p !in todo && Expires(tree, nodes, p) :: tree[p]
        decreases todo
      {
        var p :| p in todo;
        TreeNode(tree, nodes, p);
        if nodes[tree[p]].expire != PERMANENT {
          NotDone(tree, nodes, todo, p);
          heap.Push(tree[p], TimesOf(nodes), done);
          done := done + {tree[p]};
        }
        todo := todo - {p};
      }
      assert done == Expiring(tree, nodes) - {};
    }
  }

  // ----- What the operations answer -----

  ghost function LookupOutcome(tree: Tree, nodes: Nodes, p: Path): Error {
    if FileAbove(tree, nodes, p) then NotDir else if p in tree then NoError else KeyNotFound
  }

  ghost function CreateOutcome(tree: Tree, nodes: Nodes, roots: set<Path>, p: Path, replace: bool): Error {
    if p in roots then RootReadOnly
    else if FileAbove(tree, nodes, p) then NotDir
    else if p in tree && !replace then NodeExist
    else if IsDirectory(tree, nodes, p) then NotFile
    else NoError
  }

  ghost function SetOutcome(tree: Tree, nodes: Nodes, roots: set<Path>, p: Path, refresh: bool): Error {
    if FileAbove(tree, nodes, p) then NotDir
    else if refresh && p !in tree then KeyNotFound
    else CreateOutcome(tree, nodes, roots, p, true)
  }

  ghost function UpdateOutcome(tree: Tree, nodes: Nodes, roots: set<Path>, p: Path, newValue: string): Error {
    if p in roots then RootReadOnly
    else if LookupOutcome(tree, nodes, p) != NoError then LookupOutcome(tree, nodes, p)
    else if IsDirectory(tree, nodes, p) && newValue != "" then NotFile
    else NoError
  }

  ghost function CompareOutcome(tree: Tree, nodes: Nodes, p: Path, prevValue: string, prevIndex: nat): Error {
    if LookupOutcome(tree, nodes, p) != NoError then LookupOutcome(tree, nodes, p)
    else if !IsFile(tree, nodes, p) then NotFile
    else if prevIndex != 0 && nodes[tree[p]].modified != prevIndex then TestFailed
    else if prevValue != "" && nodes[tree[p]].value != prevValue then TestFailed
    else NoError
  }

  ghost function DeleteOutcome(tree: Tree, nodes: Nodes, roots: set<Path>, p: Path, dirFlag: bool, recursive: bool): Error {
    if p in roots then RootReadOnly
    else if LookupOutcome(tree, nodes, p) != NoError then LookupOutcome(tree, nodes, p)
    else if IsDirectory(tree, nodes, p) && !dirFlag && !recursive then NotFile
    else if Below(tree, p) != {p} && !recursive then DirNotEmpty
    else NoError
  }

  predicate Compare(n: Node, prevValue: string, prevIndex: nat) {
    (prevIndex == 0 || n.modified == prevIndex) && (prevValue == "" || n.value == prevValue)
  }

  /** All directories down to d are there; those that were missing are new and permanent, and all else is as it was. */
  ghost predicate Grown(t: Tree, ns: Nodes, tree: Tree, nodes: Nodes, d: Path, index: nat) {
    && Kept(t, ns, tree, nodes)
    && (forall q | q in tree :: q in t || q <= d)
    && (forall q | q in tree && q !in t :: tree[q] in nodes && nodes[tree[q]] == Node(q, true, "", PERMANENT, index, index))
  }

  /** A node n that was not there before is at its path; beside it only missing directories above it are new. */
  ghost predicate Created(t: Tree, ns: Nodes, tree: Tree, nodes: Nodes, n: Node) {
    var p := n.path;
    && p in tree && tree[p] !in ns && tree[p] in nodes && nodes[tree[p]] == n
    && (forall id | id in ns :: id in nodes && nodes[id] == ns[id])
    && (forall q | q in t && q != p :: q in tree && tree[q] == t[q])
    && (forall q | q in tree && q != p :: q in t || q <= p)
    && (forall q | q in tree && q !in t && q != p ::
          tree[q] in nodes && nodes[tree[q]] == Node(q, true, "", PERMANENT, n.created, n.created))
  }

  // ----- The directories nobody may change -----

  lemma ShortPrefix(p: Path, q: Path)
    requires p <= q && p != [] && |q| <= 1
    ensures p == q
  {
  }

  lemma RootsDetached(tree: Tree, nodes: Nodes, roots: set<Path>, p: Path)
    requires RootsOk(tree, nodes, roots) && p !in roots
    ensures p != [] && RootsOk(Detached(tree, p), nodes, roots)
  {
    forall q | q in roots ensures !(p <= q) {
      if p <= q { ShortPrefix(p, q); }
    }
  }

  lemma RootsChange(tree: Tree, nodes: Nodes, roots: set<Path>, p: Path, n: Node)
    requires TreeOk(tree, nodes) && RootsOk(tree, nodes, roots) && p in tree && p !in roots
    ensures p != [] && RootsOk(tree, nodes[tree[p] := n], roots)
  {
    forall q | q in roots ensures tree[q] != tree[p] {
      assert NodeOk(tree, nodes, q) && NodeOk(tree, nodes, p);
    }
  }

  lemma RootsAttached(tree: Tree, nodes: Nodes, roots: set<Path>, p: Path, id: NodeId, n: Node)
    requires RootsOk(tree, nodes, roots) && p !in tree && id !in nodes
    ensures RootsOk(tree[p := id], nodes[id := n], roots)
  {
  }

  lemma RootsMore(tree: Tree, nodes: Nodes, roots: set<Path>, p: Path)
    requires RootsOk(tree, nodes, roots) && |p| <= 1 && IsDirectory(tree, nodes, p) && nodes[tree[p]].expire == PERMANENT
    ensures RootsOk(tree, nodes, roots + {p})
  {
  }

  lemma ChildNotRoot(tree: Tree, nodes: Nodes, roots: set<Path>, p: Path, q: Path)
    requires RootsOk(tree, nodes, roots) && p !in roots && q in ChildPaths(tree, p)
    ensures q !in roots
  {
  }

  lemma NotRoot(tree: Tree, nodes: Nodes, roots: set<Path>, p: Path)
    requires RootsOk(tree, nodes, roots) && p in tree && tree[p] in nodes
    requires !nodes[tree[p]].dir || nodes[tree[p]].expire != PERMANENT
    ensures p !in roots
  {
  }

  lemma OnlyRoot(tree: Tree, nodes: Nodes)
    requires tree == map[[] := 0] && nodes == map[0 := Node([], true, "", PERMANENT, 0, 0)]
    ensures TreeOk(tree, nodes) && RootsOk(tree, nodes, {[]}) && Expiring(tree, nodes) == {}
  {
  }

  lemma RootIn(tree: Tree, nodes: Nodes, roots: set<Path>)
    requires RootsOk(tree, nodes, roots)
    ensures [] in roots
  {
  }

  // ----- Walks -----

  /** The walk has come to directory p[..i] and goes on to a file or a missing name. */
  lemma WalkStops(tree: Tree, nodes: Nodes, p: Path, i: nat)
    requires TreeOk(tree, nodes) && i < |p| && p[..i] in tree && p[..i+1] !in tree
    ensures p !in tree && (FileAbove(tree, nodes, p) <==> IsFile(tree, nodes, p[..i]))
  {
    if p in tree { PrefixInTree(tree, nodes, p, i + 1); }
    forall k | 0 <= k < |p| && IsFile(tree, nodes, p[..k]) ensures k == i {
      if k > i { NodeAbove(tree, nodes, p, i + 1, k); } else { NodeAbove(tree, nodes, p, k, i); }
    }
  }

  lemma NodeAbove(tree: Tree, nodes: Nodes, p: Path, i: nat, k: nat)
    requires TreeOk(tree, nodes) && i <= k <= |p| && p[..k] in tree
    ensures p[..i] in tree && (i < k ==> IsDirectory(tree, nodes, p[..i]))
  {
    PrefixInTree(tree, nodes, p[..k], i);
    assert p[..k][..i] == p[..i];
    TreeNode(tree, nodes, p[..i]);
  }

  lemma WalkArrives(tree: Tree, nodes: Nodes, p: Path)
    requires TreeOk(tree, nodes) && p in tree
    ensures !FileAbove(tree, nodes, p)
  {
    assert p[..|p|] == p;
    forall i | 0 <= i < |p| ensures !IsFile(tree, nodes, p[..i]) { NodeAbove(tree, nodes, p, i, |p|); }
  }

  lemma FileOnPath(tree: Tree, nodes: Nodes, d: Path, i: nat)
    requires i <= |d| && IsFile(tree, nodes, d[..i])
    ensures FileAbove(tree, nodes, d) || IsFile(tree, nodes, d)
    ensures i < |d| ==> FileAbove(tree, nodes, d)
  {
    assert d[..|d|] == d;
  }

  /** Nothing hangs under a file. */
  lemma FileEnds(tree: Tree, nodes: Nodes, p: Path, i: nat)
    requires TreeOk(tree, nodes) && i < |p| && IsFile(tree, nodes, p[..i])
    ensures p !in tree
  {
    assert p[..|p|] == p;
    if p in tree { NodeAbove(tree, nodes, p, i, |p|); }
  }

  /** Below a missing name there is nothing. */
  lemma MissingBelow(tree: Tree, nodes: Nodes, d: Path, i: nat)
    requires TreeOk(tree, nodes) && i < |d| && IsDirectory(tree, nodes, d[..i]) && d[..i+1] !in tree
    ensures !FileAbove(tree, nodes, d) && !IsFile(tree, nodes, d)
  {
    WalkStops(tree, nodes, d, i);
  }

  lemma GrownNot(tree: Tree, nodes: Nodes, d: Path, index: nat)
    ensures Grown(tree, nodes, tree, nodes, d, index) && Grown(tree, nodes, tree, nodes, [], index)
    ensures Grown(tree, nodes, tree, nodes, d[..0], index)
  {
  }

  /** Below what has grown so far a node can only be one that was there. */
  lemma GrownThere(t: Tree, ns: Nodes, tree: Tree, nodes: Nodes, d: Path, i: nat, index: nat)
    requires TreeOk(t, ns) && i < |d| && Grown(t, ns, tree, nodes, d[..i], index) && d[..i+1] in tree
    ensures d[..i+1] in t && d[..i] in t && Grown(t, ns, tree, nodes, d[..i+1], index)
  {
    assert !(d[..i+1] <= d[..i]);
    NodeAbove(t, ns, d, i, i + 1);
    forall q | q in tree && q <= d[..i] ensures q <= d[..i+1] { PrefixLonger(d, i, q); }
  }

  lemma PrefixLonger(d: Path, i: nat, q: Path)
    requires i < |d| && q <= d[..i]
    ensures q <= d[..i+1]
  {
    assert d[..i] == d[..i+1][..i];
  }

  lemma GrownMore(t: Tree, ns: Nodes, tree: Tree, nodes: Nodes, d: Path, i: nat, index: nat, id: NodeId)
    requires i < |d| && Grown(t, ns, tree, nodes, d[..i], index) && d[..i+1] !in tree && id !in nodes
    ensures var q := d[..i+1];
            q !in t && Grown(t, ns, tree[q := id], nodes[id := Node(q, true, "", PERMANENT, index, index)], q, index)
  {
    forall q | q in tree && q <= d[..i] ensures q <= d[..i+1] { PrefixLonger(d, i, q); }
  }

  /** A file above p is one above its directory or is its directory. */
  lemma DirnameFile(tree: Tree, nodes: Nodes, p: Path)
    requires p != []
    ensures FileAbove(tree, nodes, p) <==> FileAbove(tree, nodes, Dirname(p)) || IsFile(tree, nodes, Dirname(p))
  {
    var d := Dirname(p);
    forall i | 0 <= i <= |d| ensures p[..i] == d[..i] {}
    assert d[..|d|] == d;
    if IsFile(tree, nodes, d) { assert IsFile(tree, nodes, p[..|d|]); }
    if FileAbove(tree, nodes, d) {
      var i :| 0 <= i < |d| && IsFile(tree, nodes, d[..i]);
      assert IsFile(tree, nodes, p[..i]);
    }
  }

  lemma DirnameIn(tree: Tree, nodes: Nodes, p: Path)
    requires TreeOk(tree, nodes) && p in tree
    ensures Dirname(p) in tree
  {
    assert NodeOk(tree, nodes, p);
  }

  lemma GrownElsewhere(t: Tree, ns: Nodes, tree: Tree, nodes: Nodes, p: Path, index: nat)
    requires TreeOk(t, ns) && Grown(t, ns, tree, nodes, Dirname(p), index) && p != []
    ensures (p in tree <==> p in t) && (IsDirectory(tree, nodes, p) <==> IsDirectory(t, ns, p))
  {
    if p in t { TreeNode(t, ns, p); }
  }

  lemma CreatedIn(t: Tree, ns: Nodes, left: Tree, p: Path, id: NodeId, n: Node)
    requires n.path == p && p !in left && id !in ns
    requires forall q | q in left :: q in t && left[q] == t[q]
    requires forall q | q in t && q != p :: q in left
    ensures Created(t, ns, left[p := id], ns[id := n], n)
  {
  }

  lemma CreatedAfter(t: Tree, ns: Nodes, u: Tree, us: Nodes, tree: Tree, nodes: Nodes, d: Path, n: Node)
    requires Grown(t, ns, u, us, d, n.created) && Created(u, us, tree, nodes, n) && n.path != [] && d == Dirname(n.path)
    ensures Created(t, ns, tree, nodes, n)
  {
  }

  lemma ChildlessExactly(tree: Tree, nodes: Nodes, p: Path)
    requires TreeOk(tree, nodes) && p in tree
    ensures ChildPaths(tree, p) == {} <==> Below(tree, p) == {p}
  {
    if ChildPaths(tree, p) == {} { Childless(tree, nodes, p); }
    forall q | q in ChildPaths(tree, p) ensures q in Below(tree, p) && q != p {}
  }

  // ----- Expiration -----

  ghost predicate HasExpired(tree: Tree, nodes: Nodes, q: Path, cutoff: nat) {
    Expires(tree, nodes, q) && nodes[tree[q]].expire <= cutoff
  }

  ghost predicate UnderExpired(tree: Tree, nodes: Nodes, p: Path, cutoff: nat) {
    exists q :: q <= p && HasExpired(tree, nodes, q, cutoff)
  }

  /** Only nodes that have expired or lie under such have been removed so far. */
  ghost predicate Cleaned(tree: Tree, left: Tree, nodes: Nodes, cutoff: nat) {
    && (forall p | p in left :: p in tree && left[p] == tree[p])
    && (forall p | p in tree && p !in left :: UnderExpired(tree, nodes, p, cutoff))
  }

  lemma CleanedNot(tree: Tree, nodes: Nodes, cutoff: nat)
    ensures Cleaned(tree, tree, nodes, cutoff)
  {
  }

  lemma CleanedMore(tree: Tree, left: Tree, nodes: Nodes, p: Path, cutoff: nat)
    requires Cleaned(tree, left, nodes, cutoff) && HasExpired(left, nodes, p, cutoff)
    ensures Cleaned(tree, Detached(left, p), nodes, cutoff) && Detached(left, p).Keys < left.Keys
  {
    assert HasExpired(tree, nodes, p, cutoff);
    assert p in left && p !in Detached(left, p);
  }

  /** The top of the heap is an attached node that expires. */
  lemma TopExpires(heap: Heap, tree: Tree, nodes: Nodes, id: NodeId)
    requires TreeOk(tree, nodes) && heap.arr != [] && heap.arr[0] == id
    requires heap.Holds(TimesOf(nodes), Expiring(tree, nodes) - {})
    ensures id in nodes && nodes[id].path != [] && nodes[id].path in tree && tree[nodes[id].path] == id
    ensures Expires(tree, nodes, nodes[id].path) && id in Expiring(tree, nodes)
  {
    assert id in heap.keyMap;
    assert id in Expiring(tree, nodes);
    var p :| p in tree && Expires(tree, nodes, p) && tree[p] == id;
    assert NodeOk(tree, nodes, p);
  }

  lemma NotAttached(tree: Tree, nodes: Nodes, p: Path)
    requires TreeOk(tree, nodes) && p in tree
    ensures Expiring(Detached(tree, p), nodes) - {tree[p]} == Expiring(Detached(tree, p), nodes) - {}
  {
    var t := Detached(tree, p);
    forall q | q in t ensures t[q] != tree[p] {
      assert NodeOk(tree, nodes, q) && NodeOk(tree, nodes, p);
    }
  }

  /** When the earliest node is after cutoff, nothing expired is left. */
  lemma AllCleaned(heap: Heap, tree: Tree, left: Tree, nodes: Nodes, cutoff: nat)
    requires TreeOk(left, nodes) && Cleaned(tree, left, nodes, cutoff)
    requires heap.Holds(TimesOf(nodes), Expiring(left, nodes) - {})
    requires heap.arr != [] ==> heap.arr[0] in nodes && nodes[heap.arr[0]].expire > cutoff
    ensures forall p | p in tree :: p !in left <==> UnderExpired(tree, nodes, p, cutoff)
  {
    forall p | p in left && UnderExpired(tree, nodes, p, cutoff) ensures false {
      var q :| q <= p && HasExpired(tree, nodes, q, cutoff);
      PrefixInTree(left, nodes, p, |q|);
      assert p[..|q|] == q;
      assert Expires(left, nodes, q);
      var id := left[q];
      assert id in Expiring(left, nodes);
      assert id in heap.keyMap;
      RootIsFirst(heap.arr, TimesOf(nodes), |heap.arr|, heap.keyMap[id]);
    }
  }

  lemma DetachedAlone(tree: Tree, p: Path)
    requires Below(tree, p) == {p}
    ensures forall q | q in tree && q != p :: q in Detached(tree, p)
    ensures p !in Detached(tree, p) && (p != [] ==> Dirname(p) != p)
  {
    forall q | q in tree && q != p ensures q in Detached(tree, p) { assert q !in Below(tree, p); }
  }

  lemma TimesElsewhere(nodes: Nodes, id: NodeId, n: Node)
    ensures forall y | y != id :: TimeOf(TimesOf(nodes[id := n]), y) == TimeOf(TimesOf(nodes), y)
  {
  }

  lemma RootDir(tree: Tree, nodes: Nodes)
    requires TreeOk(tree, nodes)
    ensures [] in tree && tree[[]] in nodes && nodes[tree[[]]].dir
  {
  }

  lemma NotDone(tree: Tree, nodes: Nodes, todo: set<Path>, p: Path)
    requires TreeOk(tree, nodes) && p in todo && p in tree
    ensures tree[p] !in (set q | q in tree && q !in todo && Expires(tree, nodes, q) :: tree[q])
  {
    forall q | q in tree && q !in todo ensures tree[q] != tree[p] {
      assert NodeOk(tree, nodes, q) && NodeOk(tree, nodes, p);
    }
  }

  /** Everything that was attached still is, unchanged. */
  ghost predicate Kept(t: Tree, ns: Nodes, tree: Tree, nodes: Nodes) {
    && (forall q | q in t :: q in tree && tree[q] == t[q])
    && (forall id | id in ns :: id in nodes && nodes[id] == ns[id])
  }

  lemma TreeNode(tree: Tree, nodes: Nodes, p: Path)
    requires TreeOk(tree, nodes) && p in tree
    ensures tree[p] in nodes && nodes[tree[p]].path == p
  {
    assert NodeOk(tree, nodes, p);
  }

  lemma ExpiringIs(tree: Tree, nodes: Nodes, p: Path)
    requires TreeOk(tree, nodes) && p in tree
    ensures tree[p] in nodes && (tree[p] in Expiring(tree, nodes) <==> nodes[tree[p]].expire != PERMANENT)
    ensures forall id | id in Expiring(tree, nodes) :: id in nodes
  {
    assert NodeOk(tree, nodes, p);
    if nodes[tree[p]].expire != PERMANENT { assert Expires(tree, nodes, p); }
  }

  lemma NotYetExpiring(tree: Tree, nodes: Nodes, id: NodeId)
    requires id !in nodes
    ensures id !in Expiring(tree, nodes) && forall x | x in Expiring(tree, nodes) :: x in nodes
  {
  }

  /** What is gone was strictly below p. */
  ghost predicate Shrunk(tree: Tree, left: Tree, p: Path) {
    && (forall q | q in left :: q in tree && left[q] == tree[q])
    && (forall q | q in tree && q !in left :: p < q)
  }

  lemma ShrunkNot(tree: Tree, p: Path)
    ensures Shrunk(tree, tree, p)
  {
  }

  lemma ChildBelow(tree: Tree, left: Tree, p: Path, q: Path)
    requires Shrunk(tree, left, p) && p in left && q in ChildPaths(left, p)
    ensures q in left && q != [] && Below(left, q) < Below(tree, p)
  {
    assert p in Below(tree, p) && p !in Below(left, q);
  }

  lemma ChildDetached(tree: Tree, left: Tree, p: Path, q: Path)
    requires Shrunk(tree, left, p) && p in left && q in ChildPaths(left, p)
    ensures var t := Detached(left, q); Shrunk(tree, t, p) && p in t && ChildPaths(t, p) == ChildPaths(left, p) - {q}
  {
    var t := Detached(left, q);
    forall r | r in left && r !in t ensures p < r { assert q <= r; }
    forall r | r in ChildPaths(left, p) && q <= r ensures r == q { assert r == q; }
  }

  lemma Childless(tree: Tree, nodes: Nodes, p: Path)
    requires TreeOk(tree, nodes) && p in tree && ChildPaths(tree, p) == {}
    ensures Below(tree, p) == {p}
  {
    forall q | q in tree && p <= q ensures q == p {
      if q != p {
        ChildAbove(tree, nodes, p, q);
      }
    }
  }

  lemma NotExpiring(tree: Tree, nodes: Nodes, p: Path)
    requires TreeOk(tree, nodes) && p in tree && nodes[tree[p]].expire == PERMANENT
    ensures tree[p] !in Expiring(tree, nodes)
  {
  }

  lemma FileAlone(tree: Tree, nodes: Nodes, p: Path)
    requires TreeOk(tree, nodes) && p in tree && !nodes[tree[p]].dir
    ensures Below(tree, p) == {p}
  {
    forall q | q in tree && p <= q ensures q == p {
      if q != p { ChildAbove(tree, nodes, p, q); }
    }
  }

  lemma DetachLast(tree: Tree, left: Tree, p: Path)
    requires Shrunk(tree, left, p)
    ensures Detached(left, p) == Detached(tree, p)
  {
  }
}
