/** Path resolution, directories and file creation of src/kernel/fs/vfs.c. */
module Vfs {
  import opened Basics
  import opened Paths

  type Flags = bv32

  const O_CREAT: Flags := 0x10
  const O_DIRECTORY: Flags := 0x20

  /** A VfsNode.  Nodes are known by their addresses; address 0 is NULL. */
  datatype Node = Node(name: string, directory: bool, parent: nat, pointsTo: nat, children: seq<nat>, mode: Flags)

  type Nodes = map<nat, Node>

  datatype Errno = ENOENT | EISDIR

  /** A walk ends at a node or at NULL, unless it dereferences NULL on its way. */
  datatype Outcome = Fault | At(node: nat)

  datatype Answer = Crash | Error(errno: Errno) | Opened(node: nat)

  ghost predicate NodeClosed(nodes: Nodes, n: nat)
  {
    n in nodes ==>
      && (nodes[n].pointsTo == 0 || nodes[n].pointsTo in nodes)
      && AllIn(nodes, nodes[n].children)
  }

  ghost predicate AllIn(nodes: Nodes, kids: seq<nat>)
  {
    forall i :: 0 <= i < |kids| ==> kids[i] in nodes
  }

  /** Every pointer but NULL leads to a node. */
  ghost predicate Closed(nodes: Nodes)
  {
    0 !in nodes && forall n :: NodeClosed(nodes, n)
  }

  // ----- Lookups -------------------------------------------------------------------------------

  /** The first of `kids` called `name`, or NULL. */
  function FirstNamed(nodes: Nodes, kids: seq<nat>, name: string): (n: nat)
    ensures n != 0 ==> n in nodes && n in kids && nodes[n].name == name
  {
    if kids == [] then 0
    else if kids[0] in nodes && nodes[kids[0]].name == name then kids[0]
    else FirstNamed(nodes, kids[1..], name)
  }

  lemma {:induction false} FirstNamedIs(nodes: Nodes, kids: seq<nat>, name: string, i: nat)
    requires AllIn(nodes, kids) && i <= |kids|
    requires forall j :: 0 <= j < i ==> nodes[kids[j]].name != name
    requires i < |kids| ==> nodes[kids[i]].name == name
    ensures FirstNamed(nodes, kids, name) == if i < |kids| then kids[i] else 0
    decreases i
  {
    if i > 0 {
      assert nodes[kids[0]].name != name;
      FirstNamedIs(nodes, kids[1..], name, i - 1);
    }
  }

  function Children(nodes: Nodes, n: nat): seq<nat>
  {
    if n in nodes then nodes[n].children else []
  }

  function PointsTo(nodes: Nodes, n: nat): nat
  {
    if n in nodes then nodes[n].pointsTo else 0
  }

  /** The lookup of one path component: first through the alias, then in the node itself. */
  function Find(nodes: Nodes, start: nat, name: string): (n: nat)
    ensures n != 0 ==> n in nodes && nodes[n].name == name
  {
    var there := FirstNamed(nodes, Children(nodes, PointsTo(nodes, start)), name);
    if there != 0 then there else FirstNamed(nodes, Children(nodes, start), name)
  }

  /** From `start` down segments 1 to `k`, NULL as soon as one is missing. */
  function Walk(nodes: Nodes, start: nat, segments: seq<string>, k: nat): (n: nat)
    requires k < |segments|
    ensures n != 0 && start in nodes ==> n in nodes
  {
    Down(nodes, start, segments, k)
  }

  function Down(nodes: Nodes, start: nat, segments: seq<string>, k: nat): (n: nat)
    requires k < |segments|
    ensures n != 0 && start in nodes ==> n in nodes
  {
    if k == 0 then start
    else
      var above := Down(nodes, start, segments, k - 1);
      if above == 0 then 0 else Find(nodes, above, segments[k])
  }

  function Resolve(nodes: Nodes, root: nat, segments: seq<string>): nat
    requires segments != []
  {
    Walk(nodes, root, segments, |segments| - 1)
  }

  function Directory(nodes: Nodes, root: nat, segments: seq<string>): nat
    requires |segments| >= 2
  {
    Walk(nodes, root, segments, |segments| - 2)
  }

  /** The loop of vfs_get_parent from segment `i` on. */
  function ParentFrom(nodes: Nodes, start: nat, node: nat, segments: seq<string>, i: nat): Outcome
  {
    Loop(nodes, start, node, segments, i)
  }

  function Loop(nodes: Nodes, start: nat, node: nat, segments: seq<string>, i: nat): Outcome
    decreases |segments| - i
  {
    if i + 1 >= |segments| then At(node)
    else if segments[i] != "" then
      if i + 2 == |segments| then At(node)
      else if node == 0 then Fault
      else Loop(nodes, start, Find(nodes, node, segments[i + 1]), segments, i + 1)
    else if |segments| == 2 then At(start)
    else Loop(nodes, start, Find(nodes, start, segments[i + 1]), segments, i + 1)
  }

  function Parent(nodes: Nodes, start: nat, path: string): Outcome
  {
    ParentFrom(nodes, start, start, Split(path), 0)
  }

  /** A path that starts with a slash and has no empty component. */
  predicate Absolute(segments: seq<string>)
  {
    |segments| >= 2 && segments[0] == "" && forall i :: 1 <= i < |segments| ==> segments[i] != ""
  }

  /** The same, but the last component may be empty, as behind a trailing slash. */
  predicate Plain(segments: seq<string>)
  {
    |segments| >= 2 && segments[0] == "" && forall i :: 1 <= i < |segments| - 1 ==> segments[i] != ""
  }

  /** vfs_get_parent is the walk down all components but the last.  It dereferences NULL exactly
      when the walk is lost before it reaches the last directory. */
  lemma ParentIsWalk(nodes: Nodes, start: nat, segments: seq<string>)
    requires Plain(segments) && start != 0
    ensures ParentFrom(nodes, start, start, segments, 0) == Target(nodes, start, segments)
  {
    var n := |segments|;
    if n > 2 {
      WalkOnce(nodes, start, segments, 0, 1);
      if n > 3 {
        WalksDown(nodes, start, segments, n - 2, 1, n - 3);
      }
      LastStep(nodes, start, Walk(nodes, start, segments, n - 2), segments, n - 2);
    }
  }

  /** Such a fault: `/a/b/c` where there is no `/a`. */
  lemma LostPathFaults(root: Node)
    requires root.children == [] && root.pointsTo == 0
    ensures Closed(map[1 := root]) && ParentFrom(map[1 := root], 1, 1, ["", "a", "b", "c"], 0) == Fault
  {
    var nodes: Nodes, s := map[1 := root], ["", "a", "b", "c"];
    assert Find(nodes, 1, "a") == 0;
    assert Walk(nodes, 1, s, 1) == 0;
    ParentIsWalk(nodes, 1, s);
  }

  /** A walk that is lost stays lost. */
  lemma {:induction false} LostStaysLost(nodes: Nodes, start: nat, segments: seq<string>, j: nat, k: nat)
    requires j <= k < |segments|
    ensures Walk(nodes, start, segments, j) == 0 ==> Walk(nodes, start, segments, k) == 0
    decreases k
  {
    if j < k {
      LostStaysLost(nodes, start, segments, j, k - 1);
    }
  }

  /** The directory of the last component, unless the walk is lost before. */
  function Target(nodes: Nodes, start: nat, segments: seq<string>): Outcome
    requires |segments| >= 2
  {
    if |segments| > 2 && Walk(nodes, start, segments, |segments| - 3) == 0 then Fault
    else At(Directory(nodes, start, segments))
  }

  lemma LoopOnce(nodes: Nodes, start: nat, node: nat, segments: seq<string>, i: nat, next: nat)
    requires next == i + 1 && next + 1 < |segments| && segments[i] != ""
    ensures ParentFrom(nodes, start, node, segments, i) ==
            if node == 0 then Fault else ParentFrom(nodes, start, Find(nodes, node, segments[next]), segments, next)
  {
  }

  lemma LastStep(nodes: Nodes, start: nat, node: nat, segments: seq<string>, i: nat)
    requires i + 2 == |segments| && segments[i] != ""
    ensures ParentFrom(nodes, start, node, segments, i) == At(node)
  {
  }

  lemma WalkOnce(nodes: Nodes, start: nat, segments: seq<string>, i: nat, next: nat)
    requires next == i + 1 < |segments|
    ensures Walk(nodes, start, segments, next) ==
            if Walk(nodes, start, segments, i) == 0 then 0
            else Find(nodes, Walk(nodes, start, segments, i), segments[next])
  {
  }

  /** From component `i` to component `e` the loop walks down, if there is no empty one between. */
  lemma {:induction false} WalksDown(nodes: Nodes, start: nat, segments: seq<string>, e: nat, i: nat, last: nat)
    requires 1 <= i <= last && last == e - 1 && e < |segments| - 1 && forall k :: 1 <= k < e ==> segments[k] != ""
    ensures ParentFrom(nodes, start, Walk(nodes, start, segments, i), segments, i) ==
            if Walk(nodes, start, segments, last) == 0 then Fault
            else ParentFrom(nodes, start, Walk(nodes, start, segments, e), segments, e)
    decreases e - i
  {
    var next := i + 1;
    LostStaysLost(nodes, start, segments, i, last);
    LoopOnce(nodes, start, Walk(nodes, start, segments, i), segments, i, next);
    WalkOnce(nodes, start, segments, i, next);
    if next < e {
      WalksDown(nodes, start, segments, e, next, last);
    }
  }

  /** A relative path is resolved as if its first segment were not there. */
  lemma FirstSegmentIgnored(nodes: Nodes, start: nat, segments: seq<string>)
    requires |segments| >= 2 && start != 0
    ensures ParentFrom(nodes, start, start, segments, 0) == ParentFrom(nodes, start, start, [""] + segments[1..], 0)
  {
    if |segments| > 2 {
      LaterSegments(nodes, start, Find(nodes, start, segments[1]), segments, [""] + segments[1..], 1);
    }
  }

  /** So `x/f` is the child `f` of the root, whether or not there is an `x`. */
  lemma RelativePath(nodes: Nodes, start: nat)
    ensures ParentFrom(nodes, start, start, ["x", "f"], 0) == At(start)
  {
  }

  lemma {:induction false} LaterSegments(nodes: Nodes, start: nat, node: nat, a: seq<string>, b: seq<string>, i: nat)
    requires |a| == |b| && forall j :: i <= j < |a| ==> a[j] == b[j]
    ensures ParentFrom(nodes, start, node, a, i) == ParentFrom(nodes, start, node, b, i)
    decreases |a| - i
  {
    if i + 1 < |a| {
      LaterSegments(nodes, start, Find(nodes, node, a[i + 1]), a, b, i + 1);
      LaterSegments(nodes, start, Find(nodes, start, a[i + 1]), a, b, i + 1);
    }
  }

  /** The first empty component behind the first, or the number of components. */
  function FirstEmpty(segments: seq<string>, i: nat): (e: nat)
    requires i <= |segments|
    ensures i <= e <= |segments| && (forall k :: i <= k < e ==> segments[k] != "")
    ensures (e < |segments| ==> segments[e] == "")
    decreases |segments| - i
  {
    if i == |segments| || segments[i] == "" then i else FirstEmpty(segments, i + 1)
  }

  /** Where vfs_get_parent ends for a path with a leading slash.  At an empty component it starts over: what
      stands before it matters only in that it must exist, and the component behind it, if it is the last,
      is taken for the directory. */
  function Landing(nodes: Nodes, start: nat, segments: seq<string>): Outcome
    requires |segments| >= 2
    decreases |segments|
  {
    var n, e := |segments|, FirstEmpty(segments, 1);
    if e >= n - 1 then Target(nodes, start, segments)
    else if e > 1 && Resolve(nodes, start, segments[..e]) == 0 then Fault
    else if e == n - 2 then At(Find(nodes, start, segments[n - 1]))
    else Landing(nodes, start, segments[e..])
  }

  /** For every path: its first component is not looked at, and the others are walked, starting over at every
      empty one. */
  lemma ParentIsLanding(nodes: Nodes, start: nat, segments: seq<string>)
    requires segments != [] && start != 0
    ensures ParentFrom(nodes, start, start, segments, 0) ==
            if |segments| == 1 then At(start) else Landing(nodes, start, [""] + segments[1..])
  {
    if |segments| > 1 {
      FirstSegmentIgnored(nodes, start, segments);
      SlashLanding(nodes, start, [""] + segments[1..]);
    }
  }

  lemma {:induction false} SlashLanding(nodes: Nodes, start: nat, segments: seq<string>)
    requires |segments| >= 2 && segments[0] == "" && start != 0
    ensures ParentFrom(nodes, start, start, segments, 0) == Landing(nodes, start, segments)
    decreases |segments|
  {
    var n, e := |segments|, FirstEmpty(segments, 1);
    if e >= n - 1 {
      ParentIsWalk(nodes, start, segments);
    } else {
      StartsOver(nodes, start, segments, e);
      if e < n - 2 {
        SlashLanding(nodes, start, segments[e..]);
      }
    }
  }

  /** An empty component `e`, the first behind the leading slash. */
  lemma StartsOver(nodes: Nodes, start: nat, segments: seq<string>, e: nat)
    requires 1 <= e < |segments| - 1 && segments[0] == "" && segments[e] == "" && start != 0
    requires forall k :: 1 <= k < e ==> segments[k] != ""
    ensures ParentFrom(nodes, start, start, segments, 0) ==
            if e > 1 && Resolve(nodes, start, segments[..e]) == 0 then Fault
            else if e == |segments| - 2 then At(Find(nodes, start, segments[|segments| - 1]))
            else ParentFrom(nodes, start, start, segments[e..], 0)
  {
    var next := Find(nodes, start, segments[e + 1]);
    if e > 1 {
      WalkOnce(nodes, start, segments, 0, 1);
      WalkPrefix(nodes, start, segments, e, e - 1);
      WalksDown(nodes, start, segments, e, 1, e - 1);
    } else {
      WalkOnce(nodes, start, segments, 0, 1);
    }
    AtEmpty(nodes, start, Walk(nodes, start, segments, e), segments, e);
    if e < |segments| - 2 {
      var rest := segments[e..];
      assert rest[0] == "" && rest[1] == segments[e + 1];
      assert ParentFrom(nodes, start, start, rest, 0) == ParentFrom(nodes, start, next, rest, 1);
      Shifted(nodes, start, next, segments, e, 1);
    }
  }

  /** At an empty component the node that was reached does not matter. */
  lemma AtEmpty(nodes: Nodes, start: nat, node: nat, segments: seq<string>, e: nat)
    requires e < |segments| - 1 && segments[e] == "" && |segments| > 2
    ensures ParentFrom(nodes, start, node, segments, e) ==
            ParentFrom(nodes, start, Find(nodes, start, segments[e + 1]), segments, e + 1)
  {
  }

  lemma {:induction false} WalkPrefix(nodes: Nodes, start: nat, segments: seq<string>, e: nat, k: nat)
    requires k < e <= |segments|
    ensures Walk(nodes, start, segments[..e], k) == Walk(nodes, start, segments, k)
  {
    if k > 0 {
      WalkPrefix(nodes, start, segments, e, k - 1);
    }
  }

  /** The loop does not look back. */
  lemma {:induction false} Shifted(nodes: Nodes, start: nat, node: nat, segments: seq<string>, e: nat, i: nat)
    requires e + 2 < |segments|
    ensures ParentFrom(nodes, start, node, segments, e + i) == ParentFrom(nodes, start, node, segments[e..], i)
    decreases |segments| - i
  {
    var rest := segments[e..];
    if i + 1 < |rest| {
      assert rest[i] == segments[e + i] && rest[i + 1] == segments[e + i + 1];
      Shifted(nodes, start, Find(nodes, node, rest[i + 1]), segments, e, i + 1);
      Shifted(nodes, start, Find(nodes, start, rest[i + 1]), segments, e, i + 1);
    }
  }

  /** The directory of `/a//b` is taken to be `/b`. */
  lemma DoubleSlash(nodes: Nodes, start: nat)
    requires start != 0 && Find(nodes, start, "a") != 0
    ensures ParentFrom(nodes, start, start, ["", "a", "", "b"], 0) == At(Find(nodes, start, "b"))
  {
    var s := ["", "a", "", "b"];
    assert s[..2] == ["", "a"];
    WalkOnce(nodes, start, s, 0, 1);
    WalkPrefix(nodes, start, s, 2, 1);
    StartsOver(nodes, start, s, 2);
  }

  // ----- Changes that keep what was found --------------------------------------------------------

  /** Whatever a lookup found, it still finds. */
  ghost predicate Keeps(nodes: Nodes, nodes': Nodes)
  {
    && nodes.Keys <= nodes'.Keys
    && forall d, name :: Find(nodes, d, name) != 0 ==> Find(nodes', d, name) == Find(nodes, d, name)
  }

  /** Every path that led to a node still leads to it. */
  lemma {:induction false} WalksKept(nodes: Nodes, nodes': Nodes, start: nat, segments: seq<string>, k: nat)
    requires k < |segments| && Keeps(nodes, nodes') && Walk(nodes, start, segments, k) != 0
    ensures Walk(nodes', start, segments, k) == Walk(nodes, start, segments, k)
  {
    if k > 0 {
      WalksKept(nodes, nodes', start, segments, k - 1);
    }
  }

  /** A new child at the end of `p`'s children. */
  function Adopted(nodes: Nodes, p: nat, child: nat, node: Node): (nodes': Nodes)
    requires p in nodes && child !in nodes
    ensures nodes'.Keys == nodes.Keys + {child}
  {
    nodes[child := node][p := nodes[p].(children := nodes[p].children + [child])]
  }

  lemma {:induction false} FirstNamedGrows(nodes: Nodes, nodes': Nodes, kids: seq<nat>, more: seq<nat>, name: string)
    requires AllIn(nodes, kids) && 0 !in nodes
    requires forall k :: k in nodes ==> k in nodes' && nodes'[k].name == nodes[k].name
    ensures FirstNamed(nodes', kids + more, name) ==
      if FirstNamed(nodes, kids, name) != 0 then FirstNamed(nodes, kids, name) else FirstNamed(nodes', more, name)
  {
    if kids == [] {
      assert kids + more == more;
    } else {
      assert (kids + more)[1..] == kids[1..] + more;
      FirstNamedGrows(nodes, nodes', kids[1..], more, name);
    }
  }

  /** The new child answers to its own name in its parent and through the aliases of its parent,
      and hides what an alias itself holds under that name.  All other lookups are as they were. */
  lemma AdoptedFind(nodes: Nodes, p: nat, child: nat, node: Node, d: nat, name: string)
    requires Closed(nodes) && p in nodes && child !in nodes && child != 0 && d in nodes
    ensures Find(Adopted(nodes, p, child, node), d, name) ==
      if name == node.name && Reaches(nodes, p, d, name) then child else Find(nodes, d, name)
  {
    var nodes' := Adopted(nodes, p, child, node);
    var q := nodes[d].pointsTo;
    assert NodeClosed(nodes, d) && NodeClosed(nodes, q);
    FirstNamedGrows(nodes, nodes', Children(nodes, d), if d == p then [child] else [], name);
    FirstNamedGrows(nodes, nodes', Children(nodes, q), if q == p then [child] else [], name);
    assert Children(nodes', d) == Children(nodes, d) + if d == p then [child] else [];
    assert Children(nodes', q) == Children(nodes, q) + if q == p then [child] else [];
    OneKid(nodes', child, name);
  }

  /** A lookup of `name` in `d` comes to the end of the children of `p`. */
  predicate Reaches(nodes: Nodes, p: nat, d: nat, name: string)
    requires d in nodes
  {
    || (nodes[d].pointsTo == p && FirstNamed(nodes, Children(nodes, p), name) == 0)
    || (d == p && Find(nodes, d, name) == 0)
  }

  /** An alias of `p` that itself holds a child called `name`, which `p` does not. */
  ghost predicate Shadowed(nodes: Nodes, p: nat, name: string)
  {
    exists d :: d in nodes && nodes[d].pointsTo == p && FirstNamed(nodes, Children(nodes, p), name) == 0
      && Find(nodes, d, name) != 0
  }

  /** Only directories proper hold children, aliases do not. */
  ghost predicate AliasesEmpty(nodes: Nodes)
  {
    forall d :: d in nodes && nodes[d].pointsTo != 0 ==> nodes[d].children == []
  }

  lemma NothingShadowed(nodes: Nodes, p: nat, name: string)
    requires AliasesEmpty(nodes) && p != 0
    ensures !Shadowed(nodes, p, name)
  {
    forall d | d in nodes && nodes[d].pointsTo == p && FirstNamed(nodes, Children(nodes, p), name) == 0
      ensures Find(nodes, d, name) == 0
    {
      assert Children(nodes, d) == [];
    }
  }

  lemma OneKid(nodes: Nodes, child: nat, name: string)
    requires child in nodes
    ensures FirstNamed(nodes, [child], name) == if nodes[child].name == name then child else 0
    ensures FirstNamed(nodes, [], name) == 0
  {
    assert [child][1..] == [];
  }

  /** Adopting a child keeps every lookup if and only if it shadows nothing. */
  lemma AdoptedKeeps(nodes: Nodes, p: nat, child: nat, node: Node)
    requires Closed(nodes) && p in nodes && child !in nodes && child != 0
    ensures Keeps(nodes, Adopted(nodes, p, child, node)) <==> !Shadowed(nodes, p, node.name)
  {
    var nodes' := Adopted(nodes, p, child, node);
    forall d, name | d in nodes
      ensures Find(nodes', d, name) ==
              if name == node.name && Reaches(nodes, p, d, name) then child else Find(nodes, d, name)
    {
      AdoptedFind(nodes, p, child, node, d, name);
    }
    if Shadowed(nodes, p, node.name) {
      var d :| d in nodes && nodes[d].pointsTo == p && FirstNamed(nodes, Children(nodes, p), node.name) == 0
        && Find(nodes, d, node.name) != 0;
      assert Find(nodes', d, node.name) == child;
    } else {
      forall d, name | Find(nodes, d, name) != 0 ensures Find(nodes', d, name) == Find(nodes, d, name) {
        FoundSomewhere(nodes, d, name);
      }
    }
  }

  lemma FoundSomewhere(nodes: Nodes, d: nat, name: string)
    requires Find(nodes, d, name) != 0 && 0 !in nodes
    ensures d in nodes
  {
  }

  /** What a node holds as pointers leads to nodes. */
  ghost predicate PointersIn(nodes: Nodes, node: Node)
  {
    (node.pointsTo == 0 || node.pointsTo in nodes) && AllIn(nodes, node.children)
  }

  /** A new child breaks no pointer if and only if its own pointers are good. */
  lemma AdoptedClosed(nodes: Nodes, p: nat, child: nat, node: Node)
    requires Closed(nodes) && p in nodes && child !in nodes && child != 0
    ensures Closed(Adopted(nodes, p, child, node)) <==> PointersIn(Adopted(nodes, p, child, node), node)
    ensures var nodes' := Adopted(nodes, p, child, node);
      AliasesEmpty(nodes) ==>
        (AliasesEmpty(nodes') <==> nodes[p].pointsTo == 0 && (node.pointsTo == 0 || node.children == []))
  {
    var nodes' := Adopted(nodes, p, child, node);
    assert nodes'[child] == node && nodes'[p].children == nodes[p].children + [child];
    if PointersIn(nodes', node) {
      forall n ensures NodeClosed(nodes', n) {
        assert NodeClosed(nodes, n) && NodeClosed(nodes, p);
      }
    } else {
      assert !NodeClosed(nodes', child);
    }
    if AliasesEmpty(nodes) && nodes[p].pointsTo == 0 && (node.pointsTo == 0 || node.children == []) {
      assert AliasesEmpty(nodes');
    }
  }

  /** Setting a node's mode changes no lookup. */
  lemma ModeFind(nodes: Nodes, n: nat, mode: Flags, d: nat, name: string)
    requires n in nodes
    ensures Find(nodes[n := nodes[n].(mode := mode)], d, name) == Find(nodes, d, name)
  {
    var nodes' := nodes[n := nodes[n].(mode := mode)];
    SameNames(nodes, nodes', Children(nodes, d), name);
    SameNames(nodes, nodes', Children(nodes, PointsTo(nodes, d)), name);
  }

  lemma {:induction false} SameNames(nodes: Nodes, nodes': Nodes, kids: seq<nat>, name: string)
    requires nodes.Keys == nodes'.Keys && forall k :: k in nodes ==> nodes'[k].name == nodes[k].name
    ensures FirstNamed(nodes', kids, name) == FirstNamed(nodes, kids, name)
  {
    if kids != [] {
      SameNames(nodes, nodes', kids[1..], name);
    }
  }

  lemma ModeKeeps(nodes: Nodes, n: nat, mode: Flags)
    requires Closed(nodes) && n in nodes
    ensures Keeps(nodes, nodes[n := nodes[n].(mode := mode)]) && Closed(nodes[n := nodes[n].(mode := mode)])
  {
    forall d, name | Find(nodes, d, name) != 0
      ensures Find(nodes[n := nodes[n].(mode := mode)], d, name) == Find(nodes, d, name)
    {
      ModeFind(nodes, n, mode, d, name);
    }
    var nodes' := nodes[n := nodes[n].(mode := mode)];
    forall k ensures NodeClosed(nodes', k) {
      assert NodeClosed(nodes, k);
    }
  }

  // ----- vfs_open --------------------------------------------------------------------------------

  /** What basename gives. */
  function Base(path: string): string
  {
    if path == "" || path[0] != '/' || path == "/" then path else Split(path)[|Split(path)| - 1]
  }

  /** basename of a relative path is the whole path. */
  lemma RelativeBase()
    ensures Base("a/b") == "a/b" && Base("/a/b") == "b"
  {
    FirstSlashIs("/a/b", 0);
    assert "/a/b"[1..] == "a/b";
    FirstSlashIs("a/b", 1);
    assert "a/b"[2..] == "b";
    FirstSlashIs("b", 1);
  }

  /** A block that malloc hands out: its address, and what stands there when it is taken for a VfsNode. */
  datatype Block = Block(address: nat, stale: Node)

  /** What vfs_open sets of a new node; the other fields stay as they are found. */
  function NewFile(stale: Node, name: string, parent: nat, mode: Flags): Node
  {
    stale.(name := name, directory := false, parent := parent, mode := mode)
  }

  /** The answer of vfs_open, and the nodes it leaves; `spare` is the block malloc gives. */
  function OpenFile(nodes: Nodes, root: nat, path: string, flags: Flags, spare: Block): (r: (Answer, Nodes))
    requires spare.address !in nodes
  {
    match Parent(nodes, root, path)
    case Fault => (Crash, nodes)
    case At(parent) =>
      if parent !in nodes then (Error(ENOENT), nodes) else OpenAt(nodes, parent, Base(path), flags, spare)
  }

  function OpenAt(nodes: Nodes, parent: nat, name: string, flags: Flags, spare: Block): (r: (Answer, Nodes))
    requires spare.address !in nodes && parent in nodes
  {
    var node := Find(nodes, parent, name);
    if flags & O_DIRECTORY == 0 && node != 0 && nodes[node].directory then (Error(EISDIR), nodes)
    else if flags & O_CREAT != 0 then
      if node != 0 then (Opened(node), nodes[node := nodes[node].(mode := flags)])
      else (Opened(spare.address), Adopted(nodes, parent, spare.address, NewFile(spare.stale, name, parent, flags)))
    else if node == 0 then (Error(ENOENT), nodes)
    else
      (Opened(if nodes[node].pointsTo != 0 then nodes[node].pointsTo else node),
       nodes[node := nodes[node].(mode := flags)])
  }

  /** A call of vfs_open breaks a pointer if and only if it creates a file in a block whose leftover pointers are bad,
      and it loses a path if and only if it creates a file that shadows one. */
  lemma OpenKeeps(nodes: Nodes, root: nat, path: string, flags: Flags, spare: Block)
    requires Closed(nodes) && spare.address !in nodes && spare.address != 0
    ensures var nodes' := OpenFile(nodes, root, path, flags, spare).1;
      && (Closed(nodes') <==> (spare.address in nodes' ==> PointersIn(nodes', spare.stale)))
      && (Keeps(nodes, nodes') <==>
            (spare.address in nodes' ==> !Shadowed(nodes, Parent(nodes, root, path).node, Base(path))))
  {
    match Parent(nodes, root, path)
    case Fault =>
    case At(parent) =>
      if parent in nodes {
        var node := Find(nodes, parent, Base(path));
        if node != 0 {
          ModeKeeps(nodes, node, flags);
        }
        AdoptedKeeps(nodes, parent, spare.address, NewFile(spare.stale, Base(path), parent, flags));
        AdoptedClosed(nodes, parent, spare.address, NewFile(spare.stale, Base(path), parent, flags));
      }
  }

  /** The answer of vfs_open when it looks for `name` in the directory `d` (NULL if there is none), and what becomes
      of the nodes.  O_CREAT is 0x10 and O_DIRECTORY 0x20. */
  ghost predicate OpensRightly(nodes: Nodes, nodes': Nodes, r: Answer, d: nat, name: string, flags: Flags, spare: Block)
  {
    var n := Find(nodes, d, name);
    && r != Crash
    && (r == Error(EISDIR) <==> n != 0 && nodes[n].directory && flags & 0x20 == 0)
    && (r == Error(ENOENT) <==> d == 0 || (n == 0 && flags & 0x10 == 0))
    && (r.Error? ==> nodes' == nodes)
    && (r.Opened? && n != 0 ==>
          && r.node == (if flags & 0x10 != 0 || nodes[n].pointsTo == 0 then n else nodes[n].pointsTo)
          && SameBut(nodes, nodes', {n}) && n in nodes' && nodes'[n] == nodes[n].(mode := flags))
    && (r.Opened? && n == 0 ==>
          && r.node == spare.address && SameBut(nodes, nodes', {spare.address, d})
          && Hangs(nodes, nodes', d, spare.address)
          && var file := nodes'[spare.address];
             file.name == name && !file.directory && file.parent == d && file.mode == flags)
  }

  /** All nodes but those in `changed` are what they were. */
  ghost predicate SameBut(nodes: Nodes, nodes': Nodes, changed: set<nat>)
  {
    && (forall x :: x in nodes && x !in changed ==> x in nodes' && nodes'[x] == nodes[x])
    && (forall x :: x in nodes' && x !in changed ==> x in nodes)
  }

  /** Of the directory `d` nothing changed but that `child` is its last child. */
  ghost predicate Hangs(nodes: Nodes, nodes': Nodes, d: nat, child: nat)
  {
    d in nodes && d in nodes' && child in nodes' && nodes'[d] == nodes[d].(children := nodes[d].children + [child])
  }

  /** vfs_open for every path. */
  lemma OpenAnswers(nodes: Nodes, root: nat, path: string, flags: Flags, spare: Block)
    requires Closed(nodes) && root in nodes && spare.address !in nodes && spare.address != 0
    ensures var p, (r, nodes') := Parent(nodes, root, path), OpenFile(nodes, root, path, flags, spare);
      && (r == Crash <==> p == Fault) && (p == Fault ==> nodes' == nodes)
      && (p.At? ==> OpensRightly(nodes, nodes', r, p.node, Base(path), flags, spare))
  {
    match Parent(nodes, root, path)
    case Fault =>
    case At(d) =>
      ParentIn(nodes, root, path);
      if d != 0 {
        OpenAtAnswers(nodes, d, Base(path), flags, spare);
      }
  }

  lemma OpenAtAnswers(nodes: Nodes, d: nat, name: string, flags: Flags, spare: Block)
    requires 0 !in nodes && d in nodes && spare.address !in nodes && spare.address != 0
    ensures var (r, nodes') := OpenAt(nodes, d, name, flags, spare);
      OpensRightly(nodes, nodes', r, d, name, flags, spare)
  {
  }

  /** For an absolute path the directory is the one that the walk ends at, and a fault means that it was lost before. */
  lemma OpenAbsolute(nodes: Nodes, root: nat, path: string, flags: Flags, spare: Block)
    requires Closed(nodes) && root in nodes && spare.address !in nodes && spare.address != 0
    requires Absolute(Split(path))
    ensures var s, (r, nodes') := Split(path), OpenFile(nodes, root, path, flags, spare);
      if |s| > 2 && Walk(nodes, root, s, |s| - 3) == 0 then r == Crash && nodes' == nodes
      else OpensRightly(nodes, nodes', r, Directory(nodes, root, s), s[|s| - 1], flags, spare)
  {
    OpenAnswers(nodes, root, path, flags, spare);
    AbsoluteParent(nodes, root, path);
  }

  lemma AbsoluteParent(nodes: Nodes, root: nat, path: string)
    requires Absolute(Split(path)) && root != 0
    ensures Parent(nodes, root, path) == Target(nodes, root, Split(path))
    ensures Base(path) == Split(path)[|Split(path)| - 1]
  {
    ParentIsWalk(nodes, root, Split(path));
    AbsolutePath(path);
  }

  /** The directory of an absolute path, when it is there. */
  ghost predicate HasParent(nodes: Nodes, root: nat, path: string, parent: nat)
  {
    && Absolute(Split(path)) && root in nodes && parent in nodes
    && Directory(nodes, root, Split(path)) == parent
  }

  lemma ParentFound(nodes: Nodes, root: nat, path: string, parent: nat)
    requires 0 !in nodes && HasParent(nodes, root, path, parent)
    ensures Parent(nodes, root, path) == At(parent)
    ensures Base(path) == Split(path)[|Split(path)| - 1]
  {
    var s := Split(path);
    ParentIsWalk(nodes, root, s);
    if |s| > 2 {
      LostStaysLost(nodes, root, s, |s| - 3, |s| - 2);
    }
    AbsolutePath(path);
  }

  lemma AbsolutePath(path: string)
    requires Absolute(Split(path))
    ensures |path| > 1 && path[0] == '/' && path != "/"
  {
    JoinSplit(path);
    var s := Split(path);
    assert path == "" + "/" + Join(s[1..]);
    assert Join(s[1..]) != "" by {
      assert s[1] != "";
    }
  }

  /** Creating a file where there was nothing, then opening the same path again: it gives the same node, with any
      flags, if and only if the second call may create a file too or the block's leftover points_to is NULL, or
      leads back to the file. */
  lemma CreateThenReopen(nodes: Nodes, root: nat, path: string, parent: nat, flags: Flags, spare: Block, again: Flags,
                         other: Block)
    requires Closed(nodes) && spare.address !in nodes && spare.address != 0
    requires other.address !in nodes && other.address != spare.address
    requires HasParent(nodes, root, path, parent) && Find(nodes, parent, Base(path)) == 0
    requires flags & O_CREAT != 0 && !Shadowed(nodes, parent, Base(path))
    ensures var nodes' := OpenFile(nodes, root, path, flags, spare).1;
      && OpenFile(nodes, root, path, flags, spare).0 == Opened(spare.address)
      && nodes'.Keys == nodes.Keys + {spare.address}
      && (OpenFile(nodes', root, path, again, other).0 == Opened(spare.address) <==>
          again & O_CREAT != 0 || spare.stale.pointsTo == 0 || spare.stale.pointsTo == spare.address)
  {
    var file := NewFile(spare.stale, Base(path), parent, flags);
    var nodes' := Adopted(nodes, parent, spare.address, file);
    CreatesFile(nodes, root, path, parent, flags, spare);
    AdoptedKeeps(nodes, parent, spare.address, file);
    AdoptedFind(nodes, parent, spare.address, file, parent, Base(path));
    StillThere(nodes, nodes', root, path, parent);
    OpensFile(nodes', root, path, parent, spare.address, again, other);
  }

  lemma CreatesFile(nodes: Nodes, root: nat, path: string, parent: nat, flags: Flags, spare: Block)
    requires Closed(nodes) && HasParent(nodes, root, path, parent) && spare.address !in nodes
    requires Find(nodes, parent, Base(path)) == 0 && flags & O_CREAT != 0
    ensures OpenFile(nodes, root, path, flags, spare) ==
            (Opened(spare.address), Adopted(nodes, parent, spare.address,
                                            NewFile(spare.stale, Base(path), parent, flags)))
  {
    ParentFound(nodes, root, path, parent);
  }

  lemma StillThere(nodes: Nodes, nodes': Nodes, root: nat, path: string, parent: nat)
    requires Closed(nodes) && HasParent(nodes, root, path, parent) && Keeps(nodes, nodes')
    ensures HasParent(nodes', root, path, parent)
  {
    WalksKept(nodes, nodes', root, Split(path), |Split(path)| - 2);
  }

  lemma OpensFile(nodes: Nodes, root: nat, path: string, parent: nat, n: nat, flags: Flags, spare: Block)
    requires 0 !in nodes && HasParent(nodes, root, path, parent) && spare.address !in nodes
    requires Find(nodes, parent, Base(path)) == n && n in nodes && !nodes[n].directory
    ensures OpenFile(nodes, root, path, flags, spare).0 ==
            Opened(if flags & O_CREAT != 0 || nodes[n].pointsTo == 0 then n else nodes[n].pointsTo)
  {
    ParentFound(nodes, root, path, parent);
  }

  lemma ResolveKept(nodes: Nodes, nodes': Nodes, root: nat, segments: seq<string>)
    requires segments != [] && Keeps(nodes, nodes') && Resolve(nodes, root, segments) != 0
    ensures Resolve(nodes', root, segments) == Resolve(nodes, root, segments)
  {
    WalksKept(nodes, nodes', root, segments, |segments| - 1);
  }

  /** While aliases hold no children, every path that leads to a node leads to the same node after
      any vfs_open. */
  lemma PathsStay(nodes: Nodes, root: nat, path: string, flags: Flags, spare: Block, segments: seq<string>)
    requires Closed(nodes) && AliasesEmpty(nodes) && spare.address !in nodes && spare.address != 0
    requires segments != [] && Resolve(nodes, root, segments) != 0
    ensures var nodes' := OpenFile(nodes, root, path, flags, spare).1;
      Resolve(nodes', root, segments) == Resolve(nodes, root, segments)
  {
    OpenKeeps(nodes, root, path, flags, spare);
    CreatesUnshadowed(nodes, root, path, flags, spare);
    var nodes' := OpenFile(nodes, root, path, flags, spare).1;
    assert Keeps(nodes, nodes');
    ResolveKept(nodes, nodes', root, segments);
  }

  lemma CreatesUnshadowed(nodes: Nodes, root: nat, path: string, flags: Flags, spare: Block)
    requires Closed(nodes) && spare.address !in nodes
    ensures AliasesEmpty(nodes) && spare.address in OpenFile(nodes, root, path, flags, spare).1 ==>
      !Shadowed(nodes, Parent(nodes, root, path).node, Base(path))
  {
    if AliasesEmpty(nodes) && spare.address in OpenFile(nodes, root, path, flags, spare).1 {
      NothingShadowed(nodes, Parent(nodes, root, path).node, Base(path));
    }
  }

  /** Aliases go on holding no children if and only if no file is created in one, or in a block whose leftovers
      make it one. */
  lemma AliasesStayEmpty(nodes: Nodes, root: nat, path: string, flags: Flags, spare: Block)
    requires Closed(nodes) && AliasesEmpty(nodes) && spare.address !in nodes && spare.address != 0
    ensures var nodes' := OpenFile(nodes, root, path, flags, spare).1;
      AliasesEmpty(nodes') <==>
      (spare.address in nodes' ==> nodes[Parent(nodes, root, path).node].pointsTo == 0
                                   && (spare.stale.pointsTo == 0 || spare.stale.children == []))
  {
    var parent, nodes' := Parent(nodes, root, path), OpenFile(nodes, root, path, flags, spare).1;
    if spare.address in nodes' {
      AdoptedClosed(nodes, parent.node, spare.address, NewFile(spare.stale, Base(path), parent.node, flags));
    }
  }

  /** A file `/f` in a block whose points_to still leads to the root: opened again, it is the root. */
  lemma StaleAlias(root: Node, stale: Node)
    requires root.children == [] && root.pointsTo == 0 && stale.pointsTo == 1
    ensures var (r, nodes') := OpenFile(map[1 := root], 1, "/f", O_CREAT, Block(2, stale));
      && r == Opened(2) && nodes'.Keys == {1, 2} && OpenFile(nodes', 1, "/f", 0, Block(3, stale)).0 == Opened(1)
  {
    var nodes: Nodes := map[1 := root];
    SplitTwo("f");
    assert Split("/f") == ["", "f"];
    assert Closed(nodes) && HasParent(nodes, 1, "/f", 1);
    ParentFound(nodes, 1, "/f", 1);
    assert !Shadowed(nodes, 1, "f");
    CreateThenReopen(nodes, 1, "/f", 1, O_CREAT, Block(2, stale), 0, Block(3, stale));
    CreatesFile(nodes, 1, "/f", 1, O_CREAT, Block(2, stale));
    var file := NewFile(stale, "f", 1, O_CREAT);
    AdoptedKeeps(nodes, 1, 2, file);
    AdoptedFind(nodes, 1, 2, file, 1, "f");
    StillThere(nodes, Adopted(nodes, 1, 2, file), 1, "/f", 1);
    OpensFile(Adopted(nodes, 1, 2, file), 1, "/f", 1, 2, 0, Block(3, stale));
  }

  lemma SplitTwo(name: string)
    requires '/' !in name
    ensures Split("/" + name) == ["", name]
  {
    SplitFirst("", name);
    assert "" + "/" + name == "/" + name;
    FirstSlashIs(name, |name|);
  }

  // ----- vfs_mkdir -------------------------------------------------------------------------------

  /** Three blocks from malloc. */
  ghost predicate ThreeBlocks(nodes: Nodes, made: Block, up: Block, here: Block)
  {
    && made.address !in nodes && up.address !in nodes && here.address !in nodes
    && made.address != up.address && up.address != here.address && here.address != made.address
    && made.address != 0 && up.address != 0 && here.address != 0
  }

  /** What vfs_mkdir sets of a new directory, and of its entries `..` and `.`. */
  function NewDirectory(stale: Node, name: string, parent: nat): Node
  {
    stale.(name := name, directory := true, parent := parent, children := [])
  }

  function NewEntry(stale: Node, name: string, target: nat): Node
  {
    stale.(name := name, directory := true, pointsTo := target)
  }

  /** The answer of vfs_mkdir, and the nodes it leaves: the directory `made` with its entries `up` and `here`,
      or, for "/", one that hangs nowhere. */
  function MakeDirectory(nodes: Nodes, root: nat, path: string, made: Block, up: Block,
                         here: Block): (r: (Answer, Nodes))
    requires ThreeBlocks(nodes, made, up, here)
  {
    if path == "/" then (Opened(made.address), nodes[made.address := NewDirectory(made.stale, "/", made.address)])
    else
      match Parent(nodes, root, path)
      case Fault => (Crash, nodes)
      case At(parent) =>
        if parent !in nodes then (Error(ENOENT), nodes)
        else (Opened(made.address), WithDirectory(nodes, parent, Base(path), made, up, here))
  }

  /** The answer of vfs_mkdir for a directory `name` in `d`, NULL if there is none, and what becomes of the nodes. */
  ghost predicate MakesRightly(nodes: Nodes, nodes': Nodes, r: Answer, d: nat, name: string, made: Block, up: Block,
                               here: Block)
  {
    && r == (if d == 0 then Error(ENOENT) else Opened(made.address))
    && (d == 0 ==> nodes' == nodes)
    && (d != 0 ==>
          && SameBut(nodes, nodes', {made.address, up.address, here.address, d})
          && Hangs(nodes, nodes', d, made.address) && up.address in nodes' && here.address in nodes'
          && var dir, dots, dot := nodes'[made.address], nodes'[up.address], nodes'[here.address];
             && dir.name == name && dir.directory && dir.parent == d && dir.children == [up.address, here.address]
             && dots.name == ".." && dots.directory && dots.pointsTo == d
             && dot.name == "." && dot.directory && dot.pointsTo == made.address)
  }

  /** vfs_mkdir for every path. */
  lemma MakeAnswers(nodes: Nodes, root: nat, path: string, made: Block, up: Block, here: Block)
    requires Closed(nodes) && root in nodes && ThreeBlocks(nodes, made, up, here)
    ensures var (r, nodes') := MakeDirectory(nodes, root, path, made, up, here);
      if path == "/" then
        && r == Opened(made.address) && SameBut(nodes, nodes', {made.address}) && made.address in nodes'
        && var dir := nodes'[made.address];
           dir.name == "/" && dir.directory && dir.parent == made.address && dir.children == []
      else
        match Parent(nodes, root, path)
        case Fault => r == Crash && nodes' == nodes
        case At(d) => MakesRightly(nodes, nodes', r, d, Base(path), made, up, here)
  {
    if path != "/" && Parent(nodes, root, path).At? {
      ParentIn(nodes, root, path);
      if Parent(nodes, root, path).node != 0 {
        DirectoryNodes(nodes, Parent(nodes, root, path).node, Base(path), made, up, here);
      }
    }
  }

  /** A node that hangs nowhere changes no lookup. */
  lemma LooseNode(nodes: Nodes, made: nat, node: Node, d: nat, name: string)
    requires Closed(nodes) && made !in nodes && made != 0 && d in nodes
    ensures Find(nodes[made := node], d, name) == Find(nodes, d, name)
  {
    assert NodeClosed(nodes, d) && NodeClosed(nodes, nodes[d].pointsTo);
    FirstNamedGrows(nodes, nodes[made := node], Children(nodes, d), [], name);
    FirstNamedGrows(nodes, nodes[made := node], Children(nodes, nodes[d].pointsTo), [], name);
    assert Children(nodes, d) + [] == Children(nodes, d);
    assert Children(nodes, nodes[d].pointsTo) + [] == Children(nodes, nodes[d].pointsTo);
  }

  lemma LooseKeeps(nodes: Nodes, made: nat, node: Node)
    requires Closed(nodes) && made !in nodes && made != 0 && node.children == []
    ensures Keeps(nodes, nodes[made := node])
    ensures Closed(nodes[made := node]) <==> PointersIn(nodes[made := node], node)
  {
    var nodes' := nodes[made := node];
    if PointersIn(nodes', node) {
      forall n ensures NodeClosed(nodes', n) {
        assert NodeClosed(nodes, n);
      }
    } else {
      assert !NodeClosed(nodes', made);
    }
    forall d, name | Find(nodes, d, name) != 0 ensures Find(nodes', d, name) == Find(nodes, d, name) {
      FoundSomewhere(nodes, d, name);
      LooseNode(nodes, made, node, d, name);
    }
  }

  /** The new directory answers in its parent, its entry `.` leads back to it and `..` to its parent;
      whatever was found still is, and aliases still hold no children. */
  ghost predicate Entered(nodes: Nodes, nodes': Nodes, parent: nat, name: string, made: nat, up: nat, here: nat)
  {
    && Closed(nodes') && AliasesEmpty(nodes') && Keeps(nodes, nodes') && Find(nodes', parent, name) == made
    && Find(nodes', made, "..") == up && up in nodes' && nodes'[up].pointsTo == parent
    && Find(nodes', made, ".") == here && here in nodes' && nodes'[here].pointsTo == made
  }

  /** The fields that vfs_mkdir leaves alone read as if they were empty. */
  predicate Clean(made: Block, up: Block, here: Block)
  {
    made.stale.pointsTo == 0 && up.stale.children == [] && here.stale.children == []
  }

  /** A new directory is found at its path.  Its entry `.` leads back to it and `..` to its parent, every path that led
      to a node still does, and aliases still hold no children, if and only if its blocks were clean and it is not
      made in an alias. */
  lemma MadeDirectory(nodes: Nodes, root: nat, path: string, parent: nat, made: Block, up: Block, here: Block)
    requires ThreeBlocks(nodes, made, up, here)
    requires Closed(nodes) && AliasesEmpty(nodes) && HasParent(nodes, root, path, parent)
    requires Find(nodes, parent, Base(path)) == 0
    ensures var (r, nodes') := MakeDirectory(nodes, root, path, made, up, here);
      && r == Opened(made.address) && Resolve(nodes', root, Split(path)) == made.address
      && (Entered(nodes, nodes', parent, Base(path), made.address, up.address, here.address) <==>
            Clean(made, up, here) && nodes[parent].pointsTo == 0)
  {
    ParentFound(nodes, root, path, parent);
    var nodes' := WithDirectory(nodes, parent, Base(path), made, up, here);
    DirectoryKeeps(nodes, parent, Base(path), made, up, here);
    NewPath(nodes, nodes', root, Split(path), made.address);
    if Clean(made, up, here) && nodes[parent].pointsTo == 0 {
      DirectoryAdopted(nodes, parent, Base(path), made, up, here);
    } else {
      NotClean(nodes, parent, Base(path), made, up, here);
    }
  }

  lemma NotClean(nodes: Nodes, parent: nat, name: string, made: Block, up: Block, here: Block)
    requires ThreeBlocks(nodes, made, up, here) && parent in nodes && parent != 0
    ensures AliasesEmpty(WithDirectory(nodes, parent, name, made, up, here)) ==>
              Clean(made, up, here) && nodes[parent].pointsTo == 0
  {
    var nodes' := WithDirectory(nodes, parent, name, made, up, here);
    assert nodes'[made.address].children == [] + [up.address] + [here.address];
    assert nodes'[up.address] == NewEntry(up.stale, "..", parent);
    assert nodes'[here.address] == NewEntry(here.stale, ".", made.address);
    assert nodes'[parent].children == nodes[parent].children + [made.address];
  }

  lemma NewPath(nodes: Nodes, nodes': Nodes, root: nat, segments: seq<string>, made: nat)
    requires |segments| >= 2 && Keeps(nodes, nodes')
    requires var parent := Directory(nodes, root, segments);
      parent != 0 && Find(nodes', parent, segments[|segments| - 1]) == made
    ensures Resolve(nodes', root, segments) == made
  {
    WalksKept(nodes, nodes', root, segments, |segments| - 2);
  }

  function WithDirectory(nodes: Nodes, parent: nat, name: string, made: Block, up: Block, here: Block): (r: Nodes)
    requires ThreeBlocks(nodes, made, up, here) && parent in nodes
  {
    var withDir := Adopted(nodes, parent, made.address, NewDirectory(made.stale, name, parent));
    var withUp := Adopted(withDir, made.address, up.address, NewEntry(up.stale, "..", parent));
    Adopted(withUp, made.address, here.address, NewEntry(here.stale, ".", made.address))
  }

  /** The pointers that the three blocks bring along are good. */
  ghost predicate GoodLeftovers(nodes': Nodes, made: Block, up: Block, here: Block)
  {
    && (made.stale.pointsTo == 0 || made.stale.pointsTo in nodes')
    && AllIn(nodes', up.stale.children) && AllIn(nodes', here.stale.children)
  }

  /** A new directory breaks no pointer if and only if its blocks bring no bad one along; it loses no path where aliases
      hold no children, and answers to its name where nothing did. */
  lemma DirectoryKeeps(nodes: Nodes, parent: nat, name: string, made: Block, up: Block, here: Block)
    requires ThreeBlocks(nodes, made, up, here) && parent in nodes && Closed(nodes)
    ensures var nodes' := WithDirectory(nodes, parent, name, made, up, here);
      && (Closed(nodes') <==> GoodLeftovers(nodes', made, up, here)) && (AliasesEmpty(nodes) ==> Keeps(nodes, nodes'))
      && (AliasesEmpty(nodes) && Find(nodes, parent, name) == 0 ==> Find(nodes', parent, name) == made.address)
  {
    DirectoryClosed(nodes, parent, name, made, up, here);
    if AliasesEmpty(nodes) {
      NothingShadowed(nodes, parent, name);
      DirectoryFinds(nodes, parent, name, made, up, here);
    }
  }

  lemma DirectoryClosed(nodes: Nodes, parent: nat, name: string, made: Block, up: Block, here: Block)
    requires ThreeBlocks(nodes, made, up, here) && parent in nodes && Closed(nodes)
    ensures var nodes' := WithDirectory(nodes, parent, name, made, up, here);
      Closed(nodes') <==> GoodLeftovers(nodes', made, up, here)
  {
    var nodes' := WithDirectory(nodes, parent, name, made, up, here);
    DirectoryNodes(nodes, parent, name, made, up, here);
    if GoodLeftovers(nodes', made, up, here) {
      forall n ensures NodeClosed(nodes', n) {
        assert NodeClosed(nodes, n) && NodeClosed(nodes, parent);
      }
    } else {
      assert !NodeClosed(nodes', made.address) || !NodeClosed(nodes', up.address) || !NodeClosed(nodes', here.address);
    }
  }

  /** What the nodes are afterwards. */
  lemma DirectoryNodes(nodes: Nodes, parent: nat, name: string, made: Block, up: Block, here: Block)
    requires ThreeBlocks(nodes, made, up, here) && parent in nodes
    ensures WithDirectory(nodes, parent, name, made, up, here) ==
            nodes[made.address := NewDirectory(made.stale, name, parent).(children := [up.address, here.address])]
                 [up.address := NewEntry(up.stale, "..", parent)]
                 [here.address := NewEntry(here.stale, ".", made.address)]
                 [parent := nodes[parent].(children := nodes[parent].children + [made.address])]
  {
    assert [] + [up.address] + [here.address] == [up.address, here.address];
  }

  /** The lookups that succeeded before, and that of the new directory, whatever the blocks brought along. */
  lemma DirectoryFinds(nodes: Nodes, parent: nat, name: string, made: Block, up: Block, here: Block)
    requires ThreeBlocks(nodes, made, up, here) && parent in nodes && Closed(nodes) && !Shadowed(nodes, parent, name)
    ensures Keeps(nodes, WithDirectory(nodes, parent, name, made, up, here))
    ensures AliasesEmpty(nodes) && Find(nodes, parent, name) == 0 ==>
              Find(WithDirectory(nodes, parent, name, made, up, here), parent, name) == made.address
  {
    var dir := NewDirectory(made.stale, name, parent);
    var n1, n' := Adopted(nodes, parent, made.address, dir), WithDirectory(nodes, parent, name, made, up, here);
    AdoptedKeeps(nodes, parent, made.address, dir);
    DirectoryNodes(nodes, parent, name, made, up, here);
    forall d, x | d in nodes ensures Find(n', d, x) == Find(n1, d, x) {
      SameFind(nodes, n1, n', parent, made.address, d, x);
    }
    forall d, x | Find(nodes, d, x) != 0 ensures Find(n', d, x) == Find(nodes, d, x) {
      FoundSomewhere(nodes, d, x);
    }
    AdoptedFind(nodes, parent, made.address, dir, parent, name);
  }

  /** Nodes that stay the same, and children that keep their names, make lookups stay the same. */
  lemma SameFind(nodes: Nodes, n1: Nodes, n': Nodes, parent: nat, made: nat, d: nat, x: string)
    requires Closed(nodes) && d in nodes && parent in nodes && 0 !in n1 && 0 !in n'
    requires made !in nodes && made in n1 && made in n' && n1[made].name == n'[made].name
    requires forall k :: k in nodes ==> k in n1 && k in n' && n1[k] == n'[k] && n1[k].name == nodes[k].name
    requires forall k :: k in nodes ==> n1[k].pointsTo == nodes[k].pointsTo
    requires forall k :: k in nodes ==> n1[k].children == nodes[k].children + if k == parent then [made] else []
    ensures Find(n', d, x) == Find(n1, d, x)
  {
    var q := nodes[d].pointsTo;
    assert NodeClosed(nodes, d) && NodeClosed(nodes, q);
    KidsSame(n1, n', Children(n1, d), x);
    if q in nodes {
      KidsSame(n1, n', Children(n1, q), x);
    }
  }

  lemma {:induction false} KidsSame(n1: Nodes, n': Nodes, kids: seq<nat>, x: string)
    requires forall i :: 0 <= i < |kids| ==> kids[i] in n1 && kids[i] in n' && n1[kids[i]].name == n'[kids[i]].name
    ensures FirstNamed(n', kids, x) == FirstNamed(n1, kids, x)
  {
    if kids != [] {
      KidsSame(n1, n', kids[1..], x);
    }
  }

  lemma DirectoryAdopted(nodes: Nodes, parent: nat, name: string, made: Block, up: Block, here: Block)
    requires ThreeBlocks(nodes, made, up, here) && parent in nodes && Clean(made, up, here)
    requires Closed(nodes) && AliasesEmpty(nodes) && nodes[parent].pointsTo == 0 && Find(nodes, parent, name) == 0
    ensures Entered(nodes, WithDirectory(nodes, parent, name, made, up, here), parent, name,
                    made.address, up.address, here.address)
  {
    var dir, dotdot := NewDirectory(made.stale, name, parent), NewEntry(up.stale, "..", parent);
    var dot := NewEntry(here.stale, ".", made.address);
    var n1 := Adopted(nodes, parent, made.address, dir);
    var n2 := Adopted(n1, made.address, up.address, dotdot);
    var n3 := Adopted(n2, made.address, here.address, dot);
    Adopt(nodes, parent, made.address, dir);
    NewInAlias(n1, made.address, "..");
    Adopt(n1, made.address, up.address, dotdot);
    OneKid(n2, up.address, ".");
    NoAlias(n2, made.address, ".");
    Adopt(n2, made.address, here.address, dot);
    KeepsTwice(nodes, n1, n2);
    KeepsTwice(nodes, n2, n3);
  }

  lemma KeepsTwice(a: Nodes, b: Nodes, c: Nodes)
    requires Keeps(a, b) && Keeps(b, c)
    ensures Keeps(a, c)
  {
  }

  /** Adopting where aliases hold no children. */
  lemma Adopt(nodes: Nodes, p: nat, child: nat, node: Node)
    requires Closed(nodes) && AliasesEmpty(nodes) && p in nodes && nodes[p].pointsTo == 0
    requires child !in nodes && child != 0 && node.children == [] && (node.pointsTo == 0 || node.pointsTo in nodes)
    ensures var nodes' := Adopted(nodes, p, child, node);
      && Closed(nodes') && AliasesEmpty(nodes') && Keeps(nodes, nodes')
      && (Find(nodes, p, node.name) == 0 ==> Find(nodes', p, node.name) == child)
  {
    NothingShadowed(nodes, p, node.name);
    AdoptedKeeps(nodes, p, child, node);
    AdoptedClosed(nodes, p, child, node);
    AdoptedFind(nodes, p, child, node, p, node.name);
  }

  /** A directory without entries and alias answers to nothing. */
  lemma NewInAlias(nodes: Nodes, d: nat, name: string)
    requires d in nodes && nodes[d].children == [] && nodes[d].pointsTo == 0 && 0 !in nodes
    ensures Find(nodes, d, name) == 0
  {
  }

  lemma NoAlias(nodes: Nodes, d: nat, name: string)
    requires d in nodes && nodes[d].pointsTo == 0 && 0 !in nodes
    ensures Find(nodes, d, name) == FirstNamed(nodes, nodes[d].children, name)
  {
  }

  // ----- A path that is lost ---------------------------------------------------------------------------

  function Blank(address: nat): Block
  {
    Block(address, Node("", false, 0, 0, [], 0))
  }

  /** Two different names. */
  predicate Names(d: string, x: string)
  {
    d != "" && x != "" && x != d && x != "." && x != ".."
  }

  /** The tree after vfs_mkdir("/") and vfs_mkdir("/d"). */
  function WithD(d: string): Nodes
  {
    map[1 := Node("/", true, 1, 0, [2], 0), 2 := Node(d, true, 1, 0, [3, 4], 0),
        3 := Node("..", true, 0, 1, [], 0), 4 := Node(".", true, 0, 2, [], 0)]
  }

  /** And after the creation of "/d/../x". */
  function WithX(d: string, x: string): Nodes
  {
    map[1 := Node("/", true, 1, 0, [2], 0), 2 := Node(d, true, 1, 0, [3, 4], 0),
        3 := Node("..", true, 0, 1, [5], 0), 4 := Node(".", true, 0, 2, [], 0),
        5 := Node(x, false, 3, 0, [], O_CREAT)]
  }

  /** vfs_mkdir("/d") in the empty tree. */
  lemma MakesD(d: string, path: string)
    requires d != "" && Split(path) == ["", d]
    ensures MakeDirectory(map[1 := NewDirectory(Blank(1).stale, "/", 1)], 1, path, Blank(2), Blank(3), Blank(4)) ==
            (Opened(2), WithD(d))
  {
    var nodes: Nodes := map[1 := NewDirectory(Blank(1).stale, "/", 1)];
    AbsolutePath(path);
    ParentFound(nodes, 1, path, 1);
    AddsD(d);
  }

  lemma AddsD(d: string)
    ensures WithDirectory(map[1 := NewDirectory(Blank(1).stale, "/", 1)], 1, d, Blank(2), Blank(3),
                          Blank(4)) == WithD(d)
  {
    DirectoryNodes(map[1 := NewDirectory(Blank(1).stale, "/", 1)], 1, d, Blank(2), Blank(3), Blank(4));
    assert [] + [2] == [2];
  }

  lemma FindsInD(d: string, x: string)
    requires Names(d, x)
    ensures Closed(WithD(d)) && Find(WithD(d), 1, d) == 2 && Find(WithD(d), 2, "..") == 3 && Find(WithD(d), 3, x) == 0
  {
    OneKid(WithD(d), 2, d);
    OneKid(WithD(d), 2, x);
  }

  lemma FindsX(d: string, x: string)
    requires Names(d, x)
    ensures var nodes := WithX(d, x);
      && Closed(nodes) && Find(nodes, 1, d) == 2 && Find(nodes, 2, "..") == 3 && Find(nodes, 3, x) == 5
      && Find(nodes, 1, x) == 0 && FirstNamed(nodes, Children(nodes, 1), x) == 0
  {
    OneKid(WithX(d, x), 2, d);
    OneKid(WithX(d, x), 2, x);
    OneKid(WithX(d, x), 5, x);
  }

  /** vfs_open("/d/../x") in the tree of "/d": the file becomes a child of the alias. */
  lemma MakesX(d: string, x: string, path: string)
    requires Names(d, x) && Split(path) == ["", d, "..", x]
    ensures OpenFile(WithD(d), 1, path, O_CREAT, Blank(5)) == (Opened(5), WithX(d, x))
  {
    FindsInD(d, x);
    TwoSteps(WithD(d), 1, d, "..", x);
    CreatesFile(WithD(d), 1, path, 3, O_CREAT, Blank(5));
    ParentFound(WithD(d), 1, path, 3);
    AddsX(d, x);
  }

  lemma AddsX(d: string, x: string)
    ensures Adopted(WithD(d), 3, 5, NewFile(Blank(5).stale, x, 3, O_CREAT)) == WithX(d, x)
  {
    assert WithD(d)[3].children + [5] == [5];
  }

  /** In the tree that MakesD and MakesX build, "/d/../x" leads elsewhere once a file is created as "/x". */
  lemma ShadowedPathIsLost(d: string, x: string, path: string)
    requires Names(d, x) && Split(path) == ["", x]
    ensures Resolve(WithX(d, x), 1, ["", d, "..", x]) == 5
    ensures Resolve(OpenFile(WithX(d, x), 1, path, O_CREAT, Blank(6)).1, 1, ["", d, "..", x]) == 6
  {
    FindsX(d, x);
    ThreeSteps(WithX(d, x), 1, d, "..", x);
    ParentFound(WithX(d, x), 1, path, 1);
    CreatesFile(WithX(d, x), 1, path, 1, O_CREAT, Blank(6));
    NewXIsFound(WithX(d, x), NewFile(Blank(6).stale, x, 1, O_CREAT), d, x);
  }

  lemma NewXIsFound(nodes: Nodes, file: Node, d: string, x: string)
    requires Closed(nodes) && {1, 2, 3} <= nodes.Keys && 6 !in nodes && file.name == x && Names(d, x)
    requires nodes[1].pointsTo == 0 && nodes[2].pointsTo == 0 && nodes[3].pointsTo == 1
    requires Find(nodes, 1, d) == 2 && Find(nodes, 2, "..") == 3 && FirstNamed(nodes, Children(nodes, 1), x) == 0
    ensures Resolve(Adopted(nodes, 1, 6, file), 1, ["", d, "..", x]) == 6
  {
    AdoptedFind(nodes, 1, 6, file, 1, d);
    AdoptedFind(nodes, 1, 6, file, 2, "..");
    AdoptedFind(nodes, 1, 6, file, 3, x);
    ThreeSteps(Adopted(nodes, 1, 6, file), 1, d, "..", x);
  }

  lemma TwoSteps(nodes: Nodes, start: nat, a: string, b: string, c: string)
    requires start != 0 && Find(nodes, start, a) != 0
    ensures Directory(nodes, start, ["", a, b, c]) == Find(nodes, Find(nodes, start, a), b)
  {
    var s := ["", a, b, c];
    WalkOnce(nodes, start, s, 0, 1);
    WalkOnce(nodes, start, s, 1, 2);
  }

  lemma ThreeSteps(nodes: Nodes, start: nat, a: string, b: string, c: string)
    requires start != 0 && Find(nodes, start, a) != 0 && Find(nodes, Find(nodes, start, a), b) != 0
    ensures Resolve(nodes, start, ["", a, b, c]) == Find(nodes, Find(nodes, Find(nodes, start, a), b), c)
  {
    var s := ["", a, b, c];
    WalkOnce(nodes, start, s, 0, 1);
    WalkOnce(nodes, start, s, 1, 2);
    WalkOnce(nodes, start, s, 2, 3);
  }

  // ----- The tree as the kernel updates it ---------------------------------------------------------

  class FileTree {
    var nodes: Nodes
    var root: nat
    const strtok: Tokenizer

    ghost predicate Valid()
      reads this, strtok, strtok.text
    {
      Closed(nodes) && root in nodes && strtok.Valid()
    }

    /** vfs_mkdir("/"). */
    constructor (block: Block)
      requires block.address != 0
      ensures Valid() <==> block.stale.pointsTo == 0 || block.stale.pointsTo == block.address
      ensures strtok.Valid() && root == block.address && AliasesEmpty(nodes)
      ensures nodes == map[block.address := NewDirectory(block.stale, "/", block.address)]
      ensures fresh(strtok) && fresh(strtok.text)
    {
      root, nodes := block.address, map[block.address := NewDirectory(block.stale, "/", block.address)];
      strtok := new Tokenizer();
      new;
      assert NodeClosed(nodes, root) <==> block.stale.pointsTo == 0 || block.stale.pointsTo == root;
    }

    /** vfs_find_node. */
    method FindNode(start: nat, name: string) returns (node: nat)
      requires Valid() && start in nodes
      ensures node == Find(nodes, start, name)
    {
      node := 0;
      assert NodeClosed(nodes, start);
      if nodes[start].pointsTo != 0 {
        assert NodeClosed(nodes, nodes[start].pointsTo);
        node := Search(nodes[nodes[start].pointsTo].children, name);
        if node != 0 {
          return;
        }
      }
      node := Search(nodes[start].children, name);
    }

    method Search(kids: seq<nat>, name: string) returns (node: nat)
      requires Valid() && AllIn(nodes, kids)
      ensures node == FirstNamed(nodes, kids, name)
    {
      for i := 0 to |kids|
        invariant forall j :: 0 <= j < i ==> nodes[kids[j]].name != name
      {
        if name == nodes[kids[i]].name {
          FirstNamedIs(nodes, kids, name, i);
          return kids[i];
        }
      }
      FirstNamedIs(nodes, kids, name, |kids|);
      return 0;
    }

    /** vfs_get_parent. */
    method GetParent(start: nat, path: string) returns (r: Outcome)
      requires Valid() && start in nodes && NUL !in path
      modifies strtok, strtok.text
      ensures Valid() && r == Parent(nodes, start, path) && fresh(strtok.text)
      ensures r == if |Split(path)| == 1 then At(start) else Landing(nodes, start, [""] + Split(path)[1..])
    {
      ParentIsLanding(nodes, start, Split(path));
      var segments := ParsePath(strtok, path);
      var node, i := start, 0;
      while i < |segments| - 1
        invariant Valid() && i <= |segments| && (node == 0 || node in nodes) && fresh(strtok.text)
        invariant Parent(nodes, start, path) == ParentFrom(nodes, start, node, segments, i)
        decreases |segments| - i
      {
        if segments[i] != "" {
          if i + 2 == |segments| {
            return At(node);
          }
          if node == 0 {
            return Fault;
          }
          node := FindNode(node, segments[i + 1]);
        } else {
          if |segments| == 2 {
            return At(start);
          }
          node := FindNode(start, segments[i + 1]);
        }
        i := i + 1;
      }
      r := At(node);
    }

    method BaseName(path: string) returns (name: string)
      requires NUL !in path
      ensures name == Base(path)
    {
      var m := path + [NUL];
      LenIs(m, 0, |path|);
      assert m[0..0 + |path|] == path;
      var p := Basename(m);
      name := CStr(m, p);
      assert path == "" ==> name == "";
      assert path[0..] == path;
    }

    /** vfs_open. */
    method Open(path: string, flags: Flags, spare: Block) returns (r: Answer)
      requires Valid() && NUL !in path && spare.address !in nodes && spare.address != 0
      modifies this`nodes, strtok, strtok.text
      ensures strtok.Valid() && root in nodes && (r, nodes) == OpenFile(old(nodes), root, path, flags, spare)
      ensures Valid() <==> (spare.address in nodes ==> PointersIn(nodes, spare.stale))
      ensures spare.address !in nodes || old(AliasesEmpty(nodes)) ==> Keeps(old(nodes), nodes)
    {
      var found := GetParent(root, path);
      OpenKeeps(nodes, root, path, flags, spare);
      CreatesUnshadowed(nodes, root, path, flags, spare);
      if found == Fault {
        return Crash;
      }
      var parent := found.node;
      if parent == 0 {
        return Error(ENOENT);
      }
      ParentIn(nodes, root, path);
      var name := BaseName(path);
      r := OpenIn(parent, name, flags, spare);
    }

    /** vfs_open once the directory and the name are known. */
    method OpenIn(parent: nat, name: string, flags: Flags, spare: Block) returns (r: Answer)
      requires Valid() && parent in nodes && spare.address !in nodes
      modifies this`nodes
      ensures (r, nodes) == OpenAt(old(nodes), parent, name, flags, spare)
    {
      var node := FindNode(parent, name);
      if flags & O_DIRECTORY == 0 && node != 0 {
        if nodes[node].directory {
          return Error(EISDIR);
        }
      }
      if flags & O_CREAT != 0 {
        if node != 0 {
          nodes := nodes[node := nodes[node].(mode := flags)];
          return Opened(node);
        }
        nodes := nodes[spare.address := NewFile(spare.stale, name, parent, flags)];
        nodes := nodes[parent := nodes[parent].(children := nodes[parent].children + [spare.address])];
        return Opened(spare.address);
      }
      if node == 0 {
        return Error(ENOENT);
      }
      nodes := nodes[node := nodes[node].(mode := flags)];
      if nodes[node].pointsTo != 0 {
        return Opened(nodes[node].pointsTo);
      }
      r := Opened(node);
    }

    /** vfs_mkdir: `made`, `up` and `here` are the blocks malloc gives. */
    method MkDir(path: string, made: Block, up: Block, here: Block) returns (r: Answer)
      requires Valid() && NUL !in path && ThreeBlocks(nodes, made, up, here)
      modifies this`nodes, strtok, strtok.text
      ensures strtok.Valid() && root in nodes && (r, nodes) == MakeDirectory(old(nodes), root, path, made, up, here)
      ensures path != "/" ==> (Valid() <==> (made.address in nodes ==> GoodLeftovers(nodes, made, up, here)))
      ensures path == "/" ==> (Valid() <==> made.stale.pointsTo == 0 || made.stale.pointsTo in nodes)
      ensures made.address !in nodes || path == "/" || old(AliasesEmpty(nodes)) ==> Keeps(old(nodes), nodes)
    {
      if path == "/" {
        LooseKeeps(nodes, made.address, NewDirectory(made.stale, "/", made.address));
        nodes := nodes[made.address := NewDirectory(made.stale, "/", made.address)];
        return Opened(made.address);
      }
      var found := GetParent(root, path);
      if found == Fault {
        return Crash;
      }
      var parent := found.node;
      var name := BaseName(path);
      if parent == 0 {
        return Error(ENOENT);
      }
      ParentIn(nodes, root, path);
      DirectoryKeeps(nodes, parent, name, made, up, here);
      DirectoryNodes(nodes, parent, name, made, up, here);
      MakeIn(parent, name, made, up, here);
      r := Opened(made.address);
    }

    /** The writes of vfs_mkdir, in their order. */
    method MakeIn(parent: nat, name: string, made: Block, up: Block, here: Block)
      requires ThreeBlocks(nodes, made, up, here) && parent in nodes
      modifies this`nodes
      ensures nodes == WithDirectory(old(nodes), parent, name, made, up, here)
    {
      var dir := made.address;
      DirectoryNodes(nodes, parent, name, made, up, here);
      nodes := nodes[dir := NewDirectory(made.stale, name, parent)];
      nodes := nodes[up.address := NewEntry(up.stale, "..", parent)];
      nodes := nodes[here.address := NewEntry(here.stale, ".", dir)];
      nodes := nodes[dir := nodes[dir].(children := nodes[dir].children + [up.address])];
      nodes := nodes[dir := nodes[dir].(children := nodes[dir].children + [here.address])];
      nodes := nodes[parent := nodes[parent].(children := nodes[parent].children + [dir])];
    }
  }

  /** vfs_get_parent ends at a node or at NULL. */
  lemma ParentIn(nodes: Nodes, root: nat, path: string)
    requires root in nodes && Parent(nodes, root, path).At?
    ensures var p := Parent(nodes, root, path).node; p == 0 || p in nodes
  {
    ParentFromIn(nodes, root, root, Split(path), 0);
  }

  lemma {:induction false} ParentFromIn(nodes: Nodes, start: nat, node: nat, segments: seq<string>, i: nat)
    requires start in nodes && (node == 0 || node in nodes) && ParentFrom(nodes, start, node, segments, i).At?
    ensures var p := ParentFrom(nodes, start, node, segments, i).node; p == 0 || p in nodes
    decreases |segments| - i
  {
    if i + 1 < |segments| {
      if segments[i] != "" {
        if i + 2 != |segments| {
          ParentFromIn(nodes, start, Find(nodes, node, segments[i + 1]), segments, i + 1);
        }
      } else if |segments| != 2 {
        ParentFromIn(nodes, start, Find(nodes, start, segments[i + 1]), segments, i + 1);
      }
    }
  }
}
