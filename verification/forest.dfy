/** The manager forest: link rows, the tree hanging below a node, and who
    descends from whom. */
module Forest {
  import opened Prelude

  type NodeId = string

  datatype NodeType = Agent | Human

  datatype Node = Node(id: NodeId, name: string, kind: NodeType, hasWorkspace: bool)

  datatype Link = Link(parent: NodeId, child: NodeId)

  /** `nodes` lists the node rows in creation order; `links` holds the hierarchy
      rows, which are unique by (parent, child). */
  datatype Org = Org(nodes: seq<Node>, links: set<Link>)

  datatype Tree = Tree(root: Node, kids: seq<Tree>)

  ghost predicate SingleManager(org: Org) {
    forall a, b :: a in org.links && b in org.links && a.child == b.child ==> a == b
  }

  ghost predicate DistinctIds(nodes: seq<Node>) {
    forall i, j :: 0 <= i < j < |nodes| ==> nodes[i].id != nodes[j].id
  }

  ghost function NodeIds(org: Org): set<NodeId> {
    set n | n in org.nodes :: n.id
  }

  /** What the tables' keys and foreign keys guarantee. */
  ghost predicate ValidOrg(org: Org) {
    && DistinctIds(org.nodes)
    && SingleManager(org)
    && (forall l :: l in org.links ==> l.parent in NodeIds(org) && l.child in NodeIds(org))
  }

  function SelectChildren(nodes: seq<Node>, links: set<Link>, parent: NodeId): seq<Node> {
    if nodes == [] then []
    else (if Link(parent, nodes[0].id) in links then [nodes[0]] else [])
         + SelectChildren(nodes[1..], links, parent)
  }

  /** The direct reports of a node, in creation order. */
  function Children(org: Org, parent: NodeId): seq<Node> {
    SelectChildren(org.nodes, org.links, parent)
  }

  lemma {:induction false} SelectChildrenSpec(nodes: seq<Node>, links: set<Link>, parent: NodeId)
    requires DistinctIds(nodes)
    ensures DistinctIds(SelectChildren(nodes, links, parent))
    ensures forall n :: n in SelectChildren(nodes, links, parent) <==> n in nodes && Link(parent, n.id) in links
  {
    if nodes != [] {
      SelectChildrenSpec(nodes[1..], links, parent);
      var rest := SelectChildren(nodes[1..], links, parent);
      assert forall n :: n in rest ==> n.id != nodes[0].id;
    }
  }

  ghost predicate Before(nodes: seq<Node>, x: Node, y: Node) {
    exists a, b :: 0 <= a < b < |nodes| && nodes[a] == x && nodes[b] == y
  }

  /** Of two reports the one created earlier comes first. */
  lemma {:induction false} ChildrenInOrder(nodes: seq<Node>, links: set<Link>, parent: NodeId, x: Node, y: Node)
    requires Before(nodes, x, y) && Link(parent, x.id) in links && Link(parent, y.id) in links
    ensures Before(SelectChildren(nodes, links, parent), x, y)
  {
    var a, b :| 0 <= a < b < |nodes| && nodes[a] == x && nodes[b] == y;
    var rest, found := SelectChildren(nodes[1..], links, parent), SelectChildren(nodes, links, parent);
    assert nodes[1..][b - 1] == y;
    if a == 0 {
      ChildAt(nodes[1..], links, parent, b - 1);
      var k :| 0 <= k < |rest| && rest[k] == y;
      assert found[0] == x && found[k + 1] == y;
    } else {
      assert nodes[1..][a - 1] == x;
      ChildrenInOrder(nodes[1..], links, parent, x, y);
      var i, j :| 0 <= i < j < |rest| && rest[i] == x && rest[j] == y;
      var shift := |found| - |rest|;
      assert found[shift + i] == x && found[shift + j] == y;
    }
  }

  lemma {:induction false} ChildAt(nodes: seq<Node>, links: set<Link>, parent: NodeId, i: nat)
    requires i < |nodes| && Link(parent, nodes[i].id) in links
    ensures nodes[i] in SelectChildren(nodes, links, parent)
  {
    if i > 0 { ChildAt(nodes[1..], links, parent, i - 1); }
  }

  // ---------------------------------------------------------------------
  // Chains of links
  // ---------------------------------------------------------------------

  /** Each element directly manages the next. */
  ghost predicate Chain(links: set<Link>, path: seq<NodeId>) {
    && path != []
    && forall i :: 0 <= i < |path| - 1 ==> Link(path[i], path[i + 1]) in links
  }

  ghost predicate ChainFromTo(links: set<Link>, path: seq<NodeId>, a: NodeId, b: NodeId) {
    Chain(links, path) && path[0] == a && path[|path| - 1] == b
  }

  /** `b` is below `a` by at least one link. */
  ghost predicate Descends(org: Org, a: NodeId, b: NodeId) {
    exists path :: |path| >= 2 && ChainFromTo(org.links, path, a, b)
  }

  ghost predicate Acyclic(org: Org) {
    forall id :: !Descends(org, id, id)
  }

  lemma DescendsStep(org: Org, a: NodeId, b: NodeId, c: NodeId)
    requires a == b || Descends(org, a, b)
    requires Link(b, c) in org.links
    ensures Descends(org, a, c)
  {
    if a == b {
      assert ChainFromTo(org.links, [a, c], a, c);
    } else {
      var path :| |path| >= 2 && ChainFromTo(org.links, path, a, b);
      assert ChainFromTo(org.links, path + [c], a, c);
    }
  }

  lemma DescendsTrans(org: Org, a: NodeId, b: NodeId, c: NodeId)
    requires Descends(org, a, b) && Descends(org, b, c)
    ensures Descends(org, a, c)
  {
    var p :| |p| >= 2 && ChainFromTo(org.links, p, a, b);
    var q :| |q| >= 2 && ChainFromTo(org.links, q, b, c);
    assert ChainFromTo(org.links, p + q[1..], a, c);
  }

  // ---------------------------------------------------------------------
  // Trees
  // ---------------------------------------------------------------------

  function Roots(ts: seq<Tree>): seq<Node> {
    if ts == [] then [] else [ts[0].root] + Roots(ts[1..])
  }

  lemma {:induction false} RootsAt(ts: seq<Tree>)
    ensures |Roots(ts)| == |ts|
    ensures forall i :: 0 <= i < |ts| ==> Roots(ts)[i] == ts[i].root
  {
    if ts != [] { RootsAt(ts[1..]); }
  }

  /** `t` is exactly the organisation below its root. */
  ghost predicate IsTree(org: Org, t: Tree) {
    && t.root in org.nodes
    && Roots(t.kids) == Children(org, t.root.id)
    && forall k :: k in t.kids ==> IsTree(org, k)
  }

  /** Node ids in the order the waterfall visits them. */
  function Ids(t: Tree): seq<NodeId> {
    [t.root.id] + IdsAll(t.kids)
  }

  function IdsAll(ts: seq<Tree>): seq<NodeId> {
    if ts == [] then [] else Ids(ts[0]) + IdsAll(ts[1..])
  }

  lemma {:induction false} IdsAllAppend(a: seq<Tree>, b: seq<Tree>)
    ensures IdsAll(a + b) == IdsAll(a) + IdsAll(b)
  {
    if a == [] {
      assert a + b == b;
    } else {
      IdsAllAppend(a[1..], b);
      assert (a + b)[1..] == a[1..] + b && (a + b)[0] == a[0];
      HeadInFront(IdsAll(a + b), Ids(a[0]), IdsAll(a[1..] + b), IdsAll(a[1..]), IdsAll(b));
    }
  }

  lemma {:induction false} IdsAllMember(ts: seq<Tree>, x: NodeId)
    ensures x in IdsAll(ts) <==> exists i :: 0 <= i < |ts| && x in Ids(ts[i])
  {
    if ts != [] { IdsAllMember(ts[1..], x); }
  }

  /** A kid of a valid tree is a valid tree whose root reports to the root. */
  lemma KidLink(org: Org, t: Tree, i: nat)
    requires ValidOrg(org) && IsTree(org, t) && i < |t.kids|
    ensures IsTree(org, t.kids[i])
    ensures Link(t.root.id, t.kids[i].root.id) in org.links
  {
    RootsAt(t.kids);
    SelectChildrenSpec(org.nodes, org.links, t.root.id);
    assert t.kids[i] in t.kids;
    assert Roots(t.kids)[i] in Children(org, t.root.id);
  }

  /** Every direct report of the root is the root of a kid. */
  lemma LinkKid(org: Org, t: Tree, c: NodeId) returns (i: nat)
    requires ValidOrg(org) && IsTree(org, t) && Link(t.root.id, c) in org.links
    ensures i < |t.kids| && t.kids[i].root.id == c && IsTree(org, t.kids[i])
  {
    RootsAt(t.kids);
    SelectChildrenSpec(org.nodes, org.links, t.root.id);
    var n :| n in org.nodes && n.id == c;
    assert n in Roots(t.kids);
    i :| 0 <= i < |t.kids| && Roots(t.kids)[i] == n;
    assert t.kids[i] in t.kids;
  }

  /** There is only one tree below a node. */
  lemma {:induction false} TreeUnique(org: Org, s: Tree, t: Tree)
    requires ValidOrg(org) && IsTree(org, s) && IsTree(org, t) && s.root.id == t.root.id
    ensures s == t
    decreases s
  {
    RootsAt(s.kids);
    RootsAt(t.kids);
    forall i | 0 <= i < |s.kids| ensures s.kids[i] == t.kids[i] {
      assert s.kids[i] in s.kids && t.kids[i] in t.kids;
      assert Roots(s.kids)[i] == Roots(t.kids)[i];
      TreeUnique(org, s.kids[i], t.kids[i]);
    }
    assert s.kids == t.kids;
    assert s.root == t.root by {
      var i :| 0 <= i < |org.nodes| && org.nodes[i] == s.root;
      var j :| 0 <= j < |org.nodes| && org.nodes[j] == t.root;
    }
  }

  /** The subtree rooted at the end of a chain that starts at the root. */
  lemma {:induction false} Subtree(org: Org, t: Tree, path: seq<NodeId>) returns (s: Tree)
    requires ValidOrg(org) && IsTree(org, t)
    requires Chain(org.links, path) && path[0] == t.root.id
    ensures IsTree(org, s) && s.root.id == path[|path| - 1]
    ensures s.root.id in Ids(t)
    ensures |path| == 1 ==> s == t
    ensures |path| >= 2 ==> |Ids(s)| < |Ids(t)|
    decreases |path|
  {
    if |path| == 1 {
      s := t;
    } else {
      assert Link(path[0], path[1]) in org.links;
      var i := LinkKid(org, t, path[1]);
      s := Subtree(org, t.kids[i], path[1..]);
      IdsAllMember(t.kids, s.root.id);
      KidSmaller(t, i);
    }
  }

  lemma {:induction false} KidsLength(ts: seq<Tree>, i: nat)
    requires i < |ts|
    ensures |Ids(ts[i])| <= |IdsAll(ts)|
  {
    if i > 0 { KidsLength(ts[1..], i - 1); }
  }

  lemma KidSmaller(t: Tree, i: nat)
    requires i < |t.kids|
    ensures |Ids(t.kids[i])| < |Ids(t)|
  {
    KidsLength(t.kids, i);
  }

  /** A node with a finite tree below it is not its own descendant. */
  lemma TreeImpliesNoCycle(org: Org, t: Tree)
    requires ValidOrg(org) && IsTree(org, t)
    ensures !Descends(org, t.root.id, t.root.id)
  {
    if Descends(org, t.root.id, t.root.id) {
      var path :| |path| >= 2 && ChainFromTo(org.links, path, t.root.id, t.root.id);
      var s := Subtree(org, t, path);
      TreeUnique(org, s, t);
      assert false;
    }
  }

  // Growing the tree: the chain from the root to the node at hand never
  // repeats, so it cannot leave the finite set of nodes.

  ghost predicate GrowthChain(org: Org, path: seq<NodeId>) {
    && ValidOrg(org)
    && Chain(org.links, path)
    && NoDup(path)
    && (forall x :: x in path ==> x in NodeIds(org))
    && !Descends(org, path[0], path[0])
  }

  lemma ExtendChain(org: Org, path: seq<NodeId>, c: NodeId)
    requires GrowthChain(org, path) && Link(path[|path| - 1], c) in org.links
    ensures GrowthChain(org, path + [c])
    ensures NodeIds(org) - Elements(path + [c]) < NodeIds(org) - Elements(path)
  {
    var longer := path + [c];
    assert ChainFromTo(org.links, longer, path[0], c);
    assert c != path[0];
    forall i | 1 <= i < |path| ensures path[i] != c {
      assert Link(path[i - 1], path[i]) in org.links;
      assert path[i - 1] != path[|path| - 1];
    }
    assert c in NodeIds(org) - Elements(path);
    assert Elements(longer) == Elements(path) + {c};
  }

  ghost function Grow(org: Org, path: seq<NodeId>, n: Node): (t: Tree)
    requires GrowthChain(org, path) && n in org.nodes && n.id == path[|path| - 1]
    ensures t.root == n && IsTree(org, t)
    decreases NodeIds(org) - Elements(path), |org.nodes| + 1
  {
    SelectChildrenSpec(org.nodes, org.links, n.id);
    SelectChildrenLength(org.nodes, org.links, n.id);
    Tree(n, GrowAll(org, path, Children(org, n.id)))
  }

  ghost function GrowAll(org: Org, path: seq<NodeId>, ns: seq<Node>): (ts: seq<Tree>)
    requires GrowthChain(org, path)
    requires forall n :: n in ns ==> n in org.nodes && Link(path[|path| - 1], n.id) in org.links
    ensures Roots(ts) == ns && forall t :: t in ts ==> IsTree(org, t)
    decreases NodeIds(org) - Elements(path), |ns|
  {
    if ns == [] then []
    else
      ExtendChain(org, path, ns[0].id);
      [Grow(org, path + [ns[0].id], ns[0])] + GrowAll(org, path, ns[1..])
  }

  lemma {:induction false} SelectChildrenLength(nodes: seq<Node>, links: set<Link>, parent: NodeId)
    ensures |SelectChildren(nodes, links, parent)| <= |nodes|
  {
    if nodes != [] { SelectChildrenLength(nodes[1..], links, parent); }
  }

  ghost predicate HasTree(org: Org, n: Node) {
    exists t :: IsTree(org, t) && t.root == n
  }

  /** The recursion below a node is finite exactly when the node is not its own
      descendant: with one manager per child, a cycle can only be entered
      through the node itself. */
  lemma FiniteBelowIff(org: Org, n: Node)
    requires ValidOrg(org) && n in org.nodes
    ensures HasTree(org, n) <==> !Descends(org, n.id, n.id)
  {
    if HasTree(org, n) {
      var t :| IsTree(org, t) && t.root == n;
      TreeImpliesNoCycle(org, t);
    }
    if !Descends(org, n.id, n.id) {
      assert GrowthChain(org, [n.id]);
      var t := Grow(org, [n.id], n);
      assert IsTree(org, t) && t.root == n;
    }
  }

  // ---------------------------------------------------------------------
  // Each descendant once
  // ---------------------------------------------------------------------

  lemma {:induction false} IdsDescend(org: Org, t: Tree, x: NodeId)
    requires ValidOrg(org) && IsTree(org, t) && x in Ids(t)
    ensures x == t.root.id || Descends(org, t.root.id, x)
    decreases t
  {
    if x != t.root.id {
      IdsAllMember(t.kids, x);
      var i :| 0 <= i < |t.kids| && x in Ids(t.kids[i]);
      KidLink(org, t, i);
      IdsDescend(org, t.kids[i], x);
      DescendsStep(org, t.root.id, t.root.id, t.kids[i].root.id);
      if x != t.kids[i].root.id {
        DescendsTrans(org, t.root.id, t.kids[i].root.id, x);
      }
    }
  }

  /** The tree lists its root and all the root's descendants, nothing else. */
  lemma IdsAreDescendants(org: Org, t: Tree)
    requires ValidOrg(org) && IsTree(org, t)
    ensures forall x :: x in Ids(t) <==> x == t.root.id || Descends(org, t.root.id, x)
  {
    forall x ensures x in Ids(t) <==> x == t.root.id || Descends(org, t.root.id, x) {
      if x in Ids(t) { IdsDescend(org, t, x); }
      if Descends(org, t.root.id, x) {
        var path :| |path| >= 2 && ChainFromTo(org.links, path, t.root.id, x);
        var s := Subtree(org, t, path);
      }
    }
  }

  /** In a tree, the manager of any node but the root is in the tree too. */
  lemma {:induction false} ManagerInside(org: Org, t: Tree, x: NodeId, m: NodeId)
    requires ValidOrg(org) && IsTree(org, t) && x in Ids(t) && x != t.root.id
    requires Link(m, x) in org.links
    ensures m in Ids(t)
    decreases t
  {
    IdsAllMember(t.kids, x);
    var i :| 0 <= i < |t.kids| && x in Ids(t.kids[i]);
    KidLink(org, t, i);
    if x == t.kids[i].root.id {
      assert Link(m, x) == Link(t.root.id, x);
    } else {
      ManagerInside(org, t.kids[i], x, m);
      IdsAllMember(t.kids, m);
    }
  }

  lemma RootNotInKid(org: Org, t: Tree, i: nat)
    requires ValidOrg(org) && IsTree(org, t) && i < |t.kids|
    ensures t.root.id !in Ids(t.kids[i])
  {
    KidLink(org, t, i);
    TreeImpliesNoCycle(org, t);
    if t.root.id in Ids(t.kids[i]) {
      IdsDescend(org, t.kids[i], t.root.id);
      DescendsStep(org, t.root.id, t.root.id, t.kids[i].root.id);
      if t.root.id != t.kids[i].root.id {
        DescendsTrans(org, t.root.id, t.kids[i].root.id, t.root.id);
      }
      assert false;
    }
  }

  /** Two trees whose roots report to the same manager, outside both, share no node. */
  lemma {:induction false} SiblingsDisjoint(org: Org, a: Tree, b: Tree, m: NodeId, x: NodeId)
    requires ValidOrg(org) && IsTree(org, a) && IsTree(org, b)
    requires Link(m, a.root.id) in org.links
    requires m !in Ids(b) && b.root.id !in Ids(a)
    requires x in Ids(b)
    ensures x !in Ids(a)
    decreases b
  {
    if x != b.root.id {
      IdsAllMember(b.kids, x);
      var i :| 0 <= i < |b.kids| && x in Ids(b.kids[i]);
      KidLink(org, b, i);
      var c := b.kids[i].root.id;
      assert m !in Ids(b.kids[i]) by { IdsAllMember(b.kids, m); }
      assert c !in Ids(a) by {
        if c in Ids(a) {
          if c != a.root.id {
            ManagerInside(org, a, c, b.root.id);
          }
          assert false;
        }
      }
      SiblingsDisjoint(org, a, b.kids[i], m, x);
    }
  }

  lemma KidsDisjoint(org: Org, t: Tree, i: nat, j: nat, x: NodeId)
    requires ValidOrg(org) && IsTree(org, t) && i < |t.kids| && j < |t.kids| && i != j
    requires x in Ids(t.kids[j])
    ensures x !in Ids(t.kids[i])
  {
    KidLink(org, t, i);
    KidLink(org, t, j);
    RootNotInKid(org, t, i);
    RootNotInKid(org, t, j);
    RootsAt(t.kids);
    SelectChildrenSpec(org.nodes, org.links, t.root.id);
    assert Roots(t.kids)[i].id != Roots(t.kids)[j].id;
    assert t.kids[j].root.id !in Ids(t.kids[i]) by {
      if t.kids[j].root.id in Ids(t.kids[i]) {
        ManagerInside(org, t.kids[i], t.kids[j].root.id, t.root.id);
        assert false;
      }
    }
    SiblingsDisjoint(org, t.kids[i], t.kids[j], t.root.id, x);
  }

  lemma NoDupAppend<T>(a: seq<T>, b: seq<T>)
    requires NoDup(a) && NoDup(b) && forall x :: x in b ==> x !in a
    ensures NoDup(a + b)
  {
    forall i, j | 0 <= i < j < |a + b| ensures (a + b)[i] != (a + b)[j] {
      if i < |a| && |a| <= j {
        assert b[j - |a|] in b;
      }
    }
  }

  lemma {:induction false} KidsDistinct(org: Org, t: Tree, from: nat)
    requires ValidOrg(org) && IsTree(org, t) && from <= |t.kids|
    ensures NoDup(IdsAll(t.kids[from..]))
    decreases t, 0, |t.kids| - from
  {
    if from < |t.kids| {
      KidLink(org, t, from);
      IdsDistinct(org, t.kids[from]);
      KidsDistinct(org, t, from + 1);
      assert t.kids[from..][1..] == t.kids[from + 1..];
      forall x | x in IdsAll(t.kids[from + 1..]) ensures x !in Ids(t.kids[from]) {
        IdsAllMember(t.kids[from + 1..], x);
        var j :| 0 <= j < |t.kids[from + 1..]| && x in Ids(t.kids[from + 1..][j]);
        KidsDisjoint(org, t, from, from + 1 + j, x);
      }
      NoDupAppend(Ids(t.kids[from]), IdsAll(t.kids[from + 1..]));
    }
  }

  /** Sibling subtrees are disjoint, so the recursion meets every node once. */
  lemma {:induction false} IdsDistinct(org: Org, t: Tree)
    requires ValidOrg(org) && IsTree(org, t)
    ensures NoDup(Ids(t))
    decreases t, 1
  {
    KidsDistinct(org, t, 0);
    assert t.kids[0..] == t.kids;
    forall x | x in IdsAll(t.kids) ensures x !in [t.root.id] {
      IdsAllMember(t.kids, x);
      var i :| 0 <= i < |t.kids| && x in Ids(t.kids[i]);
      RootNotInKid(org, t, i);
    }
    NoDupAppend([t.root.id], IdsAll(t.kids));
  }

  // ---------------------------------------------------------------------
  // Linking
  // ---------------------------------------------------------------------

  datatype LinkError = UnknownNode | AlreadyManaged(manager: NodeId)

  class HierarchyStore {
    var org: Org

    constructor (nodes: seq<Node>)
      requires DistinctIds(nodes)
      ensures org == Org(nodes, {}) && ValidOrg(org)
    {
      org := Org(nodes, {});
    }

    /** Adds a manager link, or reports the manager the child already has. */
    method LinkManager(parent: NodeId, child: NodeId) returns (r: Result<Link, LinkError>)
      requires ValidOrg(org)
      modifies this`org
      ensures ValidOrg(org) && org.nodes == old(org.nodes)
      ensures r == Ok(Link(parent, child)) <==>
                && parent in NodeIds(org) && child in NodeIds(org)
                && forall l :: l in old(org.links) && l.child == child ==> l.parent == parent
      ensures r.Ok? ==> org.links == old(org.links) + {Link(parent, child)}
      ensures r.Err? ==> org == old(org)
      ensures r.Err? && r.error.AlreadyManaged? ==>
                r.error.manager != parent && Link(r.error.manager, child) in org.links
    {
      if existing :| existing in org.links && existing.child == child {
        if existing.parent == parent {
          return Ok(existing);
        }
        return Err(AlreadyManaged(existing.parent));
      }
      var knownParent := exists n :: n in org.nodes && n.id == parent;
      var knownChild := exists n :: n in org.nodes && n.id == child;
      if !knownParent || !knownChild {
        return Err(UnknownNode);
      }
      org := org.(links := org.links + {Link(parent, child)});
      r := Ok(Link(parent, child));
    }
  }

  /** After the last use of the new link, a chain runs over old links only. */
  lemma {:induction false} AfterNewLink(org: Org, l: Link, path: seq<NodeId>)
    requires Chain(org.links + {l}, path)
    ensures Chain(org.links, path)
         || l.child == path[|path| - 1] || Descends(org, l.child, path[|path| - 1])
  {
    if |path| >= 2 {
      AfterNewLink(org, l, path[1..]);
      if Chain(org.links, path[1..]) {
        if Link(path[0], path[1]) !in org.links && |path| > 2 {
          assert ChainFromTo(org.links, path[1..], l.child, path[|path| - 1]);
        }
      }
    }
  }

  /** Before the first use of the new link, a chain runs over old links only. */
  lemma {:induction false} BeforeNewLink(org: Org, l: Link, path: seq<NodeId>)
    requires Chain(org.links + {l}, path)
    ensures Chain(org.links, path)
         || l.parent == path[0] || Descends(org, path[0], l.parent)
  {
    var n := |path|;
    if n >= 2 {
      BeforeNewLink(org, l, path[..n - 1]);
      if Chain(org.links, path[..n - 1]) {
        assert Link(path[n - 2], path[n - 1]) in org.links + {l};
        if Link(path[n - 2], path[n - 1]) !in org.links && n > 2 {
          assert ChainFromTo(org.links, path[..n - 1], path[0], l.parent);
        }
      }
    }
  }

  /** Linking does not look for cycles; it keeps the forest free of them exactly
      when the new manager is neither the child nor below it. */
  lemma LinkKeepsAcyclicIff(org: Org, parent: NodeId, child: NodeId)
    requires Acyclic(org)
    ensures var linked := org.(links := org.links + {Link(parent, child)});
            Acyclic(linked) <==> parent != child && !Descends(org, child, parent)
  {
    var l := Link(parent, child);
    var linked := org.(links := org.links + {l});
    if parent == child {
      assert ChainFromTo(linked.links, [child, child], child, child);
      assert Descends(linked, child, child);
    } else if Descends(org, child, parent) {
      var path :| |path| >= 2 && ChainFromTo(org.links, path, child, parent);
      assert ChainFromTo(linked.links, path + [child], child, child);
      assert Descends(linked, child, child);
    } else {
      forall x ensures !Descends(linked, x, x) {
        if Descends(linked, x, x) {
          var path :| |path| >= 2 && ChainFromTo(linked.links, path, x, x);
          AfterNewLink(org, l, path);
          BeforeNewLink(org, l, path);
          assert !Descends(org, x, x);
          assert Chain(org.links, path) == ChainFromTo(org.links, path, x, x);
          if child != x && parent != x {
            DescendsTrans(org, child, x, parent);
          }
          assert false;
        }
      }
    }
  }
}
