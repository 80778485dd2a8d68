/** Which agents a manager may act on: a queue walk over the forest that keeps
    no set of visited nodes. */
module Access {
  import opened Prelude
  import opened Forest

  datatype Scope = DirectChildren | Descendant

  predicate IsDeployedAgent(n: Node) {
    n.kind.Agent? && n.hasWorkspace
  }

  /** The transitive meaning of access: every deployed agent below the actor. */
  ghost predicate MayManage(org: Org, scope: Scope, actor: NodeId, target: Node) {
    && target in org.nodes
    && IsDeployedAgent(target)
    && match scope
       case DirectChildren => Link(actor, target.id) in org.links
       case Descendant => Descends(org, actor, target.id)
  }

  /** The row of a known id. */
  ghost function Row(org: Org, id: NodeId): (n: Node)
    requires id in NodeIds(org)
    ensures n in org.nodes && n.id == id
  {
    var n :| n in org.nodes && n.id == id;
    n
  }

  lemma RowOf(org: Org, n: Node)
    requires DistinctIds(org.nodes) && n in org.nodes
    ensures n.id in NodeIds(org) && Row(org, n.id) == n
  {
    var i :| 0 <= i < |org.nodes| && org.nodes[i] == n;
    var j :| 0 <= j < |org.nodes| && org.nodes[j] == Row(org, n.id);
  }

  lemma MultisetAppend<T>(x: T, a: seq<T>, b: seq<T>)
    ensures multiset([x] + a + b) == multiset{x} + multiset(b + a)
  {
  }

  lemma PopAndExtend(pending: seq<Tree>)
    requires pending != []
    ensures |IdsAll(pending[1..] + pending[0].kids)| + 1 == |IdsAll(pending)|
    ensures multiset(IdsAll(pending))
         == multiset{pending[0].root.id} + multiset(IdsAll(pending[1..] + pending[0].kids))
  {
    IdsAllAppend(pending[1..], pending[0].kids);
    MultisetAppend(pending[0].root.id, IdsAll(pending[0].kids), IdsAll(pending[1..]));
  }

  lemma RootsOfExtended(a: seq<Tree>, b: seq<Tree>)
    ensures Roots(a + b) == Roots(a) + Roots(b)
  {
    RootsAt(a);
    RootsAt(b);
    RootsAt(a + b);
  }

  lemma {:induction false} MultisetNoDup<T>(s: seq<T>, t: seq<T>)
    requires multiset(s) == multiset(t) && NoDup(t)
    ensures NoDup(s) && forall x :: x in s <==> x in t
  {
    forall x ensures x in s <==> x in t {
      assert x in multiset(s) <==> x in multiset(t);
    }
    forall i, j | 0 <= i < j < |s| ensures s[i] != s[j] {
      assert s == s[..j] + [s[j]] + s[j + 1..];
      assert multiset(s[..j])[s[i]] >= 1 by { assert s[..j][i] == s[i]; }
      NoDupMultiplicity(t, s[j]);
    }
  }

  lemma {:induction false} NoDupMultiplicity<T>(s: seq<T>, x: T)
    requires NoDup(s)
    ensures multiset(s)[x] <= 1
  {
    if s != [] {
      NoDupMultiplicity(s[1..], x);
      assert s == [s[0]] + s[1..];
      assert s[0] !in s[1..];
    }
  }

  ghost predicate Collected(org: Org, results: map<NodeId, Node>, visits: seq<NodeId>) {
    && (forall x :: x in visits ==> x in NodeIds(org))
    && (forall id :: id in results <==> id in visits && IsDeployedAgent(Row(org, id)))
    && (forall id :: id in results ==> results[id] == Row(org, id))
  }

  lemma CollectOne(org: Org, results: map<NodeId, Node>, visits: seq<NodeId>, node: Node)
    requires DistinctIds(org.nodes) && node in org.nodes && Collected(org, results, visits)
    ensures Collected(org,
                      if IsDeployedAgent(node) && node.id !in results then results[node.id := node] else results,
                      visits + [node.id])
  {
    RowOf(org, node);
  }

  /** The queue holds the roots of the subtrees still to visit. */
  ghost predicate Walking(org: Org, t: Tree, forest: seq<Tree>, pending: seq<Node>, visits: seq<NodeId>) {
    && Roots(forest) == pending
    && (forall k :: k in forest ==> IsTree(org, k))
    && multiset(visits) + multiset(IdsAll(forest)) == multiset(IdsAll(t.kids))
  }

  lemma WalkStep(org: Org, t: Tree, forest: seq<Tree>, pending: seq<Node>, visits: seq<NodeId>)
    requires Walking(org, t, forest, pending, visits) && pending != []
    ensures forest != [] && pending[0] in org.nodes
    ensures Walking(org, t, forest[1..] + forest[0].kids, pending[1..] + Children(org, pending[0].id),
                    visits + [pending[0].id])
    ensures |IdsAll(forest[1..] + forest[0].kids)| < |IdsAll(forest)|
  {
    RootsAt(forest);
    assert forest[0] in forest && forest[0].root == pending[0];
    RootsOfExtended(forest[1..], forest[0].kids);
    PopAndExtend(forest);
    assert Roots(forest)[1..] == Roots(forest[1..]);
    assert multiset(visits + [pending[0].id]) == multiset(visits) + multiset{pending[0].id};
  }

  /** Walks the queue. It stops exactly because the actor is not its own
      descendant, meets each descendant once, and keeps the deployed agents. */
  method ListDescendants(org: Org, actor: Node) returns (results: map<NodeId, Node>, ghost visits: seq<NodeId>)
    requires ValidOrg(org) && actor in org.nodes
    requires !Descends(org, actor.id, actor.id)
    ensures NoDup(visits) && forall x :: x in visits <==> Descends(org, actor.id, x)
    ensures forall n :: n in org.nodes ==> (n.id in results <==> MayManage(org, Descendant, actor.id, n))
    ensures forall id :: id in results ==> results[id].id == id && results[id] in org.nodes
  {
    FiniteBelowIff(org, actor);
    ghost var t :| IsTree(org, t) && t.root == actor;
    ghost var forest := t.kids;
    results := map[];
    visits := [];
    var pending := Children(org, actor.id);
    while pending != []
      invariant Walking(org, t, forest, pending, visits)
      invariant Collected(org, results, visits)
      decreases |IdsAll(forest)|
    {
      WalkStep(org, t, forest, pending, visits);
      CollectOne(org, results, visits, pending[0]);

      var node := pending[0];
      pending := pending[1..];
      pending := pending + Children(org, node.id);
      if IsDeployedAgent(node) && node.id !in results {
        results := results[node.id := node];
      }
      forest := forest[1..] + forest[0].kids;
      visits := visits + [node.id];
    }
    assert IdsAll(forest) == [];
    WalkComplete(org, t, visits);
    forall n | n in org.nodes ensures n.id in results <==> MayManage(org, Descendant, actor.id, n) {
      RowOf(org, n);
    }
  }

  lemma WalkComplete(org: Org, t: Tree, visits: seq<NodeId>)
    requires ValidOrg(org) && IsTree(org, t) && multiset(visits) == multiset(IdsAll(t.kids))
    ensures NoDup(visits) && forall x :: x in visits <==> Descends(org, t.root.id, x)
  {
    TreeImpliesNoCycle(org, t);
    IdsDistinct(org, t);
    IdsAreDescendants(org, t);
    assert Ids(t)[1..] == IdsAll(t.kids);
    MultisetNoDup(visits, IdsAll(t.kids));
    forall x ensures x in visits <==> Descends(org, t.root.id, x) {
      assert x in Ids(t) <==> x == t.root.id || x in IdsAll(t.kids);
      assert t.root.id !in Ids(t)[1..];
    }
  }

  lemma LinkDescends(org: Org, a: NodeId, b: NodeId)
    ensures Link(a, b) in org.links ==> Descends(org, a, b)
  {
    if Link(a, b) in org.links { assert ChainFromTo(org.links, [a, b], a, b); }
  }

  /** The check in front of every skill and instruction change. */
  method AuthorizeTarget(org: Org, scope: Scope, actor: Node, target: Node) returns (allowed: bool)
    requires ValidOrg(org) && actor in org.nodes && target in org.nodes
    requires scope.Descendant? ==> !Descends(org, actor.id, actor.id)
    ensures allowed <==> MayManage(org, scope, actor.id, target)
    ensures allowed ==> target.kind.Agent? && target.hasWorkspace && Descends(org, actor.id, target.id)
  {
    LinkDescends(org, actor.id, target.id);
    if scope.DirectChildren? {
      var children := Children(org, actor.id);
      SelectChildrenSpec(org.nodes, org.links, actor.id);
      assert forall n :: n in children && n.id == target.id ==> n == target by {
        RowOf(org, target);
        forall n | n in children ensures Row(org, n.id) == n { RowOf(org, n); }
      }
      allowed := exists n :: n in children && IsDeployedAgent(n) && n.id == target.id;
    } else {
      var results, _ := ListDescendants(org, actor);
      allowed := target.id in results;
    }
  }
}
