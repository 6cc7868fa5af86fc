/** Connected components of a population under undirected edges, by union-find with path halving. */
module Components {

  /** An undirected edge between two positions of the population. */
  type Edge = (nat, nat)

  // ---- Connection by a path of edges ----

  ghost predicate Adjacent(edges: seq<Edge>, x: nat, y: nat) {
    (x, y) in edges || (y, x) in edges
  }

  ghost predicate IsPath(edges: seq<Edge>, path: seq<nat>) {
    path != [] && forall i | 0 < i < |path| :: Adjacent(edges, path[i - 1], path[i])
  }

  ghost predicate Joins(edges: seq<Edge>, path: seq<nat>, x: nat, y: nat) {
    IsPath(edges, path) && path[0] == x && path[|path| - 1] == y
  }

  ghost predicate Connected(edges: seq<Edge>, x: nat, y: nat) {
    exists path :: Joins(edges, path, x, y)
  }

  lemma ConnectedSelf(edges: seq<Edge>, x: nat)
    ensures Connected(edges, x, x)
  {
    assert Joins(edges, [x], x, x);
  }

  lemma ConnectedEdge(edges: seq<Edge>, x: nat, y: nat)
    requires Adjacent(edges, x, y)
    ensures Connected(edges, x, y)
  {
    assert Joins(edges, [x, y], x, y);
  }

  lemma ConnectedSymmetric(edges: seq<Edge>, x: nat, y: nat)
    requires Connected(edges, x, y)
    ensures Connected(edges, y, x)
  {
    var path :| Joins(edges, path, x, y);
    var back := seq(|path|, i requires 0 <= i < |path| => path[|path| - 1 - i]);
    forall i | 0 < i < |back| ensures Adjacent(edges, back[i - 1], back[i]) {
      var j := |path| - i;
      assert Adjacent(edges, path[j - 1], path[j]);
    }
    assert Joins(edges, back, y, x);
  }

  lemma ConnectedTransitive(edges: seq<Edge>, x: nat, y: nat, z: nat)
    requires Connected(edges, x, y) && Connected(edges, y, z)
    ensures Connected(edges, x, z)
  {
    var p :| Joins(edges, p, x, y);
    var q :| Joins(edges, q, y, z);
    var path := p + q[1..];
    forall i | 0 < i < |path| ensures Adjacent(edges, path[i - 1], path[i]) {
      if i >= |p| {
        var j := i - |p| + 1;
        assert Adjacent(edges, q[j - 1], q[j]);
      }
    }
    assert Joins(edges, path, x, z);
  }

  lemma ConnectedGrows(edges: seq<Edge>, more: seq<Edge>, x: nat, y: nat)
    requires Connected(edges, x, y) && forall e | e in edges :: e in more
    ensures Connected(more, x, y)
  {
    var path :| Joins(edges, path, x, y);
    assert Joins(more, path, x, y);
  }

  // ---- The parent forest ----

  /**
   * `parents` is a forest in which `rep` gives every node's root. `rank` grows along every
   * parent link, which is what makes walking up terminate.
   */
  ghost predicate Forest(parents: seq<nat>, rep: seq<nat>, rank: seq<nat>, top: nat) {
    |parents| == |rep| == |rank| && forall x: nat | x < |parents| :: NodeOk(parents, rep, rank, top, x)
  }

  ghost predicate NodeOk(parents: seq<nat>, rep: seq<nat>, rank: seq<nat>, top: nat, x: nat)
    requires |parents| == |rep| == |rank| && x < |parents|
  {
    parents[x] < |parents| && rep[x] < |parents| && rank[x] <= top
    && (if parents[x] == x then rep[x] == x else rank[x] < rank[parents[x]])
    && rep[parents[x]] == rep[x] && parents[rep[x]] == rep[x]
  }

  lemma HalvingKeepsForest(parents: seq<nat>, rep: seq<nat>, rank: seq<nat>, top: nat, x: nat)
    requires Forest(parents, rep, rank, top) && x < |parents| && parents[x] != x
    ensures NodeOk(parents, rep, rank, top, x) && NodeOk(parents, rep, rank, top, parents[x])
    ensures Forest(parents[x := parents[parents[x]]], rep, rank, top)
    ensures rep[parents[parents[x]]] == rep[x] && rank[x] < rank[parents[parents[x]]] <= top
  {
    var up := parents[x];
    assert NodeOk(parents, rep, rank, top, x);
    assert NodeOk(parents, rep, rank, top, up);
    assert NodeOk(parents, rep, rank, top, parents[up]);
    var halved := parents[x := parents[up]];
    forall y: nat | y < |parents| ensures NodeOk(halved, rep, rank, top, y) {
      assert NodeOk(parents, rep, rank, top, y);
    }
  }

  /** The root of a node; halving its path on the way leaves every node's root as it was. */
  method Root(parents: array<nat>, node: nat, ghost rep: seq<nat>, ghost rank: seq<nat>, ghost top: nat)
    returns (root: nat)
    requires Forest(parents[..], rep, rank, top) && node < parents.Length
    modifies parents
    ensures Forest(parents[..], rep, rank, top)
    ensures root < parents.Length && root == rep[node] && parents[root] == root
  {
    root := node;
    while parents[root] != root
      invariant Forest(parents[..], rep, rank, top)
      invariant root < parents.Length && rep[root] == rep[node]
      decreases top - rank[root]
    {
      ghost var before := parents[..];
      HalvingKeepsForest(before, rep, rank, top, root);
      parents[root] := parents[parents[root]];
      assert parents[..] == before[root := before[before[root]]];
      root := parents[root];
    }
    assert NodeOk(parents[..], rep, rank, top, root);
  }

  /** Two nodes share a root exactly when the edges connect them. */
  ghost predicate Exact(edges: seq<Edge>, rep: seq<nat>) {
    forall x: nat, y: nat | x < |rep| && y < |rep| :: rep[x] == rep[y] <==> Connected(edges, x, y)
  }

  ghost function Relabel(rep: seq<nat>, from: nat, to: nat): seq<nat> {
    seq(|rep|, i requires 0 <= i < |rep| => if rep[i] == from then to else rep[i])
  }

  lemma RelabelIsExact(edges: seq<Edge>, rep: seq<nat>, l: nat, r: nat)
    requires Exact(edges, rep) && l < |rep| && r < |rep|
    requires forall e | e in edges :: e.0 < |rep| && e.1 < |rep|
    ensures Exact(edges + [(l, r)], Relabel(rep, rep[r], rep[l]))
  {
    var more, rep' := edges + [(l, r)], Relabel(rep, rep[r], rep[l]);
    forall x: nat, y: nat | x < |rep| && y < |rep| && rep'[x] == rep'[y] ensures Connected(more, x, y) {
      Bridge(edges, rep, l, r, x, y);
    }
    forall u: nat, v: nat | Adjacent(more, u, v) ensures u < |rep| && v < |rep| && rep'[u] == rep'[v] {
      if (u, v) in edges { ConnectedEdge(edges, u, v); }
      if (v, u) in edges { ConnectedEdge(edges, v, u); }
    }
    forall x: nat, y: nat | x < |rep| && y < |rep| && Connected(more, x, y) ensures rep'[x] == rep'[y] {
      var path :| Joins(more, path, x, y);
      PathKeepsLabel(more, rep', path);
    }
  }

  lemma Bridge(edges: seq<Edge>, rep: seq<nat>, l: nat, r: nat, x: nat, y: nat)
    requires Exact(edges, rep) && l < |rep| && r < |rep| && x < |rep| && y < |rep|
    requires Relabel(rep, rep[r], rep[l])[x] == Relabel(rep, rep[r], rep[l])[y]
    ensures Connected(edges + [(l, r)], x, y)
  {
    var more := edges + [(l, r)];
    if rep[x] == rep[y] {
      ConnectedGrows(edges, more, x, y);
    } else {
      var s, t := if rep[x] == rep[r] then r else l, if rep[x] == rep[r] then l else r;
      ConnectedGrows(edges, more, x, s);
      assert Adjacent(more, s, t) by { assert more[|edges|] == (l, r); }
      ConnectedEdge(more, s, t);
      ConnectedGrows(edges, more, t, y);
      ConnectedTransitive(more, x, s, t);
      ConnectedTransitive(more, x, t, y);
    }
  }

  lemma {:induction false} PathKeepsLabel(edges: seq<Edge>, tag: seq<nat>, path: seq<nat>)
    requires IsPath(edges, path) && path[0] < |tag|
    requires forall u: nat, v: nat | Adjacent(edges, u, v) :: u < |tag| && v < |tag| && tag[u] == tag[v]
    ensures path[|path| - 1] < |tag| && tag[path[|path| - 1]] == tag[path[0]]
  {
    if |path| > 1 {
      var shorter := path[..|path| - 1];
      PathKeepsLabel(edges, tag, shorter);
      assert Adjacent(edges, path[|path| - 2], path[|path| - 1]);
    }
  }

  /** Unite the endpoints of every edge, in whatever order the edges come. */
  method Unite(n: nat, edges: seq<Edge>)
    returns (parents: array<nat>, ghost rep: seq<nat>, ghost rank: seq<nat>, ghost top: nat)
    requires forall e | e in edges :: e.0 < n && e.1 < n
    ensures fresh(parents) && parents.Length == n
    ensures Forest(parents[..], rep, rank, top) && Exact(edges, rep)
  {
    parents := new nat[n](i => i);
    rep, rank, top := parents[..], seq(n, _ => 0), 0;
    forall x: nat, y: nat | x < n && y < n ensures rep[x] == rep[y] <==> Connected([], x, y) {
      ConnectedSelf([], x);
      if path :| Joins([], path, x, y) { assert |path| > 1 ==> Adjacent([], path[0], path[1]); }
    }
    for i := 0 to |edges|
      invariant fresh(parents) && parents.Length == n
      invariant Forest(parents[..], rep, rank, top) && Exact(edges[..i], rep)
    {
      assert edges[i] in edges && edges[..i + 1] == edges[..i] + [edges[i]];
      var a := Root(parents, edges[i].0, rep, rank, top);
      var b := Root(parents, edges[i].1, rep, rank, top);
      RelabelIsExact(edges[..i], rep, edges[i].0, edges[i].1);
      assert NodeOk(parents[..], rep, rank, top, edges[i].0);
      if a != b {
        LinkKeepsForest(parents[..], rep, rank, top, a, b);
        ghost var before := parents[..];
        parents[b] := a;
        assert parents[..] == before[b := a];
        rank, top := Raised(rank, a, b), top + 1;
      }
      assert a == b ==> Relabel(rep, b, a) == rep;
      rep := Relabel(rep, b, a);
    }
    assert edges[..|edges|] == edges;
  }

  ghost function Raised(rank: seq<nat>, a: nat, b: nat): seq<nat>
    requires a < |rank| && b < |rank|
  {
    rank[a := if rank[a] <= rank[b] then rank[b] + 1 else rank[a]]
  }

  lemma LinkKeepsForest(parents: seq<nat>, rep: seq<nat>, rank: seq<nat>, top: nat, a: nat, b: nat)
    requires Forest(parents, rep, rank, top) && a < |parents| && b < |parents| && a != b
    requires parents[a] == a && parents[b] == b
    ensures Forest(parents[b := a], Relabel(rep, b, a), Raised(rank, a, b), top + 1)
  {
    assert NodeOk(parents, rep, rank, top, a) && NodeOk(parents, rep, rank, top, b);
    var linked, rep', rank', top' := parents[b := a], Relabel(rep, b, a), Raised(rank, a, b), top + 1;
    forall x: nat | x < |parents| ensures NodeOk(linked, rep', rank', top', x) {
      assert NodeOk(parents, rep, rank, top, x) && NodeOk(parents, rep, rank, top, parents[x]);
    }
  }

  /** `components` lists, under each root, the nodes below `m` with that root, ascending. */
  ghost predicate Lists(components: map<nat, seq<nat>>, rep: seq<nat>, m: nat) {
    m <= |rep|
    && (forall leader | leader in components :: IsBlock(components[leader], rep, m, leader))
    && (forall x: nat | x < m :: rep[x] in components)
  }

  ghost predicate IsBlock(members: seq<nat>, rep: seq<nat>, m: nat, leader: nat)
    requires m <= |rep|
  {
    members != [] && Gathers(members, rep, m, leader)
  }

  /** The positions below `m` that `leader` represents, in order. */
  ghost predicate Gathers(members: seq<nat>, rep: seq<nat>, m: nat, leader: nat)
    requires m <= |rep|
  {
    Ascending(members) && forall x: nat :: x in members <==> x < m && rep[x] == leader
  }

  lemma AscendingOneMore(members: seq<nat>, m: nat)
    requires Ascending(members) && forall x | x in members :: x < m
    ensures Ascending(members + [m])
  {
    forall i, j | 0 <= i < j < |members + [m]| ensures (members + [m])[i] < (members + [m])[j] {
      if j == |members| { assert members[i] in members; }
    }
  }

  lemma GathersOneMore(members: seq<nat>, rep: seq<nat>, m: nat, leader: nat)
    requires m < |rep| && Gathers(members, rep, m, leader)
    ensures Gathers(if rep[m] == leader then members + [m] else members, rep, m + 1, leader)
  {
    if rep[m] == leader {
      AscendingOneMore(members, m);
      forall x: nat ensures x in members + [m] <==> x < m + 1 && rep[x] == leader {
        assert x in members + [m] <==> x in members || x == m;
      }
    }
  }

  lemma ListsOneMore(components: map<nat, seq<nat>>, rep: seq<nat>, m: nat)
    requires Lists(components, rep, m) && m < |rep|
    ensures Lists(components[rep[m] := (if rep[m] in components then components[rep[m]] else []) + [m]], rep, m + 1)
  {
    var leader := rep[m];
    var before := if leader in components then components[leader] else [];
    var after := components[leader := before + [m]];
    assert Gathers(before, rep, m, leader) by {
      if leader in components { assert IsBlock(before, rep, m, leader); }
    }
    forall other | other in after ensures IsBlock(after[other], rep, m + 1, other) {
      if other == leader {
        GathersOneMore(before, rep, m, leader);
      } else {
        assert IsBlock(components[other], rep, m, other);
        GathersOneMore(components[other], rep, m, other);
      }
    }
  }

  lemma ListsArePartition(components: map<nat, seq<nat>>, rep: seq<nat>, edges: seq<Edge>)
    requires Lists(components, rep, |rep|) && Exact(edges, rep) && forall x | x in rep :: x < |rep|
    ensures Partition(|rep|, edges, components)
  {
    forall x: nat | x < |rep| ensures Placed(components, x) {
      assert rep[x] in components && IsBlock(components[rep[x]], rep, |rep|, rep[x]);
    }
    forall leader, x | leader in components && x in components[leader]
      ensures x < |rep| && rep[x] == leader
      ensures forall y: nat | y < |rep| :: y in components[leader] <==> Connected(edges, x, y)
    {
      assert IsBlock(components[leader], rep, |rep|, leader);
    }
    forall leader | leader in components
      ensures leader < |rep| && components[leader] != [] && Ascending(components[leader])
    {
      assert IsBlock(components[leader], rep, |rep|, leader);
      var x := components[leader][0];
      assert x in components[leader] && rep[x] in rep;
    }
  }

  /** The members of every component under its leader, in population order. */
  method Collect(n: nat, edges: seq<Edge>) returns (components: map<nat, seq<nat>>)
    requires forall e | e in edges :: e.0 < n && e.1 < n
    ensures Partition(n, edges, components)
  {
    var parents, rep, rank, top := Unite(n, edges);
    components := map[];
    for i := 0 to n
      invariant fresh(parents) && parents.Length == n && Forest(parents[..], rep, rank, top)
      invariant Lists(components, rep, i)
    {
      var leader := Root(parents, i, rep, rank, top);
      ListsOneMore(components, rep, i);
      components := components[leader := (if leader in components then components[leader] else []) + [i]];
    }
    forall x | x in rep ensures x < n {
      var y :| 0 <= y < n && rep[y] == x;
      assert NodeOk(parents[..], rep, rank, top, y);
    }
    ListsArePartition(components, rep, edges);
  }

  ghost predicate Ascending(members: seq<nat>) {
    forall i, j | 0 <= i < j < |members| :: members[i] < members[j]
  }

  ghost predicate Placed(components: map<nat, seq<nat>>, x: nat) {
    exists leader :: leader in components && x in components[leader]
  }

  /** Disjoint nonempty blocks that cover the population; each is one connection class. */
  ghost predicate Partition(n: nat, edges: seq<Edge>, components: map<nat, seq<nat>>) {
    (forall leader | leader in components :: leader < n && components[leader] != [] && Ascending(components[leader]))
    && (forall leader, x | leader in components && x in components[leader] :: x < n)
    && (forall x: nat | x < n :: Placed(components, x))
    && (forall leader, x: nat, y: nat | leader in components && x in components[leader] && y < n ::
          y in components[leader] <==> Connected(edges, x, y))
    && (forall l, m, x | l in components && m in components && x in components[l] && x in components[m] :: l == m)
  }

  /** The blocks do not depend on the order or the repetition of the edges. */
  lemma EdgeOrderIsIrrelevant(n: nat, edges: seq<Edge>, other: seq<Edge>, a: map<nat, seq<nat>>, b: map<nat,
                              seq<nat>>, x: nat)
    requires Partition(n, edges, a) && Partition(n, other, b) && x < n
    requires forall e :: e in edges <==> e in other
    ensures exists l, m :: l in a && m in b && x in a[l] && a[l] == b[m]
  {
    assert Placed(a, x) && Placed(b, x);
    var l :| l in a && x in a[l];
    var m :| m in b && x in b[m];
    forall y: nat | y < n ensures y in a[l] <==> y in b[m] {
      if Connected(edges, x, y) { ConnectedGrows(edges, other, x, y); }
      if Connected(other, x, y) { ConnectedGrows(other, edges, x, y); }
    }
    assert forall y :: y in a[l] <==> y in b[m];
    AscendingIsUnique(a[l], b[m]);
  }

  lemma {:induction false} AscendingIsUnique(a: seq<nat>, b: seq<nat>)
    requires Ascending(a) && Ascending(b) && forall x :: x in a <==> x in b
    ensures a == b
  {
    assert b != [] ==> b[0] in b;
    if a != [] {
      assert a[0] in a && a[0] in b && b[0] in a;
      forall x ensures x in a[1..] <==> x in b[1..] {
        assert x in a[1..] <==> x in a && x != a[0];
        assert x in b[1..] <==> x in b && x != b[0];
      }
      AscendingIsUnique(a[1..], b[1..]);
    }
  }
}
