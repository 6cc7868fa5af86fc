/** Iterative topological reduction of a resolved parent lineage: exact cycle detection. */
module Lineage {

  /** `parents[c]` lists the resolved parents of `c`, repetitions included. */
  type Graph = seq<seq<nat>>

  ghost predicate IsGraph(parents: Graph) {
    forall c, p | 0 <= c < |parents| && p in parents[c] :: p < |parents|
  }

  ghost predicate HasParent(parents: Graph, c: nat, p: nat) {
    c < |parents| && p in parents[c]
  }

  /** A walk from child to parent. */
  ghost predicate IsWalk(parents: Graph, walk: seq<nat>) {
    walk != [] && forall i | 0 < i < |walk| :: Steps(parents, walk, i)
  }

  ghost predicate Steps(parents: Graph, walk: seq<nat>, i: int)
    requires 0 < i < |walk|
  {
    HasParent(parents, walk[i - 1], walk[i])
  }

  ghost predicate IsCycle(parents: Graph, walk: seq<nat>) {
    IsWalk(parents, walk) && |walk| >= 2 && walk[0] == walk[|walk| - 1]
  }

  ghost predicate Cyclic(parents: Graph) {
    exists walk :: IsCycle(parents, walk)
  }

  // ---- Acyclic: a rank that drops along every parent link ----

  ghost predicate Ranked(parents: Graph, rank: map<nat, nat>) {
    forall c, p | c in rank && c < |parents| && p in parents[c] :: p in rank && rank[p] < rank[c]
  }

  lemma {:induction false} WalkDrops(parents: Graph, rank: map<nat, nat>, walk: seq<nat>)
    requires IsGraph(parents) && Ranked(parents, rank) && IsWalk(parents, walk) && walk[0] in rank
    ensures walk[|walk| - 1] in rank
    ensures |walk| >= 2 ==> rank[walk[|walk| - 1]] < rank[walk[0]]
  {
    if |walk| >= 2 {
      var shorter := walk[..|walk| - 1];
      forall i | 0 < i < |shorter| ensures Steps(parents, shorter, i) { assert Steps(parents, walk, i); }
      WalkDrops(parents, rank, shorter);
      assert Steps(parents, walk, |walk| - 1);
    }
  }

  // ---- Cyclic: a stuck set in which every node keeps a parent ----

  ghost predicate Stuck(parents: Graph, rest: set<nat>) {
    forall c {:trigger KeepsParent(parents, rest, c)} | c in rest :: KeepsParent(parents, rest, c)
  }

  ghost predicate KeepsParent(parents: Graph, rest: set<nat>, c: nat) {
    exists p :: HasParent(parents, c, p) && p in rest
  }

  lemma {:induction false} LongWalk(parents: Graph, rest: set<nat>, start: nat, length: nat) returns (walk: seq<nat>)
    requires Stuck(parents, rest) && start in rest && length > 0
    ensures IsWalk(parents, walk) && |walk| == length && forall x | x in walk :: x in rest
  {
    if length == 1 {
      walk := [start];
    } else {
      var shorter := LongWalk(parents, rest, start, length - 1);
      var last := shorter[|shorter| - 1];
      assert KeepsParent(parents, rest, last);
      var p :| HasParent(parents, last, p) && p in rest;
      walk := shorter + [p];
      forall i | 0 < i < |walk| ensures Steps(parents, walk, i) {
        assert i < |shorter| ==> Steps(parents, shorter, i);
      }
    }
  }

  lemma {:induction false} Pigeonhole(walk: seq<nat>, rest: set<nat>) returns (i: nat, j: nat)
    requires |walk| > |rest| && forall x | x in walk :: x in rest
    ensures i < j < |walk| && walk[i] == walk[j]
  {
    var m := |walk| - 1;
    var shorter, last := walk[..m], walk[m];
    assert last in walk;
    if k: nat :| k < m && walk[k] == last {
      i, j := k, m;
    } else {
      forall x | x in shorter ensures x in rest - {last} { assert x in walk; }
      i, j := Pigeonhole(shorter, rest - {last});
    }
  }

  lemma StuckIsCyclic(parents: Graph, rest: set<nat>)
    requires Stuck(parents, rest) && rest != {}
    ensures Cyclic(parents)
  {
    var start :| start in rest;
    var walk := LongWalk(parents, rest, start, |rest| + 1);
    var i, j := Pigeonhole(walk, rest);
    var cycle := walk[i..j + 1];
    forall k | 0 < k < |cycle| ensures Steps(parents, cycle, k) {
      assert Steps(parents, walk, i + k);
    }
    assert IsCycle(parents, cycle);
  }

  // ---- Counting the parents not yet visited ----

  ghost function Occurs(s: seq<nat>, x: nat): nat {
    if s == [] then 0 else Occurs(s[..|s| - 1], x) + if s[|s| - 1] == x then 1 else 0
  }

  ghost function Undone(ps: seq<nat>, done: set<nat>): nat {
    if ps == [] then 0 else Undone(ps[..|ps| - 1], done) + if ps[|ps| - 1] in done then 0 else 1
  }

  lemma OccursAppend(s: seq<nat>, y: nat, x: nat)
    ensures Occurs(s + [y], x) == Occurs(s, x) + if x == y then 1 else 0
  {
    assert (s + [y])[..|s|] == s;
  }

  lemma {:induction false} OccursBounds(s: seq<nat>, j: nat, x: nat)
    requires j <= |s|
    ensures Occurs(s[..j], x) <= Occurs(s, x)
    ensures Occurs(s, x) > 0 <==> x in s
  {
    if s != [] {
      var m := |s| - 1;
      OccursBounds(s[..m], if j < |s| then j else m, x);
      assert j < |s| ==> s[..m][..j] == s[..j];
      assert j == |s| ==> s[..j] == s;
      assert s == s[..m] + [s[m]];
    }
  }

  lemma {:induction false} UndoneDrops(ps: seq<nat>, done: set<nat>, id: nat)
    requires id !in done
    ensures Undone(ps, done) == Undone(ps, done + {id}) + Occurs(ps, id)
  {
    if ps != [] {
      UndoneDrops(ps[..|ps| - 1], done, id);
    }
  }

  lemma {:induction false} UndoneZero(ps: seq<nat>, done: set<nat>)
    ensures Undone(ps, done) == 0 <==> forall p | p in ps :: p in done
    ensures Undone(ps, {}) == |ps|
  {
    if ps != [] {
      var m := |ps| - 1;
      UndoneZero(ps[..m], done);
      assert forall p :: p in ps <==> p == ps[m] || p in ps[..m];
    }
  }

  // ---- The reduction ----

  /** `children[p]` names every child as often as `p` is among its parents, for children below `m`. */
  ghost predicate Inverts(parents: Graph, children: seq<seq<nat>>, m: nat) {
    |children| == |parents| && m <= |parents|
    && forall p: nat, c: nat {:trigger Occurs(children[p], c)} | p < |parents| ::
         Occurs(children[p], c) == if c < m then Occurs(parents[c], p) else 0
  }

  /** `children` is `before` with `c` appended under each of the given parents. */
  ghost predicate Appended(before: seq<seq<nat>>, children: seq<seq<nat>>, c: nat, ps: seq<nat>) {
    |children| == |before|
    && forall p: nat, x: nat {:trigger Occurs(children[p], x)} | p < |before| ::
         Occurs(children[p], x) == Occurs(before[p], x) + if x == c then Occurs(ps, p) else 0
  }

  lemma AppendOne(before: seq<seq<nat>>, children: seq<seq<nat>>, c: nat, ps: seq<nat>, p: nat)
    requires Appended(before, children, c, ps) && p < |before|
    ensures Appended(before, children[p := children[p] + [c]], c, ps + [p])
  {
    var after := children[p := children[p] + [c]];
    forall q: nat, x: nat | q < |before|
      ensures Occurs(after[q], x) == Occurs(before[q], x) + if x == c then Occurs(ps + [p], q) else 0
    {
      OccursAppend(children[q], c, x);
      OccursAppend(ps, p, q);
    }
  }

  method Children(parents: Graph) returns (children: seq<seq<nat>>)
    requires IsGraph(parents)
    ensures Inverts(parents, children, |parents|)
  {
    children := seq(|parents|, _ => []);
    assert forall p | 0 <= p < |parents| :: children[p] == [];
    for c := 0 to |parents|
      invariant Inverts(parents, children, c)
    {
      ghost var before := children;
      assert parents[c][..0] == [] && forall p: nat :: Occurs([], p) == 0;
      for j := 0 to |parents[c]|
        invariant Appended(before, children, c, parents[c][..j])
      {
        var p := parents[c][j];
        assert p in parents[c] && parents[c][..j + 1] == parents[c][..j] + [p];
        AppendOne(before, children, c, parents[c][..j], p);
        children := children[p := children[p] + [c]];
      }
      assert parents[c][..|parents[c]|] == parents[c];
      InvertOneMore(parents, before, children, c);
    }
  }

  lemma InvertOneMore(parents: Graph, before: seq<seq<nat>>, children: seq<seq<nat>>, c: nat)
    requires c < |parents| && Inverts(parents, before, c) && Appended(before, children, c, parents[c])
    ensures Inverts(parents, children, c + 1)
  {
    forall p: nat, x: nat | p < |parents|
      ensures Occurs(children[p], x) == if x < c + 1 then Occurs(parents[x], p) else 0
    {
      assert Occurs(before[p], x) == if x < c then Occurs(parents[x], p) else 0;
    }
  }

  /** What the reduction knows between two visits. */
  ghost predicate Reduced(parents: Graph, pending: seq<nat>, ready: seq<nat>, done: set<nat>, rank: map<nat, nat>) {
    |pending| == |parents| && rank.Keys == done && Ranked(parents, rank)
    && (forall c | c in done :: c < |parents| && rank[c] < |done|)
    && (forall c | 0 <= c < |parents| :: pending[c] == Undone(parents[c], done))
    && ReadyIs(pending, ready, done)
  }

  /** The worklist holds every unvisited node with no pending parent, once. */
  ghost predicate ReadyIs(pending: seq<nat>, ready: seq<nat>, done: set<nat>) {
    (forall c: nat :: c in ready <==> c < |pending| && c !in done && pending[c] == 0)
    && (forall i, j | 0 <= i < j < |ready| :: ready[i] != ready[j])
  }

  /** The counters after the first few children of `id` have been released. */
  ghost predicate Releasing(parents: Graph, pending: seq<nat>, done: set<nat>, released: seq<nat>) {
    |pending| == |parents|
    && forall c | 0 <= c < |parents| :: pending[c] + Occurs(released, c) == Undone(parents[c], done)
  }

  lemma PopReady(pending: seq<nat>, waiting: seq<nat>, id: nat, done: set<nat>)
    requires ReadyIs(pending, waiting + [id], done)
    ensures id in waiting + [id] && id < |pending| && ReadyIs(pending, waiting, done + {id})
  {
    var ready := waiting + [id];
    assert forall c: nat :: c in ready <==> c in waiting || c == id;
    forall i | 0 <= i < |waiting| ensures waiting[i] != id {
      assert ready[i] != ready[|waiting|];
    }
    forall i, j | 0 <= i < j < |waiting| ensures waiting[i] != waiting[j] {
      assert ready[i] != ready[j];
    }
  }

  /** A child of a ready node is unvisited and still counts it. */
  lemma ChildWaits(parents: Graph, children: seq<seq<nat>>, done: set<nat>, rank: map<nat, nat>, id: nat, child: nat)
    requires Inverts(parents, children, |parents|) && Ranked(parents, rank) && rank.Keys == done
    requires id < |parents| && id !in done && Undone(parents[id], done) == 0 && child in children[id]
    ensures child < |parents| && child !in done + {id}
    ensures Occurs(children[id], child) <= Undone(parents[child], done)
  {
    assert Occurs(children[id], child) > 0 by { OccursBounds(children[id], 0, child); }
    UndoneDrops(parents[child], done, id);
    assert id in parents[child] by { OccursBounds(parents[child], 0, id); }
    UndoneZero(parents[id], done);
  }

  /** Release the children of a ready node; no counter underflows. */
  method Release(parents: Graph, children: seq<seq<nat>>, before: seq<nat>, waiting: seq<nat>, id: nat,
                 ghost ready0: seq<nat>, ghost done: set<nat>, ghost rank: map<nat, nat>)
    returns (pending: seq<nat>, ready: seq<nat>)
    requires Inverts(parents, children, |parents|) && Reduced(parents, before, ready0, done, rank)
    requires ready0 == waiting + [id] && id < |parents|
    ensures Releasing(parents, pending, done, children[id]) && ReadyIs(pending, ready, done + {id})
  {
    pending, ready := before, waiting;
    PopReady(before, waiting, id, done);
    assert before[id] == 0 && Undone(parents[id], done) == 0;
    for j := 0 to |children[id]|
      invariant Releasing(parents, pending, done, children[id][..j]) && ReadyIs(pending, ready, done + {id})
    {
      var child := children[id][j];
      ChildWaits(parents, children, done, rank, id, child);
      ReleaseOne(parents, pending, ready, done, children[id], j, id);
      pending := pending[child := pending[child] - 1];
      if pending[child] == 0 {
        ready := ready + [child];
      }
    }
    assert children[id][..|children[id]|] == children[id];
  }

  lemma ReleaseOne(parents: Graph, pending: seq<nat>, ready: seq<nat>, done: set<nat>, kids: seq<nat>, j: nat, id: nat)
    requires j < |kids| && Releasing(parents, pending, done, kids[..j]) && ReadyIs(pending, ready, done + {id})
    requires kids[j] < |parents| && kids[j] !in done + {id} && Occurs(kids, kids[j]) <= Undone(parents[kids[j]], done)
    ensures pending[kids[j]] > 0
    ensures var released := pending[kids[j] := pending[kids[j]] - 1];
            Releasing(parents, released, done, kids[..j + 1])
            && ReadyIs(released, if released[kids[j]] == 0 then ready + [kids[j]] else ready, done + {id})
  {
    var child := kids[j];
    assert kids[..j + 1] == kids[..j] + [child];
    assert pending[child] > 0 by {
      OccursAppend(kids[..j], child, child);
      OccursBounds(kids, j + 1, child);
    }
    var released := pending[child := pending[child] - 1];
    forall c: nat | c < |parents| ensures released[c] + Occurs(kids[..j + 1], c) == Undone(parents[c], done) {
      OccursAppend(kids[..j], child, c);
    }
    PushReady(pending, ready, done + {id}, child);
  }

  lemma PushReady(pending: seq<nat>, ready: seq<nat>, done: set<nat>, child: nat)
    requires ReadyIs(pending, ready, done) && child < |pending| && child !in done && pending[child] > 0
    ensures var released := pending[child := pending[child] - 1];
            ReadyIs(released, if released[child] == 0 then ready + [child] else ready, done)
  {
    assert child !in ready;
    assert forall c: nat :: c in ready + [child] <==> c in ready || c == child;
  }

  lemma Visited(parents: Graph, children: seq<seq<nat>>, before: seq<nat>, ready0: seq<nat>, pending: seq<nat>,
                ready: seq<nat>,
                done: set<nat>, rank: map<nat, nat>, id: nat)
    requires Inverts(parents, children, |parents|) && Reduced(parents, before, ready0, done, rank)
    requires id in ready0 && id < |parents|
    requires Releasing(parents, pending, done, children[id]) && ReadyIs(pending, ready, done + {id})
    ensures Reduced(parents, pending, ready, done + {id}, rank[id := |done|])
  {
    assert id < |parents| && before[id] == 0;
    UndoneZero(parents[id], done);
    ReleasedCounts(parents, children, pending, done, id);
  }

  lemma ReleasedCounts(parents: Graph, children: seq<seq<nat>>, pending: seq<nat>, done: set<nat>, id: nat)
    requires Inverts(parents, children, |parents|) && id < |parents| && id !in done
    requires Releasing(parents, pending, done, children[id])
    ensures forall c | 0 <= c < |parents| :: pending[c] == Undone(parents[c], done + {id})
  {
    forall c: nat | c < |parents| ensures pending[c] == Undone(parents[c], done + {id}) {
      UndoneDrops(parents[c], done, id);
      assert Occurs(children[id], c) == Occurs(parents[c], id);
    }
  }

  method InitiallyReady(pending: seq<nat>) returns (ready: seq<nat>)
    ensures ReadyIs(pending, ready, {})
  {
    ready := [];
    for c := 0 to |pending|
      invariant forall x: nat :: x in ready <==> x < c && pending[x] == 0
      invariant forall i, j | 0 <= i < j < |ready| :: ready[i] != ready[j]
    {
      if pending[c] == 0 {
        assert c !in ready && forall x: nat :: x in ready + [c] <==> x in ready || x == c;
        ready := ready + [c];
      }
    }
  }

  /** Take the last ready node off the worklist and release its children. */
  method Visit(parents: Graph, children: seq<seq<nat>>, before: seq<nat>, ready0: seq<nat>,
               ghost done: set<nat>, ghost rank: map<nat, nat>)
    returns (pending: seq<nat>, ready: seq<nat>, ghost id: nat)
    requires Inverts(parents, children, |parents|) && Reduced(parents, before, ready0, done, rank) && ready0 != []
    ensures id !in done && id < |parents| && Reduced(parents, pending, ready, done + {id}, rank[id := |done|])
  {
    var waiting, next := ready0[..|ready0| - 1], ready0[|ready0| - 1];
    assert ready0 == waiting + [next] && next in ready0;
    id := next;
    pending, ready := Release(parents, children, before, waiting, next, ready0, done, rank);
    Visited(parents, children, before, ready0, pending, ready, done, rank, next);
  }

  /** Reduce the lineage; some node stays unvisited exactly when the lineage has a cycle. */
  method FindCycle(parents: Graph) returns (cyclic: bool)
    requires IsGraph(parents)
    ensures cyclic <==> Cyclic(parents)
  {
    var pending: seq<nat> := seq(|parents|, c requires 0 <= c < |parents| => |parents[c]|);
    var children := Children(parents);
    var ready := InitiallyReady(pending);
    ghost var done: set<nat>, rank: map<nat, nat> := {}, map[];
    forall c | 0 <= c < |parents| ensures pending[c] == Undone(parents[c], {}) { UndoneZero(parents[c], {}); }
    var visited := 0;
    while ready != []
      invariant Reduced(parents, pending, ready, done, rank) && visited == |done| <= |parents|
      decreases |parents| - visited
    {
      ghost var id;
      visited := visited + 1;
      pending, ready, id := Visit(parents, children, pending, ready, done, rank);
      done, rank := done + {id}, rank[id := |done|];
      Bounded(done, |parents|);
    }
    cyclic := visited != |parents|;
    Verdict(parents, pending, done, rank);
  }

  lemma {:induction false} Bounded(s: set<nat>, n: nat)
    requires forall x | x in s :: x < n
    ensures |s| <= n
    ensures |s| == n ==> forall x: nat | x < n :: x in s
  {
    if n > 0 {
      Bounded(s - {n - 1}, n - 1);
    } else {
      assert s == {};
    }
  }

  lemma Verdict(parents: Graph, pending: seq<nat>, done: set<nat>, rank: map<nat, nat>)
    requires IsGraph(parents) && Reduced(parents, pending, [], done, rank)
    ensures |done| != |parents| <==> Cyclic(parents)
  {
    Bounded(done, |parents|);
    if |done| == |parents| {
      if walk :| IsCycle(parents, walk) {
        assert Steps(parents, walk, 1);
        WalkDrops(parents, rank, walk);
      }
    } else {
      var rest := set c: nat | c < |parents| && c !in done;
      forall c | c in rest ensures KeepsParent(parents, rest, c) {
        assert c !in [] && pending[c] != 0;
        UndoneZero(parents[c], done);
        var p :| p in parents[c] && p !in done;
        assert HasParent(parents, c, p);
      }
      if rest == {} {
        assert forall c: nat | c < |parents| :: c in done by {
          forall c: nat | c < |parents| ensures c in done { assert c !in rest; }
        }
        Range(done, |parents|);
      }
      StuckIsCyclic(parents, rest);
    }
  }

  lemma {:induction false} Range(s: set<nat>, n: nat)
    requires forall x: nat | x < n :: x in s
    ensures |s| >= n
  {
    if n > 0 {
      Range(s - {n - 1}, n - 1);
    }
  }
}
