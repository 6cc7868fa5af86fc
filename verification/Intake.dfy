/**
 * Declared relations of a population: shared labels become star or chain edges, resolved parents
 * become lineage edges. The population is sorted by its unique keys, so a position stands for a key.
 */
module Intake {
  import opened Common
  import opened Components
  import Lineage

  datatype RecordId = RecordId(run: string, record: string)

  datatype Name = Name(space: string, id: string)

  datatype Task = Task(source: Name, group: Name, split: string)

  datatype Reference = Reference(catalogue: string, component: Name)

  /** A record as far as its declared relations go; `checked` says it has a contract and a prompt. */
  datatype Row = Row(
    key: RecordId, reference: Option<Reference>, task: Option<Task>, checked: bool,
    siblings: Option<string>, parents: seq<string>)

  /** A declared sibling set: run and sibling group. */
  type SiblingSet = (string, string)

  // ---- The labels a record carries ----

  function SourceOf(row: Row): Option<Name> {
    if row.task.Some? && row.checked then Some(row.task.value.source) else None
  }

  function TaskGroupOf(row: Row): Option<Name> {
    if row.task.Some? && row.checked then Some(row.task.value.group) else None
  }

  function SiblingsOf(row: Row, declared: seq<SiblingSet>): Option<SiblingSet> {
    if row.siblings.Some? && (row.key.run, row.siblings.value) in declared
    then Some((row.key.run, row.siblings.value)) else None
  }

  predicate Same<L(==)>(a: Option<L>, b: Option<L>) {
    a.Some? && a == b
  }

  /** `p` is the only record with the id, so a child that names the id resolves to it. */
  ghost predicate Resolves(rows: seq<Row>, id: string, p: nat) {
    p < |rows| && rows[p].key.record == id
    && forall q: nat | q < |rows| && rows[q].key.record == id :: q == p
  }

  ghost predicate IsParent(rows: seq<Row>, p: nat, c: nat) {
    c < |rows| && p != c && exists id :: id in rows[c].parents && Resolves(rows, id, p)
  }

  ghost predicate Shares(a: Row, b: Row, declared: seq<SiblingSet>) {
    Same(SourceOf(a), SourceOf(b)) || Same(TaskGroupOf(a), TaskGroupOf(b)) || Same(a.reference, b.reference)
    || Same(SiblingsOf(a, declared), SiblingsOf(b, declared))
  }

  ghost predicate Related(rows: seq<Row>, declared: seq<SiblingSet>, x: nat, y: nat) {
    x < |rows| && y < |rows| && (Shares(rows[x], rows[y], declared) || IsParent(rows, x, y) || IsParent(rows, y, x))
  }

  // ---- Stars and chains ----

  /** The edges join equal labels only, and they connect all of them. */
  ghost predicate Labelled<L>(labels: seq<Option<L>>, edges: seq<Edge>) {
    (forall e | e in edges :: e.0 < e.1 < |labels| && Same(labels[e.0], labels[e.1]))
    && forall x: nat, y: nat | x < |labels| && y < |labels| && Same(labels[x], labels[y]) :: Connected(edges, x, y)
  }

  /** Each label seen so far has one record that the next bearer of the label is joined to. */
  ghost predicate Hubs<L>(labels: seq<Option<L>>, hub: map<L, nat>) {
    (forall l | l in hub :: hub[l] < |labels| && labels[hub[l]] == Some(l))
    && forall x | 0 <= x < |labels| && labels[x].Some? :: labels[x].value in hub
  }

  lemma Attach<L>(labels: seq<Option<L>>, edges: seq<Edge>, tag: Option<L>, h: nat)
    requires Labelled(labels, edges) && h < |labels| && Same(labels[h], tag)
    ensures Labelled(labels + [tag], edges + [(h, |labels|)])
  {
    var longer, more, i := labels + [tag], edges + [(h, |labels|)], |labels|;
    ConnectedEdge(more, h, i) by { assert more[|edges|] == (h, i); }
    ConnectedSelf(more, i);
    forall x: nat | x < i && Same(longer[x], tag) ensures Connected(more, x, i) && Connected(more, i, x) {
      ConnectedGrows(edges, more, x, h);
      ConnectedTransitive(more, x, h, i);
      ConnectedSymmetric(more, x, i);
    }
    forall x: nat, y: nat | x < i && y < i && Same(longer[x], longer[y]) ensures Connected(more, x, y) {
      ConnectedGrows(edges, more, x, y);
    }
  }

  lemma Alone<L>(labels: seq<Option<L>>, edges: seq<Edge>, tag: Option<L>)
    requires Labelled(labels, edges) && forall x | 0 <= x < |labels| :: !Same(labels[x], tag)
    ensures Labelled(labels + [tag], edges)
  {
    ConnectedSelf(edges, |labels|);
  }

  /** Join every later bearer of a label to its first one. */
  method Star<L(==)>(labels: seq<Option<L>>) returns (edges: seq<Edge>)
    ensures Labelled(labels, edges)
  {
    var first: map<L, nat> := map[];
    edges := [];
    for i := 0 to |labels|
      invariant Labelled(labels[..i], edges) && Hubs(labels[..i], first)
    {
      assert labels[..i + 1] == labels[..i] + [labels[i]];
      if labels[i].Some? && labels[i].value in first {
        Attach(labels[..i], edges, labels[i], first[labels[i].value]);
        edges := edges + [(first[labels[i].value], i)];
      } else {
        Alone(labels[..i], edges, labels[i]);
        if labels[i].Some? {
          first := first[labels[i].value := i];
        }
      }
    }
    assert labels[..|labels|] == labels;
  }

  /** Join every later bearer of a label to the bearer before it. */
  method Chain<L(==)>(labels: seq<Option<L>>) returns (edges: seq<Edge>)
    ensures Labelled(labels, edges)
  {
    var last: map<L, nat> := map[];
    edges := [];
    for i := 0 to |labels|
      invariant Labelled(labels[..i], edges) && Hubs(labels[..i], last)
    {
      assert labels[..i + 1] == labels[..i] + [labels[i]];
      if labels[i].Some? {
        if labels[i].value in last {
          Attach(labels[..i], edges, labels[i], last[labels[i].value]);
          edges := edges + [(last[labels[i].value], i)];
        } else {
          Alone(labels[..i], edges, labels[i]);
        }
        last := last[labels[i].value := i];
      } else {
        Alone(labels[..i], edges, labels[i]);
      }
    }
    assert labels[..|labels|] == labels;
  }

  // ---- Parents ----

  /** The positions of the records with this id, ascending. */
  ghost predicate Bearers(rows: seq<Row>, id: string, positions: seq<nat>) {
    Ascending(positions) && forall p: nat :: p in positions <==> p < |rows| && rows[p].key.record == id
  }

  /** Positions by record id. */
  ghost predicate Indexes(rows: seq<Row>, byId: map<string, seq<nat>>) {
    (forall id | id in byId :: byId[id] != [] && Bearers(rows, id, byId[id]))
    && forall p | 0 <= p < |rows| :: rows[p].key.record in byId
  }

  lemma BearersOneMore(rows: seq<Row>, id: string, positions: seq<nat>, row: Row)
    requires Bearers(rows, id, positions)
    ensures Bearers(rows + [row], id, if row.key.record == id then positions + [|rows|] else positions)
  {
    if row.key.record == id {
      AscendingOneMore(positions, |rows|);
      forall p: nat ensures p in positions + [|rows|] <==> p < |rows| + 1 && (rows + [row])[p].key.record == id {
        assert p in positions + [|rows|] <==> p in positions || p == |rows|;
      }
    }
  }

  lemma IndexOneMore(rows: seq<Row>, byId: map<string, seq<nat>>, row: Row)
    requires Indexes(rows, byId)
    ensures var id := row.key.record;
            Indexes(rows + [row], byId[id := (if id in byId then byId[id] else []) + [|rows|]])
  {
    var id := row.key.record;
    var before := if id in byId then byId[id] else [];
    var after := byId[id := before + [|rows|]];
    forall other | other in after ensures after[other] != [] && Bearers(rows + [row], other, after[other]) {
      BearersOneMore(rows, other, if other == id then before else byId[other], row);
    }
  }

  method ById(rows: seq<Row>) returns (byId: map<string, seq<nat>>)
    ensures Indexes(rows, byId)
  {
    byId := map[];
    for i := 0 to |rows|
      invariant Indexes(rows[..i], byId)
    {
      IndexOneMore(rows[..i], byId, rows[i]);
      assert rows[..i + 1] == rows[..i] + [rows[i]];
      var id := rows[i].key.record;
      byId := byId[id := (if id in byId then byId[id] else []) + [i]];
    }
    assert rows[..|rows|] == rows;
  }

  /** The record a parent id resolves to for child `c`: its only bearer, unless that is `c` itself. */
  function Found(byId: map<string, seq<nat>>, id: string, c: nat): Option<nat> {
    if id in byId && |byId[id]| == 1 && byId[id][0] != c then Some(byId[id][0]) else None
  }

  lemma FoundIsResolved(rows: seq<Row>, byId: map<string, seq<nat>>, id: string, c: nat, p: nat)
    requires Indexes(rows, byId)
    ensures Found(byId, id, c) == Some(p) <==> Resolves(rows, id, p) && p != c
  {
    if id in byId {
      assert Bearers(rows, id, byId[id]) && byId[id][0] in byId[id];
      if |byId[id]| == 1 {
        assert forall q: nat | q in byId[id] :: q == byId[id][0];
      } else {
        assert byId[id][1] in byId[id] && byId[id][0] < byId[id][1];
      }
    }
  }

  /** The edge of a child to a parent, smaller position first. */
  function Normal(p: nat, c: nat): Edge {
    if p > c then (c, p) else (p, c)
  }

  /** `resolved` lists what the first `j` parent ids of `c` resolve to, repetitions included. */
  ghost predicate Resolved(rows: seq<Row>, c: nat, j: nat, resolved: seq<nat>) {
    c < |rows| && j <= |rows[c].parents|
    && forall p: nat :: p in resolved <==> p != c && exists k :: 0 <= k < j && Resolves(rows, rows[c].parents[k], p)
  }

  lemma ResolveOneMore(rows: seq<Row>, byId: map<string, seq<nat>>, c: nat, j: nat, resolved: seq<nat>)
    requires Indexes(rows, byId) && Resolved(rows, c, j, resolved) && j < |rows[c].parents|
    ensures var found := Found(byId, rows[c].parents[j], c);
            Resolved(rows, c, j + 1, if found.Some? then resolved + [found.value] else resolved)
  {
    var id := rows[c].parents[j];
    var found := Found(byId, id, c);
    var longer := if found.Some? then resolved + [found.value] else resolved;
    forall p: nat
      ensures p in longer <==> p != c && exists k :: 0 <= k < j + 1 && Resolves(rows, rows[c].parents[k], p)
    {
      FoundIsResolved(rows, byId, id, c, p);
      assert p in longer <==> p in resolved || found == Some(p);
    }
  }

  /** The resolved parents of one record. */
  method ParentsOf(rows: seq<Row>, byId: map<string, seq<nat>>, c: nat) returns (resolved: seq<nat>)
    requires Indexes(rows, byId) && c < |rows|
    ensures forall p: nat :: p in resolved <==> IsParent(rows, p, c)
  {
    resolved := [];
    for j := 0 to |rows[c].parents|
      invariant Resolved(rows, c, j, resolved)
    {
      ResolveOneMore(rows, byId, c, j, resolved);
      var found := Found(byId, rows[c].parents[j], c);
      if found.Some? {
        resolved := resolved + [found.value];
      }
    }
    forall p: nat ensures p in resolved <==> IsParent(rows, p, c) {
      if id :| id in rows[c].parents && Resolves(rows, id, p) {
        var k :| 0 <= k < |rows[c].parents| && rows[c].parents[k] == id;
        assert Resolves(rows, rows[c].parents[k], p);
      }
    }
  }

  /** `parents` is the resolved lineage of the first rows. */
  ghost predicate IsLineage(rows: seq<Row>, parents: Lineage.Graph, m: nat) {
    |parents| == m <= |rows|
    && forall c: nat, p: nat {:trigger IsParent(rows, p, c)} | c < m :: p in parents[c] <==> IsParent(rows, p, c)
  }

  /** `edges` are the normalized lineage edges of the first rows. */
  ghost predicate LineageEdges(rows: seq<Row>, edges: seq<Edge>, m: nat) {
    forall e :: e in edges <==> exists p: nat, c: nat :: c < m && IsParent(rows, p, c) && e == Normal(p, c)
  }

  method ResolveParents(rows: seq<Row>) returns (edges: seq<Edge>, parents: Lineage.Graph)
    ensures IsLineage(rows, parents, |rows|) && LineageEdges(rows, edges, |rows|)
  {
    var byId := ById(rows);
    edges, parents := [], [];
    for c := 0 to |rows|
      invariant IsLineage(rows, parents, c) && LineageEdges(rows, edges, c)
    {
      var resolved := ParentsOf(rows, byId, c);
      var fresh' := seq(|resolved|, i requires 0 <= i < |resolved| => Normal(resolved[i], c));
      LineageOneMore(rows, edges, c, resolved, fresh');
      edges, parents := edges + fresh', parents + [resolved];
    }
  }

  lemma LineageOneMore(rows: seq<Row>, edges: seq<Edge>, c: nat, resolved: seq<nat>, added: seq<Edge>)
    requires LineageEdges(rows, edges, c) && |added| == |resolved|
    requires forall p: nat :: p in resolved <==> IsParent(rows, p, c)
    requires forall i | 0 <= i < |added| :: added[i] == Normal(resolved[i], c)
    ensures LineageEdges(rows, edges + added, c + 1)
  {
    forall e
      ensures e in edges + added <==> exists p: nat, d: nat :: d < c + 1 && IsParent(rows, p, d) && e == Normal(p, d)
    {
      if e in added {
        var i :| 0 <= i < |added| && added[i] == e;
        assert resolved[i] in resolved;
      }
      if p: nat, d: nat :| d < c + 1 && IsParent(rows, p, d) && e == Normal(p, d) {
        if d == c {
          var i :| 0 <= i < |resolved| && resolved[i] == p;
          assert added[i] == e;
        }
      }
    }
  }

  // ---- All declared edges ----

  /** Edges join related records only, and related records are connected. */
  ghost predicate Declares(rows: seq<Row>, declared: seq<SiblingSet>, edges: seq<Edge>) {
    (forall e | e in edges :: e.0 < e.1 < |rows| && Related(rows, declared, e.0, e.1))
    && forall x: nat, y: nat | x != y && Related(rows, declared, x, y) :: Connected(edges, x, y)
  }

  /** One step from a child up to a resolved parent. */
  ghost predicate StepsUp(rows: seq<Row>, walk: seq<nat>, i: int)
    requires 0 < i < |walk|
  {
    IsParent(rows, walk[i], walk[i - 1])
  }

  /** A record that is its own ancestor. */
  ghost predicate IsAncestryCycle(rows: seq<Row>, walk: seq<nat>) {
    |walk| >= 2 && walk[0] == walk[|walk| - 1] && forall i | 0 < i < |walk| :: StepsUp(rows, walk, i)
  }

  lemma SameCycles(rows: seq<Row>, parents: Lineage.Graph, walk: seq<nat>)
    requires IsLineage(rows, parents, |rows|)
    ensures Lineage.IsCycle(parents, walk) <==> IsAncestryCycle(rows, walk)
  {
    forall i | 0 < i < |walk| ensures Lineage.Steps(parents, walk, i) <==> StepsUp(rows, walk, i) {
      assert IsParent(rows, walk[i], walk[i - 1]) ==> walk[i - 1] < |rows|;
    }
  }

  lemma EdgesOf<L>(rows: seq<Row>, declared: seq<SiblingSet>, labels: seq<Option<L>>, edges: seq<Edge>, all: seq<Edge>)
    requires Labelled(labels, edges) && |labels| == |rows| && forall e | e in edges :: e in all
    requires forall x: nat, y: nat | x < |rows| && y < |rows| && Same(labels[x], labels[y]) ::
               Shares(rows[x], rows[y], declared)
    ensures forall e | e in edges :: e.0 < e.1 < |rows| && Related(rows, declared, e.0, e.1)
    ensures forall x: nat, y: nat | x < |rows| && y < |rows| && Same(labels[x], labels[y]) :: Connected(all, x, y)
  {
    forall x: nat, y: nat | x < |rows| && y < |rows| && Same(labels[x], labels[y]) ensures Connected(all, x, y) {
      ConnectedGrows(edges, all, x, y);
    }
  }

  lemma ParentEdges(rows: seq<Row>, declared: seq<SiblingSet>, edges: seq<Edge>, all: seq<Edge>)
    requires LineageEdges(rows, edges, |rows|) && forall e | e in edges :: e in all
    ensures forall e | e in edges :: e.0 < e.1 < |rows| && Related(rows, declared, e.0, e.1)
    ensures forall p: nat, c: nat | IsParent(rows, p, c) :: Connected(all, p, c) && Connected(all, c, p)
  {
    forall p: nat, c: nat | IsParent(rows, p, c) ensures Connected(all, p, c) && Connected(all, c, p) {
      assert Normal(p, c) in edges;
      ConnectedEdge(all, p, c);
      ConnectedEdge(all, c, p);
    }
  }

  /** All declared edges, and whether some record is its own ancestor. */
  method DeclaredEdges(rows: seq<Row>, declared: seq<SiblingSet>) returns (edges: seq<Edge>, cyclic: bool)
    ensures Declares(rows, declared, edges)
    ensures cyclic <==> exists walk :: IsAncestryCycle(rows, walk)
  {
    var n := |rows|;
    var references := seq(n, i requires 0 <= i < n => rows[i].reference);
    var sources := seq(n, i requires 0 <= i < n => SourceOf(rows[i]));
    var groups := seq(n, i requires 0 <= i < n => TaskGroupOf(rows[i]));
    var siblings := seq(n, i requires 0 <= i < n => SiblingsOf(rows[i], declared));
    var a := Chain(references);
    var b := Star(sources);
    var c := Star(groups);
    var d := Star(siblings);
    var e, parents := ResolveParents(rows);
    edges := a + b + c + d + e;
    EdgesOf(rows, declared, references, a, edges);
    EdgesOf(rows, declared, sources, b, edges);
    EdgesOf(rows, declared, groups, c, edges);
    EdgesOf(rows, declared, siblings, d, edges);
    ParentEdges(rows, declared, e, edges);
    assert forall x: nat, p: nat | x < |rows| && p in parents[x] :: IsParent(rows, p, x);
    cyclic := Lineage.FindCycle(parents);
    forall walk ensures Lineage.IsCycle(parents, walk) <==> IsAncestryCycle(rows, walk) {
      SameCycles(rows, parents, walk);
    }
  }

  // ---- Extending a population ----

  /** `rows` are kept, in order, at the positions `at` of the larger population. */
  ghost predicate Extends(rows: seq<Row>, more: seq<Row>, at: seq<nat>) {
    |at| == |rows| && (forall x | 0 <= x < |at| :: at[x] < |more| && more[at[x]] == rows[x])
    && forall x, y | 0 <= x < y < |at| :: at[x] < at[y]
  }

  /** No added record carries the record id of `rows[p]`. */
  ghost predicate StaysUnique(rows: seq<Row>, more: seq<Row>, at: seq<nat>, p: nat)
    requires p < |rows|
  {
    forall q: nat | q < |more| && more[q].key.record == rows[p].key.record :: q in at
  }

  /**
   * A resolved parent stays resolved exactly as long as no added record carries its record id.
   * Otherwise the parent becomes ambiguous and its edge is lost.
   */
  lemma ParentSurvives(rows: seq<Row>, more: seq<Row>, at: seq<nat>, p: nat, c: nat)
    requires Extends(rows, more, at) && p < |rows| && IsParent(rows, p, c)
    ensures IsParent(more, at[p], at[c]) <==> StaysUnique(rows, more, at, p)
  {
    var id :| id in rows[c].parents && Resolves(rows, id, p);
    if StaysUnique(rows, more, at, p) {
      forall q: nat | q < |more| && more[q].key.record == id ensures q == at[p] {
        var x :| 0 <= x < |at| && at[x] == q;
        assert rows[x].key.record == id;
      }
      assert Resolves(more, id, at[p]);
    }
  }

  /** What an extension must not do: make a resolved parent ambiguous, or withdraw a sibling set. */
  ghost predicate Harmless(rows: seq<Row>, declared: seq<SiblingSet>, more: seq<Row>,
                           declared': seq<SiblingSet>, at: seq<nat>) {
    Extends(rows, more, at) && (forall s | s in declared :: s in declared')
    && forall p: nat, c: nat | IsParent(rows, p, c) && p < |rows| :: StaysUnique(rows, more, at, p)
  }

  lemma RelationSurvives(rows: seq<Row>, declared: seq<SiblingSet>, more: seq<Row>, declared': seq<SiblingSet>,
                         at: seq<nat>, x: nat, y: nat)
    requires Harmless(rows, declared, more, declared', at) && Related(rows, declared, x, y)
    ensures Related(more, declared', at[x], at[y])
  {
    if IsParent(rows, x, y) { ParentSurvives(rows, more, at, x, y); }
    if IsParent(rows, y, x) { ParentSurvives(rows, more, at, y, x); }
  }

  lemma {:induction false} PathSurvives(edges: seq<Edge>, more: seq<Edge>, at: seq<nat>, path: seq<nat>)
    requires forall e | e in edges :: e.0 < |at| && e.1 < |at| && Connected(more, at[e.0], at[e.1])
    requires IsPath(edges, path) && path[0] < |at|
    ensures path[|path| - 1] < |at| && Connected(more, at[path[0]], at[path[|path| - 1]])
  {
    if |path| == 1 {
      ConnectedSelf(more, at[path[0]]);
    } else {
      var x, y := path[|path| - 2], path[|path| - 1];
      PathSurvives(edges, more, at, path[..|path| - 1]);
      assert Adjacent(edges, x, y);
      if (y, x) in edges { ConnectedSymmetric(more, at[y], at[x]); }
      ConnectedTransitive(more, at[path[0]], at[x], at[y]);
    }
  }

  /** Under a harmless extension everything the declared and lexical edges connected stays connected. */
  lemma ConnectionSurvives(rows: seq<Row>, declared: seq<SiblingSet>, edges: seq<Edge>, lexical: seq<Edge>,
                           more: seq<Row>, declared': seq<SiblingSet>, edges': seq<Edge>, lexical': seq<Edge>,
                           at: seq<nat>, x: nat, y: nat)
    requires Harmless(rows, declared, more, declared', at)
    requires Declares(rows, declared, edges) && Declares(more, declared', edges')
    requires forall e | e in lexical :: e.0 < |at| && e.1 < |at| && (at[e.0], at[e.1]) in lexical'
    requires x < |rows| && Connected(edges + lexical, x, y)
    ensures y < |rows| && Connected(edges' + lexical', at[x], at[y])
  {
    var all := edges' + lexical';
    forall e | e in edges + lexical ensures e.0 < |at| && e.1 < |at| && Connected(all, at[e.0], at[e.1]) {
      if e in edges {
        RelationSurvives(rows, declared, more, declared', at, e.0, e.1);
        assert at[e.0] < at[e.1];
        ConnectedGrows(edges', all, at[e.0], at[e.1]);
      } else {
        ConnectedEdge(all, at[e.0], at[e.1]);
      }
    }
    var path :| Joins(edges + lexical, path, x, y);
    PathSurvives(edges + lexical, all, at, path);
  }
}
