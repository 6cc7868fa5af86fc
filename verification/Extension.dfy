/** Chains of screening plans, each extending the one before: what stays stable and what may not. */
module Extension {
  import opened Common
  import opened Components
  import opened Intake
  import opened Grouping
  import opened Lexical
  import opened Renaming
  import opened Screening
  import Shingles

  // ---- Identities nested in identities ----

  ghost predicate Inside(a: GroupId, b: GroupId)
    decreases b
  {
    b.Joined? && (a in b.prior || exists c | c in b.prior :: Inside(a, c))
  }

  lemma {:induction false} InsideTransitive(a: GroupId, b: GroupId, c: GroupId)
    requires Inside(a, b) && Inside(b, c)
    ensures Inside(a, c)
    decreases c
  {
    if b !in c.prior {
      var d :| d in c.prior && Inside(b, d);
      InsideTransitive(a, b, d);
    }
  }

  /** The identity is made of members of the population only. */
  ghost predicate Anchored(id: GroupId, pop: set<RecordId>)
    decreases id
  {
    match id
    case Anchor(first) => first in pop
    case Joined(prior) => prior != {} && forall g | g in prior :: Anchored(g, pop)
  }

  lemma {:induction false} AnchorsInside(id: GroupId, pop: set<RecordId>, a: GroupId)
    requires Anchored(id, pop) && Inside(a, id)
    ensures Anchored(a, pop)
    decreases id
  {
    if a !in id.prior {
      var c :| c in id.prior && Inside(a, c);
      AnchorsInside(c, pop, a);
    }
  }

  lemma {:induction false} AnchoredGrows(id: GroupId, pop: set<RecordId>, more: set<RecordId>)
    requires Anchored(id, pop) && pop <= more
    ensures Anchored(id, more)
    decreases id
  {
    if id.Joined? {
      forall g | g in id.prior ensures Anchored(g, more) { AnchoredGrows(g, pop, more); }
    }
  }

  // ---- A well-formed plan ----

  ghost function Population(rows: seq<Row>): set<RecordId> {
    set x | 0 <= x < |rows| :: rows[x].key
  }

  /** No identity of the plan is nested in another one, or in itself. */
  ghost predicate Unnested(ids: set<GroupId>) {
    forall g, h | g in ids && h in ids :: !Inside(g, h)
  }

  ghost function Ids(groups: seq<Group>): set<GroupId> {
    set i | 0 <= i < |groups| :: groups[i].id
  }

  ghost predicate DistinctIds(groups: seq<Group>) {
    forall i, j | 0 <= i < j < |groups| :: groups[i].id != groups[j].id
  }

  /** The groups partition the population under distinct, unnested identities anchored in it. */
  ghost predicate WellFormed(pop: set<RecordId>, groups: seq<Group>) {
    (forall i, id | 0 <= i < |groups| && id in groups[i].members :: id in pop)
    && (forall id | id in pop :: Holds(groups, id))
    && Disjoint(groups) && DistinctIds(groups) && Unnested(Ids(groups))
    && forall g | g in Ids(groups) :: Anchored(g, pop)
  }

  /** What the identity of a new group is made of. */
  ghost predicate MadeOf(prior: set<GroupId>, id: GroupId, pop: set<RecordId>) {
    if prior == {} then id.Anchor? && id.first !in pop else if |prior| == 1 then id in prior else id == Joined(prior)
  }

  lemma MadeOfOne(prior: set<GroupId>, id: GroupId)
    requires |prior| == 1 && id in prior
    ensures prior == {id}
  {
    assert |prior - {id}| == 0;
  }

  /** New identities are not nested, whatever the previous ones they are made of. */
  lemma NotInside(ids: set<GroupId>, pop: set<RecordId>, p: set<GroupId>, a: GroupId, q: set<GroupId>, b: GroupId)
    requires Unnested(ids) && (forall g | g in ids :: Anchored(g, pop)) && p <= ids && q <= ids
    requires MadeOf(p, a, pop) && MadeOf(q, b, pop) && (p !! q || a == b)
    ensures !Inside(a, b)
  {
    if Inside(a, b) {
      var host := b;
      if b !in ids && a !in b.prior {
        host :| host in b.prior && Inside(a, host);
      }
      if Inside(a, host) && host in ids {
        if p == {} {
          AnchorsInside(host, pop, a);
        } else if a !in ids {
          var s :| s in p;
          InsideTransitive(s, a, host);
        }
        assert false;
      }
    }
  }

  /** Two new identities made of previous ones are equal exactly when they are made of the same ones. */
  lemma SameMade(ids: set<GroupId>, pop: set<RecordId>, p: set<GroupId>, a: GroupId, q: set<GroupId>, b: GroupId)
    requires Unnested(ids) && (forall g | g in ids :: Anchored(g, pop)) && p <= ids && q <= ids
    requires MadeOf(p, a, pop) && MadeOf(q, b, pop) && (p != {} || q != {})
    ensures a == b <==> p == q
  {
    if |p| == 1 { MadeOfOne(p, a); }
    if |q| == 1 { MadeOfOne(q, b); }
    if a == b {
      if |p| > 1 && |q| == 1 {
        var s :| s in p;
        assert Inside(s, b);
      }
      if |q| > 1 && |p| == 1 {
        var s :| s in q;
        assert Inside(s, a);
      }
    }
  }

  // ---- One extension ----

  ghost predicate Extended(pop: set<RecordId>, previous: seq<Group>, rows: seq<Row>, edges: seq<Edge>,
                           matched: set<RecordId>, groups: seq<Group>) {
    WellFormed(pop, previous) && Distinct(rows) && pop <= Population(rows)
    && Plans(rows, edges, previous, matched, groups)
  }

  /** The members of a previous group are still connected. */
  ghost predicate Kept(rows: seq<Row>, edges: seq<Edge>, g: Group) {
    forall x: nat, y: nat | x < |rows| && y < |rows| && rows[x].key in g.members && rows[y].key in g.members ::
      Connected(edges, x, y)
  }

  lemma MadeOfPrior(pop: set<RecordId>, previous: seq<Group>, rows: seq<Row>, edges: seq<Edge>,
                    matched: set<RecordId>, g: Group)
    requires OfClass(rows, edges, previous, matched, g) && forall id | id in pop :: Holds(previous, id)
    ensures MadeOf(OldIds(previous, g.members), g.id, pop)
    ensures g.members != [] && IdIs(g.members, OldIds(previous, g.members), g.id)
    ensures forall id | id in g.members :: id in Population(rows)
  {
    FieldsOf(rows, edges, previous, matched, g);
    if Holds(previous, g.members[0]) { HeldIsMet(previous, g.members); }
  }

  lemma FieldsOf(rows: seq<Row>, edges: seq<Edge>, previous: seq<Group>, matched: set<RecordId>, g: Group)
    requires OfClass(rows, edges, previous, matched, g)
    ensures g.members != [] && IdIs(g.members, OldIds(previous, g.members), g.id)
    ensures forall id | id in g.members :: id in Population(rows)
  {
    var block :| IsClass(|rows|, edges, block) && GroupIs(rows, previous, matched, block, g);
  }

  lemma HeldIsMet(previous: seq<Group>, ids: seq<RecordId>)
    requires ids != [] && Holds(previous, ids[0])
    ensures OldIds(previous, ids) != {}
  {
    var i :| 0 <= i < |previous| && ids[0] in previous[i].members;
    assert ids[0] in ids && Meets(previous[i], ids);
    assert previous[i].id in OldIds(previous, ids);
  }

  lemma GroupMadeOf(pop: set<RecordId>, previous: seq<Group>, rows: seq<Row>, edges: seq<Edge>,
                    matched: set<RecordId>, groups: seq<Group>, j: nat)
    requires Extended(pop, previous, rows, edges, matched, groups) && j < |groups|
    ensures MadeOf(OldIds(previous, groups[j].members), groups[j].id, pop)
    ensures OldIds(previous, groups[j].members) <= Ids(previous)
    ensures groups[j].members != [] && IdIs(groups[j].members, OldIds(previous, groups[j].members), groups[j].id)
    ensures forall id | id in groups[j].members :: id in Population(rows)
  {
    MadeOfPrior(pop, previous, rows, edges, matched, groups[j]);
  }

  /**
   * Two groups of an extension share an identity exactly when they meet the same previous groups,
   * and at least one: which takes a previous group that was split between them.
   */
  lemma IdsCollide(pop: set<RecordId>, previous: seq<Group>, rows: seq<Row>, edges: seq<Edge>,
                   matched: set<RecordId>, groups: seq<Group>, i: nat, j: nat)
    requires Extended(pop, previous, rows, edges, matched, groups) && i < j < |groups|
    ensures groups[i].id == groups[j].id
            <==> OldIds(previous, groups[i].members) == OldIds(previous, groups[j].members) != {}
  {
    GroupMadeOf(pop, previous, rows, edges, matched, groups, i);
    GroupMadeOf(pop, previous, rows, edges, matched, groups, j);
    var p, q := OldIds(previous, groups[i].members), OldIds(previous, groups[j].members);
    if p != {} || q != {} {
      SameMade(Ids(previous), pop, p, groups[i].id, q, groups[j].id);
    } else {
      assert groups[i].members[0] in groups[i].members && groups[j].members[0] in groups[j].members;
    }
  }

  /** A previous group whose members are still connected lies inside every group that it meets. */
  lemma NotSplit(pop: set<RecordId>, previous: seq<Group>, rows: seq<Row>, edges: seq<Edge>,
                 matched: set<RecordId>, groups: seq<Group>, i: nat, j: nat)
    requires Extended(pop, previous, rows, edges, matched, groups) && i < |previous| && j < |groups|
    requires Kept(rows, edges, previous[i]) && Meets(previous[i], groups[j].members)
    ensures forall id | id in previous[i].members :: id in groups[j].members
  {
    var met :| met in previous[i].members && met in groups[j].members;
    assert met in Population(rows);
    var x: nat :| x < |rows| && rows[x].key == met;
    forall id | id in previous[i].members ensures id in groups[j].members {
      assert id in Population(rows);
      var y: nat :| y < |rows| && rows[y].key == id;
      SharesGroup(rows, edges, previous, matched, groups[j], x, y);
    }
  }

  lemma MeetApart(pop: set<RecordId>, previous: seq<Group>, rows: seq<Row>, edges: seq<Edge>,
                  matched: set<RecordId>, groups: seq<Group>, i: nat, j: nat)
    requires Extended(pop, previous, rows, edges, matched, groups) && i < j < |groups|
    requires forall g | g in previous :: Kept(rows, edges, g)
    ensures OldIds(previous, groups[i].members) !! OldIds(previous, groups[j].members)
  {
    forall g | g in OldIds(previous, groups[i].members) ensures g !in OldIds(previous, groups[j].members) {
      var p: nat :| p < |previous| && previous[p].id == g && Meets(previous[p], groups[i].members);
      NotSplit(pop, previous, rows, edges, matched, groups, p, i);
      var met :| met in previous[p].members && met in groups[i].members;
      forall q: nat | q < |previous| && previous[q].id == g ensures !Meets(previous[q], groups[j].members) {
        assert p == q;
      }
    }
  }

  /** Every new identity is made of previous ones, and different groups of different ones. */
  ghost predicate AllMade(pop: set<RecordId>, previous: seq<Group>, groups: seq<Group>) {
    (forall i | 0 <= i < |groups| ::
       MadeOf(OldIds(previous, groups[i].members), groups[i].id, pop)
       && OldIds(previous, groups[i].members) <= Ids(previous))
    && forall i, j | 0 <= i < |groups| && 0 <= j < |groups| && i != j ::
         OldIds(previous, groups[i].members) !! OldIds(previous, groups[j].members)
  }

  lemma NewUnnested(pop: set<RecordId>, previous: seq<Group>, groups: seq<Group>)
    requires Unnested(Ids(previous)) && forall g | g in Ids(previous) :: Anchored(g, pop)
    requires AllMade(pop, previous, groups)
    ensures Unnested(Ids(groups))
  {
    forall i: nat, j: nat | i < |groups| && j < |groups| ensures !Inside(groups[i].id, groups[j].id) {
      NotInside(Ids(previous), pop, OldIds(previous, groups[i].members), groups[i].id,
                OldIds(previous, groups[j].members), groups[j].id);
    }
  }

  /**
   * Extending a plan whose groups stay connected gives a well-formed plan: it partitions the new
   * population, and its identities are distinct.
   */
  lemma ExtensionIsWellFormed(pop: set<RecordId>, previous: seq<Group>, rows: seq<Row>, edges: seq<Edge>,
                              matched: set<RecordId>, groups: seq<Group>)
    requires Extended(pop, previous, rows, edges, matched, groups)
    requires forall g | g in previous :: Kept(rows, edges, g)
    ensures WellFormed(Population(rows), groups)
  {
    forall i, id | 0 <= i < |groups| && id in groups[i].members ensures id in Population(rows) {
      GroupMadeOf(pop, previous, rows, edges, matched, groups, i);
    }
    forall i: nat, j: nat | i < j < |groups| ensures groups[i].id != groups[j].id {
      IdsCollide(pop, previous, rows, edges, matched, groups, i, j);
      MeetApart(pop, previous, rows, edges, matched, groups, i, j);
    }
    assert AllMade(pop, previous, groups) by {
      forall i: nat | i < |groups| ensures MadeOf(OldIds(previous, groups[i].members), groups[i].id, pop)
        && OldIds(previous, groups[i].members) <= Ids(previous)
      {
        GroupMadeOf(pop, previous, rows, edges, matched, groups, i);
      }
      forall i: nat, j: nat | i < j < |groups|
        ensures OldIds(previous, groups[i].members) !! OldIds(previous, groups[j].members)
      {
        MeetApart(pop, previous, rows, edges, matched, groups, i, j);
      }
    }
    NewUnnested(pop, previous, groups);
    forall i: nat | i < |groups| ensures Anchored(groups[i].id, Population(rows)) {
      NewAnchored(pop, previous, rows, edges, matched, groups, i);
    }
  }

  lemma NewAnchored(pop: set<RecordId>, previous: seq<Group>, rows: seq<Row>, edges: seq<Edge>,
                    matched: set<RecordId>, groups: seq<Group>, i: nat)
    requires Extended(pop, previous, rows, edges, matched, groups) && i < |groups|
    ensures Anchored(groups[i].id, Population(rows))
  {
    GroupMadeOf(pop, previous, rows, edges, matched, groups, i);
    var g := groups[i];
    forall h | h in Ids(previous) ensures Anchored(h, Population(rows)) {
      AnchoredGrows(h, pop, Population(rows));
    }
    assert g.members[0] in g.members;
  }

  /** A group that meets exactly one previous group inherits its identity. */
  lemma InheritsId(pop: set<RecordId>, previous: seq<Group>, rows: seq<Row>, edges: seq<Edge>,
                   matched: set<RecordId>, groups: seq<Group>, i: nat, j: nat)
    requires Extended(pop, previous, rows, edges, matched, groups) && i < |previous| && j < |groups|
    requires forall p | 0 <= p < |previous| :: Meets(previous[p], groups[j].members) <==> p == i
    ensures groups[j].id == previous[i].id
  {
    GroupMadeOf(pop, previous, rows, edges, matched, groups, j);
    assert OldIds(previous, groups[j].members) == {previous[i].id};
  }

  /** Once a group joined prior groups, every group of the extension that meets it says so. */
  lemma JoinPersists(pop: set<RecordId>, previous: seq<Group>, rows: seq<Row>, edges: seq<Edge>,
                     matched: set<RecordId>, groups: seq<Group>, i: nat, j: nat)
    requires Extended(pop, previous, rows, edges, matched, groups) && i < |previous| && j < |groups|
    requires Meets(previous[i], groups[j].members) && JoinedPriorGroups in previous[i].reasons
    ensures JoinedPriorGroups in groups[j].reasons
  {
    assert OfClass(rows, edges, previous, matched, groups[j]);
    var prior := OldIds(previous, groups[j].members);
    assert previous[i].id in prior && previous[i] in previous;
    assert JoinedBefore(previous, prior);
  }

  // ---- When an extension keeps its groups connected ----

  lemma KeptPosition(rows: seq<Row>, more: seq<Row>, at: seq<nat>, x': nat) returns (x: nat)
    requires Distinct(more) && Extends(rows, more, at) && x' < |more| && more[x'].key in Population(rows)
    ensures x < |rows| && at[x] == x' && rows[x].key == more[x'].key
  {
    x :| x < |rows| && rows[x].key == more[x'].key;
  }

  /** The texts of the old records, screened in another index as the records at `at` of a larger corpus. */
  ghost predicate SameTexts(i: Interned, w: Corpus, i': Interned, w': Corpus, at: seq<nat>) {
    i.segments == w.segments && i'.segments == w'.segments && |at| == |w.records|
    && forall x | 0 <= x < |at| :: at[x] < |w'.records| && SameUnits(i, w.records[x].units, i', w'.records[at[x]].units)
  }

  /** Two corpora under one policy; the larger one keeps the records, their texts and their relations. */
  ghost predicate Grown(policy: Policy, i: Interned, w: Corpus, i': Interned, w': Corpus, at: seq<nat>) {
    w.Valid() && w'.Valid() && i.Valid() && i'.Valid()
    && w.alike == EvidentPairs(policy, w.segments) && w'.alike == EvidentPairs(policy, w'.segments)
    && SameTexts(i, w, i', w', at) && Harmless(w.rows, w.declared, w'.rows, w'.declared, at)
  }

  /** Old records match in the extension exactly if they matched before. */
  lemma MatchSurvives(policy: Policy, i: Interned, w: Corpus, i': Interned, w': Corpus, at: seq<nat>, x: nat, y: nat)
    requires Grown(policy, i, w, i', w', at) && x < |at| && y < |at|
    ensures w.Matches(x, y) <==> w'.Matches(at[x], at[y])
  {
    var us, us' := UnitsOf(w.records), UnitsOf(w'.records);
    RecordsMatchAgain(policy, i, us[x], us[y], i', us'[at[x]], us'[at[y]]);
  }

  /** A scan that refused nothing finds every old lexical edge again. */
  lemma LexicalSurvives(policy: Policy, i: Interned, w: Corpus, lexical: seq<Edge>, i': Interned, w': Corpus,
                        lexical': seq<Edge>, at: seq<nat>)
    requires Grown(policy, i, w, i', w', at) && EdgesSound(w, lexical) && EdgesComplete(w', lexical')
    ensures forall e | e in lexical :: e.0 < |at| && e.1 < |at| && (at[e.0], at[e.1]) in lexical'
  {
    forall e | e in lexical ensures e.0 < |at| && e.1 < |at| && (at[e.0], at[e.1]) in lexical' {
      MatchSurvives(policy, i, w, i', w', at, e.0, e.1);
      assert at[e.0] < at[e.1];
    }
  }

  /**
   * An extension whose scan refused nothing, that withdraws no declared sibling set and makes no
   * resolved parent ambiguous, keeps every group connected.
   */
  lemma HarmlessKeeps(policy: Policy, i: Interned, w: Corpus, edges: seq<Edge>, lexical: seq<Edge>,
                      previous: seq<Group>, matched: set<RecordId>, g: Group,
                      i': Interned, w': Corpus, edges': seq<Edge>, lexical': seq<Edge>, at: seq<nat>)
    requires Grown(policy, i, w, i', w', at) && EdgesSound(w, lexical) && EdgesComplete(w', lexical')
    requires Intake.Declares(w.rows, w.declared, edges) && Intake.Declares(w'.rows, w'.declared, edges')
    requires OfClass(w.rows, edges + lexical, previous, matched, g)
    ensures Kept(w'.rows, edges' + lexical', g)
  {
    FieldsOf(w.rows, edges + lexical, previous, matched, g);
    LexicalSurvives(policy, i, w, lexical, i', w', lexical', at);
    forall x': nat, y': nat | x' < |w'.rows| && y' < |w'.rows|
                              && w'.rows[x'].key in g.members && w'.rows[y'].key in g.members
      ensures Connected(edges' + lexical', x', y')
    {
      var x := KeptPosition(w.rows, w'.rows, at, x');
      var y := KeptPosition(w.rows, w'.rows, at, y');
      SharesGroup(w.rows, edges + lexical, previous, matched, g, x, y);
      ConnectionSurvives(w.rows, w.declared, edges, lexical, w'.rows, w'.declared, edges', lexical', at, x, y);
    }
  }

  /** A plan as screening made it of a corpus, with its declared and lexical edges. */
  datatype Made = Made(
    interned: Interned, corpus: Corpus, edges: seq<Edge>, lexical: seq<Edge>, before: seq<Group>,
    matched: set<RecordId>)

  ghost predicate IsMade(m: Made, groups: seq<Group>) {
    m.corpus.Valid() && EdgesSound(m.corpus, m.lexical)
    && Intake.Declares(m.corpus.rows, m.corpus.declared, m.edges)
    && Plans(m.corpus.rows, m.edges + m.lexical, m.before, m.matched, groups)
  }

  /** The whole group is in every new group that it meets. */
  ghost predicate Unsplit(g: Group, groups: seq<Group>) {
    forall j, id | 0 <= j < |groups| && Meets(g, groups[j].members) && id in g.members :: id in groups[j].members
  }

  /** Declared relations and matching units still lead from every member to every other. */
  ghost predicate StillLinked(w: Corpus, g: Group)
    requires w.Valid()
  {
    forall x: nat, y: nat | x < |w.rows| && y < |w.rows| && w.rows[x].key in g.members && w.rows[y].key in g.members ::
      Reaches(w, x, y)
  }

  lemma KeptIsUnsplit(rows: seq<Row>, edges: seq<Edge>, previous: seq<Group>, matched: set<RecordId>,
                      groups: seq<Group>, g: Group)
    requires Distinct(rows) && Plans(rows, edges, previous, matched, groups) && Kept(rows, edges, g)
    requires forall id | id in g.members :: id in Population(rows)
    ensures Unsplit(g, groups)
  {
    forall j, id | 0 <= j < |groups| && Meets(g, groups[j].members) && id in g.members
      ensures id in groups[j].members
    {
      var met :| met in g.members && met in groups[j].members;
      assert met in Population(rows) && id in Population(rows);
      var x: nat :| x < |rows| && rows[x].key == met;
      var y: nat :| y < |rows| && rows[y].key == id;
      assert OfClass(rows, edges, previous, matched, groups[j]);
      SharesGroup(rows, edges, previous, matched, groups[j], x, y);
    }
  }

  lemma UnsplitIsKept(rows: seq<Row>, edges: seq<Edge>, previous: seq<Group>, matched: set<RecordId>,
                      groups: seq<Group>, g: Group)
    requires Distinct(rows) && Plans(rows, edges, previous, matched, groups) && Unsplit(g, groups)
    ensures Kept(rows, edges, g)
  {
    forall x: nat, y: nat | x < |rows| && y < |rows| && rows[x].key in g.members && rows[y].key in g.members
      ensures Connected(edges, x, y)
    {
      assert Holds(groups, rows[x].key);
      var j :| 0 <= j < |groups| && rows[x].key in groups[j].members;
      assert Meets(g, groups[j].members);
      assert OfClass(rows, edges, previous, matched, groups[j]);
      SharesGroup(rows, edges, previous, matched, groups[j], x, y);
    }
  }

  lemma KeptIsLinked(w: Corpus, edges: seq<Edge>, lexical: seq<Edge>, g: Group)
    requires w.Valid() && Intake.Declares(w.rows, w.declared, edges) && EdgesSound(w, lexical)
    ensures Kept(w.rows, edges + lexical, g) ==> StillLinked(w, g)
    ensures EdgesComplete(w, lexical) && StillLinked(w, g) ==> Kept(w.rows, edges + lexical, g)
  {
    forall x: nat, y: nat | x < |w.rows| && y < |w.rows|
      ensures Connected(edges + lexical, x, y) ==> Reaches(w, x, y)
      ensures EdgesComplete(w, lexical) ==> (Reaches(w, x, y) ==> Connected(edges + lexical, x, y))
    {
      ConnectedIsReached(w, edges, lexical, x, y);
    }
  }

  /**
   * A former group is whole exactly if the edges found still connect it. If every matching pair has
   * its edge, that is exactly if its members still reach each other in the new corpus; otherwise only if.
   */
  lemma UnsplitIffLinked(m: Made, groups: seq<Group>, g: Group)
    requires IsMade(m, groups) && forall id | id in g.members :: id in Population(m.corpus.rows)
    ensures Unsplit(g, groups) <==> Kept(m.corpus.rows, m.edges + m.lexical, g)
    ensures Unsplit(g, groups) ==> StillLinked(m.corpus, g)
    ensures EdgesComplete(m.corpus, m.lexical) ==> (Unsplit(g, groups) <==> StillLinked(m.corpus, g))
  {
    var rows, all := m.corpus.rows, m.edges + m.lexical;
    KeptIsLinked(m.corpus, m.edges, m.lexical, g);
    if Unsplit(g, groups) { UnsplitIsKept(rows, all, m.before, m.matched, groups, g); }
    if Kept(rows, all, g) { KeptIsUnsplit(rows, all, m.before, m.matched, groups, g); }
  }

  ghost predicate NoneSplit(previous: seq<Group>, groups: seq<Group>) {
    forall g | g in previous :: Unsplit(g, groups)
  }

  /** If no group of a well-formed plan is split, the extension is well-formed as well. */
  lemma NoneSplitIsWellFormed(m: Made, groups: seq<Group>, pop: set<RecordId>)
    requires IsMade(m, groups) && WellFormed(pop, m.before) && pop <= Population(m.corpus.rows)
    requires NoneSplit(m.before, groups)
    ensures WellFormed(Population(m.corpus.rows), groups)
  {
    var rows, all := m.corpus.rows, m.edges + m.lexical;
    forall g | g in m.before ensures Kept(rows, all, g) {
      UnsplitIsKept(rows, all, m.before, m.matched, groups, g);
    }
    ExtensionIsWellFormed(pop, m.before, rows, all, m.matched, groups);
  }

  /** One screening extends another under one policy; it keeps the records, their texts and their relations. */
  ghost predicate GrownFrom(policy: Policy, m: Made, m': Made, at: seq<nat>) {
    Grown(policy, m.interned, m.corpus, m'.interned, m'.corpus, at)
  }

  lemma GrownKeeps(policy: Policy, m: Made, previous: seq<Group>, m': Made, groups: seq<Group>, at: seq<nat>)
    requires IsMade(m, previous) && IsMade(m', groups) && m'.before == previous
    requires GrownFrom(policy, m, m', at) && EdgesComplete(m'.corpus, m'.lexical)
    ensures Population(m.corpus.rows) <= Population(m'.corpus.rows)
    ensures forall g | g in previous :: Kept(m'.corpus.rows, m'.edges + m'.lexical, g)
  {
    var rows, rows' := m.corpus.rows, m'.corpus.rows;
    forall x | 0 <= x < |rows| ensures rows[x].key in Population(rows') {
      assert rows'[at[x]].key == rows[x].key;
    }
    forall g | g in previous ensures Kept(rows', m'.edges + m'.lexical, g) {
      var k :| 0 <= k < |previous| && previous[k] == g;
      assert OfClass(rows, m.edges + m.lexical, m.before, m.matched, previous[k]);
      HarmlessKeeps(policy, m.interned, m.corpus, m.edges, m.lexical, m.before, m.matched, g,
                    m'.interned, m'.corpus, m'.edges, m'.lexical, at);
    }
  }

  lemma GrownSplitsNone(policy: Policy, m: Made, previous: seq<Group>, m': Made, groups: seq<Group>, at: seq<nat>)
    requires IsMade(m, previous) && IsMade(m', groups) && m'.before == previous
    requires WellFormed(Population(m.corpus.rows), previous)
    requires GrownFrom(policy, m, m', at) && EdgesComplete(m'.corpus, m'.lexical)
    ensures NoneSplit(previous, groups) && WellFormed(Population(m'.corpus.rows), groups)
  {
    GrownKeeps(policy, m, previous, m', groups, at);
    forall g | g in previous ensures Unsplit(g, groups) {
      var k :| 0 <= k < |previous| && previous[k] == g;
      assert forall id | id in previous[k].members :: id in Population(m.corpus.rows);
      KeptIsUnsplit(m'.corpus.rows, m'.edges + m'.lexical, previous, m'.matched, groups, g);
    }
    NoneSplitIsWellFormed(m', groups, Population(m.corpus.rows));
  }

  ghost function InternedOf(index: TextIndex): Interned
    reads index
  {
    Interned(index.words, index.segments, index.sources)
  }

  /**
   * Screening an extension of a plan. If the limits leave room for all comparisons between records, a
   * previous group stays whole exactly if its members still reach each other; so no group of a
   * harmless extension is split. If none is, the new plan is well-formed again.
   */
  method Extend(index: TextIndex, rows: seq<Row>, declared: seq<SiblingSet>, records: seq<Projection>,
                items: seq<Protected>, policy: Policy, previous: seq<Group>, ghost earlier: Made, ghost at: seq<nat>)
    returns (groups: seq<Group>, refused: Option<string>, ghost made: Made)
    requires index.Valid() && policy.Valid() && AllProjected(records, items, index.segments)
    requires |records| == |rows| && Distinct(rows) && Projected(UnitsOf(records), index.segments)
    requires IsMade(earlier, previous) && WellFormed(Population(earlier.corpus.rows), previous)
    requires Population(earlier.corpus.rows) <= Population(rows)
    modifies index
    ensures made.interned == old(InternedOf(index)) && made.before == previous && IsMade(made, groups)
    ensures made.corpus == Corpus(rows, declared, records, items, old(index.segments),
                                  EvidentPairs(policy, old(index.segments)))
    ensures old(Unspent(index, policy)) ==> (refused == None <==> old(Affords(index, made.corpus, policy)))
    ensures refused == None || old(Unspent(index, policy) && AffordsEdges(index, made.corpus, policy)) ==>
              EdgesComplete(made.corpus, made.lexical)
    ensures old(Fits(index, policy)) || made.lexical == []
    ensures forall g | g in previous :: Unsplit(g, groups) <==> Kept(rows, made.edges + made.lexical, g)
    ensures forall g | g in previous && Unsplit(g, groups) :: StillLinked(made.corpus, g)
    ensures EdgesComplete(made.corpus, made.lexical) ==>
              forall g | g in previous && StillLinked(made.corpus, g) :: Unsplit(g, groups)
    ensures EdgesComplete(made.corpus, made.lexical) && GrownFrom(policy, earlier, made, at) ==>
              NoneSplit(previous, groups)
    ensures NoneSplit(previous, groups) ==> WellFormed(Population(rows), groups)
  {
    ghost var interned := InternedOf(index);
    ghost var w, edges, lexical, matched;
    groups, refused, w, edges, lexical, matched := Screen(index, rows, declared, records, items, policy, previous);
    made := Made(interned, w, edges, lexical, previous, matched);
    forall g | g in previous
      ensures Unsplit(g, groups) <==> Kept(rows, edges + lexical, g)
      ensures Unsplit(g, groups) ==> StillLinked(made.corpus, g)
      ensures EdgesComplete(made.corpus, lexical) && StillLinked(made.corpus, g) ==> Unsplit(g, groups)
    {
      var k :| 0 <= k < |previous| && previous[k] == g;
      assert forall id | id in previous[k].members :: id in Population(earlier.corpus.rows);
      UnsplitIffLinked(made, groups, g);
    }
    if EdgesComplete(made.corpus, lexical) && GrownFrom(policy, earlier, made, at) {
      GrownSplitsNone(policy, earlier, previous, made, groups, at);
    }
    if NoneSplit(previous, groups) {
      NoneSplitIsWellFormed(made, groups, Population(earlier.corpus.rows));
    }
  }

  // ---- When it does not ----

  const PARENT := Row(RecordId("a", "p"), None, None, false, None, [])
  const CHILD := Row(RecordId("a", "q"), None, None, false, None, ["p"])
  const NAMESAKE := Row(RecordId("b", "p"), None, None, false, None, [])

  function Pair(a: Row, b: Row): Group {
    Group(Anchor(a.key), [a.key, b.key], None, {}, false)
  }

  /** Two groups carry one identity. */
  ghost predicate Collides(groups: seq<Group>) {
    exists i, j :: 0 <= i < j < |groups| && groups[i].id == groups[j].id
  }

  lemma NoEdgesNoPaths(x: nat, y: nat)
    requires Connected([], x, y)
    ensures x == y
  {
    var path :| Joins([], path, x, y);
    assert |path| > 1 ==> Adjacent([], path[0], path[1]);
  }

  /** The plan of two joined records without splits. */
  lemma PairIsPlanned(a: Row, b: Row)
    requires a.key != b.key && a.task == None
    ensures Plans([a, b], [(0, 1)], [], {}, [Pair(a, b)])
  {
    var rows, block := [a, b], [0, 1];
    ConnectedEdge([(0, 1)], 0, 1);
    ConnectedEdge([(0, 1)], 1, 0);
    ConnectedSelf([(0, 1)], 0);
    ConnectedSelf([(0, 1)], 1);
    assert IsClass(2, [(0, 1)], block);
    assert Keys(rows, block) == Pair(a, b).members;
    assert OldIds([], Pair(a, b).members) == {};
    assert GroupIs(rows, [], {}, block, Pair(a, b)) by {
      assert forall s :: !DeclaresSplit(rows[0], s);
      assert 0 in block;
    }
    assert OfClass(rows, [(0, 1)], [], {}, Pair(a, b));
    assert [Pair(a, b)][0].members[0] == a.key && [Pair(a, b)][0].members[1] == b.key;
  }

  lemma SoleInherits(rows: seq<Row>, edges: seq<Edge>, whole: Group, matched: set<RecordId>, g: Group)
    requires OfClass(rows, edges, [whole], matched, g) && Meets(whole, g.members)
    ensures g.id == whole.id
  {
    FieldsOf(rows, edges, [whole], matched, g);
    assert [whole][0] == whole;
    assert OldIds([whole], g.members) == {whole.id};
  }

  lemma EdgelessApart(rows: seq<Row>, previous: seq<Group>, matched: set<RecordId>, g: Group, x: nat, y: nat)
    requires Distinct(rows) && OfClass(rows, [], previous, matched, g) && x < |rows| && y < |rows| && x != y
    requires rows[x].key in g.members
    ensures rows[y].key !in g.members
  {
    SharesGroup(rows, [], previous, matched, g, x, y);
    if Connected([], x, y) { NoEdgesNoPaths(x, y); }
  }

  /** With no edge left, the two members of a former group carry its identity in two groups. */
  lemma HalvesCollide(rows: seq<Row>, whole: Group, matched: set<RecordId>, groups: seq<Group>, x: nat, y: nat)
    requires Distinct(rows) && Plans(rows, [], [whole], matched, groups) && x < |rows| && y < |rows| && x != y
    requires rows[x].key in whole.members && rows[y].key in whole.members
    ensures Collides(groups)
  {
    assert Holds(groups, rows[x].key) && Holds(groups, rows[y].key);
    var i: nat :| i < |groups| && rows[x].key in groups[i].members;
    var j: nat :| j < |groups| && rows[y].key in groups[j].members;
    EdgelessApart(rows, [whole], matched, groups[i], x, y);
    assert Meets(whole, groups[i].members) && Meets(whole, groups[j].members);
    SoleInherits(rows, [], whole, matched, groups[i]);
    SoleInherits(rows, [], whole, matched, groups[j]);
  }

  /** The declared edges before and after the namesake arrives. */
  lemma FamilyEdges()
    ensures Intake.Declares([PARENT, CHILD], [], [(0, 1)]) && Intake.Declares([PARENT, CHILD, NAMESAKE], [], [])
  {
    var rows, more := [PARENT, CHILD], [PARENT, CHILD, NAMESAKE];
    assert Resolves(rows, "p", 0);
    assert IsParent(rows, 0, 1);
    ConnectedEdge([(0, 1)], 0, 1);
    ConnectedEdge([(0, 1)], 1, 0);
    assert more[0].key.record == more[2].key.record == "p";
    assert forall p: nat :: !Resolves(more, "p", p);
    assert forall p: nat, c: nat :: !IsParent(more, p, c);
  }

  /**
   * The premise about parents is needed. A child and its parent form one group; a later record of
   * another run with the parent's record id makes the parent ambiguous. The edge is gone, and in
   * every plan of the extension the group is split and both halves inherit its identity.
   */
  lemma AmbiguousParentCollides(matched: set<RecordId>, groups: seq<Group>)
    ensures Intake.Declares([PARENT, CHILD], [], [(0, 1)])
    ensures Plans([PARENT, CHILD], [(0, 1)], [], {}, [Pair(PARENT, CHILD)])
    ensures Intake.Declares([PARENT, CHILD, NAMESAKE], [], [])
    ensures Plans([PARENT, CHILD, NAMESAKE], [], [Pair(PARENT, CHILD)], matched, groups) ==> Collides(groups)
  {
    var more := [PARENT, CHILD, NAMESAKE];
    FamilyEdges();
    PairIsPlanned(PARENT, CHILD);
    if Plans(more, [], [Pair(PARENT, CHILD)], matched, groups) {
      assert more[0] == PARENT && more[1] == CHILD && Pair(PARENT, CHILD).members == [PARENT.key, CHILD.key];
      HalvesCollide(more, Pair(PARENT, CHILD), matched, groups, 0, 1);
    }
  }

  const FIRST := Row(RecordId("a", "1"), None, None, false, Some("g"), [])
  const SECOND := Row(RecordId("a", "2"), None, None, false, Some("g"), [])

  /** The declared edges of two siblings while their set is declared, and when it is withdrawn. */
  lemma SiblingEdges()
    ensures Intake.Declares([FIRST, SECOND], [("a", "g")], [(0, 1)]) && Intake.Declares([FIRST, SECOND], [], [])
  {
    var rows := [FIRST, SECOND];
    ConnectedEdge([(0, 1)], 0, 1);
    ConnectedEdge([(0, 1)], 1, 0);
    assert ("a", "g") in [("a", "g")];
    assert Related(rows, [("a", "g")], 0, 1);
    assert forall p: nat, c: nat :: !IsParent(rows, p, c);
  }

  /**
   * Nor may a declared sibling set be withdrawn, which the comparison of the policies does not
   * notice. Two siblings form one group; without their set the edge is gone, and in every plan of
   * the same two records the group is split and both halves inherit its identity.
   */
  lemma WithdrawnSetCollides(matched: set<RecordId>, groups: seq<Group>)
    ensures Intake.Declares([FIRST, SECOND], [("a", "g")], [(0, 1)])
    ensures Plans([FIRST, SECOND], [(0, 1)], [], {}, [Pair(FIRST, SECOND)])
    ensures Intake.Declares([FIRST, SECOND], [], [])
    ensures Plans([FIRST, SECOND], [], [Pair(FIRST, SECOND)], matched, groups) ==> Collides(groups)
  {
    var rows := [FIRST, SECOND];
    SiblingEdges();
    PairIsPlanned(FIRST, SECOND);
    if Plans(rows, [], [Pair(FIRST, SECOND)], matched, groups) {
      assert rows[0] == FIRST && rows[1] == SECOND && Pair(FIRST, SECOND).members == [FIRST.key, SECOND.key];
      HalvesCollide(rows, Pair(FIRST, SECOND), matched, groups, 0, 1);
    }
  }

  const TWIN := Row(RecordId("a", "1"), None, None, false, None, [])
  const OTHER := Row(RecordId("a", "2"), None, None, false, None, [])
  const STRANGER := Row(RecordId("a", "3"), None, None, false, None, [])
  const TIGHT := Policy(1, 1, 1, 1.0, Limits(100, 100, 100, 100, 2, 100, 100))

  /** A record with one unit, whose prompt is the one text at `k`. */
  function Single(k: nat): Projection {
    Projection([Unit(Prompt(true, "user", [k]), "")], [k])
  }

  lemma Unrelated(rows: seq<Row>, edges: seq<Edge>)
    requires forall x | 0 <= x < |rows| :: rows[x].parents == [] && rows[x].task == None && rows[x].reference == None
                                           && rows[x].siblings == None
    requires Intake.Declares(rows, [], edges)
    ensures edges == []
  {
    SomeMember(edges);
  }

  lemma SomeMember(edges: seq<Edge>)
    ensures edges != [] ==> exists e :: e in edges
  {
    if edges != [] { assert edges[0] in edges; }
  }

  lemma TwoMembers(ns: seq<nat>)
    requires forall i, j | 0 <= i < j < |ns| :: ns[i] < ns[j]
    ensures |ns| > 1 ==> exists m, n :: m in ns && n in ns && m < n
  {
    if |ns| > 1 { assert ns[0] in ns && ns[1] in ns; }
  }

  function Twins(segments: seq<Segment>, alike: Alike): Corpus {
    Corpus([TWIN, OTHER], [], [Single(0), Single(1)], [], segments, alike)
  }

  lemma TwinsAreValid(segments: seq<Segment>, alike: Alike)
    requires |segments| == 2 && Symmetric(alike)
    ensures Twins(segments, alike).Valid()
  {
    var rows := [TWIN, OTHER];
    assert rows[0] == TWIN && rows[1] == OTHER;
  }

  lemma TwinsMatch(segments: seq<Segment>, alike: Alike)
    requires |segments| == 2 && Twins(segments, alike).Valid() && segments[0].tokens == segments[1].tokens
    ensures EdgesSound(Twins(segments, alike), [(0, 1)]) && EdgesComplete(Twins(segments, alike), [(0, 1)])
  {
    var w := Twins(segments, alike);
    var us: seq<seq<Unit>> := UnitsOf([Single(0), Single(1)]);
    assert UnitsMatch(alike, segments, us[0][0], us[1][0]);
    assert w.Matches(0, 1);
    forall x: nat, y: nat | x < y && w.Matches(x, y) ensures (x, y) in [(0, 1)] {
      assert x == 0 && y == 1;
    }
  }

  lemma TwinsUndeclared()
    ensures Intake.Declares([TWIN, OTHER], [], [])
  {
    var rows := [TWIN, OTHER];
    assert rows[0] == TWIN && rows[1] == OTHER;
    assert forall x: nat, y: nat :: !IsParent(rows, x, y);
  }

  /** The plan of two records with one text: they match, and the complete scan says so. */
  lemma TwinsArePlanned(i: Interned)
    requires i.Valid() && i.sources == [["a"], ["a"]]
    ensures var w := Twins(i.segments, EvidentPairs(TIGHT, i.segments));
            IsMade(Made(i, w, [], [(0, 1)], [], {}), [Pair(TWIN, OTHER)]) && EdgesComplete(w, [(0, 1)])
  {
    assert Spells(i.words, i.segments[0].tokens, ["a"]) && Spells(i.words, i.segments[1].tokens, ["a"]);
    assert i.segments[0].tokens == i.segments[1].tokens;
    TwinsAreValid(i.segments, EvidentPairs(TIGHT, i.segments));
    TwinsMatch(i.segments, EvidentPairs(TIGHT, i.segments));
    TwinsUndeclared();
    PairIsPlanned(TWIN, OTHER);
    assert [] + [(0, 1)] == [(0, 1)];
  }

  lemma OneWindow(t: Shingles.Tokens)
    requires |t| == 1
    ensures DistinctIn(TIGHT, t) == 1
  {
    var ns := Lengths(TIGHT, 1);
    LengthsHold(TIGHT, 1);
    assert IsIndexed(TIGHT, 1, 1) && 1 in ns;
    TwoMembers(ns);
    assert ns == [1] && ns[..0] == [];
    assert DistinctOver(t, ns) == DistinctOver(t, []) + |Shingles.Windows(t, 1)|;
    assert Shingles.Windows(t, 1) == {Shingles.Window(t, 0, 1)};
  }

  lemma ThreeWindows(segments: seq<Segment>)
    requires |segments| == 3 && forall s | 0 <= s < 3 :: |segments[s].tokens| == 1
    ensures TotalDistinct(TIGHT, segments) == 3
  {
    forall s | 0 <= s < 3 ensures DistinctIn(TIGHT, segments[s].tokens) == 1 { OneWindow(segments[s].tokens); }
    assert segments[..2][..1] == segments[..1] && segments[..1][..0] == [] && segments[..2][1] == segments[1];
    assert TotalDistinct(TIGHT, segments[..1]) == 1;
    assert TotalDistinct(TIGHT, segments[..2]) == 2;
  }

  lemma TightIsExceeded(i: Interned)
    requires i.Valid() && i.sources == [["a"], ["a"], ["b"]]
    ensures TotalDistinct(TIGHT, i.segments) == 3
  {
    forall s | 0 <= s < 3 ensures |i.segments[s].tokens| == 1 {
      assert Spells(i.words, i.segments[s].tokens, i.sources[s]);
    }
    ThreeWindows(i.segments);
  }

  lemma TwinsCollide(edges: seq<Edge>, matched: set<RecordId>, groups: seq<Group>)
    requires Intake.Declares([TWIN, OTHER, STRANGER], [], edges)
    requires Plans([TWIN, OTHER, STRANGER], edges + [], [Pair(TWIN, OTHER)], matched, groups)
    ensures Collides(groups)
  {
    var rows := [TWIN, OTHER, STRANGER];
    assert rows[0] == TWIN && rows[1] == OTHER && rows[2] == STRANGER;
    Unrelated(rows, edges);
    assert edges + [] == [] && Pair(TWIN, OTHER).members == [TWIN.key, OTHER.key];
    HalvesCollide(rows, Pair(TWIN, OTHER), matched, groups, 0, 1);
  }

  lemma LetterIsWord(text: string)
    requires text == "a" || text == "b"
    ensures Words(text) == [text] && Utf8Length(text) == 1
  {
    assert text[1..] == [] && [] + [text[0]] == text;
    assert Pieces(text, []) == Pieces([], text) == [text];
    assert Lower(text) == text;
    assert Utf8Length([]) == 0;
  }

  lemma LetterIsInternable(words: map<string, nat>, text: string)
    requires |words| < 100
    ensures Internable(words, [text], TIGHT.limits) && Known(words, [text]) == words.Keys + {text}
  {
    assert [text][..0] == [];
    assert Known(words, []) == words.Keys && |words.Keys| == |words|;
  }

  /** Index a text of one letter. */
  method AddLetter(index: TextIndex, text: string)
    requires index.Valid() && (text == "a" || text == "b")
    requires |index.words| < 99 && |index.segments| < 99 && index.textBytes < 99
    modifies index
    ensures index.Valid() && index.sources == old(index.sources) + [[text]]
    ensures |index.segments| == |old(index.segments)| + 1 && index.textBytes == old(index.textBytes) + 1
    ensures |index.words| <= |old(index.words)| + 1
    ensures index.shingles == old(index.shingles) && index.shingleTokenWork == old(index.shingleTokenWork)
    ensures index.comparisons == old(index.comparisons)
  {
    LetterIsWord(text);
    LetterIsInternable(index.words, text);
    var added := index.Add("", 0, text, TIGHT.limits);
    KeysAtMost(old(index.words), index.words, text);
  }

  lemma KeysAtMost(words: map<string, nat>, words': map<string, nat>, word: string)
    requires words'.Keys <= words.Keys + {word}
    ensures |words'| <= |words| + 1
  {
    SubsetSize(words'.Keys, words.Keys + {word});
    assert |words'.Keys| == |words'| && |words.Keys| == |words|;
  }

  /** A new index of texts of one letter. */
  method IndexLetters(texts: seq<string>) returns (index: TextIndex)
    requires |texts| < 99 && forall i | 0 <= i < |texts| :: texts[i] == "a" || texts[i] == "b"
    ensures fresh(index) && index.Valid()
    ensures index.sources == seq(|texts|, i requires 0 <= i < |texts| => [texts[i]])
    ensures index.shingles == index.shingleTokenWork == index.comparisons == 0
  {
    index := new TextIndex();
    for i := 0 to |texts|
      invariant fresh(index) && index.Valid()
      invariant |index.words| <= i && |index.segments| == index.textBytes == i
      invariant index.sources == seq(i, j requires 0 <= j < i => [texts[j]])
      invariant index.shingles == index.shingleTokenWork == index.comparisons == 0
    {
      AddLetter(index, texts[i]);
    }
  }

  /** Screening the twins and a stranger under the tight limits. */
  method ScreenTight(index: TextIndex) returns (groups: seq<Group>, refused: Option<string>)
    requires index.Valid() && index.sources == [["a"], ["a"], ["b"]]
    requires index.shingles == index.shingleTokenWork == index.comparisons == 0
    modifies index
    ensures refused.Some? && Collides(groups)
  {
    TightIsExceeded(InternedOf(index));
    assert !Fits(index, TIGHT);
    ghost var w, edges, lexical, matched;
    groups, refused, w, edges, lexical, matched :=
      Screen(index, [TWIN, OTHER, STRANGER], [], [Single(0), Single(1), Single(2)], [], TIGHT, [Pair(TWIN, OTHER)]);
    TwinsCollide(edges, matched, groups);
  }

  /**
   * The premise about the scan is needed as well. Two records with one text form one group; a third
   * text takes the extension past its limit of distinct shingles. The refused scan finds no edge, so
   * the group is split and both halves inherit its identity.
   */
  method RefusedScanCollides() returns (groups: seq<Group>, refused: Option<string>, ghost first: Interned)
    ensures first.Valid() && first.sources == [["a"], ["a"]]
    ensures var w := Twins(first.segments, EvidentPairs(TIGHT, first.segments));
            IsMade(Made(first, w, [], [(0, 1)], [], {}), [Pair(TWIN, OTHER)]) && EdgesComplete(w, [(0, 1)])
    ensures refused.Some? && Collides(groups)
  {
    var index := IndexLetters(["a", "a"]);
    first := InternedOf(index);
    TwinsArePlanned(first);
    var larger := IndexLetters(["a", "a", "b"]);
    groups, refused := ScreenTight(larger);
  }

  // ---- Chains of plans ----

  datatype Plan = Plan(rows: seq<Row>, edges: seq<Edge>, matched: set<RecordId>, groups: seq<Group>)

  /** The groups a plan starts from. */
  function Before(plans: seq<Plan>, n: nat): seq<Group>
    requires n < |plans|
  {
    if n == 0 then [] else plans[n - 1].groups
  }

  ghost predicate PlanAt(plans: seq<Plan>, n: nat)
    requires n < |plans|
  {
    var p := plans[n];
    Distinct(p.rows) && Plans(p.rows, p.edges, Before(plans, n), p.matched, p.groups)
    && (n > 0 ==> Population(plans[n - 1].rows) <= Population(p.rows))
    && forall g | g in Before(plans, n) :: Kept(p.rows, p.edges, g)
  }

  /** Every plan extends the one before it, and keeps its groups connected. */
  ghost predicate IsChain(plans: seq<Plan>) {
    forall n: nat | n < |plans| :: PlanAt(plans, n)
  }

  lemma PlanIsWellFormed(plans: seq<Plan>, n: nat, pop: set<RecordId>)
    requires n < |plans| && PlanAt(plans, n) && WellFormed(pop, Before(plans, n)) && pop <= Population(plans[n].rows)
    ensures WellFormed(Population(plans[n].rows), plans[n].groups)
  {
    var p := plans[n];
    ExtensionIsWellFormed(pop, Before(plans, n), p.rows, p.edges, p.matched, p.groups);
  }

  lemma EmptyIsWellFormed()
    ensures WellFormed({}, [])
  {
  }

  lemma {:induction false} ChainIsWellFormed(plans: seq<Plan>, n: nat)
    requires IsChain(plans) && n < |plans|
    ensures WellFormed(Population(plans[n].rows), plans[n].groups)
  {
    assert PlanAt(plans, n);
    if n == 0 {
      EmptyIsWellFormed();
      PlanIsWellFormed(plans, n, {});
    } else {
      ChainIsWellFormed(plans, n - 1);
      PlanIsWellFormed(plans, n, Population(plans[n - 1].rows));
    }
  }

  /** Every member of a plan is in one group of every later plan. */
  lemma ChainHolds(plans: seq<Plan>, m: nat, n: nat, i: nat, id: RecordId) returns (k: nat)
    requires IsChain(plans) && m <= n < |plans| && i < |plans[m].groups| && id in plans[m].groups[i].members
    ensures k < |plans[n].groups| && id in plans[n].groups[k].members
  {
    assert id in Population(plans[m].rows) by { ChainIsWellFormed(plans, m); }
    ChainGrows(plans, m, n);
    assert Holds(plans[n].groups, id) by { ChainIsWellFormed(plans, n); }
    k :| k < |plans[n].groups| && id in plans[n].groups[k].members;
  }

  lemma MeetsOneself(plans: seq<Plan>, n: nat, i: nat, j: nat)
    requires IsChain(plans) && n < |plans| && i < |plans[n].groups| && j < |plans[n].groups|
    requires Meets(plans[n].groups[i], plans[n].groups[j].members)
    ensures i == j
  {
    ChainIsWellFormed(plans, n);
  }

  /**
   * Along a chain a group is never split, and a group that once joined prior groups keeps saying
   * so in every later plan.
   */
  lemma {:induction false} ChainKeepsGroups(plans: seq<Plan>, m: nat, n: nat, i: nat, j: nat)
    requires IsChain(plans) && m <= n < |plans| && i < |plans[m].groups| && j < |plans[n].groups|
    requires Meets(plans[m].groups[i], plans[n].groups[j].members)
    ensures forall id | id in plans[m].groups[i].members :: id in plans[n].groups[j].members
    ensures JoinedPriorGroups in plans[m].groups[i].reasons ==> JoinedPriorGroups in plans[n].groups[j].reasons
    decreases n
  {
    if m == n {
      MeetsOneself(plans, n, i, j);
    } else {
      var met :| met in plans[m].groups[i].members && met in plans[n].groups[j].members;
      var k := ChainHolds(plans, m, n - 1, i, met);
      ChainKeepsGroups(plans, m, n - 1, i, k);
      StepKeepsGroup(plans, n, k, j);
    }
  }

  lemma StepKeepsGroup(plans: seq<Plan>, n: nat, k: nat, j: nat)
    requires IsChain(plans) && 0 < n < |plans| && k < |plans[n - 1].groups| && j < |plans[n].groups|
    requires Meets(plans[n - 1].groups[k], plans[n].groups[j].members)
    ensures forall id | id in plans[n - 1].groups[k].members :: id in plans[n].groups[j].members
    ensures JoinedPriorGroups in plans[n - 1].groups[k].reasons ==> JoinedPriorGroups in plans[n].groups[j].reasons
  {
    var pop, previous, p := Population(plans[n - 1].rows), plans[n - 1].groups, plans[n];
    ChainIsWellFormed(plans, n - 1);
    assert PlanAt(plans, n);
    assert previous[k] in previous;
    NotSplit(pop, previous, p.rows, p.edges, p.matched, p.groups, k, j);
    if JoinedPriorGroups in previous[k].reasons {
      JoinPersists(pop, previous, p.rows, p.edges, p.matched, p.groups, k, j);
    }
  }

  lemma {:induction false} ChainGrows(plans: seq<Plan>, m: nat, n: nat)
    requires IsChain(plans) && m <= n < |plans|
    ensures Population(plans[m].rows) <= Population(plans[n].rows)
    decreases n
  {
    if m < n {
      ChainGrows(plans, m, n - 1);
      assert PlanAt(plans, n);
    }
  }

  // ---- Chains of screenings ----

  /** A screening and its groups; `at` places the records of the screening before it. */
  datatype Stage = Stage(made: Made, groups: seq<Group>, at: seq<nat>)

  /** A screening of the chain starts from the groups before it; from the second on it is complete and harmless. */
  ghost predicate StageAt(policy: Policy, stages: seq<Stage>, n: nat)
    requires n < |stages|
  {
    IsMade(stages[n].made, stages[n].groups)
    && stages[n].made.before == (if n == 0 then [] else stages[n - 1].groups)
    && (n > 0 ==> EdgesComplete(stages[n].made.corpus, stages[n].made.lexical)
                  && GrownFrom(policy, stages[n - 1].made, stages[n].made, stages[n].at))
  }

  ghost predicate AreScreenings(policy: Policy, stages: seq<Stage>) {
    forall n: nat | n < |stages| :: StageAt(policy, stages, n)
  }

  function PlanOf(s: Stage): Plan {
    Plan(s.made.corpus.rows, s.made.edges + s.made.lexical, s.made.matched, s.groups)
  }

  function PlansOf(stages: seq<Stage>): seq<Plan> {
    seq(|stages|, n requires 0 <= n < |stages| => PlanOf(stages[n]))
  }

  /** What `Extend` returns without a refusal is one more screening of the chain. */
  lemma OneMoreScreening(policy: Policy, stages: seq<Stage>, next: Stage)
    requires AreScreenings(policy, stages) && stages != []
    requires var last := stages[|stages| - 1];
             IsMade(next.made, next.groups) && next.made.before == last.groups
             && EdgesComplete(next.made.corpus, next.made.lexical) && GrownFrom(policy, last.made, next.made, next.at)
    ensures AreScreenings(policy, stages + [next])
  {
    forall n: nat | n < |stages| + 1 ensures StageAt(policy, stages + [next], n) {
      if n < |stages| { assert StageAt(policy, stages, n); }
    }
  }

  /** The plan of a complete and harmless screening keeps the groups of the one before connected. */
  lemma LaterStageIsPlan(policy: Policy, stages: seq<Stage>, n: nat)
    requires 0 < n < |stages| && StageAt(policy, stages, n - 1) && StageAt(policy, stages, n)
    ensures PlanAt(PlansOf(stages), n)
  {
    var last, next := stages[n - 1], stages[n];
    var plans := PlansOf(stages);
    assert plans[n - 1] == PlanOf(last) && plans[n] == PlanOf(next) && Before(plans, n) == last.groups;
    GrownKeeps(policy, last.made, last.groups, next.made, next.groups, next.at);
  }

  lemma FirstStageIsPlan(policy: Policy, stages: seq<Stage>)
    requires stages != [] && StageAt(policy, stages, 0)
    ensures PlanAt(PlansOf(stages), 0)
  {
    assert PlansOf(stages)[0] == PlanOf(stages[0]);
  }

  lemma ScreeningsAreChain(policy: Policy, stages: seq<Stage>)
    requires AreScreenings(policy, stages)
    ensures IsChain(PlansOf(stages))
  {
    forall n: nat | n < |stages| ensures PlanAt(PlansOf(stages), n) {
      assert StageAt(policy, stages, n);
      if n == 0 {
        FirstStageIsPlan(policy, stages);
      } else {
        assert StageAt(policy, stages, n - 1);
        LaterStageIsPlan(policy, stages, n);
      }
    }
  }

  /**
   * Along a chain of such screenings every plan is well-formed, no group is ever split, and a group
   * that once joined prior groups keeps saying so.
   */
  lemma ScreeningsKeepGroups(policy: Policy, stages: seq<Stage>, m: nat, n: nat, i: nat, j: nat)
    requires AreScreenings(policy, stages) && m <= n < |stages| && i < |stages[m].groups| && j < |stages[n].groups|
    requires Meets(stages[m].groups[i], stages[n].groups[j].members)
    ensures WellFormed(Population(stages[n].made.corpus.rows), stages[n].groups)
    ensures forall id | id in stages[m].groups[i].members :: id in stages[n].groups[j].members
    ensures JoinedPriorGroups in stages[m].groups[i].reasons ==> JoinedPriorGroups in stages[n].groups[j].reasons
  {
    ScreeningsAreChain(policy, stages);
    ChainIsWellFormed(PlansOf(stages), n);
    ChainKeepsGroups(PlansOf(stages), m, n, i, j);
  }

  // ---- Protected matches ----

  lemma TwinOf(a: seq<Group>, b: seq<Group>, p: Group) returns (q: Group)
    requires Identities(a) == Identities(b) && p in a
    ensures q in b && IdentityOf(q) == IdentityOf(p)
  {
    assert IdentityOf(p) in Identities(b);
    q :| q in b && IdentityOf(q) == IdentityOf(p);
  }

  lemma MirroredPrior(a: seq<Group>, b: seq<Group>, ids: seq<RecordId>)
    requires Identities(a) == Identities(b)
    ensures OldIds(a, ids) <= OldIds(b, ids)
  {
    forall g | g in OldIds(a, ids) ensures g in OldIds(b, ids) {
      var i :| 0 <= i < |a| && a[i].id == g && Meets(a[i], ids);
      var q := TwinOf(a, b, a[i]);
      var k :| 0 <= k < |b| && b[k] == q;
      assert Meets(b[k], ids);
    }
  }

  lemma MirroredJoin(a: seq<Group>, b: seq<Group>, prior: set<GroupId>)
    requires Identities(a) == Identities(b) && JoinedBefore(a, prior)
    ensures JoinedBefore(b, prior)
  {
    var p :| p in a && p.id in prior && JoinedPriorGroups in p.reasons;
    var q := TwinOf(a, b, p);
    assert JoinedPriorGroups in IdentityOf(q).reasons;
  }

  /** Groups of one class agree in everything but the protected match. */
  lemma SameIdentity(rows: seq<Row>, a: seq<Group>, b: seq<Group>, m: set<RecordId>, m': set<RecordId>,
                     block: seq<nat>, g: Group, h: Group)
    requires Identities(a) == Identities(b) && InRange(block, |rows|)
    requires GroupIs(rows, a, m, block, g) && GroupIs(rows, b, m', block, h)
    ensures IdentityOf(g) == IdentityOf(h)
  {
    var prior := OldIds(a, g.members);
    MirroredPrior(a, b, g.members);
    MirroredPrior(b, a, g.members);
    assert OldIds(b, h.members) == prior;
    assert JoinedBefore(a, prior) <==> JoinedBefore(b, prior) by {
      if JoinedBefore(a, prior) { MirroredJoin(a, b, prior); }
      if JoinedBefore(b, prior) { MirroredJoin(b, a, prior); }
    }
    SameSplit(rows, block, g.split, h.split);
    if |prior| == 1 {
      MadeOfOne(prior, g.id);
      MadeOfOne(prior, h.id);
    }
    SameReasons(g.reasons, h.reasons);
  }

  lemma SameReasons(r: set<Reason>, s: set<Reason>)
    requires JoinedPriorGroups in r <==> JoinedPriorGroups in s
    requires ConflictingSplits in r <==> ConflictingSplits in s
    ensures r - {ProtectedMatch} == s - {ProtectedMatch}
  {
    forall x ensures x in r - {ProtectedMatch} <==> x in s - {ProtectedMatch} {
      match x case JoinedPriorGroups => case ConflictingSplits => case ProtectedMatch =>
    }
  }

  lemma SameClass(rows: seq<Row>, edges: seq<Edge>, c: seq<nat>, d: seq<nat>, x: nat)
    requires IsClass(|rows|, edges, c) && IsClass(|rows|, edges, d) && x in c && x in d
    ensures c == d
  {
    assert forall y :: y in c <==> y in d;
    AscendingIsUnique(c, d);
  }

  lemma SameSplit(rows: seq<Row>, block: seq<nat>, s: Option<string>, t: Option<string>)
    requires InRange(block, |rows|)
    requires SplitIs(rows, block, s) && SplitIs(rows, block, t)
    ensures s == t
  {
    if s.Some? { assert t == Some(s.value); }
    if t.Some? { assert s == Some(t.value); }
  }

  lemma IdentitiesInclude(rows: seq<Row>, edges: seq<Edge>, a: seq<Group>, b: seq<Group>, m: set<RecordId>,
                          m': set<RecordId>,
                          groups: seq<Group>, groups': seq<Group>)
    requires Distinct(rows) && Identities(a) == Identities(b)
    requires Plans(rows, edges, a, m, groups) && Plans(rows, edges, b, m', groups')
    ensures Identities(groups) <= Identities(groups')
  {
    forall i | 0 <= i < |groups| ensures IdentityOf(groups[i]) in Identities(groups') {
      assert OfClass(rows, edges, a, m, groups[i]);
      var c :| IsClass(|rows|, edges, c) && GroupIs(rows, a, m, c, groups[i]);
      assert c[0] in c && Holds(groups', rows[c[0]].key);
      var j :| 0 <= j < |groups'| && rows[c[0]].key in groups'[j].members;
      assert OfClass(rows, edges, b, m', groups'[j]);
      var d :| IsClass(|rows|, edges, d) && GroupIs(rows, b, m', d, groups'[j]);
      MemberIsKey(rows, d, c[0]);
      SameClass(rows, edges, c, d, c[0]);
      SameIdentity(rows, a, b, m, m', c, groups[i], groups'[j]);
      assert groups'[j] in groups';
    }
  }

  /** Two chains over the same records and edges, whatever matched protected content in either. */
  ghost predicate TwinAt(plans: seq<Plan>, others: seq<Plan>, n: nat)
    requires |plans| == |others| && n < |plans|
  {
    plans[n].rows == others[n].rows && plans[n].edges == others[n].edges && Distinct(plans[n].rows)
    && Plans(plans[n].rows, plans[n].edges, Before(plans, n), plans[n].matched, plans[n].groups)
    && Plans(others[n].rows, others[n].edges, Before(others, n), others[n].matched, others[n].groups)
  }

  /**
   * Protected matches, anywhere along a chain, never change the members, the split, the identity
   * or the other reasons of a group, and so never the grouping identity.
   */
  lemma {:induction false} ProtectedMatchesOnlyQuarantine(plans: seq<Plan>, others: seq<Plan>, n: nat)
    requires |plans| == |others| && n < |plans| && forall i: nat | i < |plans| :: TwinAt(plans, others, i)
    ensures Identities(plans[n].groups) == Identities(others[n].groups)
  {
    if n > 0 { ProtectedMatchesOnlyQuarantine(plans, others, n - 1); }
    assert TwinAt(plans, others, n);
    TwinStep(plans[n], others[n], Before(plans, n), Before(others, n));
  }

  lemma TwinStep(p: Plan, q: Plan, a: seq<Group>, b: seq<Group>)
    requires p.rows == q.rows && p.edges == q.edges && Distinct(p.rows) && Identities(a) == Identities(b)
    requires Plans(p.rows, p.edges, a, p.matched, p.groups) && Plans(q.rows, q.edges, b, q.matched, q.groups)
    ensures Identities(p.groups) == Identities(q.groups)
  {
    IdentitiesInclude(p.rows, p.edges, a, b, p.matched, q.matched, p.groups, q.groups);
    IdentitiesInclude(p.rows, p.edges, b, a, q.matched, p.matched, q.groups, p.groups);
  }
}
