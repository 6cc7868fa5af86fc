/**
 * Selected-unit groups of a frozen screening plan: stable identities across extensions, and the
 * quarantine of protected matches. A content hash is modelled by the value that is hashed.
 */
module Grouping {
  import opened Common
  import opened Components
  import opened Intake

  /** The hash of a first member, or of a set of joined prior identities, under separate domains. */
  datatype GroupId = Anchor(first: RecordId) | Joined(prior: set<GroupId>)

  datatype Reason = JoinedPriorGroups | ConflictingSplits | ProtectedMatch

  datatype Group = Group(
    id: GroupId, members: seq<RecordId>, split: Option<string>, reasons: set<Reason>, quarantined: bool)

  /** What the grouping identity hashes of a group: everything but its protected matches. */
  datatype Identity = Identity(id: GroupId, members: seq<RecordId>, split: Option<string>, reasons: set<Reason>)

  function IdentityOf(g: Group): Identity {
    Identity(g.id, g.members, g.split, g.reasons - {ProtectedMatch})
  }

  // ---- What one group says ----

  predicate Meets(group: Group, ids: seq<RecordId>) {
    exists id :: id in group.members && id in ids
  }

  /** Identities of the previous groups that some of the members belonged to. */
  function OldIds(previous: seq<Group>, ids: seq<RecordId>): set<GroupId> {
    set i | 0 <= i < |previous| && Meets(previous[i], ids) :: previous[i].id
  }

  predicate InRange(block: seq<nat>, n: nat) {
    forall i | 0 <= i < |block| :: block[i] < n
  }

  function Keys(rows: seq<Row>, block: seq<nat>): (ids: seq<RecordId>)
    requires InRange(block, |rows|)
    ensures |ids| == |block| && forall i | 0 <= i < |block| :: ids[i] == rows[block[i]].key
  {
    seq(|block|, i requires 0 <= i < |block| => rows[block[i]].key)
  }

  /** A new anchor, the one inherited identity, or the identity of all the joined ones. */
  ghost predicate IdIs(ids: seq<RecordId>, prior: set<GroupId>, id: GroupId) {
    if prior == {} then ids != [] && id == Anchor(ids[0]) else if |prior| == 1 then id in prior else id == Joined(prior)
  }

  ghost predicate JoinedBefore(previous: seq<Group>, prior: set<GroupId>) {
    exists p :: p in previous && p.id in prior && JoinedPriorGroups in p.reasons
  }

  ghost predicate DeclaresSplit(row: Row, split: string) {
    row.task.Some? && row.task.value.split == split
  }

  ghost predicate Conflict(rows: seq<Row>, block: seq<nat>)
    requires InRange(block, |rows|)
  {
    exists x, y {:trigger x in block, y in block} ::
      x in block && y in block && rows[x].task.Some? && rows[y].task.Some?
      && rows[x].task.value.split != rows[y].task.value.split
  }

  /** The split every member declares, if they all declare the same one. */
  ghost predicate SplitIs(rows: seq<Row>, block: seq<nat>, split: Option<string>)
    requires InRange(block, |rows|)
  {
    forall s :: split == Some(s) <==> forall x {:trigger x in block} | x in block :: DeclaresSplit(rows[x], s)
  }

  ghost predicate ReasonsAre(rows: seq<Row>, previous: seq<Group>, matched: set<RecordId>, block: seq<nat>,
                             reasons: set<Reason>)
    requires InRange(block, |rows|)
  {
    var ids := Keys(rows, block);
    var prior := OldIds(previous, ids);
    (JoinedPriorGroups in reasons <==> |prior| > 1 || JoinedBefore(previous, prior))
    && (ConflictingSplits in reasons <==> Conflict(rows, block))
    && (ProtectedMatch in reasons <==> exists id :: id in ids && id in matched)
  }

  /** The group of one component, given the previous plan and the records with protected matches. */
  ghost predicate GroupIs(rows: seq<Row>, previous: seq<Group>, matched: set<RecordId>, block: seq<nat>, g: Group)
    requires InRange(block, |rows|)
  {
    g.members == Keys(rows, block) && IdIs(g.members, OldIds(previous, g.members), g.id)
    && SplitIs(rows, block, g.split) && ReasonsAre(rows, previous, matched, block, g.reasons)
    && (g.quarantined <==> g.reasons != {})
  }

  /** The splits the members declare, in member order. */
  method DeclaredSplits(rows: seq<Row>, block: seq<nat>) returns (declared: seq<string>)
    requires InRange(block, |rows|)
    ensures forall s :: s in declared <==> exists x :: x in block && DeclaresSplit(rows[x], s)
    ensures |declared| <= |block| && (|declared| == |block| <==> forall x | x in block :: rows[x].task.Some?)
  {
    declared := [];
    for i := 0 to |block|
      invariant forall s :: s in declared <==> exists k :: 0 <= k < i && DeclaresSplit(rows[block[k]], s)
      invariant |declared| <= i && (|declared| == i <==> forall k | 0 <= k < i :: rows[block[k]].task.Some?)
    {
      if rows[block[i]].task.Some? {
        declared := declared + [rows[block[i]].task.value.split];
      }
    }
  }

  /** The split of a component, and whether its members disagree. */
  method SplitOf(rows: seq<Row>, block: seq<nat>) returns (conflict: bool, split: Option<string>)
    requires block != [] && InRange(block, |rows|)
    ensures conflict <==> Conflict(rows, block)
    ensures SplitIs(rows, block, split)
  {
    var declared := DeclaredSplits(rows, block);
    assert block[0] in block;
    assert forall i | 0 <= i < |declared| :: declared[i] in declared;
    conflict := declared != [] && exists s :: s in declared && s != declared[0];
    split := if !conflict && |declared| == |block| then Some(declared[0]) else None;
    if conflict {
      ghost var s :| s in declared && s != declared[0];
      ghost var x :| x in block && DeclaresSplit(rows[x], s);
      ghost var y :| y in block && DeclaresSplit(rows[y], declared[0]);
    } else {
      forall x, s | x in block && DeclaresSplit(rows[x], s) ensures declared != [] && s == declared[0]
      {
        assert s in declared;
      }
      forall x, y | x in block && y in block && rows[x].task.Some? && rows[y].task.Some?
        ensures rows[x].task.value.split == rows[y].task.value.split
      {
        assert DeclaresSplit(rows[x], rows[x].task.value.split) && DeclaresSplit(rows[y], rows[y].task.value.split);
      }
    }
    forall s ensures split == Some(s) <==> forall x | x in block :: DeclaresSplit(rows[x], s) {
      if forall x | x in block :: DeclaresSplit(rows[x], s) { assert s in declared; }
      if split == Some(s) {
        forall x | x in block ensures DeclaresSplit(rows[x], s) {
          assert rows[x].task.value.split in declared;
        }
      }
    }
  }

  method PriorId(ids: seq<RecordId>, prior: set<GroupId>) returns (id: GroupId)
    requires ids != []
    ensures IdIs(ids, prior, id)
  {
    if |prior| == 0 {
      id := Anchor(ids[0]);
    } else if |prior| == 1 {
      id :| id in prior;
    } else {
      id := Joined(prior);
    }
  }

  method NewGroup(rows: seq<Row>, previous: seq<Group>, matched: set<RecordId>, block: seq<nat>)
    returns (g: Group, identity: Identity)
    requires block != [] && InRange(block, |rows|)
    ensures GroupIs(rows, previous, matched, block, g) && identity == IdentityOf(g)
  {
    var ids := Keys(rows, block);
    var prior := OldIds(previous, ids);
    var id := PriorId(ids, prior);
    var joined := |prior| > 1 || exists p :: p in previous && p.id in prior && JoinedPriorGroups in p.reasons;
    var conflict, split := SplitOf(rows, block);
    var protected := exists member :: member in ids && member in matched;
    var reasons: set<Reason> := if joined then {JoinedPriorGroups} else {};
    if conflict {
      reasons := reasons + {ConflictingSplits};
    }
    identity := Identity(id, ids, split, reasons);
    OwnReasons(reasons);
    if protected {
      reasons := reasons + {ProtectedMatch};
    }
    g := Group(id, ids, split, reasons, reasons != {});
  }

  lemma OwnReasons(reasons: set<Reason>)
    requires ProtectedMatch !in reasons
    ensures reasons - {ProtectedMatch} == (reasons + {ProtectedMatch}) - {ProtectedMatch} == reasons
  {
  }

  // ---- The groups of a population ----

  ghost predicate IsClass(n: nat, edges: seq<Edge>, block: seq<nat>) {
    block != [] && Ascending(block) && InRange(block, n)
    && forall x: nat, y: nat | x in block && y < n :: y in block <==> Connected(edges, x, y)
  }

  lemma ComponentIsClass(n: nat, edges: seq<Edge>, components: map<nat, seq<nat>>, m: nat)
    requires Partition(n, edges, components) && m in components
    ensures IsClass(n, edges, components[m])
  {
    forall i | 0 <= i < |components[m]| ensures components[m][i] < n {
      assert components[m][i] in components[m];
    }
  }

  ghost predicate OfClass(rows: seq<Row>, edges: seq<Edge>, previous: seq<Group>, matched: set<RecordId>, g: Group) {
    exists block :: IsClass(|rows|, edges, block) && GroupIs(rows, previous, matched, block, g)
  }

  ghost predicate Distinct(rows: seq<Row>) {
    forall x, y | 0 <= x < y < |rows| :: rows[x].key != rows[y].key
  }

  ghost predicate Holds(groups: seq<Group>, id: RecordId) {
    exists i :: 0 <= i < |groups| && id in groups[i].members
  }

  ghost predicate Disjoint(groups: seq<Group>) {
    forall i, j, id | 0 <= i < j < |groups| && id in groups[i].members :: id !in groups[j].members
  }

  /** One group for every connection class, and no other. */
  ghost predicate Plans(rows: seq<Row>, edges: seq<Edge>, previous: seq<Group>, matched: set<RecordId>,
                        groups: seq<Group>) {
    (forall i {:trigger OfClass(rows, edges, previous, matched, groups[i])} | 0 <= i < |groups| ::
       OfClass(rows, edges, previous, matched, groups[i]))
    && (forall x | 0 <= x < |rows| :: Holds(groups, rows[x].key))
    && Disjoint(groups)
  }

  /** The first leaders have their groups. */
  ghost predicate PlansBelow(rows: seq<Row>, edges: seq<Edge>, previous: seq<Group>, matched: set<RecordId>,
                             components: map<nat, seq<nat>>, m: nat, groups: seq<Group>) {
    (forall i {:trigger OfClass(rows, edges, previous, matched, groups[i])} | 0 <= i < |groups| ::
       OfClass(rows, edges, previous, matched, groups[i]))
    && Disjoint(groups)
    && forall x: nat | x < |rows| :: Holds(groups, rows[x].key) <==> LedBelow(components, m, x)
  }

  ghost predicate LedBelow(components: map<nat, seq<nat>>, m: nat, x: nat) {
    exists l :: l < m && l in components && x in components[l]
  }

  /** A group of its own class, none of whose members had a group. */
  lemma PlansAppend(rows: seq<Row>, edges: seq<Edge>, previous: seq<Group>, matched: set<RecordId>,
                    components: map<nat, seq<nat>>, m: nat, groups: seq<Group>, g: Group)
    requires Distinct(rows) && m in components && InRange(components[m], |rows|)
    requires PlansBelow(rows, edges, previous, matched, components, m, groups)
    requires OfClass(rows, edges, previous, matched, g) && g.members == Keys(rows, components[m])
    requires forall k | 0 <= k < |g.members| :: !Holds(groups, g.members[k])
    ensures PlansBelow(rows, edges, previous, matched, components, m + 1, groups + [g])
  {
    forall x: nat | x < |rows| ensures Holds(groups + [g], rows[x].key) <==> LedBelow(components, m + 1, x) {
      HoldsIffLed(rows, components, m, groups, g, x);
    }
    DisjointOneMore(groups, g);
  }

  lemma PlansOneMore(rows: seq<Row>, edges: seq<Edge>, previous: seq<Group>, matched: set<RecordId>,
                     components: map<nat, seq<nat>>, m: nat, groups: seq<Group>, g: Group)
    requires Distinct(rows) && Partition(|rows|, edges, components) && m in components && InRange(components[m], |rows|)
    requires PlansBelow(rows, edges, previous, matched, components, m, groups)
    requires GroupIs(rows, previous, matched, components[m], g)
    ensures PlansBelow(rows, edges, previous, matched, components, m + 1, groups + [g])
  {
    ComponentIsClass(|rows|, edges, components, m);
    assert OfClass(rows, edges, previous, matched, g);
    NoneHeld(rows, edges, previous, matched, components, m, groups, g.members);
    PlansAppend(rows, edges, previous, matched, components, m, groups, g);
  }

  /** The members of the next component are in no group yet. */
  lemma NoneHeld(rows: seq<Row>, edges: seq<Edge>, previous: seq<Group>, matched: set<RecordId>,
                 components: map<nat, seq<nat>>, m: nat, groups: seq<Group>, members: seq<RecordId>)
    requires Partition(|rows|, edges, components) && m in components && InRange(components[m], |rows|)
    requires PlansBelow(rows, edges, previous, matched, components, m, groups) && members == Keys(rows, components[m])
    ensures forall k | 0 <= k < |members| :: !Holds(groups, members[k])
  {
    forall k | 0 <= k < |members| ensures !Holds(groups, members[k]) {
      assert components[m][k] in components[m];
      assert !LedBelow(components, m, components[m][k]);
    }
  }

  lemma HoldsIffLed(rows: seq<Row>, components: map<nat, seq<nat>>, m: nat, groups: seq<Group>, g: Group, x: nat)
    requires Distinct(rows) && m in components && InRange(components[m], |rows|) && x < |rows|
    requires g.members == Keys(rows, components[m])
    requires Holds(groups, rows[x].key) <==> LedBelow(components, m, x)
    ensures Holds(groups + [g], rows[x].key) <==> LedBelow(components, m + 1, x)
  {
    HoldsOneMore(groups, g, rows[x].key);
    MemberIsKey(rows, components[m], x);
    LedOneMore(components, m, x);
  }

  lemma LedOneMore(components: map<nat, seq<nat>>, m: nat, x: nat)
    requires m in components
    ensures LedBelow(components, m + 1, x) <==> LedBelow(components, m, x) || x in components[m]
  {
  }

  lemma HoldsOneMore(groups: seq<Group>, g: Group, id: RecordId)
    ensures Holds(groups + [g], id) <==> Holds(groups, id) || id in g.members
  {
    var more := groups + [g];
    assert more[|groups|] == g;
    if Holds(groups, id) {
      var i :| 0 <= i < |groups| && id in groups[i].members;
      assert more[i] == groups[i];
    }
  }

  lemma DisjointOneMore(groups: seq<Group>, g: Group)
    requires Disjoint(groups) && forall k | 0 <= k < |g.members| :: !Holds(groups, g.members[k])
    ensures Disjoint(groups + [g])
  {
    forall i, id | 0 <= i < |groups| && id in groups[i].members ensures id !in g.members {
      assert Holds(groups, id);
    }
  }

  lemma MemberIsKey(rows: seq<Row>, block: seq<nat>, x: nat)
    requires Distinct(rows) && x < |rows| && InRange(block, |rows|)
    ensures rows[x].key in Keys(rows, block) <==> x in block
  {
    var ids := Keys(rows, block);
    if x in block {
      var k :| 0 <= k < |block| && block[k] == x;
      assert ids[k] == rows[x].key;
    }
    if rows[x].key in ids {
      var k :| 0 <= k < |ids| && ids[k] == rows[x].key;
      assert rows[block[k]].key == rows[x].key;
    }
  }

  /** Two records share a group exactly when the edges connect them. */
  lemma SharesGroup(rows: seq<Row>, edges: seq<Edge>, previous: seq<Group>, matched: set<RecordId>, g: Group,
                    x: nat, y: nat)
    requires Distinct(rows) && OfClass(rows, edges, previous, matched, g)
    requires x < |rows| && y < |rows| && rows[x].key in g.members
    ensures rows[y].key in g.members <==> Connected(edges, x, y)
  {
    var block :| IsClass(|rows|, edges, block) && GroupIs(rows, previous, matched, block, g);
    MemberIsKey(rows, block, x);
    MemberIsKey(rows, block, y);
  }

  /** The groups of a population, and what the grouping identity hashes. */
  method Groups(rows: seq<Row>, edges: seq<Edge>, previous: seq<Group>, matched: set<RecordId>)
    returns (groups: seq<Group>, identity: (set<Identity>, seq<Edge>))
    requires Distinct(rows) && forall e | e in edges :: e.0 < |rows| && e.1 < |rows|
    ensures Plans(rows, edges, previous, matched, groups)
    ensures identity == (Identities(groups), edges)
  {
    var components := Collect(|rows|, edges);
    groups := [];
    var identities: set<Identity> := {};
    for m := 0 to |rows|
      invariant PlansBelow(rows, edges, previous, matched, components, m, groups)
      invariant identities == Identities(groups)
    {
      if m !in components {
        PlansSkip(rows, edges, previous, matched, components, m, groups);
      } else {
        ComponentIsClass(|rows|, edges, components, m);
        var g, id := NewGroup(rows, previous, matched, components[m]);
        PlansOneMore(rows, edges, previous, matched, components, m, groups, g);
        IdentitiesGrow(groups, g);
        groups, identities := groups + [g], identities + {id};
      }
    }
    PlansAll(rows, edges, previous, matched, components, groups);
    identity := (identities, edges);
  }

  ghost function Identities(groups: seq<Group>): set<Identity> {
    set g | g in groups :: IdentityOf(g)
  }

  lemma IdentitiesGrow(groups: seq<Group>, g: Group)
    ensures Identities(groups + [g]) == Identities(groups) + {IdentityOf(g)}
  {
    assert forall h :: h in groups + [g] <==> h in groups || h == g;
  }

  lemma PlansSkip(rows: seq<Row>, edges: seq<Edge>, previous: seq<Group>, matched: set<RecordId>,
                  components: map<nat, seq<nat>>, m: nat, groups: seq<Group>)
    requires PlansBelow(rows, edges, previous, matched, components, m, groups) && m !in components
    ensures PlansBelow(rows, edges, previous, matched, components, m + 1, groups)
  {
    forall x: nat | x < |rows| ensures LedBelow(components, m, x) <==> LedBelow(components, m + 1, x) {}
  }

  lemma PlansAll(rows: seq<Row>, edges: seq<Edge>, previous: seq<Group>, matched: set<RecordId>,
                 components: map<nat, seq<nat>>, groups: seq<Group>)
    requires PlansBelow(rows, edges, previous, matched, components, |rows|, groups)
    requires Partition(|rows|, edges, components)
    ensures Plans(rows, edges, previous, matched, groups)
  {
    forall x: nat | x < |rows| ensures Holds(groups, rows[x].key) {
      assert Placed(components, x);
      assert LedBelow(components, |rows|, x);
    }
  }
}
