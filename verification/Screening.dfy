/** From records to groups: declared and lexical edges together decide who shares a group. */
module Screening {
  import opened Common
  import opened Components
  import opened Grouping
  import opened Intake
  import opened Lexical
  import opened Shingles

  /** A prompt as the screening sees it: its message shape and its indexed text segments. */
  datatype Prompt = Prompt(hasUserText: bool, shape: string, segments: seq<nat>)

  datatype Unit = Unit(prompt: Prompt, rendered: string)

  // ---- When two selected units match ----

  ghost predicate InIndex(p: Prompt, segments: seq<Segment>) {
    forall k | 0 <= k < |p.segments| :: p.segments[k] < |segments|
  }

  ghost predicate AllInIndex(units: seq<Unit>, segments: seq<Segment>) {
    forall i | 0 <= i < |units| :: InIndex(units[i].prompt, segments)
  }

  predicate SameShape(p: Prompt, q: Prompt) {
    p.hasUserText && q.hasUserText && p.shape == q.shape && |p.segments| == |q.segments|
  }

  /** The segments share a long enough run, and are similar at some shingle length in range. */
  ghost predicate Evident(policy: Policy, s: Tokens, t: Tokens) {
    CommonCount(s, t, policy.overlap) > 0
    && exists n: nat :: policy.low <= n <= policy.high && n <= |s| && n <= |t| && Similar(policy, s, t, n)
  }

  lemma EvidentIffEvidence(policy: Policy, l: Segment, r: Segment)
    requires policy.Valid()
    ensures BruteForce(policy, l, r) != [] <==> Evident(policy, l.tokens, r.tokens)
  {
    if BruteForce(policy, l, r) != [] {
      var e := BruteForce(policy, l, r)[0];
      EvidenceIsExact(policy, l, r, e.n);
    }
    if Evident(policy, l.tokens, r.tokens) {
      var n: nat :| policy.low <= n <= policy.high && n <= |l.tokens| && n <= |r.tokens|
                    && Similar(policy, l.tokens, r.tokens, n);
      EvidenceIsExact(policy, l, r, n);
    }
  }

  lemma EvidentSymmetric(policy: Policy, s: Tokens, t: Tokens)
    requires Evident(policy, s, t)
    ensures Evident(policy, t, s)
  {
    var n: nat :| policy.low <= n <= policy.high && n <= |s| && n <= |t| && Similar(policy, s, t, n);
    CountsCommute(s, t, policy.overlap);
    CountsCommute(s, t, n);
    assert Similar(policy, t, s, n);
  }

  /** The two segments have lexical evidence. */
  ghost predicate HasEvidence(policy: Policy, segments: seq<Segment>, a: nat, b: nat)
    requires a < |segments| && b < |segments|
  {
    Evident(policy, segments[a].tokens, segments[b].tokens)
  }

  /** Pairs of indexed segments; which pairs have evidence is all that screening wants to know. */
  type Alike = iset<(nat, nat)>

  ghost function EvidentPairs(policy: Policy, segments: seq<Segment>): (alike: Alike)
    ensures Tells(alike, policy, segments) && Symmetric(alike)
  {
    assert forall a: nat, b: nat | a < |segments| && b < |segments| && HasEvidence(policy, segments, a, b) ::
        HasEvidence(policy, segments, b, a) by {
      forall a: nat, b: nat | a < |segments| && b < |segments| && HasEvidence(policy, segments, a, b)
        ensures HasEvidence(policy, segments, b, a)
      {
        EvidentSymmetric(policy, segments[a].tokens, segments[b].tokens);
      }
    }
    iset a: nat, b: nat | a < |segments| && b < |segments| && HasEvidence(policy, segments, a, b) :: (a, b)
  }

  /** `alike` holds exactly the pairs with evidence. */
  ghost predicate Tells(alike: Alike, policy: Policy, segments: seq<Segment>) {
    forall a: nat, b: nat {:trigger HasEvidence(policy, segments, a, b)} | a < |segments| && b < |segments| ::
      (a, b) in alike <==> HasEvidence(policy, segments, a, b)
  }

  lemma AlikeIffEvidence(alike: Alike, policy: Policy, segments: seq<Segment>, a: nat, b: nat)
    requires policy.Valid() && Tells(alike, policy, segments) && a < |segments| && b < |segments|
    ensures (a, b) in alike <==> BruteForce(policy, segments[a], segments[b]) != []
  {
    assert (a, b) in alike <==> HasEvidence(policy, segments, a, b);
    EvidentIffEvidence(policy, segments[a], segments[b]);
  }

  ghost predicate Symmetric(alike: Alike) {
    forall a, b | (a, b) in alike :: (b, a) in alike
  }

  /** Equal texts, or texts with lexical evidence. */
  ghost predicate SegmentsMatch(alike: Alike, segments: seq<Segment>, a: nat, b: nat)
    requires a < |segments| && b < |segments|
  {
    segments[a].tokens == segments[b].tokens || (a, b) in alike
  }

  /** Prompts of one shape with equal texts. */
  ghost predicate EqualPrompts(segments: seq<Segment>, p: Prompt, q: Prompt)
    requires InIndex(p, segments) && InIndex(q, segments)
  {
    SameShape(p, q)
    && forall k | 0 <= k < |p.segments| :: segments[p.segments[k]].tokens == segments[q.segments[k]].tokens
  }

  ghost predicate PromptsMatch(alike: Alike, segments: seq<Segment>, p: Prompt, q: Prompt)
    requires InIndex(p, segments) && InIndex(q, segments)
  {
    SameShape(p, q)
    && forall k | 0 <= k < |p.segments| :: SegmentsMatch(alike, segments, p.segments[k], q.segments[k])
  }

  predicate SameExample(a: Unit, b: Unit) {
    a.prompt.hasUserText && b.prompt.hasUserText && a.rendered == b.rendered
  }

  ghost predicate UnitsMatch(alike: Alike, segments: seq<Segment>, a: Unit, b: Unit)
    requires InIndex(a.prompt, segments) && InIndex(b.prompt, segments)
  {
    SameExample(a, b) || PromptsMatch(alike, segments, a.prompt, b.prompt)
  }

  /** Some units of the two records match. */
  ghost predicate RecordsMatch(alike: Alike, segments: seq<Segment>, us: seq<Unit>, vs: seq<Unit>)
    requires AllInIndex(us, segments) && AllInIndex(vs, segments)
  {
    exists i, j :: 0 <= i < |us| && 0 <= j < |vs| && UnitsMatch(alike, segments, us[i], vs[j])
  }

  /** Matching does not depend on which record is taken first. */
  lemma RecordsMatchSymmetric(alike: Alike, segments: seq<Segment>, us: seq<Unit>, vs: seq<Unit>)
    requires AllInIndex(us, segments) && AllInIndex(vs, segments) && Symmetric(alike)
    requires RecordsMatch(alike, segments, us, vs)
    ensures RecordsMatch(alike, segments, vs, us)
  {
    var i, j :| 0 <= i < |us| && 0 <= j < |vs| && UnitsMatch(alike, segments, us[i], vs[j]);
    var p, q := us[i].prompt, vs[j].prompt;
    if PromptsMatch(alike, segments, p, q) {
      forall k | 0 <= k < |q.segments| ensures SegmentsMatch(alike, segments, q.segments[k], p.segments[k]) {
        assert SegmentsMatch(alike, segments, p.segments[k], q.segments[k]);
      }
      assert PromptsMatch(alike, segments, q, p);
    }
    assert UnitsMatch(alike, segments, vs[j], us[i]);
  }

  // ---- What comparing records costs ----

  /** The units of every record refer to indexed segments. */
  ghost predicate Projected(units: seq<seq<Unit>>, segments: seq<Segment>) {
    forall x | 0 <= x < |units| :: AllInIndex(units[x], segments)
  }

  /** Equal texts are not compared. */
  ghost function PairCost(segments: seq<Segment>, a: nat, b: nat): nat
    requires a < |segments| && b < |segments|
  {
    if segments[a].tokens == segments[b].tokens then 0 else 1
  }

  /** The comparisons of two prompts of one shape from segment `k` on: the first without evidence ends them. */
  ghost function PromptCost(alike: Alike, segments: seq<Segment>, p: Prompt, q: Prompt, k: nat): nat
    requires InIndex(p, segments) && InIndex(q, segments) && |p.segments| == |q.segments| && k <= |p.segments|
    decreases |p.segments| - k
  {
    if k == |p.segments| then 0
    else PairCost(segments, p.segments[k], q.segments[k])
         + if SegmentsMatch(alike, segments, p.segments[k], q.segments[k]) then PromptCost(alike, segments, p, q, k + 1)
           else 0
  }

  ghost function ShapedCost(alike: Alike, segments: seq<Segment>, p: Prompt, q: Prompt): nat
    requires InIndex(p, segments) && InIndex(q, segments)
  {
    if SameShape(p, q) then PromptCost(alike, segments, p, q, 0) else 0
  }

  ghost function UnitCost(alike: Alike, segments: seq<Segment>, a: Unit, b: Unit): nat
    requires InIndex(a.prompt, segments) && InIndex(b.prompt, segments)
  {
    1 + ShapedCost(alike, segments, a.prompt, b.prompt)
  }

  /** One unit against the first `j` units of a record. */
  ghost function RowCost(alike: Alike, segments: seq<Segment>, a: Unit, vs: seq<Unit>, j: nat): nat
    requires InIndex(a.prompt, segments) && AllInIndex(vs, segments) && j <= |vs|
  {
    if j == 0 then 0 else RowCost(alike, segments, a, vs, j - 1) + UnitCost(alike, segments, a, vs[j - 1])
  }

  /** The first `i` units of a record against all units of another one. */
  ghost function RecordCost(alike: Alike, segments: seq<Segment>, us: seq<Unit>, vs: seq<Unit>, i: nat): nat
    requires AllInIndex(us, segments) && AllInIndex(vs, segments) && i <= |us|
  {
    if i == 0 then 0
    else RecordCost(alike, segments, us, vs, i - 1) + RowCost(alike, segments, us[i - 1], vs, |vs|)
  }

  /** One record against the later ones before `right`. */
  ghost function FromCost(alike: Alike, segments: seq<Segment>, units: seq<seq<Unit>>, left: nat, right: nat): nat
    requires Projected(units, segments) && left < |units| && right <= |units|
  {
    if right <= left + 1 then 0
    else FromCost(alike, segments, units, left, right - 1)
         + RecordCost(alike, segments, units[left], units[right - 1], |units[left]|)
  }

  /** The first `left` records against all later ones. */
  ghost function EdgesCost(alike: Alike, segments: seq<Segment>, units: seq<seq<Unit>>, left: nat): nat
    requires Projected(units, segments) && left <= |units|
  {
    if left == 0 then 0
    else EdgesCost(alike, segments, units, left - 1) + FromCost(alike, segments, units, left - 1, |units|)
  }

  lemma {:induction false} EqualIsFree(alike: Alike, segments: seq<Segment>, p: Prompt, q: Prompt, k: nat)
    requires InIndex(p, segments) && InIndex(q, segments) && EqualPrompts(segments, p, q) && k <= |p.segments|
    ensures PromptCost(alike, segments, p, q, k) == 0
    decreases |p.segments| - k
  {
    if k < |p.segments| { EqualIsFree(alike, segments, p, q, k + 1); }
  }

  lemma {:induction false} EmptyIsFree(alike: Alike, segments: seq<Segment>, us: seq<Unit>, i: nat)
    requires AllInIndex(us, segments) && i <= |us|
    ensures RecordCost(alike, segments, us, [], i) == 0
  {
    if i > 0 { EmptyIsFree(alike, segments, us, i - 1); }
  }

  lemma {:induction false} IdleIsFree(alike: Alike, segments: seq<Segment>, units: seq<seq<Unit>>, left: nat,
                                      right: nat)
    requires Projected(units, segments) && left < |units| && units[left] == [] && right <= |units|
    ensures FromCost(alike, segments, units, left, right) == 0
  {
    if right > left + 1 { IdleIsFree(alike, segments, units, left, right - 1); }
  }

  lemma {:induction false} RowCostGrows(alike: Alike, segments: seq<Segment>, a: Unit, vs: seq<Unit>, j: nat, m: nat)
    requires InIndex(a.prompt, segments) && AllInIndex(vs, segments) && j <= m <= |vs|
    ensures RowCost(alike, segments, a, vs, j) <= RowCost(alike, segments, a, vs, m)
  {
    if j < m { RowCostGrows(alike, segments, a, vs, j, m - 1); }
  }

  lemma {:induction false} RecordCostGrows(alike: Alike, segments: seq<Segment>, us: seq<Unit>, vs: seq<Unit>, i: nat,
                                           m: nat)
    requires AllInIndex(us, segments) && AllInIndex(vs, segments) && i <= m <= |us|
    ensures RecordCost(alike, segments, us, vs, i) <= RecordCost(alike, segments, us, vs, m)
  {
    if i < m { RecordCostGrows(alike, segments, us, vs, i, m - 1); }
  }

  lemma {:induction false} FromCostGrows(alike: Alike, segments: seq<Segment>, units: seq<seq<Unit>>, left: nat, i: nat,
                                         m: nat)
    requires Projected(units, segments) && left < |units| && i <= m <= |units|
    ensures FromCost(alike, segments, units, left, i) <= FromCost(alike, segments, units, left, m)
  {
    if i < m { FromCostGrows(alike, segments, units, left, i, m - 1); }
  }

  lemma {:induction false} EdgesCostGrows(alike: Alike, segments: seq<Segment>, units: seq<seq<Unit>>, i: nat, m: nat)
    requires Projected(units, segments) && i <= m <= |units|
    ensures EdgesCost(alike, segments, units, i) <= EdgesCost(alike, segments, units, m)
  {
    if i < m { EdgesCostGrows(alike, segments, units, i, m - 1); }
  }

  // ---- A bound on the cost that needs no comparison ----

  /** Every unit counts once, and once for each segment of its prompt. */
  function Weight(us: seq<Unit>, i: nat): nat
    requires i <= |us|
  {
    if i == 0 then 0 else Weight(us, i - 1) + 1 + |us[i - 1].prompt.segments|
  }

  function AllWeight(units: seq<seq<Unit>>, x: nat): nat
    requires x <= |units|
  {
    if x == 0 then 0 else AllWeight(units, x - 1) + Weight(units[x - 1], |units[x - 1]|)
  }

  function AllUnits(units: seq<seq<Unit>>, x: nat): nat
    requires x <= |units|
  {
    if x == 0 then 0 else AllUnits(units, x - 1) + |units[x - 1]|
  }

  lemma Distributes(a: nat, b: nat, c: nat)
    ensures (a + b) * c == a * c + b * c
    ensures c * (a + b) == c * a + c * b
  {
  }

  lemma {:induction false} PromptIsBounded(alike: Alike, segments: seq<Segment>, p: Prompt, q: Prompt, k: nat)
    requires InIndex(p, segments) && InIndex(q, segments) && |p.segments| == |q.segments| && k <= |p.segments|
    ensures PromptCost(alike, segments, p, q, k) <= |p.segments| - k
    decreases |p.segments| - k
  {
    if k < |p.segments| { PromptIsBounded(alike, segments, p, q, k + 1); }
  }

  lemma {:induction false} RowIsBounded(alike: Alike, segments: seq<Segment>, a: Unit, vs: seq<Unit>, j: nat)
    requires InIndex(a.prompt, segments) && AllInIndex(vs, segments) && j <= |vs|
    ensures RowCost(alike, segments, a, vs, j) <= (1 + |a.prompt.segments|) * j
  {
    if j > 0 {
      RowIsBounded(alike, segments, a, vs, j - 1);
      Distributes(j - 1, 1, 1 + |a.prompt.segments|);
      if SameShape(a.prompt, vs[j - 1].prompt) {
        PromptIsBounded(alike, segments, a.prompt, vs[j - 1].prompt, 0);
      }
    }
  }

  lemma {:induction false} RecordIsBounded(alike: Alike, segments: seq<Segment>, us: seq<Unit>, vs: seq<Unit>, i: nat)
    requires AllInIndex(us, segments) && AllInIndex(vs, segments) && i <= |us|
    ensures RecordCost(alike, segments, us, vs, i) <= Weight(us, i) * |vs|
  {
    if i > 0 {
      RecordIsBounded(alike, segments, us, vs, i - 1);
      RowIsBounded(alike, segments, us[i - 1], vs, |vs|);
      Distributes(Weight(us, i - 1), 1 + |us[i - 1].prompt.segments|, |vs|);
    }
  }

  lemma {:induction false} FromIsBounded(alike: Alike, segments: seq<Segment>, units: seq<seq<Unit>>, left: nat,
                                         right: nat)
    requires Projected(units, segments) && left < |units| && right <= |units|
    ensures FromCost(alike, segments, units, left, right)
            <= Weight(units[left], |units[left]|) * AllUnits(units, right)
  {
    if right > left + 1 {
      FromIsBounded(alike, segments, units, left, right - 1);
      RecordIsBounded(alike, segments, units[left], units[right - 1], |units[left]|);
      Distributes(AllUnits(units, right - 1), |units[right - 1]|, Weight(units[left], |units[left]|));
    }
  }

  /** All comparisons of records are at most their weight times their units. */
  lemma {:induction false} EdgesAreBounded(alike: Alike, segments: seq<Segment>, units: seq<seq<Unit>>, left: nat)
    requires Projected(units, segments) && left <= |units|
    ensures EdgesCost(alike, segments, units, left) <= AllWeight(units, left) * AllUnits(units, |units|)
  {
    if left > 0 {
      EdgesAreBounded(alike, segments, units, left - 1);
      FromIsBounded(alike, segments, units, left - 1, |units|);
      Distributes(AllWeight(units, left - 1), Weight(units[left - 1], |units[left - 1]|), AllUnits(units, |units|));
    }
  }

  // ---- Lexical edges ----

  /** No further comparison can be charged. */
  predicate Exhausted(comparisons: nat, policy: Policy) {
    comparisons >= Cap(policy.limits.comparisons)
  }

  /** Of `cost` comparisons one after the other, all were charged, or as many as the limit left. */
  predicate Charged(before: nat, after: nat, cost: nat, policy: Policy, ok: bool) {
    if cost == 0 || before + cost <= Cap(policy.limits.comparisons) then ok && after == before + cost
    else !ok && after == Max(before, Cap(policy.limits.comparisons))
  }

  /** Charges in a row add up, and a refused one refuses the whole. */
  lemma ChargedNext(a: nat, b: nat, c: nat, x: nat, y: nat, total: nat, policy: Policy, ok: bool)
    requires Charged(a, b, x, policy, true) && Charged(b, c, y, policy, ok)
    requires if ok then total == x + y else x + y <= total
    ensures Charged(a, c, total, policy, ok)
  {
  }

  /** The index is built, and `alike` tells which of its segments are. */
  ghost predicate Ready(index: TextIndex, policy: Policy, alike: Alike)
    reads index`segments, index`words, index`sets, index`sources
  {
    index.Valid() && policy.Valid() && index.Built(policy) && Tells(alike, policy, index.segments)
  }

  /** Token-equal prompts of one shape; no comparison is charged. */
  method ExactPrompt(index: TextIndex, p: Prompt, q: Prompt) returns (exact: bool)
    requires InIndex(p, index.segments) && InIndex(q, index.segments)
    ensures exact <==> EqualPrompts(index.segments, p, q)
  {
    if !SameShape(p, q) { return false; }
    for k := 0 to |p.segments|
      invariant forall j | 0 <= j < k :: index.segments[p.segments[j]].tokens == index.segments[q.segments[j]].tokens
    {
      if index.segments[p.segments[k]].tokens != index.segments[q.segments[k]].tokens { return false; }
    }
    return true;
  }

  /** Compare two indexed segments for evidence. */
  method Probe(index: TextIndex, a: nat, b: nat, policy: Policy, ghost alike: Alike)
    returns (found: bool, refused: Option<string>)
    requires Ready(index, policy, alike) && a < |index.segments| && b < |index.segments|
    modifies index`comparisons
    ensures Charged(old(index.comparisons), index.comparisons, 1, policy, refused == None)
    ensures found ==> refused == None && (a, b) in alike
    ensures refused == None && (a, b) in alike ==> found
  {
    var evidence := index.Matches(a, b, policy);
    AlikeIffEvidence(alike, policy, index.segments, a, b);
    match evidence
    case Ok(e) => return e != [], None;
    case Err(reason) => return false, Some(reason);
  }

  /** Equal segments match for free; differing ones need evidence. */
  method PairOfSegments(index: TextIndex, a: nat, b: nat, policy: Policy, ghost alike: Alike) returns (r: Result<bool>)
    requires Ready(index, policy, alike) && a < |index.segments| && b < |index.segments|
    modifies index`comparisons
    ensures Charged(old(index.comparisons), index.comparisons, PairCost(index.segments, a, b), policy, r.Ok?)
    ensures r.Ok? ==> (r.value <==> SegmentsMatch(alike, index.segments, a, b))
  {
    if index.segments[a].tokens == index.segments[b].tokens { return Ok(true); }
    var found, refused := Probe(index, a, b, policy, alike);
    return if refused.Some? then Err(refused.value) else Ok(found);
  }

  /** Every differing pair of segments needs evidence of its own; the first without ends the scan. */
  method LexicalPrompt(index: TextIndex, p: Prompt, q: Prompt, policy: Policy, ghost alike: Alike)
    returns (r: Result<bool>)
    requires Ready(index, policy, alike)
    requires InIndex(p, index.segments) && InIndex(q, index.segments)
    modifies index`comparisons
    ensures Charged(old(index.comparisons), index.comparisons, ShapedCost(alike, index.segments, p, q), policy, r.Ok?)
    ensures r.Ok? ==> (r.value <==> PromptsMatch(alike, index.segments, p, q))
  {
    if !SameShape(p, q) { return Ok(false); }
    ghost var spent: nat := 0;
    for k := 0 to |p.segments|
      invariant Charged(old(index.comparisons), index.comparisons, spent, policy, true)
      invariant spent + PromptCost(alike, index.segments, p, q, k) == PromptCost(alike, index.segments, p, q, 0)
      invariant forall j | 0 <= j < k :: SegmentsMatch(alike, index.segments, p.segments[j], q.segments[j])
    {
      ghost var before, cost := index.comparisons, PairCost(index.segments, p.segments[k], q.segments[k]);
      r := PairOfSegments(index, p.segments[k], q.segments[k], policy, alike);
      if r != Ok(true) {
        ChargedNext(old(index.comparisons), before, index.comparisons, spent, cost,
                    PromptCost(alike, index.segments, p, q, 0), policy, r.Ok?);
        return;
      }
      ChargedNext(old(index.comparisons), before, index.comparisons, spent, cost, spent + cost, policy, true);
      spent := spent + cost;
    }
    return Ok(true);
  }

  /**
   * One charged comparison of two units. A refusal half-way keeps the match found before it.
   */
  method CompareUnits(index: TextIndex, a: Unit, b: Unit, policy: Policy, ghost alike: Alike)
    returns (linked: bool, refused: Option<string>)
    requires Ready(index, policy, alike)
    requires InIndex(a.prompt, index.segments) && InIndex(b.prompt, index.segments)
    modifies index`comparisons
    ensures Charged(old(index.comparisons), index.comparisons,
                    UnitCost(alike, index.segments, a, b), policy, refused == None)
    ensures linked ==> UnitsMatch(alike, index.segments, a, b)
    ensures refused == None && UnitsMatch(alike, index.segments, a, b) ==> linked
  {
    var charged := index.Comparison(policy);
    if charged.Err? { return false, Some(charged.reason); }
    linked := SameExample(a, b);
    var exact := ExactPrompt(index, a.prompt, b.prompt);
    if exact {
      EqualIsFree(alike, index.segments, a.prompt, b.prompt, 0);
      return true, None;
    }
    var lexical := LexicalPrompt(index, a.prompt, b.prompt, policy, alike);
    if lexical.Err? { return linked, Some(lexical.reason); }
    return linked || lexical.value, None;
  }

  /** Some unit of the record matches. */
  ghost predicate MatchesAny(alike: Alike, segments: seq<Segment>, a: Unit, vs: seq<Unit>, m: nat)
    requires InIndex(a.prompt, segments) && AllInIndex(vs, segments) && m <= |vs|
  {
    exists j :: 0 <= j < m && UnitsMatch(alike, segments, a, vs[j])
  }

  lemma MatchesOneMore(alike: Alike, segments: seq<Segment>, a: Unit, vs: seq<Unit>, j: nat, linked: bool,
                       complete: bool)
    requires InIndex(a.prompt, segments) && AllInIndex(vs, segments) && j < |vs|
    requires linked ==> UnitsMatch(alike, segments, a, vs[j])
    requires complete && UnitsMatch(alike, segments, a, vs[j]) ==> linked
    ensures MatchesAny(alike, segments, a, vs, j) || linked ==> MatchesAny(alike, segments, a, vs, |vs|)
    ensures complete ==>
              (MatchesAny(alike, segments, a, vs, j + 1) <==> MatchesAny(alike, segments, a, vs, j) || linked)
  {
  }

  /** Compare one unit with all units of a record; a refused comparison ends the scan. */
  method CompareRow(index: TextIndex, a: Unit, vs: seq<Unit>, policy: Policy, ghost alike: Alike)
    returns (linked: bool, refused: Option<string>)
    requires Ready(index, policy, alike) && InIndex(a.prompt, index.segments) && AllInIndex(vs, index.segments)
    modifies index`comparisons
    ensures Charged(old(index.comparisons), index.comparisons, RowCost(alike, index.segments, a, vs, |vs|), policy,
                    refused == None)
    ensures linked ==> MatchesAny(alike, index.segments, a, vs, |vs|)
    ensures refused == None && MatchesAny(alike, index.segments, a, vs, |vs|) ==> linked
  {
    linked := false;
    for j := 0 to |vs|
      invariant Charged(old(index.comparisons), index.comparisons, RowCost(alike, index.segments, a, vs, j), policy,
                        true)
      invariant linked <==> MatchesAny(alike, index.segments, a, vs, j)
    {
      var matched;
      matched, refused := CompareUnits(index, a, vs[j], policy, alike);
      RowCostGrows(alike, index.segments, a, vs, j + 1, |vs|);
      MatchesOneMore(alike, index.segments, a, vs, j, matched, refused == None);
      linked := linked || matched;
      if refused.Some? { return; }
    }
    refused := None;
  }

  /** Compare all units of two records; a refused comparison ends the scan. */
  method CompareRecords(index: TextIndex, us: seq<Unit>, vs: seq<Unit>, policy: Policy, ghost alike: Alike)
    returns (linked: bool, refused: Option<string>)
    requires Ready(index, policy, alike)
    requires AllInIndex(us, index.segments) && AllInIndex(vs, index.segments)
    modifies index`comparisons
    ensures Charged(old(index.comparisons), index.comparisons, RecordCost(alike, index.segments, us, vs, |us|), policy,
                    refused == None)
    ensures linked ==> RecordsMatch(alike, index.segments, us, vs)
    ensures refused == None && RecordsMatch(alike, index.segments, us, vs) ==> linked
  {
    linked := false;
    for i := 0 to |us|
      invariant Charged(old(index.comparisons), index.comparisons, RecordCost(alike, index.segments, us, vs, i), policy,
                        true)
      invariant linked ==> RecordsMatch(alike, index.segments, us, vs)
      invariant linked || forall x | 0 <= x < i :: !MatchesAny(alike, index.segments, us[x], vs, |vs|)
    {
      var matched;
      matched, refused := CompareRow(index, us[i], vs, policy, alike);
      RecordCostGrows(alike, index.segments, us, vs, i + 1, |us|);
      if matched {
        linked := true;
        RowIsRecord(alike, index.segments, us, vs, i);
      }
      if refused.Some? { return; }
    }
    NoRowNoRecord(alike, index.segments, us, vs);
    refused := None;
  }

  lemma RowIsRecord(alike: Alike, segments: seq<Segment>, us: seq<Unit>, vs: seq<Unit>, i: nat)
    requires AllInIndex(us, segments) && AllInIndex(vs, segments) && i < |us|
    requires MatchesAny(alike, segments, us[i], vs, |vs|)
    ensures RecordsMatch(alike, segments, us, vs)
  {
  }

  lemma NoRowNoRecord(alike: Alike, segments: seq<Segment>, us: seq<Unit>, vs: seq<Unit>)
    requires AllInIndex(us, segments) && AllInIndex(vs, segments)
    ensures RecordsMatch(alike, segments, us, vs) ==>
              exists i :: 0 <= i < |us| && MatchesAny(alike, segments, us[i], vs, |vs|)
  {
    if RecordsMatch(alike, segments, us, vs) {
      var i, j :| 0 <= i < |us| && 0 <= j < |vs| && UnitsMatch(alike, segments, us[i], vs[j]);
      assert MatchesAny(alike, segments, us[i], vs, |vs|);
    }
  }

  /** Records `x` and `y` have matching units. */
  ghost predicate Matched(alike: Alike, segments: seq<Segment>, units: seq<seq<Unit>>, x: nat, y: nat)
    requires Projected(units, segments)
  {
    x < |units| && y < |units| && RecordsMatch(alike, segments, units[x], units[y])
  }

  /** Every edge joins matching records. */
  ghost predicate SoundEdges(alike: Alike, segments: seq<Segment>, units: seq<seq<Unit>>, edges: seq<Edge>)
    requires Projected(units, segments)
  {
    forall e | e in edges :: e.0 < e.1 < |units| && Matched(alike, segments, units, e.0, e.1)
  }

  /** Every matching pair has its edge. */
  ghost predicate CompleteEdges(alike: Alike, segments: seq<Segment>, units: seq<seq<Unit>>, edges: seq<Edge>)
    requires Projected(units, segments)
  {
    forall x: nat, y: nat | x < y && Matched(alike, segments, units, x, y) :: (x, y) in edges
  }

  /** Edges join matching records; every matching pair before `left`, and of `left` before `right`, has one. */
  ghost predicate Scanned(alike: Alike, segments: seq<Segment>, units: seq<seq<Unit>>, left: nat, right: nat,
                          edges: seq<Edge>)
    requires Projected(units, segments)
  {
    SoundEdges(alike, segments, units, edges)
    && forall x: nat, y: nat | x < y && (x < left || (x == left && y < right))
                               && Matched(alike, segments, units, x, y) :: (x, y) in edges
  }

  /** A record without units matches nothing, and beyond the last record there is nothing to match. */
  lemma ScannedIdle(alike: Alike, segments: seq<Segment>, units: seq<seq<Unit>>, left: nat, right: nat,
                    edges: seq<Edge>)
    requires Projected(units, segments) && left < |units|
    requires if units[left] == [] then Scanned(alike, segments, units, left, left + 1, edges)
             else Scanned(alike, segments, units, left, right, edges) && (right < |units| ==> units[right] == [])
    ensures if right < |units| then Scanned(alike, segments, units, left, right + 1, edges)
            else Scanned(alike, segments, units, left + 1, left + 2, edges)
  {
    forall x: nat, y: nat | x < y && Matched(alike, segments, units, x, y) && (x < left || (x == left && y <= right))
      ensures (x, y) in edges
    {
      assert y < |units| && units[x] != [] && units[y] != [];
    }
  }

  lemma ScannedOneMore(alike: Alike, segments: seq<Segment>, units: seq<seq<Unit>>, left: nat, right: nat,
                       edges: seq<Edge>, linked: bool, complete: bool)
    requires Projected(units, segments) && left < right < |units| && Scanned(alike, segments, units, left, right, edges)
    requires linked ==> Matched(alike, segments, units, left, right)
    requires complete && Matched(alike, segments, units, left, right) ==> linked
    ensures var more := if linked then edges + [(left, right)] else edges;
            SoundEdges(alike, segments, units, more)
            && (complete ==> Scanned(alike, segments, units, left, right + 1, more))
  {
    assert forall e :: e in edges + [(left, right)] <==> e in edges || e == (left, right);
  }

  /** Compare two records; without units on either side there is nothing to compare. */
  method EdgeBetween(index: TextIndex, units: seq<seq<Unit>>, left: nat, right: nat, before: seq<Edge>,
                     policy: Policy, ghost alike: Alike)
    returns (edges: seq<Edge>, refused: Option<string>)
    requires Ready(index, policy, alike) && Projected(units, index.segments)
    requires left < right < |units| && units[left] != []
    requires Scanned(alike, index.segments, units, left, right, before)
    modifies index`comparisons
    ensures Charged(old(index.comparisons), index.comparisons,
                    RecordCost(alike, index.segments, units[left], units[right], |units[left]|), policy,
                    refused == None)
    ensures SoundEdges(alike, index.segments, units, edges)
    ensures refused == None ==> Scanned(alike, index.segments, units, left, right + 1, edges)
  {
    if units[right] == [] {
      ScannedIdle(alike, index.segments, units, left, right, before);
      EmptyIsFree(alike, index.segments, units[left], |units[left]|);
      return before, None;
    }
    var linked;
    linked, refused := CompareRecords(index, units[left], units[right], policy, alike);
    ScannedOneMore(alike, index.segments, units, left, right, before, linked, refused == None);
    edges := if linked then before + [(left, right)] else before;
  }

  lemma FromCostNext(alike: Alike, segments: seq<Segment>, units: seq<seq<Unit>>, left: nat, right: nat,
                     a: nat, b: nat, c: nat, policy: Policy, ok: bool)
    requires Projected(units, segments) && left < right < |units|
    requires Charged(a, b, FromCost(alike, segments, units, left, right), policy, true)
    requires Charged(b, c, RecordCost(alike, segments, units[left], units[right], |units[left]|), policy, ok)
    ensures ok ==> Charged(a, c, FromCost(alike, segments, units, left, right + 1), policy, true)
    ensures !ok ==> Charged(a, c, FromCost(alike, segments, units, left, |units|), policy, false)
  {
    FromCostGrows(alike, segments, units, left, right + 1, |units|);
  }

  /** Compare one record with all later ones. */
  method EdgesFrom(index: TextIndex, units: seq<seq<Unit>>, left: nat, before: seq<Edge>, policy: Policy,
                   ghost alike: Alike)
    returns (edges: seq<Edge>, refused: Option<string>)
    requires Ready(index, policy, alike) && Projected(units, index.segments)
    requires left < |units| && units[left] != []
    requires Scanned(alike, index.segments, units, left, left + 1, before)
    modifies index`comparisons
    ensures Charged(old(index.comparisons), index.comparisons,
                    FromCost(alike, index.segments, units, left, |units|), policy, refused == None)
    ensures SoundEdges(alike, index.segments, units, edges)
    ensures refused == None ==> Scanned(alike, index.segments, units, left, |units|, edges)
  {
    edges := before;
    for right := left + 1 to |units|
      invariant Charged(old(index.comparisons), index.comparisons,
                        FromCost(alike, index.segments, units, left, right), policy, true)
      invariant Scanned(alike, index.segments, units, left, right, edges)
    {
      ghost var spent := index.comparisons;
      edges, refused := EdgeBetween(index, units, left, right, edges, policy, alike);
      FromCostNext(alike, index.segments, units, left, right, old(index.comparisons), spent, index.comparisons,
                   policy, refused == None);
      if refused != None { return; }
    }
    refused := None;
  }

  lemma AllScanned(alike: Alike, segments: seq<Segment>, units: seq<seq<Unit>>, edges: seq<Edge>)
    requires Projected(units, segments) && Scanned(alike, segments, units, |units|, |units| + 1, edges)
    ensures CompleteEdges(alike, segments, units, edges)
  {
  }

  /** Compare every pair of records; records without units are skipped uncharged. */
  method LexicalEdges(index: TextIndex, units: seq<seq<Unit>>, policy: Policy, ghost alike: Alike)
    returns (edges: seq<Edge>, refused: Option<string>)
    requires Ready(index, policy, alike) && Projected(units, index.segments)
    modifies index`comparisons
    ensures Charged(old(index.comparisons), index.comparisons,
                    EdgesCost(alike, index.segments, units, |units|), policy, refused == None)
    ensures SoundEdges(alike, index.segments, units, edges)
    ensures refused == None ==> CompleteEdges(alike, index.segments, units, edges)
  {
    edges := [];
    for left := 0 to |units|
      invariant Charged(old(index.comparisons), index.comparisons,
                        EdgesCost(alike, index.segments, units, left), policy, true)
      invariant Scanned(alike, index.segments, units, left, left + 1, edges)
    {
      EdgesCostGrows(alike, index.segments, units, left + 1, |units|);
      if units[left] == [] {
        ScannedIdle(alike, index.segments, units, left, |units|, edges);
        IdleIsFree(alike, index.segments, units, left, |units|);
        continue;
      }
      edges, refused := EdgesFrom(index, units, left, edges, policy, alike);
      if refused.Some? { return; }
      ScannedIdle(alike, index.segments, units, left, |units|, edges);
    }
    AllScanned(alike, index.segments, units, edges);
    refused := None;
  }

  // ---- Protected content ----

  /** An evaluation item that training records must not resemble. */
  datatype Protected = Protected(prompt: Prompt, segments: seq<nat>)

  /** What screening takes from one record: its units and all its emitted text segments. */
  datatype Projection = Projection(units: seq<Unit>, segments: seq<nat>)

  ghost predicate ItemInIndex(item: Protected, segments: seq<Segment>) {
    InIndex(item.prompt, segments) && AllIn(item.segments, segments)
  }

  ghost predicate RecordInIndex(record: Projection, segments: seq<Segment>) {
    AllInIndex(record.units, segments) && AllIn(record.segments, segments)
  }

  ghost predicate AllIn(positions: seq<nat>, segments: seq<Segment>) {
    forall k | 0 <= k < |positions| :: positions[k] < |segments|
  }

  ghost predicate AnyEvidence(alike: Alike, lefts: seq<nat>, rights: seq<nat>) {
    EvidenceTo(alike, lefts, rights, |lefts|)
  }

  ghost predicate EvidenceTo(alike: Alike, lefts: seq<nat>, rights: seq<nat>, m: nat)
    requires m <= |lefts|
  {
    exists i :: 0 <= i < m && AnyWith(alike, lefts[i], rights)
  }

  ghost predicate AnyWith(alike: Alike, left: nat, rights: seq<nat>) {
    exists j :: 0 <= j < |rights| && (left, rights[j]) in alike
  }

  /** An equal prompt, or any pair of segments with lexical evidence. */
  ghost predicate Resembles(alike: Alike, segments: seq<Segment>, record: Projection, item: Protected)
    requires RecordInIndex(record, segments) && ItemInIndex(item, segments)
  {
    (exists i :: 0 <= i < |record.units| && EqualPrompts(segments, record.units[i].prompt, item.prompt))
    || AnyEvidence(alike, record.segments, item.segments)
  }

  /** Each of `rows` segments against `width` others. */
  function CrossCost(rows: nat, width: nat): nat {
    if rows == 0 then 0 else CrossCost(rows - 1, width) + width
  }

  lemma {:induction false} CrossCostGrows(rows: nat, m: nat, width: nat)
    requires rows <= m
    ensures CrossCost(rows, width) <= CrossCost(m, width)
  {
    if rows < m { CrossCostGrows(rows, m - 1, width); }
  }

  /** A record against the first `i` protected items; an item without text is skipped. */
  function ItemsCost(record: Projection, items: seq<Protected>, i: nat): nat
    requires i <= |items|
  {
    if i == 0 then 0
    else
      var item := items[i - 1];
      ItemsCost(record, items, i - 1)
      + if !item.prompt.hasUserText && item.segments == [] then 0
        else |record.units| + CrossCost(|record.segments|, |item.segments|)
  }

  lemma {:induction false} ItemsCostGrows(record: Projection, items: seq<Protected>, i: nat, m: nat)
    requires i <= m <= |items|
    ensures ItemsCost(record, items, i) <= ItemsCost(record, items, m)
  {
    if i < m { ItemsCostGrows(record, items, i, m - 1); }
  }

  lemma {:induction false} NothingIsFree(record: Projection, items: seq<Protected>, i: nat)
    requires i <= |items| && record.units == [] && record.segments == []
    ensures ItemsCost(record, items, i) == 0
  {
    if i > 0 { NothingIsFree(record, items, i - 1); }
  }

  function HitsCost(records: seq<Projection>, items: seq<Protected>, n: nat): nat
    requires n <= |records|
  {
    if n == 0 then 0 else HitsCost(records, items, n - 1) + ItemsCost(records[n - 1], items, |items|)
  }

  lemma {:induction false} HitsCostGrows(records: seq<Projection>, items: seq<Protected>, i: nat, m: nat)
    requires i <= m <= |records|
    ensures HitsCost(records, items, i) <= HitsCost(records, items, m)
  {
    if i < m { HitsCostGrows(records, items, i, m - 1); }
  }

  /** Compare every unit and every pair of segments of a record and a protected item. */
  method CompareProtected(index: TextIndex, record: Projection, item: Protected, policy: Policy, ghost alike: Alike)
    returns (hit: bool, refused: Option<string>)
    requires Ready(index, policy, alike)
    requires RecordInIndex(record, index.segments) && ItemInIndex(item, index.segments)
    modifies index`comparisons
    ensures Charged(old(index.comparisons), index.comparisons,
                    |record.units| + CrossCost(|record.segments|, |item.segments|), policy, refused == None)
    ensures hit ==> Resembles(alike, index.segments, record, item)
    ensures refused == None && Resembles(alike, index.segments, record, item) ==> hit
  {
    hit := false;
    for i := 0 to |record.units|
      invariant Charged(old(index.comparisons), index.comparisons, i, policy, true)
      invariant hit ==> Resembles(alike, index.segments, record, item)
      invariant forall x | 0 <= x < i && EqualPrompts(index.segments, record.units[x].prompt, item.prompt) :: hit
    {
      var charged := index.Comparison(policy);
      if charged.Err? { return hit, Some(charged.reason); }
      var exact := ExactPrompt(index, record.units[i].prompt, item.prompt);
      hit := hit || exact;
    }
    var evidence;
    evidence, refused := CompareSegments(index, record.segments, item.segments, policy, alike);
    hit := hit || evidence;
  }

  lemma EvidenceOneLeft(alike: Alike, lefts: seq<nat>, rights: seq<nat>, i: nat, found: bool, complete: bool)
    requires i < |lefts|
    requires found ==> AnyWith(alike, lefts[i], rights)
    requires complete && AnyWith(alike, lefts[i], rights) ==> found
    ensures EvidenceTo(alike, lefts, rights, i) || found ==> AnyEvidence(alike, lefts, rights)
    ensures complete ==> (EvidenceTo(alike, lefts, rights, i + 1) <==> EvidenceTo(alike, lefts, rights, i) || found)
  {
  }

  lemma EvidenceIsWith(alike: Alike, left: nat, rights: seq<nat>, j: nat)
    requires j < |rights| && (left, rights[j]) in alike
    ensures AnyWith(alike, left, rights)
  {
  }

  method CompareWithAll(index: TextIndex, left: nat, rights: seq<nat>, policy: Policy, ghost alike: Alike)
    returns (hit: bool, refused: Option<string>)
    requires Ready(index, policy, alike)
    requires left < |index.segments| && AllIn(rights, index.segments)
    modifies index`comparisons
    ensures Charged(old(index.comparisons), index.comparisons, |rights|, policy, refused == None)
    ensures hit ==> AnyWith(alike, left, rights)
    ensures refused == None && AnyWith(alike, left, rights) ==> hit
  {
    hit := false;
    for j := 0 to |rights|
      invariant Charged(old(index.comparisons), index.comparisons, j, policy, true)
      invariant hit ==> AnyWith(alike, left, rights)
      invariant hit || forall y | 0 <= y < j :: (left, rights[y]) !in alike
    {
      var found;
      found, refused := Probe(index, left, rights[j], policy, alike);
      if found {
        hit := true;
        EvidenceIsWith(alike, left, rights, j);
      }
      if refused.Some? { return; }
    }
    refused := None;
  }

  method CompareSegments(index: TextIndex, lefts: seq<nat>, rights: seq<nat>, policy: Policy, ghost alike: Alike)
    returns (hit: bool, refused: Option<string>)
    requires Ready(index, policy, alike)
    requires AllIn(lefts, index.segments) && AllIn(rights, index.segments)
    modifies index`comparisons
    ensures Charged(old(index.comparisons), index.comparisons, CrossCost(|lefts|, |rights|), policy, refused == None)
    ensures hit ==> AnyEvidence(alike, lefts, rights)
    ensures refused == None && AnyEvidence(alike, lefts, rights) ==> hit
  {
    hit := false;
    for i := 0 to |lefts|
      invariant Charged(old(index.comparisons), index.comparisons, CrossCost(i, |rights|), policy, true)
      invariant hit <==> EvidenceTo(alike, lefts, rights, i)
    {
      CrossCostGrows(i + 1, |lefts|, |rights|);
      var found;
      found, refused := CompareWithAll(index, lefts[i], rights, policy, alike);
      EvidenceOneLeft(alike, lefts, rights, i, found, refused == None);
      hit := hit || found;
      if refused.Some? { return; }
    }
    refused := None;
  }

  ghost predicate AllProjected(records: seq<Projection>, items: seq<Protected>, segments: seq<Segment>) {
    (forall x | 0 <= x < |records| :: RecordInIndex(records[x], segments)) && ItemsInIndex(items, segments)
  }

  ghost predicate ItemsInIndex(items: seq<Protected>, segments: seq<Segment>) {
    forall i | 0 <= i < |items| :: ItemInIndex(items[i], segments)
  }

  /** The record resembles some protected item. */
  ghost predicate Tainted(alike: Alike, segments: seq<Segment>, record: Projection, items: seq<Protected>)
    requires RecordInIndex(record, segments) && ItemsInIndex(items, segments)
  {
    exists i :: 0 <= i < |items| && Resembles(alike, segments, record, items[i])
  }

  method CompareAllProtected(index: TextIndex, record: Projection, items: seq<Protected>, policy: Policy,
                             ghost alike: Alike)
    returns (hit: bool, refused: Option<string>)
    requires Ready(index, policy, alike) && RecordInIndex(record, index.segments) && ItemsInIndex(items, index.segments)
    modifies index`comparisons
    ensures Charged(old(index.comparisons), index.comparisons,
                    ItemsCost(record, items, |items|), policy, refused == None)
    ensures hit ==> Tainted(alike, index.segments, record, items)
    ensures refused == None && Tainted(alike, index.segments, record, items) ==> hit
  {
    hit := false;
    if record.units == [] && record.segments == [] {
      NothingIsFree(record, items, |items|);
      return false, None;
    }
    for i := 0 to |items|
      invariant Charged(old(index.comparisons), index.comparisons, ItemsCost(record, items, i), policy, true)
      invariant hit ==> Tainted(alike, index.segments, record, items)
      invariant forall x | 0 <= x < i && Resembles(alike, index.segments, record, items[x]) :: hit
    {
      if !items[i].prompt.hasUserText && items[i].segments == [] { continue; }
      var found;
      found, refused := CompareProtected(index, record, items[i], policy, alike);
      hit := hit || found;
      if refused.Some? {
        ItemsCostGrows(record, items, i + 1, |items|);
        return;
      }
    }
    refused := None;
  }

  /** Hits are sound; if complete, they hold every tainted record among the first `n`. */
  ghost predicate HitsTo(alike: Alike, segments: seq<Segment>, records: seq<Projection>, items: seq<Protected>, n: nat,
                         hits: set<nat>, complete: bool)
    requires AllProjected(records, items, segments)
  {
    n <= |records| && (forall x | x in hits :: x < |records| && Tainted(alike, segments, records[x], items))
    && (complete ==> forall x: nat | x < n && Tainted(alike, segments, records[x], items) :: x in hits)
  }

  lemma HitsOneMore(alike: Alike, segments: seq<Segment>, records: seq<Projection>, items: seq<Protected>, n: nat,
                    hits: set<nat>, hit: bool, complete: bool)
    requires AllProjected(records, items, segments) && n < |records|
    requires HitsTo(alike, segments, records, items, n, hits, true)
    requires hit ==> Tainted(alike, segments, records[n], items)
    requires complete && Tainted(alike, segments, records[n], items) ==> hit
    ensures HitsTo(alike, segments, records, items, n + 1, if hit then hits + {n} else hits, complete)
    ensures HitsTo(alike, segments, records, items, |records|, if hit then hits + {n} else hits, false)
  {
  }

  /** The records that resemble protected content. */
  method ProtectedMatches(index: TextIndex, records: seq<Projection>, items: seq<Protected>, policy: Policy,
                          ghost alike: Alike)
    returns (hits: set<nat>, refused: Option<string>)
    requires Ready(index, policy, alike) && AllProjected(records, items, index.segments)
    modifies index`comparisons
    ensures Charged(old(index.comparisons), index.comparisons,
                    HitsCost(records, items, |records|), policy, refused == None)
    ensures HitsTo(alike, index.segments, records, items, |records|, hits, refused == None)
  {
    hits := {};
    for n := 0 to |records|
      invariant Charged(old(index.comparisons), index.comparisons, HitsCost(records, items, n), policy, true)
      invariant HitsTo(alike, index.segments, records, items, n, hits, true)
    {
      HitsCostGrows(records, items, n + 1, |records|);
      var hit;
      hit, refused := CompareAllProtected(index, records[n], items, policy, alike);
      HitsOneMore(alike, index.segments, records, items, n, hits, hit, refused == None);
      hits := if hit then hits + {n} else hits;
      if refused.Some? { return; }
    }
    refused := None;
  }

  // ---- Who shares a group ----

  function UnitsOf(records: seq<Projection>): seq<seq<Unit>> {
    seq(|records|, x requires 0 <= x < |records| => records[x].units)
  }

  /** Everything that decides which records are linked, and which resemble protected content. */
  datatype Corpus = Corpus(
    rows: seq<Row>, declared: seq<SiblingSet>, records: seq<Projection>, items: seq<Protected>,
    segments: seq<Segment>, alike: Alike)
  {
    ghost predicate Valid() {
      |records| == |rows| && Distinct(rows) && Symmetric(alike)
      && AllProjected(records, items, segments) && Projected(UnitsOf(records), segments)
    }

    ghost predicate Matches(x: nat, y: nat)
      requires Valid()
    {
      Matched(alike, segments, UnitsOf(records), x, y)
    }

    ghost predicate IsTainted(x: nat)
      requires Valid()
    {
      x < |records| && Tainted(alike, segments, records[x], items)
    }
  }

  /** The comparisons between all records. */
  ghost function LinkCost(w: Corpus): nat
    requires w.Valid()
  {
    EdgesCost(w.alike, w.segments, UnitsOf(w.records), |w.records|)
  }

  /** The comparisons of a complete scan. */
  ghost function ScanCost(w: Corpus): nat
    requires w.Valid()
  {
    LinkCost(w) + HitsCost(w.records, w.items, |w.records|)
  }

  lemma MatchesSymmetric(w: Corpus, x: nat, y: nat)
    requires w.Valid() && w.Matches(x, y)
    ensures w.Matches(y, x)
  {
    RecordsMatchSymmetric(w.alike, w.segments, UnitsOf(w.records)[x], UnitsOf(w.records)[y]);
  }

  /** Two records are related by declaration or by matching units. */
  ghost predicate Linked(w: Corpus, x: nat, y: nat)
    requires w.Valid()
  {
    Related(w.rows, w.declared, x, y) || w.Matches(x, y)
  }

  /** A chain of linked records. */
  ghost predicate IsChain(w: Corpus, chain: seq<nat>)
    requires w.Valid()
  {
    chain != [] && forall i | 0 < i < |chain| :: LinkAt(w, chain, i)
  }

  ghost predicate LinkAt(w: Corpus, chain: seq<nat>, i: int)
    requires w.Valid() && 0 < i < |chain|
  {
    Linked(w, chain[i - 1], chain[i])
  }

  ghost predicate Reaches(w: Corpus, x: nat, y: nat)
    requires w.Valid()
  {
    exists chain :: IsChain(w, chain) && chain[0] == x && chain[|chain| - 1] == y
  }

  ghost predicate EdgesSound(w: Corpus, lexical: seq<Edge>)
    requires w.Valid()
  {
    SoundEdges(w.alike, w.segments, UnitsOf(w.records), lexical)
  }

  ghost predicate EdgesComplete(w: Corpus, lexical: seq<Edge>)
    requires w.Valid()
  {
    CompleteEdges(w.alike, w.segments, UnitsOf(w.records), lexical)
  }

  lemma LinkedIsConnected(w: Corpus, edges: seq<Edge>, lexical: seq<Edge>, x: nat, y: nat)
    requires w.Valid() && Intake.Declares(w.rows, w.declared, edges) && EdgesComplete(w, lexical) && Linked(w, x, y)
    ensures Connected(edges + lexical, x, y)
  {
    if x == y {
      ConnectedSelf(edges + lexical, x);
    } else if Related(w.rows, w.declared, x, y) {
      ConnectedGrows(edges, edges + lexical, x, y);
    } else {
      if y < x { MatchesSymmetric(w, x, y); }
      ConnectedEdge(edges + lexical, x, y);
    }
  }

  lemma {:induction false} ChainIsConnected(w: Corpus, edges: seq<Edge>, lexical: seq<Edge>, chain: seq<nat>)
    requires w.Valid() && Intake.Declares(w.rows, w.declared, edges) && EdgesComplete(w, lexical) && IsChain(w, chain)
    ensures Connected(edges + lexical, chain[0], chain[|chain| - 1])
  {
    var m := |chain| - 1;
    if m == 0 {
      ConnectedSelf(edges + lexical, chain[0]);
    } else {
      var shorter := chain[..m];
      forall i | 0 < i < |shorter| ensures LinkAt(w, shorter, i) {
        assert LinkAt(w, chain, i);
      }
      ChainIsConnected(w, edges, lexical, shorter);
      assert LinkAt(w, chain, m);
      LinkedIsConnected(w, edges, lexical, chain[m - 1], chain[m]);
      ConnectedTransitive(edges + lexical, chain[0], chain[m - 1], chain[m]);
    }
  }

  lemma PathIsChain(w: Corpus, edges: seq<Edge>, lexical: seq<Edge>, path: seq<nat>)
    requires w.Valid() && Intake.Declares(w.rows, w.declared, edges) && EdgesSound(w, lexical)
    requires IsPath(edges + lexical, path)
    ensures IsChain(w, path)
  {
    forall i | 0 < i < |path| ensures LinkAt(w, path, i) {
      var x, y := path[i - 1], path[i];
      assert Adjacent(edges + lexical, x, y);
      if (y, x) in lexical { MatchesSymmetric(w, y, x); }
    }
  }

  lemma ConnectedIsReached(w: Corpus, edges: seq<Edge>, lexical: seq<Edge>, x: nat, y: nat)
    requires w.Valid() && Intake.Declares(w.rows, w.declared, edges) && EdgesSound(w, lexical)
    ensures Connected(edges + lexical, x, y) ==> Reaches(w, x, y)
    ensures EdgesComplete(w, lexical) ==> (Reaches(w, x, y) ==> Connected(edges + lexical, x, y))
  {
    if path :| Joins(edges + lexical, path, x, y) {
      PathIsChain(w, edges, lexical, path);
    }
    if EdgesComplete(w, lexical) {
      if chain :| IsChain(w, chain) && chain[0] == x && chain[|chain| - 1] == y {
        ChainIsConnected(w, edges, lexical, chain);
      }
    }
  }

  ghost predicate ShareGroup(groups: seq<Group>, a: RecordId, b: RecordId) {
    exists i :: 0 <= i < |groups| && a in groups[i].members && b in groups[i].members
  }

  lemma ShareIffConnected(rows: seq<Row>, edges: seq<Edge>, previous: seq<Group>, matched: set<RecordId>,
                          groups: seq<Group>, x: nat, y: nat)
    requires Distinct(rows) && Plans(rows, edges, previous, matched, groups) && x < |rows| && y < |rows|
    ensures ShareGroup(groups, rows[x].key, rows[y].key) <==> Connected(edges, x, y)
  {
    assert Holds(groups, rows[x].key);
    var i: nat :| i < |groups| && rows[x].key in groups[i].members;
    assert OfClass(rows, edges, previous, matched, groups[i]);
    SharesGroup(rows, edges, previous, matched, groups[i], x, y);
    if ShareGroup(groups, rows[x].key, rows[y].key) {
      var j: nat :| j < |groups| && rows[x].key in groups[j].members && rows[y].key in groups[j].members;
      assert i == j;
    }
  }

  /** Edges and hits are sound, and complete if nothing was refused. */
  ghost predicate ScanIs(w: Corpus, lexical: seq<Edge>, hits: set<nat>, complete: bool)
    requires w.Valid()
  {
    EdgesSound(w, lexical) && (complete ==> EdgesComplete(w, lexical))
    && HitsTo(w.alike, w.segments, w.records, w.items, |w.records|, hits, complete)
  }

  ghost predicate HasTainted(w: Corpus, g: Group)
    requires w.Valid()
  {
    exists x: nat :: x < |w.rows| && w.rows[x].key in g.members && w.IsTainted(x)
  }

  /**
   * Two records share a group only if a chain of declared relations and matching units links them,
   * and a group is marked only if a member resembles protected content. After a complete scan both
   * hold the other way round as well.
   */
  ghost predicate Answers(w: Corpus, groups: seq<Group>, complete: bool)
    requires w.Valid()
  {
    (forall x: nat, y: nat | x < |w.rows| && y < |w.rows| && ShareGroup(groups, w.rows[x].key, w.rows[y].key) ::
       Reaches(w, x, y))
    && (complete ==>
          forall x: nat, y: nat | x < |w.rows| && y < |w.rows| && Reaches(w, x, y) ::
            ShareGroup(groups, w.rows[x].key, w.rows[y].key))
    && (forall i | 0 <= i < |groups| && ProtectedMatch in groups[i].reasons :: HasTainted(w, groups[i]))
    && (complete ==> forall i | 0 <= i < |groups| && HasTainted(w, groups[i]) :: ProtectedMatch in groups[i].reasons)
  }

  /** The two shingle sums of the segments fit their limits. */
  ghost predicate Fits(index: TextIndex, policy: Policy)
    requires policy.Valid()
    reads index
  {
    index.shingles + TotalDistinct(policy, index.segments) <= Max(index.shingles, Cap(policy.limits.distinctShingles))
    && index.shingleTokenWork + TotalWork(policy, index.segments)
       <= Max(index.shingleTokenWork, Cap(policy.limits.shingleTokenWork))
  }

  /** The counters are within their limits, as they are from the start on. */
  predicate Unspent(index: TextIndex, policy: Policy)
    reads index
  {
    index.shingles <= Cap(policy.limits.distinctShingles)
    && index.shingleTokenWork <= Cap(policy.limits.shingleTokenWork)
    && index.comparisons <= Cap(policy.limits.comparisons)
  }

  /** The limits leave room for all shingles and for the comparisons between records. */
  ghost predicate AffordsEdges(index: TextIndex, w: Corpus, policy: Policy)
    requires policy.Valid() && w.Valid()
    reads index
  {
    Fits(index, policy) && index.comparisons + LinkCost(w) <= Cap(policy.limits.comparisons)
  }

  /** The limits leave room for all shingles and for every comparison. */
  ghost predicate Affords(index: TextIndex, w: Corpus, policy: Policy)
    requires policy.Valid() && w.Valid()
    reads index
  {
    Fits(index, policy) && index.comparisons + ScanCost(w) <= Cap(policy.limits.comparisons)
  }

  /**
   * All lexical work on a fresh index; the first refusal ends it. Segments whose shingle sums do not
   * fit their limits are not compared at all.
   */
  method Scan(index: TextIndex, ghost w: Corpus, records: seq<Projection>, items: seq<Protected>, policy: Policy)
    returns (lexical: seq<Edge>, hits: set<nat>, refused: Option<string>)
    requires index.Valid() && policy.Valid() && w.Valid()
    requires w.records == records && w.items == items && w.segments == index.segments
    requires w.alike == EvidentPairs(policy, index.segments)
    modifies index
    ensures index.segments == old(index.segments)
    ensures refused.Some? ==>
              Exhausted(index.comparisons, policy)
              || Refused(policy, old(index.shingles + TotalDistinct(policy, index.segments)),
                         old(index.shingleTokenWork + TotalWork(policy, index.segments)))
    ensures old(Unspent(index, policy)) ==> (refused == None <==> old(Affords(index, w, policy)))
    ensures old(Unspent(index, policy) && AffordsEdges(index, w, policy)) ==> EdgesComplete(w, lexical)
    ensures ScanIs(w, lexical, hits, refused == None)
    ensures old(Fits(index, policy)) || (lexical == [] && hits == {} && refused.Some?)
  {
    lexical, hits := [], {};
    var built := index.Build(policy);
    if built.Err? { return lexical, hits, Some(built.reason); }
    assert old(Fits(index, policy));
    lexical, refused := LexicalEdges(index, UnitsOf(records), policy, w.alike);
    assert EdgesSound(w, lexical) && (refused == None ==> EdgesComplete(w, lexical));
    if refused == None {
      hits, refused := ProtectedMatches(index, records, items, policy, w.alike);
    }
  }

  /**
   * Collect all edges and group the population. `edges` and `lexical` are the declared and the
   * lexical edges of the plan, `matched` the records with protected matches.
   */
  method Screen(index: TextIndex, rows: seq<Row>, declared: seq<SiblingSet>, records: seq<Projection>,
                items: seq<Protected>, policy: Policy, previous: seq<Group>)
    returns (groups: seq<Group>, refused: Option<string>, ghost w: Corpus, ghost edges: seq<Edge>,
             ghost lexical: seq<Edge>, ghost matched: set<RecordId>)
    requires index.Valid() && policy.Valid() && AllProjected(records, items, index.segments)
    requires |records| == |rows| && Distinct(rows) && Projected(UnitsOf(records), index.segments)
    modifies index
    ensures index.segments == old(index.segments)
    ensures w == Corpus(rows, declared, records, items, index.segments, EvidentPairs(policy, index.segments))
    ensures w.Valid()
    ensures refused.Some? ==>
              Exhausted(index.comparisons, policy)
              || Refused(policy, old(index.shingles + TotalDistinct(policy, index.segments)),
                         old(index.shingleTokenWork + TotalWork(policy, index.segments)))
    ensures old(Unspent(index, policy)) ==> (refused == None <==> old(Affords(index, w, policy)))
    ensures old(Unspent(index, policy) && AffordsEdges(index, w, policy)) ==> EdgesComplete(w, lexical)
    ensures Answers(w, groups, refused == None)
    ensures Intake.Declares(rows, declared, edges) && Plans(rows, edges + lexical, previous, matched, groups)
    ensures EdgesSound(w, lexical) && (refused == None ==> EdgesComplete(w, lexical))
    ensures old(Fits(index, policy)) || (lexical == [] && refused.Some?)
  {
    w := Corpus(rows, declared, records, items, index.segments, EvidentPairs(policy, index.segments));
    var found, hits;
    found, hits, refused := Scan(index, w, records, items, policy);
    lexical := found;
    groups, edges, matched := GroupAll(w, rows, declared, found, hits, previous, refused == None);
  }

  /** The groups over the declared edges and the given lexical edges and protected hits. */
  method GroupAll(ghost w: Corpus, rows: seq<Row>, declared: seq<SiblingSet>, lexical: seq<Edge>, hits: set<nat>,
                  previous: seq<Group>, ghost complete: bool)
    returns (groups: seq<Group>, ghost edges: seq<Edge>, ghost matched: set<RecordId>)
    requires w.Valid() && w.rows == rows && w.declared == declared && ScanIs(w, lexical, hits, complete)
    ensures Answers(w, groups, complete)
    ensures Intake.Declares(rows, declared, edges) && Plans(rows, edges + lexical, previous, matched, groups)
  {
    var all, _ := DeclaredEdges(rows, declared);
    var marked := set x | x in hits :: rows[x].key;
    var identity;
    groups, identity := Groups(rows, all + lexical, previous, marked);
    edges, matched := all, marked;
    GroupsAnswer(w, all, lexical, hits, previous, marked, groups, complete);
  }

  /** What the groups over sound, and perhaps complete, edges and hits say. */
  lemma GroupsAnswer(w: Corpus, edges: seq<Edge>, lexical: seq<Edge>, hits: set<nat>, previous: seq<Group>,
                     matched: set<RecordId>, groups: seq<Group>, complete: bool)
    requires w.Valid() && Intake.Declares(w.rows, w.declared, edges) && ScanIs(w, lexical, hits, complete)
    requires Plans(w.rows, edges + lexical, previous, matched, groups)
    requires forall id :: id in matched <==> exists x :: x in hits && x < |w.rows| && w.rows[x].key == id
    ensures Answers(w, groups, complete)
  {
    forall x: nat, y: nat | x < |w.rows| && y < |w.rows|
      ensures ShareGroup(groups, w.rows[x].key, w.rows[y].key) ==> Reaches(w, x, y)
      ensures complete && Reaches(w, x, y) ==> ShareGroup(groups, w.rows[x].key, w.rows[y].key)
    {
      ShareIffConnected(w.rows, edges + lexical, previous, matched, groups, x, y);
      ConnectedIsReached(w, edges, lexical, x, y);
    }
    forall i | 0 <= i < |groups|
      ensures ProtectedMatch in groups[i].reasons ==> HasTainted(w, groups[i])
      ensures complete && HasTainted(w, groups[i]) ==> ProtectedMatch in groups[i].reasons
    {
      assert OfClass(w.rows, edges + lexical, previous, matched, groups[i]);
      MarkedIffTainted(w, edges + lexical, previous, hits, matched, groups[i], complete);
    }
  }

  lemma MarkedIffTainted(w: Corpus, edges: seq<Edge>, previous: seq<Group>, hits: set<nat>, matched: set<RecordId>,
                         g: Group, complete: bool)
    requires w.Valid() && OfClass(w.rows, edges, previous, matched, g)
    requires HitsTo(w.alike, w.segments, w.records, w.items, |w.records|, hits, complete)
    requires forall id :: id in matched <==> exists x :: x in hits && x < |w.rows| && w.rows[x].key == id
    ensures ProtectedMatch in g.reasons ==> HasTainted(w, g)
    ensures complete && HasTainted(w, g) ==> ProtectedMatch in g.reasons
  {
    MarkedIffMatched(w.rows, edges, previous, matched, g);
    if ProtectedMatch in g.reasons {
      var id :| id in g.members && id in matched;
      var x :| x in hits && x < |w.rows| && w.rows[x].key == id;
    }
  }

  lemma MarkedIffMatched(rows: seq<Row>, edges: seq<Edge>, previous: seq<Group>, matched: set<RecordId>, g: Group)
    requires OfClass(rows, edges, previous, matched, g)
    ensures ProtectedMatch in g.reasons <==> exists id :: id in g.members && id in matched
  {
    var block :| IsClass(|rows|, edges, block) && GroupIs(rows, previous, matched, block, g);
  }
}
