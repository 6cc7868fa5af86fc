/** Exact token tuples, bounded reusable shingle indexes and canonical pair evidence. */
module Lexical {
  import opened Common
  import opened Shingles

  datatype Limits = Limits(
    segmentBytes: nat, segments: nat, totalTextBytes: nat, segmentTokens: nat,
    distinctShingles: nat, shingleTokenWork: nat, comparisons: nat)

  /** `low` and `high` bound the shingle lengths; `overlap` is the required contiguous run. */
  datatype Policy = Policy(low: nat, high: nat, overlap: nat, threshold: real, limits: Limits) {
    /** What declaration validation admits. */
    ghost predicate Valid() {
      0 < low <= high && 0 < overlap
    }
  }

  datatype Segment = Segment(id: string, field: nat, tokens: Tokens)

  datatype Evidence = Evidence(left: string, right: string, n: nat, intersection: nat, union: nat)

  const U64_MAX: nat := 0xFFFF_FFFF_FFFF_FFFF
  const U32_MAX: nat := 0xFFFF_FFFF

  // ---- Text ----

  predicate IsSeparator(c: char) {
    var u := c as int;
    0x09 <= u <= 0x0d || u == 0x20 || u == 0x85 || u == 0xa0 || u == 0x1680 || 0x2000 <= u <= 0x200a
    || u == 0x2028 || u == 0x2029 || u == 0x202f || u == 0x205f || u == 0x3000
  }

  function LowerChar(c: char): char {
    if 'A' <= c <= 'Z' then (c as int + 32) as char else c
  }

  function Lower(word: string): string {
    seq(|word|, i requires 0 <= i < |word| => LowerChar(word[i]))
  }

  /** The nonempty pieces between separators; `current` is the piece being read. */
  function Pieces(text: string, current: string): seq<string> {
    if text == [] then (if current == [] then [] else [current])
    else if IsSeparator(text[0]) then (if current == [] then [] else [current]) + Pieces(text[1..], [])
    else Pieces(text[1..], current + [text[0]])
  }

  /** The normalized words of a text. */
  function Words(text: string): seq<string> {
    var pieces := Pieces(text, []);
    seq(|pieces|, i requires 0 <= i < |pieces| => Lower(pieces[i]))
  }

  /** Length of the UTF-8 encoding. */
  function Utf8Length(text: string): nat {
    if text == [] then 0
    else
      var u := text[0] as int;
      (if u < 0x80 then 1 else if u < 0x800 then 2 else if u < 0x1_0000 then 3 else 4) + Utf8Length(text[1..])
  }

  // ---- Counters ----

  /** The counter after charging `count`; it never wraps and never passes its limit. */
  function Charge(counter: nat, count: nat, limit: nat): (r: Result<nat>)
    ensures r.Ok? <==> counter + count <= U64_MAX && counter + count <= limit
    ensures r.Ok? ==> r.value == counter + count
  {
    if counter + count > U64_MAX then Err("resource_counter_overflow")
    else if counter + count > limit then Err("resource_limit")
    else Ok(counter + count)
  }

  /** The largest sum that can be charged. */
  function Cap(limit: nat): nat {
    Min(limit, U64_MAX)
  }

  /** The sum cannot be counted, or is beyond the limit. */
  predicate Over(sum: nat, limit: nat) {
    sum > Cap(limit)
  }

  /** Some of the two shingle sums is over its limit. */
  predicate Refused(policy: Policy, distinct: nat, work: nat) {
    Over(distinct, policy.limits.distinctShingles) || Over(work, policy.limits.shingleTokenWork)
  }

  // ---- Shingle lengths and resource sums ----

  function Min(a: nat, b: nat): nat {
    if a <= b then a else b
  }

  function Max(a: nat, b: nat): nat {
    if a <= b then b else a
  }

  function Range(low: nat, high: nat): seq<nat>
    decreases high + 1 - low
  {
    if low > high then [] else [low] + Range(low + 1, high)
  }

  ghost predicate Rising(ns: seq<nat>) {
    forall i, j | 0 <= i < j < |ns| :: ns[i] < ns[j]
  }

  lemma {:induction false} RangeHolds(low: nat, high: nat)
    ensures forall n: nat :: n in Range(low, high) <==> low <= n <= high
    ensures Rising(Range(low, high))
    decreases high + 1 - low
  {
    if low <= high {
      var rest := Range(low + 1, high);
      RangeHolds(low + 1, high);
      assert forall i | 0 <= i < |rest| :: rest[i] in rest;
    }
  }

  /** The lengths indexed for a segment, ascending. */
  function Lengths(policy: Policy, length: nat): seq<nat>
    requires policy.Valid()
  {
    var range := Range(policy.low, Min(policy.high, length));
    if policy.overlap > length || policy.overlap in range then range
    else if policy.overlap < policy.low then [policy.overlap] + range
    else range + [policy.overlap]
  }

  /** A segment of this length has an index of its windows of length `n`. */
  predicate IsIndexed(policy: Policy, length: nat, n: nat) {
    policy.low <= n <= Min(policy.high, length) || n == policy.overlap <= length
  }

  /** The n-gram range cut at the segment, and the overlap length if the segment reaches it, each once. */
  lemma LengthsHold(policy: Policy, length: nat)
    requires policy.Valid()
    ensures forall n: nat :: n in Lengths(policy, length) <==> IsIndexed(policy, length, n)
    ensures Rising(Lengths(policy, length))
  {
    var range := Range(policy.low, Min(policy.high, length));
    RangeHolds(policy.low, Min(policy.high, length));
    assert forall i | 0 <= i < |range| :: range[i] in range;
  }

  /** Distinct windows over the given lengths. */
  ghost function DistinctOver(t: Tokens, ns: seq<nat>): nat {
    if ns == [] then 0 else DistinctOver(t, ns[..|ns| - 1]) + |Windows(t, ns[|ns| - 1])|
  }

  /** Token positions over all windows, repeated ones included, of the given lengths. */
  ghost function WorkOver(t: Tokens, ns: seq<nat>): nat {
    if ns == [] then 0
    else WorkOver(t, ns[..|ns| - 1]) + WorkAt(t, ns[|ns| - 1])
  }

  /** Windows of length `n` times their length. */
  function WorkAt(t: Tokens, n: nat): nat {
    if n <= |t| then (|t| - n + 1) * n else 0
  }

  ghost function DistinctIn(policy: Policy, t: Tokens): nat
    requires policy.Valid()
  {
    DistinctOver(t, Lengths(policy, |t|))
  }

  ghost function WorkIn(policy: Policy, t: Tokens): nat
    requires policy.Valid()
  {
    WorkOver(t, Lengths(policy, |t|))
  }

  ghost function TotalDistinct(policy: Policy, segments: seq<Segment>): nat
    requires policy.Valid()
  {
    if segments == [] then 0
    else TotalDistinct(policy, segments[..|segments| - 1]) + DistinctIn(policy, segments[|segments| - 1].tokens)
  }

  ghost function TotalWork(policy: Policy, segments: seq<Segment>): nat
    requires policy.Valid()
  {
    if segments == [] then 0
    else TotalWork(policy, segments[..|segments| - 1]) + WorkIn(policy, segments[|segments| - 1].tokens)
  }

  // ---- Brute-force meaning of a pair comparison ----

  ghost function CommonCount(a: Tokens, b: Tokens, n: nat): nat {
    |Windows(a, n) * Windows(b, n)|
  }

  ghost function EitherCount(a: Tokens, b: Tokens, n: nat): nat {
    |Windows(a, n) + Windows(b, n)|
  }

  ghost predicate Similar(policy: Policy, a: Tokens, b: Tokens, n: nat) {
    CommonCount(a, b, n) > 0 && EitherCount(a, b, n) > 0
    && CommonCount(a, b, n) as real / EitherCount(a, b, n) as real >= policy.threshold
  }

  /** Evidence at the qualifying ones of the given lengths. */
  ghost function EvidenceOver(policy: Policy, l: Segment, r: Segment, ns: seq<nat>): seq<Evidence> {
    if ns == [] then []
    else EvidenceOver(policy, l, r, ns[..|ns| - 1]) + EvidenceAt(policy, l, r, ns[|ns| - 1])
  }

  lemma EvidenceOneMore(policy: Policy, l: Segment, r: Segment, ns: seq<nat>, i: nat)
    requires i < |ns|
    ensures EvidenceOver(policy, l, r, ns[..i + 1])
            == EvidenceOver(policy, l, r, ns[..i]) + EvidenceAt(policy, l, r, ns[i])
  {
    assert ns[..i + 1][..i] == ns[..i];
  }

  ghost function EvidenceAt(policy: Policy, l: Segment, r: Segment, n: nat): seq<Evidence> {
    if Similar(policy, l.tokens, r.tokens, n)
    then [Evidence(l.id, r.id, n, CommonCount(l.tokens, r.tokens, n), EitherCount(l.tokens, r.tokens, n))]
    else []
  }

  /** The lengths within policy that both segments reach. */
  function Reached(policy: Policy, a: Tokens, b: Tokens): seq<nat> {
    Range(policy.low, Min(Min(policy.high, |a|), |b|))
  }

  predicate IsReached(policy: Policy, a: Tokens, b: Tokens, n: nat) {
    policy.low <= n <= Min(Min(policy.high, |a|), |b|)
  }

  lemma ReachedHolds(policy: Policy, a: Tokens, b: Tokens)
    ensures forall n: nat :: n in Reached(policy, a, b) <==> IsReached(policy, a, b, n)
    ensures Rising(Reached(policy, a, b))
  {
    RangeHolds(policy.low, Min(Min(policy.high, |a|), |b|));
  }

  lemma ReachedAt(policy: Policy, a: Tokens, b: Tokens, i: nat)
    requires i < |Reached(policy, a, b)|
    ensures IsReached(policy, a, b, Reached(policy, a, b)[i])
  {
    ReachedHolds(policy, a, b);
    assert Reached(policy, a, b)[i] in Reached(policy, a, b);
  }

  /** Comparison of a pair by sets alone: the contiguous-run gate, then every length. */
  ghost function BruteForce(policy: Policy, l: Segment, r: Segment): seq<Evidence> {
    if CommonCount(l.tokens, r.tokens, policy.overlap) == 0 then []
    else EvidenceOver(policy, l, r, Reached(policy, l.tokens, r.tokens))
  }

  ghost function TotalBytes(texts: seq<string>): nat {
    if texts == [] then 0 else TotalBytes(texts[..|texts| - 1]) + Utf8Length(texts[|texts| - 1])
  }

  class TextIndex {
    var segments: seq<Segment>
    var words: map<string, nat>
    var sets: map<(nat, nat), seq<nat>>
    var textBytes: nat
    var shingles: nat
    var shingleTokenWork: nat
    var comparisons: nat
    /** The normalized words each segment was made of. */
    ghost var sources: seq<seq<string>>
    /** Every text that was charged, whether or not it became a segment. */
    ghost var texts: seq<string>

    constructor ()
      ensures Valid() && Accounted() && segments == [] && texts == [] && words == map[] && sets == map[]
      ensures textBytes == shingles == shingleTokenWork == comparisons == 0
    {
      segments, words, sets, sources, texts := [], map[], map[], [], [];
      textBytes, shingles, shingleTokenWork, comparisons := 0, 0, 0, 0;
    }

    /** The byte counter is the exact sum over the charged texts. */
    ghost predicate Accounted()
      reads this
    {
      textBytes == TotalBytes(texts)
    }

    ghost predicate Valid()
      reads this`segments, this`words, this`sets, this`sources
    {
      Bijective(words) && |sources| == |segments|
      && (forall s | 0 <= s < |segments| :: Spells(words, segments[s].tokens, sources[s]))
      && forall s, n | (s, n) in sets :: s < |segments| && IsIndex(segments[s].tokens, n, sets[(s, n)])
    }

    /** Equal tokens are exactly equal normalized word sequences. */
    lemma TokensIdentify(i: nat, j: nat)
      requires Valid() && i < |segments| && j < |segments|
      ensures segments[i].tokens == segments[j].tokens <==> sources[i] == sources[j]
    {
      var a, b := sources[i], sources[j];
      if segments[i].tokens == segments[j].tokens {
        assert forall x | 0 <= x < |a| :: words[a[x]] == segments[i].tokens[x] == words[b[x]];
      }
    }

    /**
     * Normalize and intern one text. A refused text adds no segment, but what it has interned and
     * charged by then stays.
     */
    method Add(id: string, field: nat, text: string, limits: Limits) returns (r: Result<nat>)
      requires Valid()
      modifies this
      ensures Valid()
      ensures sets == old(sets) && shingles == old(shingles) && shingleTokenWork == old(shingleTokenWork)
      ensures comparisons == old(comparisons)
      ensures old(Accounted()) ==> Accounted()
      ensures texts == old(texts) || texts == old(texts) + [text]
      ensures r.Ok? ==> texts == old(texts) + [text]
      ensures old(words).Keys <= words.Keys && forall w | w in old(words) :: words[w] == old(words)[w]
      ensures textBytes == old(textBytes)
              || (textBytes == old(textBytes) + Utf8Length(text) && textBytes <= limits.totalTextBytes)
      ensures old(words).Keys <= words.Keys <= Known(old(words), Words(text))
      ensures r.Ok? <==> Utf8Length(text) <= limits.segmentBytes && |old(segments)| < limits.segments
                         && !Over(old(textBytes) + Utf8Length(text), limits.totalTextBytes)
                         && Internable(old(words), Words(text), limits)
      ensures match r
              case Ok(position) =>
                position == |old(segments)| && |segments| == position + 1 && old(segments) <= segments
                && segments[position].id == id && segments[position].field == field
                && sources == old(sources) + [Words(text)]
                && textBytes == old(textBytes) + Utf8Length(text)
              case Err(_) => segments == old(segments) && sources == old(sources)
    {
      KnownGrows(words, Words(text), 0);
      var charged := ChargeText(text, limits);
      if charged.Err? { return Err(charged.reason); }
      var tokens := InternAll(text, limits);
      if tokens.Err? { return Err(tokens.reason); }
      Append(Segment(id, field, tokens.value), Words(text));
      return Ok(|segments| - 1);
    }

    /** One more segment, with the words it is made of. */
    method Append(segment: Segment, ghost source: seq<string>)
      requires Valid() && Spells(words, segment.tokens, source)
      modifies this`segments, this`sources
      ensures Valid() && segments == old(segments) + [segment] && sources == old(sources) + [source]
    {
      ghost var before, known := segments, sources;
      segments := segments + [segment];
      sources := sources + [source];
      forall s | 0 <= s < |segments| ensures Spells(words, segments[s].tokens, sources[s]) {
        assert s < |before| ==> Spells(words, before[s].tokens, known[s]);
      }
      assert forall s, n | (s, n) in sets :: segments[s] == before[s];
    }

    /** The checks before a text is read, and the charge of its bytes. */
    method ChargeText(text: string, limits: Limits) returns (r: Result<()>)
      modifies this`textBytes, this`texts
      ensures old(Accounted()) ==> Accounted()
      ensures r.Ok? <==> Utf8Length(text) <= limits.segmentBytes && |segments| < limits.segments
                         && !Over(old(textBytes) + Utf8Length(text), limits.totalTextBytes)
      ensures if r.Ok? then textBytes == old(textBytes) + Utf8Length(text) && texts == old(texts) + [text]
              else textBytes == old(textBytes) && texts == old(texts)
    {
      if Utf8Length(text) > limits.segmentBytes { return Err("segment_bytes_limit"); }
      if |segments| >= limits.segments { return Err("segment_count_limit"); }
      var charged := Charge(textBytes, Utf8Length(text), limits.totalTextBytes);
      if charged.Err? { return Err("total_text_bytes_limit"); }
      textBytes := charged.value;
      texts := texts + [text];
      assert texts[..|texts| - 1] == old(texts);
      return Ok(());
    }

    /** The identities of a text's words, in order; a refusal keeps the words interned so far. */
    method InternAll(text: string, limits: Limits) returns (r: Result<Tokens>)
      requires Valid()
      modifies this`words
      ensures Valid()
      ensures old(words).Keys <= words.Keys && forall w | w in old(words) :: words[w] == old(words)[w]
      ensures old(words).Keys <= words.Keys <= Known(old(words), Words(text))
      ensures r.Ok? <==> Internable(old(words), Words(text), limits)
      ensures r.Ok? ==> Spells(words, r.value, Words(text))
    {
      var pieces, source := Pieces(text, []), Words(text);
      var tokens: Tokens := [];
      for i := 0 to |pieces|
        invariant Valid()
        invariant old(words).Keys <= words.Keys && forall w | w in old(words) :: words[w] == old(words)[w]
        invariant Spells(words, tokens, source[..i]) && |tokens| <= limits.segmentTokens
        invariant words.Keys == Known(old(words), source[..i])
        invariant i > 0 ==> |Known(old(words), source[..i - 1])| <= U32_MAX
      {
        if |tokens| >= limits.segmentTokens || |words| > U32_MAX {
          KnownGrows(old(words), source, i);
          NotInternable(old(words), source, limits, i);
          return Err(if |tokens| >= limits.segmentTokens then "segment_tokens_limit" else "token_identity_overflow");
        }
        KnownOneMore(old(words), source, i);
        ghost var before := words;
        var token := Intern(Lower(pieces[i]));
        SpellsOneMore(before, words, tokens, source, i, token);
        tokens := tokens + [token];
      }
      assert source[..|pieces|] == source;
      return Ok(tokens);
    }

    /** The identity of a word: its own if it has one, else the next free number. */
    method Intern(word: string) returns (token: nat)
      requires Valid()
      modifies this`words
      ensures Valid() && word in words && words[word] == token && words.Keys == old(words).Keys + {word}
      ensures old(words).Keys <= words.Keys && forall w | w in old(words) :: words[w] == old(words)[w]
    {
      if word !in words {
        InternKeeps(words, word);
        words := words[word := |words|];
      }
      token := words[word];
    }

    /** Charge one comparison. */
    method Comparison(policy: Policy) returns (r: Result<()>)
      modifies this`comparisons
      ensures r.Ok? <==> old(comparisons) + 1 <= Cap(policy.limits.comparisons)
      ensures comparisons == old(comparisons) + if r.Ok? then 1 else 0
    {
      var charged := Charge(comparisons, 1, policy.limits.comparisons);
      if charged.Err? { return Err("comparison_limit"); }
      comparisons := charged.value;
      return Ok(());
    }

    // ---- Shingle indexes ----

    /** One more window: a new one is charged and put in its place. */
    method Place(tokens: Tokens, n: nat, starts: seq<nat>, m: nat, policy: Policy) returns (r: Result<seq<nat>>)
      requires m + n <= |tokens| && IsPartial(tokens, n, starts, m)
      modifies this`shingles
      ensures shingles <= Max(old(shingles), Cap(policy.limits.distinctShingles))
      ensures r.Ok? ==> IsPartial(tokens, n, r.value, m + 1) && shingles == old(shingles) + |r.value| - |starts|
      ensures r.Err? ==> shingles == old(shingles) && |starts| < |Windows(tokens, n)|
                         && Over(shingles + 1, policy.limits.distinctShingles)
    {
      var p, found := Locate(tokens, n, starts, m);
      if found {
        AlreadyNamed(tokens, n, starts, m);
        return Ok(starts);
      }
      var one := Charge(shingles, 1, policy.limits.distinctShingles);
      NewlyNamed(tokens, n, starts, m, p);
      PartialCount(tokens, n, starts[..p] + [m] + starts[p..], m + 1);
      if one.Err? { return Err("distinct_shingles_limit"); }
      shingles := one.value;
      return Ok(starts[..p] + [m] + starts[p..]);
    }

    /** Index the distinct windows of one length of one segment. */
    method IndexLength(s: nat, n: nat, policy: Policy) returns (r: Result<()>)
      requires Valid() && s < |segments| && 0 < n <= |segments[s].tokens|
      modifies this`sets, this`shingles, this`shingleTokenWork
      ensures Valid() && sets.Keys >= old(sets).Keys
      ensures shingles <= Max(old(shingles), Cap(policy.limits.distinctShingles))
      ensures shingleTokenWork <= Max(old(shingleTokenWork), Cap(policy.limits.shingleTokenWork))
      ensures r.Ok? ==> sets.Keys == old(sets).Keys + {(s, n)}
      ensures r.Ok? ==> shingles == old(shingles) + |Windows(segments[s].tokens, n)|
      ensures r.Ok? ==> shingleTokenWork == old(shingleTokenWork) + WorkAt(segments[s].tokens, n)
      ensures r.Err? ==> Refused(policy, old(shingles) + |Windows(segments[s].tokens, n)|,
                                 old(shingleTokenWork) + WorkAt(segments[s].tokens, n))
    {
      var tokens := segments[s].tokens;
      var windows := |tokens| - n + 1;
      var work := WorkAt(tokens, n);
      var charged := Charge(shingleTokenWork, work, policy.limits.shingleTokenWork);
      if work > U64_MAX { return Err("resource_counter_overflow"); }
      if charged.Err? { return Err("shingle_token_work_limit"); }
      shingleTokenWork := charged.value;
      var starts: seq<nat> := [];
      for m := 0 to windows
        modifies this`shingles
        invariant IsPartial(tokens, n, starts, m)
        invariant shingles == old(shingles) + |starts|
        invariant shingles <= Max(old(shingles), Cap(policy.limits.distinctShingles))
      {
        var placed := Place(tokens, n, starts, m, policy);
        if placed.Err? { return Err(placed.reason); }
        starts := placed.value;
      }
      assert WindowsBelow(tokens, n, windows) == Windows(tokens, n);
      NamedCount(tokens, n, starts);
      sets := sets[(s, n) := starts];
      return Ok(());
    }

    /** Index the given lengths of one segment. */
    method IndexLengths(s: nat, ns: seq<nat>, policy: Policy) returns (r: Result<()>)
      requires Valid() && s < |segments| && forall i | 0 <= i < |ns| :: 0 < ns[i] <= |segments[s].tokens|
      modifies this`sets, this`shingles, this`shingleTokenWork
      ensures Valid() && sets.Keys >= old(sets).Keys
      ensures shingles <= Max(old(shingles), Cap(policy.limits.distinctShingles))
      ensures shingleTokenWork <= Max(old(shingleTokenWork), Cap(policy.limits.shingleTokenWork))
      ensures r.Ok? ==> Has(sets.Keys, s, ns, |ns|)
      ensures r.Ok? ==> shingles == old(shingles) + DistinctOver(segments[s].tokens, ns)
      ensures r.Ok? ==> shingleTokenWork == old(shingleTokenWork) + WorkOver(segments[s].tokens, ns)
      ensures r.Err? ==> Refused(policy, old(shingles) + DistinctOver(segments[s].tokens, ns),
                                 old(shingleTokenWork) + WorkOver(segments[s].tokens, ns))
    {
      for i := 0 to |ns|
        invariant Valid() && sets.Keys >= old(sets).Keys
        invariant shingles <= Max(old(shingles), Cap(policy.limits.distinctShingles))
        invariant shingleTokenWork <= Max(old(shingleTokenWork), Cap(policy.limits.shingleTokenWork))
        invariant Has(sets.Keys, s, ns, i)
        invariant shingles == old(shingles) + DistinctOver(segments[s].tokens, ns[..i])
        invariant shingleTokenWork == old(shingleTokenWork) + WorkOver(segments[s].tokens, ns[..i])
      {
        SumsGrow(segments[s].tokens, ns, i);
        PrefixSums(segments[s].tokens, ns, i + 1);
        ghost var before := sets.Keys;
        r := IndexLength(s, ns[i], policy);
        if r.Err? { return; }
        HasOneMore(before, sets.Keys, s, ns, i);
      }
      assert ns[..|ns|] == ns;
      return Ok(());
    }

    /** Index every length of one segment. */
    method IndexSegment(s: nat, policy: Policy) returns (r: Result<()>)
      requires Valid() && s < |segments| && policy.Valid()
      modifies this`sets, this`shingles, this`shingleTokenWork
      ensures Valid() && sets.Keys >= old(sets).Keys
      ensures shingles <= Max(old(shingles), Cap(policy.limits.distinctShingles))
      ensures shingleTokenWork <= Max(old(shingleTokenWork), Cap(policy.limits.shingleTokenWork))
      ensures r.Ok? ==> Covers(policy, segments[s].tokens, s, sets.Keys)
      ensures r.Ok? ==> shingles == old(shingles) + DistinctIn(policy, segments[s].tokens)
      ensures r.Ok? ==> shingleTokenWork == old(shingleTokenWork) + WorkIn(policy, segments[s].tokens)
      ensures r.Err? ==> Refused(policy, old(shingles) + DistinctIn(policy, segments[s].tokens),
                                 old(shingleTokenWork) + WorkIn(policy, segments[s].tokens))
    {
      var ns := Lengths(policy, |segments[s].tokens|);
      LengthsHold(policy, |segments[s].tokens|);
      assert forall i | 0 <= i < |ns| :: ns[i] in ns;
      r := IndexLengths(s, ns, policy);
    }

    /** Index one more segment of a build that started with the counters at `distinct` and `work`. */
    method IndexNext(s: nat, policy: Policy, ghost distinct: nat, ghost work: nat) returns (r: Result<()>)
      requires Valid() && policy.Valid() && s < |segments| && CoversTo(policy, segments, s, sets.Keys)
      requires shingles == distinct + TotalDistinct(policy, segments[..s])
      requires shingleTokenWork == work + TotalWork(policy, segments[..s])
      modifies this`sets, this`shingles, this`shingleTokenWork
      ensures Valid()
      ensures shingles <= Max(old(shingles), Cap(policy.limits.distinctShingles))
      ensures shingleTokenWork <= Max(old(shingleTokenWork), Cap(policy.limits.shingleTokenWork))
      ensures r.Ok? ==> CoversTo(policy, segments, s + 1, sets.Keys)
      ensures r.Ok? ==> shingles == distinct + TotalDistinct(policy, segments[..s + 1])
      ensures r.Ok? ==> shingleTokenWork == work + TotalWork(policy, segments[..s + 1])
      ensures r.Err? ==> Refused(policy, distinct + TotalDistinct(policy, segments), work + TotalWork(policy, segments))
    {
      ghost var before := sets.Keys;
      r := IndexSegment(s, policy);
      if r.Err? {
        RefusedInAll(policy, segments, s, distinct, work);
      } else {
        TotalsGrow(policy, segments, s);
        CoversOneMore(policy, segments, s, before, sets.Keys);
      }
    }

    /**
     * Index every segment. On success every length of every segment is indexed exactly, and each
     * counter has grown by its exact sum; refused or not, no counter passes its limit, and sums
     * within the limits are never refused.
     */
    method Build(policy: Policy) returns (r: Result<()>)
      requires Valid() && policy.Valid()
      modifies this`sets, this`shingles, this`shingleTokenWork
      ensures Valid()
      ensures shingles <= Max(old(shingles), Cap(policy.limits.distinctShingles))
      ensures shingleTokenWork <= Max(old(shingleTokenWork), Cap(policy.limits.shingleTokenWork))
      ensures r.Ok? ==> Built(policy)
      ensures r.Ok? ==> shingles == old(shingles) + TotalDistinct(policy, segments)
      ensures r.Ok? ==> shingleTokenWork == old(shingleTokenWork) + TotalWork(policy, segments)
      ensures r.Err? ==> Refused(policy, old(shingles) + TotalDistinct(policy, segments),
                                 old(shingleTokenWork) + TotalWork(policy, segments))
    {
      for s := 0 to |segments|
        invariant Valid()
        invariant shingles <= Max(old(shingles), Cap(policy.limits.distinctShingles))
        invariant shingleTokenWork <= Max(old(shingleTokenWork), Cap(policy.limits.shingleTokenWork))
        invariant CoversTo(policy, segments, s, sets.Keys)
        invariant shingles == old(shingles) + TotalDistinct(policy, segments[..s])
        invariant shingleTokenWork == old(shingleTokenWork) + TotalWork(policy, segments[..s])
      {
        r := IndexNext(s, policy, old(shingles), old(shingleTokenWork));
        if r.Err? { return; }
      }
      assert segments[..|segments|] == segments;
      return Ok(());
    }

    ghost predicate Built(policy: Policy)
      requires policy.Valid()
      reads this`segments, this`sets
    {
      CoversTo(policy, segments, |segments|, sets.Keys)
    }

    /** Shared and united distinct windows of two segments; `(0, 0)` when a length is not indexed. */
    method Overlap(left: nat, right: nat, n: nat) returns (intersection: nat, union: nat)
      requires Valid() && left < |segments| && right < |segments|
      ensures if (left, n) in sets && (right, n) in sets
              then intersection == CommonCount(segments[left].tokens, segments[right].tokens, n)
                   && union == EitherCount(segments[left].tokens, segments[right].tokens, n)
              else intersection == union == 0
    {
      if (left, n) !in sets || (right, n) !in sets { return 0, 0; }
      var xs, ys := sets[(left, n)], sets[(right, n)];
      var a, b := segments[left].tokens, segments[right].tokens;
      intersection := Merge(a, xs, b, ys, n);
      NamedCount(a, n, xs);
      NamedCount(b, n, ys);
      union := |xs| + |ys| - intersection;
    }

    /** Compare a pair of segments by the stored indexes: exactly the brute-force evidence. */
    method Matches(left: nat, right: nat, policy: Policy) returns (r: Result<seq<Evidence>>)
      requires Valid() && left < |segments| && right < |segments| && policy.Valid() && Built(policy)
      modifies this`comparisons
      ensures r.Ok? <==> old(comparisons) + 1 <= Cap(policy.limits.comparisons)
      ensures comparisons == old(comparisons) + if r.Ok? then 1 else 0
      ensures r.Ok? ==> r.value == BruteForce(policy, segments[left], segments[right])
    {
      var charged := Comparison(policy);
      if charged.Err? { return Err(charged.reason); }
      var l, rr := segments[left], segments[right];
      var gate, _ := Overlap(left, right, policy.overlap);
      assert Covers(policy, l.tokens, left, sets.Keys) && Covers(policy, rr.tokens, right, sets.Keys);
      assert policy.overlap <= |l.tokens| ==> IsIndexed(policy, |l.tokens|, policy.overlap);
      assert policy.overlap <= |rr.tokens| ==> IsIndexed(policy, |rr.tokens|, policy.overlap);
      NoWindows(l.tokens, rr.tokens, policy.overlap);
      if gate == 0 { return Ok([]); }
      var evidence := Collect(left, right, policy);
      return Ok(evidence);
    }

    /** The evidence of every length in range. */
    method Collect(left: nat, right: nat, policy: Policy) returns (evidence: seq<Evidence>)
      requires Valid() && left < |segments| && right < |segments| && policy.Valid() && Built(policy)
      ensures var l, r := segments[left], segments[right];
              evidence == EvidenceOver(policy, l, r, Reached(policy, l.tokens, r.tokens))
    {
      var l, r := segments[left], segments[right];
      var ns := Reached(policy, l.tokens, r.tokens);
      evidence := [];
      for i := 0 to |ns|
        invariant evidence == EvidenceOver(policy, l, r, ns[..i])
      {
        EvidenceOneMore(policy, l, r, ns, i);
        ReachedAt(policy, l.tokens, r.tokens, i);
        var found := Compare(left, right, ns[i], policy);
        evidence := evidence + found;
      }
      assert ns[..|ns|] == ns;
    }

    /** The evidence of one length that both segments reach. */
    method Compare(left: nat, right: nat, n: nat, policy: Policy) returns (found: seq<Evidence>)
      requires Valid() && left < |segments| && right < |segments| && policy.Valid() && Built(policy)
      requires IsReached(policy, segments[left].tokens, segments[right].tokens, n)
      ensures found == EvidenceAt(policy, segments[left], segments[right], n)
    {
      var l, r := segments[left], segments[right];
      assert Covers(policy, l.tokens, left, sets.Keys) && Covers(policy, r.tokens, right, sets.Keys);
      assert IsIndexed(policy, |l.tokens|, n) && IsIndexed(policy, |r.tokens|, n);
      var intersection, union := Overlap(left, right, n);
      UnionPositive(l.tokens, r.tokens, n);
      if intersection > 0 && intersection as real / union as real >= policy.threshold {
        return [Evidence(l.id, r.id, n, intersection, union)];
      }
      return [];
    }
  }

  /** Every length of segment `s` has its index. */
  ghost predicate Covers(policy: Policy, t: Tokens, s: nat, keys: set<(nat, nat)>)
    requires policy.Valid()
  {
    forall n: nat | IsIndexed(policy, |t|, n) :: (s, n) in keys
  }

  /** The first `m` of the lengths have their index. */
  ghost predicate Has(keys: set<(nat, nat)>, s: nat, ns: seq<nat>, m: nat) {
    m <= |ns| && forall i | 0 <= i < m :: (s, ns[i]) in keys
  }

  lemma HasOneMore(keys: set<(nat, nat)>, more: set<(nat, nat)>, s: nat, ns: seq<nat>, m: nat)
    requires keys <= more && m < |ns| && Has(keys, s, ns, m) && (s, ns[m]) in more
    ensures Has(more, s, ns, m + 1)
  {
  }

  /** The first `m` segments have all their indexes. */
  ghost predicate CoversTo(policy: Policy, segments: seq<Segment>, m: nat, keys: set<(nat, nat)>)
    requires policy.Valid()
  {
    m <= |segments| && forall i | 0 <= i < m :: Covers(policy, segments[i].tokens, i, keys)
  }

  lemma CoversOneMore(policy: Policy, segments: seq<Segment>, m: nat, keys: set<(nat, nat)>, more: set<(nat, nat)>)
    requires policy.Valid() && keys <= more && m < |segments|
    requires CoversTo(policy, segments, m, keys) && Covers(policy, segments[m].tokens, m, more)
    ensures CoversTo(policy, segments, m + 1, more)
  {
    forall i | 0 <= i < m ensures Covers(policy, segments[i].tokens, i, more) {
      assert Covers(policy, segments[i].tokens, i, keys);
    }
  }

  lemma TotalsGrow(policy: Policy, segments: seq<Segment>, m: nat)
    requires policy.Valid() && m < |segments|
    ensures TotalDistinct(policy, segments[..m + 1])
         == TotalDistinct(policy, segments[..m]) + DistinctIn(policy, segments[m].tokens)
    ensures TotalWork(policy, segments[..m + 1])
         == TotalWork(policy, segments[..m]) + WorkIn(policy, segments[m].tokens)
  {
    assert segments[..m + 1][..m] == segments[..m];
  }

  lemma SumsGrow(t: Tokens, ns: seq<nat>, m: nat)
    requires m < |ns|
    ensures DistinctOver(t, ns[..m + 1]) == DistinctOver(t, ns[..m]) + |Windows(t, ns[m])|
    ensures WorkOver(t, ns[..m + 1]) == WorkOver(t, ns[..m]) + WorkAt(t, ns[m])
  {
    assert ns[..m + 1][..m] == ns[..m];
  }

  lemma {:induction false} PrefixSums(t: Tokens, ns: seq<nat>, m: nat)
    requires m <= |ns|
    ensures DistinctOver(t, ns[..m]) <= DistinctOver(t, ns) && WorkOver(t, ns[..m]) <= WorkOver(t, ns)
  {
    if m < |ns| {
      PrefixSums(t, ns[..|ns| - 1], m);
      assert ns[..|ns| - 1][..m] == ns[..m];
    } else {
      assert ns[..m] == ns;
    }
  }

  lemma {:induction false} PrefixTotals(policy: Policy, segments: seq<Segment>, m: nat)
    requires policy.Valid() && m <= |segments|
    ensures TotalDistinct(policy, segments[..m]) <= TotalDistinct(policy, segments)
    ensures TotalWork(policy, segments[..m]) <= TotalWork(policy, segments)
  {
    if m < |segments| {
      PrefixTotals(policy, segments[..|segments| - 1], m);
      assert segments[..|segments| - 1][..m] == segments[..m];
    } else {
      assert segments[..m] == segments;
    }
  }

  /** A refusal at one segment is a refusal of the whole. */
  lemma RefusedInAll(policy: Policy, segments: seq<Segment>, s: nat, distinct: nat, work: nat)
    requires policy.Valid() && s < |segments|
    requires Refused(policy, distinct + TotalDistinct(policy, segments[..s]) + DistinctIn(policy, segments[s].tokens),
                     work + TotalWork(policy, segments[..s]) + WorkIn(policy, segments[s].tokens))
    ensures Refused(policy, distinct + TotalDistinct(policy, segments), work + TotalWork(policy, segments))
  {
    TotalsGrow(policy, segments, s);
    PrefixTotals(policy, segments, s + 1);
  }

  lemma NoWindows(a: Tokens, b: Tokens, n: nat)
    ensures n > |a| || n > |b| ==> CommonCount(a, b, n) == 0
  {
    if n > |a| || n > |b| { assert Windows(a, n) * Windows(b, n) == {}; }
  }

  lemma UnionPositive(a: Tokens, b: Tokens, n: nat)
    ensures CommonCount(a, b, n) > 0 ==> EitherCount(a, b, n) > 0
  {
    assert Windows(a, n) * Windows(b, n) <= Windows(a, n) + Windows(b, n);
  }

  /** Token identities number the words 0, 1, ... without gaps or repeats. */
  ghost predicate Bijective(words: map<string, nat>) {
    (forall w | w in words :: words[w] < |words|)
    && (forall v, w | v in words && w in words && words[v] == words[w] :: v == w)
    && (forall n: nat | n < |words| :: n in words.Values)
  }

  lemma InternKeeps(words: map<string, nat>, word: string)
    requires Bijective(words) && word !in words
    ensures Bijective(words[word := |words|])
  {
    var more := words[word := |words|];
    assert forall w | w in words :: w in more && more[w] == words[w];
    forall n: nat | n < |more| ensures n in more.Values {
      if n < |words| {
        assert n in words.Values;
        var w :| w in words && words[w] == n;
        assert w in more;
      } else {
        assert word in more;
      }
    }
  }

  /** The words that have an identity once those of `source` were interned. */
  ghost function Known(words: map<string, nat>, source: seq<string>): set<string> {
    if source == [] then words.Keys else Known(words, source[..|source| - 1]) + {source[|source| - 1]}
  }

  /** The words of one text fit its token limit and the identities that are left when the last one is read. */
  ghost predicate Internable(words: map<string, nat>, source: seq<string>, limits: Limits) {
    |source| <= limits.segmentTokens && (source == [] || |Known(words, source[..|source| - 1])| <= U32_MAX)
  }

  lemma KnownOneMore(words: map<string, nat>, source: seq<string>, i: nat)
    requires i < |source|
    ensures Known(words, source[..i + 1]) == Known(words, source[..i]) + {source[i]}
  {
    assert source[..i + 1][..i] == source[..i];
  }

  lemma {:induction false} KnownGrows(words: map<string, nat>, source: seq<string>, i: nat)
    requires i <= |source|
    ensures words.Keys <= Known(words, source[..i]) <= Known(words, source)
    ensures |Known(words, source[..i])| <= |Known(words, source)|
    decreases |source|
  {
    if i < |source| {
      var shorter := source[..|source| - 1];
      KnownGrows(words, shorter, i);
      assert shorter[..i] == source[..i];
      SubsetSize(Known(words, source[..i]), Known(words, source));
    } else {
      assert source[..i] == source;
      if i > 0 { KnownGrows(words, source[..i - 1], i - 1); }
    }
  }

  lemma SubsetSize<T>(a: set<T>, b: set<T>)
    requires a <= b
    ensures |a| <= |b|
  {
    assert b == a + (b - a);
  }

  /** A refusal at one word is a refusal of the whole text. */
  lemma NotInternable(words: map<string, nat>, source: seq<string>, limits: Limits, i: nat)
    requires i < |source| && (i >= limits.segmentTokens || |Known(words, source[..i])| > U32_MAX)
    ensures !Internable(words, source, limits)
  {
    var shorter := source[..|source| - 1];
    KnownGrows(words, shorter, i);
    assert shorter[..i] == source[..i];
  }

  lemma SpellsOneMore(words: map<string, nat>, more: map<string, nat>, tokens: Tokens, source: seq<string>,
                      i: nat, token: nat)
    requires i < |source| && Spells(words, tokens, source[..i])
    requires words.Keys <= more.Keys && forall w | w in words :: more[w] == words[w]
    requires source[i] in more && more[source[i]] == token
    ensures Spells(more, tokens + [token], source[..i + 1])
  {
    assert forall x | 0 <= x < i :: source[..i][x] in words;
  }

  /** `tokens` are the identities of `source` under `words`. */
  ghost predicate Spells(words: map<string, nat>, tokens: Tokens, source: seq<string>) {
    |tokens| == |source| && forall x | 0 <= x < |source| :: source[x] in words && words[source[x]] == tokens[x]
  }

  // ---- What the brute-force evidence says ----

  /** There is evidence of length `n` exactly when the pair passes the gate and qualifies at `n`. */
  lemma EvidenceIsExact(policy: Policy, l: Segment, r: Segment, n: nat)
    requires policy.Valid()
    ensures (exists e :: e in BruteForce(policy, l, r) && e.n == n)
            <==> CommonCount(l.tokens, r.tokens, policy.overlap) > 0 && Similar(policy, l.tokens, r.tokens, n)
                 && policy.low <= n <= policy.high && n <= |l.tokens| && n <= |r.tokens|
  {
    var ns := Reached(policy, l.tokens, r.tokens);
    EvidenceOverIsExact(policy, l, r, ns, n);
    ReachedHolds(policy, l.tokens, r.tokens);
    assert n in ns <==> IsReached(policy, l.tokens, r.tokens, n);
  }

  lemma {:induction false} EvidenceOverIsExact(policy: Policy, l: Segment, r: Segment, ns: seq<nat>, n: nat)
    ensures (exists e :: e in EvidenceOver(policy, l, r, ns) && e.n == n)
            <==> n in ns && Similar(policy, l.tokens, r.tokens, n)
    ensures forall e | e in EvidenceOver(policy, l, r, ns) && e.n == n ::
              e == Evidence(l.id, r.id, n, CommonCount(l.tokens, r.tokens, n), EitherCount(l.tokens, r.tokens, n))
  {
    if ns != [] {
      var rest, m := ns[..|ns| - 1], ns[|ns| - 1];
      EvidenceOverIsExact(policy, l, r, rest, n);
      assert ns == rest + [m];
      var e := Evidence(l.id, r.id, m, CommonCount(l.tokens, r.tokens, m), EitherCount(l.tokens, r.tokens, m));
      assert EvidenceOver(policy, l, r, ns)
          == EvidenceOver(policy, l, r, rest) + if Similar(policy, l.tokens, r.tokens, m) then [e] else [];
      if n == m && Similar(policy, l.tokens, r.tokens, m) {
        assert e in EvidenceOver(policy, l, r, ns);
      }
      if x :| x in EvidenceOver(policy, l, r, rest) && x.n == n {
        assert x in EvidenceOver(policy, l, r, ns);
      }
    }
  }

  function Mirror(e: Evidence): Evidence {
    e.(left := e.right, right := e.left)
  }

  /** Swapping the pair swaps the ids and leaves every length and count as it was. */
  lemma EvidenceIsSymmetric(policy: Policy, l: Segment, r: Segment)
    ensures var forth, back := BruteForce(policy, l, r), BruteForce(policy, r, l);
            |forth| == |back| && forall i | 0 <= i < |forth| :: back[i] == Mirror(forth[i])
  {
    CountsCommute(l.tokens, r.tokens, policy.overlap);
    EvidenceOverIsSymmetric(policy, l, r, Reached(policy, l.tokens, r.tokens));
    assert Reached(policy, l.tokens, r.tokens) == Reached(policy, r.tokens, l.tokens);
  }

  lemma CountsCommute(a: Tokens, b: Tokens, n: nat)
    ensures CommonCount(a, b, n) == CommonCount(b, a, n) && EitherCount(a, b, n) == EitherCount(b, a, n)
  {
    assert Windows(a, n) * Windows(b, n) == Windows(b, n) * Windows(a, n);
    assert Windows(a, n) + Windows(b, n) == Windows(b, n) + Windows(a, n);
  }

  lemma {:induction false} EvidenceOverIsSymmetric(policy: Policy, l: Segment, r: Segment, ns: seq<nat>)
    ensures var forth, back := EvidenceOver(policy, l, r, ns), EvidenceOver(policy, r, l, ns);
            |forth| == |back| && forall i | 0 <= i < |forth| :: back[i] == Mirror(forth[i])
  {
    if ns != [] {
      EvidenceOverIsSymmetric(policy, l, r, ns[..|ns| - 1]);
      CountsCommute(l.tokens, r.tokens, ns[|ns| - 1]);
    }
  }

  /** A shared window shares its prefix, so a shorter required run adds nothing to the lengths. */
  lemma SharedRunsShorten(a: Tokens, b: Tokens, n: nat, m: nat)
    requires m <= n && CommonCount(a, b, n) > 0
    ensures CommonCount(a, b, m) > 0
  {
    assert Windows(a, n) * Windows(b, n) != {};
    var w :| w in Windows(a, n) && w in Windows(b, n);
    var i: nat :| i <= |a| - n && Window(a, i, n) == w;
    var j: nat :| j <= |b| - n && Window(b, j, n) == w;
    assert Window(a, i, m) == w[..m] == Window(b, j, m);
    assert w[..m] in Windows(a, m) * Windows(b, m);
  }

  /** The contiguous-run gate is redundant when the run is no longer than the shortest shingle. */
  lemma GateIsRedundant(policy: Policy, l: Segment, r: Segment)
    requires policy.Valid() && policy.overlap <= policy.low
    ensures BruteForce(policy, l, r) == EvidenceOver(policy, l, r, Reached(policy, l.tokens, r.tokens))
  {
    var ns := Reached(policy, l.tokens, r.tokens);
    if EvidenceOver(policy, l, r, ns) != [] {
      var n := EvidenceOver(policy, l, r, ns)[0].n;
      EvidenceOverIsExact(policy, l, r, ns, n);
      ReachedHolds(policy, l.tokens, r.tokens);
      SharedRunsShorten(l.tokens, r.tokens, n, policy.overlap);
    }
  }
}
