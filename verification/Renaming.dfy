/**
 * What matches depends on the texts only. Every screening interns its texts anew, so one word has
 * another number in every index; counts of shared windows, evidence and matches are the same.
 */
module Renaming {
  import opened Common
  import opened Lexical
  import opened Screening
  import opened Shingles

  // ---- Renamed tokens ----

  ghost predicate Injective(f: map<nat, nat>) {
    forall x, y | x in f && y in f && f[x] == f[y] :: x == y
  }

  /** `f` turns `t` into `t'`, token by token. */
  ghost predicate Renames(f: map<nat, nat>, t: Tokens, t': Tokens) {
    |t| == |t'| && forall i | 0 <= i < |t| :: t[i] in f && f[t[i]] == t'[i]
  }

  lemma RenamesOne(f: map<nat, nat>, t: Tokens, t': Tokens, u: Tokens, u': Tokens)
    requires Injective(f) && Renames(f, t, t') && Renames(f, u, u')
    ensures t == u <==> t' == u'
  {
    if t' == u' {
      forall i | 0 <= i < |t| ensures t[i] == u[i] { assert f[t[i]] == t'[i] == f[u[i]]; }
    }
  }

  /** Every member of one set is renamed to one of the other, and conversely. */
  ghost predicate Paired(f: map<nat, nat>, s: set<Tokens>, s': set<Tokens>) {
    (forall w {:trigger HasImage(f, w, s')} | w in s :: HasImage(f, w, s'))
    && forall w' {:trigger HasOrigin(f, w', s)} | w' in s' :: HasOrigin(f, w', s)
  }

  ghost predicate HasImage(f: map<nat, nat>, w: Tokens, s': set<Tokens>) {
    exists w' :: w' in s' && Renames(f, w, w')
  }

  ghost predicate HasOrigin(f: map<nat, nat>, w': Tokens, s: set<Tokens>) {
    exists w :: w in s && Renames(f, w, w')
  }

  lemma ImageStays(f: map<nat, nat>, w: Tokens, w': Tokens, v: Tokens, s': set<Tokens>)
    requires Injective(f) && Renames(f, w, w') && v != w && HasImage(f, v, s')
    ensures HasImage(f, v, s' - {w'})
  {
    var v' :| v' in s' && Renames(f, v, v');
    RenamesOne(f, v, v', w, w');
  }

  lemma OriginStays(f: map<nat, nat>, w: Tokens, w': Tokens, v': Tokens, s: set<Tokens>)
    requires Injective(f) && Renames(f, w, w') && v' != w' && HasOrigin(f, v', s)
    ensures HasOrigin(f, v', s - {w})
  {
    var v :| v in s && Renames(f, v, v');
    RenamesOne(f, v, v', w, w');
  }

  lemma PairedRest(f: map<nat, nat>, s: set<Tokens>, s': set<Tokens>, w: Tokens, w': Tokens)
    requires Injective(f) && Paired(f, s, s') && Renames(f, w, w')
    ensures Paired(f, s - {w}, s' - {w'})
  {
    forall v | v in s - {w} ensures HasImage(f, v, s' - {w'}) {
      assert HasImage(f, v, s');
      ImageStays(f, w, w', v, s');
    }
    forall v' | v' in s' - {w'} ensures HasOrigin(f, v', s - {w}) {
      assert HasOrigin(f, v', s);
      OriginStays(f, w, w', v', s);
    }
  }

  lemma {:induction false} PairedSize(f: map<nat, nat>, s: set<Tokens>, s': set<Tokens>)
    requires Injective(f) && Paired(f, s, s')
    ensures |s| == |s'|
    decreases |s|
  {
    if s == {} {
      forall w' ensures w' !in s' { assert w' in s' ==> HasOrigin(f, w', s); }
    } else {
      var w :| w in s;
      assert HasImage(f, w, s');
      var w' :| w' in s' && Renames(f, w, w');
      PairedRest(f, s, s', w, w');
      PairedSize(f, s - {w}, s' - {w'});
    }
  }

  // ---- Counts and evidence ----

  lemma WindowsPaired(f: map<nat, nat>, t: Tokens, t': Tokens, n: nat)
    requires Renames(f, t, t')
    ensures Paired(f, Windows(t, n), Windows(t', n))
  {
    forall w | w in Windows(t, n) ensures HasImage(f, w, Windows(t', n)) {
      var s :| 0 <= s <= |t| - n && Window(t, s, n) == w;
      assert Window(t', s, n) in Windows(t', n) && Renames(f, w, Window(t', s, n));
    }
    forall w' | w' in Windows(t', n) ensures HasOrigin(f, w', Windows(t, n)) {
      var s :| 0 <= s <= |t'| - n && Window(t', s, n) == w';
      assert Window(t, s, n) in Windows(t, n) && Renames(f, Window(t, s, n), w');
    }
  }

  lemma MeetPaired(f: map<nat, nat>, s: set<Tokens>, s': set<Tokens>, r: set<Tokens>, r': set<Tokens>)
    requires Injective(f) && Paired(f, s, s') && Paired(f, r, r')
    ensures Paired(f, s * r, s' * r') && Paired(f, s + r, s' + r')
  {
    forall w | w in s * r ensures HasImage(f, w, s' * r') {
      assert HasImage(f, w, s') && HasImage(f, w, r');
      var w' :| w' in s' && Renames(f, w, w');
      var v' :| v' in r' && Renames(f, w, v');
      RenamesOne(f, w, w', w, v');
    }
    forall w' | w' in s' * r' ensures HasOrigin(f, w', s * r) {
      assert HasOrigin(f, w', s) && HasOrigin(f, w', r);
      var w :| w in s && Renames(f, w, w');
      var v :| v in r && Renames(f, v, w');
      RenamesOne(f, w, w', v, w');
    }
    forall w | w in s + r ensures HasImage(f, w, s' + r') {
      var w' :| w' in s' + r' && Renames(f, w, w') by { assert HasImage(f, w, s') || HasImage(f, w, r'); }
    }
    forall w' | w' in s' + r' ensures HasOrigin(f, w', s + r) {
      var w :| w in s + r && Renames(f, w, w') by { assert HasOrigin(f, w', s) || HasOrigin(f, w', r); }
    }
  }

  lemma CountsRenamed(f: map<nat, nat>, a: Tokens, a': Tokens, b: Tokens, b': Tokens, n: nat)
    requires Injective(f) && Renames(f, a, a') && Renames(f, b, b')
    ensures CommonCount(a, b, n) == CommonCount(a', b', n) && EitherCount(a, b, n) == EitherCount(a', b', n)
  {
    WindowsPaired(f, a, a', n);
    WindowsPaired(f, b, b', n);
    MeetPaired(f, Windows(a, n), Windows(a', n), Windows(b, n), Windows(b', n));
    PairedSize(f, Windows(a, n) * Windows(b, n), Windows(a', n) * Windows(b', n));
    PairedSize(f, Windows(a, n) + Windows(b, n), Windows(a', n) + Windows(b', n));
  }

  /** Lexical evidence does not depend on how the words are numbered. */
  lemma EvidentRenamed(policy: Policy, f: map<nat, nat>, a: Tokens, a': Tokens, b: Tokens, b': Tokens)
    requires Injective(f) && Renames(f, a, a') && Renames(f, b, b')
    ensures Evident(policy, a, b) <==> Evident(policy, a', b')
  {
    CountsRenamed(f, a, a', b, b', policy.overlap);
    forall n: nat ensures Similar(policy, a, b, n) <==> Similar(policy, a', b', n) {
      CountsRenamed(f, a, a', b, b', n);
    }
  }

  // ---- Two indexes over the same texts ----

  /** An index as it stands: its numbering, its segments and the words they were made of. */
  datatype Interned = Interned(words: map<string, nat>, segments: seq<Segment>, sources: seq<seq<string>>) {
    ghost predicate Valid() {
      Bijective(words) && |sources| == |segments|
      && forall s | 0 <= s < |segments| :: Spells(words, segments[s].tokens, sources[s])
    }
  }

  ghost function Between(words: map<string, nat>, words': map<string, nat>): (f: map<nat, nat>)
    requires Bijective(words) && Bijective(words')
    ensures Injective(f) && forall w | w in words && w in words' :: words[w] in f && f[words[w]] == words'[w]
  {
    map w | w in words && w in words' :: words[w] := words'[w]
  }

  /** The same text in both indexes. */
  ghost predicate SameSource(i: Interned, s: nat, i': Interned, s': nat) {
    s < |i.sources| && s' < |i'.sources| && i.sources[s] == i'.sources[s']
  }

  lemma SourceRenamed(i: Interned, s: nat, i': Interned, s': nat)
    requires i.Valid() && i'.Valid() && SameSource(i, s, i', s')
    ensures Renames(Between(i.words, i'.words), i.segments[s].tokens, i'.segments[s'].tokens)
  {
    assert Spells(i.words, i.segments[s].tokens, i.sources[s]);
    assert Spells(i'.words, i'.segments[s'].tokens, i'.sources[s']);
  }

  /** The same projected prompt in both indexes. */
  ghost predicate SamePrompt(i: Interned, p: Prompt, i': Interned, p': Prompt) {
    p.hasUserText == p'.hasUserText && p.shape == p'.shape && |p.segments| == |p'.segments|
    && forall k | 0 <= k < |p.segments| :: SameSource(i, p.segments[k], i', p'.segments[k])
  }

  /** The same units of one record in both indexes. */
  ghost predicate SameUnits(i: Interned, us: seq<Unit>, i': Interned, us': seq<Unit>) {
    |us| == |us'|
    && forall k | 0 <= k < |us| :: SamePrompt(i, us[k].prompt, i', us'[k].prompt) && us[k].rendered == us'[k].rendered
  }

  /** The same pairs of texts are alike in every index. */
  lemma AlikeAgain(policy: Policy, i: Interned, a: nat, b: nat, i': Interned, a': nat, b': nat)
    requires i.Valid() && i'.Valid() && SameSource(i, a, i', a') && SameSource(i, b, i', b')
    ensures SegmentsMatch(EvidentPairs(policy, i.segments), i.segments, a, b)
            <==> SegmentsMatch(EvidentPairs(policy, i'.segments), i'.segments, a', b')
  {
    var f := Between(i.words, i'.words);
    var s, s', t, t' := i.segments[a].tokens, i'.segments[a'].tokens, i.segments[b].tokens, i'.segments[b'].tokens;
    SourceRenamed(i, a, i', a');
    SourceRenamed(i, b, i', b');
    RenamesOne(f, s, s', t, t');
    EvidentRenamed(policy, f, s, s', t, t');
    assert (a, b) in EvidentPairs(policy, i.segments) <==> HasEvidence(policy, i.segments, a, b);
    assert (a', b') in EvidentPairs(policy, i'.segments) <==> HasEvidence(policy, i'.segments, a', b');
  }

  lemma PromptsMatchAgain(policy: Policy, i: Interned, p: Prompt, q: Prompt, i': Interned, p': Prompt, q': Prompt)
    requires i.Valid() && i'.Valid() && SamePrompt(i, p, i', p') && SamePrompt(i, q, i', q')
    requires InIndex(p, i.segments) && InIndex(q, i.segments) && InIndex(p', i'.segments) && InIndex(q', i'.segments)
    ensures PromptsMatch(EvidentPairs(policy, i.segments), i.segments, p, q)
            <==> PromptsMatch(EvidentPairs(policy, i'.segments), i'.segments, p', q')
  {
    var alike, alike' := EvidentPairs(policy, i.segments), EvidentPairs(policy, i'.segments);
    if SameShape(p, q) {
      forall k | 0 <= k < |p.segments|
        ensures SegmentsMatch(alike, i.segments, p.segments[k], q.segments[k])
                <==> SegmentsMatch(alike', i'.segments, p'.segments[k], q'.segments[k])
      {
        AlikeAgain(policy, i, p.segments[k], q.segments[k], i', p'.segments[k], q'.segments[k]);
      }
    }
  }

  /** Two records match in one index exactly when they match in any other index over the same texts. */
  lemma RecordsMatchAgain(policy: Policy, i: Interned, us: seq<Unit>, vs: seq<Unit>, i': Interned, us': seq<Unit>,
                          vs': seq<Unit>)
    requires i.Valid() && i'.Valid() && SameUnits(i, us, i', us') && SameUnits(i, vs, i', vs')
    requires AllInIndex(us, i.segments) && AllInIndex(vs, i.segments)
    requires AllInIndex(us', i'.segments) && AllInIndex(vs', i'.segments)
    ensures RecordsMatch(EvidentPairs(policy, i.segments), i.segments, us, vs)
            <==> RecordsMatch(EvidentPairs(policy, i'.segments), i'.segments, us', vs')
  {
    var alike, alike' := EvidentPairs(policy, i.segments), EvidentPairs(policy, i'.segments);
    forall x, y | 0 <= x < |us| && 0 <= y < |vs|
      ensures UnitsMatch(alike, i.segments, us[x], vs[y]) <==> UnitsMatch(alike', i'.segments, us'[x], vs'[y])
    {
      PromptsMatchAgain(policy, i, us[x].prompt, vs[y].prompt, i', us'[x].prompt, vs'[y].prompt);
    }
  }
}
