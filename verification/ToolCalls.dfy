/** Reassembly of one response's indexed, fragmented and interleaved tool calls. */
module ToolCalls {
  import opened Common
  import Lexical

  datatype Function = Function(name: Option<string>, arguments: Option<string>)

  /** One streamed fragment. Its 32-bit index only names a call; nothing is computed from it. */
  datatype Fragment = Fragment(index: nat, kind: Option<string>, id: Option<string>, function': Option<Function>)

  datatype Partial = Partial(id: Option<string>, name: string, arguments: string)

  datatype Call = Call(id: string, name: string, arguments: string)

  /** What the JSON parser says of an argument text. */
  datatype Json = Malformed | NotObject | Object

  type Parser = string -> Json

  predicate IsBlank(text: string) {
    forall i | 0 <= i < |text| :: Lexical.IsSeparator(text[i])
  }

  // ---- What the fragments of one index say ----

  predicate Supported(f: Fragment) {
    f.kind.Some? ==> f.kind.value == "function"
  }

  function NamePart(f: Fragment): string {
    if f.function'.Some? && f.function'.value.name.Some? then f.function'.value.name.value else ""
  }

  function ArgumentsPart(f: Fragment): string {
    if f.function'.Some? && f.function'.value.arguments.Some? then f.function'.value.arguments.value else ""
  }

  /** The fragments of one index, in arrival order. */
  ghost function Of(fs: seq<Fragment>, index: nat): seq<Fragment> {
    if fs == [] then []
    else
      var last := fs[|fs| - 1];
      Of(fs[..|fs| - 1], index) + if last.index == index then [last] else []
  }

  ghost function Name(gs: seq<Fragment>): string {
    if gs == [] then "" else Name(gs[..|gs| - 1]) + NamePart(gs[|gs| - 1])
  }

  ghost function Arguments(gs: seq<Fragment>): string {
    if gs == [] then "" else Arguments(gs[..|gs| - 1]) + ArgumentsPart(gs[|gs| - 1])
  }

  ghost function FirstId(gs: seq<Fragment>): Option<string> {
    if gs == [] then None
    else
      var before := FirstId(gs[..|gs| - 1]);
      if before.Some? then before else gs[|gs| - 1].id
  }

  /** Two fragments name different identities. */
  ghost predicate Conflicting(gs: seq<Fragment>) {
    exists f, g :: f in gs && g in gs && f.id.Some? && g.id.Some? && f.id != g.id
  }

  /** The fragments of one index, joined, are the call. */
  ghost predicate Carries(gs: seq<Fragment>, c: Call) {
    gs != [] && !Conflicting(gs) && FirstId(gs) == Some(c.id) && Name(gs) == c.name && Arguments(gs) == c.arguments
  }

  /** Some batching, splitting and interleaving of the calls' fragments, each call's own in order. */
  ghost predicate Fragments(fs: seq<Fragment>, cs: seq<Call>) {
    (forall f | f in fs :: Supported(f) && f.index < |cs|)
    && forall i: nat | i < |cs| :: Carries(Of(fs, i), cs[i])
  }

  /** A list of complete calls: distinct nonblank identities, named functions, object arguments. */
  ghost predicate Complete(parse: Parser, cs: seq<Call>) {
    (forall i | 0 <= i < |cs| :: IsComplete(parse, cs[i]))
    && forall i, j | 0 <= i < j < |cs| :: cs[i].id != cs[j].id
  }

  ghost predicate IsComplete(parse: Parser, c: Call) {
    !IsBlank(c.id) && !IsBlank(c.name) && parse(c.arguments) == Object
  }

  // ---- The accumulated state ----

  ghost function Joined(gs: seq<Fragment>): Partial {
    Partial(FirstId(gs), Name(gs), Arguments(gs))
  }

  ghost predicate Accumulates(fs: seq<Fragment>, calls: map<nat, Partial>) {
    forall i: nat :: Slot(fs, calls, i)
  }

  ghost predicate Slot(fs: seq<Fragment>, calls: map<nat, Partial>, i: nat) {
    (i in calls <==> Of(fs, i) != []) && (i in calls ==> calls[i] == Joined(Of(fs, i)))
  }

  /** Some fragment is unsupported or contradicts the identity of its call. */
  ghost predicate Invalid(fs: seq<Fragment>) {
    (exists f :: f in fs && !Supported(f)) || exists i: nat :: Conflicting(Of(fs, i))
  }

  lemma OfAppend(fs: seq<Fragment>, f: Fragment, i: nat)
    ensures Of(fs + [f], i) == if f.index == i then Of(fs, i) + [f] else Of(fs, i)
  {
    assert (fs + [f])[..|fs|] == fs;
  }

  lemma JoinedAppend(gs: seq<Fragment>, f: Fragment)
    ensures Name(gs + [f]) == Name(gs) + NamePart(f)
    ensures Arguments(gs + [f]) == Arguments(gs) + ArgumentsPart(f)
    ensures FirstId(gs + [f]) == if FirstId(gs).Some? then FirstId(gs) else f.id
  {
    assert (gs + [f])[..|gs|] == gs;
  }

  /** Without a conflict the first identity is everybody's. */
  lemma {:induction false} FirstIdIsTheirs(gs: seq<Fragment>)
    ensures FirstId(gs).Some? <==> exists g :: g in gs && g.id.Some?
    ensures FirstId(gs).Some? ==> exists g :: g in gs && g.id == FirstId(gs)
  {
    if gs != [] {
      var m := |gs| - 1;
      FirstIdIsTheirs(gs[..m]);
      assert gs == gs[..m] + [gs[m]];
      assert forall g :: g in gs <==> g in gs[..m] || g == gs[m];
    }
  }

  lemma ConflictAppend(gs: seq<Fragment>, f: Fragment)
    ensures Conflicting(gs + [f]) <==> Conflicting(gs) || (f.id.Some? && FirstId(gs).Some? && FirstId(gs) != f.id)
  {
    FirstIdIsTheirs(gs);
    assert forall g :: g in gs + [f] <==> g in gs || g == f;
    if Conflicting(gs + [f]) && !Conflicting(gs) {
      var x, y :| x in gs + [f] && y in gs + [f] && x.id.Some? && y.id.Some? && x.id != y.id;
      var first :| first in gs && first.id == FirstId(gs);
      assert first.id != f.id;
    }
  }

  lemma InvalidAppend(fs: seq<Fragment>, f: Fragment)
    ensures Invalid(fs + [f]) <==>
              Invalid(fs) || !Supported(f)
              || (f.id.Some? && FirstId(Of(fs, f.index)).Some? && FirstId(Of(fs, f.index)) != f.id)
  {
    forall i: nat ensures Of(fs + [f], i) == if f.index == i then Of(fs, i) + [f] else Of(fs, i) { OfAppend(fs, f, i); }
    ConflictAppend(Of(fs, f.index), f);
    assert forall g :: g in fs + [f] <==> g in fs || g == f;
    forall i: nat | i != f.index ensures Of(fs + [f], i) == Of(fs, i) {}
    if Invalid(fs + [f]) && !exists g :: g in fs + [f] && !Supported(g) {
      var i: nat :| Conflicting(Of(fs + [f], i));
      assert i != f.index ==> Conflicting(Of(fs, i));
    }
    if Invalid(fs) && !exists g :: g in fs && !Supported(g) {
      var i: nat :| Conflicting(Of(fs, i));
      assert Conflicting(Of(fs + [f], i));
    }
    assert Supported(f) || (f in fs + [f] && !Supported(f));
    if Conflicting(Of(fs + [f], f.index)) { assert Invalid(fs + [f]); }
  }

  lemma AccumulateOne(fs: seq<Fragment>, calls: map<nat, Partial>, f: Fragment, p: Partial)
    requires Accumulates(fs, calls)
    requires p == Joined(Of(fs, f.index) + [f])
    ensures Accumulates(fs + [f], calls[f.index := p])
  {
    var more, longer := calls[f.index := p], fs + [f];
    forall i: nat ensures Slot(longer, more, i) {
      OfAppend(fs, f, i);
      assert Slot(fs, calls, i);
    }
  }

  // ---- Fragments and the calls they carry ----

  lemma {:induction false} OfIsPart(fs: seq<Fragment>, i: nat)
    ensures forall g :: g in Of(fs, i) <==> g in fs && g.index == i
  {
    if fs != [] {
      OfIsPart(fs[..|fs| - 1], i);
      assert forall g :: g in fs <==> g in fs[..|fs| - 1] || g == fs[|fs| - 1];
    }
  }

  lemma NonEmpty(fs: seq<Fragment>, i: nat)
    ensures Of(fs, i) != [] <==> exists f :: f in fs && f.index == i
  {
    OfIsPart(fs, i);
    if Of(fs, i) != [] { assert Of(fs, i)[0] in Of(fs, i); }
  }

  lemma FragmentsAreValid(fs: seq<Fragment>, cs: seq<Call>)
    requires Fragments(fs, cs)
    ensures !Invalid(fs)
  {
    forall i: nat ensures !Conflicting(Of(fs, i)) {
      if i < |cs| {
        assert Carries(Of(fs, i), cs[i]);
      } else {
        NonEmpty(fs, i);
      }
    }
  }

  lemma {:induction false} KeysFill(keys: set<nat>)
    requires forall i: nat | i < |keys| :: i in keys
    ensures forall k | k in keys :: k < |keys|
  {
    Initial(keys, |keys|);
  }

  lemma {:induction false} Initial(keys: set<nat>, n: nat)
    requires n <= |keys| && forall i: nat | i < n :: i in keys
    ensures |keys| == n ==> forall k | k in keys :: k < n
    decreases n
  {
    if n > 0 {
      Initial(keys - {n - 1}, n - 1);
      assert forall k | k in keys :: k == n - 1 || k in keys - {n - 1};
    }
  }

  lemma {:induction false} CountBelow(keys: set<nat>, n: nat)
    requires forall k: nat :: k in keys <==> k < n
    ensures |keys| == n
  {
    if n == 0 {
      assert keys == {};
    } else {
      CountBelow(keys - {n - 1}, n - 1);
    }
  }

  /** Calls whose fragments arrived are the accumulated ones. */
  lemma Arrived(fs: seq<Fragment>, calls: map<nat, Partial>, cs: seq<Call>)
    requires Accumulates(fs, calls) && Fragments(fs, cs)
    ensures |calls| == |cs|
    ensures forall i: nat | i < |cs| :: i in calls && calls[i] == Partial(Some(cs[i].id), cs[i].name, cs[i].arguments)
  {
    forall i: nat ensures i in calls.Keys <==> i < |cs| {
      assert Slot(fs, calls, i);
      NonEmpty(fs, i);
      if i < |cs| { assert Carries(Of(fs, i), cs[i]); }
    }
    CountBelow(calls.Keys, |cs|);
    forall i: nat | i < |cs| ensures i in calls && calls[i] == Partial(Some(cs[i].id), cs[i].name, cs[i].arguments) {
      assert Slot(fs, calls, i) && Carries(Of(fs, i), cs[i]);
    }
  }

  lemma AllArrived(fs: seq<Fragment>, calls: map<nat, Partial>, done: seq<Call>)
    requires Accumulates(fs, calls) && !Invalid(fs) && |done| == |calls|
    requires forall i: nat | i < |done| :: Carries(Of(fs, i), done[i])
    ensures Fragments(fs, done) && (calls != map[] ==> done != [])
  {
    forall i: nat | i < |done| ensures i in calls.Keys {
      assert Slot(fs, calls, i) && Carries(Of(fs, i), done[i]);
    }
    KeysFill(calls.Keys);
    forall f | f in fs ensures Supported(f) && f.index < |done| {
      NonEmpty(fs, f.index);
      assert Slot(fs, calls, f.index);
    }
  }

  /** An invalid stream stays invalid whatever arrives later. */
  lemma {:induction false} InvalidForEver(fs: seq<Fragment>, more: seq<Fragment>)
    requires Invalid(fs)
    ensures Invalid(fs + more)
  {
    if more == [] {
      assert fs + more == fs;
    } else {
      var m := |more| - 1;
      InvalidForEver(fs, more[..m]);
      InvalidAppend(fs + more[..m], more[m]);
      assert fs + more == fs + more[..m] + [more[m]];
    }
  }

  /** Only each call's own order matters: fragments of different calls may arrive in any order. */
  lemma InterleavingIsIrrelevant(fs: seq<Fragment>, gs: seq<Fragment>, cs: seq<Call>)
    requires forall i: nat :: Of(fs, i) == Of(gs, i)
    ensures Fragments(fs, cs) <==> Fragments(gs, cs)
  {
    forall f: Fragment ensures f in fs <==> f in gs {
      OfIsPart(fs, f.index);
      OfIsPart(gs, f.index);
      assert f in Of(fs, f.index) <==> f in Of(gs, f.index);
    }
    assert forall i: nat | i < |cs| :: Carries(Of(fs, i), cs[i]) <==> Carries(Of(gs, i), cs[i]);
  }

  /** The fragments determine the calls. */
  lemma CallsAreUnique(fs: seq<Fragment>, calls: map<nat, Partial>, cs: seq<Call>, ds: seq<Call>)
    requires Accumulates(fs, calls) && Fragments(fs, cs) && Fragments(fs, ds)
    ensures cs == ds
  {
    Arrived(fs, calls, cs);
    Arrived(fs, calls, ds);
  }

  /** The fragments are those of a nonempty list of complete calls. */
  ghost predicate Told(parse: Parser, fs: seq<Fragment>, cs: seq<Call>) {
    cs != [] && Complete(parse, cs) && Fragments(fs, cs)
  }

  lemma EmptyIff(fs: seq<Fragment>, calls: map<nat, Partial>)
    requires Accumulates(fs, calls)
    ensures calls == map[] <==> fs == []
  {
    if fs == [] {
      forall i: nat ensures i !in calls { assert Slot(fs, calls, i); }
    } else {
      NonEmpty(fs, fs[0].index);
      assert Slot(fs, calls, fs[0].index);
    }
  }

  // ---- The checks at the end of the stream ----

  ghost predicate At(calls: map<nat, Partial>, i: nat, c: Call) {
    i in calls && calls[i] == Partial(Some(c.id), c.name, c.arguments)
  }

  /** The accumulated calls are exactly these complete ones. */
  ghost predicate Listed(parse: Parser, calls: map<nat, Partial>, cs: seq<Call>) {
    |cs| == |calls| && Complete(parse, cs) && forall i: nat | i < |cs| :: At(calls, i, cs[i])
  }

  lemma ToldIsListed(parse: Parser, fs: seq<Fragment>, calls: map<nat, Partial>, cs: seq<Call>)
    requires Accumulates(fs, calls) && calls != map[]
    ensures Told(parse, fs, cs) <==> !Invalid(fs) && Listed(parse, calls, cs)
  {
    if Told(parse, fs, cs) {
      FragmentsAreValid(fs, cs);
      Arrived(fs, calls, cs);
    } else if !Invalid(fs) && Listed(parse, calls, cs) {
      forall i: nat | i < |cs| ensures Carries(Of(fs, i), cs[i]) {
        assert At(calls, i, cs[i]) && Slot(fs, calls, i);
      }
      AllArrived(fs, calls, cs);
    }
  }

  lemma ListedOnce(parse: Parser, calls: map<nat, Partial>, cs: seq<Call>, ds: seq<Call>)
    requires Listed(parse, calls, cs) && Listed(parse, calls, ds)
    ensures cs == ds
  {
    forall i: nat | i < |cs| ensures cs[i] == ds[i] {
      assert At(calls, i, cs[i]) && At(calls, i, ds[i]);
    }
  }

  ghost function IdSet(cs: seq<Call>): set<string> {
    set i | 0 <= i < |cs| :: cs[i].id
  }

  /** The first calls have passed the checks. */
  ghost predicate Passed(parse: Parser, calls: map<nat, Partial>, done: seq<Call>) {
    Complete(parse, done) && forall i: nat | i < |done| :: At(calls, i, done[i])
  }

  lemma PassOne(parse: Parser, calls: map<nat, Partial>, done: seq<Call>, c: Call)
    requires Passed(parse, calls, done) && At(calls, |done|, c) && IsComplete(parse, c) && c.id !in IdSet(done)
    ensures Passed(parse, calls, done + [c]) && IdSet(done + [c]) == IdSet(done) + {c.id}
  {
    var more := done + [c];
    assert forall i | 0 <= i < |done| :: more[i] == done[i] && done[i].id in IdSet(done);
    assert more[|done|] == c;
  }

  /** A complete listing begins with the calls that passed and goes on with one that passes. */
  lemma NextPasses(parse: Parser, calls: map<nat, Partial>, done: seq<Call>, cs: seq<Call>)
    requires Passed(parse, calls, done) && Listed(parse, calls, cs) && |done| < |calls|
    ensures At(calls, |done|, cs[|done|]) && IsComplete(parse, cs[|done|]) && cs[|done|].id !in IdSet(done)
  {
    forall i: nat | i < |done| ensures done[i] == cs[i] {
      assert At(calls, i, done[i]) && At(calls, i, cs[i]);
    }
  }

  class StreamedToolCalls {
    var calls: map<nat, Partial>
    var invalid: Option<string>
    /** Every fragment pushed so far, in arrival order. */
    ghost var seen: seq<Fragment>

    ghost predicate Valid()
      reads this
    {
      Accumulates(seen, calls) && (invalid.Some? <==> Invalid(seen))
    }

    constructor ()
      ensures Valid() && seen == []
    {
      calls, invalid, seen := map[], None, [];
    }

    /** Append fragments in arrival order; an invalid one stays invalid. */
    method Push(fragments: seq<Fragment>)
      requires Valid()
      modifies this
      ensures Valid() && seen == old(seen) + fragments
      ensures old(invalid).Some? ==> invalid.Some?
    {
      for n := 0 to |fragments|
        invariant Valid() && seen == old(seen) + fragments[..n]
        invariant old(invalid).Some? ==> invalid.Some?
      {
        PushOne(fragments[n]);
        assert fragments[..n + 1] == fragments[..n] + [fragments[n]];
      }
      assert fragments[..|fragments|] == fragments;
    }

    method PushOne(f: Fragment)
      requires Valid()
      modifies this
      ensures Valid() && seen == old(seen) + [f]
      ensures old(invalid).Some? ==> invalid.Some?
    {
      ghost var gs := Of(seen, f.index);
      JoinedAppend(gs, f);
      InvalidAppend(seen, f);
      if f.kind.Some? && f.kind.value != "function" {
        invalid := Some("unsupported tool-call kind");
      }
      var call := if f.index in calls then calls[f.index] else Partial(None, "", "");
      assert call == Joined(gs) by { assert Slot(seen, calls, f.index); }
      if f.id.Some? {
        if call.id.Some? && call.id != f.id {
          invalid := Some("conflicting tool-call identity");
        } else {
          call := call.(id := f.id);
        }
      }
      if f.function'.Some? {
        if f.function'.value.name.Some? {
          call := call.(name := call.name + f.function'.value.name.value);
        }
        if f.function'.value.arguments.Some? {
          call := call.(arguments := call.arguments + f.function'.value.arguments.value);
        }
      }
      AccumulateOne(seen, calls, f, call);
      calls := calls[f.index := call];
      seen := seen + [f];
    }

    /**
     * The calls in index order. A list is returned exactly when the stream finished with tool
     * calls, the list is complete, and its fragments are what arrived.
     */
    method Finish(finish: Option<string>, parse: Parser) returns (r: Result<Option<seq<Call>>>)
      requires Valid()
      ensures r.Ok? && r.value.Some? ==> finish == Some("tool_calls") && Told(parse, seen, r.value.value)
      ensures finish == Some("tool_calls") ==>
                forall cs | Told(parse, seen, cs) :: r == Ok(Some(cs))
      ensures r == Ok(None) <==> seen == [] && finish != Some("tool_calls")
      ensures Invalid(seen) ==> r.Err?
    {
      EmptyIff(seen, calls);
      if calls != map[] {
        forall cs ensures Told(parse, seen, cs) <==> !Invalid(seen) && Listed(parse, calls, cs) {
          ToldIsListed(parse, seen, calls, cs);
        }
      } else {
        NothingTold(parse);
      }
      if invalid.Some? { return Err(invalid.value); }
      if calls == map[] {
        if finish == Some("tool_calls") { return Err("tool_calls finish without calls"); }
        return Ok(None);
      }
      if finish != Some("tool_calls") { return Err("tool calls lack a supported terminal finish"); }
      var assembled := Assemble(calls, parse);
      match assembled
      case Ok(cs) => return Ok(Some(cs));
      case Err(reason) => return Err(reason);
    }
  }

  lemma NothingTold(parse: Parser)
    ensures !Invalid([]) && forall cs :: !Told(parse, [], cs)
  {
    forall cs: seq<Call> | cs != [] ensures !Fragments([], cs) {
      assert !Carries(Of([], 0), cs[0]);
    }
  }

  /** The calls in index order, if their indices are contiguous and each is complete. */
  method Assemble(calls: map<nat, Partial>, parse: Parser) returns (r: Result<seq<Call>>)
    ensures r.Ok? ==> Listed(parse, calls, r.value)
    ensures forall cs | Listed(parse, calls, cs) :: r == Ok(cs)
  {
    var ids: set<string> := {};
    var done: seq<Call> := [];
    for expected := 0 to |calls|
      invariant |done| == expected && Passed(parse, calls, done) && ids == IdSet(done)
    {
      forall cs: seq<Call> | Listed(parse, calls, cs)
        ensures At(calls, expected, cs[expected]) && IsComplete(parse, cs[expected]) && cs[expected].id !in ids
      {
        NextPasses(parse, calls, done, cs);
      }
      // The keys are distinct, so the first gap is where the ascending keys stop being contiguous.
      if expected !in calls { return Err("noncontiguous tool-call indices"); }
      var call := calls[expected];
      if call.id.None? || IsBlank(call.id.value) { return Err("missing tool-call identity"); }
      if call.id.value in ids || IsBlank(call.name) { return Err("duplicate identity or missing function name"); }
      var arguments := parse(call.arguments);
      if arguments.Malformed? { return Err("incomplete or malformed tool arguments"); }
      if arguments != Object { return Err("tool arguments must be an object"); }
      var c := Call(call.id.value, call.name, call.arguments);
      PassOne(parse, calls, done, c);
      ids, done := ids + {c.id}, done + [c];
    }
    forall cs | Listed(parse, calls, cs) ensures cs == done { ListedOnce(parse, calls, cs, done); }
    return Ok(done);
  }
}
