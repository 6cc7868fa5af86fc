/** Token windows, their lexicographic order, and the sets an index of start positions stands for. */
module Shingles {

  type Tokens = seq<nat>

  function Window(t: Tokens, start: nat, n: nat): Tokens
    requires start + n <= |t|
  {
    t[start..start + n]
  }

  /** The set of length-`n` windows of a segment: the mathematical meaning of its shingles. */
  ghost function Windows(t: Tokens, n: nat): set<Tokens> {
    set s | 0 <= s <= |t| - n :: Window(t, s, n)
  }

  predicate Less(a: Tokens, b: Tokens) {
    b != [] && (a == [] || a[0] < b[0] || (a[0] == b[0] && Less(a[1..], b[1..])))
  }

  lemma {:induction false} LessIsStrictOrder(a: Tokens, b: Tokens, c: Tokens)
    ensures !Less(a, a)
    ensures Less(a, b) && Less(b, c) ==> Less(a, c)
    ensures Less(a, b) || Less(b, a) || a == b
    ensures !(Less(a, b) && Less(b, a))
  {
    if a != [] && b != [] && c != [] {
      LessIsStrictOrder(a[1..], b[1..], c[1..]);
    } else if a != [] && b != [] {
      LessIsStrictOrder(a[1..], b[1..], c);
    } else if a != [] {
      LessIsStrictOrder(a[1..], b, c);
    }
    assert a != [] && b != [] && a[0] == b[0] && a[1..] == b[1..] ==> a == b;
  }

  /** The windows that the first positions of an index name. */
  ghost function Named(t: Tokens, n: nat, starts: seq<nat>): set<Tokens>
    requires InRange(t, n, starts)
  {
    set i | 0 <= i < |starts| :: Window(t, starts[i], n)
  }

  predicate InRange(t: Tokens, n: nat, starts: seq<nat>) {
    forall i | 0 <= i < |starts| :: starts[i] + n <= |t|
  }

  ghost predicate Ascending(t: Tokens, n: nat, starts: seq<nat>)
    requires InRange(t, n, starts)
  {
    forall i, j | 0 <= i < j < |starts| :: Less(Window(t, starts[i], n), Window(t, starts[j], n))
  }

  /** Start positions, one per distinct window, in strict lexicographic order of the windows. */
  ghost predicate IsIndex(t: Tokens, n: nat, starts: seq<nat>) {
    InRange(t, n, starts) && Ascending(t, n, starts) && Named(t, n, starts) == Windows(t, n)
    && forall i, s | 0 <= i < |starts| && 0 <= s < starts[i] :: Window(t, s, n) != Window(t, starts[i], n)
  }

  lemma {:induction false} NamedCount(t: Tokens, n: nat, starts: seq<nat>)
    requires InRange(t, n, starts) && Ascending(t, n, starts)
    ensures |Named(t, n, starts)| == |starts|
  {
    if starts != [] {
      var m := |starts| - 1;
      var rest := starts[..m];
      NamedCount(t, n, rest);
      var w := Window(t, starts[m], n);
      forall v | v in Named(t, n, rest) ensures v != w {
        var i :| 0 <= i < m && Window(t, rest[i], n) == v;
        assert Less(Window(t, starts[i], n), Window(t, starts[m], n));
        LessIsStrictOrder(w, w, w);
      }
      NamedExtends(t, n, rest, starts[m]);
      assert rest + [starts[m]] == starts;
    }
  }

  lemma NamedExtends(t: Tokens, n: nat, starts: seq<nat>, start: nat)
    requires InRange(t, n, starts) && start + n <= |t|
    ensures Named(t, n, starts + [start]) == Named(t, n, starts) + {Window(t, start, n)}
  {
    var longer := starts + [start];
    forall w | w in Named(t, n, starts) + {Window(t, start, n)} ensures w in Named(t, n, longer) {
      if w in Named(t, n, starts) {
        var i :| 0 <= i < |starts| && Window(t, starts[i], n) == w;
        assert longer[i] == starts[i];
      } else {
        assert longer[|starts|] == start;
      }
    }
  }

  /** How many windows the first `i` and the first `j` positions share. */
  ghost function Shared(a: Tokens, n: nat, xs: seq<nat>, i: nat, b: Tokens, ys: seq<nat>, j: nat): nat
    requires InRange(a, n, xs) && InRange(b, n, ys) && i <= |xs| && j <= |ys|
  {
    |Named(a, n, xs[..i]) * Named(b, n, ys[..j])|
  }

  lemma SharedCommutes(a: Tokens, n: nat, xs: seq<nat>, i: nat, b: Tokens, ys: seq<nat>, j: nat)
    requires InRange(a, n, xs) && InRange(b, n, ys) && i <= |xs| && j <= |ys|
    ensures Shared(a, n, xs, i, b, ys, j) == Shared(b, n, ys, j, a, xs, i)
  {
    assert Named(a, n, xs[..i]) * Named(b, n, ys[..j]) == Named(b, n, ys[..j]) * Named(a, n, xs[..i]);
  }

  /** The two-pointer merge over two ordered indexes counts every shared window once. */
  method Merge(a: Tokens, xs: seq<nat>, b: Tokens, ys: seq<nat>, n: nat) returns (intersection: nat)
    requires InRange(a, n, xs) && Ascending(a, n, xs) && InRange(b, n, ys) && Ascending(b, n, ys)
    ensures intersection == |Named(a, n, xs) * Named(b, n, ys)|
  {
    var i, j := 0, 0;
    intersection := 0;
    while i < |xs| && j < |ys|
      invariant i <= |xs| && j <= |ys|
      invariant intersection == Shared(a, n, xs, i, b, ys, j)
      invariant Separated(a, n, xs, i, b, ys, j) && Separated(b, n, ys, j, a, xs, i)
      decreases |xs| - i + |ys| - j
    {
      var x, y := Window(a, xs[i], n), Window(b, ys[j], n);
      LessIsStrictOrder(x, y, x);
      if Less(x, y) {
        SkipsLess(a, n, xs, i, b, ys, j);
        i := i + 1;
      } else if Less(y, x) {
        SharedCommutes(a, n, xs, i, b, ys, j);
        SkipsLess(b, n, ys, j, a, xs, i);
        SharedCommutes(a, n, xs, i, b, ys, j + 1);
        j := j + 1;
      } else {
        CountsEqual(a, n, xs, i, b, ys, j);
        intersection := intersection + 1;
        i, j := i + 1, j + 1;
      }
    }
    Drained(a, n, xs, i, b, ys, j);
  }

  lemma SkipsLess(a: Tokens, n: nat, xs: seq<nat>, i: nat, b: Tokens, ys: seq<nat>, j: nat)
    requires InRange(a, n, xs) && InRange(b, n, ys) && Ascending(b, n, ys) && i < |xs| && j < |ys|
    requires Separated(a, n, xs, i, b, ys, j) && Separated(b, n, ys, j, a, xs, i)
    requires Less(Window(a, xs[i], n), Window(b, ys[j], n))
    ensures Shared(a, n, xs, i + 1, b, ys, j) == Shared(a, n, xs, i, b, ys, j)
    ensures Separated(a, n, xs, i + 1, b, ys, j) && Separated(b, n, ys, j, a, xs, i + 1)
  {
    var x := Window(a, xs[i], n);
    LessIsStrictOrder(x, Window(b, ys[j], n), x);
    Pass(a, n, xs, i, b, ys, j);
    Unseen(a, n, xs, i, b, ys, j);
    NamedExtends(a, n, xs[..i], xs[i]);
    assert xs[..i + 1] == xs[..i] + [xs[i]];
    assert Named(a, n, xs[..i + 1]) * Named(b, n, ys[..j]) == Named(a, n, xs[..i]) * Named(b, n, ys[..j]);
  }

  lemma CountsEqual(a: Tokens, n: nat, xs: seq<nat>, i: nat, b: Tokens, ys: seq<nat>, j: nat)
    requires InRange(a, n, xs) && Ascending(a, n, xs) && InRange(b, n, ys) && Ascending(b, n, ys)
    requires i < |xs| && j < |ys|
    requires Separated(a, n, xs, i, b, ys, j) && Separated(b, n, ys, j, a, xs, i)
    requires Window(a, xs[i], n) == Window(b, ys[j], n)
    ensures Shared(a, n, xs, i + 1, b, ys, j + 1) == Shared(a, n, xs, i, b, ys, j) + 1
    ensures Separated(a, n, xs, i + 1, b, ys, j + 1) && Separated(b, n, ys, j + 1, a, xs, i + 1)
  {
    Pass(a, n, xs, i, b, ys, j);
    Pass(b, n, ys, j, a, xs, i);
    assert Named(a, n, xs[..i + 1]) == Named(a, n, xs[..i]) + {Window(a, xs[i], n)} by {
      NamedExtends(a, n, xs[..i], xs[i]);
      assert xs[..i + 1] == xs[..i] + [xs[i]];
    }
    assert Named(b, n, ys[..j + 1]) == Named(b, n, ys[..j]) + {Window(b, ys[j], n)} by {
      NamedExtends(b, n, ys[..j], ys[j]);
      assert ys[..j + 1] == ys[..j] + [ys[j]];
    }
    Unseen(a, n, xs, i, b, ys, j);
    Unseen(b, n, ys, j, a, xs, i);
    BothGain(Named(a, n, xs[..i]), Named(b, n, ys[..j]), Window(a, xs[i], n));
  }

  lemma BothGain<T>(a: set<T>, b: set<T>, x: T)
    requires x !in a && x !in b
    ensures |(a + {x}) * (b + {x})| == |a * b| + 1
  {
    assert (a + {x}) * (b + {x}) == a * b + {x};
  }

  /** Every window before `xs[i]` is less than every one from `ys[j]` on. */
  ghost predicate Separated(a: Tokens, n: nat, xs: seq<nat>, i: nat, b: Tokens, ys: seq<nat>, j: nat)
    requires InRange(a, n, xs) && InRange(b, n, ys)
  {
    forall p, q | 0 <= p < i && p < |xs| && j <= q < |ys| :: Less(Window(a, xs[p], n), Window(b, ys[q], n))
  }

  lemma Unseen(a: Tokens, n: nat, xs: seq<nat>, i: nat, b: Tokens, ys: seq<nat>, j: nat)
    requires InRange(a, n, xs) && InRange(b, n, ys) && i < |xs| && j <= |ys|
    requires Separated(b, n, ys, j, a, xs, i)
    ensures Window(a, xs[i], n) !in Named(b, n, ys[..j])
  {
    var x := Window(a, xs[i], n);
    LessIsStrictOrder(x, x, x);
    assert forall q | 0 <= q < j :: ys[..j][q] == ys[q] && Less(Window(b, ys[q], n), x);
  }

  lemma Pass(a: Tokens, n: nat, xs: seq<nat>, i: nat, b: Tokens, ys: seq<nat>, j: nat)
    requires InRange(a, n, xs) && InRange(b, n, ys) && Ascending(b, n, ys) && i < |xs| && j < |ys|
    requires Separated(a, n, xs, i, b, ys, j)
    requires var x, y := Window(a, xs[i], n), Window(b, ys[j], n); x == y || Less(x, y)
    ensures Separated(a, n, xs, i + 1, b, ys, if Window(a, xs[i], n) == Window(b, ys[j], n) then j + 1 else j)
  {
    var x, y := Window(a, xs[i], n), Window(b, ys[j], n);
    forall q | j < q < |ys| ensures Less(x, Window(b, ys[q], n)) {
      LessIsStrictOrder(x, y, Window(b, ys[q], n));
    }
  }

  lemma Drained(a: Tokens, n: nat, xs: seq<nat>, i: nat, b: Tokens, ys: seq<nat>, j: nat)
    requires InRange(a, n, xs) && InRange(b, n, ys) && i <= |xs| && j <= |ys| && (i == |xs| || j == |ys|)
    requires Separated(a, n, xs, i, b, ys, j) && Separated(b, n, ys, j, a, xs, i)
    ensures Named(a, n, xs) * Named(b, n, ys) == Named(a, n, xs[..i]) * Named(b, n, ys[..j])
  {
    forall w | w in Named(a, n, xs) && w in Named(b, n, ys)
      ensures w in Named(a, n, xs[..i]) && w in Named(b, n, ys[..j])
    {
      var p :| 0 <= p < |xs| && Window(a, xs[p], n) == w;
      var q :| 0 <= q < |ys| && Window(b, ys[q], n) == w;
      LessIsStrictOrder(w, w, w);
      assert p < i && q < j;
      assert xs[..i][p] == xs[p] && ys[..j][q] == ys[q];
    }
    NamedPrefix(a, n, xs, i);
    NamedPrefix(b, n, ys, j);
  }

  lemma NamedPrefix(t: Tokens, n: nat, starts: seq<nat>, m: nat)
    requires InRange(t, n, starts) && m <= |starts|
    ensures InRange(t, n, starts[..m]) && Named(t, n, starts[..m]) <= Named(t, n, starts)
  {
    assert forall i | 0 <= i < m :: starts[..m][i] == starts[i];
  }

  // ---- Building an index: an ordered map from distinct windows to their first position ----

  ghost function WindowsBelow(t: Tokens, n: nat, m: nat): set<Tokens>
    requires m + n <= |t| + 1
  {
    set s | 0 <= s < m :: Window(t, s, n)
  }

  /** `starts` indexes the windows at the positions below `m`. */
  ghost predicate IsPartial(t: Tokens, n: nat, starts: seq<nat>, m: nat) {
    m + n <= |t| + 1 && InRange(t, n, starts) && Ascending(t, n, starts)
    && Named(t, n, starts) == WindowsBelow(t, n, m)
    && forall i, s | 0 <= i < |starts| && 0 <= s < starts[i] :: Window(t, s, n) != Window(t, starts[i], n)
  }

  /** Position of a window in the ordered map; it is present exactly when that entry equals it. */
  method Locate(t: Tokens, n: nat, starts: seq<nat>, m: nat) returns (p: nat, found: bool)
    requires IsPartial(t, n, starts, m) && m + n <= |t|
    ensures p <= |starts|
    ensures forall i | 0 <= i < p :: Less(Window(t, starts[i], n), Window(t, m, n))
    ensures found <==> Window(t, m, n) in Named(t, n, starts)
    ensures !found ==> forall i | p <= i < |starts| :: Less(Window(t, m, n), Window(t, starts[i], n))
  {
    var w := Window(t, m, n);
    p := 0;
    while p < |starts| && Less(Window(t, starts[p], n), w)
      invariant p <= |starts| && forall i | 0 <= i < p :: Less(Window(t, starts[i], n), w)
    {
      p := p + 1;
    }
    found := p < |starts| && Window(t, starts[p], n) == w;
    LessIsStrictOrder(w, w, w);
    forall i | p <= i < |starts| ensures found || Less(w, Window(t, starts[i], n)) {
      LessIsStrictOrder(Window(t, starts[p], n), w, w);
      LessIsStrictOrder(w, Window(t, starts[p], n), Window(t, starts[i], n));
    }
  }

  lemma AlreadyNamed(t: Tokens, n: nat, starts: seq<nat>, m: nat)
    requires IsPartial(t, n, starts, m) && m + n <= |t| && Window(t, m, n) in Named(t, n, starts)
    ensures IsPartial(t, n, starts, m + 1)
  {
    assert WindowsBelow(t, n, m + 1) == WindowsBelow(t, n, m) + {Window(t, m, n)};
  }

  lemma NewlyNamed(t: Tokens, n: nat, starts: seq<nat>, m: nat, p: nat)
    requires IsPartial(t, n, starts, m) && m + n <= |t| && p <= |starts|
    requires Window(t, m, n) !in Named(t, n, starts)
    requires forall i | 0 <= i < p :: Less(Window(t, starts[i], n), Window(t, m, n))
    requires forall i | p <= i < |starts| :: Less(Window(t, m, n), Window(t, starts[i], n))
    ensures IsPartial(t, n, starts[..p] + [m] + starts[p..], m + 1)
  {
    var w, longer := Window(t, m, n), starts[..p] + [m] + starts[p..];
    assert WindowsBelow(t, n, m + 1) == WindowsBelow(t, n, m) + {w};
    NamedInserts(t, n, starts, p, m);
    AscendingInserts(t, n, starts, m, p);
    forall s | 0 <= s < m ensures Window(t, s, n) != w {
      assert Window(t, s, n) in WindowsBelow(t, n, m);
    }
    forall i, s | 0 <= i < |longer| && 0 <= s < longer[i] ensures Window(t, s, n) != Window(t, longer[i], n) {
      assert longer[i] == if i < p then starts[i] else if i == p then m else starts[i - 1];
    }
  }

  lemma AscendingInserts(t: Tokens, n: nat, starts: seq<nat>, m: nat, p: nat)
    requires InRange(t, n, starts) && Ascending(t, n, starts) && m + n <= |t| && p <= |starts|
    requires forall i | 0 <= i < p :: Less(Window(t, starts[i], n), Window(t, m, n))
    requires forall i | p <= i < |starts| :: Less(Window(t, m, n), Window(t, starts[i], n))
    ensures InRange(t, n, starts[..p] + [m] + starts[p..]) && Ascending(t, n, starts[..p] + [m] + starts[p..])
  {
    var longer := starts[..p] + [m] + starts[p..];
    assert forall i | 0 <= i < |longer| ::
        longer[i] == if i < p then starts[i] else if i == p then m else starts[i - 1];
  }

  /** A partial index has no more positions than the segment has distinct windows. */
  lemma PartialCount(t: Tokens, n: nat, starts: seq<nat>, m: nat)
    requires IsPartial(t, n, starts, m)
    ensures |starts| <= |Windows(t, n)|
  {
    NamedCount(t, n, starts);
    SubsetCount(Named(t, n, starts), Windows(t, n));
  }

  lemma {:induction false} SubsetCount<T>(a: set<T>, b: set<T>)
    requires a <= b
    ensures |a| <= |b|
  {
    if a != {} {
      var x :| x in a;
      SubsetCount(a - {x}, b - {x});
    }
  }

  lemma NamedInserts(t: Tokens, n: nat, starts: seq<nat>, p: nat, start: nat)
    requires InRange(t, n, starts) && start + n <= |t| && p <= |starts|
    ensures InRange(t, n, starts[..p] + [start] + starts[p..])
    ensures Named(t, n, starts[..p] + [start] + starts[p..]) == Named(t, n, starts) + {Window(t, start, n)}
  {
    var longer := starts[..p] + [start] + starts[p..];
    forall v | v in Named(t, n, starts) ensures v in Named(t, n, longer) {
      var i :| 0 <= i < |starts| && Window(t, starts[i], n) == v;
      assert longer[if i < p then i else i + 1] == starts[i];
    }
    assert longer[p] == start;
  }
}
