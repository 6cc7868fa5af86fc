/** Minted record identities: what a record id says, and that nothing is lost in it. */
module Identity {
  import opened Common
  import opened Text

  const I64_MAX: int := 0x7FFF_FFFF_FFFF_FFFF
  const I64_MIN: int := -0x8000_0000_0000_0000

  predicate IsI64(i: int) {
    I64_MIN <= i <= I64_MAX
  }

  predicate IsDigit(c: char) {
    '0' <= c <= '9'
  }

  function Digit(n: nat): char
    requires n < 10
  {
    ('0' as int + n) as char
  }

  /** The decimal digits of a number, without leading zeros. */
  function Decimal(n: nat): (s: string)
    ensures s != [] && forall i | 0 <= i < |s| :: IsDigit(s[i])
  {
    if n < 10 then [Digit(n)] else Decimal(n / 10) + [Digit(n % 10)]
  }

  function Signed(i: int): string {
    if i < 0 then "-" + Decimal(-i) else Decimal(i)
  }

  function ItemId(run: string, shard: int, seed: int): string {
    run + "-s" + Signed(shard) + "-seed" + Signed(seed)
  }

  function RecordId(run: string, shard: int, seed: int, attempt: nat, completion: nat): string {
    ItemId(run, shard, seed) + "-a" + Decimal(attempt) + "-c" + Decimal(completion)
  }

  /** The item a record id belongs to: everything before the last attempt marker. */
  function RecordItemId(id: string): Option<string> {
    match SplitLast(id, "-a")
    case Some((prefix, _)) => Some(prefix)
    case None => None
  }

  // ---- Parsing a signed 64-bit number ----

  function DigitValue(c: char): nat
    requires IsDigit(c)
  {
    (c as int) - ('0' as int)
  }

  function Value(s: string): Option<nat> {
    if s == [] then Some(0)
    else
      var m := |s| - 1;
      match Value(s[..m])
      case Some(n) => if IsDigit(s[m]) then Some(10 * n + DigitValue(s[m])) else None
      case None => None
  }

  /** An optional sign, at least one digit, nothing else, and a value in range. */
  function Parse(s: string): Option<int> {
    var negative := s != [] && s[0] == '-';
    var digits := if s != [] && (s[0] == '-' || s[0] == '+') then s[1..] else s;
    if digits == [] then None
    else
      match Value(digits)
      case None => None
      case Some(n) => var i := if negative then -(n as int) else n as int; if IsI64(i) then Some(i) else None
  }

  /** The shard of a record id of the run, if it is a minted one. */
  function ShardOf(run: string, id: string): Option<int> {
    match StripPrefix(id, run + "-s")
    case None => None
    case Some(rest) =>
      match SplitOnce(rest, "-seed")
      case None => None
      case Some((shard, _)) => Parse(shard)
  }

  // ---- Numbers ----

  lemma {:induction false} ValueOfDecimal(n: nat)
    ensures Value(Decimal(n)) == Some(n)
  {
    var s := Decimal(n);
    var m := |s| - 1;
    if n < 10 {
      assert s[..m] == [];
    } else {
      ValueOfDecimal(n / 10);
      assert s[..m] == Decimal(n / 10);
    }
  }

  lemma ParseOfSigned(i: int)
    requires IsI64(i)
    ensures Parse(Signed(i)) == Some(i)
  {
    ValueOfDecimal(if i < 0 then -i else i);
    if i < 0 { assert Signed(i)[1..] == Decimal(-i); }
  }

  lemma SignedIsInjective(i: int, j: int)
    requires Signed(i) == Signed(j)
    ensures i == j
  {
    ValueOfDecimal(if i < 0 then -i else i);
    ValueOfDecimal(if j < 0 then -j else j);
    assert (i < 0 <==> Signed(i)[0] == '-') && (j < 0 <==> Signed(j)[0] == '-');
    if i < 0 && j < 0 {
      assert Signed(i)[1..] == Decimal(-i) && Signed(j)[1..] == Decimal(-j);
    }
  }

  // ---- Taking a record id apart from the right ----

  predicate IsNumeral(s: string) {
    forall i | 0 <= i < |s| :: IsDigit(s[i]) || s[i] == '-'
  }

  predicate EndsInLetter(s: string) {
    s != [] && !IsDigit(s[|s| - 1]) && s[|s| - 1] != '-'
  }

  /** A numeral after a letter ends where the letter is. */
  lemma CutNumeral(p: string, a: string, q: string, b: string)
    requires p + a == q + b && IsNumeral(a) && IsNumeral(b) && EndsInLetter(p) && EndsInLetter(q)
    ensures p == q && a == b
  {
    var all := p + a;
    assert forall i | |p| <= i < |all| :: all[i] == a[i - |p|];
    assert forall i | |q| <= i < |all| :: all[i] == b[i - |q|];
    assert all[|p| - 1] == p[|p| - 1] && all[|q| - 1] == q[|q| - 1];
    assert all[..|p|] == p && all[..|q|] == q && all[|p|..] == a && all[|q|..] == b;
  }

  lemma SignedIsNumeral(i: int)
    ensures IsNumeral(Signed(i)) && Signed(i) != []
  {
  }

  lemma CutSuffix(p: string, q: string, suffix: string)
    requires p + suffix == q + suffix
    ensures p == q
  {
    assert (p + suffix)[..|p|] == p && (q + suffix)[..|q|] == q;
  }

  /** Whatever the run id, a minted id determines everything it was minted from. */
  lemma RecordIdIsInjective(run: string, shard: int, seed: int, attempt: nat, completion: nat,
                            run': string, shard': int, seed': int, attempt': nat, completion': nat)
    requires RecordId(run, shard, seed, attempt, completion) == RecordId(run', shard', seed', attempt', completion')
    ensures run == run' && shard == shard' && seed == seed' && attempt == attempt' && completion == completion'
  {
    var p, p' := ItemId(run, shard, seed), ItemId(run', shard', seed');
    CutNumeral(p + "-a" + Decimal(attempt) + "-c", Decimal(completion),
               p' + "-a" + Decimal(attempt') + "-c", Decimal(completion'));
    CutSuffix(p + "-a" + Decimal(attempt), p' + "-a" + Decimal(attempt'), "-c");
    CutNumeral(p + "-a", Decimal(attempt), p' + "-a", Decimal(attempt'));
    CutSuffix(p, p', "-a");
    ValueOfDecimal(completion);
    ValueOfDecimal(completion');
    ValueOfDecimal(attempt);
    ValueOfDecimal(attempt');
    ItemIdIsInjective(run, shard, seed, run', shard', seed');
  }

  lemma ItemIdIsInjective(run: string, shard: int, seed: int, run': string, shard': int, seed': int)
    requires ItemId(run, shard, seed) == ItemId(run', shard', seed')
    ensures run == run' && shard == shard' && seed == seed'
  {
    SignedIsNumeral(shard);
    SignedIsNumeral(shard');
    SignedIsNumeral(seed);
    SignedIsNumeral(seed');
    CutNumeral(run + "-s" + Signed(shard) + "-seed", Signed(seed),
               run' + "-s" + Signed(shard') + "-seed", Signed(seed'));
    CutSuffix(run + "-s" + Signed(shard), run' + "-s" + Signed(shard'), "-seed");
    CutNumeral(run + "-s", Signed(shard), run' + "-s", Signed(shard'));
    CutSuffix(run, run', "-s");
    SignedIsInjective(shard, shard');
    SignedIsInjective(seed, seed');
  }

  // ---- Round trips ----

  /** The last marker is the one before a tail without its letter. */
  lemma LastMarker(item: string, tail: string)
    requires forall i | 0 <= i < |tail| :: tail[i] != 'a'
    ensures SplitLast(item + "-a" + tail, "-a") == Some((item, tail))
  {
    var id := item + "-a" + tail;
    assert id[|item|..|item| + 2] == "-a" && IsAt(id, "-a", |item|);
    assert forall i | |item| + 2 <= i < |id| :: id[i] == tail[i - |item| - 2];
    forall j: nat | |item| < j ensures !IsAt(id, "-a", j) {
      if IsAt(id, "-a", j) { AtChar(id, "-a", j, 1); }
    }
    assert FindLast(id, "-a", |id| + 1) == Some(|item|);
    assert id[..|item|] == item && id[|item| + 2..] == tail;
  }

  /** Cutting at the last attempt marker gives back the item id, even if the run id holds a marker. */
  lemma RecordItemIdInverts(run: string, shard: int, seed: int, attempt: nat, completion: nat)
    ensures RecordItemId(RecordId(run, shard, seed, attempt, completion)) == Some(ItemId(run, shard, seed))
  {
    var item, tail := ItemId(run, shard, seed), Decimal(attempt) + "-c" + Decimal(completion);
    Regroup(item, "-a", Decimal(attempt), "-c", Decimal(completion));
    NoLetterA(attempt, completion);
    LastMarker(item, tail);
  }

  lemma NoLetterA(attempt: nat, completion: nat)
    ensures forall i | 0 <= i < |Decimal(attempt) + "-c" + Decimal(completion)| ::
              (Decimal(attempt) + "-c" + Decimal(completion))[i] != 'a'
  {
    var a, c := Decimal(attempt), Decimal(completion);
    assert forall i | 0 <= i < |a + "-c" + c| ::
      (a + "-c" + c)[i] == if i < |a| then a[i] else if i < |a| + 2 then "-c"[i - |a|] else c[i - |a| - 2];
  }

  lemma NumeralIsFree(s: string)
    requires IsNumeral(s)
    ensures Free(s, "-seed")
  {
    forall i: nat ensures !IsAt(s, "-seed", i) {
      if IsAt(s, "-seed", i) { AtChar(s, "-seed", i, 1); }
    }
  }

  lemma NumeralSplitsOff(s: string, rest: string)
    requires IsNumeral(s)
    ensures SplitOnce(s + "-seed" + rest, "-seed") == Some((s, rest))
  {
    NumeralIsFree(s);
    LeadingMark("-seed");
    FoundAfterFree(s, "-seed", rest);
  }

  /** The shard parser recovers the shard of every minted id of the run. */
  lemma ShardOfInverts(run: string, shard: int, seed: int, attempt: nat, completion: nat)
    requires IsI64(shard)
    ensures ShardOf(run, RecordId(run, shard, seed, attempt, completion)) == Some(shard)
  {
    var prefix, s := run + "-s", Signed(shard);
    var tail := "-a" + Decimal(attempt) + "-c" + Decimal(completion);
    var rest := Signed(seed) + tail;
    Regroup(ItemId(run, shard, seed), "-a", Decimal(attempt), "-c", Decimal(completion));
    Regroup(prefix, s, "-seed", Signed(seed), tail);
    assert s + "-seed" + Signed(seed) + tail == s + "-seed" + rest;
    StripsPrefix(prefix, s + "-seed" + rest);
    SignedIsNumeral(shard);
    NumeralSplitsOff(s, rest);
    ParseOfSigned(shard);
  }

  lemma Regroup(a: string, b: string, c: string, d: string, e: string)
    ensures a + b + c + d + e == a + (b + c + d + e)
    ensures a + b + c + d + e == a + b + (c + d + e)
  {
  }

  // ---- The shard partition ----

  datatype SeedItem<T> = SeedItem(seed: int, offset: nat, candidate: T)

  /** Two's-complement wrap of a signed 64-bit sum. */
  function Wrap(i: int): (w: int)
    ensures IsI64(w)
  {
    (i - I64_MIN) % (I64_MAX - I64_MIN + 1) + I64_MIN
  }

  /** The positions below `count` that a filter keeps, ascending. */
  function Filtered(count: nat, keep: nat -> bool): (at: seq<nat>)
    ensures forall i | 0 <= i < |at| :: at[i] < count && keep(at[i])
    ensures forall i, j | 0 <= i < j < |at| :: at[i] < at[j]
    ensures forall g: nat | g < count && keep(g) :: g in at
  {
    if count == 0 then []
    else
      var before := Filtered(count - 1, keep);
      if keep(count - 1) then before + [count - 1] else before
  }

  /** The global positions of one shard; a shard number is taken modulo the number of shards. */
  function Positions(count: nat, shards: nat, shard: int): seq<nat>
    requires shards > 0
  {
    Filtered(count, g => g % shards == shard % shards)
  }

  function ItemsForShard<T>(items: seq<T>, shards: nat, base: int, shard: int): seq<SeedItem<T>>
    requires shards > 0
  {
    var at := Positions(|items|, shards, shard);
    seq(|at|, offset requires 0 <= offset < |at| => SeedItem(Wrap(base + at[offset]), offset, items[at[offset]]))
  }

  lemma SmallMod(x: nat, n: nat)
    requires x < n
    ensures x % n == x
  {
  }

  /** Every item is in exactly one shard, once, under the offset of its turn there. */
  lemma ShardsPartition<T>(items: seq<T>, shards: nat, base: int, g: nat) returns (offset: nat)
    requires shards > 0 && g < |items|
    ensures forall shard: nat | shard < shards :: g in Positions(|items|, shards, shard) <==> shard == g % shards
    ensures offset < |ItemsForShard(items, shards, base, g % shards)|
    ensures ItemsForShard(items, shards, base, g % shards)[offset] == SeedItem(Wrap(base + g), offset, items[g])
    ensures forall o: nat | o < |ItemsForShard(items, shards, base, g % shards)| && o != offset ::
              Positions(|items|, shards, g % shards)[o] != g
  {
    forall shard: nat | shard < shards ensures g in Positions(|items|, shards, shard) <==> shard == g % shards {
      SmallMod(shard, shards);
    }
    var at := Positions(|items|, shards, g % shards);
    SmallMod(g % shards, shards);
    assert g in at;
    offset :| offset < |at| && at[offset] == g;
  }

  lemma WrapIsInjective(i: int, j: int)
    requires Wrap(i) == Wrap(j) && -(I64_MAX - I64_MIN) <= i - j <= I64_MAX - I64_MIN
    ensures i == j
  {
  }

  /** Different items of a run never share an item identity, whatever the base seed. */
  lemma ItemsAreDistinct(run: string, shard: int, shard': int, base: int, g: nat, h: nat)
    requires g <= I64_MAX && h <= I64_MAX
    requires ItemId(run, shard, Wrap(base + g)) == ItemId(run, shard', Wrap(base + h))
    ensures g == h
  {
    ItemIdIsInjective(run, shard, Wrap(base + g), run, shard', Wrap(base + h));
    WrapIsInjective(base + g, base + h);
  }
}
