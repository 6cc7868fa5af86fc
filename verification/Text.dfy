/** Searching and splitting strings. */
module Text {
  import opened Common

  predicate IsAt(s: string, pat: string, i: nat) {
    i + |pat| <= |s| && s[i..i + |pat|] == pat
  }

  lemma AtChar(s: string, pat: string, i: nat, k: nat)
    requires IsAt(s, pat, i) && k < |pat|
    ensures s[i + k] == pat[k]
  {
    assert s[i..i + |pat|][k] == s[i + k];
  }

  /** The first occurrence at `i` or later. */
  function FindFrom(s: string, pat: string, i: nat): (r: Option<nat>)
    ensures r.Some? ==> i <= r.value && IsAt(s, pat, r.value)
    ensures forall j | i <= j && (r.Some? ==> j < r.value) :: !IsAt(s, pat, j)
    decreases |s| - i
  {
    if i + |pat| > |s| then None
    else if s[i..i + |pat|] == pat then Some(i)
    else if i == |s| then None
    else FindFrom(s, pat, i + 1)
  }

  function Find(s: string, pat: string): Option<nat> {
    FindFrom(s, pat, 0)
  }

  /** The last occurrence below `i`. */
  function FindLast(s: string, pat: string, i: nat): (r: Option<nat>)
    ensures r.Some? ==> r.value < i && IsAt(s, pat, r.value)
    ensures forall j: nat | j < i && (r.Some? ==> j > r.value) :: !IsAt(s, pat, j)
  {
    if i == 0 then None else if IsAt(s, pat, i - 1) then Some(i - 1) else FindLast(s, pat, i - 1)
  }

  function StripPrefix(s: string, prefix: string): Option<string> {
    if |prefix| <= |s| && s[..|prefix|] == prefix then Some(s[|prefix|..]) else None
  }

  /** The parts before and after the first occurrence. */
  function SplitOnce(s: string, pat: string): Option<(string, string)> {
    match Find(s, pat)
    case Some(i) => Some((s[..i], s[i + |pat|..]))
    case None => None
  }

  /** The parts before and after the last occurrence. */
  function SplitLast(s: string, pat: string): Option<(string, string)> {
    match FindLast(s, pat, |s| + 1)
    case Some(i) => Some((s[..i], s[i + |pat|..]))
    case None => None
  }

  /** No proper prefix of the pattern is also a suffix of it. */
  ghost predicate Unbordered(pat: string) {
    pat != [] && forall k | 0 < k < |pat| :: pat[k..] != pat[..|pat| - k]
  }

  /** A pattern whose first character does not occur again has no border. */
  lemma LeadingMark(pat: string)
    requires pat != [] && forall k | 0 < k < |pat| :: pat[k] != pat[0]
    ensures Unbordered(pat)
  {
    forall k | 0 < k < |pat| ensures pat[k..] != pat[..|pat| - k] {
      assert pat[k..][0] == pat[k] && pat[..|pat| - k][0] == pat[0];
    }
  }

  ghost predicate Free(s: string, pat: string) {
    forall i: nat :: !IsAt(s, pat, i)
  }

  /** An unbordered delimiter after a text free of it is first found right there. */
  lemma FoundAfterFree(s: string, pat: string, rest: string)
    requires Unbordered(pat) && Free(s, pat)
    ensures Find(s + pat + rest, pat) == Some(|s|)
    ensures (s + pat + rest)[..|s|] == s && (s + pat + rest)[|s| + |pat|..] == rest
  {
    var all := s + pat + rest;
    assert all == s + (pat + rest);
    assert all[|s|..|s| + |pat|] == pat && IsAt(all, pat, |s|);
    forall i: nat | i < |s| ensures !IsAt(all, pat, i) {
      if IsAt(all, pat, i) {
        if i + |pat| <= |s| { InsidePrefix(s, pat + rest, pat, i); } else { Overlap(all, pat, i, |s|); }
      }
    }
  }

  /** In a text that is not free of the delimiter, the first one comes early. */
  lemma FoundEarly(s: string, pat: string, rest: string)
    requires !Free(s, pat) && pat != []
    ensures Find(s + rest, pat).Some? && Find(s + rest, pat).value + |pat| <= |s|
  {
    var i: nat :| IsAt(s, pat, i);
    assert (s + rest)[i..i + |pat|] == s[i..i + |pat|];
    assert IsAt(s + rest, pat, i);
  }

  lemma InsideTake(s: string, end: nat, pat: string, i: nat)
    requires end <= |s| && IsAt(s[..end], pat, i)
    ensures IsAt(s, pat, i) && i + |pat| <= end
  {
    assert s[i..i + |pat|] == s[..end][i..i + |pat|];
  }

  /** What lies before the first occurrence is free of the delimiter. */
  lemma FreeBeforeFound(s: string, pat: string)
    requires pat != "" && Find(s, pat).Some?
    ensures var end := Find(s, pat).value;
            end + |pat| <= |s| && s == s[..end] + pat + s[end + |pat|..] && Free(s[..end], pat)
  {
    var end := Find(s, pat).value;
    forall i: nat ensures !IsAt(s[..end], pat, i) {
      if IsAt(s[..end], pat, i) { InsideTake(s, end, pat, i); }
    }
  }

  lemma InsidePrefix(s: string, rest: string, pat: string, i: nat)
    requires i + |pat| <= |s| && IsAt(s + rest, pat, i)
    ensures IsAt(s, pat, i)
  {
    assert s[i..i + |pat|] == (s + rest)[i..i + |pat|];
  }

  /** Two overlapping occurrences make a border. */
  lemma Overlap(s: string, pat: string, i: nat, j: nat)
    requires IsAt(s, pat, i) && IsAt(s, pat, j) && i < j < i + |pat|
    ensures pat[j - i..] == pat[..|pat| - (j - i)]
  {
    assert pat[j - i..] == s[j..i + |pat|] == pat[..|pat| - (j - i)];
  }

  lemma StripsPrefix(prefix: string, rest: string)
    ensures StripPrefix(prefix + rest, prefix) == Some(rest)
  {
    assert (prefix + rest)[..|prefix|] == prefix && (prefix + rest)[|prefix|..] == rest;
  }
}
