/**
 * The PHP string primitives that code preparation relies on: `trim` with its
 * default character set and `strpos` (first occurrence), over `seq<char>`.
 */
module PhpStrings {
  import opened Wrappers

  /** The characters PHP's `trim` strips by default: " \t\n\r\0\x0B". */
  predicate IsWs(c: char) {
    c == ' ' || c == '\t' || c == '\n' || c == '\r' || c == '\0' || c == '\U{B}'
  }

  predicate AllWs(s: string) {
    forall i :: 0 <= i < |s| ==> IsWs(s[i])
  }

  /** Number of leading trim characters of `s`. */
  function LeadingWs(s: string): (n: nat)
    ensures n <= |s|
  {
    if |s| > 0 && IsWs(s[0]) then 1 + LeadingWs(s[1..]) else 0
  }

  /** `LeadingWs` counts exactly the whitespace run that starts `s`. */
  lemma {:induction false} LeadingWsSpec(s: string)
    ensures forall k :: 0 <= k < LeadingWs(s) ==> IsWs(s[k])
    ensures LeadingWs(s) < |s| ==> !IsWs(s[LeadingWs(s)])
  {
    if |s| > 0 && IsWs(s[0]) {
      LeadingWsSpec(s[1..]);
      forall k | 0 < k < LeadingWs(s) ensures IsWs(s[k]) {
        assert s[k] == s[1..][k - 1];
      }
    }
  }

  /** Length of `s` once its trailing trim characters are cut off. */
  function TrailingCut(s: string): (n: nat)
    ensures n <= |s|
  {
    if |s| > 0 && IsWs(s[|s| - 1]) then TrailingCut(s[..|s| - 1]) else |s|
  }

  /** `TrailingCut` cuts exactly the whitespace run that ends `s`. */
  lemma {:induction false} TrailingCutSpec(s: string)
    ensures forall k :: TrailingCut(s) <= k < |s| ==> IsWs(s[k])
    ensures TrailingCut(s) > 0 ==> !IsWs(s[TrailingCut(s) - 1])
  {
    if |s| > 0 && IsWs(s[|s| - 1]) {
      var t := s[..|s| - 1];
      TrailingCutSpec(t);
      forall k | TrailingCut(s) <= k < |s| - 1 ensures IsWs(s[k]) {
        assert s[k] == t[k];
      }
      if TrailingCut(s) > 0 {
        assert s[TrailingCut(s) - 1] == t[TrailingCut(t) - 1];
      }
    }
  }

  /** PHP `ltrim($s)`. */
  function TrimLeft(s: string): string {
    s[LeadingWs(s)..]
  }

  /** PHP `rtrim($s)`. */
  function TrimRight(s: string): string {
    s[..TrailingCut(s)]
  }

  /**
   * `s[i..j]` is what remains of `s` once the trim characters at both ends are
   * stripped: everything outside is whitespace and, unless empty, the kept
   * slice starts and ends with a non-whitespace character.
   */
  ghost predicate TrimmedAt(s: string, i: int, j: int) {
    0 <= i <= j <= |s| &&
    (forall k :: 0 <= k < i ==> IsWs(s[k])) &&
    (forall k :: j <= k < |s| ==> IsWs(s[k])) &&
    (i < j ==> !IsWs(s[i]) && !IsWs(s[j - 1]))
  }

  /** Where the slice kept by `trim` ends. */
  function TrimEnd(s: string): nat {
    LeadingWs(s) + TrailingCut(s[LeadingWs(s)..])
  }

  /** `ltrim` then `rtrim` keeps exactly a trimmed slice. */
  lemma TrimBounds(s: string)
    ensures TrimmedAt(s, LeadingWs(s), TrimEnd(s))
  {
    var l := LeadingWs(s);
    var t := s[l..];
    var n := TrailingCut(t);
    LeadingWsSpec(s);
    TrailingCutSpec(t);
    forall k | l + n <= k < |s|
      ensures IsWs(s[k])
    {
      assert t[k - l] == s[k];
    }
    if n > 0 {
      assert s[l] == t[0] && s[l + n - 1] == t[n - 1];
    }
  }

  /** Two trimmed slices of the same string are the same slice. */
  lemma TrimmedAtUnique(s: string, i: int, j: int, l: int, e: int)
    requires TrimmedAt(s, i, j) && TrimmedAt(s, l, e)
    ensures s[i..j] == s[l..e]
  {
    if i < j && l < e {
      assert i == l && j == e;
    }
  }

  /** PHP `trim($s)` with the default character set. */
  function Trim(s: string): (r: string)
    ensures LeadingWs(s) <= TrimEnd(s) <= |s|
    ensures r == s[LeadingWs(s)..TrimEnd(s)]
  {
    var l := LeadingWs(s);
    assert s[l..][..TrailingCut(s[l..])] == s[l..l + TrailingCut(s[l..])];
    TrimRight(TrimLeft(s))
  }

  /** The characterisation of `Trim` is unique: any trimmed slice is `Trim(s)`. */
  lemma TrimUnique(s: string, i: int, j: int)
    requires TrimmedAt(s, i, j)
    ensures Trim(s) == s[i..j]
  {
    TrimBounds(s);
    TrimmedAtUnique(s, i, j, LeadingWs(s), TrimEnd(s));
  }

  /** Trimming a string that already has no whitespace at its ends changes nothing. */
  lemma TrimNoop(s: string)
    requires s == [] || (!IsWs(s[0]) && !IsWs(s[|s| - 1]))
    ensures Trim(s) == s
  {
    assert s[..0] == [] && s[|s|..] == [];
    TrimUnique(s, 0, |s|);
  }

  /** Non-whitespace characters at `a` and `b` stay inside what `trim` keeps. */
  lemma TrimWithinNonWs(s: string, a: int, b: int)
    requires 0 <= a <= b < |s| && !IsWs(s[a]) && !IsWs(s[b])
    ensures LeadingWs(s) <= a && b < TrimEnd(s)
  {
    TrimBounds(s);
  }

  /** A prefix that reaches past the first non-whitespace character has the same leading whitespace. */
  lemma {:induction false} LeadingWsPrefix(s: string, m: int, a: int)
    requires 0 <= a < m <= |s| && !IsWs(s[a])
    ensures LeadingWs(s[..m]) == LeadingWs(s)
    decreases a
  {
    if IsWs(s[0]) {
      assert s[..m][0] == s[0];
      assert s[..m][1..] == s[1..][..m - 1];
      LeadingWsPrefix(s[1..], m - 1, a - 1);
    } else {
      assert s[..m][0] == s[0];
    }
  }

  /** Cut after a non-whitespace character, a string trims to the cut less its leading whitespace. */
  lemma TrimPrefixToNonWs(s: string, a: int, e: int)
    requires 0 <= a < e <= |s| && !IsWs(s[a]) && !IsWs(s[e - 1])
    ensures LeadingWs(s) <= a
    ensures Trim(s[..e]) == s[LeadingWs(s)..e]
  {
    var h := s[..e];
    assert h[a] == s[a] && h[e - 1] == s[e - 1];
    TrimWithinNonWs(h, a, e - 1);
    LeadingWsPrefix(s, e, a);
    var n := LeadingWs(s);
    assert TrimEnd(h) == e;
    assert Trim(h) == h[n..e];
    SliceOfSlice(s, 0, e, n, e);
  }

  /** `trim` is idempotent. */
  lemma TrimIdempotent(s: string)
    ensures Trim(Trim(s)) == Trim(s)
  {
    var i, j := LeadingWs(s), TrimEnd(s);
    TrimBounds(s);
    TrimNoop(s[i..j]);
  }

  lemma {:induction false} LeadingWsAfterWs(w: string, x: string)
    requires AllWs(w)
    ensures LeadingWs(w + x) == |w| + LeadingWs(x)
  {
    if w != [] {
      assert (w + x)[0] == w[0];
      assert (w + x)[1..] == w[1..] + x;
      LeadingWsAfterWs(w[1..], x);
    } else {
      assert w + x == x;
    }
  }

  /** Whitespace in front of a string does not survive `trim`. */
  lemma TrimDropsLeadingWs(w: string, x: string)
    requires AllWs(w)
    ensures Trim(w + x) == Trim(x)
  {
    LeadingWsAfterWs(w, x);
    assert TrimLeft(w + x) == TrimLeft(x) by {
      assert (w + x)[|w| + LeadingWs(x)..] == x[LeadingWs(x)..];
    }
  }

  /** Whitespace after a string does not survive `trim`. */
  lemma TrimDropsTrailingWs(x: string, w: string)
    requires AllWs(w)
    ensures Trim(x + w) == Trim(x)
  {
    var i, j := LeadingWs(x), TrimEnd(x);
    TrimBounds(x);
    var s := x + w;
    forall k | 0 <= k < i ensures IsWs(s[k]) {
      assert s[k] == x[k];
    }
    forall k | j <= k < |s| ensures IsWs(s[k]) {
      if k < |x| { assert s[k] == x[k]; } else { assert s[k] == w[k - |x|]; }
    }
    assert s[i..j] == x[i..j];
    TrimUnique(s, i, j);
  }

  /** `pat` sits in `s` at index `k`. */
  predicate OccursAt(s: string, pat: string, k: int) {
    0 <= k && k + |pat| <= |s| && s[k..k + |pat|] == pat
  }

  predicate Contains(s: string, pat: string) {
    exists k :: 0 <= k <= |s| && OccursAt(s, pat, k)
  }

  /** The first occurrence of `pat` in `s` at or after index `from`. */
  function IndexOfFrom(s: string, pat: string, from: nat): (r: Option<nat>)
    ensures r.Some? ==> from <= r.value && OccursAt(s, pat, r.value)
    ensures r.Some? ==> forall k :: from <= k < r.value ==> !OccursAt(s, pat, k)
    ensures r.None? ==> forall k :: from <= k ==> !OccursAt(s, pat, k)
    decreases |s| - from
  {
    if from + |pat| > |s| then None
    else if s[from..from + |pat|] == pat then Some(from)
    else IndexOfFrom(s, pat, from + 1)
  }

  /** PHP `strpos($s, $pat)`: `None` stands for PHP's `false`. */
  function IndexOf(s: string, pat: string): (r: Option<nat>)
    ensures r.Some? ==> OccursAt(s, pat, r.value)
    ensures r.Some? ==> forall k :: 0 <= k < r.value ==> !OccursAt(s, pat, k)
    ensures r.None? <==> !Contains(s, pat)
  {
    IndexOfFrom(s, pat, 0)
  }

  /** An occurrence with none before it is the one `strpos` finds. */
  lemma IndexOfIs(s: string, pat: string, k: nat)
    requires OccursAt(s, pat, k)
    requires forall m :: 0 <= m < k ==> !OccursAt(s, pat, m)
    ensures IndexOf(s, pat) == Some(k)
  {
    assert Contains(s, pat);
  }

  lemma SliceOfSlice(s: string, i: int, j: int, a: int, b: int)
    requires 0 <= i <= j <= |s| && 0 <= a <= b <= j - i
    ensures s[i..j][a..b] == s[i + a..i + b]
  {
    forall m | 0 <= m < b - a ensures s[i..j][a..b][m] == s[i + a..i + b][m] {
      assert s[i..j][a..b][m] == s[i..j][a + m] == s[i + a + m];
    }
  }

  /** Each character covered by an occurrence is the pattern's character there. */
  lemma OccurrenceChars(s: string, pat: string, k: int)
    ensures OccursAt(s, pat, k) ==> forall m :: k <= m < k + |pat| ==> s[m] == pat[m - k]
  {
    if OccursAt(s, pat, k) {
      forall m | k <= m < k + |pat| ensures s[m] == pat[m - k] {
        assert s[k..k + |pat|][m - k] == s[m];
      }
    }
  }

  /** The first occurrence starts and ends with the pattern's first and last characters. */
  lemma FirstOccurrenceEnds(s: string, pat: string, k: nat)
    requires |pat| > 0 && IndexOf(s, pat) == Some(k)
    ensures k + |pat| <= |s| && s[k] == pat[0] && s[k + |pat| - 1] == pat[|pat| - 1]
  {
    assert s[k..k + |pat|][0] == s[k];
    assert s[k..k + |pat|][|pat| - 1] == s[k + |pat| - 1];
  }

  /**
   * A pattern without spaces cannot straddle a space: in `x + y`, where `x`
   * ends or `y` starts with a space, each occurrence lies wholly in one part.
   */
  lemma SplitAtSpace(x: string, y: string, pat: string, k: int)
    requires ' ' !in pat
    requires (|x| > 0 && x[|x| - 1] == ' ') || (|y| > 0 && y[0] == ' ')
    requires OccursAt(x + y, pat, k)
    ensures (k + |pat| <= |x| && OccursAt(x, pat, k)) || (k >= |x| && OccursAt(y, pat, k - |x|))
  {
    var s := x + y;
    OccurrenceChars(s, pat, k);
    if k + |pat| <= |x| {
      assert x == s[..|x|];
      SliceOfSlice(s, 0, |x|, k, k + |pat|);
    } else if k >= |x| {
      assert y == s[|x|..];
      SliceOfSlice(s, |x|, |s|, k - |x|, k - |x| + |pat|);
    }
  }

  /** An occurrence in a part is an occurrence in the whole. */
  lemma OccursInConcat(x: string, y: string, pat: string, k: int)
    ensures OccursAt(x, pat, k) ==> OccursAt(x + y, pat, k)
    ensures OccursAt(y, pat, k) ==> OccursAt(x + y, pat, |x| + k)
  {
    if OccursAt(x, pat, k) { assert (x + y)[k..k + |pat|] == x[k..k + |pat|]; }
    if OccursAt(y, pat, k) { assert (x + y)[|x| + k..|x| + k + |pat|] == y[k..k + |pat|]; }
  }

  /** An occurrence in a slice is an occurrence in the string it was cut from. */
  lemma OccursInSlice(s: string, i: int, j: int, pat: string, k: int)
    requires 0 <= i <= j <= |s|
    ensures OccursAt(s[i..j], pat, k) <==> (0 <= k && k + |pat| <= j - i && OccursAt(s, pat, i + k))
  {
    if 0 <= k && k + |pat| <= j - i {
      SliceOfSlice(s, i, j, k, k + |pat|);
    }
  }

  /** The first occurrence in a leading part is the first occurrence in the whole. */
  lemma IndexOfInPrefix(a: string, d: string, b: string, pat: string)
    requires IndexOf(a, pat).Some?
    ensures IndexOf(a + d + b, pat) == IndexOf(a, pat)
  {
    var k := IndexOf(a, pat).value;
    var s := a + d + b;
    assert s[k..k + |pat|] == a[k..k + |pat|];
    forall m | 0 <= m < k ensures !OccursAt(s, pat, m) {
      assert !OccursAt(a, pat, m);
      assert s[m..m + |pat|] == a[m..m + |pat|];
    }
    IndexOfIs(s, pat, k);
  }

  /** A pattern is its own first occurrence. */
  lemma IndexOfSelf(pat: string)
    ensures IndexOf(pat, pat) == Some(0)
  {
    assert pat[0..|pat|] == pat;
    IndexOfIs(pat, pat, 0);
  }

  /** When trimming a prefix that ends with the first occurrence of `pat` only drops leading characters, the trimmed prefix ends with its own first occurrence of `pat`. */
  lemma TrimmedThroughFirst(s: string, pat: string, p: nat, n: nat)
    requires IndexOf(s, pat) == Some(p) && n <= p
    requires Trim(s[..p + |pat|]) == s[n..p + |pat|]
    ensures var a := Trim(s[..p + |pat|]);
      |a| >= |pat| && IndexOf(a, pat) == Some(|a| - |pat|) && Trim(a) == a
  {
    IndexOfThroughFirst(s, pat, p, n);
    TrimIdempotent(s[..p + |pat|]);
  }

  /** A slice that starts at or before the first occurrence and ends with it finds it first too. */
  lemma IndexOfThroughFirst(s: string, pat: string, p: nat, n: nat)
    requires IndexOf(s, pat) == Some(p) && n <= p
    ensures IndexOf(s[n..p + |pat|], pat) == Some(p - n)
  {
    var j := p + |pat|;
    OccursInSlice(s, n, j, pat, p - n);
    forall m | 0 <= m < p - n ensures !OccursAt(s[n..j], pat, m) {
      OccursInSlice(s, n, j, pat, m);
    }
    IndexOfIs(s[n..j], pat, p - n);
  }

  /** A pattern found in a part is found in the whole. */
  lemma ContainsInConcat(x: string, y: string, pat: string)
    ensures Contains(x, pat) ==> Contains(x + y, pat)
    ensures Contains(y, pat) ==> Contains(x + y, pat)
  {
    if Contains(x, pat) {
      var k :| 0 <= k <= |x| && OccursAt(x, pat, k);
      OccursInConcat(x, y, pat, k);
    }
    if Contains(y, pat) {
      var k :| 0 <= k <= |y| && OccursAt(y, pat, k);
      OccursInConcat(x, y, pat, k);
    }
  }

  /** A pattern found on either side of a spaced splice is found in the result. */
  lemma ContainsInSplice(p: string, m: string, t: string, pat: string)
    ensures Contains(p, pat) ==> Contains(p + " " + m, pat)
    ensures Contains(p, pat) || Contains(t, pat) ==> Contains(p + " " + m + " " + t, pat)
  {
    ContainsInConcat(p, " " + m, pat);
    ContainsInConcat(p, " " + m + " ", pat);
    ContainsInConcat(p + " " + m + " ", t, pat);
    assert p + " " + m == p + (" " + m);
    assert p + " " + m + " " == p + (" " + m + " ");
  }

  /**
   * `trim` cuts only whitespace, so an occurrence of a pattern whose first and
   * last characters are not whitespace survives it.
   */
  lemma TrimKeepsOccurrence(s: string, pat: string, k: int)
    requires |pat| > 0 && !IsWs(pat[0]) && !IsWs(pat[|pat| - 1])
    requires OccursAt(s, pat, k)
    ensures Contains(Trim(s), pat)
  {
    var i, j := LeadingWs(s), TrimEnd(s);
    OccurrenceChars(s, pat, k);
    assert s[k] == pat[0] && s[k + |pat| - 1] == pat[|pat| - 1];
    TrimWithinNonWs(s, k, k + |pat| - 1);
    OccursInSlice(s, i, j, pat, k - i);
    assert OccursAt(Trim(s), pat, k - i);
  }

  /** An occurrence wholly before or wholly after a cut survives trimming that side. */
  lemma TrimSideKeeps(s: string, q: int, pat: string, k: int)
    requires |pat| > 0 && !IsWs(pat[0]) && !IsWs(pat[|pat| - 1])
    requires 0 <= q <= |s| && OccursAt(s, pat, k)
    ensures k + |pat| <= q ==> Contains(Trim(s[..q]), pat)
    ensures q <= k ==> Contains(Trim(s[q..]), pat)
  {
    if k + |pat| <= q {
      assert s[..q] == s[0..q];
      OccursInSlice(s, 0, q, pat, k);
      TrimKeepsOccurrence(s[..q], pat, k);
    }
    if q <= k {
      assert s[q..] == s[q..|s|];
      OccursInSlice(s, q, |s|, pat, k - q);
      TrimKeepsOccurrence(s[q..], pat, k - q);
    }
  }

  /** `trim` yields a slice, so it finds no pattern its input lacks. */
  lemma TrimAddsNoOccurrence(s: string, pat: string)
    requires !Contains(s, pat)
    ensures !Contains(Trim(s), pat)
  {
    var i, j := LeadingWs(s), TrimEnd(s);
    forall k | OccursAt(s[i..j], pat, k) ensures false {
      OccursInSlice(s, i, j, pat, k);
    }
  }

  /** The non-whitespace characters of `s`, in order. */
  function Squeeze(s: string): (r: string)
    ensures |r| <= |s|
  {
    if s == [] then []
    else (if IsWs(s[0]) then [] else [s[0]]) + Squeeze(s[1..])
  }

  lemma {:induction false} SqueezeConcat(x: string, y: string)
    ensures Squeeze(x + y) == Squeeze(x) + Squeeze(y)
  {
    if x != [] {
      assert (x + y)[0] == x[0];
      assert (x + y)[1..] == x[1..] + y;
      SqueezeConcat(x[1..], y);
      assert Squeeze(x + y) == (if IsWs(x[0]) then [] else [x[0]]) + Squeeze(x[1..] + y);
    } else {
      assert x + y == y;
    }
  }

  lemma {:induction false} SqueezeAllWs(w: string)
    requires AllWs(w)
    ensures Squeeze(w) == []
  {
    if w != [] { SqueezeAllWs(w[1..]); }
  }

  /** `trim` changes only whitespace. */
  lemma TrimSqueeze(s: string)
    ensures Squeeze(Trim(s)) == Squeeze(s)
  {
    var i, j := LeadingWs(s), TrimEnd(s);
    var w1, t, w2 := s[..i], s[i..j], s[j..];
    TrimBounds(s);
    assert AllWs(w1) by {
      forall k | 0 <= k < |w1| ensures IsWs(w1[k]) { assert w1[k] == s[k]; }
    }
    assert AllWs(w2) by {
      forall k | 0 <= k < |w2| ensures IsWs(w2[k]) { assert w2[k] == s[j + k]; }
    }
    assert s == w1 + t + w2;
    SqueezeConcat(w1 + t, w2);
    SqueezeConcat(w1, t);
    SqueezeAllWs(w1);
    SqueezeAllWs(w2);
  }

  /** A space between two parts only adds whitespace. */
  lemma SqueezeSpaced(p: string, t: string)
    ensures Squeeze(p + " " + t) == Squeeze(p) + Squeeze(t)
  {
    SqueezeConcat(p + " ", t);
    SqueezeConcat(p, " ");
    SqueezeAllWs(" ");
  }

  /** Spaces around a middle part only add whitespace. */
  lemma SqueezeSpacedTwice(p: string, m: string, t: string)
    ensures Squeeze(p + " " + m + " " + t) == Squeeze(p) + Squeeze(m) + Squeeze(t)
  {
    SqueezeSpaced(p + " " + m, t);
    SqueezeSpaced(p, m);
  }

  /** Trimming a part and joining another to it with a space changes only whitespace. */
  lemma SqueezeTrimmedAppend(a: string, b: string)
    ensures Squeeze(Trim(a) + " " + b) == Squeeze(a + b)
  {
    SqueezeSpaced(Trim(a), b);
    TrimSqueeze(a);
    SqueezeConcat(a, b);
  }

  /** Trimming two parts and joining them with a space changes only whitespace. */
  lemma SqueezeTrimmedJoin(a: string, b: string)
    ensures Squeeze(Trim(a) + " " + Trim(b)) == Squeeze(a + b)
  {
    SqueezeSpaced(Trim(a), Trim(b));
    TrimSqueeze(a);
    TrimSqueeze(b);
    SqueezeConcat(a, b);
  }

  /** Trimming two parts and joining them around a middle part with spaces changes only whitespace. */
  lemma SqueezeTrimmedSplice(a: string, m: string, b: string)
    ensures Squeeze(Trim(a) + " " + m + " " + Trim(b)) == Squeeze(a + m + b)
  {
    SqueezeSpacedTwice(Trim(a), m, Trim(b));
    TrimSqueeze(a);
    TrimSqueeze(b);
    SqueezeConcat(a + m, b);
    SqueezeConcat(a, m);
  }

  /**
   * In `p + x + t`, where `x` is padded with spaces and holds no character
   * that starts `pat`, `p` holds no `pat` and `t` starts with it, the first
   * `pat` is the one that starts `t`.
   */
  lemma FirstOccurrenceAfterGap(p: string, x: string, t: string, pat: string)
    requires |pat| > 0 && ' ' !in pat && pat[0] !in x
    requires |x| > 0 && x[0] == ' ' && x[|x| - 1] == ' '
    requires !Contains(p, pat) && OccursAt(t, pat, 0)
    ensures IndexOf(p + x + t, pat) == Some(|p| + |x|)
  {
    var r := p + (x + t);
    assert p + x + t == r;
    OccursInConcat(x, t, pat, 0);
    OccursInConcat(p, x + t, pat, |x|);
    forall m | 0 <= m < |p| + |x| ensures !OccursAt(r, pat, m) {
      if OccursAt(r, pat, m) {
        SplitAtSpace(p, x + t, pat, m);
        SplitAtSpace(x, t, pat, m - |p|);
        OccurrenceChars(x, pat, m - |p|);
      }
    }
    IndexOfIs(r, pat, |p| + |x|);
  }

  /** Appending a space-led string free of `pat`'s first character adds no `pat`. */
  lemma NoOccurrenceAfterGap(p: string, x: string, pat: string)
    requires |pat| > 0 && ' ' !in pat && pat[0] !in x
    requires |x| > 0 && x[0] == ' '
    requires !Contains(p, pat)
    ensures !Contains(p + x, pat)
  {
    forall m | OccursAt(p + x, pat, m) ensures false {
      SplitAtSpace(p, x, pat, m);
      OccurrenceChars(x, pat, m - |p|);
    }
  }
}
