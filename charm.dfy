/** The character matrices ("charms") of mapprox/src/class1.c and the
    counting pass count_chars that fills them.

    A charm of degree d is a d-level table with CHARM_LEN rows per level
    whose last level holds `unsigned` counters. The C builds it from nested
    pointer tables; here the tables are laid out one after the other in a
    single array, so the counter at index path [i0, i1, ..., i(d-1)] sits at
    the mixed-radix position i0 * 38^(d-1) + ... + i(d-1), which `Offset`
    computes. charm_get and charm_incr keep their recursion: each level
    selects the sub-table of its row. */
module Charm {
  import opened CTypes
  import opened CharIndex

  /** The number of counters under a table of `levels` levels: 38^levels. */
  function Span(levels: nat): (n: nat)
    ensures n >= 1
  {
    if levels == 0 then 1 else CHARM_LEN * Span(levels - 1)
  }

  /** An index path: one row per level, each below CHARM_LEN. */
  predicate IsPath(path: seq<nat>)
  {
    forall k :: 0 <= k < |path| ==> path[k] < CHARM_LEN
  }

  /** The position of the counter at `path` in the flattened tables. */
  function Offset(path: seq<nat>): (o: nat)
    requires IsPath(path)
    ensures o < Span(|path|)
  {
    if path == [] then 0
    else
      var w := Span(|path| - 1);
      var rest := Offset(path[1..]);
      RowBounds(path[0], w);
      path[0] * w + rest
  }

  /** Row `a` of a table whose sub-tables hold `w` counters each starts at
      a * w and ends before (a + 1) * w, inside the table. */
  lemma RowBounds(a: nat, w: nat)
    requires a < CHARM_LEN
    ensures a * w + w <= CHARM_LEN * w
  {
    MulLe(w, a + 1, CHARM_LEN);
    assert w * (a + 1) == w * a + w;
  }

  /** A position within rows of width w has one row and one column. */
  lemma DigitsAgree(a: nat, r: nat, b: nat, s: nat, w: nat)
    requires r < w && s < w
    requires a * w + r == b * w + s
    ensures a == b && r == s
  {
    var n := a * w + r;
    ModUnique(n, w, a, r);
    ModUnique(n, w, b, s);
    MulCancel(w, a, b);
  }

  lemma MulCancel(w: nat, a: nat, b: nat)
    requires w > 0 && a * w == b * w
    ensures a == b
  {
    if a < b {
      MulLe(w, a + 1, b);
      assert false;
    } else if b < a {
      MulLe(w, b + 1, a);
      assert false;
    }
  }

  /** Two counters at the same position have the same path. */
  lemma {:induction false} OffsetInjective(p: seq<nat>, q: seq<nat>)
    requires IsPath(p) && IsPath(q) && |p| == |q|
    requires Offset(p) == Offset(q)
    ensures p == q
  {
    if p != [] {
      var w := Span(|p| - 1);
      DigitsAgree(p[0], Offset(p[1..]), q[0], Offset(q[1..]), w);
      OffsetInjective(p[1..], q[1..]);
      assert p == [p[0]] + p[1..];
      assert q == [q[0]] + q[1..];
    }
  }

  /** charm_get on a table of |path| levels: the first row selects a
      sub-table, and the rest of the path is looked up in it. The counter it
      reaches is the one at the path's position. */
  function Lookup(table: seq<Unsigned>, path: seq<nat>): (r: Unsigned)
    requires IsPath(path) && |path| >= 1 && |table| == Span(|path|)
    ensures r == table[Offset(path)]
    decreases |path|
  {
    if |path| == 1 then table[path[0]]
    else
      var w := Span(|path| - 1);
      RowBounds(path[0], w);
      Lookup(table[path[0] * w .. path[0] * w + w], path[1..])
  }

  /** The counters after charm_incr at `path`: that counter goes up by one,
      wrapping as an `unsigned`. (A path outside the table changes nothing.) */
  function Bump(counts: seq<Unsigned>, path: seq<nat>): (r: seq<Unsigned>)
    ensures |r| == |counts|
  {
    if IsPath(path) && Offset(path) < |counts| then
      var o := Offset(path);
      counts[o := (counts[o] + 1) % UINT]
    else counts
  }

  /** charm_incr changes exactly one counter: the one at its path. */
  lemma BumpOnly(counts: seq<Unsigned>, path: seq<nat>, other: seq<nat>)
    requires IsPath(path) && IsPath(other) && |path| == |other|
    requires |counts| == Span(|path|)
    ensures |Bump(counts, path)| == |counts|
    ensures Bump(counts, path)[Offset(other)]
            == if other == path then (counts[Offset(other)] + 1) % UINT else counts[Offset(other)]
  {
    if other != path && Offset(other) == Offset(path) {
      OffsetInjective(other, path);
    }
  }

  /** The counters after incrementing at each path of `paths` in turn. */
  function ApplyAll(counts: seq<Unsigned>, paths: seq<seq<nat>>): (r: seq<Unsigned>)
    ensures |r| == |counts|
  {
    if paths == [] then counts
    else Bump(ApplyAll(counts, paths[..|paths| - 1]), paths[|paths| - 1])
  }

  lemma ApplySnoc(counts: seq<Unsigned>, paths: seq<seq<nat>>, path: seq<nat>)
    ensures ApplyAll(counts, paths + [path]) == Bump(ApplyAll(counts, paths), path)
  {
    assert (paths + [path])[..|paths|] == paths;
  }

  /** How often `path` occurs in `paths`. */
  function Occurrences(paths: seq<seq<nat>>, path: seq<nat>): nat
  {
    if paths == [] then 0
    else (if paths[0] == path then 1 else 0) + Occurrences(paths[1..], path)
  }

  lemma {:induction false} OccurrencesAppend(a: seq<seq<nat>>, b: seq<seq<nat>>, path: seq<nat>)
    ensures Occurrences(a + b, path) == Occurrences(a, path) + Occurrences(b, path)
  {
    if a == [] {
      assert a + b == b;
    } else {
      assert (a + b)[1..] == a[1..] + b;
      OccurrencesAppend(a[1..], b, path);
    }
  }

  /** Every path in `paths` addresses a counter of a `degree`-level table. */
  predicate AllPaths(paths: seq<seq<nat>>, degree: nat)
  {
    forall k :: 0 <= k < |paths| ==> |paths[k]| == degree && IsPath(paths[k])
  }

  /** After a run of increments, each counter has gone up by the number of
      increments at its path, modulo 2^32. */
  lemma {:induction false} ApplyAllCounts(counts: seq<Unsigned>, paths: seq<seq<nat>>, path: seq<nat>)
    requires IsPath(path) && |counts| == Span(|path|)
    requires AllPaths(paths, |path|)
    ensures |ApplyAll(counts, paths)| == |counts|
    ensures ApplyAll(counts, paths)[Offset(path)]
            == (counts[Offset(path)] + Occurrences(paths, path)) % UINT
  {
    if paths != [] {
      var init := paths[..|paths| - 1];
      AllPathsPrefix(paths, |path|);
      ApplyAllCounts(counts, init, path);
      ApplyAllStep(counts, paths, path);
    }
  }

  lemma AllPathsPrefix(paths: seq<seq<nat>>, degree: nat)
    requires paths != [] && AllPaths(paths, degree)
    ensures AllPaths(paths[..|paths| - 1], degree)
    ensures |paths[|paths| - 1]| == degree && IsPath(paths[|paths| - 1])
  {
  }

  /** The inductive step of ApplyAllCounts: one more increment, at the last
      path of `paths`. */
  lemma ApplyAllStep(counts: seq<Unsigned>, paths: seq<seq<nat>>, path: seq<nat>)
    requires paths != [] && IsPath(path) && |counts| == Span(|path|)
    requires IsPath(paths[|paths| - 1]) && |paths[|paths| - 1]| == |path|
    requires |ApplyAll(counts, paths[..|paths| - 1])| == |counts|
    requires ApplyAll(counts, paths[..|paths| - 1])[Offset(path)]
             == (counts[Offset(path)] + Occurrences(paths[..|paths| - 1], path)) % UINT
    ensures |ApplyAll(counts, paths)| == |counts|
    ensures ApplyAll(counts, paths)[Offset(path)]
            == (counts[Offset(path)] + Occurrences(paths, path)) % UINT
  {
    var init, last := paths[..|paths| - 1], paths[|paths| - 1];
    var before := ApplyAll(counts, init);
    assert ApplyAll(counts, paths) == Bump(before, last);
    BumpOnly(before, last, path);
    OccurrencesSnoc(paths, path);
    var o := Offset(path);
    if last == path {
      CountStep(ApplyAll(counts, paths)[o], before[o], counts[o], Occurrences(init, path),
                Occurrences(paths, path));
    }
  }

  /** The last path of `paths` adds one occurrence when it is `path`. */
  lemma OccurrencesSnoc(paths: seq<seq<nat>>, path: seq<nat>)
    requires paths != []
    ensures Occurrences(paths, path)
            == Occurrences(paths[..|paths| - 1], path) + (if paths[|paths| - 1] == path then 1 else 0)
  {
    var init, last := paths[..|paths| - 1], paths[|paths| - 1];
    assert paths == init + [last];
    var single := [last];
    OccurrencesAppend(init, single, path);
    assert single[1..] == [];
  }

  /** One more increment on top of a count kept modulo 2^32. */
  lemma CountStep(total: int, before: int, c: nat, occ: nat, all: nat)
    requires before == (c + occ) % UINT && total == (before + 1) % UINT
    requires all == occ + 1
    ensures total == (c + all) % UINT
  {
    ModAddLeft(c + occ, 1, UINT);
  }

  class Charm {
    /** The number of levels; every path has this many rows. */
    const degree: nat
    /** The counters of all last-level tables, in row-major order. */
    const counts: array<Unsigned>

    ghost predicate Valid()
    {
      degree >= 1 && counts.Length == Span(degree)
    }

    /** charm_create: a table of `degree` levels whose counters all start at
        0, because every level is allocated with calloc. (A degree of 0
        would make the C recurse without end.) */
    constructor Create(degree: nat)
      requires degree >= 1
      ensures Valid() && this.degree == degree && fresh(counts)
      ensures forall k :: 0 <= k < counts.Length ==> counts[k] == 0
    {
      this.degree := degree;
      counts := new Unsigned[Span(degree)](_ => 0);
    }

    /** charm_get: the counter at `path`. */
    function Get(path: seq<nat>): (r: Unsigned)
      requires Valid() && IsPath(path) && |path| == degree
      reads counts
      ensures r == counts[Offset(path)]
    {
      Lookup(counts[..], path)
    }

    /** charm_incr: add one to the counter at `path`, wrapping at 2^32. */
    method Incr(path: seq<nat>)
      requires Valid() && IsPath(path) && |path| == degree
      modifies counts
      ensures counts[..] == Bump(old(counts[..]), path)
    {
      IncrWithin(0, path);
    }

    /** One level of charm_incr's recursion: `base` is where the current
        sub-table starts; the last level increments its counter in place. */
    method IncrWithin(base: nat, path: seq<nat>)
      requires IsPath(path) && |path| >= 1 && base + Span(|path|) <= counts.Length
      modifies counts
      ensures var o := base + Offset(path);
              counts[..] == old(counts[..])[o := (old(counts[o]) + 1) % UINT]
      decreases |path|
    {
      if |path| == 1 {
        assert Offset(path) == path[0] by {
          assert path[1..] == [];
        }
        counts[base + path[0]] := (counts[base + path[0]] + 1) % UINT;
      } else {
        var w := Span(|path| - 1);
        RowBounds(path[0], w);
        assert Offset(path) == path[0] * w + Offset(path[1..]);
        IncrWithin(base + path[0] * w, path[1..]);
      }
    }
  }

  /** The `char` values count_chars stores for the bytes input[lo..hi]. */
  function Window(input: seq<Byte>, lo: nat, hi: nat): (r: seq<SignedChar>)
    requires lo <= hi <= |input|
    ensures |r| == hi - lo
    ensures forall k :: 0 <= k < hi - lo ==> r[k] == AsSignedChar(input[lo + k])
  {
    var r: seq<int> := seq(hi - lo, k requires 0 <= k < hi - lo => AsSignedChar(input[lo + k]));
    assert forall k :: 0 <= k < |r| ==> r[k] == AsSignedChar(input[lo + k]);
    r
  }

  /** Every character of the window has a row. */
  predicate AllLegal(w: seq<SignedChar>)
  {
    forall k :: 0 <= k < |w| ==> IsLegal(w[k])
  }

  /** The rows of a window of legal characters. */
  function Rows(w: seq<SignedChar>): (r: seq<nat>)
    requires AllLegal(w)
    ensures |r| == |w| && IsPath(r)
    ensures forall k :: 0 <= k < |w| ==> r[k] == C2Idx(w[k]) && r[k] <= SPACE_ROW
  {
    seq(|w|, k requires 0 <= k < |w| => C2Idx(w[k]))
  }

  /** The path of the grand total: [37, 0, ..., 0]. */
  function TotalPath(degree: nat): (p: seq<nat>)
    requires degree >= 1
    ensures |p| == degree && IsPath(p) && p[0] == CHARM_LEN - 1
  {
    [CHARM_LEN - 1] + seq(degree - 1, _ => 0)
  }

  /** The increments count_chars makes for one window of `degree`
      characters: none when a character has no row; otherwise the exact
      window, then (for degree > 1) its prefix with the last row replaced by
      the total row 37, then the grand total. */
  function WindowPaths(w: seq<SignedChar>): (r: seq<seq<nat>>)
    requires |w| >= 1
  {
    if !AllLegal(w) then []
    else
      var p := Rows(w);
      [p] + (if |w| > 1 then [p[..|w| - 1] + [CHARM_LEN - 1]] else []) + [TotalPath(|w|)]
  }

  /** The increments for the windows ending at positions degree .. n of
      the input, in reading order. */
  function PathsUpTo(input: seq<Byte>, degree: nat, n: nat): (r: seq<seq<nat>>)
    requires 1 <= degree && degree - 1 <= n <= |input|
    decreases n
  {
    if n == degree - 1 then []
    else PathsUpTo(input, degree, n - 1) + WindowPaths(Window(input, n - degree, n))
  }

  /** Each of a window's increments addresses a counter of a |w|-level
      table. */
  lemma WindowPathsAllPaths(w: seq<SignedChar>)
    requires |w| >= 1
    ensures AllPaths(WindowPaths(w), |w|)
  {
    if AllLegal(w) {
      var p := Rows(w);
      if |w| > 1 {
        var e := p[..|w| - 1] + [CHARM_LEN - 1];
        assert IsPath(e) by {
          forall k | 0 <= k < |e|
            ensures e[k] < CHARM_LEN
          {
            if k < |w| - 1 {
              assert e[k] == p[k];
            }
          }
        }
        assert WindowPaths(w) == [p, e, TotalPath(|w|)];
      } else {
        assert WindowPaths(w) == [p, TotalPath(|w|)];
      }
    }
  }

  lemma {:induction false} PathsUpToAllPaths(input: seq<Byte>, degree: nat, n: nat)
    requires 1 <= degree && degree - 1 <= n <= |input|
    ensures AllPaths(PathsUpTo(input, degree, n), degree)
    decreases n
  {
    if n > degree - 1 {
      var w := Window(input, n - degree, n);
      PathsUpToAllPaths(input, degree, n - 1);
      WindowPathsAllPaths(w);
      AllPathsAppend(PathsUpTo(input, degree, n - 1), WindowPaths(w), degree);
    }
  }

  lemma AllPathsAppend(a: seq<seq<nat>>, b: seq<seq<nat>>, degree: nat)
    requires AllPaths(a, degree) && AllPaths(b, degree)
    ensures AllPaths(a + b, degree)
  {
    var ab := a + b;
    forall k | 0 <= k < |ab|
      ensures |ab[k]| == degree && IsPath(ab[k])
    {
      if k < |a| {
        assert ab[k] == a[k];
      } else {
        assert ab[k] == b[k - |a|];
      }
    }
  }

  /** The EOF test of count_chars' first loop compares the `char` it stored
      with EOF, so a 0xFF byte among the first degree - 1 reads as the end. */
  predicate PrefixEnds(input: seq<Byte>, degree: nat)
  {
    exists k :: 0 <= k < degree - 1 && k < |input| && AsSignedChar(input[k]) == EOF
  }

  /** EOF as the C library defines it. */
  const EOF: int := -1

  /** Everything count_chars increments: nothing when the input ends (or
      seems to end) before degree - 1 characters have been read, otherwise
      the increments of every window. */
  function CountedPaths(input: seq<Byte>, degree: nat): (r: seq<seq<nat>>)
    requires degree >= 1
  {
    if |input| < degree - 1 || PrefixEnds(input, degree) then []
    else PathsUpTo(input, degree, |input|)
  }

  /** The counter at `path` takes one increment from window `w` when all of
      `w` has rows and `path` is its exact path, its any-ending path or the
      grand total. */
  predicate Feeds(w: seq<SignedChar>, path: seq<nat>)
    requires |w| >= 1
  {
    AllLegal(w) &&
    (path == Rows(w) ||
     (|w| > 1 && path == Rows(w)[..|w| - 1] + [CHARM_LEN - 1]) ||
     path == TotalPath(|w|))
  }

  /** The three counters of a legal window are distinct, so each window adds
      at most one to any counter. */
  lemma WindowOccurrences(w: seq<SignedChar>, path: seq<nat>)
    requires |w| >= 1
    ensures Occurrences(WindowPaths(w), path) == if Feeds(w, path) then 1 else 0
  {
    if AllLegal(w) {
      var p := Rows(w);
      var t := TotalPath(|w|);
      assert p != t by { assert p[0] != t[0]; }
      var r := WindowPaths(w);
      if |w| > 1 {
        var e := p[..|w| - 1] + [CHARM_LEN - 1];
        assert p != e by { assert p[|w| - 1] != e[|w| - 1]; }
        assert e != t by { assert e[0] != t[0]; }
        assert r == [p, e, t];
        assert r[1..] == [e, t] && r[1..][1..] == [t];
        assert Occurrences([e, t], path) == (if e == path then 1 else 0) + Occurrences([t], path);
        assert Occurrences([t], path) == if t == path then 1 else 0;
      } else {
        assert r == [p, t];
        assert r[1..] == [t];
        assert Occurrences([t], path) == if t == path then 1 else 0;
      }
    }
  }

  /** The number of windows ending at positions degree .. n that feed the
      counter at `path`. */
  function WindowsFeeding(input: seq<Byte>, degree: nat, n: nat, path: seq<nat>): nat
    requires 1 <= degree && degree - 1 <= n <= |input|
    decreases n
  {
    if n == degree - 1 then 0
    else WindowsFeeding(input, degree, n - 1, path)
         + (if Feeds(Window(input, n - degree, n), path) then 1 else 0)
  }

  /** The increments up to position n reach each counter once per window
      that feeds it. */
  lemma {:induction false} PathsUpToOccurrences(input: seq<Byte>, degree: nat, n: nat, path: seq<nat>)
    requires 1 <= degree && degree - 1 <= n <= |input|
    ensures Occurrences(PathsUpTo(input, degree, n), path) == WindowsFeeding(input, degree, n, path)
    decreases n
  {
    if n > degree - 1 {
      PathsUpToOccurrences(input, degree, n - 1, path);
      PathsUpToStep(input, degree, n, path);
    }
  }

  /** The window ending at position n adds one to the counter at `path`
      exactly when it feeds that counter. */
  lemma {:induction false} PathsUpToStep(input: seq<Byte>, degree: nat, n: nat, path: seq<nat>)
    requires 1 <= degree && degree - 1 < n <= |input|
    ensures Occurrences(PathsUpTo(input, degree, n), path)
            == Occurrences(PathsUpTo(input, degree, n - 1), path)
               + (if Feeds(Window(input, n - degree, n), path) then 1 else 0)
  {
    var w := Window(input, n - degree, n);
    OccurrencesAppend(PathsUpTo(input, degree, n - 1), WindowPaths(w), path);
    WindowOccurrences(w, path);
  }

  /** What count_chars leaves in each counter: its old value plus the
      number of windows of the input feeding it, modulo 2^32 (`unsigned`
      wraps around); nothing is added when the input ends, or seems to end,
      before the first window is complete. */
  lemma {:induction false} CountedPathsCounter(input: seq<Byte>, degree: nat, counts: seq<Unsigned>, path: seq<nat>)
    requires degree >= 1 && IsPath(path) && |path| == degree && |counts| == Span(degree)
    ensures |ApplyAll(counts, CountedPaths(input, degree))| == |counts|
    ensures ApplyAll(counts, CountedPaths(input, degree))[Offset(path)]
            == (counts[Offset(path)] + WindowsCounted(input, degree, path)) % UINT
  {
    CountedPathsOccurrences(input, degree, path);
    ApplyAllCounts(counts, CountedPaths(input, degree), path);
  }

  /** What count_chars increments addresses the table, and reaches the
      counter at `path` once per window counted into it. */
  lemma {:induction false} CountedPathsOccurrences(input: seq<Byte>, degree: nat, path: seq<nat>)
    requires degree >= 1 && IsPath(path) && |path| == degree
    ensures AllPaths(CountedPaths(input, degree), |path|)
    ensures Occurrences(CountedPaths(input, degree), path) == WindowsCounted(input, degree, path)
  {
    if !(|input| < degree - 1 || PrefixEnds(input, degree)) {
      PathsUpToAllPaths(input, degree, |input|);
      PathsUpToOccurrences(input, degree, |input|, path);
    }
  }

  /** The number of windows count_chars counts into the counter at `path`. */
  function WindowsCounted(input: seq<Byte>, degree: nat, path: seq<nat>): nat
    requires degree >= 1
  {
    if |input| < degree - 1 || PrefixEnds(input, degree) then 0
    else WindowsFeeding(input, degree, |input|, path)
  }


  lemma {:induction false} ApplyAllAppend(counts: seq<Unsigned>, a: seq<seq<nat>>, b: seq<seq<nat>>)
    ensures ApplyAll(counts, a + b) == ApplyAll(ApplyAll(counts, a), b)
    decreases |b|
  {
    if b == [] {
      assert a + b == a;
    } else {
      var init := b[..|b| - 1];
      assert a + b == (a + init) + [b[|b| - 1]];
      ApplySnoc(counts, a + init, b[|b| - 1]);
      ApplySnoc(ApplyAll(counts, a), init, b[|b| - 1]);
      assert b == init + [b[|b| - 1]];
      ApplyAllAppend(counts, a, init);
    }
  }

  /** count_chars' history step: every slot takes its successor's
      character and the newest character goes into the last slot. */
  method ShiftIn(hist: array<SignedChar>, c: SignedChar)
    requires hist.Length >= 1
    modifies hist
    ensures hist[..] == old(hist[..])[1..] + [c]
  {
    var n := hist.Length;
    for k := 0 to n - 1
      invariant forall m :: 0 <= m < k ==> hist[m] == old(hist[m + 1])
      invariant forall m :: k <= m < n ==> hist[m] == old(hist[m])
    {
      hist[k] := hist[k + 1];
    }
    hist[n - 1] := c;
  }

  /** count_chars' conversion step: the rows of the history go into `idx`
      until a character without a row is met, which skips the window. */
  method ToRows(hist: array<SignedChar>, idx: array<nat>) returns (legal: bool)
    requires idx.Length == hist.Length
    modifies idx
    ensures legal == AllLegal(hist[..])
    ensures legal ==> idx[..] == Rows(hist[..])
  {
    var k := 0;
    while k < hist.Length
      invariant k <= hist.Length
      invariant forall m :: 0 <= m < k ==> IsLegal(hist[m]) && idx[m] == C2Idx(hist[m])
    {
      idx[k] := C2Idx(hist[k]);
      if idx[k] == SIZE_MAX {
        return false;
      }
      k := k + 1;
    }
    legal := true;
  }

  /** `idx[0] = CHARM_LEN - 1` followed by the memset of the other slots:
      `idx` becomes the path of the grand total. */
  method SetTotalPath(idx: array<nat>)
    requires idx.Length >= 1
    modifies idx
    ensures idx[..] == TotalPath(idx.Length)
  {
    idx[0] := CHARM_LEN - 1;
    forall j | 1 <= j < idx.Length {
      idx[j] := 0;
    }
  }

  /** count_chars' counting step for a window whose rows are in `idx`: the
      exact counter, then (degree > 1) the one with the last row replaced
      by 37, then the grand total [37, 0, ..., 0]. */
  method CountWindow(charm: Charm, idx: array<nat>, ghost window: seq<SignedChar>)
    requires charm.Valid() && |window| == charm.degree
    requires AllLegal(window) && idx[..] == Rows(window)
    modifies charm.counts, idx
    ensures charm.counts[..] == ApplyAll(old(charm.counts[..]), WindowPaths(window))
  {
    var degree := charm.degree;
    ghost var rows := Rows(window);
    ghost var counts0 := charm.counts[..];
    ghost var done: seq<seq<nat>> := [];
    // Increment no. exact occurrences.
    var path := idx[..];
    charm.Incr(path);
    ApplySnoc(counts0, done, path);
    done := done + [path];
    if degree > 1 {
      // Increment no. occurrences with any ending.
      idx[degree - 1] := CHARM_LEN - 1;
      path := idx[..];
      ghost var ending := rows[..degree - 1] + [CHARM_LEN - 1];
      assert path == ending;
      assert IsPath(ending);
      charm.Incr(path);
      ApplySnoc(counts0, done, path);
      done := done + [path];
    }
    // Increment no. all total occurrences.
    SetTotalPath(idx);
    path := idx[..];
    charm.Incr(path);
    ApplySnoc(counts0, done, path);
    done := done + [path];
    assert done == WindowPaths(window);
  }

  /** The history after reading the byte at `pos`: the window ending there,
      and its tail is the history kept for the next byte. */
  lemma SlideWindow(input: seq<Byte>, degree: nat, pos: nat, tail: seq<SignedChar>)
    requires 1 <= degree && degree - 1 <= pos < |input|
    requires tail == Window(input, pos + 1 - degree, pos)
    ensures tail + [AsSignedChar(input[pos])] == Window(input, pos + 1 - degree, pos + 1)
    ensures (tail + [AsSignedChar(input[pos])])[1..] == Window(input, pos + 1 + 1 - degree, pos + 1)
  {
  }

  /** One more window read: its increments follow the earlier ones. */
  lemma PathsUpToNext(input: seq<Byte>, degree: nat, pos: nat, window: seq<SignedChar>)
    requires 1 <= degree && degree - 1 <= pos < |input|
    requires window == Window(input, pos + 1 - degree, pos + 1)
    ensures PathsUpTo(input, degree, pos + 1) == PathsUpTo(input, degree, pos) + WindowPaths(window)
  {
  }

  /** count_chars' first loop: read degree - 1 characters into hist[1..],
      giving up at the end of the input or at a character equal to EOF. */
  method FillPrefix(input: seq<Byte>, hist: array<SignedChar>) returns (full: bool)
    requires hist.Length >= 1
    modifies hist
    ensures full <==> hist.Length - 1 <= |input| && !PrefixEnds(input, hist.Length)
    ensures full ==> hist[1..] == Window(input, 0, hist.Length - 1)
  {
    var i := 0;
    while i < hist.Length - 1
      invariant i <= hist.Length - 1 && i <= |input|
      invariant forall k :: 0 <= k < i ==> hist[1 + k] == AsSignedChar(input[k]) != EOF
    {
      if i == |input| {
        return false;
      }
      hist[1 + i] := AsSignedChar(input[i]);
      if hist[1 + i] == EOF {
        assert PrefixEnds(input, hist.Length);
        return false;
      }
      i := i + 1;
    }
    assert hist[1..] == Window(input, 0, hist.Length - 1);
    return true;
  }

  /** One turn of count_chars' main loop after a character is read: shift
      it into the history and count the window if all of it has rows. */
  method CountNext(charm: Charm, hist: array<SignedChar>, idx: array<nat>, c: SignedChar)
    requires charm.Valid() && hist.Length == charm.degree && idx.Length == charm.degree
    requires (hist as object) != (charm.counts as object) && (hist as object) != (idx as object)
    modifies charm.counts, hist, idx
    ensures hist[..] == old(hist[1..]) + [c]
    ensures charm.counts[..] == ApplyAll(old(charm.counts[..]), WindowPaths(old(hist[1..]) + [c]))
  {
    ShiftIn(hist, c);
    ghost var window := hist[..];
    assert window == old(hist[1..]) + [c];
    var legal := ToRows(hist, idx);
    if legal {
      CountWindow(charm, idx, window);
    } else {
      assert WindowPaths(window) == [];
    }
  }

  /** Where count_chars' main loop stands before reading the byte at `pos`:
      hist[1..] holds the degree - 1 characters before it, and the counters
      hold the increments of every window ending before it. */
  ghost predicate Progress(input: seq<Byte>, charm: Charm, hist: array<SignedChar>,
                           counts0: seq<Unsigned>, pos: nat)
    reads charm.counts, hist
    requires 1 <= charm.degree <= pos + 1 <= |input| + 1 && hist.Length == charm.degree
  {
    hist[1..] == Window(input, pos + 1 - charm.degree, pos)
    && charm.counts[..] == ApplyAll(counts0, PathsUpTo(input, charm.degree, pos))
  }

  /** The main loop's turn at byte `pos`: count the window ending there and
      move the history on by one byte. */
  method CountAt(input: seq<Byte>, pos: nat, charm: Charm, hist: array<SignedChar>, idx: array<nat>,
                 ghost counts0: seq<Unsigned>)
    requires charm.Valid() && hist.Length == charm.degree && idx.Length == charm.degree
    requires (hist as object) != (charm.counts as object) && (hist as object) != (idx as object)
    requires charm.degree - 1 <= pos < |input|
    requires Progress(input, charm, hist, counts0, pos)
    modifies charm.counts, hist, idx
    ensures Progress(input, charm, hist, counts0, pos + 1)
  {
    var degree := charm.degree;
    ghost var tail := hist[1..];
    SlideWindow(input, degree, pos, tail);
    ghost var window := tail + [AsSignedChar(input[pos])];
    CountNext(charm, hist, idx, AsSignedChar(input[pos]));
    assert hist[1..] == window[1..];
    ghost var done := PathsUpTo(input, degree, pos);
    ApplyAllAppend(counts0, done, WindowPaths(window));
    PathsUpToNext(input, degree, pos, window);
  }

  /** count_chars(input, charm, degree): keep the last `degree` characters
      in `hist`, and for every window whose characters all have rows
      increment its exact counter, its any-ending counter (degree > 1) and
      the grand total. Reading the file becomes a walk over `input`. */
  method CountChars(input: seq<Byte>, charm: Charm, degree: nat)
    requires charm.Valid() && degree == charm.degree
    modifies charm.counts
    ensures charm.counts[..] == ApplyAll(old(charm.counts[..]), CountedPaths(input, degree))
  {
    var hist := new SignedChar[degree](_ => 0);
    var idx := new nat[degree](_ => 0);
    var full := FillPrefix(input, hist);
    if full {
      ProgressStarts(input, charm, hist);
      CountWindows(input, charm, hist, idx);
    }
  }

  /** Once the first degree - 1 characters are in hist[1..], the main loop
      starts at position degree - 1 with no window counted. */
  lemma ProgressStarts(input: seq<Byte>, charm: Charm, hist: array<SignedChar>)
    requires 1 <= charm.degree <= |input| + 1 && hist.Length == charm.degree
    requires hist[1..] == Window(input, 0, charm.degree - 1)
    ensures Progress(input, charm, hist, charm.counts[..], charm.degree - 1)
  {
    assert PathsUpTo(input, charm.degree, charm.degree - 1) == [];
  }

  /** count_chars' main loop: read the rest of the input one byte at a time,
      counting the window that ends at each byte. */
  method CountWindows(input: seq<Byte>, charm: Charm, hist: array<SignedChar>, idx: array<nat>)
    requires charm.Valid() && hist.Length == charm.degree && idx.Length == charm.degree
    requires (hist as object) != (charm.counts as object) && (hist as object) != (idx as object)
    requires charm.degree - 1 <= |input|
    requires Progress(input, charm, hist, charm.counts[..], charm.degree - 1)
    modifies charm.counts, hist, idx
    ensures Progress(input, charm, hist, old(charm.counts[..]), |input|)
  {
    ghost var counts0 := charm.counts[..];
    var pos := charm.degree - 1;
    while pos < |input|
      invariant charm.degree - 1 <= pos <= |input|
      invariant Progress(input, charm, hist, counts0, pos)
    {
      CountAt(input, pos, charm, hist, idx, counts0);
      pos := pos + 1;
    }
  }
}
