/**
 What list_sort() of lib/kernel/list.c computes, on sequences: repeated passes
 that merge adjacent natural runs.  `less` is any strict weak order on the
 elements; the theorems are sortedness, stability, permutation, and that a pass
 over r runs leaves at most (r + 1) / 2.
 */
module MergeSort {
  import opened Common

  type Less<!T> = (T, T) -> bool

  /** less is a strict weak order on the elements of s. */
  ghost predicate StrictWeak<T>(less: Less<T>, s: set<T>) {
    && (forall x :: x in s ==> !less(x, x))
    && (forall x, y, z :: x in s && y in s && z in s && less(x, y) && less(y, z) ==> less(x, z))
    && (forall x, y, z :: x in s && y in s && z in s && Equiv(less, x, y) && Equiv(less, y, z) ==> Equiv(less, x, z))
  }

  predicate Equiv<T>(less: Less<T>, x: T, y: T) {
    !less(x, y) && !less(y, x)
  }

  /** "Not greater" is transitive. */
  lemma NotGreater<T>(less: Less<T>, s: set<T>, x: T, y: T, z: T)
    requires StrictWeak(less, s) && x in s && y in s && z in s
    requires !less(y, x) && !less(z, y)
    ensures !less(z, x)
  {
    assert less(x, y) || Equiv(less, x, y);
    assert less(y, z) || Equiv(less, y, z);
    assert less(z, x) && less(x, y) ==> less(z, y);
    assert less(y, z) && less(z, x) ==> less(y, x);
    assert Equiv(less, x, y) && Equiv(less, y, z) ==> Equiv(less, x, z);
  }

  ghost predicate Sorted<T>(less: Less<T>, s: seq<T>) {
    forall i, j :: 0 <= i < j < |s| ==> !less(s[j], s[i])
  }

  // ---------------------------------------------------------------------
  // The functions
  // ---------------------------------------------------------------------

  /** find_end_of_run(): the length of the first run. */
  function RunEnd<T>(less: Less<T>, s: seq<T>): (e: nat)
    requires s != []
    ensures 0 < e <= |s|
  {
    if |s| == 1 || less(s[1], s[0]) then 1 else 1 + RunEnd(less, s[1..])
  }

  /** inplace_merge() */
  function Merge<T>(less: Less<T>, a: seq<T>, b: seq<T>): (r: seq<T>)
    ensures |r| == |a| + |b|
  {
    if a == [] then b
    else if b == [] then a
    else if less(b[0], a[0]) then [b[0]] + Merge(less, a, b[1..])
    else [a[0]] + Merge(less, a[1..], b)
  }

  /** One pass of list_sort(): merge the runs two by two. */
  function Pass<T>(less: Less<T>, s: seq<T>): (r: seq<T>)
    ensures |r| == |s|
    decreases |s|
  {
    if s == [] then [] else
    var e := RunEnd(less, s);
    if e == |s| then s else
    var f := e + RunEnd(less, s[e..]);
    Merge(less, s[..e], s[e..f]) + Pass(less, s[f..])
  }

  /** output_run_cnt after that pass. */
  function PassRuns<T>(less: Less<T>, s: seq<T>): nat
    decreases |s|
  {
    if s == [] then 0 else
    var e := RunEnd(less, s);
    if e == |s| then 1 else
    var f := e + RunEnd(less, s[e..]);
    1 + PassRuns(less, s[f..])
  }

  /** The defining equations of Pass and PassRuns for two runs. */
  lemma PassDef<T>(less: Less<T>, s: seq<T>)
    requires s != [] && RunEnd(less, s) < |s|
    ensures var e := RunEnd(less, s); var f := e + RunEnd(less, s[e..]);
            f <= |s| && Pass(less, s) == Merge(less, s[..e], s[e..f]) + Pass(less, s[f..])
  {
    hide RunEnd, Merge, PassRuns;
    var e := RunEnd(less, s);
    var f := e + RunEnd(less, s[e..]);
    Split3(s, e, f);
  }

  lemma PassRunsDef<T>(less: Less<T>, s: seq<T>)
    requires s != [] && RunEnd(less, s) < |s|
    ensures var e := RunEnd(less, s); var f := e + RunEnd(less, s[e..]);
            f <= |s| && PassRuns(less, s) == 1 + PassRuns(less, s[f..])
  {
    var e := RunEnd(less, s);
    var f := e + RunEnd(less, s[e..]);
    Split3(s, e, f);
  }

  lemma PassParts<T>(less: Less<T>, s: seq<T>) returns (a: seq<T>, b: seq<T>, c: seq<T>)
    requires s != [] && RunEnd(less, s) < |s|
    ensures s == a + b + c && |a| == RunEnd(less, s) && b != [] && |b| == RunEnd(less, b + c)
    ensures Pass(less, s) == Merge(less, a, b) + Pass(less, c)
    ensures PassRuns(less, s) == 1 + PassRuns(less, c)
  {
    var e := RunEnd(less, s);
    var f := e + RunEnd(less, s[e..]);
    PassDef(less, s);
    PassRunsDef(less, s);
    Split3(s, e, f);
    a, b, c := s[..e], s[e..f], s[f..];
  }

  // ---------------------------------------------------------------------
  // Runs
  // ---------------------------------------------------------------------

  ghost function Descents<T>(less: Less<T>, s: seq<T>): nat {
    if |s| <= 1 then 0 else (if less(s[1], s[0]) then 1 else 0) + Descents(less, s[1..])
  }

  /** The number of natural runs. */
  ghost function Runs<T>(less: Less<T>, s: seq<T>): nat {
    if s == [] then 0 else 1 + Descents(less, s)
  }

  /** Cutting a sequence loses at most the descent at the cut. */
  lemma {:induction false} DescentsConcat<T>(less: Less<T>, a: seq<T>, b: seq<T>)
    requires a != [] && b != []
    ensures Descents(less, a + b)
         == Descents(less, a) + (if less(b[0], a[|a| - 1]) then 1 else 0) + Descents(less, b)
    decreases |a|
  {
    if |a| == 1 {
      assert (a + b)[1..] == b;
    } else {
      assert (a + b)[1..] == a[1..] + b;
      DescentsConcat(less, a[1..], b);
    }
  }

  lemma {:induction false} RunEndIsRun<T>(less: Less<T>, s: seq<T>)
    requires s != []
    ensures var e := RunEnd(less, s);
            && Descents(less, s[..e]) == 0
            && (e < |s| ==> less(s[e], s[e - 1]))
    decreases |s|
  {
    var e := RunEnd(less, s);
    if e > 1 {
      RunEndIsRun(less, s[1..]);
      assert s[..e][1..] == s[1..][..e - 1];
    }
  }

  lemma {:induction false} NoDescentsSorted<T>(less: Less<T>, s: seq<T>, u: set<T>)
    requires StrictWeak(less, u) && Elements(s) <= u && Descents(less, s) == 0
    ensures Sorted(less, s)
    decreases |s|
  {
    if |s| > 1 {
      assert forall x :: x in s[1..] ==> x in Elements(s);
      NoDescentsSorted(less, s[1..], u);
      forall j | 0 < j < |s| ensures !less(s[j], s[0]) {
        assert s[0] in Elements(s) && s[1] in Elements(s) && s[j] in Elements(s);
        if j > 1 {
          assert !less(s[1..][j - 1], s[1..][0]);
          NotGreater(less, u, s[0], s[1], s[j]);
        }
      }
    }
  }

  lemma {:induction false} SortedNoDescents<T>(less: Less<T>, s: seq<T>)
    requires Sorted(less, s)
    ensures Descents(less, s) == 0
    decreases |s|
  {
    if |s| > 1 { SortedNoDescents(less, s[1..]); }
  }

  /** A run ends exactly where the next one begins. */
  lemma RunsSplit<T>(less: Less<T>, s: seq<T>)
    requires s != []
    ensures var e := RunEnd(less, s); Runs(less, s) == 1 + Runs(less, s[e..])
  {
    var e := RunEnd(less, s);
    RunEndIsRun(less, s);
    if e < |s| {
      assert s == s[..e] + s[e..];
      DescentsConcat(less, s[..e], s[e..]);
    } else {
      assert s[..e] == s;
    }
  }

  /** A pass consumes the runs two by two. */
  lemma {:induction false} PassRunsHalf<T>(less: Less<T>, s: seq<T>)
    ensures PassRuns(less, s) == (Runs(less, s) + 1) / 2
    decreases |s|
  {
    if s != [] {
      var e := RunEnd(less, s);
      RunsSplit(less, s);
      if e < |s| {
        var f := e + RunEnd(less, s[e..]);
        RunsSplit(less, s[e..]);
        assert s[e..][f - e..] == s[f..];
        PassRunsHalf(less, s[f..]);
      }
    }
  }

  // ---------------------------------------------------------------------
  // Permutation and stability
  // ---------------------------------------------------------------------

  /** The elements of s equivalent to x, in their order in s. */
  ghost function Class<T>(less: Less<T>, s: seq<T>, x: T): seq<T> {
    if s == [] then [] else (if Equiv(less, s[0], x) then [s[0]] else []) + Class(less, s[1..], x)
  }

  /** r is a permutation of s that keeps equivalent elements in order. */
  ghost predicate StablePerm<T>(less: Less<T>, s: seq<T>, r: seq<T>) {
    multiset(r) == multiset(s) && forall x :: x in s ==> Class(less, r, x) == Class(less, s, x)
  }

  ghost function One<T>(less: Less<T>, y: T, x: T): seq<T> {
    if Equiv(less, y, x) then [y] else []
  }

  lemma ClassCons<T>(less: Less<T>, y: T, s: seq<T>, x: T)
    ensures Class(less, [y] + s, x) == One(less, y, x) + Class(less, s, x)
  {
    assert ([y] + s)[1..] == s;
  }

  lemma {:induction false} ClassConcat<T>(less: Less<T>, a: seq<T>, b: seq<T>, x: T)
    ensures Class(less, a + b, x) == Class(less, a, x) + Class(less, b, x)
    decreases |a|
  {
    if a == [] {
      assert a + b == b;
    } else {
      assert a + b == [a[0]] + (a[1..] + b);
      ClassCons(less, a[0], a[1..] + b, x);
      ClassConcat(less, a[1..], b, x);
      Assoc(One(less, a[0], x), Class(less, a[1..], x), Class(less, b, x));
    }
  }

  lemma Assoc<T>(h: seq<T>, a: seq<T>, b: seq<T>)
    ensures h + (a + b) == (h + a) + b
  {
  }

  lemma {:induction false} ClassNone<T>(less: Less<T>, s: seq<T>, x: T)
    requires forall y :: y in s ==> !Equiv(less, y, x)
    ensures Class(less, s, x) == []
    decreases |s|
  {
    if s != [] { ClassNone(less, s[1..], x); }
  }

  lemma ConsMultiset<T>(s: seq<T>)
    requires s != []
    ensures multiset(s) == multiset{s[0]} + multiset(s[1..])
  {
    assert s == [s[0]] + s[1..];
  }

  lemma {:induction false} MergePerm<T>(less: Less<T>, a: seq<T>, b: seq<T>)
    ensures multiset(Merge(less, a, b)) == multiset(a) + multiset(b)
    decreases |a| + |b|
  {
    if a != [] && b != [] {
      if less(b[0], a[0]) {
        MergePerm(less, a, b[1..]);
        ConsMultiset(b);
        assert Merge(less, a, b) == [b[0]] + Merge(less, a, b[1..]);
      } else {
        MergePerm(less, a[1..], b);
        ConsMultiset(a);
        assert Merge(less, a, b) == [a[0]] + Merge(less, a[1..], b);
      }
    }
  }

  lemma SameElements<T>(s: seq<T>, r: seq<T>)
    requires multiset(s) == multiset(r)
    ensures forall x :: x in s <==> x in r
  {
    forall x ensures x in s <==> x in r {
      assert x in multiset(s) <==> x in multiset(r);
    }
  }

  /** An element that merge takes from b is not equivalent to anything left in a. */
  lemma TakenFromSecond<T>(less: Less<T>, a: seq<T>, y: T, u: set<T>)
    requires StrictWeak(less, u) && Elements(a) <= u && y in u && a != [] && Sorted(less, a) && less(y, a[0])
    ensures forall z :: z in a ==> less(y, z)
  {
    forall z | z in a ensures less(y, z) {
      var i :| 0 <= i < |a| && a[i] == z;
      assert a[0] in Elements(a) && z in Elements(a);
      assert !less(z, a[0]);
      if !less(y, z) { NotGreater(less, u, a[0], z, y); }
    }
  }

  lemma {:induction false} MergeSorted<T>(less: Less<T>, a: seq<T>, b: seq<T>, u: set<T>)
    requires StrictWeak(less, u) && Elements(a) <= u && Elements(b) <= u && Sorted(less, a) && Sorted(less, b)
    ensures Sorted(less, Merge(less, a, b))
    decreases |a| + |b|
  {
    if a != [] && b != [] {
      assert a == [a[0]] + a[1..] && b == [b[0]] + b[1..];
      assert a[0] in Elements(a) && b[0] in Elements(b);
      if less(b[0], a[0]) {
        SubElements(b, 1, u);
        MergeSorted(less, a, b[1..], u);
        MergePerm(less, a, b[1..]);
        TakenFromSecond(less, a, b[0], u);
        ConsSorted(less, b[0], Merge(less, a, b[1..]), a, b[1..], u);
      } else {
        SubElements(a, 1, u);
        MergeSorted(less, a[1..], b, u);
        MergePerm(less, a[1..], b);
        forall z | z in b ensures !less(z, a[0]) {
          var j :| 0 <= j < |b| && b[j] == z;
          assert z in Elements(b);
          if j > 0 { NotGreater(less, u, a[0], b[0], z); }
        }
        ConsSorted(less, a[0], Merge(less, a[1..], b), a[1..], b, u);
      }
    }
  }

  lemma SubElements<T>(s: seq<T>, k: nat, u: set<T>)
    requires k <= |s| && Elements(s) <= u
    ensures Elements(s[k..]) <= u && Elements(s[..k]) <= u
  {
    forall x | x in s[k..] || x in s[..k] ensures x in u {
      assert x in Elements(s);
    }
  }

  lemma ConsSorted<T>(less: Less<T>, x: T, r: seq<T>, a: seq<T>, b: seq<T>, u: set<T>)
    requires StrictWeak(less, u) && Sorted(less, r) && multiset(r) == multiset(a) + multiset(b) && x in u
    requires Elements(a) <= u && Elements(b) <= u
    requires forall z :: z in a || z in b ==> !less(z, x)
    ensures Sorted(less, [x] + r)
  {
    forall z | z in r ensures !less(z, x) {
      assert z in multiset(r);
      assert z in multiset(a) || z in multiset(b);
    }
  }

  /** If y is equivalent to x, nothing in a is. */
  lemma SecondBeforeFirst<T>(less: Less<T>, a: seq<T>, y: T, u: set<T>, x: T)
    requires StrictWeak(less, u) && Elements(a) <= u && y in u && x in u && a != [] && Sorted(less, a) && less(y, a[0])
    ensures One(less, y, x) == [] || Class(less, a, x) == []
  {
    if Equiv(less, y, x) {
      TakenFromSecond(less, a, y, u);
      forall z | z in a ensures !Equiv(less, z, x) {
        assert z in Elements(a);
        assert Equiv(less, z, x) && Equiv(less, x, y) ==> Equiv(less, z, y);
      }
      ClassNone(less, a, x);
    }
  }

  lemma Regroup<T>(h: seq<T>, a: seq<T>, b: seq<T>)
    ensures h + (a + b) == (h + a) + b
    ensures h == [] || a == [] ==> h + (a + b) == a + (h + b)
  {
  }

  lemma {:induction false} MergeStable<T>(less: Less<T>, a: seq<T>, b: seq<T>, u: set<T>, x: T)
    requires StrictWeak(less, u) && Elements(a) <= u && Elements(b) <= u && Sorted(less, a) && x in u
    ensures Class(less, Merge(less, a, b), x) == Class(less, a, x) + Class(less, b, x)
    decreases |a| + |b|
  {
    if a != [] && b != [] {
      assert a[0] in Elements(a) && b[0] in Elements(b);
      if less(b[0], a[0]) {
        SubElements(b, 1, u);
        MergeStable(less, a, b[1..], u, x);
        ClassCons(less, b[0], Merge(less, a, b[1..]), x);
        SecondBeforeFirst(less, a, b[0], u, x);
        Regroup(One(less, b[0], x), Class(less, a, x), Class(less, b[1..], x));
      } else {
        SubElements(a, 1, u);
        MergeStable(less, a[1..], b, u, x);
        ClassCons(less, a[0], Merge(less, a[1..], b), x);
        Regroup(One(less, a[0], x), Class(less, a[1..], x), Class(less, b, x));
      }
    }
  }

  // ---------------------------------------------------------------------
  // Passes
  // ---------------------------------------------------------------------

  lemma StablePermTrans<T>(less: Less<T>, s: seq<T>, r: seq<T>, t: seq<T>)
    requires StablePerm(less, s, r) && StablePerm(less, r, t)
    ensures StablePerm(less, s, t)
  {
    SameElements(s, r);
  }

  lemma FirstRun<T>(less: Less<T>, s: seq<T>, u: set<T>)
    requires StrictWeak(less, u) && Elements(s) <= u && s != []
    ensures Sorted(less, s[..RunEnd(less, s)])
    ensures Elements(s[..RunEnd(less, s)]) <= u && Elements(s[RunEnd(less, s)..]) <= u
  {
    RunEndIsRun(less, s);
    SubElements(s, RunEnd(less, s), u);
    NoDescentsSorted(less, s[..RunEnd(less, s)], u);
  }

  /** The pieces of one iteration of a pass. */
  lemma PassPieces<T>(less: Less<T>, s: seq<T>, u: set<T>)
    requires StrictWeak(less, u) && Elements(s) <= u && s != [] && RunEnd(less, s) < |s|
    ensures var e := RunEnd(less, s); var f := e + RunEnd(less, s[e..]);
            && f <= |s| && s == s[..e] + s[e..f] + s[f..]
            && Sorted(less, s[..e]) && Sorted(less, s[e..f])
            && Elements(s[..e]) <= u && Elements(s[e..f]) <= u && Elements(s[f..]) <= u
            && Pass(less, s) == Merge(less, s[..e], s[e..f]) + Pass(less, s[f..])
            && PassRuns(less, s) == 1 + PassRuns(less, s[f..])
  {
    var e := RunEnd(less, s);
    FirstRun(less, s, u);
    var f := e + RunEnd(less, s[e..]);
    FirstRun(less, s[e..], u);
    Split3(s, e, f);
  }

  lemma Split3<T>(s: seq<T>, e: nat, f: nat)
    requires e <= f <= |s|
    ensures s[e..][..f - e] == s[e..f] && s[e..][f - e..] == s[f..] && s == s[..e] + s[e..f] + s[f..]
    ensures s[e..f] + s[f..] == s[e..]
  {
  }

  lemma {:induction false} PassPerm<T>(less: Less<T>, s: seq<T>, u: set<T>)
    requires StrictWeak(less, u) && Elements(s) <= u
    ensures multiset(Pass(less, s)) == multiset(s)
    decreases |s|
  {
    if s != [] && RunEnd(less, s) < |s| {
      PassPieces(less, s, u);
      var e := RunEnd(less, s);
      var f := e + RunEnd(less, s[e..]);
      MergePerm(less, s[..e], s[e..f]);
      PassPerm(less, s[f..], u);
    }
  }

  lemma {:induction false} PassClass<T>(less: Less<T>, s: seq<T>, u: set<T>, x: T)
    requires StrictWeak(less, u) && Elements(s) <= u && x in u
    ensures Class(less, Pass(less, s), x) == Class(less, s, x)
    decreases |s|
  {
    if s != [] && RunEnd(less, s) < |s| {
      PassPieces(less, s, u);
      var e := RunEnd(less, s);
      var f := e + RunEnd(less, s[e..]);
      MergeStable(less, s[..e], s[e..f], u, x);
      PassClass(less, s[f..], u, x);
      ClassConcat(less, Merge(less, s[..e], s[e..f]), Pass(less, s[f..]), x);
      ClassConcat(less, s[..e] + s[e..f], s[f..], x);
      ClassConcat(less, s[..e], s[e..f], x);
    }
  }

  lemma PassStable<T>(less: Less<T>, s: seq<T>, u: set<T>)
    requires StrictWeak(less, u) && Elements(s) <= u
    ensures StablePerm(less, s, Pass(less, s))
    ensures Elements(Pass(less, s)) <= u
  {
    var r := Pass(less, s);
    PassPerm(less, s, u);
    SameElements(s, r);
    forall x | x in s ensures Class(less, r, x) == Class(less, s, x) {
      assert x in Elements(s);
      PassClass(less, s, u, x);
    }
    assert Elements(r) == Elements(s);
  }

  /** The result of a pass has no more runs than the pass counted. */
  lemma {:induction false} PassReducesRuns<T>(less: Less<T>, s: seq<T>, u: set<T>)
    requires StrictWeak(less, u) && Elements(s) <= u
    ensures Runs(less, Pass(less, s)) <= PassRuns(less, s)
    decreases |s|
  {
    if s != [] {
      if RunEnd(less, s) < |s| {
        PassPieces(less, s, u);
        var e := RunEnd(less, s);
        var f := e + RunEnd(less, s[e..]);
        MergeSorted(less, s[..e], s[e..f], u);
        var m, rest := Merge(less, s[..e], s[e..f]), Pass(less, s[f..]);
        SortedNoDescents(less, m);
        PassReducesRuns(less, s[f..], u);
        if rest != [] { DescentsConcat(less, m, rest); } else { assert m + rest == m; }
      } else {
        RunEndIsRun(less, s);
        assert s[..|s|] == s;
      }
    }
  }

  /** A pass over r runs leaves at most ceil(r / 2). */
  lemma PassHalvesRuns<T>(less: Less<T>, s: seq<T>, u: set<T>)
    requires StrictWeak(less, u) && Elements(s) <= u
    ensures Runs(less, Pass(less, s)) <= PassRuns(less, s) == (Runs(less, s) + 1) / 2
  {
    PassReducesRuns(less, s, u);
    PassRunsHalf(less, s);
  }

  /** 2 to the power of n. */
  function Doublings(n: nat): nat {
    if n == 0 then 1 else 2 * Doublings(n - 1)
  }

  /** After p passes that started from s0 another is due, and s is what they left: if s0
      had at most 2^n runs, p is less than n and s has at most 2^(n - p). */
  ghost predicate Due<T>(less: Less<T>, s0: seq<T>, s: seq<T>, p: nat) {
    forall n: nat :: 1 <= n && Runs(less, s0) <= Doublings(n) ==> p < n && Runs(less, s) <= Doublings(n - p)
  }

  lemma DueAtFirst<T>(less: Less<T>, s: seq<T>)
    ensures Due(less, s, s, 0)
  {
  }

  /** So the loop of list_sort() ends after at most n passes over a list of at most 2^n
      runs (one pass, if there is one run only). */
  lemma DueOn<T>(less: Less<T>, s0: seq<T>, s: seq<T>, p: nat, u: set<T>)
    requires StrictWeak(less, u) && Elements(s) <= u && Due(less, s0, s, p)
    ensures PassRuns(less, s) > 1 ==> Due(less, s0, Pass(less, s), p + 1)
    ensures forall n: nat :: 1 <= n && Runs(less, s0) <= Doublings(n) ==> p + 1 <= n
  {
    PassHalvesRuns(less, s, u);
    if PassRuns(less, s) > 1 {
      forall n: nat | 1 <= n && Runs(less, s0) <= Doublings(n)
        ensures p + 1 < n && Runs(less, Pass(less, s)) <= Doublings(n - (p + 1))
      {
        assert Runs(less, s) <= Doublings(n - p) == 2 * Doublings(n - p - 1);
      }
    }
  }

  /** When a pass counted at most one run, its result is sorted. */
  lemma LastPassSorts<T>(less: Less<T>, s: seq<T>, u: set<T>)
    requires StrictWeak(less, u) && Elements(s) <= u && PassRuns(less, s) <= 1
    ensures Sorted(less, Pass(less, s))
  {
    PassReducesRuns(less, s, u);
    PassStable(less, s, u);
    NoDescentsSorted(less, Pass(less, s), u);
  }
}
