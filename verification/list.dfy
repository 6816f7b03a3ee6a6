/**
 The doubly linked lists of lib/kernel/list.c: elements with `prev` and `next`,
 a head and a tail sentinel, updated in place.

 A ghost sequence w holds the nodes of a list from head to tail (or of two lists,
 one after the other, joined at position `cut`).
 */
module Lists {
  import opened Common
  import opened MergeSort

  class Elem {
    var prev: Elem?
    var next: Elem?

    constructor () { prev, next := null, null; }
  }

  /** Neighbours in w point at each other, except across the joint after w[cut]. */
  ghost predicate Linked(w: seq<Elem>, cut: int)
    reads w
  {
    && (forall i {:trigger w[i].next} :: 0 <= i < |w| - 1 && i != cut ==> w[i].next == w[i + 1])
    && (forall i {:trigger w[i].prev} :: 0 < i < |w| && i - 1 != cut ==> w[i].prev == w[i - 1])
  }

  /** Every node occurs once. */
  ghost predicate Once(w: seq<Elem>) {
    forall e {:trigger multiset(w)[e]} :: e in w ==> multiset(w)[e] == 1
  }

  lemma OnceNoDup(w: seq<Elem>)
    requires Once(w)
    ensures NoDup(w)
  {
    forall i, j | 0 <= i < j < |w| ensures w[i] != w[j] {
      assert w == w[..i] + [w[i]] + w[i + 1..j] + [w[j]] + w[j + 1..];
      assert multiset(w)[w[i]] == 1;
    }
  }

  /** w is a list, from sentinel to sentinel. */
  ghost predicate Chain(w: seq<Elem>, cut: int)
    reads w
  {
    Once(w) && Linked(w, cut)
  }

  /** Where position x comes from when the block [i, j) of a sequence moves in
      front of position k. */
  ghost function Source(k: nat, i: nat, j: nat, x: int): int
    requires i <= j && (k <= i || j <= k)
  {
    if k <= i then
      if k <= x < k + (j - i) then x - k + i else if k + (j - i) <= x < j then x - (j - i) else x
    else
      if i <= x < i + (k - j) then x - i + j else if i + (k - j) <= x < k then x - (k - j) else x
  }

  /** w with the block [i, j) moved in front of position k. */
  ghost function Moved<T>(w: seq<T>, k: nat, i: nat, j: nat): (r: seq<T>)
    requires i <= j <= |w| && k <= |w| && (k <= i || j <= k)
    ensures |r| == |w|
  {
    seq(|w|, x requires 0 <= x < |w| => w[Source(k, i, j, x)])
  }

  lemma MovedConcat<T>(w: seq<T>, k: nat, i: nat, j: nat)
    requires i <= j <= |w| && k <= |w| && (k <= i || j <= k)
    ensures k <= i ==> Moved(w, k, i, j) == w[..k] + w[i..j] + w[k..i] + w[j..]
    ensures k > i ==> Moved(w, k, i, j) == w[..i] + w[j..k] + w[i..j] + w[k..]
  {
  }

  lemma SwapPerm<T>(w: seq<T>, a: seq<T>, b: seq<T>, c: seq<T>, d: seq<T>)
    requires w == a + b + c + d
    ensures multiset(a + c + b + d) == multiset(w)
  {
  }

  lemma Split4<T>(w: seq<T>, i: nat, j: nat, k: nat)
    requires i <= j <= k <= |w|
    ensures w == w[..i] + w[i..j] + w[j..k] + w[k..]
  {
  }

  /** Moving a block permutes. */
  lemma MovedPerm<T>(w: seq<T>, k: nat, i: nat, j: nat)
    requires i <= j <= |w| && k <= |w| && (k <= i || j <= k)
    ensures multiset(Moved(w, k, i, j)) == multiset(w)
  {
    MovedConcat(w, k, i, j);
    if k <= i {
      Split4(w, k, i, j);
      SwapPerm(w, w[..k], w[k..i], w[i..j], w[j..]);
    } else {
      Split4(w, i, j, k);
      SwapPerm(w, w[..i], w[i..j], w[j..k], w[k..]);
    }
  }

  lemma MovedOnce(w: seq<Elem>, k: nat, i: nat, j: nat)
    requires Once(w) && i <= j <= |w| && k <= |w| && (k <= i || j <= k)
    ensures Once(Moved(w, k, i, j))
  {
    MovedPerm(w, k, i, j);
    forall e | e in Moved(w, k, i, j) ensures e in w { assert e in multiset(w); }
  }

  /** is_interior() and is_tail(), which list_insert() and others assert. */
  predicate IsInterior(e: Elem)
    reads e
  {
    e.prev != null && e.next != null
  }

  predicate IsTail(e: Elem)
    reads e
  {
    e.prev != null && e.next == null
  }

  lemma InsertedOnce(w: seq<Elem>, e: Elem, k: nat)
    requires Once(w) && k <= |w| && e !in w
    ensures Once(w[..k] + [e] + w[k..])
  {
    var r := w[..k] + [e] + w[k..];
    assert w == w[..k] + w[k..];
    assert multiset(r) == multiset(w) + multiset{e};
    forall x | x in r ensures multiset(r)[x] == 1 {
      if x != e { assert x in w; assert multiset(w)[x] == 1; }
    }
  }

  lemma RemovedOnce(w: seq<Elem>, k: nat)
    requires Once(w) && k < |w|
    ensures Once(w[..k] + w[k + 1..])
    ensures w[k] !in w[..k] + w[k + 1..]
  {
    var r := w[..k] + w[k + 1..];
    assert w == w[..k] + [w[k]] + w[k + 1..];
    assert multiset(w) == multiset(r) + multiset{w[k]};
    assert multiset(w)[w[k]] == 1;
    forall x | x in r ensures multiset(r)[x] == 1 {
      assert x in multiset(r);
      assert x in w && multiset(w)[x] == 1;
    }
    assert w[k] !in multiset(r);
  }

  /** list_insert() */
  method ListInsert(before: Elem, elem: Elem, ghost w: seq<Elem>, ghost k: nat)
    requires Chain(w, -1) && 0 < k < |w| && w[k] == before && elem !in w
    modifies before`prev, before.prev`next, elem
    ensures Chain(w[..k] + [elem] + w[k..], -1)
    ensures w[0].prev == old(w[0].prev) && w[|w| - 1].next == old(w[|w| - 1].next)
  {
    OnceNoDup(w);
    assert IsInterior(before) || IsTail(before);
    InsertedOnce(w, elem, k);
    elem.prev := before.prev;
    elem.next := before;
    before.prev.next := elem;
    before.prev := elem;
  }

  /** list_remove() */
  method ListRemove(elem: Elem, ghost w: seq<Elem>, ghost k: nat) returns (r: Elem)
    requires Chain(w, -1) && 0 < k < |w| - 1 && w[k] == elem
    modifies elem.prev`next, elem.next`prev
    ensures Chain(w[..k] + w[k + 1..], -1) && r == w[k + 1]
    ensures w[0].prev == old(w[0].prev) && w[|w| - 1].next == old(w[|w| - 1].next)
  {
    OnceNoDup(w);
    assert IsInterior(elem);
    RemovedOnce(w, k);
    elem.prev.next := elem.next;
    elem.next.prev := elem.prev;
    r := elem.next;
  }

  /** Where the joint of w is found after the move. */
  ghost function MovedCut(cut: int, k: nat, i: nat, j: nat): int {
    if k <= i then
      (if k <= cut < i then cut + (j - i) else cut)
    else
      (if j <= cut < k then cut - (j - i) else cut)
  }

  /** The pointer changes of a splice: everything as in w, except around the two
      ends of the block and the place it moves to. */
  ghost predicate Spliced(w: seq<Elem>, cut: int, k: nat, i: nat, j: nat)
    requires 0 < i < j < |w| && 0 < k < |w| && (k < i || j <= k)
    reads w
  {
    var p := if k == j then i - 1 else k - 1;
    && (k != j ==> w[i - 1].next == w[j] && w[j].prev == w[i - 1])
    && w[j - 1].next == w[k] && w[k].prev == w[j - 1]
    && w[p].next == w[i] && w[i].prev == w[p]
    && (forall x {:trigger w[x].next} :: 0 <= x < |w| - 1 && x != cut && x != i - 1 && x != j - 1 && x != k - 1 ==>
          w[x].next == w[x + 1])
    && (forall x {:trigger w[x].prev} :: 0 < x < |w| && x - 1 != cut && x != i && x != j && x != k ==>
          w[x].prev == w[x - 1])
  }

  lemma SplicedLinked(w: seq<Elem>, cut: int, k: nat, i: nat, j: nat)
    requires 0 < i < j < |w| && 0 < k < |w| && (k < i || j <= k)
    requires !(i - 1 <= cut < j) && cut != k - 1 && Spliced(w, cut, k, i, j)
    ensures Linked(Moved(w, k, i, j), MovedCut(cut, k, i, j))
  {
    if k == j {
      MovedNowhere(w, cut, i, j);
      SplicedNowhere(w, cut, i, j);
    } else {
      SplicedElsewhere(w, cut, k, i, j);
    }
  }

  lemma MovedNowhere(w: seq<Elem>, cut: int, i: nat, j: nat)
    requires i <= j <= |w|
    ensures Moved(w, j, i, j) == w && MovedCut(cut, j, i, j) == cut
  {
  }

  lemma SplicedNowhere(w: seq<Elem>, cut: int, i: nat, j: nat)
    requires 0 < i < j < |w| && !(i - 1 <= cut < j) && Spliced(w, cut, j, i, j)
    ensures Linked(w, cut)
  {
  }

  lemma SplicedNext(w: seq<Elem>, cut: int, k: nat, i: nat, j: nat, x: nat)
    requires 0 < i < j < |w| && 0 < k < |w| && (k < i || j < k)
    requires !(i - 1 <= cut < j) && cut != k - 1 && Spliced(w, cut, k, i, j)
    requires x < |w| - 1 && x != MovedCut(cut, k, i, j)
    ensures w[Source(k, i, j, x)].next == w[Source(k, i, j, x + 1)]
  {
  }

  lemma SplicedPrev(w: seq<Elem>, cut: int, k: nat, i: nat, j: nat, x: nat)
    requires 0 < i < j < |w| && 0 < k < |w| && (k < i || j < k)
    requires !(i - 1 <= cut < j) && cut != k - 1 && Spliced(w, cut, k, i, j)
    requires 0 < x < |w| && x - 1 != MovedCut(cut, k, i, j)
    ensures w[Source(k, i, j, x)].prev == w[Source(k, i, j, x - 1)]
  {
  }

  lemma SplicedElsewhere(w: seq<Elem>, cut: int, k: nat, i: nat, j: nat)
    requires 0 < i < j < |w| && 0 < k < |w| && (k < i || j < k)
    requires !(i - 1 <= cut < j) && cut != k - 1 && Spliced(w, cut, k, i, j)
    ensures Linked(Moved(w, k, i, j), MovedCut(cut, k, i, j))
  {
    hide Spliced, Source, MovedCut;
    var r, c := Moved(w, k, i, j), MovedCut(cut, k, i, j);
    forall x {:trigger r[x].next} | 0 <= x < |r| - 1 && x != c ensures r[x].next == r[x + 1] {
      SplicedNext(w, cut, k, i, j, x);
    }
    forall x {:trigger r[x].prev} | 0 < x < |r| && x - 1 != c ensures r[x].prev == r[x - 1] {
      SplicedPrev(w, cut, k, i, j, x);
    }
  }

  lemma MovedNothing(w: seq<Elem>, cut: int, k: nat, i: nat)
    requires i <= |w| && k <= |w|
    ensures Moved(w, k, i, i) == w && MovedCut(cut, k, i, i) == cut
  {
  }

  /** list_splice(): the block from first up to but not including last moves in
      front of `before`, which is outside the block but may be in another list. */
  method ListSplice(before: Elem, first: Elem, last: Elem, ghost w: seq<Elem>, ghost cut: int,
                    ghost k: nat, ghost i: nat, ghost j: nat)
    requires Chain(w, cut) && 0 < i <= j < |w| && 0 < k < |w| && (k < i || j <= k)
    requires w[k] == before && w[i] == first && w[j] == last
    requires !(i - 1 <= cut < j) && cut != k - 1
    modifies first.prev`next, last`prev, first`prev, last.prev`next, before.prev`next, before`prev
    ensures Chain(Moved(w, k, i, j), MovedCut(cut, k, i, j))
    ensures w[0].prev == old(w[0].prev) && w[|w| - 1].next == old(w[|w| - 1].next)
  {
    hide Moved, Source;
    OnceNoDup(w);
    assert IsInterior(before) || IsTail(before);
    if first == last {
      MovedNothing(w, cut, k, i);
      return;
    }
    var lst := last.prev;
    assert IsInterior(first) && IsInterior(lst);
    // cleanly remove first..lst from its current list
    first.prev.next := lst.next;
    lst.next.prev := first.prev;
    // splice first..lst into the new list
    first.prev := before.prev;
    lst.next := before;
    before.prev.next := first;
    before.prev := lst;
    SplicedLinked(w, cut, k, i, j);
    MovedOnce(w, k, i, j);
  }

  // ---------------------------------------------------------------------
  // Sorting
  // ---------------------------------------------------------------------

  /** find_end_of_run() */
  method FindEndOfRun(a: Elem, b: Elem, less: Less<Elem>, ghost w: seq<Elem>, ghost i: nat, ghost j: nat)
    returns (r: Elem, ghost e: nat)
    requires Chain(w, -1) && i < j < |w| && w[i] == a && w[j] == b
    ensures e == i + RunEnd(less, w[i..j]) && i < e <= j && r == w[e]
  {
    r, e := a.next, i + 1;
    assert w[i..j][0..] == w[i..j];
    while r != b && !less(r, r.prev)
      invariant i < e <= j && r == w[e]
      invariant RunEnd(less, w[i..j]) == e - 1 - i + RunEnd(less, w[i..j][e - 1 - i..])
      decreases j - e
    {
      assert w[i..j][e - 1 - i..][1..] == w[i..j][e - i..];
      r, e := r.next, e + 1;
    }
    SamePosition(w, e, j);
  }

  /** The arrangement that inplace_merge() ends with when it stands at x and y. */
  ghost function MergeSteps(less: Less<Elem>, r: seq<Elem>, x: nat, y: nat, m: nat): (t: seq<Elem>)
    requires x <= y <= m <= |r|
    ensures |t| == |r|
    decreases m - x
  {
    if x == y || y == m then r
    else if !less(r[y], r[x]) then MergeSteps(less, r, x + 1, y, m)
    else MergeSteps(less, Moved(r, x, y, y + 1), x + 1, y + 1, m)
  }

  /** Those steps compute Merge on the two ranges and touch nothing else. */
  lemma {:induction false} MergeStepsMerge(less: Less<Elem>, p: seq<Elem>, a: seq<Elem>, b: seq<Elem>, z: seq<Elem>)
    ensures MergeSteps(less, p + a + b + z, |p|, |p + a|, |p + a + b|) == p + Merge(less, a, b) + z
    decreases |a| + |b|
  {
    var r := p + a + b + z;
    if a == [] || b == [] {
    } else if !less(b[0], a[0]) {
      StepFirst(p, a, b, z);
      MergeStepsMerge(less, p + [a[0]], a[1..], b, z);
      assert Merge(less, a, b) == [a[0]] + Merge(less, a[1..], b);
      Regroup4(p, [a[0]], Merge(less, a[1..], b), z);
    } else {
      StepSecond(p, a, b, z);
      MergeStepsMerge(less, p + [b[0]], a, b[1..], z);
      assert Merge(less, a, b) == [b[0]] + Merge(less, a, b[1..]);
      Regroup4(p, [b[0]], Merge(less, a, b[1..]), z);
    }
  }

  lemma MergeStepsAt(less: Less<Elem>, w: seq<Elem>, x: nat, y: nat, m: nat, p: seq<Elem>, a: seq<Elem>,
      b: seq<Elem>, z: seq<Elem>)
    requires w == p + a + b + z && x == |p| && y == x + |a| && m == y + |b|
    ensures MergeSteps(less, w, x, y, m) == p + Merge(less, a, b) + z
  {
    assert |p + a| == y && |p + a + b| == m;
    MergeStepsMerge(less, p, a, b, z);
  }

  lemma StepFirst(p: seq<Elem>, a: seq<Elem>, b: seq<Elem>, z: seq<Elem>)
    requires a != [] && b != []
    ensures p + a + b + z == p + [a[0]] + a[1..] + b + z
    ensures |p + [a[0]]| == |p| + 1 && |p + [a[0]] + a[1..]| == |p + a| && |p + [a[0]] + a[1..] + b| == |p + a + b|
    ensures (p + a + b + z)[|p|] == a[0] && (p + a + b + z)[|p + a|] == b[0]
  {
    assert a == [a[0]] + a[1..];
  }

  lemma StepSecond(p: seq<Elem>, a: seq<Elem>, b: seq<Elem>, z: seq<Elem>)
    requires a != [] && b != []
    ensures Moved(p + a + b + z, |p|, |p + a|, |p + a| + 1) == p + [b[0]] + a + b[1..] + z
    ensures |p + [b[0]]| == |p| + 1 && |p + [b[0]] + a| == |p + a| + 1 && |p + [b[0]] + a + b[1..]| == |p + a + b|
    ensures (p + a + b + z)[|p|] == a[0] && (p + a + b + z)[|p + a|] == b[0]
  {
    var r := p + a + b + z;
    MovedConcat(r, |p|, |p + a|, |p + a| + 1);
    assert r[..|p|] == p && r[|p + a|..|p + a| + 1] == [b[0]] && r[|p|..|p + a|] == a;
    assert r[|p + a| + 1..] == b[1..] + z;
  }

  lemma Regroup4<T>(p: seq<T>, h: seq<T>, m: seq<T>, z: seq<T>)
    ensures p + h + m + z == p + (h + m) + z
  {
  }

  lemma SamePosition(r: seq<Elem>, x: nat, y: nat)
    requires Once(r) && x < |r| && y < |r|
    ensures r[x] == r[y] <==> x == y
  {
    OnceNoDup(r);
  }

  lemma MovedOneNodes(r: seq<Elem>, x: nat, y: nat)
    requires 0 < x < y < |r| - 1
    ensures var t := Moved(r, x, y, y + 1);
            && t[0] == r[0] && t[x + 1] == r[x] && t[y + 1] == r[y + 1] && t[|t| - 1] == r[|r| - 1]
            && (forall z :: y < z < |r| ==> t[z] == r[z]) && MovedCut(-1, x, y, y + 1) == -1
            && multiset(t) == multiset(r)
  {
    MovedPerm(r, x, y, y + 1);
  }

  /** The two statements of inplace_merge() that move one node of the second range
      in front of a0, and step past it. */
  method MoveInFront(a0: Elem, a1b0: Elem, ghost r: seq<Elem>, ghost x: nat, ghost y: nat) returns (next: Elem)
    requires Chain(r, -1) && 0 < x < y < |r| - 1 && a0 == r[x] && a1b0 == r[y]
    modifies r
    ensures var t := Moved(r, x, y, y + 1);
            && Chain(t, -1) && multiset(t) == multiset(r)
            && next == t[y + 1] && t[x + 1] == a0
            && t[0].prev == old(r[0].prev) && t[|t| - 1].next == old(r[|r| - 1].next)
            && forall z :: y < z < |r| ==> t[z] == r[z]
  {
    MovedOneNodes(r, x, y);
    next := a1b0.next;
    ListSplice(a0, next.prev, next, r, -1, x, y, y + 1);
  }

  /** inplace_merge(): the nodes of the two ranges, relinked in merged order. */
  method InplaceMerge(a: Elem, ab: Elem, b1: Elem, less: Less<Elem>, ghost w: seq<Elem>,
                      ghost p: nat, ghost q: nat, ghost m: nat) returns (ghost r: seq<Elem>)
    requires Chain(w, -1) && 0 < p <= q <= m < |w| && w[p] == a && w[q] == ab && w[m] == b1
    modifies w
    ensures Chain(r, -1) && r == MergeSteps(less, w, p, q, m)
    ensures r[0].prev == old(w[0].prev) && r[|r| - 1].next == old(w[|w| - 1].next)
  {
    hide Moved;
    ghost var x, y := p, q;
    r := w;
    var a0, a1b0 := a, ab;
    while a0 != a1b0 && a1b0 != b1
      invariant 0 < p <= x <= y <= m < |r| == |w|
      invariant Chain(r, -1) && multiset(r) == multiset(w)
      invariant a0 == r[x] && a1b0 == r[y] && b1 == r[m]
      invariant MergeSteps(less, r, x, y, m) == MergeSteps(less, w, p, q, m)
      invariant r[0].prev == old(w[0].prev) && r[|r| - 1].next == old(w[|w| - 1].next)
      decreases m - x
    {
      if !less(a1b0, a0) {
        a0, x := a0.next, x + 1;
      } else {
        SameNodes(w, r);
        a1b0 := MoveInFront(a0, a1b0, r, x, y);
        r, x, y := Moved(r, x, y, y + 1), x + 1, y + 1;
      }
    }
    SamePosition(r, x, y);
    SamePosition(r, y, m);
  }

  lemma SameNodes(w: seq<Elem>, r: seq<Elem>)
    requires multiset(w) == multiset(r) && |w| == |r| > 0
    ensures forall k :: 0 <= k < |r| ==> r[k] in w
  {
    forall k | 0 <= k < |r| ensures r[k] in w { assert r[k] in multiset(r); }
  }

  /** The end of the run that starts at x, in a list whose tail is at n. */
  ghost function End(less: Less<Elem>, w: seq<Elem>, x: nat, n: nat): (e: nat)
    requires x < n <= |w|
    ensures x < e <= n
  {
    x + RunEnd(less, w[x..n])
  }

  lemma MidSlice<T>(w: seq<T>, p: seq<T>, s: seq<T>, z: seq<T>)
    requires w == p + s + z
    ensures w[|p|..|p| + |s|] == s
  {
  }

  lemma Cat5<T>(p: seq<T>, a: seq<T>, b: seq<T>, c: seq<T>, z: seq<T>)
    ensures p + (a + b + c) + z == p + a + b + (c + z) == (p + a) + (b + c) + z
  {
  }

  /** Where a pass of list_sort() stands: `done` is the head and what has been
      merged, `rest` what is still to be passed over. */
  ghost predicate Passing(less: Less<Elem>, w: seq<Elem>, done: seq<Elem>, rest: seq<Elem>, z: seq<Elem>,
                          goal: seq<Elem>, cnt: nat, goalCnt: nat) {
    w == done + rest + z && done + Pass(less, rest) == goal && cnt + PassRuns(less, rest) == goalCnt
  }

  /** One iteration: the two runs found at the start of rest are merged. */
  lemma PassTwoRuns(less: Less<Elem>, w: seq<Elem>, done: seq<Elem>, rest: seq<Elem>, z: seq<Elem>,
                    goal: seq<Elem>, cnt: nat, goalCnt: nat, e: nat, f: nat)
    returns (done': seq<Elem>, rest': seq<Elem>)
    requires Passing(less, w, done, rest, z, goal, cnt, goalCnt) && rest != []
    requires e == End(less, w, |done|, |done + rest|) < |done + rest| && f == End(less, w, e, |done + rest|)
    ensures Passing(less, MergeSteps(less, w, |done|, e, f), done', rest', z, goal, cnt + 1, goalCnt)
    ensures |done'| == f && |done' + rest'| == |done + rest|
  {
    EndAt(less, w, done, rest, z);
    var a, b, c := PassParts(less, rest);
    Cat5(done, a, b, c, z);
    EndAt(less, w, done + a, b + c, z);
    MergeStepsAt(less, w, |done|, e, f, done, a, b, c + z);
    done', rest' := done + Merge(less, a, b), c;
    CatPass(done, Merge(less, a, b), Pass(less, c), c, z);
  }

  lemma EndAt(less: Less<Elem>, w: seq<Elem>, p: seq<Elem>, s: seq<Elem>, z: seq<Elem>)
    requires w == p + s + z && s != []
    ensures End(less, w, |p|, |p + s|) == |p| + RunEnd(less, s)
  {
    MidSlice(w, p, s, z);
  }

  lemma CatPass<T>(p: seq<T>, m: seq<T>, q: seq<T>, c: seq<T>, z: seq<T>)
    ensures p + (m + q) == (p + m) + q && p + m + (c + z) == (p + m) + c + z
  {
  }

  /** The last iteration: rest is a single run. */
  lemma PassOneRun(less: Less<Elem>, w: seq<Elem>, done: seq<Elem>, rest: seq<Elem>, z: seq<Elem>,
                   goal: seq<Elem>, cnt: nat, goalCnt: nat)
    requires Passing(less, w, done, rest, z, goal, cnt, goalCnt)
    requires rest == [] || End(less, w, |done|, |done + rest|) == |done + rest|
    ensures w == goal + z && goalCnt == cnt + (if rest == [] then 0 else 1)
  {
    MidSlice(w, done, rest, z);
  }

  /** A merge inside the list leaves the sentinels and its own end in place. */
  lemma MergeEnds(less: Less<Elem>, w: seq<Elem>, x: nat, e: nat, f: nat)
    requires 0 < x <= e <= f < |w|
    ensures var r := MergeSteps(less, w, x, e, f);
            r[0] == w[0] && r[f] == w[f] && r[|w| - 1] == w[|w| - 1] && multiset(r) == multiset(w)
  {
    Split4(w, x, e, f);
    MergeEndsParts(less, w, w[..x], w[x..e], w[e..f], w[f..]);
  }

  lemma MergeEndsParts(less: Less<Elem>, w: seq<Elem>, p: seq<Elem>, a: seq<Elem>, b: seq<Elem>, z: seq<Elem>)
    requires w == p + a + b + z && p != [] && z != []
    ensures var r := MergeSteps(less, w, |p|, |p + a|, |p + a + b|);
            r[0] == w[0] && r[|p + a + b|] == w[|p + a + b|] && r[|w| - 1] == w[|w| - 1] && multiset(r) == multiset(w)
  {
    MergeStepsMerge(less, p, a, b, z);
    MergePerm(less, a, b);
  }

  lemma Neighbours(w: seq<Elem>, i: nat)
    requires Chain(w, -1) && i < |w| - 1
    ensures w[i].next == w[i + 1] && w[i + 1].prev == w[i]
  {
  }

  /** One iteration of the inner loop of list_sort() that finds two runs. */
  method MergeTwoRuns(a0: Elem, a1b0: Elem, tail: Elem, less: Less<Elem>, ghost w: seq<Elem>,
                      ghost x: nat, ghost e: nat) returns (b1: Elem, ghost r: seq<Elem>, ghost f: nat)
    requires Chain(w, -1) && 0 < x < e < |w| - 1 && w[x] == a0 && w[e] == a1b0 && w[|w| - 1] == tail
    modifies w
    ensures f == End(less, w, e, |w| - 1) && r == MergeSteps(less, w, x, e, f) && Chain(r, -1) && r[f] == b1
    ensures r[0] == w[0] && r[|w| - 1] == tail && multiset(r) == multiset(w)
    ensures w[0].prev == old(w[0].prev) && tail.next == old(tail.next)
  {
    b1, f := FindEndOfRun(a1b0, tail, less, w, e, |w| - 1);
    MergeEnds(less, w, x, e, f);
    r := InplaceMerge(a0, a1b0, b1, less, w, x, e, f);
  }

  /** The inner loop of list_sort(): merge the natural runs two by two. */
  method MergeRuns(head: Elem, tail: Elem, less: Less<Elem>, ghost w0: seq<Elem>, ghost s: seq<Elem>)
    returns (outputRunCnt: nat, ghost w: seq<Elem>)
    requires Chain(w0, -1) && w0 == [head] + s + [tail]
    modifies w0
    ensures Chain(w, -1) && w == [head] + Pass(less, s) + [tail] && outputRunCnt == PassRuns(less, s)
    ensures multiset(w) == multiset(w0)
    ensures head.prev == old(head.prev) && tail.next == old(tail.next)
  {
    ghost var n, goal, goalCnt := |w0| - 1, [head] + Pass(less, s), PassRuns(less, s);
    ghost var done, rest := [head], s;
    w := w0;
    outputRunCnt := 0;
    Neighbours(w, 0);
    var a0 := head.next;
    while a0 != tail
      invariant 1 <= |done| <= n == |done + rest| == |w| - 1 == |w0| - 1 && a0 == w[|done|] && w[0] == head
                && w[n] == tail
      invariant Chain(w, -1) && multiset(w) == multiset(w0)
      invariant head.prev == old(head.prev) && tail.next == old(tail.next)
      invariant Passing(less, w, done, rest, [tail], goal, outputRunCnt, goalCnt)
      decreases |rest|
    {
      ghost var e, f;
      var a1b0;
      a1b0, e := FindEndOfRun(a0, tail, less, w, |done|, n);
      SamePosition(w, e, n);
      if a1b0 == tail {
        PassOneRun(less, w, done, rest, [tail], goal, outputRunCnt, goalCnt);
        outputRunCnt := outputRunCnt + 1;
        return;
      }
      SameNodes(w0, w);
      ghost var x := |done|;
      f := End(less, w, e, n);
      done, rest := PassTwoRuns(less, w, done, rest, [tail], goal, outputRunCnt, goalCnt, e, f);
      outputRunCnt := outputRunCnt + 1;
      a0, w, f := MergeTwoRuns(a0, a1b0, tail, less, w, x, e);
    }
    SamePosition(w, |done|, n);
    PassOneRun(less, w, done, rest, [tail], goal, outputRunCnt, goalCnt);
  }

  class List {
    const head: Elem
    const tail: Elem
    ghost var nodes: seq<Elem>  // from head to tail

    ghost function Elems(): seq<Elem>
      requires |nodes| >= 2
      reads this
    {
      nodes[1..|nodes| - 1]
    }

    ghost predicate Valid()
      reads this, head, tail, nodes
    {
      && |nodes| >= 2 && nodes[0] == head && nodes[|nodes| - 1] == tail
      && Chain(nodes, -1) && head.prev == null && tail.next == null
    }

    /** list_init() */
    constructor ()
      ensures Valid() && Elems() == [] && fresh(head) && fresh(tail)
    {
      head := new Elem();
      tail := new Elem();
      nodes := [head, tail];
      new;
      head.prev := null;
      head.next := tail;
      tail.prev := head;
      tail.next := null;
      assert multiset(nodes) == multiset{head, tail};
    }

    /** list_push_back() */
    method PushBack(elem: Elem)
      requires Valid() && elem !in nodes
      modifies this`nodes, nodes, elem
      ensures Valid() && Elems() == old(Elems()) + [elem]
      ensures forall e :: e in nodes ==> e == elem || e in old(nodes)
    {
      ghost var n := |nodes| - 1;
      Neighbours(nodes, n - 1);
      ListInsert(tail, elem, nodes, n);
      nodes := nodes[..n] + [elem] + nodes[n..];
      assert nodes == old(nodes)[..n] + [elem, tail];
    }

    /** list_pop_front() */
    method PopFront() returns (front: Elem)
      requires Valid() && Elems() != []
      modifies this`nodes, nodes
      ensures Valid() && front == old(Elems())[0] && Elems() == old(Elems())[1..]
    {
      Neighbours(nodes, 0);
      Neighbours(nodes, 1);
      front := head.next;
      var _ := ListRemove(front, nodes, 1);
      nodes := nodes[..1] + nodes[2..];
    }

    /** One pass of list_sort(). */
    method SortPass(less: Less<Elem>) returns (outputRunCnt: nat)
      requires Valid()
      modifies this`nodes, nodes
      ensures Valid() && Elems() == Pass(less, old(Elems())) && outputRunCnt == PassRuns(less, old(Elems()))
      ensures forall k :: 0 <= k < |nodes| ==> nodes[k] in old(nodes)
    {
      hide Pass, PassRuns, Linked;
      ghost var s, w := Pass(less, Elems()), nodes;
      outputRunCnt, nodes := MergeRuns(head, tail, less, nodes, Elems());
      MidSlice(nodes, [head], s, [tail]);
      SameNodes(w, nodes);
    }

    /** list_sort(): for every strict weak order, the same nodes in sorted order,
        equivalent ones in the order they had, after at most n passes over a list of
        at most 2^n natural runs. */
    method Sort(less: Less<Elem>) returns (ghost passes: nat)
      requires Valid() && StrictWeak(less, Elements(Elems()))
      modifies this`nodes, nodes
      ensures Valid() && Sorted(less, Elems()) && StablePerm(less, old(Elems()), Elems())
      ensures forall n: nat :: 1 <= n && Runs(less, old(Elems())) <= Doublings(n) ==> passes <= n
    {
      ghost var u := Elements(Elems());
      passes := 0;
      DueAtFirst(less, Elems());
      while true
        invariant Valid() && Elements(Elems()) <= u && StablePerm(less, old(Elems()), Elems())
        invariant forall k :: 0 <= k < |nodes| ==> nodes[k] in old(nodes)
        invariant Due(less, old(Elems()), Elems(), passes)
        decreases Runs(less, Elems())
      {
        SortStep(less, old(Elems()), Elems(), u);
        DueOn(less, old(Elems()), Elems(), passes, u);
        passes := passes + 1;
        var outputRunCnt := SortPass(less);
        if outputRunCnt <= 1 {
          return;
        }
      }
    }
  }

  /** What one pass contributes to the sort. */
  lemma SortStep(less: Less<Elem>, s0: seq<Elem>, s: seq<Elem>, u: set<Elem>)
    requires StrictWeak(less, u) && Elements(s) <= u && StablePerm(less, s0, s)
    ensures Elements(Pass(less, s)) <= u && StablePerm(less, s0, Pass(less, s))
    ensures PassRuns(less, s) > 1 ==> Runs(less, Pass(less, s)) < Runs(less, s)
    ensures PassRuns(less, s) <= 1 ==> Sorted(less, Pass(less, s))
  {
    PassStable(less, s, u);
    PassHalvesRuns(less, s, u);
    StablePermTrans(less, s0, s, Pass(less, s));
    if PassRuns(less, s) <= 1 { LastPassSorts(less, s, u); }
  }
}
