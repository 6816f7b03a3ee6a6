/**
 sort() and binary_search() of lib/stdlib.c: a heap sort with 1-based positions, in
 place, for any comparison function that is a total preorder.
 */
module HeapSort {
  import opened Common

  /** A strcmp()-type comparison. */
  type Compare<!T> = (T, T) -> int

  ghost predicate Preorder<T(!new)>(cmp: Compare<T>) {
    && (forall x, y :: cmp(x, y) > 0 <==> cmp(y, x) < 0)
    && (forall x, y, z :: cmp(x, y) >= 0 && cmp(y, z) >= 0 ==> cmp(x, z) >= 0)
  }

  /** Position j holds nothing bigger than its parent, position j / 2. */
  ghost predicate ParentOk<T>(s: seq<T>, j: nat, cmp: Compare<T>)
    requires 2 <= j <= |s|
  {
    cmp(s[j / 2 - 1], s[j - 1]) >= 0
  }

  /** The heap order among positions 1 to cnt, for parents from lo on. */
  ghost predicate Heap<T>(s: seq<T>, lo: nat, cnt: nat, cmp: Compare<T>)
    requires cnt <= |s|
  {
    forall j :: 2 <= j <= cnt && j / 2 >= lo ==> ParentOk(s, j, cmp)
  }

  /** The same, but for the children of i, which are still below i's parent. */
  ghost predicate HeapExcept<T>(s: seq<T>, lo: nat, cnt: nat, i: nat, cmp: Compare<T>)
    requires cnt <= |s|
  {
    && (forall j :: 2 <= j <= cnt && j / 2 >= lo && j / 2 != i ==> ParentOk(s, j, cmp))
    && (forall j :: 2 <= j <= cnt && j / 2 == i && i / 2 >= lo && i >= 2 ==> cmp(s[i / 2 - 1], s[j - 1]) >= 0)
  }

  function Swapped<T>(s: seq<T>, i: nat, j: nat): (r: seq<T>)
    requires 1 <= i <= |s| && 1 <= j <= |s|
    ensures |r| == |s|
  {
    s[i - 1 := s[j - 1]][j - 1 := s[i - 1]]
  }

  /** t is s with its first cnt elements rearranged. */
  ghost predicate Rearranged<T>(s: seq<T>, t: seq<T>, cnt: nat)
    requires cnt <= |s| == |t|
  {
    multiset(t[..cnt]) == multiset(s[..cnt]) && t[cnt..] == s[cnt..]
  }

  lemma SwappedPrefix<T>(s: seq<T>, i: nat, j: nat, cnt: nat)
    requires 1 <= i <= cnt && 1 <= j <= cnt <= |s|
    ensures Rearranged(s, Swapped(s, i, j), cnt)
  {
    var p := s[..cnt];
    assert Swapped(s, i, j)[..cnt] == p[i - 1 := p[j - 1]][j - 1 := p[i - 1]];
  }

  lemma RearrangedOn<T>(s: seq<T>, t: seq<T>, u: seq<T>, cnt: nat)
    requires cnt <= |s| == |t| == |u| && Rearranged(s, t, cnt) && Rearranged(t, u, cnt)
    ensures Rearranged(s, u, cnt)
  {
  }

  /** Moving the bigger child up moves the gap down. */
  lemma SiftStep<T(!new)>(s: seq<T>, lo: nat, cnt: nat, i: nat, m: nat, cmp: Compare<T>)
    requires Preorder(cmp) && 1 <= lo <= i <= cnt <= |s| && HeapExcept(s, lo, cnt, i, cmp)
    requires i < m <= cnt && m / 2 == i && cmp(s[m - 1], s[i - 1]) > 0
    requires forall j :: 2 <= j <= cnt && j / 2 == i ==> cmp(s[m - 1], s[j - 1]) >= 0
    ensures HeapExcept(Swapped(s, i, m), lo, cnt, m, cmp)
  {
    var r := Swapped(s, i, m);
    forall j | 2 <= j <= cnt && j / 2 >= lo && j / 2 != m ensures ParentOk(r, j, cmp) {
      if j == i {
        assert cmp(s[i / 2 - 1], s[m - 1]) >= 0;
      } else if j == m {
      } else if j / 2 == i {
        assert cmp(s[m - 1], s[j - 1]) >= 0;
      } else {
        assert ParentOk(s, j, cmp);
      }
    }
    forall j | 2 <= j <= cnt && j / 2 == m && m / 2 >= lo ensures cmp(r[m / 2 - 1], r[j - 1]) >= 0 {
      assert ParentOk(s, j, cmp);
    }
  }

  lemma StartSift<T>(s: seq<T>, start: nat, cnt: nat, cmp: Compare<T>)
    requires 1 <= start <= cnt <= |s| && Heap(s, start + 1, cnt, cmp)
    ensures HeapExcept(s, start, cnt, start, cmp)
  {
    forall j | 2 <= j <= cnt && j / 2 >= start && j / 2 != start ensures ParentOk(s, j, cmp) {
      assert j / 2 >= start + 1;
    }
  }

  lemma EndSift<T>(s: seq<T>, start: nat, cnt: nat, i: nat, cmp: Compare<T>)
    requires 1 <= start <= i <= cnt <= |s| && HeapExcept(s, start, cnt, i, cmp)
    requires forall j :: 2 <= j <= cnt && j / 2 == i ==> cmp(s[i - 1], s[j - 1]) >= 0
    ensures Heap(s, start, cnt, cmp)
  {
  }

  /** do_swap() */
  method Swap<T>(a: array<T>, i: nat, j: nat)
    requires 1 <= i <= a.Length && 1 <= j <= a.Length
    modifies a
    ensures a[..] == Swapped(old(a[..]), i, j)
  {
    a[i - 1], a[j - 1] := a[j - 1], a[i - 1];
  }

  /** The biggest of position i and its children; i itself only if no child is
      bigger. */
  method MaxOf<T(!new)>(a: array<T>, i: nat, cnt: nat, cmp: Compare<T>) returns (max: nat)
    requires Preorder(cmp) && 1 <= i <= cnt <= a.Length
    ensures i <= max <= cnt && (max == i || (max / 2 == i && cmp(a[max - 1], a[i - 1]) > 0))
    ensures forall j :: 2 <= j <= cnt && j / 2 == i ==> cmp(a[max - 1], a[j - 1]) >= 0
  {
    var left, right := 2 * i, 2 * i + 1;
    max := i;
    if left <= cnt && cmp(a[left - 1], a[max - 1]) > 0 {
      max := left;
    }
    if right <= cnt && cmp(a[right - 1], a[max - 1]) > 0 {
      max := right;
    }
    assert forall j :: j / 2 == i ==> j == left || j == right;
    assert cmp(a[max - 1], a[max - 1]) >= 0;
  }

  /** heapify(): the heap order is restored for parents from start on; only positions
      start to cnt are rearranged. */
  method Heapify<T(!new)>(a: array<T>, start: nat, cnt: nat, cmp: Compare<T>)
    requires Preorder(cmp) && 1 <= start && cnt <= a.Length && Heap(a[..], start + 1, cnt, cmp)
    modifies a
    ensures Heap(a[..], start, cnt, cmp)
    ensures Rearranged(old(a[..]), a[..], cnt)
  {
    var i := start;
    ghost var was := a[..];
    if i > cnt {
      return;
    }
    StartSift(a[..], start, cnt, cmp);
    while true
      invariant start <= i <= cnt && HeapExcept(a[..], start, cnt, i, cmp)
      invariant Rearranged(was, a[..], cnt)
      decreases cnt - i
    {
      var max := MaxOf(a, i, cnt, cmp);
      if max == i {
        EndSift(a[..], start, cnt, i, cmp);
        break;
      }
      SiftStep(a[..], start, cnt, i, max, cmp);
      SwappedPrefix(a[..], i, max, cnt);
      RearrangedOn(was, a[..], Swapped(a[..], i, max), cnt);
      Swap(a, i, max);
      i := max;
    }
  }

  /** The first element of a heap is the biggest. */
  lemma {:induction false} HeapMax<T(!new)>(s: seq<T>, cnt: nat, j: nat, cmp: Compare<T>)
    requires Preorder(cmp) && 1 <= j <= cnt <= |s| && Heap(s, 1, cnt, cmp)
    ensures cmp(s[0], s[j - 1]) >= 0
    decreases j
  {
    if j == 1 {
      assert cmp(s[0], s[0]) >= 0;
    } else {
      HeapMax(s, cnt, j / 2, cmp);
      assert ParentOk(s, j, cmp);
    }
  }

  ghost predicate Sorted<T>(s: seq<T>, cmp: Compare<T>) {
    forall i, j :: 0 <= i < j < |s| ==> cmp(s[i], s[j]) <= 0
  }

  ghost predicate AllBelow<T>(s: seq<T>, x: T, cmp: Compare<T>) {
    forall y :: y in s ==> cmp(y, x) <= 0
  }

  /** The elements from i on are sorted and none before them is bigger. */
  ghost predicate Tail<T>(s: seq<T>, i: nat, cmp: Compare<T>)
    requires i <= |s|
  {
    && Sorted(s[i..], cmp)
    && forall k :: i <= k < |s| ==> AllBelow(s[..i], s[k], cmp)
  }

  /** Rearranging the elements before the tail leaves it a tail. */
  lemma TailPerm<T(!new)>(s: seq<T>, t: seq<T>, i: nat, cmp: Compare<T>)
    requires i <= |s| == |t| && Tail(s, i, cmp)
    requires Rearranged(s, t, i)
    ensures Tail(t, i, cmp)
  {
    forall k | i <= k < |t| ensures AllBelow(t[..i], t[k], cmp) {
      assert t[k] == t[i..][k - i] == s[k];
      forall y | y in t[..i] ensures cmp(y, t[k]) <= 0 {
        assert y in multiset(t[..i]);
        assert y in s[..i] && AllBelow(s[..i], s[k], cmp);
      }
    }
  }

  lemma ExtractBelow<T(!new)>(s: seq<T>, i: nat, k: nat, cmp: Compare<T>)
    requires 1 < i <= |s| && Tail(s, i, cmp) && i - 1 <= k < |s|
    requires forall j :: 0 <= j < i ==> cmp(s[j], s[0]) <= 0
    ensures AllBelow(Swapped(s, 1, i)[..i - 1], Swapped(s, 1, i)[k], cmp)
  {
    var r := Swapped(s, 1, i);
    forall y | y in r[..i - 1] ensures cmp(y, r[k]) <= 0 {
      var j :| 0 <= j < i - 1 && r[j] == y;
      var m := if j == 0 then i - 1 else j;
      assert y == s[m] && s[m] in s[..i];
      if k >= i {
        assert AllBelow(s[..i], s[k], cmp);
      }
    }
  }

  lemma ExtractSorted<T(!new)>(s: seq<T>, i: nat, cmp: Compare<T>)
    requires 1 < i <= |s| && Tail(s, i, cmp)
    ensures Sorted(Swapped(s, 1, i)[i - 1..], cmp)
  {
    var t := s[i..];
    assert Swapped(s, 1, i)[i - 1..] == [s[0]] + t;
    forall k | 0 <= k < |t| ensures cmp(s[0], t[k]) <= 0 {
      assert s[0] in s[..i] && AllBelow(s[..i], s[i + k], cmp);
    }
  }

  lemma ExtractHeap<T(!new)>(s: seq<T>, i: nat, cmp: Compare<T>)
    requires 1 < i <= |s| && Heap(s, 1, i, cmp)
    ensures Heap(Swapped(s, 1, i), 2, i - 1, cmp)
  {
    forall j | 2 <= j <= i - 1 && j / 2 >= 2 ensures ParentOk(Swapped(s, 1, i), j, cmp) {
      assert ParentOk(s, j, cmp);
    }
  }

  /** Moving the biggest element of the heap behind it extends the tail. */
  lemma Extract<T(!new)>(s: seq<T>, i: nat, cmp: Compare<T>)
    requires Preorder(cmp) && 1 < i <= |s| && Heap(s, 1, i, cmp) && Tail(s, i, cmp)
    ensures Tail(Swapped(s, 1, i), i - 1, cmp) && Heap(Swapped(s, 1, i), 2, i - 1, cmp)
  {
    forall j | 0 <= j < i ensures cmp(s[j], s[0]) <= 0 {
      HeapMax(s, i, j + 1, cmp);
      assert cmp(s[0], s[j]) >= 0;
    }
    forall k | i - 1 <= k < |s| ensures AllBelow(Swapped(s, 1, i)[..i - 1], Swapped(s, 1, i)[k], cmp) {
      ExtractBelow(s, i, k, cmp);
    }
    ExtractSorted(s, i, cmp);
    ExtractHeap(s, i, cmp);
  }

  /** sort(): a sorted rearrangement, for every length. */
  method Sort<T(!new)>(a: array<T>, cmp: Compare<T>)
    requires Preorder(cmp)
    modifies a
    ensures Sorted(a[..], cmp) && multiset(a[..]) == multiset(old(a[..]))
  {
    ghost var was := a[..];
    var cnt := a.Length;
    BuildHeap(a, cmp);
    var i := cnt;
    assert Tail(a[..], cnt, cmp);
    while i > 1
      invariant 0 <= i <= cnt && Heap(a[..], 1, i, cmp) && Tail(a[..], i, cmp)
      invariant multiset(a[..]) == multiset(was)
    {
      Extract(a[..], i, cmp);
      SwappedPrefix(a[..], 1, i, cnt);
      PrefixPerm(a[..], Swapped(a[..], 1, i), cnt);
      Swap(a, 1, i);
      ghost var mid := a[..];
      Heapify(a, 1, i - 1, cmp);
      PrefixPerm(mid, a[..], i - 1);
      TailPerm(mid, a[..], i - 1, cmp);
      i := i - 1;
    }
    TailAll(a[..], i, cmp);
  }

  /** The first loop of sort(). */
  method BuildHeap<T(!new)>(a: array<T>, cmp: Compare<T>)
    requires Preorder(cmp)
    modifies a
    ensures Heap(a[..], 1, a.Length, cmp) && multiset(a[..]) == multiset(old(a[..]))
  {
    ghost var was := a[..];
    var cnt := a.Length;
    var i := cnt / 2;
    while i > 0
      invariant 0 <= i <= cnt / 2 && Heap(a[..], i + 1, cnt, cmp)
      invariant multiset(a[..]) == multiset(was)
    {
      ghost var before := a[..];
      Heapify(a, i, cnt, cmp);
      PrefixPerm(before, a[..], cnt);
      i := i - 1;
    }
  }

  lemma PrefixPerm<T>(s: seq<T>, t: seq<T>, cnt: nat)
    requires cnt <= |s| == |t| && Rearranged(s, t, cnt)
    ensures multiset(t) == multiset(s)
  {
    assert s == s[..cnt] + s[cnt..] && t == t[..cnt] + t[cnt..];
  }

  lemma TailAll<T(!new)>(s: seq<T>, i: nat, cmp: Compare<T>)
    requires i <= 1 && i <= |s| && Tail(s, i, cmp)
    ensures Sorted(s, cmp)
  {
    forall j, k | 0 <= j < k < |s| ensures cmp(s[j], s[k]) <= 0 {
      if j < i {
        assert s[j] in s[..i] && AllBelow(s[..i], s[k], cmp);
      } else {
        assert s[i..][j - i] == s[j] && s[i..][k - i] == s[k];
      }
    }
  }

  /** binary_search(): a match, or None exactly if there is none. */
  method BinarySearch<T(!new)>(key: T, a: array<T>, cmp: Compare<T>) returns (r: Option<nat>)
    requires Preorder(cmp) && Sorted(a[..], cmp)
    ensures r.Some? ==> r.value < a.Length && cmp(key, a[r.value]) == 0
    ensures r == None <==> forall j :: 0 <= j < a.Length ==> cmp(key, a[j]) != 0
  {
    var first, last := 0, a.Length;
    while first < last
      invariant 0 <= first <= last <= a.Length
      invariant forall j :: 0 <= j < first ==> cmp(key, a[j]) > 0
      invariant forall j :: last <= j < a.Length ==> cmp(key, a[j]) < 0
    {
      var range := last - first;
      var middle := first + range / 2;
      var c := cmp(key, a[middle]);
      if c < 0 {
        forall j | middle <= j < a.Length ensures cmp(key, a[j]) < 0 {
          Above(a[..], key, middle, j, cmp);
        }
        last := middle;
      } else if c > 0 {
        forall j | 0 <= j <= middle ensures cmp(key, a[j]) > 0 {
          Below(a[..], key, middle, j, cmp);
        }
        first := middle + 1;
      } else {
        return Some(middle);
      }
    }
    return None;
  }

  lemma Above<T(!new)>(s: seq<T>, key: T, m: nat, j: nat, cmp: Compare<T>)
    requires Preorder(cmp) && Sorted(s, cmp) && m <= j < |s| && cmp(key, s[m]) < 0
    ensures cmp(key, s[j]) < 0
  {
    assert m == j || cmp(s[m], s[j]) <= 0;
    assert m == j || cmp(s[j], s[m]) >= 0;
  }

  lemma Below<T(!new)>(s: seq<T>, key: T, m: nat, j: nat, cmp: Compare<T>)
    requires Preorder(cmp) && Sorted(s, cmp) && j <= m < |s| && cmp(key, s[m]) > 0
    ensures cmp(key, s[j]) > 0
  {
    assert m == j || cmp(s[j], s[m]) <= 0;
    assert m == j || cmp(s[m], s[j]) >= 0;
  }
}
