/**
 list_reverse(), list_insert_ordered() and list_unique() of lib/kernel/list.c, in
 place on the lists of module Lists.
 */
module ListOperations {
  import opened Common
  import opened Lists
  import opened MergeSort

  lemma {:induction false} ReversedPerm<T>(s: seq<T>)
    ensures multiset(Reversed(s)) == multiset(s)
  {
    if s == [] {
      assert Reversed(s) == [];
    } else {
      var t := s[1..];
      ReversedPerm(t);
      assert Reversed(s) == Reversed(t) + [s[0]];
      assert s == [s[0]] + t;
    }
  }

  /** The chain w read backwards between its sentinels. */
  ghost function Backwards(w: seq<Elem>): seq<Elem>
    requires |w| >= 2
  {
    var n := |w| - 1;
    [w[0]] + Reversed(w[1..n]) + [w[n]]
  }

  lemma BackwardsPerm(w: seq<Elem>)
    requires |w| >= 2
    ensures multiset(Backwards(w)) == multiset(w)
  {
    var m := w[1..|w| - 1];
    ReversedPerm(m);
    assert w == [w[0]] + m + [w[|w| - 1]];
  }

  lemma SameNodesOnce(w: seq<Elem>, r: seq<Elem>)
    requires Once(w) && multiset(r) == multiset(w)
    ensures Once(r) && forall e :: e in r ==> e in w
  {
    forall e | e in r ensures e in w {
      assert e in multiset(w);
    }
  }

  lemma BackwardsAt(w: seq<Elem>)
    requires |w| >= 2 && Once(w)
    ensures var r, n := Backwards(w), |w| - 1;
            && |r| == |w| && r[0] == w[0] && r[n] == w[n] && (forall k :: 0 < k < n ==> r[k] == w[n - k])
            && Once(r) && (forall e :: e in r ==> e in w)
  {
    BackwardsPerm(w);
    SameNodesOnce(w, Backwards(w));
  }

  /** After the loop of list_reverse(): in the interior, prev and next have changed
      places up to position i. */
  ghost predicate Turned(w: seq<Elem>, i: nat)
    requires 1 <= i < |w|
    reads w
  {
    var n := |w| - 1;
    && (forall k {:trigger w[k].prev} {:trigger w[k].next} :: 1 <= k < i ==>
       w[k].prev == w[k + 1] && w[k].next == w[k - 1])
    && (forall k {:trigger w[k].prev} {:trigger w[k].next} :: i <= k < n ==>
       w[k].next == w[k + 1] && w[k].prev == w[k - 1])
    && w[0].next == w[1] && w[n].prev == w[n - 1] && w[0].prev == null && w[n].next == null
  }

  /** ...and after the two swaps at the ends. */
  ghost predicate FullyTurned(w: seq<Elem>)
    requires |w| >= 3
    reads w
  {
    var n := |w| - 1;
    && (forall k {:trigger w[k].prev} :: 1 <= k < n ==> w[k].prev == if k == n - 1 then w[0] else w[k + 1])
    && (forall k {:trigger w[k].next} :: 1 <= k < n ==> w[k].next == if k == 1 then w[n] else w[k - 1])
    && w[0].next == w[n - 1] && w[n].prev == w[1] && w[0].prev == null && w[n].next == null
  }

  lemma FullyTurnedChain(w: seq<Elem>)
    requires |w| >= 3 && Once(w) && FullyTurned(w)
    ensures Chain(Backwards(w), -1)
  {
    BackwardsAt(w);
    var r, n := Backwards(w), |w| - 1;
    forall k | 0 <= k < n ensures r[k].next == r[k + 1] && r[k + 1].prev == r[k] {
      assert r[k] == w[if k == 0 then 0 else n - k];
      assert r[k + 1] == w[if k + 1 == n then n else n - k - 1];
    }
  }

  /** The loop of list_reverse(). */
  method TurnAll(head: Elem, tail: Elem, ghost w: seq<Elem>)
    requires |w| >= 3 && Chain(w, -1) && head == w[0] && tail == w[|w| - 1] && head.prev == null && tail.next == null
    modifies w
    ensures Turned(w, |w| - 1)
  {
    ghost var n, i := |w| - 1, 1;
    OnceNoDup(w);
    var e := head.next;
    while e != tail
      invariant 1 <= i <= n && e == w[i] && Turned(w, i)
      decreases n - i
    {
      e.prev, e.next := e.next, e.prev;
      e := e.prev;
      i := i + 1;
    }
  }

  /** The swaps at the end of list_reverse(). */
  method TurnEnds(head: Elem, tail: Elem, ghost w: seq<Elem>)
    requires |w| >= 3 && NoDup(w) && head == w[0] && tail == w[|w| - 1] && Turned(w, |w| - 1)
    modifies w
    ensures FullyTurned(w)
  {
    ghost var n := |w| - 1;
    head.next, tail.prev := tail.prev, head.next;
    assert head.next == w[n - 1] && tail.prev == w[1];
    head.next.prev, tail.prev.next := tail.prev.next, head.next.prev;
  }

  /** list_reverse() */
  method Reverse(list: List)
    requires list.Valid()
    modifies list`nodes, list.nodes
    ensures list.Valid() && list.Elems() == Reversed(old(list.Elems()))
  {
    ghost var w := list.nodes;
    Neighbours(w, 0);
    OnceNoDup(w);
    if list.head.next != list.tail {
      TurnAll(list.head, list.tail, w);
      TurnEnds(list.head, list.tail, w);
      FullyTurnedChain(w);
      BackwardsAt(w);
      list.nodes := Backwards(w);
    }
  }

  // ---------------------------------------------------------------------
  // Insertion in order
  // ---------------------------------------------------------------------

  /** s with x before the first element that is greater. */
  function Inserted<T>(less: Less<T>, s: seq<T>, x: T): (r: seq<T>) {
    if s == [] || less(x, s[0]) then [x] + s else [s[0]] + Inserted(less, s[1..], x)
  }

  /** It goes in at the first place whose element is greater, and the others stay. */
  lemma {:induction false} InsertedPlace<T>(less: Less<T>, s: seq<T>, x: T) returns (k: nat)
    ensures k <= |s| && Inserted(less, s, x) == s[..k] + [x] + s[k..]
    ensures (forall i :: 0 <= i < k ==> !less(x, s[i])) && (k < |s| ==> less(x, s[k]))
  {
    k := 0;
    if s != [] && !less(x, s[0]) {
      var m := InsertedPlace(less, s[1..], x);
      k := m + 1;
      assert s[..k] == [s[0]] + s[1..][..m] && s[k..] == s[1..][m..];
      forall i | 0 <= i < k ensures !less(x, s[i]) {
        if i > 0 { assert s[i] == s[1..][i - 1]; }
      }
    }
  }

  lemma Irreflexive<T>(less: Less<T>, u: set<T>, x: T)
    requires StrictWeak(less, u) && x in u
    ensures !less(x, x)
  {
  }

  lemma NotBelow<T>(less: Less<T>, u: set<T>, x: T, a: T, b: T)
    requires StrictWeak(less, u) && x in u && a in u && b in u && less(x, a) && !less(b, a)
    ensures !less(b, x)
  {
  }

  /** Inserting keeps a sorted list sorted, and adds just the one element, behind its
      equals. */
  lemma {:induction false} InsertedSorted<T>(less: Less<T>, s: seq<T>, x: T, u: set<T>)
    requires StrictWeak(less, u) && Elements(s) <= u && x in u && Sorted(less, s)
    ensures Sorted(less, Inserted(less, s, x)) && multiset(Inserted(less, s, x)) == multiset(s) + multiset{x}
  {
    hide StrictWeak, Sorted;
    if s == [] {
      SortedCons(less, x, s);
    } else if less(x, s[0]) {
      InsertedFirst(less, s, x, u);
    } else {
      var t := s[1..];
      assert s == [s[0]] + t;
      SortedTail(less, s);
      InsertedSorted(less, t, x, u);
      forall y | y in Inserted(less, t, x) ensures !less(y, s[0]) {
        assert y in multiset(Inserted(less, t, x));
      }
      SortedCons(less, s[0], Inserted(less, t, x));
    }
  }

  lemma InsertedFirst<T>(less: Less<T>, s: seq<T>, x: T, u: set<T>)
    requires StrictWeak(less, u) && Elements(s) <= u && x in u && Sorted(less, s) && s != [] && less(x, s[0])
    ensures Sorted(less, [x] + s)
  {
    hide StrictWeak;
    forall j | 0 <= j < |s| ensures !less(s[j], x) {
      assert s[j] in Elements(s) && s[0] in Elements(s);
      assert j == 0 || !less(s[j], s[0]);
      Irreflexive(less, u, s[0]);
      NotBelow(less, u, x, s[0], s[j]);
    }
  }

  lemma SortedTail<T>(less: Less<T>, s: seq<T>)
    requires Sorted(less, s) && s != []
    ensures Sorted(less, s[1..]) && Elements(s[1..]) <= Elements(s)
    ensures forall y :: y in s[1..] ==> !less(y, s[0])
  {
  }

  lemma SortedCons<T>(less: Less<T>, a: T, r: seq<T>)
    requires Sorted(less, r) && forall y :: y in r ==> !less(y, a)
    ensures Sorted(less, [a] + r)
  {
  }

  lemma {:induction false} InsertedAfter<T>(less: Less<T>, p: seq<T>, s: seq<T>, x: T)
    requires forall j :: 0 <= j < |p| ==> !less(x, p[j])
    ensures Inserted(less, p + s, x) == p + Inserted(less, s, x)
    decreases |p|
  {
    if p == [] {
      assert p + s == s;
      assert p + Inserted(less, s, x) == Inserted(less, s, x);
    } else {
      var q := p[1..];
      InsertedAfter(less, q, s, x);
      assert p + s == [p[0]] + (q + s);
      assert (p + s)[1..] == q + s;
      assert [p[0]] + (q + Inserted(less, s, x)) == p + Inserted(less, s, x);
    }
  }

  /** The loop of list_insert_ordered(): the first element that is greater, or the
      tail. */
  method FindPlace(list: List, elem: Elem, less: Less<Elem>) returns (e: Elem, ghost i: nat)
    requires list.Valid()
    ensures 1 <= i < |list.nodes| && e == list.nodes[i]
    ensures forall j :: 1 <= j < i ==> !less(elem, list.nodes[j])
    ensures i < |list.nodes| - 1 ==> less(elem, e)
  {
    i := 1;
    OnceNoDup(list.nodes);
    Neighbours(list.nodes, 0);
    e := list.head.next;
    while e != list.tail
      invariant 1 <= i < |list.nodes| && e == list.nodes[i]
      invariant forall j :: 1 <= j < i ==> !less(elem, list.nodes[j])
      decreases |list.nodes| - i
    {
      if less(elem, e) {
        return;
      }
      Neighbours(list.nodes, i);
      e := e.next;
      i := i + 1;
    }
  }

  /** list_insert_ordered() */
  method InsertOrdered(list: List, elem: Elem, less: Less<Elem>)
    requires list.Valid() && elem !in list.nodes
    modifies list`nodes, list.nodes, elem
    ensures list.Valid() && list.Elems() == Inserted(less, old(list.Elems()), elem)
  {
    ghost var w, n := list.nodes, |list.nodes| - 1;
    var e, i := FindPlace(list, elem, less);
    InsertedHere(less, w, elem, i);
    Neighbours(w, i - 1);
    ListInsert(e, elem, w, i);
    list.nodes := w[..i] + [elem] + w[i..];
  }

  lemma InsertedHere(less: Less<Elem>, w: seq<Elem>, elem: Elem, i: nat)
    requires 1 <= i < |w| && (forall j :: 1 <= j < i ==> !less(elem, w[j])) && (i < |w| - 1 ==> less(elem, w[i]))
    ensures var r := w[..i] + [elem] + w[i..];
            && |r| == |w| + 1 && r[0] == w[0] && r[|w|] == w[|w| - 1]
            && r[1..|w|] == Inserted(less, w[1..|w| - 1], elem)
  {
    var p, q, s := w[1..i], w[i..|w| - 1], w[1..|w| - 1];
    forall j | 0 <= j < |p| ensures !less(elem, p[j]) {
      assert p[j] == w[j + 1];
    }
    InsertedAfter(less, p, q, elem);
    assert s == p + q;
    assert q != [] ==> q[0] == w[i];
    assert Inserted(less, q, elem) == [elem] + q;
    InsertedNodes(w, i, elem, p, q);
  }

  lemma InsertedNodes(w: seq<Elem>, i: nat, elem: Elem, p: seq<Elem>, q: seq<Elem>)
    requires 1 <= i < |w| && p == w[1..i] && q == w[i..|w| - 1]
    ensures var r := w[..i] + [elem] + w[i..]; |r| == |w| + 1 && r[1..|w|] == p + ([elem] + q)
  {
    var n, r := |w| - 1, w[..i] + [elem] + w[i..];
    assert r == [w[0]] + w[1..i] + [elem] + w[i..n] + [w[n]];
  }

  // ---------------------------------------------------------------------
  // Removing duplicates
  // ---------------------------------------------------------------------

  /** What list_unique() keeps of x followed by s... */
  function Kept<T>(less: Less<T>, x: T, s: seq<T>): (r: seq<T>) {
    if s == [] then [x]
    else if Equiv(less, x, s[0]) then Kept(less, x, s[1..])
    else [x] + Kept(less, s[0], s[1..])
  }

  /** ...and what it removes, in order. */
  function Dropped<T>(less: Less<T>, x: T, s: seq<T>): (r: seq<T>) {
    if s == [] then []
    else if Equiv(less, x, s[0]) then [s[0]] + Dropped(less, x, s[1..])
    else Dropped(less, s[0], s[1..])
  }

  function Unique<T>(less: Less<T>, s: seq<T>): (r: seq<T>) {
    if s == [] then [] else Kept(less, s[0], s[1..])
  }

  function Duplicates<T>(less: Less<T>, s: seq<T>): (r: seq<T>) {
    if s == [] then [] else Dropped(less, s[0], s[1..])
  }

  lemma AddSame<T>(a: multiset<T>, b: multiset<T>, c: multiset<T>, d: multiset<T>, x: multiset<T>)
    requires a + b == c + d || b + a == c + d
    ensures a + (x + b) == c + (x + d)
  {
    assert a + (x + b) == x + (a + b) && c + (x + d) == x + (c + d);
  }

  /** No element is lost: each is kept or removed. */
  lemma {:induction false} KeptAndDropped<T>(less: Less<T>, x: T, s: seq<T>)
    ensures multiset(Kept(less, x, s)) + multiset(Dropped(less, x, s)) == multiset{x} + multiset(s)
  {
    if s != [] {
      var t := s[1..];
      assert s == [s[0]] + t;
      if Equiv(less, x, s[0]) {
        KeptAndDropped(less, x, t);
        var d := Dropped(less, x, t);
        assert Kept(less, x, s) == Kept(less, x, t) && Dropped(less, x, s) == [s[0]] + d;
        AddSame(multiset(Kept(less, x, t)), multiset(d), multiset{x}, multiset(t), multiset{s[0]});
      } else {
        KeptAndDropped(less, s[0], t);
        var k := Kept(less, s[0], t);
        assert Kept(less, x, s) == [x] + k && Dropped(less, x, s) == Dropped(less, s[0], t);
        AddSame(multiset(Dropped(less, s[0], t)), multiset(k), multiset{s[0]}, multiset(t), multiset{x});
        assert multiset{s[0]} + (multiset{x} + multiset(t)) == multiset{x} + multiset(s);
      }
    }
  }

  /** No two neighbours that are left are equal. */
  lemma {:induction false} KeptNeighbours<T>(less: Less<T>, x: T, s: seq<T>)
    ensures var r := Kept(less, x, s);
            r != [] && r[0] == x && forall i :: 0 <= i < |r| - 1 ==> !Equiv(less, r[i], r[i + 1])
  {
    if s != [] {
      if Equiv(less, x, s[0]) {
        KeptNeighbours(less, x, s[1..]);
      } else {
        KeptNeighbours(less, s[0], s[1..]);
      }
    }
  }

  lemma {:induction false} KeptFrom<T>(less: Less<T>, x: T, s: seq<T>)
    ensures forall y :: y in Kept(less, x, s) ==> y == x || y in s
  {
    if s != [] {
      if Equiv(less, x, s[0]) {
        KeptFrom(less, x, s[1..]);
      } else {
        KeptFrom(less, s[0], s[1..]);
      }
    }
  }

  /** The elements of s, which comes after prev, that equal the one right in front of them, or
      that do not. */
  function Picked<T>(less: Less<T>, prev: T, s: seq<T>, equal: bool): seq<T> {
    if s == [] then []
    else (if Equiv(less, prev, s[0]) == equal then [s[0]] else []) + Picked(less, s[0], s[1..], equal)
  }

  /** So of each run of equals, sorted or not, the first is kept and the others are removed, all
      in their order. */
  lemma {:induction false} RunsCut<T>(less: Less<T>, x: T, prev: T, s: seq<T>, u: set<T>)
    requires StrictWeak(less, u) && x in u && prev in u && Elements(s) <= u && Equiv(less, x, prev)
    ensures Kept(less, x, s) == [x] + Picked(less, prev, s, false)
    ensures Dropped(less, x, s) == Picked(less, prev, s, true)
  {
    if s != [] {
      assert s[0] in Elements(s) && Elements(s[1..]) <= Elements(s);
      assert Equiv(less, x, s[0]) <==> Equiv(less, prev, s[0]);
      RunsCut(less, if Equiv(less, x, s[0]) then x else s[0], s[0], s[1..], u);
    }
  }

  lemma UniqueCutsRuns<T>(less: Less<T>, s: seq<T>, u: set<T>)
    requires StrictWeak(less, u) && Elements(s) <= u && s != []
    ensures Unique(less, s) == [s[0]] + Picked(less, s[0], s[1..], false)
    ensures Duplicates(less, s) == Picked(less, s[0], s[1..], true)
  {
    assert s[0] in Elements(s) && Elements(s[1..]) <= Elements(s);
    RunsCut(less, s[0], s[0], s[1..], u);
  }

  ghost predicate Increasing<T>(less: Less<T>, s: seq<T>) {
    forall i, j :: 0 <= i < j < |s| ==> less(s[i], s[j])
  }

  /** Of a sorted list one element of each class is left: what is left increases
      strictly. */
  lemma {:induction false} KeptIncreases<T>(less: Less<T>, x: T, s: seq<T>, u: set<T>)
    requires StrictWeak(less, u) && x in u && Elements(s) <= u && Sorted(less, [x] + s)
    ensures Increasing(less, Kept(less, x, s))
  {
    if s != [] {
      var t := s[1..];
      assert s[0] in Elements(s) && Elements(t) <= Elements(s);
      assert !less(([x] + s)[1], ([x] + s)[0]);
      SortedParts(less, x, s);
      if Equiv(less, x, s[0]) {
        KeptIncreases(less, x, t, u);
        assert Kept(less, x, s) == Kept(less, x, t);
      } else {
        KeptIncreases(less, s[0], t, u);
        var r := Kept(less, s[0], t);
        KeptFrom(less, s[0], t);
        forall j | 0 <= j < |r| ensures less(x, r[j]) {
          assert r[j] in r;
          if r[j] != s[0] {
            assert r[j] in Elements(s);
            KeptAbove(less, x, s[0], r[j], s, u);
          }
        }
        var q := [x] + r;
        assert Kept(less, x, s) == q;
        forall i, j | 0 <= i < j < |q| ensures less(q[i], q[j]) {
          assert q[j] == r[j - 1] && (i > 0 ==> q[i] == r[i - 1]);
        }
      }
    }
  }

  lemma SortedParts<T>(less: Less<T>, x: T, s: seq<T>)
    requires s != [] && Sorted(less, [x] + s)
    ensures Sorted(less, [x] + s[1..]) && Sorted(less, [s[0]] + s[1..])
  {
    var w := [x] + s;
    var a, b := [x] + s[1..], [s[0]] + s[1..];
    forall i, j | 0 <= i < j < |a| ensures !less(a[j], a[i]) {
      assert a[j] == w[j + 1] && a[i] == w[if i == 0 then 0 else i + 1];
    }
    forall i, j | 0 <= i < j < |b| ensures !less(b[j], b[i]) {
      assert b[j] == w[j + 1] && b[i] == w[i + 1];
    }
  }

  lemma KeptAbove<T>(less: Less<T>, x: T, y: T, z: T, s: seq<T>, u: set<T>)
    requires StrictWeak(less, u) && x in u && y in u && z in u && less(x, y) && z in s && y == s[0]
             && Sorted(less, [y] + s[1..])
    ensures less(x, z)
  {
    if z != y {
      var j :| 0 <= j < |s| && s[j] == z;
      assert ([y] + s[1..])[j] == z && ([y] + s[1..])[0] == y;
      assert !less(z, y);
      BelowBoth(less, u, x, y, z);
    }
  }

  lemma BelowBoth<T>(less: Less<T>, u: set<T>, x: T, y: T, z: T)
    requires StrictWeak(less, u) && x in u && y in u && z in u && less(x, y) && !less(z, y)
    ensures less(x, z)
  {
    assert less(z, x) ==> less(z, y);
    assert Equiv(less, y, z) || less(y, z);
    assert less(y, z) ==> less(x, z);
    assert Equiv(less, x, z) && Equiv(less, z, y) ==> Equiv(less, x, y);
  }

  /** list_remove() of the element at position k of a list. */
  method RemoveAt(list: List, elem: Elem, ghost k: nat) returns (next: Elem)
    requires list.Valid() && 0 < k < |list.nodes| - 1 && elem == list.nodes[k]
    modifies list`nodes, list.nodes
    ensures list.Valid() && list.nodes == old(list.nodes)[..k] + old(list.nodes)[k + 1..]
            && next == old(list.nodes)[k + 1]
    ensures elem !in list.nodes
  {
    ghost var w := list.nodes;
    Neighbours(w, k - 1);
    Neighbours(w, k);
    RemovedOnce(w, k);
    next := ListRemove(elem, w, k);
    list.nodes := w[..k] + w[k + 1..];
  }

  ghost function NodesOf(list: List?): set<object>
    reads list
  {
    if list == null then {} else set e: object | e in list.nodes
  }

  /** The lists share no node. */
  ghost predicate Separate(list: List, other: List?)
    reads list, other
  {
    list != other && (other != null ==> forall e: object :: e in list.nodes ==> e !in other.nodes)
  }

  /** list_push_back() on one list leaves a separate one alone. */
  method AppendApart(list: List, other: List, elem: Elem)
    requires list.Valid() && other.Valid() && Separate(list, other) && elem !in list.nodes && elem !in other.nodes
    modifies other, other.nodes, elem
    ensures list.Valid() && list.nodes == old(list.nodes)
    ensures other.Valid() && other.Elems() == old(other.Elems()) + [elem]
    ensures Separate(list, other) && forall e :: e in other.nodes ==> e == elem || e in old(other.nodes)
  {
    assert list.head == list.nodes[0] && list.tail == list.nodes[|list.nodes| - 1];
    assert list.head in list.nodes && list.tail in list.nodes;
    assert forall k :: 0 <= k < |list.nodes| ==> list.nodes[k] !in other.nodes && list.nodes[k] != elem;
    other.PushBack(elem);
  }

  /** list_remove() from one list leaves a separate one alone. */
  method RemoveApart(list: List, elem: Elem, ghost k: nat, other: List) returns (next: Elem)
    requires list.Valid() && 0 < k < |list.nodes| - 1 && elem == list.nodes[k]
    requires other.Valid() && Separate(list, other)
    modifies list`nodes, list.nodes
    ensures list.Valid() && list.nodes == old(list.nodes)[..k] + old(list.nodes)[k + 1..]
            && next == old(list.nodes)[k + 1]
    ensures elem !in list.nodes && elem !in other.nodes
    ensures other.Valid() && other.nodes == old(other.nodes) && Separate(list, other)
  {
    assert other.head == other.nodes[0] && other.tail == other.nodes[|other.nodes| - 1];
    assert other.head in other.nodes && other.tail in other.nodes;
    assert forall k :: 0 <= k < |other.nodes| ==> other.nodes[k] !in list.nodes;
    assert elem in list.nodes;
    RemovedSubset(list.nodes, k);
    next := RemoveAt(list, elem, k);
  }

  /** The removal in list_unique(): the element at position k goes to the end of the
      other list, if there is one. */
  method MoveOut(list: List, elem: Elem, ghost k: nat, other: List?) returns (next: Elem)
    requires list.Valid() && 0 < k < |list.nodes| - 1 && elem == list.nodes[k]
    requires (other != null ==> other.Valid()) && Separate(list, other)
    modifies list`nodes, list.nodes, if other == null then {} else {other}, NodesOf(other)
    ensures list.Valid() && list.nodes == old(list.nodes)[..k] + old(list.nodes)[k + 1..]
            && next == old(list.nodes)[k + 1]
    ensures other != null ==> other.Valid() && other.Elems() == old(other.Elems()) + [elem]
    ensures Separate(list, other)
    ensures other != null ==> forall e :: e in other.nodes ==> e == elem || e in old(other.nodes)
  {
    if other == null {
      next := RemoveAt(list, elem, k);
    } else {
      next := RemoveApart(list, elem, k, other);
      AppendApart(list, other, elem);
    }
  }

  lemma RemovedSubset<T>(w: seq<T>, k: nat)
    requires k < |w|
    ensures forall e :: e in w[..k] + w[k + 1..] ==> e in w
  {
  }

  /** What is still to come of list_unique() at position k of the nodes w. */
  ghost function KeptFromHere(less: Less<Elem>, w: seq<Elem>, k: nat): seq<Elem>
    requires 0 < k < |w| - 1
  {
    w[1..k] + Kept(less, w[k], w[k + 1..|w| - 1])
  }

  ghost function DroppedFromHere(less: Less<Elem>, w: seq<Elem>, k: nat): seq<Elem>
    requires 0 < k < |w| - 1
  {
    Dropped(less, w[k], w[k + 1..|w| - 1])
  }

  lemma RemoveStep(less: Less<Elem>, w: seq<Elem>, k: nat)
    requires 0 < k < |w| - 2 && Equiv(less, w[k], w[k + 1])
    ensures var r := w[..k + 1] + w[k + 2..];
            && r[k] == w[k] && KeptFromHere(less, r, k) == KeptFromHere(less, w, k)
            && DroppedFromHere(less, w, k) == [w[k + 1]] + DroppedFromHere(less, r, k)
  {
    var n, r := |w| - 1, w[..k + 1] + w[k + 2..];
    assert w[k + 1..n][0] == w[k + 1] && w[k + 1..n][1..] == w[k + 2..n] == r[k + 1..n - 1];
    assert r[1..k] == w[1..k];
  }

  lemma KeepStep(less: Less<Elem>, w: seq<Elem>, k: nat)
    requires 0 < k < |w| - 2 && !Equiv(less, w[k], w[k + 1])
    ensures KeptFromHere(less, w, k + 1) == KeptFromHere(less, w, k)
    ensures DroppedFromHere(less, w, k + 1) == DroppedFromHere(less, w, k)
  {
    var n := |w| - 1;
    assert w[k + 1..n][0] == w[k + 1] && w[k + 1..n][1..] == w[k + 2..n];
    assert w[1..k + 1] == w[1..k] + [w[k]];
  }

  lemma LastStep(less: Less<Elem>, w: seq<Elem>, k: nat)
    requires 0 < k == |w| - 2
    ensures KeptFromHere(less, w, k) == w[1..|w| - 1] && DroppedFromHere(less, w, k) == []
  {
  }

  lemma FirstStep(less: Less<Elem>, w: seq<Elem>)
    requires |w| > 2
    ensures KeptFromHere(less, w, 1) == Unique(less, w[1..|w| - 1])
    ensures DroppedFromHere(less, w, 1) == Duplicates(less, w[1..|w| - 1])
  {
    assert w[1..|w| - 1][1..] == w[2..|w| - 1];
  }

  ghost function ElemsOf(list: List?): seq<Elem>
    reads list
  {
    if list == null || |list.nodes| < 2 then [] else list.Elems()
  }

  /** list_unique() between two iterations: elem is kept and next comes after it. */
  ghost predicate Between(list: List, other: List?, elem: Elem, next: Elem, k: nat)
    reads list, list.head, list.tail, list.nodes
    reads other, if other == null then {} else {other.head, other.tail}, NodesOf(other)
  {
    && list.Valid() && (other != null ==> other.Valid()) && Separate(list, other)
    && 0 < k < |list.nodes| - 1 && elem == list.nodes[k] && next == list.nodes[k + 1]
  }

  /** One iteration of list_unique(). */
  method UniqueStep(list: List, other: List?, elem: Elem, next: Elem, less: Less<Elem>, ghost k: nat)
    returns (elem': Elem, next': Elem, ghost k': nat)
    requires Between(list, other, elem, next, k) && next != list.tail
    modifies list`nodes, NodesOf(list), if other == null then {} else {other}, NodesOf(other)
    ensures Between(list, other, elem', next', k') && |list.nodes| - k' < |old(list.nodes)| - k
    ensures KeptFromHere(less, list.nodes, k') == old(KeptFromHere(less, list.nodes, k))
    ensures other != null ==> ElemsOf(other) + DroppedFromHere(less, list.nodes, k')
                                == old(ElemsOf(other) + DroppedFromHere(less, list.nodes, k))
    ensures NodesOf(list) <= old(NodesOf(list)) && NodesOf(other) <= old(NodesOf(other)) + old(NodesOf(list))
  {
    ghost var w, d := list.nodes, ElemsOf(other);
    OnceNoDup(w);
    if !less(elem, next) && !less(next, elem) {
      RemoveStep(less, w, k);
      elem', k' := elem, k;
      next' := MoveOut(list, next, k + 1, other);
      ghost var rest := DroppedFromHere(less, list.nodes, k);
      assert d + ([next] + rest) == (d + [next]) + rest;
    } else {
      KeepStep(less, w, k);
      Neighbours(w, k + 1);
      elem', next', k' := next, next.next, k + 1;
    }
  }

  /** list_empty() */
  lemma EmptyTest(list: List)
    requires list.Valid()
    ensures list.head.next == list.tail <==> |list.nodes| == 2
  {
    Neighbours(list.nodes, 0);
    OnceNoDup(list.nodes);
  }

  /** The first two nodes of a list that is not empty. */
  method FirstTwo(list: List) returns (elem: Elem, next: Elem)
    requires list.Valid() && |list.nodes| > 2
    ensures elem == list.nodes[1] && next == list.nodes[2]
  {
    Neighbours(list.nodes, 0);
    Neighbours(list.nodes, 1);
    elem := list.head.next;
    next := elem.next;
  }

  /** The end of the loop: next is the tail only after the last element. */
  lemma AtTail(list: List, k: nat)
    requires list.Valid() && 0 < k < |list.nodes| - 1 && list.nodes[k + 1] == list.tail
    ensures k == |list.nodes| - 2
  {
    OnceNoDup(list.nodes);
  }

  /** The loop of list_unique(). */
  method UniqueLoop(list: List, other: List?, elem0: Elem, next0: Elem, less: Less<Elem>) returns (ghost k: nat)
    requires Between(list, other, elem0, next0, 1)
    modifies list`nodes, NodesOf(list), if other == null then {} else {other}, NodesOf(other)
    ensures list.Valid() && 0 < k == |list.nodes| - 2
    ensures KeptFromHere(less, list.nodes, k) == old(KeptFromHere(less, list.nodes, 1))
    ensures other != null ==>
              && other.Valid()
              && ElemsOf(other) + DroppedFromHere(less, list.nodes, k)
                   == old(ElemsOf(other) + DroppedFromHere(less, list.nodes, 1))
  {
    var elem, next := elem0, next0;
    k := 1;
    while next != list.tail
      invariant Between(list, other, elem, next, k)
      invariant KeptFromHere(less, list.nodes, k) == old(KeptFromHere(less, list.nodes, 1))
      invariant other != null ==> ElemsOf(other) + DroppedFromHere(less, list.nodes, k)
                                    == old(ElemsOf(other) + DroppedFromHere(less, list.nodes, 1))
      invariant NodesOf(list) <= old(NodesOf(list)) && NodesOf(other) <= old(NodesOf(other)) + old(NodesOf(list))
      decreases |list.nodes| - k
    {
      elem, next, k := UniqueStep(list, other, elem, next, less, k);
    }
    AtTail(list, k);
  }

  /** list_unique() of a list that is not empty. */
  method UniqueNonempty(list: List, other: List?, less: Less<Elem>)
    requires list.Valid() && |list.nodes| > 2 && (other != null ==> other.Valid()) && Separate(list, other)
    modifies list`nodes, NodesOf(list), if other == null then {} else {other}, NodesOf(other)
    ensures list.Valid() && list.Elems() == Unique(less, old(list.Elems()))
    ensures other != null ==>
              other.Valid() && ElemsOf(other) == old(ElemsOf(other)) + Duplicates(less, old(list.Elems()))
  {
    FirstStep(less, list.nodes);
    var elem, next := FirstTwo(list);
    ghost var k := UniqueLoop(list, other, elem, next, less);
    LastStep(less, list.nodes, k);
  }

  /** list_unique(): of each set of equal neighbours the first stays, and the others
      go to the end of the list of duplicates, if there is one. */
  method RemoveDuplicates(list: List, duplicates: List?, less: Less<Elem>)
    requires list.Valid() && (duplicates != null ==> duplicates.Valid()) && Separate(list, duplicates)
    modifies list`nodes, NodesOf(list), if duplicates == null then {} else {duplicates}, NodesOf(duplicates)
    ensures list.Valid() && list.Elems() == Unique(less, old(list.Elems()))
    ensures duplicates != null ==>
              && duplicates.Valid()
              && ElemsOf(duplicates) == old(ElemsOf(duplicates)) + Duplicates(less, old(list.Elems()))
  {
    EmptyTest(list);
    if list.head.next != list.tail {
      UniqueNonempty(list, duplicates, less);
    }
  }
}
