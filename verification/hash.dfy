/**
 lib/kernel/hash.c: a hash table of lists whose number of buckets is a power of 2
 that follows the number of elements, proved against the bag of its elements.
 */
module HashTables {
  import opened Common
  import opened MergeSort

  // ---------------------------------------------------------------------
  // Powers of 2
  // ---------------------------------------------------------------------

  /** x & y */
  function And(x: nat, y: nat): nat {
    if x == 0 || y == 0 then 0 else 2 * And(x / 2, y / 2) + (if x % 2 == 1 && y % 2 == 1 then 1 else 0)
  }

  predicate PowerOf2(x: nat) {
    x == 1 || (x > 1 && x % 2 == 0 && PowerOf2(x / 2))
  }

  /** turn_off_least_1bit() */
  function TurnOff(x: nat): nat {
    if x == 0 then 0 else And(x, x - 1)
  }

  /** The biggest power of 2 that is no bigger than x. */
  function TopPower(x: nat): (p: nat)
    ensures PowerOf2(p) && (x > 0 ==> p <= x < 2 * p)
  {
    if x < 2 then 1 else 2 * TopPower(x / 2)
  }

  lemma {:induction false} AndSelf(x: nat)
    ensures And(x, x) == x
  {
    if x > 0 {
      AndSelf(x / 2);
    }
  }

  lemma AndOdd(x: nat, m: nat)
    requires m % 2 == 1
    ensures And(x, m) == 2 * And(x / 2, m / 2) + x % 2
  {
  }

  lemma RemainderIs(x: nat, d: nat, k: nat, r: nat)
    requires x == k * d + r && r < d
    ensures x % d == r
  {
    var k', r' := x / d, x % d;
    assert x == k' * d + r';
    if k < k' {
      MulMono(k, k', d);
    } else if k' < k {
      MulMono(k', k, d);
    }
  }

  lemma HalfRemainder(x: nat, p: nat, h: nat)
    requires h > 0 && p == 2 * h
    ensures x % p == 2 * (x / 2 % h) + x % 2
  {
    var k, r := x / 2 / h, x / 2 % h;
    assert x / 2 == k * h + r;
    assert k * p == 2 * (k * h);
    RemainderIs(x, p, k, 2 * r + x % 2);
  }

  lemma MaskStep(x: nat, p: nat, h: nat)
    requires h > 0 && p == 2 * h && And(x / 2, h - 1) == x / 2 % h
    ensures And(x, p - 1) == x % p
  {
    assert (p - 1) / 2 == h - 1;
    AndOdd(x, p - 1);
    HalfRemainder(x, p, h);
  }

  /** Masking with one less than a power of 2 is taking the remainder. */
  lemma {:induction false} AndMask(x: nat, p: nat)
    requires PowerOf2(p)
    ensures And(x, p - 1) == x % p
    decreases p
  {
    if p > 1 {
      AndMask(x / 2, p / 2);
      MaskStep(x, p, p / 2);
    }
  }

  /** Turning off the lowest 1 bit. */
  lemma {:induction false} TurnOffStep(x: nat)
    requires x > 0
    ensures TurnOff(x) == if x % 2 == 1 then x - 1 else 2 * TurnOff(x / 2)
  {
    if x % 2 == 1 {
      AndSelf(x / 2);
      assert (x - 1) / 2 == x / 2;
    } else {
      assert (x - 1) / 2 == x / 2 - 1;
    }
  }

  /** The test of is_power_of_2(). */
  lemma {:induction false} PowerTest(x: nat)
    ensures PowerOf2(x) <==> x != 0 && TurnOff(x) == 0
  {
    if x > 0 {
      TurnOffStep(x);
      if x % 2 == 0 {
        PowerTest(x / 2);
      }
    }
  }

  /** Turning off the lowest 1 bit of a number that is no power of 2 leaves its highest. */
  lemma {:induction false} TurnOffTop(x: nat)
    requires x > 0 && !PowerOf2(x)
    ensures 0 < TurnOff(x) < x && TopPower(TurnOff(x)) == TopPower(x)
  {
    TurnOffStep(x);
    if x % 2 == 1 {
      assert (x - 1) / 2 == x / 2;
    } else {
      TurnOffTop(x / 2);
    }
  }

  lemma {:induction false} TopOfPower(x: nat)
    requires PowerOf2(x)
    ensures TopPower(x) == x
  {
    if x > 1 {
      TopOfPower(x / 2);
    }
  }

  /** The loop of rehash() that makes the bucket count a power of 2. */
  method RoundDown(n: nat) returns (p: nat)
    requires n > 0
    ensures p == TopPower(n)
  {
    p := n;
    PowerTest(p);
    while !(p != 0 && TurnOff(p) == 0)
      invariant p > 0 && TopPower(p) == TopPower(n) && (PowerOf2(p) <==> TurnOff(p) == 0)
      decreases p
    {
      TurnOffTop(p);
      p := TurnOff(p);
      PowerTest(p);
    }
    TopOfPower(p);
  }

  /** The bucket count rehash() wants for a number of elements. */
  function IdealCount(elemCnt: nat): nat {
    TopPower(if elemCnt / 2 < 4 then 4 else elemCnt / 2)
  }

  /** It is the largest power of 2 that is at most half the number of elements, or 4; so it leaves
      fewer than 4 elements a bucket. */
  lemma IdealEnough(elemCnt: nat)
    ensures PowerOf2(IdealCount(elemCnt)) && IdealCount(elemCnt) >= 4 && elemCnt < 4 * IdealCount(elemCnt)
    ensures (if elemCnt < 8 then 4 else elemCnt / 2) < 2 * IdealCount(elemCnt)
    ensures IdealCount(elemCnt) <= if elemCnt < 8 then 4 else elemCnt / 2
  {
    assert TopPower(4) == 4;
  }

  // ---------------------------------------------------------------------
  // Tables
  // ---------------------------------------------------------------------

  /** Elements that compare equal hash alike, and comparing equal is an equivalence. */
  ghost predicate Hashable<T(!new)>(hash: T -> nat, less: Less<T>) {
    && (forall x, y :: Equiv(less, x, y) ==> hash(x) == hash(y))
    && (forall x :: !less(x, x))
    && (forall x, y, z :: Equiv(less, x, y) && Equiv(less, y, z) ==> Equiv(less, x, z))
  }

  ghost function Flat<T>(buckets: seq<seq<T>>): seq<T> {
    if buckets == [] then [] else Flat(buckets[..|buckets| - 1]) + buckets[|buckets| - 1]
  }

  /** The elements of the table. */
  ghost function Bag<T>(buckets: seq<seq<T>>): multiset<T> {
    multiset(Flat(buckets))
  }

  function BucketOf(h: nat, bucketCnt: nat): nat
    requires bucketCnt > 0
  {
    h % bucketCnt
  }

  /** Each element is in the bucket its hash selects. */
  ghost predicate Placed<T>(buckets: seq<seq<T>>, hash: T -> nat) {
    forall b, x :: 0 <= b < |buckets| && x in buckets[b] ==> BucketOf(hash(x), |buckets|) == b
  }

  /** At most one element of each equivalence class. */
  ghost predicate OnePerClass<T(!new)>(bag: multiset<T>, less: Less<T>) {
    && (forall x :: x in bag ==> bag[x] == 1)
    && (forall x, y :: x in bag && y in bag && x != y ==> !Equiv(less, x, y))
  }

  lemma BagLast<T>(buckets: seq<seq<T>>)
    requires buckets != []
    ensures var n := |buckets| - 1; Bag(buckets) == Bag(buckets[..n]) + multiset(buckets[n])
  {
  }

  lemma AddBoth<T>(a: multiset<T>, b: multiset<T>, c: multiset<T>, d: multiset<T>, l: multiset<T>)
    requires a + b == c + d
    ensures (a + l) + b == (c + l) + d
  {
    assert (a + l) + b == (a + b) + l;
    assert (c + l) + d == (c + d) + l;
  }

  lemma Cancel<T>(a: multiset<T>, b: multiset<T>, c: multiset<T>, d: multiset<T>)
    requires a + b == c + (d + b)
    ensures a == c + d
  {
    assert a == (a + b) - b;
    assert c + d == (c + (d + b)) - b;
  }

  lemma CancelLess<T>(a: multiset<T>, b: multiset<T>, c: multiset<T>, d: multiset<T>)
    requires a + (d + b) == c + b
    ensures a == c - d && d <= c
  {
    assert a + d == (a + (d + b)) - b;
    assert c == (c + b) - b;
  }

  lemma {:induction false} BagUpdate<T>(buckets: seq<seq<T>>, b: nat, bucket: seq<T>)
    requires b < |buckets|
    ensures Bag(buckets[b := bucket]) + multiset(buckets[b]) == Bag(buckets) + multiset(bucket)
  {
    var n, buckets' := |buckets| - 1, buckets[b := bucket];
    BagLast(buckets);
    BagLast(buckets');
    if b == n {
      assert buckets'[..n] == buckets[..n];
    } else {
      BagUpdate(buckets[..n], b, bucket);
      assert buckets'[..n] == buckets[..n][b := bucket] && buckets[..n][b] == buckets[b];
      AddBoth(Bag(buckets'[..n]), multiset(buckets[b]), Bag(buckets[..n]), multiset(bucket), multiset(buckets[n]));
    }
  }

  /** Membership in the table and in a bucket. */
  lemma {:induction false} InBag<T>(buckets: seq<seq<T>>, x: T)
    ensures x in Bag(buckets) <==> exists b :: 0 <= b < |buckets| && x in buckets[b]
  {
    if buckets != [] {
      var n := |buckets| - 1;
      InBag(buckets[..n], x);
      if x in Bag(buckets[..n]) {
        var b :| 0 <= b < n && x in buckets[..n][b];
        assert x in buckets[b];
      }
      if b :| 0 <= b < |buckets| && x in buckets[b] {
        assert b < n ==> x in buckets[..n][b];
      }
    }
  }

  lemma {:induction false} RemoveBag<T>(s: seq<T>, x: T)
    requires x in s
    ensures multiset(RemoveFirst(s, x)) + multiset{x} == multiset(s)
  {
    assert s == [s[0]] + s[1..];
    if s[0] != x {
      RemoveBag(s[1..], x);
    }
  }

  /** An element is found if its bucket is searched. */
  lemma SameBucket<T(!new)>(buckets: seq<seq<T>>, hash: T -> nat, less: Less<T>, e: T, x: T)
    requires Hashable(hash, less) && Placed(buckets, hash) && buckets != [] && x in Bag(buckets) && Equiv(less, x, e)
    ensures x in buckets[BucketOf(hash(e), |buckets|)]
  {
    InBag(buckets, x);
  }

  lemma AddOne<T(!new)>(bag: multiset<T>, less: Less<T>, e: T)
    requires OnePerClass(bag, less) && !less(e, e) && forall x :: x in bag ==> !Equiv(less, x, e)
    ensures e !in bag && OnePerClass(bag + multiset{e}, less)
  {
    forall x | x in bag ensures !Equiv(less, e, x) {}
    assert e in bag ==> !Equiv(less, e, e);
  }

  lemma DropOne<T(!new)>(bag: multiset<T>, less: Less<T>, x: T)
    requires OnePerClass(bag, less) && x in bag
    ensures OnePerClass(bag - multiset{x}, less) && forall y :: y in bag - multiset{x} ==> !Equiv(less, y, x)
  {
  }

  lemma {:induction false} BagOfEmpty<T>(buckets: seq<seq<T>>)
    requires forall b :: 0 <= b < |buckets| ==> buckets[b] == []
    ensures Bag(buckets) == multiset{}
  {
    if buckets != [] {
      BagLast(buckets);
      BagOfEmpty(buckets[..|buckets| - 1]);
    }
  }

  lemma PushBag<T>(buckets: seq<seq<T>>, b: nat, e: T)
    requires b < |buckets|
    ensures Bag(buckets[b := [e] + buckets[b]]) == Bag(buckets) + multiset{e}
  {
    BagUpdate(buckets, b, [e] + buckets[b]);
    assert multiset([e] + buckets[b]) == multiset{e} + multiset(buckets[b]);
    Cancel(Bag(buckets[b := [e] + buckets[b]]), multiset(buckets[b]), Bag(buckets), multiset{e});
  }

  lemma PushPlaced<T>(buckets: seq<seq<T>>, hash: T -> nat, e: T)
    requires buckets != [] && Placed(buckets, hash)
    ensures var b := BucketOf(hash(e), |buckets|); Placed(buckets[b := [e] + buckets[b]], hash)
  {
  }

  lemma RemoveFromBag<T>(buckets: seq<seq<T>>, b: nat, x: T)
    requires b < |buckets| && x in buckets[b]
    ensures Bag(buckets[b := RemoveFirst(buckets[b], x)]) == Bag(buckets) - multiset{x} && x in Bag(buckets)
  {
    BagUpdate(buckets, b, RemoveFirst(buckets[b], x));
    RemoveBag(buckets[b], x);
    var rest := multiset(RemoveFirst(buckets[b], x));
    assert multiset(buckets[b]) == multiset{x} + rest;
    CancelLess(Bag(buckets[b := RemoveFirst(buckets[b], x)]), rest, Bag(buckets), multiset{x});
    InBag(buckets, x);
  }

  lemma RemovePlaced<T>(buckets: seq<seq<T>>, hash: T -> nat, b: nat, x: T)
    requires b < |buckets| && x in buckets[b] && Placed(buckets, hash)
    ensures Placed(buckets[b := RemoveFirst(buckets[b], x)], hash)
  {
    forall y | y in RemoveFirst(buckets[b], x) ensures y in buckets[b] { RemovedFrom(buckets[b], x, y); }
  }

  class Hash<T(!new, ==)> {
    const hash: T -> nat
    const less: Less<T>
    var elemCnt: nat
    var bucketCnt: nat
    var buckets: seq<seq<T>>

    /** The table is well formed: it holds one element of each class at most, each in
        the bucket its hash selects, and counts them. */
    ghost predicate Valid()
      reads this
    {
      && Hashable(hash, less)
      && PowerOf2(bucketCnt) && bucketCnt >= 4 && |buckets| == bucketCnt
      && Placed(buckets, hash) && OnePerClass(Bag(buckets), less) && elemCnt == |Bag(buckets)|
    }

    /** hash_init(), when there is memory for the first four buckets. */
    constructor (h: T -> nat, l: Less<T>)
      requires Hashable(h, l)
      ensures Valid() && Bag(buckets) == multiset{} && hash == h && less == l
    {
      hash, less := h, l;
      elemCnt, bucketCnt := 0, 4;
      buckets := seq(4, _ => []);
      new;
      BagOfEmpty(buckets);
    }

    /** find_bucket(): the mask of the bucket count selects an existing bucket. */
    method FindBucket(e: T) returns (b: nat)
      requires PowerOf2(bucketCnt) && |buckets| == bucketCnt
      ensures b < |buckets| && b == BucketOf(hash(e), |buckets|)
    {
      b := And(hash(e), bucketCnt - 1);
      AndMask(hash(e), bucketCnt);
    }

    /** find_elem() */
    method FindElem(b: nat, e: T) returns (r: Option<T>)
      requires b < |buckets|
      ensures r.Some? ==> r.value in buckets[b] && Equiv(less, r.value, e)
      ensures r == None ==> forall x :: x in buckets[b] ==> !Equiv(less, x, e)
    {
      var i := 0;
      while i < |buckets[b]|
        invariant 0 <= i <= |buckets[b]| && forall j :: 0 <= j < i ==> !Equiv(less, buckets[b][j], e)
      {
        var hi := buckets[b][i];
        if !less(hi, e) && !less(e, hi) {
          return Some(hi);
        }
        i := i + 1;
      }
      return None;
    }

    /** hash_find(): the one element of the table equal to e, if there is any. */
    method Find(e: T) returns (r: Option<T>)
      requires Valid()
      ensures r.Some? ==> r.value in Bag(buckets) && Equiv(less, r.value, e)
      ensures r == None <==> forall x :: x in Bag(buckets) ==> !Equiv(less, x, e)
    {
      var b := FindBucket(e);
      r := FindElem(b, e);
      FoundInBucket(buckets, hash, less, e, b, r);
    }

    /** insert_elem() */
    method InsertElem(b: nat, e: T)
      requires b < |buckets|
      modifies this
      ensures elemCnt == old(elemCnt) + 1 && bucketCnt == old(bucketCnt)
      ensures buckets == old(buckets)[b := [e] + old(buckets)[b]]
    {
      elemCnt := elemCnt + 1;
      buckets := buckets[b := [e] + buckets[b]];
    }

    /** remove_elem() */
    method RemoveElem(ghost b: nat, e: T, at: nat)
      requires b == at < |buckets| && e in buckets[b] && elemCnt > 0
      modifies this
      ensures elemCnt == old(elemCnt) - 1 && bucketCnt == old(bucketCnt)
      ensures buckets == old(buckets)[b := RemoveFirst(old(buckets)[b], e)]
    {
      elemCnt := elemCnt - 1;
      buckets := buckets[at := RemoveFirst(buckets[at], e)];
    }

    /** rehash(): the elements stay; with memory, or when the count is right already,
        the bucket count is the ideal one, otherwise nothing changes. */
    method Rehash(memory: bool)
      requires Valid()
      modifies this
      ensures Valid() && Bag(buckets) == old(Bag(buckets))
      ensures if memory then bucketCnt == IdealCount(elemCnt) && elemCnt < 4 * bucketCnt
              else bucketCnt == old(bucketCnt) && buckets == old(buckets)
    {
      var newCnt := elemCnt / 2;
      if newCnt < 4 {
        newCnt := 4;
      }
      newCnt := RoundDown(newCnt);
      IdealEnough(elemCnt);
      if newCnt == bucketCnt {
        return;
      }
      if !memory {
        return;
      }
      var oldBuckets := buckets;
      buckets := seq(newCnt, _ => []);
      bucketCnt := newCnt;
      MoveAll(oldBuckets);
    }

    /** The loops of rehash() that move the elements to the new buckets. */
    method MoveAll(from: seq<seq<T>>)
      requires PowerOf2(bucketCnt) && |buckets| == bucketCnt && forall b :: 0 <= b < bucketCnt ==> buckets[b] == []
      modifies this`buckets
      ensures |buckets| == bucketCnt && Placed(buckets, hash) && Bag(buckets) == Bag(from)
    {
      BagOfEmpty(buckets);
      var i := 0;
      assert Bag(from[..0]) == multiset{};
      while i < |from|
        invariant 0 <= i <= |from| && |buckets| == bucketCnt && Placed(buckets, hash)
        invariant Bag(buckets) == Bag(from[..i])
      {
        MoveBucket(from[i]);
        assert from[..i + 1][..i] == from[..i];
        BagLast(from[..i + 1]);
        i := i + 1;
      }
      assert from[..i] == from;
    }

    method MoveBucket(list: seq<T>)
      requires PowerOf2(bucketCnt) && |buckets| == bucketCnt && Placed(buckets, hash)
      modifies this`buckets
      ensures |buckets| == bucketCnt && Placed(buckets, hash) && Bag(buckets) == old(Bag(buckets)) + multiset(list)
    {
      var j := 0;
      while j < |list|
        invariant 0 <= j <= |list| && |buckets| == bucketCnt && Placed(buckets, hash)
        invariant Bag(buckets) == old(Bag(buckets)) + multiset(list[..j])
      {
        var b := FindBucket(list[j]);
        PushBag(buckets, b, list[j]);
        PushPlaced(buckets, hash, list[j]);
        assert list[..j + 1] == list[..j] + [list[j]];
        buckets := buckets[b := [list[j]] + buckets[b]];
        j := j + 1;
      }
      assert list[..j] == list;
    }

    /** Put e, which no element equals, in the table. */
    method Put(b: nat, e: T)
      requires Valid() && b < bucketCnt && b == BucketOf(hash(e), bucketCnt)
      requires forall x :: x in Bag(buckets) ==> !Equiv(less, x, e)
      modifies this
      ensures Valid() && Bag(buckets) == old(Bag(buckets)) + multiset{e}
    {
      AddOne(Bag(buckets), less, e);
      PushBag(buckets, b, e);
      PushPlaced(buckets, hash, e);
      InsertElem(b, e);
    }

    /** Take x out of the table. */
    method TakeOut(b: nat, x: T)
      requires Valid() && b < bucketCnt && x in buckets[b]
      modifies this
      ensures Valid() && Bag(buckets) == old(Bag(buckets)) - multiset{x}
      ensures old(Bag(buckets))[x] > 0 && bucketCnt == old(bucketCnt)
      ensures forall y :: y in Bag(buckets) ==> !Equiv(less, y, x)
    {
      RemoveFromBag(buckets, b, x);
      RemovePlaced(buckets, hash, b, x);
      DropOne(Bag(buckets), less, x);
      RemoveElem(b, x, b);
    }

    /** hash_insert(): the equal element that was there already, which stays, or None
        and e is in the table. */
    method Insert(e: T, memory: bool) returns (r: Option<T>)
      requires Valid()
      modifies this
      ensures Valid()
      ensures r.Some? ==> r.value in old(Bag(buckets)) && Equiv(less, r.value, e) && Bag(buckets) == old(Bag(buckets))
      ensures r == None ==>
                (forall x :: x in old(Bag(buckets)) ==> !Equiv(less, x, e))
                && Bag(buckets) == old(Bag(buckets)) + multiset{e}
      ensures memory ==> bucketCnt == IdealCount(elemCnt) && elemCnt < 4 * bucketCnt
    {
      var b := FindBucket(e);
      r := FindElem(b, e);
      FoundInBucket(buckets, hash, less, e, b, r);
      if r == None {
        Put(b, e);
      }
      Rehash(memory);
    }

    /** hash_replace(): e is in the table, and the element it equals, if any, is out. */
    method Replace(e: T, memory: bool) returns (r: Option<T>)
      requires Valid()
      modifies this
      ensures Valid()
      ensures r.Some? ==> r.value in old(Bag(buckets)) && Equiv(less, r.value, e)
      ensures r.Some? ==> Bag(buckets) == old(Bag(buckets)) - multiset{r.value} + multiset{e}
      ensures r == None ==>
                (forall x :: x in old(Bag(buckets)) ==> !Equiv(less, x, e))
                && Bag(buckets) == old(Bag(buckets)) + multiset{e}
      ensures memory ==> bucketCnt == IdealCount(elemCnt) && elemCnt < 4 * bucketCnt
    {
      var b := FindBucket(e);
      r := FindElem(b, e);
      FoundInBucket(buckets, hash, less, e, b, r);
      if r.Some? {
        TakeOut(b, r.value);
        NoneEqual(Bag(buckets), hash, less, r.value, e);
      }
      Put(b, e);
      Rehash(memory);
    }

    /** hash_delete(): the element equal to e, if any, is out. */
    method Delete(e: T, memory: bool) returns (r: Option<T>)
      requires Valid()
      modifies this
      ensures Valid()
      ensures r.Some? ==> r.value in old(Bag(buckets)) && Equiv(less, r.value, e)
      ensures r.Some? ==> Bag(buckets) == old(Bag(buckets)) - multiset{r.value}
      ensures r == None ==> (forall x :: x in old(Bag(buckets)) ==> !Equiv(less, x, e)) && buckets == old(buckets)
      ensures r.Some? && memory ==> bucketCnt == IdealCount(elemCnt) && elemCnt < 4 * bucketCnt
    {
      var b := FindBucket(e);
      r := FindElem(b, e);
      FoundInBucket(buckets, hash, less, e, b, r);
      if r.Some? {
        TakeOut(b, r.value);
        Rehash(memory);
      }
    }

    /** hash_clear() without a destructor */
    method Clear()
      requires Valid()
      modifies this
      ensures Valid() && Bag(buckets) == multiset{} && bucketCnt == old(bucketCnt)
    {
      var i := 0;
      while i < bucketCnt
        invariant 0 <= i <= bucketCnt && bucketCnt == old(bucketCnt) && |buckets| == bucketCnt
        invariant forall b :: 0 <= b < i ==> buckets[b] == []
      {
        buckets := buckets[i := []];
        i := i + 1;
      }
      elemCnt := 0;
      BagOfEmpty(buckets);
    }
  }

  lemma NoneEqual<T(!new)>(bag: multiset<T>, hash: T -> nat, less: Less<T>, x: T, e: T)
    requires Hashable(hash, less) && Equiv(less, x, e) && forall y :: y in bag ==> !Equiv(less, y, x)
    ensures forall y :: y in bag ==> !Equiv(less, y, e)
  {
    forall y | y in bag ensures !Equiv(less, y, e) {
      assert Equiv(less, e, x);
      assert Equiv(less, y, e) ==> Equiv(less, y, x);
    }
  }

  // ---------------------------------------------------------------------
  // Iteration
  // ---------------------------------------------------------------------

  lemma {:induction false} FlatPrefix<T>(buckets: seq<seq<T>>, b: nat)
    requires b <= |buckets|
    ensures |Flat(buckets[..b])| <= |Flat(buckets)| && Flat(buckets[..b]) == Flat(buckets)[..|Flat(buckets[..b])|]
  {
    if b < |buckets| {
      var init := buckets[..|buckets| - 1];
      FlatPrefix(init, b);
      assert init[..b] == buckets[..b];
    } else {
      assert buckets[..b] == buckets;
    }
  }

  /** Where the elements of bucket b are in the order of iteration. */
  lemma FlatAt<T>(buckets: seq<seq<T>>, b: nat)
    requires b < |buckets|
    ensures var n := |Flat(buckets[..b])|;
            && |Flat(buckets[..b + 1])| == n + |buckets[b]| <= |Flat(buckets)|
            && forall k :: 0 <= k < |buckets[b]| ==> Flat(buckets)[n + k] == buckets[b][k]
  {
    var p := buckets[..b + 1];
    assert p[..b] == buckets[..b];
    FlatPrefix(buckets, b + 1);
    assert Flat(p) == Flat(buckets[..b]) + buckets[b];
  }

  /** struct hash_iterator: the bucket and the position in it; -1 is the list's head. */
  class HashIterator<T(!new, ==)> {
    const table: Hash<T>
    var bucket: nat
    var pos: int
    var ended: bool

    /** How many elements have been visited. */
    ghost function Seen(): int
      reads this, table
    {
      if bucket < |table.buckets| then |Flat(table.buckets[..bucket])| + pos + 1 else |Flat(table.buckets)|
    }

    ghost predicate Valid()
      reads this, table
    {
      && table.Valid()
      && (!ended ==> bucket < |table.buckets| && -1 <= pos && (pos < |table.buckets[bucket]|))
    }

    /** hash_first() */
    constructor (h: Hash<T>)
      requires h.Valid()
      ensures Valid() && table == h && !ended && Seen() == 0
    {
      table := h;
      bucket, pos, ended := 0, -1, false;
      new;
      assert h.buckets[..0] == [];
    }

    /** hash_next(): the next element in the order of the buckets, or None after the
        last. */
    method Next() returns (r: Option<T>)
      requires Valid() && !ended
      modifies this
      ensures Valid() && ended == (r == None)
      ensures 0 <= old(Seen()) <= |Flat(table.buckets)|
      ensures r == if old(Seen()) < |Flat(table.buckets)| then Some(Flat(table.buckets)[old(Seen())]) else None
      ensures r.Some? ==> Seen() == old(Seen()) + 1
    {
      hide Flat, Placed, Bag, Hashable, OnePerClass, PowerOf2;
      ghost var seen := Seen();
      ghost var flat := Flat(table.buckets);
      FlatAt(table.buckets, bucket);
      pos := pos + 1;
      while pos == |table.buckets[bucket]|
        invariant bucket < |table.buckets| && 0 <= pos <= |table.buckets[bucket]| && !ended
        invariant seen == |Flat(table.buckets[..bucket])| + pos && 0 <= seen
        decreases |table.buckets| - bucket
      {
        FlatAt(table.buckets, bucket);
        if bucket + 1 >= table.bucketCnt {
          assert table.buckets[..bucket + 1] == table.buckets;
          ended := true;
          return None;
        }
        bucket := bucket + 1;
        pos := 0;
      }
      FlatAt(table.buckets, bucket);
      r := Some(table.buckets[bucket][pos]);
    }
  }

  /** The iteration idiom of hash_first() visits each element of the table exactly
      once. */
  method VisitAll<T(!new, ==)>(h: Hash<T>) returns (visited: seq<T>)
    requires h.Valid()
    ensures multiset(visited) == Bag(h.buckets)
  {
    hide Flat, Bag, Placed, Hashable, OnePerClass, PowerOf2, Upto;
    var i := new HashIterator(h);
    visited := [];
    ghost var flat := Flat(h.buckets);
    var e := i.Next();
    UptoNothing(flat, e);
    while e.Some?
      invariant i.table == h && i.Valid() && fresh(i) && i.ended == (e == None)
      invariant flat == Flat(h.buckets) && Upto(flat, visited, e)
      invariant |visited| <= |flat| && (e.Some? ==> i.Seen() == |visited| + 1)
      decreases |flat| - |visited|, e.Some?
    {
      ghost var before, last := visited, e.value;
      visited := visited + [e.value];
      e := i.Next();
      UptoNext(flat, before, last, e);
    }
    UptoAll(h.buckets, visited);
  }

  /** visited is the start of flat, and e the element after it, if there is one. */
  ghost predicate Upto<T>(flat: seq<T>, visited: seq<T>, e: Option<T>) {
    && visited <= flat
    && e == if |visited| < |flat| then Some(flat[|visited|]) else None
  }

  lemma UptoNext<T>(flat: seq<T>, visited: seq<T>, x: T, e: Option<T>)
    requires Upto(flat, visited, Some(x))
    requires e == if |visited| + 1 < |flat| then Some(flat[|visited| + 1]) else None
    ensures |visited| < |flat| && Upto(flat, visited + [x], e)
  {
  }

  lemma UptoNothing<T>(flat: seq<T>, e: Option<T>)
    requires e == if 0 < |flat| then Some(flat[0]) else None
    ensures Upto(flat, [], e)
  {
  }

  lemma UptoAll<T>(buckets: seq<seq<T>>, visited: seq<T>)
    requires Upto(Flat(buckets), visited, None)
    ensures multiset(visited) == Bag(buckets)
  {
    assert visited == Flat(buckets);
  }

  /** Searching the one bucket is searching the table. */
  lemma FoundInBucket<T(!new)>(buckets: seq<seq<T>>, hash: T -> nat, less: Less<T>, e: T, b: nat, r: Option<T>)
    requires Hashable(hash, less) && Placed(buckets, hash) && b < |buckets| && b == BucketOf(hash(e), |buckets|)
    requires r.Some? ==> r.value in buckets[b] && Equiv(less, r.value, e)
    requires r == None ==> forall x :: x in buckets[b] ==> !Equiv(less, x, e)
    ensures r.Some? ==> r.value in Bag(buckets)
    ensures r == None ==> forall x :: x in Bag(buckets) ==> !Equiv(less, x, e)
  {
    if r.Some? {
      InBag(buckets, r.value);
    } else {
      forall x | x in Bag(buckets) ensures !Equiv(less, x, e) {
        if Equiv(less, x, e) {
          SameBucket(buckets, hash, less, e, x);
        }
      }
    }
  }
}
