/**
 lib/kernel/bitmap.c: an array of 32-bit words that simulates an array of bits.
 Every operation is proved against the sequence of booleans it stands for.
 */
module Bitmaps {
  import opened Common

  const ELEM_BITS: nat := 32

  /** A bit number as a word. */
  function Index(i: nat): bv32 {
    if i == 0 then 0 else Index(i - 1) + 1
  }

  /** bit_mask(), for the bit at position b of its word */
  function BitMask(b: bv32): bv32 {
    (1 as bv32) << (b & 31)
  }

  predicate WordBit(w: bv32, b: bv32) {
    w & BitMask(b) != 0
  }

  function Marked(w: bv32, b: bv32): bv32 {
    w | BitMask(b)
  }

  function Cleared(w: bv32, b: bv32): bv32 {
    w & !BitMask(b)
  }

  /** elem_cnt() */
  function ElemCnt(bitCnt: nat): nat {
    (bitCnt + ELEM_BITS - 1) / ELEM_BITS
  }

  lemma IndexValues()
    ensures Index(0) == 0 && Index(1) == 1 && Index(2) == 2 && Index(3) == 3 && Index(4) == 4 && Index(5) == 5
            && Index(6) == 6 && Index(7) == 7
    ensures Index(8) == 8 && Index(9) == 9 && Index(10) == 10 && Index(11) == 11 && Index(12) == 12
            && Index(13) == 13 && Index(14) == 14 && Index(15) == 15
    ensures Index(16) == 16 && Index(17) == 17 && Index(18) == 18 && Index(19) == 19 && Index(20) == 20
            && Index(21) == 21 && Index(22) == 22 && Index(23) == 23
    ensures Index(24) == 24 && Index(25) == 25 && Index(26) == 26 && Index(27) == 27 && Index(28) == 28
            && Index(29) == 29 && Index(30) == 30 && Index(31) == 31
  {
  }

  lemma IndexFits(i: nat)
    requires i < ELEM_BITS
    ensures Index(i) < 32
  {
    IndexValues();
  }

  lemma {:induction false} IndexGrows(i: nat, j: nat)
    requires i < j < ELEM_BITS
    ensures Index(i) < Index(j)
  {
    IndexFits(j - 1);
    if i < j - 1 {
      IndexGrows(i, j - 1);
    }
  }

  lemma IndexInjective(i: nat, j: nat)
    requires i < ELEM_BITS && j < ELEM_BITS
    ensures Index(i) < 32 && Index(j) < 32 && (Index(i) == Index(j) <==> i == j)
  {
    IndexFits(i);
    IndexFits(j);
    if i < j {
      IndexGrows(i, j);
    } else if j < i {
      IndexGrows(j, i);
    }
  }

  lemma OrLaw(w: bv32, a: bv32, b: bv32)
    requires a < 32 && b < 32
    ensures (w | ((1 as bv32) << (a & 31))) & ((1 as bv32) << (b & 31)) != 0
            <==> a == b || w & ((1 as bv32) << (b & 31)) != 0
  {
  }

  // The same laws, one definition at a time: the solver handles each step at once.

  lemma OrMasks(w: bv32, a: bv32, b: bv32, m: bv32, n: bv32)
    requires a < 32 && b < 32 && m == (1 as bv32) << (a & 31) && n == (1 as bv32) << (b & 31)
    ensures (w | m) & n != 0 <==> a == b || w & n != 0
  {
    OrLaw(w, a, b);
  }

  lemma OrBitMasks(w: bv32, a: bv32, b: bv32)
    requires a < 32 && b < 32
    ensures (w | BitMask(a)) & BitMask(b) != 0 <==> a == b || w & BitMask(b) != 0
  {
    OrMasks(w, a, b, BitMask(a), BitMask(b));
  }

  lemma OrWordBit(w: bv32, a: bv32, b: bv32)
    requires a < 32 && b < 32
    ensures WordBit(w | BitMask(a), b) == (a == b || WordBit(w, b))
  {
    OrBitMasks(w, a, b);
  }

  lemma MarkedBit(w: bv32, a: bv32, b: bv32)
    requires a < 32 && b < 32
    ensures WordBit(Marked(w, a), b) == (a == b || WordBit(w, b))
  {
    OrWordBit(w, a, b);
  }

  lemma AndNotSame(w: bv32, a: bv32)
    ensures (w & !((1 as bv32) << (a & 31))) & ((1 as bv32) << (a & 31)) == 0
  {
  }

  lemma AndNotOther(w: bv32, a: bv32, b: bv32)
    requires a < 32 && b < 32 && a != b
    ensures (w & !((1 as bv32) << (a & 31))) & ((1 as bv32) << (b & 31)) == w & ((1 as bv32) << (b & 31))
  {
  }

  lemma AndNotValue(w: bv32, a: bv32, b: bv32, m: bv32, n: bv32)
    requires a < 32 && b < 32 && m == (1 as bv32) << (a & 31) && n == (1 as bv32) << (b & 31)
    ensures a != b ==> (w & !m) & n == w & n
    ensures a == b ==> (w & !m) & n == 0
  {
    if a == b {
      AndNotSame(w, a);
    } else {
      AndNotOther(w, a, b);
    }
  }

  lemma AndNotMasks(w: bv32, a: bv32, b: bv32, m: bv32, n: bv32)
    requires a < 32 && b < 32 && m == (1 as bv32) << (a & 31) && n == (1 as bv32) << (b & 31)
    ensures (w & !m) & n != 0 <==> a != b && w & n != 0
  {
    AndNotValue(w, a, b, m, n);
  }

  lemma AndNotBitMasks(w: bv32, a: bv32, b: bv32)
    requires a < 32 && b < 32
    ensures (w & !BitMask(a)) & BitMask(b) != 0 <==> a != b && w & BitMask(b) != 0
  {
    AndNotMasks(w, a, b, BitMask(a), BitMask(b));
  }

  lemma AndNotWordBit(w: bv32, a: bv32, b: bv32)
    requires a < 32 && b < 32
    ensures WordBit(w & !BitMask(a), b) == (a != b && WordBit(w, b))
  {
    AndNotBitMasks(w, a, b);
  }

  lemma ClearedBit(w: bv32, a: bv32, b: bv32)
    requires a < 32 && b < 32
    ensures WordBit(Cleared(w, a), b) == (a != b && WordBit(w, b))
  {
    AndNotWordBit(w, a, b);
  }

  /** Setting bit i touches no other bit of the word. */
  lemma MarkedWord(w: bv32, i: nat, j: nat)
    requires i < ELEM_BITS && j < ELEM_BITS
    ensures WordBit(Marked(w, Index(i)), Index(j)) == (i == j || WordBit(w, Index(j)))
  {
    IndexInjective(i, j);
    MarkedBit(w, Index(i), Index(j));
  }

  /** Clearing bit i touches no other bit of the word. */
  lemma ClearedWord(w: bv32, i: nat, j: nat)
    requires i < ELEM_BITS && j < ELEM_BITS
    ensures WordBit(Cleared(w, Index(i)), Index(j)) == (i != j && WordBit(w, Index(j)))
  {
    IndexInjective(i, j);
    ClearedBit(w, Index(i), Index(j));
  }

  // ---------------------------------------------------------------------
  // Bitmaps
  // ---------------------------------------------------------------------

  /** The bits [start, start + cnt) of s all have the given value. */
  ghost predicate AllBits(s: seq<bool>, start: nat, cnt: nat, value: bool)
    requires start + cnt <= |s|
  {
    forall i :: start <= i < start + cnt ==> s[i] == value
  }

  /** s with the bits [start, start + cnt) set to value. */
  ghost function SetBits(s: seq<bool>, start: nat, cnt: nat, value: bool): (r: seq<bool>)
    requires start + cnt <= |s|
    ensures |r| == |s|
  {
    seq(|s|, i requires 0 <= i < |s| => if start <= i < start + cnt then value else s[i])
  }

  class Bitmap {
    const bitCnt: nat
    const bits: array<bv32>

    ghost predicate Valid() {
      bits.Length == ElemCnt(bitCnt)
    }

    predicate Bit(i: nat)
      requires i < bitCnt && bits.Length == ElemCnt(bitCnt)
      reads bits
    {
      WordBit(bits[i / ELEM_BITS], Index(i % ELEM_BITS))
    }

    ghost function Bits(): (s: seq<bool>)
      requires Valid()
      reads bits
      ensures |s| == bitCnt && forall i :: 0 <= i < bitCnt ==> s[i] == Bit(i)
    {
      seq(bitCnt, i requires 0 <= i < bitCnt && Valid() reads bits => Bit(i))
    }

    /** bitmap_create() and bitmap_create_in_buf(), once the storage is there. */
    constructor (n: nat)
      ensures Valid() && bitCnt == n && fresh(bits) && Bits() == SetBits(Bits(), 0, n, false)
    {
      bitCnt := n;
      bits := new bv32[ElemCnt(n)];
      new;
      SetMultiple(0, n, false);
    }

    /** bitmap_mark() */
    method Mark(idx: nat)
      requires Valid() && idx < bitCnt
      modifies bits
      ensures Bits() == old(Bits())[idx := true]
    {
      var w, b := idx / ELEM_BITS, idx % ELEM_BITS;
      ghost var before := bits[w];
      bits[w] := Marked(bits[w], Index(b));
      ghost var after := bits[w];
      forall k | 0 <= k < ELEM_BITS ensures WordBit(after, Index(k)) == (b == k || WordBit(before, Index(k))) {
        MarkedWord(before, b, k);
      }
    }

    /** bitmap_reset() */
    method Reset(idx: nat)
      requires Valid() && idx < bitCnt
      modifies bits
      ensures Bits() == old(Bits())[idx := false]
    {
      var w, b := idx / ELEM_BITS, idx % ELEM_BITS;
      ghost var before := bits[w];
      bits[w] := Cleared(bits[w], Index(b));
      ghost var after := bits[w];
      forall k | 0 <= k < ELEM_BITS ensures WordBit(after, Index(k)) == (b != k && WordBit(before, Index(k))) {
        ClearedWord(before, b, k);
      }
    }

    /** bitmap_set() */
    method Set(idx: nat, value: bool)
      requires Valid() && idx < bitCnt
      modifies bits
      ensures Bits() == old(Bits())[idx := value]
    {
      if value { Mark(idx); } else { Reset(idx); }
    }

    /** bitmap_test() */
    method Test(idx: nat) returns (value: bool)
      requires Valid() && idx < bitCnt
      ensures value == Bits()[idx]
    {
      value := bits[idx / ELEM_BITS] & BitMask(Index(idx % ELEM_BITS)) != 0;
    }

    /** bitmap_set_multiple() */
    method SetMultiple(start: nat, cnt: nat, value: bool)
      requires Valid() && start + cnt <= bitCnt
      modifies bits
      ensures Bits() == SetBits(old(Bits()), start, cnt, value)
    {
      var i := 0;
      while i < cnt
        invariant 0 <= i <= cnt
        invariant Bits() == SetBits(old(Bits()), start, i, value)
      {
        Set(start + i, value);
        i := i + 1;
      }
    }

    /** bitmap_contains() */
    method Contains(start: nat, cnt: nat, value: bool) returns (r: bool)
      requires Valid() && start + cnt <= bitCnt
      ensures r <==> !AllBits(Bits(), start, cnt, !value)
    {
      var i := 0;
      while i < cnt
        invariant 0 <= i <= cnt && AllBits(Bits(), start, i, !value)
      {
        var b := Test(start + i);
        if b == value {
          return true;
        }
        i := i + 1;
      }
      return false;
    }

    /** bitmap_all() */
    method All(start: nat, cnt: nat) returns (r: bool)
      requires Valid() && start + cnt <= bitCnt
      ensures r <==> AllBits(Bits(), start, cnt, true)
    {
      var c := Contains(start, cnt, false);
      r := !c;
    }

    /** bitmap_scan(): the least start of a group, or None when there is no group
        at or after start. */
    method Scan(start: nat, cnt: nat, value: bool) returns (r: Option<nat>)
      requires Valid() && start <= bitCnt
      ensures r == FirstGroup(Bits(), start, cnt, value)
    {
      if cnt <= bitCnt {
        var last := bitCnt - cnt;
        var i := start;
        while i <= last
          invariant start <= i && (start <= last ==> i <= last + 1)
          invariant FirstGroup(Bits(), start, cnt, value) == FirstGroup(Bits(), i, cnt, value)
          decreases last + 1 - i
        {
          var c := Contains(i, cnt, !value);
          if !c {
            return Some(i);
          }
          i := i + 1;
        }
      }
      return None;
    }

    /** bitmap_scan_and_flip() */
    method ScanAndFlip(start: nat, cnt: nat, value: bool) returns (r: Option<nat>)
      requires Valid() && start <= bitCnt
      modifies bits
      ensures r == FirstGroup(old(Bits()), start, cnt, value)
      ensures r == None ==> Bits() == old(Bits())
      ensures r.Some? ==> r.value + cnt <= bitCnt && Bits() == SetBits(old(Bits()), r.value, cnt, !value)
    {
      r := Scan(start, cnt, value);
      if r.Some? {
        FirstGroupIsLeast(Bits(), start, cnt, value);
        SetMultiple(r.value, cnt, !value);
      }
    }
  }

  // ---------------------------------------------------------------------
  // Searching
  // ---------------------------------------------------------------------

  /** The first position at or after start where cnt bits have the value. */
  ghost function FirstGroup(s: seq<bool>, start: nat, cnt: nat, value: bool): Option<nat>
    decreases |s| + 1 - start
  {
    if start + cnt > |s| then None
    else if AllBits(s, start, cnt, value) then Some(start)
    else FirstGroup(s, start + 1, cnt, value)
  }

  /** FirstGroup is the least qualifying position, and None only if there is none. */
  lemma {:induction false} FirstGroupIsLeast(s: seq<bool>, start: nat, cnt: nat, value: bool)
    ensures var r := FirstGroup(s, start, cnt, value);
            && (r.Some? ==>
                  && start <= r.value && r.value + cnt <= |s| && AllBits(s, r.value, cnt, value)
                  && forall i :: start <= i < r.value ==> !AllBits(s, i, cnt, value))
            && (r == None ==> forall i :: start <= i && i + cnt <= |s| ==> !AllBits(s, i, cnt, value))
    decreases |s| + 1 - start
  {
    if start + cnt <= |s| && !AllBits(s, start, cnt, value) {
      FirstGroupIsLeast(s, start + 1, cnt, value);
    }
  }

  /** An empty group is found right at start: not at 0, as the comment on
      bitmap_scan_and_flip() says, unless start is 0. */
  lemma EmptyGroup(s: seq<bool>, start: nat, value: bool)
    requires start <= |s|
    ensures FirstGroup(s, start, 0, value) == Some(start)
  {
    assert AllBits(s, start, 0, value);
  }
}
