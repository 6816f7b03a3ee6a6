/** Small definitions shared by the models of the kernel's components. */
module Common {

  datatype Option<+T> = None | Some(value: T)

  type byte = b: int | 0 <= b < 256

  /** Arithmetic on size_t, unsigned int and unsigned long is modulo this. */
  const WORD: nat := 0x1_0000_0000

  function Min(x: int, y: int): int {
    if x < y then x else y
  }

  ghost function Elements<T>(s: seq<T>): set<T> {
    set x | x in s
  }

  function Reversed<T>(s: seq<T>): (r: seq<T>)
    ensures |r| == |s| && forall i :: 0 <= i < |s| ==> r[i] == s[|s| - 1 - i]
  {
    seq(|s|, i requires 0 <= i < |s| => s[|s| - 1 - i])
  }

  /** list_remove() of the first occurrence of x. */
  function RemoveFirst<T(==)>(s: seq<T>, x: T): (r: seq<T>)
    requires x in s
    ensures |r| == |s| - 1
  {
    if s[0] == x then s[1..] else [s[0]] + RemoveFirst(s[1..], x)
  }

  lemma {:induction false} RemovedFrom<T>(s: seq<T>, x: T, y: T)
    requires x in s && y in RemoveFirst(s, x)
    ensures y in s
  {
    if s[0] != x && y != s[0] {
      RemovedFrom(s[1..], x, y);
    }
  }

  /** No two positions of s hold the same element. */
  ghost predicate NoDup<T>(s: seq<T>) {
    forall i, j :: 0 <= i < j < |s| ==> s[i] != s[j]
  }

  /** Taking the first element off a duplicate-free sequence. */
  lemma PopFront<T>(s: seq<T>)
    requires NoDup(s) && s != []
    ensures NoDup(s[1..]) && s[0] in s && s[0] !in s[1..]
    ensures forall t :: t in s <==> t == s[0] || t in s[1..]
  {
    assert s == [s[0]] + s[1..];
  }

  lemma MulMono(i: nat, j: nat, k: nat)
    requires i < j
    ensures i * k + k <= j * k
  {
    assert (j - i - 1) * k >= 0;
    assert (j - i - 1) * k == j * k - i * k - k;
  }
}
