/**
Binary heaps on a slice, as container/heap keeps them, with the smallest key at
the front. A heap of actions by nonce and one of actions by price are both kept
this way.
*/
module Heaps {

  /** No element's key is above that of one of its two children. */
  ghost predicate IsHeap<T>(h: seq<T>, key: T -> int) {
    forall i, c :: 0 <= i < c < |h| && Child(i, c) ==> key(h[i]) <= key(h[c])
  }

  ghost predicate Child(i: int, c: int) {
    c == 2 * i + 1 || c == 2 * i + 2
  }

  ghost predicate Sorted<T>(s: seq<T>, key: T -> int) {
    forall i, j :: 0 <= i < j < |s| ==> key(s[i]) <= key(s[j])
  }

  lemma {:induction false} FrontIsLeast<T>(h: seq<T>, key: T -> int, i: nat)
    requires IsHeap(h, key) && i < |h|
    ensures key(h[0]) <= key(h[i])
  {
    if i > 0 {
      var p := (i - 1) / 2;
      assert Child(p, i);
      FrontIsLeast(h, key, p);
    }
  }

  lemma SortedIsHeap<T>(h: seq<T>, key: T -> int)
    requires Sorted(h, key)
    ensures IsHeap(h, key)
  {
  }

  lemma Swapped<T>(h: seq<T>, i: nat, j: nat)
    requires i < |h| && j < |h|
    ensures multiset(h[i := h[j]][j := h[i]]) == multiset(h)
  {
  }

  /** A heap but for the edges around `j`. */
  ghost predicate HeapBut<T>(h: seq<T>, key: T -> int, j: int) {
    && (forall i, c :: 0 <= i < c < |h| && Child(i, c) && c != j ==> key(h[i]) <= key(h[c]))
    && (forall p, c :: 0 <= p < j < c < |h| && Child(p, j) && Child(j, c) ==> key(h[p]) <= key(h[c]))
  }

  /** Where an element goes from place `j`: past every ancestor with a greater key. */
  ghost function SiftedUp<T>(h: seq<T>, key: T -> int, j: nat): seq<T>
    requires j < |h|
    decreases j
  {
    if j == 0 || key(h[j]) >= key(h[(j - 1) / 2]) then h
    else SiftedUp(h[(j - 1) / 2 := h[j]][j := h[(j - 1) / 2]], key, (j - 1) / 2)
  }

  /** A heap with one more element. */
  ghost function Pushed<T>(h: seq<T>, key: T -> int, x: T): seq<T> {
    SiftedUp(h + [x], key, |h|)
  }

  method Up<T>(h0: seq<T>, key: T -> int, j0: nat) returns (h: seq<T>)
    requires j0 < |h0| && HeapBut(h0, key, j0)
    ensures IsHeap(h, key) && multiset(h) == multiset(h0)
    ensures h == SiftedUp(h0, key, j0)
  {
    h := h0;
    var j := j0;
    while true
      invariant 0 <= j < |h| == |h0| && HeapBut(h, key, j) && multiset(h) == multiset(h0)
      invariant SiftedUp(h, key, j) == SiftedUp(h0, key, j0)
      decreases j
    {
      var i := if j == 0 then 0 else (j - 1) / 2;
      assert j > 0 ==> Child(i, j);
      if i == j || key(h[j]) >= key(h[i]) {
        assert IsHeap(h, key) by {
          forall a, c | 0 <= a < c < |h| && Child(a, c) ensures key(h[a]) <= key(h[c]) {
            if c == j { assert a == i; }
          }
        }
        return;
      }
      Swapped(h, i, j);
      UpStep(h, key, i, j);
      h := h[i := h[j]][j := h[i]];
      j := i;
    }
  }

  lemma UpStep<T>(h: seq<T>, key: T -> int, i: nat, j: nat)
    requires i < j < |h| && Child(i, j) && HeapBut(h, key, j) && key(h[j]) < key(h[i])
    ensures HeapBut(h[i := h[j]][j := h[i]], key, i)
  {
    var to := h[i := h[j]][j := h[i]];
    forall a, c | 0 <= a < c < |to| && Child(a, c) && c != i ensures key(to[a]) <= key(to[c]) {
      if a == j {
        assert key(h[i]) <= key(h[c]);
      } else if c == j {
        assert a == i;
      } else if a == i {
        assert key(h[i]) <= key(h[c]);
      }
    }
    forall p, c | 0 <= p < i < c < |to| && Child(p, i) && Child(i, c) ensures key(to[p]) <= key(to[c]) {
      assert key(h[p]) <= key(h[i]);
      if c != j { assert key(h[i]) <= key(h[c]); }
    }
  }

  /** Above `lo`, a heap but for the children of `i`. */
  ghost predicate HeapFrom<T>(h: seq<T>, key: T -> int, lo: nat, i: int) {
    && (forall a, c :: lo <= a < c < |h| && Child(a, c) && a != i ==> key(h[a]) <= key(h[c]))
    && (forall p, c :: lo <= p < i < c < |h| && Child(p, i) && Child(i, c) ==> key(h[p]) <= key(h[c]))
  }

  method Down<T>(h0: seq<T>, key: T -> int, lo: nat) returns (h: seq<T>)
    requires HeapFrom(h0, key, lo, lo)
    ensures HeapFrom(h, key, lo, |h|) && multiset(h) == multiset(h0) && |h| == |h0|
    ensures forall k :: 0 <= k < lo && k < |h| ==> h[k] == h0[k]
  {
    hide HeapFrom, Child;
    h := h0;
    var i := lo;
    while 2 * i + 1 < |h|
      invariant lo <= i && |h| == |h0| && HeapFrom(h, key, lo, i) && multiset(h) == multiset(h0)
      invariant forall k :: 0 <= k < lo && k < |h| ==> h[k] == h0[k]
      decreases |h| - i
    {
      var j := 2 * i + 1;
      if j + 1 < |h| && key(h[j + 1]) < key(h[j]) {
        j := j + 1;
      }
      LeastChild(h, key, i, j);
      if key(h[j]) >= key(h[i]) {
        DownDone(h, key, lo, i);
        return;
      }
      Swapped(h, i, j);
      DownStep(h, key, lo, i, j);
      h := h[i := h[j]][j := h[i]];
      i := j;
    }
    LeastChild(h, key, i, i);
    DownDone(h, key, lo, i);
  }

  lemma LeastChild<T>(h: seq<T>, key: T -> int, i: nat, j: nat)
    requires j == i || 2 * i + 1 <= j <= 2 * i + 2
    requires j == i ==> |h| <= 2 * i + 1
    requires j > i ==> && j < |h| && key(h[j]) <= key(h[2 * i + 1])
                       && (2 * i + 2 < |h| ==> key(h[j]) <= key(h[2 * i + 2]))
    ensures j > i ==> Child(i, j) && forall c :: i < c < |h| && Child(i, c) ==> key(h[j]) <= key(h[c])
    ensures j == i ==> forall c :: i < c < |h| ==> !Child(i, c)
  {
  }

  lemma DownDone<T>(h: seq<T>, key: T -> int, lo: nat, i: nat)
    requires lo <= i && HeapFrom(h, key, lo, i)
    requires forall c :: i < c < |h| && Child(i, c) ==> key(h[i]) <= key(h[c])
    ensures HeapFrom(h, key, lo, |h|)
  {
  }

  lemma DownStep<T>(h: seq<T>, key: T -> int, lo: nat, i: nat, j: nat)
    requires lo <= i < j < |h| && Child(i, j) && HeapFrom(h, key, lo, i) && key(h[j]) < key(h[i])
    requires forall c :: i < c < |h| && Child(i, c) ==> key(h[j]) <= key(h[c])
    ensures HeapFrom(h[i := h[j]][j := h[i]], key, lo, j)
  {
    var to := h[i := h[j]][j := h[i]];
    forall a, c | lo <= a < c < |to| && Child(a, c) && a != j ensures key(to[a]) <= key(to[c]) {
      if c == i {
        assert key(h[a]) <= key(h[j]);
      } else if c == j {
        assert a == i;
      }
    }
    forall p, c | lo <= p < j < c < |to| && Child(p, j) && Child(j, c) ensures key(to[p]) <= key(to[c]) {
      assert p == i;
      assert key(h[j]) <= key(h[c]);
    }
  }

  method Push<T>(h0: seq<T>, key: T -> int, x: T) returns (h: seq<T>)
    requires IsHeap(h0, key)
    ensures IsHeap(h, key) && multiset(h) == multiset(h0) + multiset{x}
    ensures h == Pushed(h0, key, x)
  {
    h := Up(h0 + [x], key, |h0|);
  }

  /** Takes off a least element. */
  method Pop<T>(h0: seq<T>, key: T -> int) returns (h: seq<T>, x: T)
    requires IsHeap(h0, key) && h0 != []
    ensures IsHeap(h, key) && multiset(h) + multiset{x} == multiset(h0)
    ensures x == h0[0] && forall y :: y in h0 ==> key(x) <= key(y)
  {
    x := h0[0];
    forall i | 0 <= i < |h0| ensures key(x) <= key(h0[i]) { FrontIsLeast(h0, key, i); }
    var n := |h0| - 1;
    var swapped := h0[0 := h0[n]][n := x];
    Swapped(h0, 0, n);
    assert swapped == swapped[..n] + [x];
    assert HeapFrom(swapped[..n], key, 0, 0);
    h := Down(swapped[..n], key, 0);
  }

  /** Makes a heap of any slice. */
  method Init<T>(h0: seq<T>, key: T -> int) returns (h: seq<T>)
    ensures IsHeap(h, key) && multiset(h) == multiset(h0)
  {
    h := h0;
    var i := |h| / 2;
    while i > 0
      invariant 0 <= i <= |h| == |h0| && HeapFrom(h, key, i, |h|) && multiset(h) == multiset(h0)
    {
      i := i - 1;
      h := Down(h, key, i);
    }
  }

  /** Restores the heap after its first element was replaced. */
  method FixFront<T>(h0: seq<T>, key: T -> int, x: T) returns (h: seq<T>)
    requires IsHeap(h0, key) && h0 != []
    ensures IsHeap(h, key) && multiset(h) == multiset(h0) - multiset{h0[0]} + multiset{x}
  {
    var changed := h0[0 := x];
    assert h0 == [h0[0]] + h0[1..] && changed == [x] + h0[1..];
    h := Down(changed, key, 0);
  }

  method Sort<T>(s0: seq<T>, key: T -> int) returns (s: seq<T>)
    ensures Sorted(s, key) && multiset(s) == multiset(s0)
  {
    hide Sorted;
    s := [];
    assert Sorted(s, key) by { EmptySorted(s, key); }
    for k := 0 to |s0|
      invariant Sorted(s, key) && multiset(s) == multiset(s0[..k])
    {
      s := Insert(s, key, s0[k]);
      assert s0[..k + 1] == s0[..k] + [s0[k]];
    }
    assert s0[..|s0|] == s0;
  }

  lemma EmptySorted<T>(s: seq<T>, key: T -> int)
    requires s == []
    ensures Sorted(s, key)
  {
  }

  method Insert<T>(s: seq<T>, key: T -> int, x: T) returns (r: seq<T>)
    requires Sorted(s, key)
    ensures Sorted(r, key) && multiset(r) == multiset(s) + multiset{x}
  {
    var i := |s|;
    while i > 0 && key(s[i - 1]) > key(x)
      invariant 0 <= i <= |s|
      invariant forall j :: i <= j < |s| ==> key(x) < key(s[j])
    {
      i := i - 1;
    }
    hide Sorted;
    Inserted(s, key, i, x);
    r := s[..i] + [x] + s[i..];
  }

  lemma Inserted<T>(s: seq<T>, key: T -> int, i: nat, x: T)
    requires i <= |s| && Sorted(s, key)
    requires i > 0 ==> key(s[i - 1]) <= key(x)
    requires forall j :: i <= j < |s| ==> key(x) < key(s[j])
    ensures Sorted(s[..i] + [x] + s[i..], key)
    ensures multiset(s[..i] + [x] + s[i..]) == multiset(s) + multiset{x}
  {
    hide Sorted;
    assert s == s[..i] + s[i..];
    InsertedSorted(s, key, i, x, s[..i] + [x] + s[i..]);
  }

  lemma InsertedSorted<T>(s: seq<T>, key: T -> int, i: nat, x: T, to: seq<T>)
    requires i <= |s| && Sorted(s, key)
    requires i > 0 ==> key(s[i - 1]) <= key(x)
    requires forall j :: i <= j < |s| ==> key(x) < key(s[j])
    requires |to| == |s| + 1 && to[i] == x
    requires forall a :: 0 <= a < i ==> to[a] == s[a]
    requires forall a :: i < a < |to| ==> to[a] == s[a - 1]
    ensures Sorted(to, key)
  {
    forall a, b | 0 <= a < b < |to| ensures key(to[a]) <= key(to[b]) {
      if a < i {
        assert a < i - 1 ==> key(s[a]) <= key(s[i - 1]);
      }
    }
  }
}
