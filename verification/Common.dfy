/** Values that may be missing. */
module Options {
  datatype Option<+T> = None | Some(value: T)
}

module ByteStrings {
  type Byte = b: int | 0 <= b < 256
}

/** Counting the elements of sequences and sets. */
module Counting {
  ghost function Elems<T>(s: seq<T>): set<T> {
    set x | x in s
  }

  ghost predicate Distinct<T>(s: seq<T>) {
    forall i, j :: 0 <= i < j < |s| ==> s[i] != s[j]
  }

  lemma Appended<T>(s: seq<T>, x: T)
    ensures Elems(s + [x]) == Elems(s) + {x}
    ensures Distinct(s + [x]) <==> Distinct(s) && x !in Elems(s)
  {
    var t := s + [x];
    assert forall y :: y in t <==> y in s || y == x;
    if Distinct(t) {
      forall i, j | 0 <= i < j < |s| ensures s[i] != s[j] { assert t[i] != t[j]; }
      forall i | 0 <= i < |s| ensures s[i] != x { assert t[i] != t[|s|]; }
    }
  }

  lemma {:induction false} DistinctCount<T>(s: seq<T>)
    requires Distinct(s)
    ensures |Elems(s)| == |s|
  {
    if s != [] {
      var most, last := s[..|s| - 1], s[|s| - 1];
      DistinctCount(most);
      assert s == most + [last];
      Appended(most, last);
    }
  }

  lemma Fewer<T>(a: set<T>, b: set<T>)
    requires a <= b
    ensures |a| <= |b|
  {
    assert b == a + (b - a);
    assert |b| == |a| + |b - a|;
  }
}
