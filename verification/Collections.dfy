/** Facts about sequences and sets that several modules use. */
module Collections {
  predicate Distinct<T(==)>(s: seq<T>) { forall i, j | 0 <= i < j < |s| :: s[i] != s[j] }

  lemma {:induction false} SubsetSize<T>(a: set<T>, b: set<T>)
    requires a <= b
    ensures |a| <= |b|
    decreases |a|
  {
    if a != {} {
      var x :| x in a;
      SubsetSize(a - {x}, b - {x});
    }
  }

  function SumBy<T>(s: seq<T>, f: T -> nat): nat {
    if s == [] then 0 else SumBy(s[..|s| - 1], f) + f(s[|s| - 1])
  }

  lemma SumByPush<T>(s: seq<T>, x: T, f: T -> nat)
    ensures SumBy(s + [x], f) == SumBy(s, f) + f(x)
  {
    assert (s + [x])[..|s|] == s;
  }

  lemma {:induction false} SumByConcat<T>(a: seq<T>, b: seq<T>, f: T -> nat)
    ensures SumBy(a + b, f) == SumBy(a, f) + SumBy(b, f)
  {
    if b == [] {
      assert a + b == a;
    } else {
      assert (a + b)[..|a + b| - 1] == a + b[..|b| - 1];
      SumByConcat(a, b[..|b| - 1], f);
    }
  }

  lemma {:induction false} SumByUpdate<T>(s: seq<T>, f: T -> nat, k: nat, x: T)
    requires k < |s|
    ensures SumBy(s[k := x], f) == SumBy(s, f) - f(s[k]) + f(x) && SumBy(s, f) >= f(s[k])
  {
    var n := |s| - 1;
    if k < n {
      SumByUpdate(s[..n], f, k, x);
      assert s[k := x][..n] == s[..n][k := x];
    } else {
      assert s[k := x][..n] == s[..n];
    }
  }

  /** The elements whose mark is `which`, in order. */
  function Marked<T>(s: seq<T>, marks: seq<bool>, which: bool): seq<T>
    requires |s| == |marks|
  {
    if s == [] then []
    else
      var n := |s| - 1;
      Marked(s[..n], marks[..n], which) + if marks[n] == which then [s[n]] else []
  }

  /** Marks split a sequence in two, and every sum over it with it. */
  lemma {:induction false} MarkedSplit<T>(s: seq<T>, marks: seq<bool>, f: T -> nat)
    requires |s| == |marks|
    ensures SumBy(Marked(s, marks, true), f) + SumBy(Marked(s, marks, false), f) == SumBy(s, f)
    ensures |Marked(s, marks, true)| + |Marked(s, marks, false)| == |s|
  {
    if s != [] {
      var n := |s| - 1;
      MarkedSplit(s[..n], marks[..n], f);
      SumByPush(Marked(s[..n], marks[..n], marks[n]), s[n], f);
      assert Marked(s, marks, !marks[n]) == Marked(s[..n], marks[..n], !marks[n]);
    }
  }
}
