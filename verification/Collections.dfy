/** Small facts about Dafny's collections. */
module Collections {

  lemma Member<T>(s: set<T>) returns (x: T)
    requires s != {}
    ensures x in s
  {
    x :| x in s;
  }

  lemma {:induction false} MinOf(s: set<nat>) returns (m: nat)
    requires s != {}
    ensures m in s && forall x | x in s :: m <= x
    decreases |s|
  {
    m := Member(s);
    var rest := s - {m};
    if rest != {} {
      var k := MinOf(rest);
      assert forall x | x in s :: x == m || x in rest;
      m := if k < m then k else m;
    } else {
      assert s == {m};
    }
  }

  lemma {:induction false} MaxOf(s: set<nat>) returns (m: nat)
    requires s != {}
    ensures m in s && forall x | x in s :: x <= m
    decreases |s|
  {
    m := Member(s);
    var rest := s - {m};
    if rest != {} {
      var k := MaxOf(rest);
      assert forall x | x in s :: x == m || x in rest;
      m := if k > m then k else m;
    } else {
      assert s == {m};
    }
  }

  lemma CardPositive<T>(s: set<T>, x: T)
    requires x in s
    ensures |s| > 0
  {
  }

  lemma SubsetCard<T>(a: set<T>, b: set<T>)
    requires a <= b
    ensures |a| <= |b|
  {
    assert b == a + (b - a);
  }

  lemma SubsetOfSameSize<T>(a: set<T>, b: set<T>)
    requires a <= b && |a| >= |b|
    ensures a == b
  {
    assert |b - a| == |b| - |a|;
  }

  ghost function ImageOf<S(!new), T(!new)>(a: set<S>, f: S -> T): (b: set<T>) {
    set x | x in a :: f(x)
  }

  lemma {:induction false} InjectiveImageCard<S(!new), T(!new)>(a: set<S>, f: S -> T)
    requires forall x, y | x in a && y in a && f(x) == f(y) :: x == y
    ensures |ImageOf(a, f)| == |a|
    decreases |a|
  {
    if a != {} {
      var x := Member(a);
      InjectiveImageCard(a - {x}, f);
      assert ImageOf(a, f) == ImageOf(a - {x}, f) + {f(x)};
    } else {
      assert ImageOf(a, f) == {};
    }
  }

  /** A finite set as a sequence. */
  lemma {:induction false} SeqOf<T>(s: set<T>) returns (q: seq<T>)
    ensures forall x :: x in q <==> x in s
  {
    q := [];
    var rest := s;
    while rest != {}
      invariant rest <= s && forall x :: x in q <==> x in s - rest
      decreases |rest|
    {
      var x := Member(rest);
      q, rest := q + [x], rest - {x};
    }
  }
}
