/** Facts about finite sets. */
module FiniteSets {

  lemma Member<T>(s: set<T>) returns (x: T)
    requires s != {}
    ensures x in s
  {
    x :| x in s;
  }

  lemma WithoutOne<T>(s: set<T>, x: T)
    ensures |s - {x}| == |s| - if x in s then 1 else 0
  {
  }

  /** Two sets that agree except perhaps on one element. */
  lemma AgreeExceptOne<T>(a: set<T>, b: set<T>, x: T)
    requires a - {x} == b - {x}
    ensures |a| + (if x in b then 1 else 0) == |b| + (if x in a then 1 else 0)
  {
    WithoutOne(a, x);
    WithoutOne(b, x);
  }

  predicate Tops(s: set<int>, m: int) {
    m in s && forall x :: x in s ==> x <= m
  }

  predicate Bottoms(s: set<int>, m: int) {
    m in s && forall x :: x in s ==> m <= x
  }

  lemma {:induction false} HasGreatest(s: set<int>)
    requires s != {}
    ensures exists m :: Tops(s, m)
  {
    var x := Member(s);
    var rest := s - {x};
    if rest == {} {
      assert s == {x};
      assert Tops(s, x);
    } else {
      HasGreatest(rest);
      var m :| Tops(rest, m);
      var top := if x >= m then x else m;
      forall y | y in s ensures y <= top {
        if y != x {
          assert y in rest;
        }
      }
      assert Tops(s, top);
    }
  }

  lemma {:induction false} HasLeast(s: set<int>)
    requires s != {}
    ensures exists m :: Bottoms(s, m)
  {
    var x := Member(s);
    var rest := s - {x};
    if rest == {} {
      assert s == {x};
      assert Bottoms(s, x);
    } else {
      HasLeast(rest);
      var m :| Bottoms(rest, m);
      var bottom := if x <= m then x else m;
      forall y | y in s ensures bottom <= y {
        if y != x {
          assert y in rest;
        }
      }
      assert Bottoms(s, bottom);
    }
  }
}
