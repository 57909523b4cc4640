/** Least and greatest elements of finite sets of integers. */
module IntSets {

  lemma NonEmpty(s: set<int>)
    ensures s == {} || exists x :: x in s
  {
    if forall x :: x !in s {
      assert s == {};
    }
  }

  lemma {:induction false} HasMax(s: set<int>)
    ensures s == {} || exists k :: k in s && forall j | j in s :: j <= k
  {
    if s != {} {
      NonEmpty(s);
      var x :| x in s;
      var rest := s - {x};
      var top := x;
      if rest != {} {
        HasMax(rest);
        var k :| k in rest && forall j | j in rest :: j <= k;
        top := if x <= k then k else x;
        assert forall j | j in rest :: j <= top;
      }
      forall j | j in s ensures j <= top {
        assert j == x || j in rest;
      }
      assert top in s;
    }
  }

  lemma {:induction false} HasMin(s: set<int>)
    ensures s == {} || exists k :: k in s && forall j | j in s :: k <= j
  {
    if s != {} {
      NonEmpty(s);
      var x :| x in s;
      var rest := s - {x};
      var low := x;
      if rest != {} {
        HasMin(rest);
        var k :| k in rest && forall j | j in rest :: k <= j;
        low := if x <= k then x else k;
        assert forall j | j in rest :: low <= j;
      }
      forall j | j in s ensures low <= j {
        assert j == x || j in rest;
      }
      assert low in s;
    }
  }
}
