module Sets {
  lemma Inhabited(s: set<int>)
    ensures s != {} <==> exists x :: x in s
  {
    if forall x :: x !in s {
      assert s == {};
    }
  }

  lemma {:induction false} MinExists(s: set<int>)
    requires s != {}
    ensures exists m :: m in s && forall x | x in s :: m <= x
  {
    Inhabited(s);
    var a :| a in s;
    if s != {a} {
      MinExists(s - {a});
      var b :| b in s - {a} && forall x | x in s - {a} :: b <= x;
      var m := if a <= b then a else b;
      assert forall x | x in s :: x == a || x in s - {a};
      assert m in s;
    }
  }

  lemma Fewer<T>(a: set<T>, b: set<T>)
    requires a <= b
    ensures |a| <= |b|
  {
    assert b == a + (b - a);
  }
}
