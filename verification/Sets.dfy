/** Finite sets: members and sizes. */
module Sets {
  lemma HasMember(s: set<int>)
    requires s != {}
    ensures exists x: int :: x in s
  {
    if forall x: int :: x !in s { NoMember(s); }
  }

  lemma NoMember(s: set<int>)
    requires forall x: int :: x !in s
    ensures s == {}
  {
    assert forall x: int :: x in s <==> x in {};
  }

  lemma {:induction false} SmallerSet<T>(a: set<T>, b: set<T>)
    requires a <= b
    ensures |a| <= |b|
  {
    if x :| x in a { SmallerSet(a - {x}, b - {x}); }
  }

  lemma OneElement<T>(w: set<T>, x: T, y: T)
    requires |w| == 1 && x in w && y in w
    ensures x == y
  {
    assert |w - {x}| == 0;
    assert w - {x} == {};
  }
}
