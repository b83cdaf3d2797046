/** Elements and sizes of finite sets. */
module Sets {
  lemma Element<T>(s: set<T>) returns (x: T)
    requires s != {}
    ensures x in s
  {
    x :| x in s;
  }

  lemma {:induction false} SubsetSize<T>(a: set<T>, b: set<T>)
    requires a <= b
    ensures |a| <= |b|
  {
    if a != {} {
      var x := Element(a);
      SubsetSize(a - {x}, b - {x});
    }
  }
}
