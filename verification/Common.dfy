/** Small generic definitions shared by the models. */
module Common {

  datatype Option<+T> = None | Some(value: T)

  /** Some element of a non-empty set. */
  lemma {:induction false} Member<T>(s: set<T>) returns (x: T)
    requires s != {}
    ensures x in s
  {
    x :| x in s;
  }

  /** `m` is the least element of `s`. */
  predicate IsMin(s: set<int>, m: int) {
    m in s && forall x :: x in s ==> m <= x
  }

  /** The least element of a non-empty set: the order in which a `std::map` or `std::set` is walked. */
  function MinOf(s: set<int>): (m: int)
    requires s != {}
    ensures IsMin(s, m)
  {
    MinExists(s);
    var m :| IsMin(s, m);
    m
  }

  lemma {:induction false} MinUnique(s: set<int>, m: int)
    requires IsMin(s, m)
    ensures s != {} && MinOf(s) == m
  {
  }

  lemma {:induction false} MinExists(s: set<int>)
    requires s != {}
    ensures exists m :: IsMin(s, m)
    decreases |s|
  {
    var y := Member(s);
    var rest := s - {y};
    if rest == {} {
      assert s == {y};
      assert IsMin(s, y);
    } else {
      MinExists(rest);
      var m :| IsMin(rest, m);
      assert s == rest + {y};
      assert IsMin(s, if y < m then y else m);
    }
  }

  lemma {:induction false} SubsetSize<T>(a: set<T>, b: set<T>)
    requires a <= b
    ensures |a| <= |b|
    ensures |a| == |b| <==> a == b
  {
    if a == {} {
    } else {
      var x := Member(a);
      SubsetSize(a - {x}, b - {x});
      assert a == (a - {x}) + {x} && b == (b - {x}) + {x};
    }
  }

  /** Sizes of two sets compare like the sizes of what each has and the other lacks. */
  lemma {:induction false} SizeByDifference<T>(a: set<T>, b: set<T>)
    ensures |a| == |b| <==> |a - b| == |b - a|
  {
    assert a == (a * b) + (a - b) && b == (a * b) + (b - a);
    assert (a * b) !! (a - b) && (a * b) !! (b - a);
    assert |a| == |a * b| + |a - b| && |b| == |a * b| + |b - a|;
  }
}
