/**
 * The generic set of the analyzer package: a map from element to an empty
 * struct. A nil set is `null`; it has no elements, and adding to it does
 * nothing.
 */
module GoSet {

  class Set<T(==)> {
    /** The keys of the underlying map. */
    var items: set<T>

    /** make(set[T], n): an empty, non-nil set. */
    constructor ()
      ensures items == {}
    {
      items := {};
    }
  }

  /** The elements of a possibly nil set. */
  function Elems<T(==)>(s: Set?<T>): set<T>
    reads s
  {
    if s == null then {} else s.items
  }

  /** Has: membership; a nil set holds nothing. */
  function Has<T(==)>(s: Set?<T>, item: T): (r: bool)
    reads s
    ensures s == null ==> !r
    ensures r <==> item in Elems(s)
  {
    if s == null then false else item in s.items
  }

  /** NewSet: a fresh set holding exactly the given elements. */
  method NewSet<T(==)>(ss: seq<T>) returns (s: Set<T>)
    ensures fresh(s)
    ensures forall x :: Has(s, x) <==> x in ss
  {
    s := new Set();
    for i := 0 to |ss|
      invariant fresh(s)
      invariant s.items == set j | 0 <= j < i :: ss[j]
    {
      Add(s, ss[i]);
    }
    assert forall x :: x in ss ==> exists j :: 0 <= j < |ss| && ss[j] == x;
  }

  /**
   * Add: on a non-nil set the item is present afterwards and nothing else
   * changes (so adding a present item leaves the set as it was); on a nil
   * set it does nothing.
   */
  method Add<T(==)>(s: Set?<T>, item: T)
    modifies s
    ensures s != null ==> s.items == old(s.items) + {item}
    ensures s != null && item in old(s.items) ==> s.items == old(s.items)
  {
    if s == null {
      return;
    }
    s.items := s.items + {item};
  }

  /**
   * Intersection: nil when either operand is empty (nil included);
   * otherwise a fresh set holding exactly the elements of both, with
   * neither operand changed.
   */
  method Intersection<T(==)>(s: Set?<T>, other: Set?<T>) returns (ret: Set?<T>)
    ensures ret == null <==> Elems(s) == {} || Elems(other) == {}
    ensures ret != null ==> fresh(ret) && ret.items == Elems(s) * Elems(other)
  {
    if Elems(s) == {} || Elems(other) == {} {
      return null;
    }
    var r := new Set();
    var todo := other.items;
    while todo != {}
      invariant todo <= other.items
      invariant r.items == (other.items - todo) * s.items
      decreases todo
    {
      var v :| v in todo;
      if Has(s, v) {
        Add(r, v);
      }
      todo := todo - {v};
    }
    ret := r;
  }

  /** The expectations of the set's own tests. */
  method SetExamples()
  {
    var s := NewSet([1, 2, 3]);
    assert Has(s, 2);
    assert !Has(s, 4) by { assert 4 !in [1, 2, 3]; }

    var e := NewSet<int>([]);
    Add(e, 1);
    assert Has(e, 1);

    var s2 := NewSet([2, 3, 4]);
    assert Elems(s) == {1, 2, 3} by {
      forall x ensures x in Elems(s) <==> x in {1, 2, 3} {
        assert Has(s, x) <==> x in [1, 2, 3];
      }
    }
    assert Elems(s2) == {2, 3, 4} by {
      forall x ensures x in Elems(s2) <==> x in {2, 3, 4} {
        assert Has(s2, x) <==> x in [2, 3, 4];
      }
    }
    var result := Intersection(s, s2);
    assert result != null && result.items == {2, 3};
    assert |result.items| == 2;

    var nilSet: Set?<int> := null;
    var none := Intersection(s, nilSet);
    assert none == null;
    assert !Has(nilSet, 1);
  }
}
