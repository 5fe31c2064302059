/** Shared vocabulary: optional values, lists without repetition, and picking an arbitrary element
    of a set, as Go's range over a map does. */
module Collections {

  datatype Option<+T> = None | Some(value: T)

  ghost predicate Distinct<T>(s: seq<T>)
  {
    forall i, j :: 0 <= i < j < |s| ==> s[i] != s[j]
  }

  /** order lists each element of s once. */
  ghost predicate Lists<T(!new)>(order: seq<T>, s: set<T>)
  {
    Distinct(order) && forall x :: x in order <==> x in s
  }

  lemma ListsNone<T(!new)>()
    ensures Lists<T>([], {})
  {
  }

  lemma ListsGrow<T(!new)>(order: seq<T>, s: set<T>, x: T)
    requires Lists(order, s) && x !in s
    ensures Lists(order + [x], s + {x})
  {
  }

  method AnyOf<T(==)>(s: set<T>) returns (x: T)
    requires s != {}
    ensures x in s
  {
    x :| x in s;
  }

  lemma SomeOf<T>(s: set<T>) returns (x: T)
    requires s != {}
    ensures x in s
  {
    x :| x in s;
  }
}
