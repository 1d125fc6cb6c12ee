/** Options, lists without repeats, and facts about finite sets, used by several modules. */
module Basics {

  datatype Option<+T> = None | Some(value: T)

  ghost predicate Distinct<T>(s: seq<T>) { forall i, j :: 0 <= i < j < |s| ==> s[i] != s[j] }

  /** A list with the element at an index taken out. */
  function Without<T>(s: seq<T>, j: nat): seq<T>
    requires j < |s|
  {
    s[..j] + s[j + 1..]
  }

  lemma NonEmpty(s: set<int>)
    requires s != {}
    ensures exists x :: x in s
  {
    if forall x :: x !in s {
      assert false;
    }
  }

  lemma HasLeast(s: set<int>)
    requires s != {}
    ensures exists x :: x in s && forall y :: y in s ==> x <= y
    decreases s
  {
    NonEmpty(s);
    var x :| x in s;
    var below := set y | y in s && y < x;
    if below == {} {
      assert forall y :: y in s ==> y !in below;
    } else {
      assert x !in below;
      HasLeast(below);
      var z :| z in below && forall y :: y in below ==> z <= y;
      assert forall y :: y in s ==> y in below || x <= y;
    }
  }

  /** A subset of the same size is the whole set. */
  lemma SubsetOfSameSize<T>(a: set<T>, b: set<T>)
    requires a <= b
    ensures |a| == |b| <==> a == b
  {
    assert b == a + (b - a);
    assert |b| == |a| + |b - a|;
  }
}
