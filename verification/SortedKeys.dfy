// sorted() on the integer keys of a dictionary.
module SortedKeys {

  predicate IsMin(m: int, s: set<int>) { m in s && forall k | k in s :: m <= k }

  lemma HasElement(s: set<int>)
    requires s != {}
    ensures exists x :: x in s
  {
    assert (forall x: int :: x !in s) ==> s == {};
  }

  lemma HasMin(s: set<int>)
    requires s != {}
    ensures exists m :: IsMin(m, s)
    decreases |s|
  {
    HasElement(s);
    var x :| x in s;
    if s == {x} {
      assert IsMin(x, s);
    } else {
      HasMin(s - {x});
      var m :| IsMin(m, s - {x});
      assert forall k | k in s :: k == x || k in s - {x};
      assert IsMin(if m <= x then m else x, s);
    }
  }

  function Ascending(s: set<int>): seq<int>
    decreases |s|
  {
    if s == {} then []
    else
      HasMin(s);
      var m :| m in s && IsMin(m, s);
      [m] + Ascending(s - {m})
  }

  // sorted(): every key once, in increasing order.
  lemma {:induction false} AscendingSorts(s: set<int>)
    ensures forall i, j :: 0 <= i < j < |Ascending(s)| ==> Ascending(s)[i] < Ascending(s)[j]
    ensures forall k :: k in Ascending(s) <==> k in s
    ensures |Ascending(s)| == |s|
    decreases |s|
  {
    if s != {} {
      HasMin(s);
      var m := Ascending(s)[0];
      assert Ascending(s) == [m] + Ascending(s - {m});
      AscendingSorts(s - {m});
      forall i, j | 0 <= i < j < |Ascending(s)|
        ensures Ascending(s)[i] < Ascending(s)[j]
      {
        assert Ascending(s)[j] in Ascending(s - {m});
      }
    }
  }

  // An increasing list with the elements of a set is its sorted list.
  lemma {:induction false} AscendingIs(s: set<int>, keys: seq<int>)
    requires forall k :: k in s <==> k in keys
    requires forall i, j :: 0 <= i < j < |keys| ==> keys[i] < keys[j]
    ensures Ascending(s) == keys
    decreases |keys|
  {
    if keys == [] {
      if s != {} {
        HasElement(s);
      }
    } else {
      var m := keys[0];
      MinIsUnique(s, m);
      assert forall k :: k in s - {m} <==> k in keys[1..];
      AscendingIs(s - {m}, keys[1..]);
      assert keys == [m] + keys[1..];
    }
  }

  lemma MinIsUnique(s: set<int>, m: int)
    requires IsMin(m, s)
    ensures Ascending(s) == [m] + Ascending(s - {m})
  {
    HasMin(s);
  }
}
