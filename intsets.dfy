/** Finite sets of row ids. A query without ORDER BY, or `LIMIT 1` without one,
    may return rows in any order; the model fixes that order as ascending id. */
module IntSets {

  predicate IsMin(m: int, s: set<int>) {
    m in s && forall x :: x in s ==> m <= x
  }

  lemma HasElement(s: set<int>)
    requires s != {}
    ensures exists y :: y in s
  {
    if forall y :: y !in s { assert false; }
  }

  lemma {:induction false} MinExists(s: set<int>)
    requires s != {}
    ensures exists m :: IsMin(m, s)
    decreases |s|
  {
    HasElement(s);
    var y :| y in s;
    var r := s - {y};
    if r == {} {
      forall x | x in s ensures y <= x { assert x !in r; }
      assert IsMin(y, s);
    } else {
      MinExists(r);
      var m :| IsMin(m, r);
      var k := if y < m then y else m;
      forall x | x in s ensures k <= x { if x != y { assert x in r; } }
      assert IsMin(k, s);
    }
  }

  /** The least element of a non-empty set. */
  function MinOf(s: set<int>): (m: int)
    requires s != {}
    ensures IsMin(m, s)
  {
    MinExists(s);
    var m :| IsMin(m, s); m
  }

  /** The elements of `s` in ascending order. */
  function Ascending(s: set<int>): (r: seq<int>)
    ensures |r| == |s|
    ensures forall x :: x in r <==> x in s
    ensures forall i, j :: 0 <= i < j < |r| ==> r[i] < r[j]
    decreases |s|
  {
    if s == {} then []
    else
      var m := MinOf(s);
      var rest := Ascending(s - {m});
      assert forall j :: 0 <= j < |rest| ==> m < rest[j] by {
        forall j | 0 <= j < |rest| ensures m < rest[j] { assert rest[j] in s - {m}; }
      }
      [m] + rest
  }
}
