/** Finite sets of ids, and their least members. */
module IdSets {

  lemma Witness<T>(s: set<T>) returns (x: T)
    requires s != {}
    ensures x in s
  {
    x :| x in s;
  }

  lemma NonEmptyHasMember<T>(s: seq<T>)
    ensures s == [] || exists x :: x in s
  {
    if s != [] { assert s[0] in s; }
  }

  lemma {:induction false} SubsetSize<T>(a: set<T>, b: set<T>)
    requires a <= b
    ensures |a| <= |b|
  {
    if a != {} {
      var x := Witness(a);
      SubsetSize(a - {x}, b - {x});
    }
  }

  lemma {:induction false} MinExists(s: set<int>)
    requires s != {}
    ensures exists m :: m in s && forall x :: x in s ==> m <= x
  {
    var a := Witness(s);
    if s == {a} {
      assert forall x :: x in s ==> a <= x;
    } else {
      var rest := s - {a};
      assert s == {a} + rest;
      assert rest != {};
      MinExists(rest);
      var m :| m in rest && forall x :: x in rest ==> m <= x;
      var least := if a < m then a else m;
      forall x | x in s ensures least <= x {
        if x != a { assert x in rest; }
      }
      assert least in s;
    }
  }

  function Min(s: set<int>): (m: int)
    requires |s| > 0
    ensures m in s && forall x :: x in s ==> m <= x
  {
    MinExists(s);
    var m :| m in s && forall x :: x in s ==> m <= x;
    m
  }

  /** ORDER BY id LIMIT n. */
  function FirstIds(s: set<int>, n: nat): (r: set<int>)
    ensures r <= s && |r| == (if |s| <= n then |s| else n)
    ensures forall a, b :: a in r && b in s - r ==> a < b
  {
    if n == 0 || |s| == 0 then {}
    else
      var m := Min(s);
      var others := s - {m};
      assert |others| == |s| - 1;
      var rest := FirstIds(others, n - 1);
      assert forall b :: b in s - ({m} + rest) ==> b in others - rest;
      {m} + rest
  }

  /** The ids in ascending order. */
  function Ascending(s: set<int>): (r: seq<int>)
    ensures forall x :: x in r <==> x in s
    ensures forall i, j :: 0 <= i < j < |r| ==> r[i] < r[j]
  {
    if |s| == 0 then []
    else
      var m := Min(s);
      [m] + Ascending(s - {m})
  }

  lemma OneInOrder(x: int)
    ensures Ascending(FirstIds({x}, 1)) == [x]
  {
    var f := FirstIds({x}, 1);
    var y := Witness(f);
    assert f == {x};
    var r := Ascending(f);
    assert x in r;
    assert forall i :: 0 <= i < |r| ==> r[i] in r;
  }
}
