/** sort.Strings on the keys of a map. */
module Sorting {
  import opened OpIds

  predicate IsLeast(keys: set<Str>, m: Str) {
    m in keys && forall x :: x in keys ==> x == m || StrLess(m, x)
  }

  lemma {:induction false} LeastExists(keys: set<Str>)
    requires keys != {}
    ensures exists m :: IsLeast(keys, m)
    decreases |keys|
  {
    var k :| k in keys;
    var rest := keys - {k};
    if rest == {} {
      assert keys == {k};
      assert IsLeast(keys, k);
    } else {
      LeastExists(rest);
      var m :| IsLeast(rest, m);
      var least := if StrLess(k, m) then k else m;
      forall x | x in keys ensures x == least || StrLess(least, x) {
        StrLessIsTotal(k, m);
        StrLessIsStrictOrder(k, m, x);
      }
      assert IsLeast(keys, least);
    }
  }

  function Least(keys: set<Str>): (m: Str)
    requires keys != {}
    ensures IsLeast(keys, m)
  {
    LeastExists(keys);
    assert forall a, b :: IsLeast(keys, a) && IsLeast(keys, b) ==> a == b by {
      forall a, b | IsLeast(keys, a) && IsLeast(keys, b) ensures a == b { StrLessIsTotal(a, b); }
    }
    var m :| m in keys && IsLeast(keys, m);
    m
  }

  /** The keys of a map as sort.Strings orders them. */
  function SortedKeys(keys: set<Str>): (r: seq<Str>)
    ensures forall k :: k in r <==> k in keys
    ensures forall i, j :: 0 <= i < j < |r| ==> r[i] != r[j] && StrLess(r[i], r[j])
    decreases |keys|
  {
    if keys == {} then []
    else
      var m := Least(keys);
      [m] + SortedKeys(keys - {m})
  }
}
