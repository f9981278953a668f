// Finite sets of numbers in increasing order, the order in which an ordered map is walked.
module Sets {

  function Least(ks: set<nat>): (k: nat)
    requires ks != {}
    ensures k in ks && forall x :: x in ks ==> k <= x
  {
    LeastExists(ks);
    var k :| k in ks && forall x :: x in ks ==> k <= x;
    k
  }

  lemma {:induction false} LeastExists(ks: set<nat>)
    requires ks != {}
    ensures exists k :: k in ks && forall x :: x in ks ==> k <= x
  {
    var a :| a in ks;
    var rest := ks - {a};
    if rest != {} {
      LeastExists(rest);
      var b :| b in rest && forall x :: x in rest ==> b <= x;
      assert forall x :: x in ks ==> x == a || x in rest;
      var m := if a < b then a else b;
      assert m in ks && forall x :: x in ks ==> m <= x;
    } else {
      assert ks == {a};
    }
  }

  /** The elements of a set in increasing order. */
  function Sorted(ks: set<nat>): (s: seq<nat>)
    ensures forall k :: k in s <==> k in ks
    ensures forall i, j :: 0 <= i < j < |s| ==> s[i] < s[j]
  {
    if ks == {} then [] else
      var k := Least(ks);
      var rest := Sorted(ks - {k});
      assert forall x :: x in rest ==> k < x;
      [k] + rest
  }
}
