/** Facts about finite sets. */
module Sets {

  lemma NonEmpty(c: set<int>)
    ensures c == {} || exists n :: n in c
  {
    if forall n :: n !in c {
      var none: set<int> := {};
      forall n ensures n in c <==> n in none { }
    }
  }

  predicate IsLeast(c: set<int>, m: int) {
    m in c && forall x :: x in c ==> m <= x
  }

  lemma {:induction false} LeastExists(c: set<int>)
    requires c != {}
    ensures exists m :: IsLeast(c, m)
    decreases |c|
  {
    NonEmpty(c);
    var n :| n in c;
    if c - {n} == {} {
      assert c == {n};
      assert IsLeast(c, n);
    } else {
      LeastExists(c - {n});
      var m :| IsLeast(c - {n}, m);
      var k := if m < n then m else n;
      forall x | x in c ensures k <= x {
        if x != n { assert x in c - {n}; }
      }
      assert IsLeast(c, k);
    }
  }

  lemma LeastOfSubset(a: set<int>, b: set<int>, m: int)
    requires a <= b && m in a && IsLeast(b, m)
    ensures IsLeast(a, m)
  {
  }

  lemma SubsetSize(a: set<int>, b: set<int>)
    requires a <= b
    ensures |a| <= |b|
    ensures |a| == |b| ==> a == b
  {
    assert b == a + (b - a);
  }

  /** ids lists all of them outside todo, ascending, each below everything in todo. */
  ghost predicate Enumerates(ids: seq<int>, todo: set<int>, all: set<int>) {
    && todo <= all
    && (forall i, j :: 0 <= i < j < |ids| ==> ids[i] < ids[j])
    && (forall i, x :: 0 <= i < |ids| && x in todo ==> ids[i] < x)
    && (forall i :: 0 <= i < |ids| ==> ids[i] in all)
    && (forall x :: x in all && x !in todo ==> x in ids)
  }

  lemma EnumeratesNone(all: set<int>)
    ensures Enumerates([], all, all)
  {
  }

  lemma EnumeratesStep(ids: seq<int>, todo: set<int>, all: set<int>, id: int)
    requires Enumerates(ids, todo, all) && IsLeast(todo, id)
    ensures Enumerates(ids + [id], todo - {id}, all)
    ensures id in todo
  {
    var more := ids + [id];
    forall i, x | 0 <= i < |more| && x in todo - {id} ensures more[i] < x {
      assert x in todo;
    }
    forall x | x in all && x !in todo - {id} ensures x in more {
      if x != id { assert x in ids; } else { assert more[|ids|] == id; }
    }
  }

  lemma {:induction false} EnumerationSize(ids: seq<int>, todo: set<int>, all: set<int>)
    requires Enumerates(ids, todo, all)
    ensures |ids| + |todo| == |all|
  {
    if ids == [] {
      assert forall x :: x in all <==> x in todo;
      assert all == todo;
    } else {
      var last := ids[|ids| - 1];
      var front := ids[..|ids| - 1];
      forall x | x in all - {last} && x !in todo ensures x in front {
        assert x in ids;
      }
      EnumerationSize(front, todo, all - {last});
    }
  }

  ghost function Elems(s: seq<int>): set<int> {
    set x | x in s
  }

  /** A list has as many different elements as places only if none occurs twice. */
  lemma {:induction false} ElemsSize(s: seq<int>)
    ensures |Elems(s)| <= |s|
    ensures |Elems(s)| == |s| ==> forall i, j :: 0 <= i < j < |s| ==> s[i] != s[j]
  {
    if s == [] {
      assert Elems(s) == {};
    } else {
      var n := |s| - 1;
      var t := s[..n];
      ElemsSize(t);
      assert s == t + [s[n]];
      assert Elems(s) == Elems(t) + {s[n]};
      if s[n] in t {
        assert Elems(s) == Elems(t);
      } else {
        forall i, j | 0 <= i < j < |s| ensures |Elems(s)| == |s| ==> s[i] != s[j] {
          assert s[i] == t[i];
          assert j < n ==> s[j] == t[j];
        }
      }
    }
  }
}
