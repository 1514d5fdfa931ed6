/** What several parts of the model share. */
module Common {

  datatype Option<T> = None | Some(value: T)

  predicate Distinct(s: seq<nat>) {
    forall i, j :: 0 <= i < j < |s| ==> s[i] != s[j]
  }

  lemma {:induction false} SubsetCardinality(a: set<nat>, b: set<nat>)
    requires a <= b
    ensures |a| <= |b|
  {
    if a != {} {
      var x :| x in a;
      SubsetCardinality(a - {x}, b - {x});
    }
  }

  lemma {:induction false} SeqCardinality(s: seq<nat>, values: set<nat>)
    requires values == set x | x in s
    requires forall i, j :: 0 <= i < j < |s| ==> s[i] != s[j]
    ensures |values| == |s|
  {
    if s != [] {
      var t := s[..|s| - 1];
      var last := s[|s| - 1];
      SeqCardinality(t, set x | x in t);
      assert s == t + [last];
      assert values == (set x | x in t) + {last};
    }
  }

  ghost function Range(lo: nat, hi: nat): (s: set<nat>)
    requires lo <= hi
    ensures |s| == hi - lo && forall b: nat :: b in s <==> lo <= b < hi
  {
    if lo == hi then {} else Range(lo, hi - 1) + {hi - 1}
  }
}
