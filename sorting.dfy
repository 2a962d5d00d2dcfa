/** Go's string order and `sort.Strings`: strings compare byte by byte,
    which for UTF-8 text is the order of their code points. */
module Sorting {

  /** `a <= b` in Go's string order. */
  predicate StrLe(a: string, b: string)
    decreases |a|
  {
    a == [] || (b != [] && (a[0] < b[0] || (a[0] == b[0] && StrLe(a[1..], b[1..]))))
  }

  lemma {:induction false} StrLeReflexive(a: string)
    ensures StrLe(a, a)
    decreases |a|
  {
    if a != [] {
      StrLeReflexive(a[1..]);
    }
  }

  lemma {:induction false} StrLeTotal(a: string, b: string)
    ensures StrLe(a, b) || StrLe(b, a)
    decreases |a|
  {
    if a != [] && b != [] && a[0] == b[0] {
      StrLeTotal(a[1..], b[1..]);
    }
  }

  lemma {:induction false} StrLeTrans(a: string, b: string, c: string)
    requires StrLe(a, b) && StrLe(b, c)
    ensures StrLe(a, c)
    decreases |a|
  {
    if a != [] && b != [] && c != [] && a[0] == b[0] && b[0] == c[0] {
      StrLeTrans(a[1..], b[1..], c[1..]);
    }
  }

  lemma {:induction false} StrLeAntisymmetric(a: string, b: string)
    requires StrLe(a, b) && StrLe(b, a)
    ensures a == b
    decreases |a|
  {
    if a != [] && b != [] {
      StrLeAntisymmetric(a[1..], b[1..]);
      assert a == [a[0]] + a[1..] && b == [b[0]] + b[1..];
    }
  }

  predicate Sorted(s: seq<string>)
  {
    forall i, j :: 0 <= i < j < |s| ==> StrLe(s[i], s[j])
  }

  /** A sorted list stays sorted behind a string no greater than any of
      its elements. */
  lemma SortedCons(x: string, s: seq<string>)
    requires Sorted(s) && forall k :: 0 <= k < |s| ==> StrLe(x, s[k])
    ensures Sorted([x] + s)
  {
    var r := [x] + s;
    forall i, j | 0 <= i < j < |r| ensures StrLe(r[i], r[j]) {
      if i > 0 {
        assert r[i] == s[i - 1] && r[j] == s[j - 1];
      }
    }
  }

  /** Every element of a list is drawn from its multiset. */
  lemma BoundOfMultiset(y: string, s: seq<string>, m: multiset<string>)
    requires multiset(s) == m && forall z :: z in m ==> StrLe(y, z)
    ensures forall k :: 0 <= k < |s| ==> StrLe(y, s[k])
  {
    forall k | 0 <= k < |s| ensures StrLe(y, s[k]) {
      assert s[k] in multiset(s);
    }
  }

  /** `x` put in its place in a list: before the first element it is not
      greater than. */
  function Insert(x: string, s: seq<string>): (r: seq<string>)
    ensures multiset(r) == multiset(s) + multiset{x}
  {
    if s == [] then [x]
    else if StrLe(x, s[0]) then [x] + s
    else
      assert s == [s[0]] + s[1..];
      [s[0]] + Insert(x, s[1..])
  }

  /** Inserting into a sorted list keeps it sorted. */
  lemma {:induction false} InsertSorted(x: string, s: seq<string>)
    requires Sorted(s)
    ensures Sorted(Insert(x, s))
    decreases |s|
  {
    if s != [] {
      if StrLe(x, s[0]) {
        forall k | 0 < k < |s| ensures StrLe(x, s[k]) {
          StrLeTrans(x, s[0], s[k]);
        }
        SortedCons(x, s);
      } else {
        var t := Insert(x, s[1..]);
        InsertSorted(x, s[1..]);
        assert s == [s[0]] + s[1..];
        assert forall z :: z in multiset(s[1..]) + multiset{x} ==> StrLe(s[0], z) by {
          StrLeTotal(x, s[0]);
          forall z | z in multiset(s[1..]) + multiset{x} ensures StrLe(s[0], z) {
            if z != x {
              var m :| 0 <= m < |s[1..]| && s[1..][m] == z;
              assert s[m + 1] == z;
            }
          }
        }
        BoundOfMultiset(s[0], t, multiset(s[1..]) + multiset{x});
        SortedCons(s[0], t);
      }
    }
  }

  /** `sort.Strings`: the strings in ascending order. */
  function SortStrings(s: seq<string>): (r: seq<string>)
    ensures Sorted(r) && multiset(r) == multiset(s)
  {
    if s == [] then []
    else
      var r := Insert(s[|s| - 1], SortStrings(s[..|s| - 1]));
      InsertSorted(s[|s| - 1], SortStrings(s[..|s| - 1]));
      assert s == s[..|s| - 1] + [s[|s| - 1]];
      r
  }

  /** A sorted list is determined by its elements: sorting any two
      arrangements of the same strings gives the same list. */
  lemma {:induction false} SortedUnique(a: seq<string>, b: seq<string>)
    requires Sorted(a) && Sorted(b) && multiset(a) == multiset(b)
    ensures a == b
    decreases |a|
  {
    if a != [] {
      assert |b| == |a| by {
        assert |multiset(a)| == |a| && |multiset(b)| == |b|;
      }
      assert a[0] in multiset(b) && b[0] in multiset(a);
      var i :| 0 <= i < |b| && b[i] == a[0];
      var j :| 0 <= j < |a| && a[j] == b[0];
      assert StrLe(b[0], a[0]) by {
        StrLeReflexive(a[0]);
        if i > 0 {
          assert StrLe(b[0], b[i]);
        }
      }
      assert StrLe(a[0], b[0]) by {
        StrLeReflexive(a[0]);
        if j > 0 {
          assert StrLe(a[0], a[j]);
        }
      }
      StrLeAntisymmetric(a[0], b[0]);
      assert multiset(a[1..]) == multiset(b[1..]) by {
        MultisetOfTail(a);
        MultisetOfTail(b);
      }
      SortedUnique(a[1..], b[1..]);
    }
  }

  lemma MultisetOfTail(a: seq<string>)
    requires a != []
    ensures multiset(a[1..]) == multiset(a) - multiset{a[0]}
  {
    assert a == [a[0]] + a[1..];
  }

  /** Sorting depends on the strings only, not on their arrangement. */
  lemma SortPermutation(a: seq<string>, b: seq<string>)
    requires multiset(a) == multiset(b)
    ensures SortStrings(a) == SortStrings(b)
  {
    SortedUnique(SortStrings(a), SortStrings(b));
  }
}
