/**
 * The snapshot file list: from a directory listing keep the names that
 * contain `.nc`, sort them the way Python sorts strings (code point by code
 * point, a proper prefix first), then drop the names that begin with `._`.
 */
module FileNames {
  import opened Base

  /** `sub in s` for Python strings: `sub` occurs somewhere in `s`. */
  predicate Contains(s: string, sub: string)
    decreases |s|
  {
    (|sub| <= |s| && s[..|sub|] == sub) || (|s| > 0 && Contains(s[1..], sub))
  }

  predicate HasNc(name: string) {
    Contains(name, ".nc")
  }

  /** `name[0:2] == '._'`; a name shorter than two characters is never hidden. */
  predicate IsHidden(name: string) {
    |name| >= 2 && name[..2] == "._"
  }

  /** A name that survives both filters. */
  predicate Visible(name: string) {
    HasNc(name) && !IsHidden(name)
  }

  predicate NotHidden(name: string) {
    !IsHidden(name)
  }

  /** Python's `a <= b` on strings. */
  predicate LexLe(a: string, b: string)
    decreases |a|
  {
    |a| == 0 || (|b| > 0 && (a[0] < b[0] || (a[0] == b[0] && LexLe(a[1..], b[1..]))))
  }

  lemma {:induction false} LexLeTotal(a: string, b: string)
    ensures LexLe(a, b) || LexLe(b, a)
    decreases |a|
  {
    if |a| > 0 && |b| > 0 && a[0] == b[0] {
      LexLeTotal(a[1..], b[1..]);
    }
  }

  lemma {:induction false} LexLeReflexive(a: string)
    ensures LexLe(a, a)
    decreases |a|
  {
    if |a| > 0 {
      LexLeReflexive(a[1..]);
    }
  }

  lemma {:induction false} LexLeTransitive(a: string, b: string, c: string)
    requires LexLe(a, b) && LexLe(b, c)
    ensures LexLe(a, c)
    decreases |a|
  {
    if |a| > 0 && a[0] == b[0] && b[0] == c[0] {
      LexLeTransitive(a[1..], b[1..], c[1..]);
    }
  }

  lemma {:induction false} LexLeAntisymmetric(a: string, b: string)
    requires LexLe(a, b) && LexLe(b, a)
    ensures a == b
    decreases |a|
  {
    if |a| > 0 {
      LexLeAntisymmetric(a[1..], b[1..]);
      assert a == [a[0]] + a[1..] && b == [b[0]] + b[1..];
    }
  }

  /** Ascending in Python's string order. */
  predicate Sorted(s: seq<string>) {
    forall i, j :: 0 <= i < j < |s| ==> LexLe(s[i], s[j])
  }

  lemma PrependSorted(x: string, s: seq<string>)
    requires Sorted(s)
    requires forall y :: y in s ==> LexLe(x, y)
    ensures Sorted([x] + s)
  {
    forall i, j | 0 <= i < j < |[x] + s|
      ensures LexLe(([x] + s)[i], ([x] + s)[j])
    {
      if i == 0 {
        assert ([x] + s)[j] in s;
      }
    }
  }

  /** Insert `x` into a sorted list at its place. */
  function Insert(x: string, s: seq<string>): (r: seq<string>)
    requires Sorted(s)
    ensures Sorted(r)
    ensures multiset(r) == multiset(s) + multiset{x}
    decreases |s|
  {
    if |s| == 0 then [x]
    else if LexLe(x, s[0]) then
      assert forall y :: y in s ==> LexLe(x, y) by {
        forall y | y in s
          ensures LexLe(x, y)
        {
          var k :| 0 <= k < |s| && s[k] == y;
          if k > 0 {
            LexLeTransitive(x, s[0], y);
          }
        }
      }
      PrependSorted(x, s);
      [x] + s
    else
      var rest := Insert(x, s[1..]);
      LexLeTotal(x, s[0]);
      assert s == [s[0]] + s[1..];
      assert forall y :: y in rest ==> LexLe(s[0], y) by {
        forall y | y in rest
          ensures LexLe(s[0], y)
        {
          assert y in multiset(rest);
          if y != x {
            assert y in multiset(s[1..]);
            var k :| 0 <= k < |s[1..]| && s[1..][k] == y;
            assert s[k + 1] == y;
          }
        }
      }
      PrependSorted(s[0], rest);
      [s[0]] + rest
  }

  /** Python's `sorted` on a list of names (an insertion sort). */
  function SortNames(s: seq<string>): (r: seq<string>)
    ensures Sorted(r)
    ensures multiset(r) == multiset(s)
    decreases |s|
  {
    if |s| == 0 then []
    else
      assert s == [s[0]] + s[1..];
      Insert(s[0], SortNames(s[1..]))
  }

  /**
   * A sorted arrangement of a list of names is unique, so `SortNames` agrees
   * with Python's `sorted` whatever algorithm the latter uses.
   */
  lemma {:induction false} SortedUnique(a: seq<string>, b: seq<string>)
    requires Sorted(a) && Sorted(b)
    requires multiset(a) == multiset(b)
    ensures a == b
    decreases |a|
  {
    if |a| == 0 {
      assert |multiset(b)| == 0;
    } else {
      assert |b| > 0 by {
        assert a[0] in multiset(b);
      }
      assert LexLe(b[0], a[0]) by {
        assert a[0] in multiset(b);
        var k :| 0 <= k < |b| && b[k] == a[0];
        LexLeReflexive(a[0]);
      }
      assert LexLe(a[0], b[0]) by {
        assert b[0] in multiset(a);
        var k :| 0 <= k < |a| && a[k] == b[0];
        LexLeReflexive(b[0]);
      }
      LexLeAntisymmetric(a[0], b[0]);
      assert a == [a[0]] + a[1..] && b == [b[0]] + b[1..];
      assert multiset(a[1..]) == multiset(a) - multiset{a[0]};
      assert multiset(b[1..]) == multiset(b) - multiset{b[0]};
      SortedUnique(a[1..], b[1..]);
    }
  }

  /** Dropping names from a sorted list leaves it sorted. */
  lemma {:induction false} FilterKeepsSorted(p: string -> bool, s: seq<string>)
    requires Sorted(s)
    ensures Sorted(Filter(p, s))
    decreases |s|
  {
    if |s| > 0 {
      FilterKeepsSorted(p, s[1..]);
      if p(s[0]) {
        forall y | y in Filter(p, s[1..])
          ensures LexLe(s[0], y)
        {
          var k :| 0 <= k < |s[1..]| && s[1..][k] == y;
          assert s[k + 1] == y;
        }
        PrependSorted(s[0], Filter(p, s[1..]));
      }
    }
  }

  /**
   * The snapshot list of a directory listing (`file_ls` after its three
   * filtering steps): exactly the visible `.nc` names of the listing, each
   * as often as listed, in sorted order.
   */
  function SnapshotFiles(listing: seq<string>): (r: seq<string>)
    ensures Sorted(r)
    ensures multiset(r) == multiset(Filter(Visible, listing))
    ensures forall f :: f in r <==> f in listing && Visible(f)
  {
    var nc := Filter(HasNc, listing);
    var sorted := SortNames(nc);
    var r := Filter(NotHidden, sorted);
    FilterKeepsSorted(NotHidden, sorted);
    forall x
      ensures multiset(r)[x] == multiset(Filter(Visible, listing))[x]
    {
      FilterMultiset(NotHidden, sorted, x);
      FilterMultiset(HasNc, listing, x);
      FilterMultiset(Visible, listing, x);
    }
    assert multiset(r) == multiset(Filter(Visible, listing));
    assert forall f :: f in sorted <==> f in nc by {
      forall f
        ensures f in sorted <==> f in nc
      {
        assert f in sorted <==> f in multiset(sorted);
      }
    }
    r
  }

  /** Any sorted list of exactly the visible `.nc` names is the snapshot list. */
  lemma SnapshotFilesIsTheSortedOrder(listing: seq<string>, s: seq<string>)
    requires Sorted(s)
    requires multiset(s) == multiset(Filter(Visible, listing))
    ensures s == SnapshotFiles(listing)
  {
    SortedUnique(s, SnapshotFiles(listing));
  }
}
