/**
 * Year-range retention of snapshot files. Every file is opened and kept when
 * the year of its first or of its last timestep lies in the inclusive range;
 * the indices of the other files are collected in ascending order and then
 * deleted from the list one by one, largest index first.
 */
module YearFilter {
  import opened Base
  import opened Snapshots

  /** The inclusive year range `[years[0], years[1]]`. */
  datatype YearRange = YearRange(first: int, last: int)

  /** The range used when the caller gives none. */
  const DefaultYears: YearRange := YearRange(2012, 2014)

  predicate InYears(t: DateTime, years: YearRange) {
    years.first <= t.year <= years.last
  }

  /**
   * Whether a snapshot is kept: its first or its last timestep falls in the
   * range. A snapshot without timesteps is never kept (reading it fails).
   */
  predicate Overlaps(s: Snapshot, decode: real -> DateTime, years: YearRange) {
    && |s.oceanTime| > 0
    && (InYears(decode(s.oceanTime[0]), years) || InYears(decode(s.oceanTime[|s.oceanTime| - 1]), years))
  }

  /** The retention test on file names, opening each file with `open`. */
  function KeepTest(open: string -> Snapshot, decode: real -> DateTime, years: YearRange): string -> bool {
    f => Overlaps(open(f), decode, years)
  }

  /**
   * The scan over `files[i..]`: the indices of the files to drop, in
   * ascending order, or the failure of the first file whose time axis is empty.
   */
  function DropScan(files: seq<string>, open: string -> Snapshot, decode: real -> DateTime,
                    years: YearRange, i: nat): (r: Result<seq<nat>>)
    requires i <= |files|
    ensures r.Ok? <==> forall k :: i <= k < |files| ==> |open(files[k]).oceanTime| > 0
    ensures r.Ok? ==> StrictlyAscending(r.value)
    ensures r.Ok? ==> forall k :: k in r.value <==> i <= k < |files| && !Overlaps(open(files[k]), decode, years)
    ensures r.Err? ==> exists k :: && i <= k < |files|
                                  && |open(files[k]).oceanTime| == 0
                                  && r.error == EmptyTimeAxis(files[k])
                                  && forall m :: i <= m < k ==> |open(files[m]).oceanTime| > 0
    decreases |files| - i
  {
    if i == |files| then Ok([])
    else if |open(files[i]).oceanTime| == 0 then Err(EmptyTimeAxis(files[i]))
    else
      match DropScan(files, open, decode, years, i + 1)
      case Err(e) => Err(e)
      case Ok(rest) =>
        var head: seq<nat> := if Overlaps(open(files[i]), decode, years) then [] else [i];
        assert forall k :: k in head + rest <==> k in head || k in rest;
        assert StrictlyAscending(head + rest) by {
          forall a, b | 0 <= a < b < |head + rest|
            ensures (head + rest)[a] < (head + rest)[b]
          {
            if a < |head| {
              assert (head + rest)[b] in rest;
            }
          }
        }
        Ok(head + rest)
  }

  /** The indices of the files outside the year range (`drop_idx`). */
  function DropIndices(files: seq<string>, open: string -> Snapshot, decode: real -> DateTime,
                       years: YearRange): Result<seq<nat>>
  {
    DropScan(files, open, decode, years, 0)
  }

  /** The elements of `s` back to front. */
  function Reverse(s: seq<nat>): (r: seq<nat>)
    ensures |r| == |s|
    ensures forall k :: 0 <= k < |s| ==> r[k] == s[|s| - 1 - k]
  {
    if |s| == 0 then [] else Reverse(s[1..]) + [s[0]]
  }

  /** `sorted(drop_idx, reverse=True)` of an ascending list is its reverse, largest first. */
  lemma ReverseDescends(s: seq<nat>)
    requires StrictlyAscending(s)
    ensures StrictlyDescending(Reverse(s))
    ensures forall k :: k in Reverse(s) <==> k in s
  {
    var r := Reverse(s);
    forall k | k in s
      ensures k in r
    {
      var m :| 0 <= m < |s| && s[m] == k;
      assert r[|s| - 1 - m] == k;
    }
  }

  /** `del xs[i]`. */
  function DeleteAt<T>(xs: seq<T>, i: nat): seq<T>
    requires i < |xs|
  {
    xs[..i] + xs[i + 1..]
  }

  /** The `del` loop: delete the positions of `desc`, largest first. */
  function DeleteAll<T>(xs: seq<T>, desc: seq<nat>): seq<T>
    requires StrictlyDescending(desc)
    requires forall k :: 0 <= k < |desc| ==> desc[k] < |xs|
    decreases |desc|
  {
    if |desc| == 0 then xs
    else DeleteAll(DeleteAt(xs, desc[0]), desc[1..])
  }

  /** Reference definition: the elements of `xs` whose positions are not in `drop`, in order. */
  function Without<T>(xs: seq<T>, drop: set<nat>): seq<T>
    decreases |xs|
  {
    if |xs| == 0 then []
    else Without(xs[..|xs| - 1], drop) + (if |xs| - 1 in drop then [] else [xs[|xs| - 1]])
  }

  function ToSet(s: seq<nat>): set<nat> {
    set k | k in s
  }

  /** Positions beyond the end of `xs` do not matter to `Without`. */
  lemma {:induction false} WithoutAgree<T>(xs: seq<T>, d1: set<nat>, d2: set<nat>)
    requires forall k :: 0 <= k < |xs| ==> (k in d1 <==> k in d2)
    ensures Without(xs, d1) == Without(xs, d2)
    decreases |xs|
  {
    if |xs| > 0 {
      WithoutAgree(xs[..|xs| - 1], d1, d2);
    }
  }

  /** When every dropped position lies below `k`, the suffix from `k` on is kept whole. */
  lemma {:induction false} WithoutSuffix<T>(xs: seq<T>, drop: set<nat>, k: nat)
    requires k <= |xs|
    requires forall d :: d in drop ==> d < k
    ensures Without(xs, drop) == Without(xs[..k], drop) + xs[k..]
    decreases |xs|
  {
    if |xs| == k {
      assert xs[..k] == xs;
    } else {
      var n := |xs|;
      var init := xs[..n - 1];
      WithoutSuffix(init, drop, k);
      assert init[..k] == xs[..k];
      assert init[k..] + [xs[n - 1]] == xs[k..];
    }
  }

  /** The positions after the head of a strictly descending list all lie below it. */
  lemma DescendingTail(desc: seq<nat>)
    requires StrictlyDescending(desc)
    requires |desc| > 0
    ensures forall e :: e in ToSet(desc[1..]) ==> e < desc[0]
    ensures forall e :: e in ToSet(desc) ==> e < desc[0] + 1
    ensures forall k :: 0 <= k < desc[0] ==> (k in ToSet(desc) <==> k in ToSet(desc[1..]))
  {
    var rest := desc[1..];
    forall e | e in ToSet(rest)
      ensures e < desc[0]
    {
      var m :| 0 <= m < |rest| && rest[m] == e;
      assert desc[m + 1] == e;
    }
    forall k | 0 <= k < desc[0] && k in ToSet(desc)
      ensures k in ToSet(rest)
    {
      var m :| 0 <= m < |desc| && desc[m] == k;
      assert rest[m - 1] == k;
    }
  }

  /**
   * Deleting the positions of a strictly descending list one at a time
   * removes exactly those positions and keeps the rest in order.
   */
  lemma {:induction false} DeleteAllRemovesListed<T>(xs: seq<T>, desc: seq<nat>)
    requires StrictlyDescending(desc)
    requires forall k :: 0 <= k < |desc| ==> desc[k] < |xs|
    ensures DeleteAll(xs, desc) == Without(xs, ToSet(desc))
    decreases |desc|
  {
    if |desc| == 0 {
      WithoutSuffix(xs, {}, 0);
      assert ToSet(desc) == {};
    } else {
      var d := desc[0];
      var dropAll := ToSet(desc);
      var dropRest := ToSet(desc[1..]);
      var ys := DeleteAt(xs, d);
      DeleteAllRemovesListed(ys, desc[1..]);
      DescendingTail(desc);
      WithoutSuffix(ys, dropRest, d);
      assert ys[..d] == xs[..d];
      assert ys[d..] == xs[d + 1..];
      WithoutSuffix(xs, dropAll, d + 1);
      assert d in dropAll;
      assert xs[..d + 1][..d] == xs[..d];
      assert Without(xs[..d + 1], dropAll) == Without(xs[..d], dropAll);
      WithoutAgree(xs[..d], dropAll, dropRest);
    }
  }

  /** Dropping the positions of the elements that fail `keep` is filtering by `keep`. */
  lemma {:induction false} WithoutIsFilter<T(!new)>(xs: seq<T>, keep: T -> bool, drop: set<nat>)
    requires forall k :: 0 <= k < |xs| ==> (k in drop <==> !keep(xs[k]))
    ensures Without(xs, drop) == Filter(keep, xs)
    decreases |xs|
  {
    if |xs| > 0 {
      var n := |xs|;
      var init := xs[..n - 1];
      var last := xs[n - 1];
      WithoutIsFilter(init, keep, drop);
      assert xs == init + [last];
      FilterAppend(keep, init, [last]);
      assert [last][1..] == [];
      assert Filter(keep, [last]) == if keep(last) then [last] else [];
      assert Without(xs, drop) == Without(init, drop) + (if n - 1 in drop then [] else [last]);
    }
  }

  /**
   * The `drop_idx` computation followed by the reverse-order deletion. It
   * fails at the first file whose time axis is empty.
   */
  function RetainInYears(files: seq<string>, open: string -> Snapshot, decode: real -> DateTime,
                         years: YearRange): (r: Result<seq<string>>)
    ensures r.Ok? <==> forall k :: 0 <= k < |files| ==> |open(files[k]).oceanTime| > 0
    ensures r.Err? ==> exists k :: && 0 <= k < |files|
                                  && |open(files[k]).oceanTime| == 0
                                  && r.error == EmptyTimeAxis(files[k])
                                  && forall m :: 0 <= m < k ==> |open(files[m]).oceanTime| > 0
    ensures r.Ok? ==> r.value == Filter(KeepTest(open, decode, years), files)
  {
    match DropIndices(files, open, decode, years)
    case Err(e) => Err(e)
    case Ok(drop) =>
      ReverseDescends(drop);
      var desc := Reverse(drop);
      assert forall k :: 0 <= k < |desc| ==> desc[k] < |files| by {
        forall k | 0 <= k < |desc|
          ensures desc[k] < |files|
        {
          assert desc[k] in drop;
        }
      }
      DeleteAllRemovesListed(files, desc);
      assert forall k :: 0 <= k < |files| ==> (k in ToSet(desc) <==> !KeepTest(open, decode, years)(files[k]));
      WithoutIsFilter(files, KeepTest(open, decode, years), ToSet(desc));
      Ok(DeleteAll(files, desc))
  }

  /**
   * A file is retained iff it opens with a time axis whose first or last
   * year is in the range; the retained files keep their relative order.
   */
  lemma RetainedIffOverlaps(files: seq<string>, open: string -> Snapshot, decode: real -> DateTime,
                            years: YearRange, f: string)
    requires RetainInYears(files, open, decode, years).Ok?
    ensures f in RetainInYears(files, open, decode, years).value <==> f in files && Overlaps(open(f), decode, years)
  {
  }
}
