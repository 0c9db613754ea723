/**
 * Common vocabulary of the model: optional values (a missing or masked
 * reading), results carrying the pipeline's failures, and the sequence
 * operations the pipeline is built from (filtering, mapping, concatenation
 * and compaction of a sparsely filled buffer).
 */
module Base {

  /** A value that may be absent: a masked netCDF cell, a NaN in a frame. */
  datatype Option<T> = None | Some(value: T)

  /** The ways a run of the classification pipeline stops with an exception. */
  datatype Error =
    /** no `.nc` file survives the name filter, so `file_ls[0]` fails */
    | NoSnapshotFiles
    /** a snapshot whose time axis is empty, so `ocean_time[0]` fails */
    | EmptyTimeAxis(file: string)
    /** the level-29 field of a timestep cannot be indexed at the selected cells */
    | FieldIndexError(file: string, step: nat)
    /**
     * a timestep has no row to score: with no selected cell the scaler's
     * `transform` is handed an empty frame, and otherwise `dropna` removes
     * every row and `predict_proba` is handed one
     */
    | EmptyFrame(file: string, step: nat)
    /** more frames than the store has slots, so writing the next one fails */
    | StoreOverflow
    /** the coordinate grids cannot be indexed at a surviving row's cell */
    | CoordinateIndexError(file: string, step: nat)
    /** no frame was stored, so the final concatenation has nothing to join */
    | NothingToConcatenate

  datatype Result<T> = Ok(value: T) | Err(error: Error)

  /**
   * Two sequence-valued steps run one after the other: the first failure
   * wins, and two successes give the concatenation.
   */
  function AppendResults<T>(a: Result<seq<T>>, b: Result<seq<T>>): Result<seq<T>> {
    if a.Err? then a else if b.Err? then b else Ok(a.value + b.value)
  }

  lemma AppendResultsAssoc<T>(a: Result<seq<T>>, b: Result<seq<T>>, c: Result<seq<T>>)
    ensures AppendResults(a, AppendResults(b, c)) == AppendResults(AppendResults(a, b), c)
  {
    if a.Ok? && b.Ok? && c.Ok? {
      assert a.value + (b.value + c.value) == (a.value + b.value) + c.value;
    }
  }

  /** Every element is strictly smaller than every later element. */
  predicate StrictlyAscending(s: seq<int>) {
    forall i, j :: 0 <= i < j < |s| ==> s[i] < s[j]
  }

  /** Every element is strictly greater than every later element. */
  predicate StrictlyDescending(s: seq<int>) {
    forall i, j :: 0 <= i < j < |s| ==> s[i] > s[j]
  }

  /** The elements of `s` that satisfy `p`, in their original order. */
  function Filter<T(!new)>(p: T -> bool, s: seq<T>): (r: seq<T>)
    ensures |r| <= |s|
    ensures forall x :: x in r <==> x in s && p(x)
  {
    if |s| == 0 then []
    else (if p(s[0]) then [s[0]] else []) + Filter(p, s[1..])
  }

  /** Filtering a concatenation filters each part and keeps the parts in order. */
  lemma {:induction false} FilterAppend<T(!new)>(p: T -> bool, a: seq<T>, b: seq<T>)
    ensures Filter(p, a + b) == Filter(p, a) + Filter(p, b)
    decreases |a|
  {
    if |a| == 0 {
      assert a + b == b;
    } else {
      assert (a + b)[1..] == a[1..] + b;
      FilterAppend(p, a[1..], b);
    }
  }

  /** The negation of a test. */
  function Not<T>(p: T -> bool): T -> bool {
    x => !p(x)
  }

  /** The kept and the dropped elements together account for the whole sequence. */
  lemma {:induction false} FilterSplitsLength<T(!new)>(p: T -> bool, s: seq<T>)
    ensures |Filter(p, s)| + |Filter(Not(p), s)| == |s|
    decreases |s|
  {
    if |s| > 0 {
      FilterSplitsLength(p, s[1..]);
    }
  }

  /** Filtering keeps every copy of an element satisfying `p` and no copy of any other. */
  lemma {:induction false} FilterMultiset<T(!new)>(p: T -> bool, s: seq<T>, x: T)
    ensures multiset(Filter(p, s))[x] == if p(x) then multiset(s)[x] else 0
    decreases |s|
  {
    if |s| > 0 {
      FilterMultiset(p, s[1..], x);
      assert s == [s[0]] + s[1..];
    }
  }

  /** `f` applied to every element, in order. */
  function Map<A, B>(f: A -> B, s: seq<A>): (r: seq<B>)
    ensures |r| == |s|
    ensures forall k :: 0 <= k < |s| ==> r[k] == f(s[k])
  {
    if |s| == 0 then [] else [f(s[0])] + Map(f, s[1..])
  }

  /**
   * Mapping after filtering is filtering after mapping, when the filter only
   * looks at the part of an element that the map keeps.
   */
  lemma {:induction false} MapFilter<A(!new), B(!new)>(f: A -> B, p: A -> bool, q: B -> bool, s: seq<A>)
    requires forall k :: 0 <= k < |s| ==> p(s[k]) == q(f(s[k]))
    ensures Map(f, Filter(p, s)) == Filter(q, Map(f, s))
    decreases |s|
  {
    if |s| > 0 {
      MapFilter(f, p, q, s[1..]);
      assert Map(f, s)[1..] == Map(f, s[1..]);
      var head := if p(s[0]) then [s[0]] else [];
      MapAppend(f, head, Filter(p, s[1..]));
    }
  }

  lemma {:induction false} MapAppend<A, B>(f: A -> B, a: seq<A>, b: seq<A>)
    ensures Map(f, a + b) == Map(f, a) + Map(f, b)
  {
  }

  /** A filter of a sequence whose keys strictly ascend has strictly ascending keys. */
  lemma {:induction false} FilterKeepsAscending<T(!new)>(key: T -> int, p: T -> bool, s: seq<T>)
    requires StrictlyAscending(Map(key, s))
    ensures StrictlyAscending(Map(key, Filter(p, s)))
    decreases |s|
  {
    if |s| > 0 {
      assert Map(key, s)[1..] == Map(key, s[1..]);
      FilterKeepsAscending(key, p, s[1..]);
      var rest := Filter(p, s[1..]);
      if p(s[0]) {
        forall k | 0 <= k < |rest|
          ensures key(s[0]) < key(rest[k])
        {
          assert rest[k] in s[1..];
          var m :| 0 <= m < |s[1..]| && s[1..][m] == rest[k];
          assert Map(key, s)[0] < Map(key, s)[m + 1];
        }
        assert Map(key, [s[0]] + rest)[1..] == Map(key, rest);
      }
    }
  }

  /** The sequences of `ss` joined end to end. */
  function Concat<T>(ss: seq<seq<T>>): seq<T> {
    if |ss| == 0 then [] else ss[0] + Concat(ss[1..])
  }

  /** Total length of the sequences of `ss`. */
  function SumLengths<T>(ss: seq<seq<T>>): nat {
    if |ss| == 0 then 0 else |ss[0]| + SumLengths(ss[1..])
  }

  /** The joined sequence is as long as its parts together. */
  lemma {:induction false} ConcatLength<T>(ss: seq<seq<T>>)
    ensures |Concat(ss)| == SumLengths(ss)
    decreases |ss|
  {
    if |ss| > 0 {
      ConcatLength(ss[1..]);
    }
  }

  /** An element of the join lies in one of its parts, and every element of a part is in the join. */
  lemma {:induction false} ConcatMembers<T>(ss: seq<seq<T>>, x: T)
    ensures x in Concat(ss) <==> exists k :: 0 <= k < |ss| && x in ss[k]
    decreases |ss|
  {
    if |ss| > 0 {
      ConcatMembers(ss[1..], x);
      if x in ss[0] {
        assert x in ss[0] + Concat(ss[1..]);
      }
      if exists k :: 0 <= k < |ss| && x in ss[k] {
        var k :| 0 <= k < |ss| && x in ss[k];
        if k > 0 {
          assert x in ss[1..][k - 1];
        }
      }
    }
  }

  /** The values of the filled slots of a buffer, in slot order (the `is not None` compaction). */
  function Compact<T>(store: seq<Option<T>>): seq<T> {
    if |store| == 0 then []
    else (if store[0].Some? then [store[0].value] else []) + Compact(store[1..])
  }

  /** Compacting a concatenation compacts each part and keeps the parts in order. */
  lemma {:induction false} CompactAppend<T>(a: seq<Option<T>>, b: seq<Option<T>>)
    ensures Compact(a + b) == Compact(a) + Compact(b)
    decreases |a|
  {
    if |a| == 0 {
      assert a + b == b;
    } else {
      assert (a + b)[0] == a[0];
      assert (a + b)[1..] == a[1..] + b;
      CompactAppend(a[1..], b);
      var head := if a[0].Some? then [a[0].value] else [];
      calc {
        Compact(a + b);
        head + Compact(a[1..] + b);
        head + (Compact(a[1..]) + Compact(b));
        (head + Compact(a[1..])) + Compact(b);
      }
    }
  }

  /** A buffer whose slots hold `frames`, one filled slot per frame. */
  function Filled<T>(frames: seq<T>): (store: seq<Option<T>>)
    ensures |store| == |frames|
    ensures forall k :: 0 <= k < |frames| ==> store[k] == Some(frames[k])
  {
    if |frames| == 0 then [] else [Some(frames[0])] + Filled(frames[1..])
  }

  /**
   * A buffer whose first slots hold `frames` and whose remaining slots are
   * empty compacts back to exactly `frames`, in order, however many empty
   * slots follow.
   */
  lemma CompactFilledPrefix<T>(frames: seq<T>, padding: nat)
    ensures Compact(Filled(frames) + seq(padding, _ => None)) == frames
  {
    CompactAppend(Filled(frames), seq(padding, _ => None));
    CompactAllFilled(frames);
    CompactAllEmpty<T>(padding);
  }

  lemma {:induction false} CompactAllFilled<T>(frames: seq<T>)
    ensures Compact(Filled(frames)) == frames
    decreases |frames|
  {
    if |frames| > 0 {
      assert Filled(frames)[1..] == Filled(frames[1..]);
      CompactAllFilled(frames[1..]);
    }
  }

  lemma {:induction false} CompactAllEmpty<T>(padding: nat)
    ensures |Compact<T>(seq(padding, _ => None))| == 0
    decreases padding
  {
    if padding > 0 {
      var store: seq<Option<T>> := seq(padding, _ => None);
      assert store[1..] == seq(padding - 1, _ => None);
      CompactAllEmpty<T>(padding - 1);
    }
  }
}
