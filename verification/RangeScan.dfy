/** One range scan, three ways: a loop over the sorted map, pages resumed past their last key, and a native cursor
    walked in place. Each is held to one specification. */
module RangeScan {
  import opened ByteOrder
  import opened Collections
  import opened Rows

  datatype Entry = Entry(key: Bytes, value: Bytes)

  /** One edge of a range. An open edge leaves its key out. */
  datatype Bound = NoBound | At(key: Bytes, open: bool)

  datatype Range = Range(lower: Bound, upper: Bound, reverse: bool)

  // ---- the specification ------------------------------------------------------------------------

  ghost predicate AboveLower(k: Bytes, lower: Bound) {
    lower.At? ==> Less(lower.key, k) || (!lower.open && lower.key == k)
  }

  ghost predicate BelowUpper(k: Bytes, upper: Bound) {
    upper.At? ==> Less(k, upper.key) || (!upper.open && upper.key == k)
  }

  ghost function Within(entries: seq<Entry>, r: Range): seq<Entry> {
    if entries == [] then []
    else if AboveLower(entries[0].key, r.lower) &&
        BelowUpper(entries[0].key, r.upper) then [entries[0]] + Within(entries[1..], r)
    else Within(entries[1..], r)
  }

  /** The entries in range, in the scan's direction. */
  ghost function InOrder(entries: seq<Entry>, r: Range): seq<Entry> {
    if r.reverse then Backward(Within(entries, r)) else Within(entries, r)
  }

  /** At most `limit` of them; a limit at or below zero takes none. */
  ghost function Taken(entries: seq<Entry>, limit: Option<int>): seq<Entry> {
    if limit.None? || |entries| <= limit.value then entries else if limit.value <= 0 then [] else entries[..limit.value]
  }

  ghost function Scan(entries: seq<Entry>, r: Range, limit: Option<int>): seq<Entry> {
    Taken(InOrder(entries, r), limit)
  }

  ghost predicate Ascends(entries: seq<Entry>, i: int, j: int) {
    0 <= i < j < |entries| ==> Less(entries[i].key, entries[j].key)
  }

  ghost predicate Sorted(entries: seq<Entry>) {
    forall i, j :: Ascends(entries, i, j)
  }

  lemma TailSorted(entries: seq<Entry>)
    requires Sorted(entries) && entries != []
    ensures Sorted(entries[1..])
  {
    forall i, j ensures Ascends(entries[1..], i, j) {
      assert Ascends(entries, i + 1, j + 1);
    }
  }

  // ---- a range of a sorted sequence is a slice --------------------------------------------------

  lemma AboveIsUpward(a: Bytes, b: Bytes, lower: Bound)
    requires Less(a, b) && AboveLower(a, lower)
    ensures AboveLower(b, lower)
  {
    if lower.At? && lower.key != a {
      LessIsTransitive(lower.key, a, b);
    }
  }

  lemma BelowIsDownward(a: Bytes, b: Bytes, upper: Bound)
    requires Less(a, b) && BelowUpper(b, upper)
    ensures BelowUpper(a, upper)
  {
    if upper.At? && upper.key != b {
      LessIsTransitive(a, b, upper.key);
    }
  }

  /** How many leading entries are not above the lower edge. */
  ghost function Low(entries: seq<Entry>, lower: Bound): nat {
    if entries == [] || AboveLower(entries[0].key, lower) then 0 else 1 + Low(entries[1..], lower)
  }

  /** How many leading entries are below the upper edge. */
  ghost function High(entries: seq<Entry>, upper: Bound): nat {
    if entries == [] || !BelowUpper(entries[0].key, upper) then 0 else 1 + High(entries[1..], upper)
  }

  lemma {:induction false} LowSplits(entries: seq<Entry>, lower: Bound)
    requires Sorted(entries)
    ensures Low(entries, lower) <= |entries|
    ensures forall i :: 0 <= i < |entries| ==> (AboveLower(entries[i].key, lower) <==> i >= Low(entries, lower))
  {
    if entries != [] {
      if AboveLower(entries[0].key, lower) {
        forall i | 0 < i < |entries| ensures AboveLower(entries[i].key, lower) {
          assert Ascends(entries, 0, i);
          AboveIsUpward(entries[0].key, entries[i].key, lower);
        }
      } else {
        TailSorted(entries);
        LowSplits(entries[1..], lower);
        forall i | 0 < i < |entries| ensures AboveLower(entries[i].key, lower) <==> i >= Low(entries, lower) {
          assert entries[i] == entries[1..][i - 1];
        }
      }
    }
  }

  lemma {:induction false} HighSplits(entries: seq<Entry>, upper: Bound)
    requires Sorted(entries)
    ensures High(entries, upper) <= |entries|
    ensures forall i :: 0 <= i < |entries| ==> (BelowUpper(entries[i].key, upper) <==> i < High(entries, upper))
  {
    if entries != [] {
      if !BelowUpper(entries[0].key, upper) {
        forall i | 0 < i < |entries| ensures !BelowUpper(entries[i].key, upper) {
          assert Ascends(entries, 0, i);
          if BelowUpper(entries[i].key, upper) {
            BelowIsDownward(entries[0].key, entries[i].key, upper);
          }
        }
      } else {
        TailSorted(entries);
        HighSplits(entries[1..], upper);
        forall i | 0 < i < |entries| ensures BelowUpper(entries[i].key, upper) <==> i < High(entries, upper) {
          assert entries[i] == entries[1..][i - 1];
        }
      }
    }
  }

  ghost function Slice(entries: seq<Entry>, lo: nat, hi: nat): seq<Entry> {
    if lo <= hi <= |entries| then entries[lo..hi] else []
  }

  /** A run of entries, each in range exactly from `lo` to `hi`, filters to that slice. */
  lemma {:induction false} WithinIsSlice(entries: seq<Entry>, r: Range, lo: nat, hi: nat)
    requires lo <= |entries| && hi <= |entries|
    requires forall i :: 0 <= i < |entries| ==>
             (AboveLower(entries[i].key, r.lower) && BelowUpper(entries[i].key, r.upper) <==> lo <= i < hi)
    ensures Within(entries, r) == Slice(entries, lo, hi)
    decreases |entries|
  {
    if entries != [] {
      var rest := entries[1..];
      forall i | 0 <= i < |rest|
        ensures AboveLower(rest[i].key, r.lower) && BelowUpper(rest[i].key, r.upper) <==> lo <= i + 1 < hi
      {
        assert rest[i] == entries[i + 1];
      }
      if lo == 0 && hi > 0 {
        WithinIsSlice(rest, r, 0, hi - 1);
        assert entries[0..hi] == [entries[0]] + rest[0..hi - 1];
      } else {
        WithinIsSlice(rest, r, if lo == 0 then 0 else lo - 1, if hi == 0 then 0 else hi - 1);
        if lo <= hi && lo > 0 {
          assert entries[lo..hi] == rest[lo - 1..hi - 1];
        } else if lo <= hi {
          assert entries[lo..hi] == [] && rest[0..0] == [];
        }
      }
    }
  }

  lemma RangeIsSlice(entries: seq<Entry>, r: Range)
    requires Sorted(entries)
    ensures Low(entries, r.lower) <= |entries| && High(entries, r.upper) <= |entries|
    ensures Within(entries, r) == Slice(entries, Low(entries, r.lower), High(entries, r.upper))
  {
    LowSplits(entries, r.lower);
    HighSplits(entries, r.upper);
    WithinIsSlice(entries, r, Low(entries, r.lower), High(entries, r.upper));
  }

  // ---- seen in the scan's direction -------------------------------------------------------------

  function Directed(entries: seq<Entry>, reverse: bool): seq<Entry> {
    if reverse then Backward(entries) else entries
  }

  /** The edge the scan starts from. */
  ghost predicate PastNear(k: Bytes, r: Range) {
    if r.reverse then BelowUpper(k, r.upper) else AboveLower(k, r.lower)
  }

  /** The edge the scan ends at. */
  ghost predicate BeforeFar(k: Bytes, r: Range) {
    if r.reverse then AboveLower(k, r.lower) else BelowUpper(k, r.upper)
  }

  ghost function Start(entries: seq<Entry>, r: Range): int {
    if r.reverse then |entries| - High(entries, r.upper) else Low(entries, r.lower)
  }

  ghost function End(entries: seq<Entry>, r: Range): int {
    if r.reverse then |entries| - Low(entries, r.lower) else High(entries, r.upper)
  }

  /** In its own direction every scan skips to its start, runs, and stops at its end. */
  lemma ScanIsRun(entries: seq<Entry>, r: Range)
    requires Sorted(entries)
    ensures 0 <= Start(entries, r) <= |entries| && 0 <= End(entries, r) <= |entries|
    ensures InOrder(entries, r) == Slice(Directed(entries, r.reverse), Start(entries, r), End(entries, r))
  {
    RangeIsSlice(entries, r);
    if r.reverse {
      ReversedSlice(entries, Low(entries, r.lower), High(entries, r.upper));
    }
  }

  /** Where an entry stands against the two edges is where its place stands against start and end. */
  lemma EdgesAt(entries: seq<Entry>, r: Range, i: nat)
    requires Sorted(entries) && i < |entries|
    ensures PastNear(Directed(entries, r.reverse)[i].key, r) <==> i >= Start(entries, r)
    ensures BeforeFar(Directed(entries, r.reverse)[i].key, r) <==> i < End(entries, r)
  {
    LowSplits(entries, r.lower);
    HighSplits(entries, r.upper);
    var j := if r.reverse then |entries| - 1 - i else i;
    assert Directed(entries, r.reverse)[i] == entries[j];
  }

  lemma ReversedSlice(entries: seq<Entry>, lo: nat, hi: nat)
    requires lo <= |entries| && hi <= |entries|
    ensures Backward(Slice(entries, lo, hi)) == Slice(Backward(entries), |entries| - hi, |entries| - lo)
  {
  }

  method IsAboveLower(k: Bytes, lower: Bound) returns (yes: bool)
    ensures yes <==> AboveLower(k, lower)
  {
    yes := true;
    if lower.At? {
      var c := CompareBytes(lower.key, k);
      yes := c < 0 || (c == 0 && !lower.open);
    }
  }

  method IsBelowUpper(k: Bytes, upper: Bound) returns (yes: bool)
    ensures yes <==> BelowUpper(k, upper)
  {
    yes := true;
    if upper.At? {
      var c := CompareBytes(k, upper.key);
      yes := c < 0 || (c == 0 && !upper.open);
    }
  }

  method IsPastNear(k: Bytes, r: Range) returns (yes: bool)
    ensures yes <==> PastNear(k, r)
  {
    if r.reverse {
      yes := IsBelowUpper(k, r.upper);
    } else {
      yes := IsAboveLower(k, r.lower);
    }
  }

  method IsBeforeFar(k: Bytes, r: Range) returns (yes: bool)
    ensures yes <==> BeforeFar(k, r)
  {
    if r.reverse {
      yes := IsAboveLower(k, r.lower);
    } else {
      yes := IsBelowUpper(k, r.upper);
    }
  }

  /** The entries gathered by directed position `i`. */
  ghost predicate Gathered(directed: seq<Entry>, start: int, end: int, i: int, limit: Option<int>, out: seq<Entry>) {
    && 0 <= start <= |directed| && 0 <= i <= |directed| && (start < i ==> i <= end)
    && out == (if start <= i then directed[start..i] else [])
    && (limit.Some? ==> |out| == 0 || |out| <= limit.value)
  }

  lemma GatherNone(directed: seq<Entry>, start: int, end: int, i: int, limit: Option<int>, out: seq<Entry>)
    requires Gathered(directed, start, end, i, limit, out) && i < start
    ensures Gathered(directed, start, end, i + 1, limit, out)
  {
  }

  lemma GatherOne(directed: seq<Entry>, start: int, end: int, i: int, limit: Option<int>, out: seq<Entry>)
    requires Gathered(directed, start, end, i, limit, out) && start <= i < end <= |directed| &&
             (limit.Some? ==> |out| < limit.value)
    ensures Gathered(directed, start, end, i + 1, limit, out + [directed[i]])
  {
  }

  lemma GatheredAll(directed: seq<Entry>, start: int, end: int, i: int, limit: Option<int>, out: seq<Entry>)
    requires Gathered(directed, start, end, i, limit, out) && 0 <= end <= |directed| && start <= |directed|
    requires i == |directed| || (start <= i && i >= end) || (limit.Some? && start <= i < end && |out| >= limit.value)
    ensures out == Taken(Slice(directed, start, end), limit)
  {
  }

  // ---- the sorted map ---------------------------------------------------------------------------

  method HasStarted(k: Bytes, r: Range, ghost sorted: seq<Entry>, ghost i: nat) returns (yes: bool)
    requires Sorted(sorted) && i < |sorted| && k == Directed(sorted, r.reverse)[i].key
    ensures yes <==> i >= Start(sorted, r)
  {
    EdgesAt(sorted, r, i);
    yes := IsPastNear(k, r);
  }

  method IsRunning(k: Bytes, r: Range, ghost sorted: seq<Entry>, ghost i: nat) returns (yes: bool)
    requires Sorted(sorted) && i < |sorted| && k == Directed(sorted, r.reverse)[i].key
    ensures yes <==> i < End(sorted, r)
  {
    EdgesAt(sorted, r, i);
    yes := IsBeforeFar(k, r);
  }

  method IterateSortedMap(sorted: seq<Entry>, r: Range, limit: Option<int>) returns (out: seq<Entry>)
    requires Sorted(sorted)
    ensures out == Scan(sorted, r, limit)
  {
    ScanIsRun(sorted, r);
    out := GatherRun(if r.reverse then Backward(sorted) else sorted, r, limit, sorted);
  }

  /** Skips to the near edge, stops past the far one or at the limit. */
  method GatherRun(entries: seq<Entry>, r: Range, limit: Option<int>, ghost sorted: seq<Entry>)
                   returns (out: seq<Entry>)
    requires Sorted(sorted) && entries == Directed(sorted, r.reverse) && |entries| == |sorted|
    requires 0 <= Start(sorted, r) <= |entries| && 0 <= End(sorted, r) <= |entries|
    ensures out == Taken(Slice(entries, Start(sorted, r), End(sorted, r)), limit)
  {
    ghost var start, end := Start(sorted, r), End(sorted, r);
    out := [];
    var i := 0;
    while i < |entries|
      invariant 0 <= i <= |entries| && Gathered(entries, start, end, i, limit, out)
      decreases |entries| - i
    {
      var started := HasStarted(entries[i].key, r, sorted, i);
      if !started {
        GatherNone(entries, start, end, i, limit, out);
      } else {
        var running := IsRunning(entries[i].key, r, sorted, i);
        if !running || (limit.Some? && |out| >= limit.value) {
          break;
        }
        GatherOne(entries, start, end, i, limit, out);
        out := out + [entries[i]];
      }
      i := i + 1;
    }
    GatheredAll(entries, start, end, i, limit, out);
  }

  // ---- pages ------------------------------------------------------------------------------------

  const BATCH: nat := 256

  /** The bounds IndexedDB builds a key range from without an error. */
  ghost predicate Constructible(lower: Bound, upper: Bound) {
    lower.At? && upper.At? ==> Less(lower.key, upper.key) || (lower.key == upper.key && !lower.open && !upper.open)
  }

  /** Crossed edges, or one point that either edge leaves out. */
  method IsEmptyRange(lower: Bound, upper: Bound) returns (empty: bool)
    ensures !empty <==> Constructible(lower, upper)
    ensures empty ==> forall k :: !(AboveLower(k, lower) && BelowUpper(k, upper))
  {
    if lower.NoBound? || upper.NoBound? {
      return false;
    }
    var c := CompareBytes(lower.key, upper.key);
    empty := c > 0 || (c == 0 && (lower.open || upper.open));
    forall k | AboveLower(k, lower) && BelowUpper(k, upper)
      ensures Less(lower.key, upper.key) || (lower.key == upper.key && !lower.open && !upper.open)
    {
      Between(k, lower, upper);
    }
  }

  lemma Between(k: Bytes, lower: Bound, upper: Bound)
    requires lower.At? && upper.At? && AboveLower(k, lower) && BelowUpper(k, upper)
    ensures Less(lower.key, upper.key) || (lower.key == upper.key && !lower.open && !upper.open)
  {
    if Less(lower.key, k) && Less(k, upper.key) {
      LessIsTransitive(lower.key, k, upper.key);
    }
  }

  lemma {:induction false} NothingWithin(entries: seq<Entry>, r: Range)
    requires forall k :: !(AboveLower(k, r.lower) && BelowUpper(k, r.upper))
    ensures Within(entries, r) == []
  {
    if entries != [] {
      NothingWithin(entries[1..], r);
    }
  }

  /** One short transaction: the first `want` entries of the range. */
  method ReadBatch(entries: seq<Entry>, r: Range, want: int) returns (batch: seq<Entry>)
    requires Sorted(entries)
    ensures batch == Taken(InOrder(entries, r), Some(want))
  {
    if want <= 0 {
      return [];
    }
    var empty := IsEmptyRange(r.lower, r.upper);
    if empty {
      NothingWithin(entries, r);
      return [];
    }
    batch := IterateSortedMap(entries, r, Some(want));
  }

  /** The range with its near edge moved just past `k`. */
  function Resumed(r: Range, k: Bytes): Range {
    if r.reverse then r.(upper := At(k, true)) else r.(lower := At(k, true))
  }

  lemma OpenEdge(entries: seq<Entry>, at: nat, i: nat)
    requires Sorted(entries) && at < |entries| && i < |entries|
    ensures Less(entries[at].key, entries[i].key) <==> i > at
    ensures Less(entries[i].key, entries[at].key) <==> i < at
  {
    assert Ascends(entries, i, at) && Ascends(entries, at, i);
    if i < at {
      LessIsStrict(entries[i].key, entries[at].key);
    } else if at < i {
      LessIsStrict(entries[at].key, entries[i].key);
    } else if Less(entries[at].key, entries[at].key) {
      LessIsStrict(entries[at].key, entries[at].key);
    }
  }

  /** Resuming past the last key seen leaves exactly the entries not yet seen: none twice, none skipped. */
  lemma ResumeSkipsNothing(entries: seq<Entry>, r: Range, n: nat)
    requires Sorted(entries) && 0 < n <= |InOrder(entries, r)|
    ensures InOrder(entries, Resumed(r, InOrder(entries, r)[n - 1].key)) == InOrder(entries, r)[n..]
  {
    RangeIsSlice(entries, r);
    if r.reverse {
      ResumeDown(entries, r, n);
    } else {
      ResumeUp(entries, r, n);
    }
  }

  lemma ResumeUp(entries: seq<Entry>, r: Range, n: nat)
    requires Sorted(entries) && !r.reverse && 0 < n <= |Within(entries, r)|
    ensures Within(entries, r.(lower := At(Within(entries, r)[n - 1].key, true))) == Within(entries, r)[n..]
  {
    var lo, hi := Low(entries, r.lower), High(entries, r.upper);
    RangeIsSlice(entries, r);
    HighSplits(entries, r.upper);
    var at := lo + n - 1;
    assert Within(entries, r)[n - 1] == entries[at];
    forall i | 0 <= i < |entries| ensures Less(entries[at].key, entries[i].key) <==> i > at {
      OpenEdge(entries, at, i);
    }
    WithinIsSlice(entries, r.(lower := At(entries[at].key, true)), at + 1, hi);
  }

  lemma ResumeDown(entries: seq<Entry>, r: Range, n: nat)
    requires Sorted(entries) && r.reverse && 0 < n <= |Within(entries, r)|
    ensures var seen := Backward(Within(entries, r));
            Backward(Within(entries, r.(upper := At(seen[n - 1].key, true)))) == seen[n..]
  {
    var lo, hi := Low(entries, r.lower), High(entries, r.upper);
    RangeIsSlice(entries, r);
    var at := hi - n;
    ReversedTail(entries, lo, hi, n);
    CutAbove(entries, r, at);
  }

  lemma ReversedTail(entries: seq<Entry>, lo: nat, hi: nat, n: nat)
    requires lo <= hi <= |entries| && 0 < n <= hi - lo
    ensures Backward(entries[lo..hi])[n..] == Backward(entries[lo..hi - n]) &&
            Backward(entries[lo..hi])[n - 1] == entries[hi - n]
  {
  }

  /** An open upper edge at entry `at` cuts the range there. */
  lemma CutAbove(entries: seq<Entry>, r: Range, at: nat)
    requires Sorted(entries) && at < |entries|
    ensures Low(entries, r.lower) <= |entries|
    ensures Within(entries, r.(upper := At(entries[at].key, true))) == Slice(entries, Low(entries, r.lower), at)
  {
    LowSplits(entries, r.lower);
    forall i | 0 <= i < |entries| ensures Less(entries[i].key, entries[at].key) <==> i < at {
      OpenEdge(entries, at, i);
    }
    WithinIsSlice(entries, r.(upper := At(entries[at].key, true)), Low(entries, r.lower), at);
  }

  /** Page after page, each resumed past the last key of the one before, until a short page or the limit. */
  method IteratePaged(entries: seq<Entry>, r: Range, limit: Option<int>) returns (out: seq<Entry>)
    requires Sorted(entries)
    ensures out == Scan(entries, r, limit)
  {
    ghost var all := InOrder(entries, r);
    out := [];
    var remaining := limit;
    var range := r;
    while true
      invariant range.reverse == r.reverse && Paging(entries, all, limit, range, remaining, out)
      decreases |all| - |out|
    {
      if remaining.Some? && remaining.value <= 0 {
        break;
      }
      var want := if remaining.None? || remaining.value > BATCH then BATCH else remaining.value;
      var batch := ReadBatch(entries, range, want);
      PageTaken(entries, all, limit, range, remaining, out, want, batch);
      out := out + batch;
      if remaining.Some? {
        remaining := Some(remaining.value - |batch|);
      }
      if |batch| < want {
        break;
      }
      range := Resumed(range, batch[|batch| - 1].key);
    }
  }

  /** What is out is a beginning of the scan within the limit, and the range now covers the rest. */
  ghost predicate Paging(entries: seq<Entry>, all: seq<Entry>, limit: Option<int>, range: Range,
                         remaining: Option<int>, out: seq<Entry>) {
    && out <= all && InOrder(entries, range) == all[|out|..]
    && (limit.None? <==> remaining.None?) &&
       (limit.Some? ==> remaining.value == limit.value - |out| && (|out| == 0 || |out| <= limit.value))
  }

  lemma PageTaken(entries: seq<Entry>, all: seq<Entry>, limit: Option<int>, range: Range, remaining: Option<int>,
                  out: seq<Entry>,
                  want: int, batch: seq<Entry>)
    requires Sorted(entries) && Paging(entries, all, limit, range, remaining, out) && 0 < want &&
             (remaining.Some? ==> want <= remaining.value)
    requires batch == Taken(InOrder(entries, range), Some(want))
    ensures |batch| < want ==> out + batch == Taken(all, limit)
    ensures |batch| == want ==>
            |out + batch| <= |all| && Paging(entries, all, limit, Resumed(range, batch[|batch| - 1].key),
                                       if remaining.Some? then Some(remaining.value - |batch|) else None, out + batch)
    ensures |batch| <= want
  {
    var rest := all[|out|..];
    assert all == out + rest;
    if |batch| == want {
      ResumeSkipsNothing(entries, range, want);
      assert batch[|batch| - 1] == rest[want - 1];
      assert out + batch <= all && rest[want..] == all[|out| + want..];
    } else {
      assert batch == rest;
    }
  }

  // ---- the native cursor ------------------------------------------------------------------------

  /** A cursor over sorted storage; off either end it is not valid. */
  class NativeIterator {
    const entries: seq<Entry>
    var pos: int

    constructor (sorted: seq<Entry>)
      ensures entries == sorted && pos == -1
    {
      entries, pos := sorted, -1;
    }

    predicate OnEntry()
      reads this
    {
      0 <= pos < |entries|
    }

    /** To the first entry at or after `target`, or off the end. */
    method Seek(target: Bytes)
      requires Sorted(entries)
      modifies this
      ensures pos == Low(entries, At(target, false)) <= |entries|
    {
      LowSplits(entries, At(target, false));
      pos := 0;
      while pos < |entries|
        invariant 0 <= pos <= Low(entries, At(target, false))
        decreases |entries| - pos
      {
        var reached := IsAboveLower(entries[pos].key, At(target, false));
        if reached {
          break;
        }
        pos := pos + 1;
      }
    }

    method SeekToFirst()
      modifies this
      ensures pos == 0
    {
      pos := 0;
    }

    method SeekLast()
      modifies this
      ensures pos == |entries| - 1
    {
      pos := |entries| - 1;
    }

    method Next()
      requires OnEntry()
      modifies this
      ensures pos == old(pos) + 1
    {
      pos := pos + 1;
    }

    method Prev()
      requires OnEntry()
      modifies this
      ensures pos == old(pos) - 1
    {
      pos := pos - 1;
    }
  }

  lemma LowIs(entries: seq<Entry>, lower: Bound, p: nat)
    requires Sorted(entries) && p <= |entries|
    requires forall i :: 0 <= i < |entries| ==> (AboveLower(entries[i].key, lower) <==> i >= p)
    ensures Low(entries, lower) == p
  {
    LowSplits(entries, lower);
    var q := Low(entries, lower);
    assert q < |entries| ==> AboveLower(entries[q].key, lower);
    assert p < |entries| ==> AboveLower(entries[p].key, lower);
  }

  lemma HighIs(entries: seq<Entry>, upper: Bound, p: nat)
    requires Sorted(entries) && p <= |entries|
    requires forall i :: 0 <= i < |entries| ==> (BelowUpper(entries[i].key, upper) <==> i < p)
    ensures High(entries, upper) == p
  {
    HighSplits(entries, upper);
    var q := High(entries, upper);
    assert q < |entries| ==> !BelowUpper(entries[q].key, upper);
    assert p < |entries| ==> !BelowUpper(entries[p].key, upper);
  }

  /** What a seek to `k` says of the other edges at `k`. */
  lemma SeekPoint(entries: seq<Entry>, k: Bytes)
    requires Sorted(entries)
    ensures var p := Low(entries, At(k, false));
            && p <= |entries| && (p < |entries| ==> !Less(entries[p].key, k))
            && High(entries, At(k, true)) == p
            && High(entries, At(k, false)) == (if p < |entries| && entries[p].key == k then p + 1 else p)
            && Low(entries, At(k, true)) == (if p < |entries| && entries[p].key == k then p + 1 else p)
  {
    var p := Low(entries, At(k, false));
    LowSplits(entries, At(k, false));
    var q := if p < |entries| && entries[p].key == k then p + 1 else p;
    forall i | 0 <= i < |entries|
      ensures Less(entries[i].key, k) <==> i < p
      ensures Less(k, entries[i].key) <==> i >= q
      ensures entries[i].key == k <==> p <= i < q
    {
      Around(entries, k, p, q, i);
    }
    HighIs(entries, At(k, true), p);
    HighIs(entries, At(k, false), q);
    LowIs(entries, At(k, true), q);
  }

  lemma Around(entries: seq<Entry>, k: Bytes, p: nat, q: nat, i: nat)
    requires Sorted(entries) && i < |entries| && p <= |entries| && q == if p < |entries| &&
             entries[p].key == k then p + 1 else p
    requires forall j :: 0 <= j < |entries| ==> (AboveLower(entries[j].key, At(k, false)) <==> j >= p)
    ensures Less(entries[i].key, k) <==> i < p
    ensures Less(k, entries[i].key) <==> i >= q
    ensures entries[i].key == k <==> p <= i < q
  {
    var x := entries[i].key;
    LessIsTotal(x, k);
    if Less(x, k) {
      LessIsStrict(x, k);
    }
    if Less(k, x) {
      LessIsStrict(k, x);
    }
    assert AboveLower(x, At(k, false)) <==> i >= p;
    assert Ascends(entries, p, i);
    if p < i {
      assert AboveLower(entries[p].key, At(k, false));
      if x == k {
        LessIsStrict(entries[p].key, x);
      }
    }
  }

  /** Puts the cursor on the scan's first entry, or off the end when there is none. */
  method PositionCursor(it: NativeIterator, r: Range)
    requires Sorted(it.entries)
    modifies it
    ensures it.pos == if r.reverse then |it.entries| - 1 - Start(it.entries, r) else Start(it.entries, r)
  {
    var near := if r.reverse then r.upper else r.lower;
    if near.At? {
      SeekPoint(it.entries, near.key);
      it.Seek(near.key);
      if r.reverse {
        if !it.OnEntry() {
          it.SeekLast();
        } else {
          var c := CompareBytes(it.entries[it.pos].key, near.key);
          if near.open || c > 0 {
            it.Prev();
          }
        }
      } else if near.open && it.OnEntry() {
        var c := CompareBytes(it.entries[it.pos].key, near.key);
        if c == 0 {
          it.Next();
        }
      }
    } else {
      Unbounded(it.entries);
      if r.reverse {
        it.SeekLast();
      } else {
        it.SeekToFirst();
      }
    }
  }

  lemma Unbounded(entries: seq<Entry>)
    requires Sorted(entries)
    ensures Low(entries, NoBound) == 0 && High(entries, NoBound) == |entries|
  {
    HighIs(entries, NoBound, |entries|);
  }

  method WalkEntries(it: NativeIterator, r: Range, limit: Option<int>) returns (out: seq<Entry>)
    requires Sorted(it.entries)
    modifies it
    ensures out == Scan(it.entries, r, limit)
  {
    ScanIsRun(it.entries, r);
    PositionCursor(it, r);
    out := WalkRun(it, r, limit);
  }

  /** The cursor's place counted in the scan's direction. */
  ghost function Place(size: nat, pos: int, reverse: bool): int {
    if reverse then size - 1 - pos else pos
  }

  /** One loop over the cursor: the limit, then the far edge, then the entry. */
  method WalkRun(it: NativeIterator, r: Range, limit: Option<int>) returns (out: seq<Entry>)
    requires Sorted(it.entries) && |Directed(it.entries, r.reverse)| == |it.entries|
    requires 0 <= Start(it.entries, r) <= |it.entries| && 0 <= End(it.entries, r) <= |it.entries|
    requires Place(|it.entries|, it.pos, r.reverse) == Start(it.entries, r)
    modifies it
    ensures out == Taken(Slice(Directed(it.entries, r.reverse), Start(it.entries, r), End(it.entries, r)), limit)
  {
    ghost var entries := it.entries;
    ghost var directed, start, end := Directed(entries, r.reverse), Start(entries, r), End(entries, r);
    out := [];
    ghost var d := start;
    while it.OnEntry()
      invariant d == Place(|entries|, it.pos, r.reverse) && start <= d && Gathered(directed, start, end, d, limit, out)
      decreases |entries| - d
    {
      if limit.Some? && |out| >= limit.value {
        break;
      }
      assert directed[d] == entries[it.pos];
      var running := IsRunning(it.entries[it.pos].key, r, entries, d);
      if !running {
        break;
      }
      GatherOne(directed, start, end, d, limit, out);
      out := out + [it.entries[it.pos]];
      if r.reverse {
        it.Prev();
      } else {
        it.Next();
      }
      d := d + 1;
    }
    GatheredAll(directed, start, end, d, limit, out);
  }

  // ---- clearing in chunks -----------------------------------------------------------------------

  const CLEAR_CHUNK_SIZE: nat := 512

  function AfterKey(cursor: Option<Bytes>): Range {
    Range(if cursor.None? then NoBound else At(cursor.value, true), NoBound, false)
  }

  function WithoutKeys(entries: seq<Entry>, gone: set<Bytes>): seq<Entry> {
    if entries == [] then []
    else if entries[0].key in gone then WithoutKeys(entries[1..], gone)
    else [entries[0]] + WithoutKeys(entries[1..], gone)
  }

  function KeysOf(entries: seq<Entry>): set<Bytes> {
    set e | e in entries :: e.key
  }

  lemma {:induction false} WithoutJoins(a: seq<Entry>, b: seq<Entry>, gone: set<Bytes>)
    ensures WithoutKeys(a + b, gone) == WithoutKeys(a, gone) + WithoutKeys(b, gone)
  {
    if a == [] {
      assert a + b == b;
    } else {
      assert (a + b)[1..] == a[1..] + b;
      WithoutJoins(a[1..], b, gone);
    }
  }

  lemma {:induction false} WithoutNone(a: seq<Entry>, gone: set<Bytes>)
    requires forall i :: 0 <= i < |a| ==> a[i].key !in gone
    ensures WithoutKeys(a, gone) == a
  {
    if a != [] {
      WithoutNone(a[1..], gone);
    }
  }

  lemma {:induction false} WithoutAll(a: seq<Entry>, gone: set<Bytes>)
    requires forall i :: 0 <= i < |a| ==> a[i].key in gone
    ensures WithoutKeys(a, gone) == []
  {
    if a != [] {
      WithoutAll(a[1..], gone);
    }
  }

  lemma MiddleRemoved(a: seq<Entry>, b: seq<Entry>, c: seq<Entry>, gone: set<Bytes>)
    requires forall i :: 0 <= i < |a| ==> a[i].key !in gone
    requires forall i :: 0 <= i < |b| ==> b[i].key in gone
    requires forall i :: 0 <= i < |c| ==> c[i].key !in gone
    ensures WithoutKeys(a + (b + c), gone) == a + c
  {
    assert WithoutKeys(b + c, gone) == c by {
      WithoutJoins(b, c, gone);
      WithoutAll(b, gone);
      WithoutNone(c, gone);
    }
    assert WithoutKeys(a, gone) == a by {
      WithoutNone(a, gone);
    }
    WithoutJoins(a, b + c, gone);
  }

  lemma SplitInThree(entries: seq<Entry>, lo: nat, hi: nat)
    requires lo <= hi <= |entries|
    ensures entries[..lo] + (entries[lo..hi] + entries[hi..]) == entries
  {
  }

  /** Deleting a slice's keys cuts the slice out. */
  lemma SliceRemoved(entries: seq<Entry>, lo: nat, hi: nat)
    requires Sorted(entries) && lo <= hi <= |entries|
    ensures WithoutKeys(entries, KeysOf(entries[lo..hi])) == Cut(entries, lo, hi)
  {
    OutsideSlice(entries, lo, hi);
    MiddleRemoved(entries[..lo], entries[lo..hi], entries[hi..], KeysOf(entries[lo..hi]));
    SplitInThree(entries, lo, hi);
  }

  lemma OutsideSlice(entries: seq<Entry>, lo: nat, hi: nat)
    requires Sorted(entries) && lo <= hi <= |entries|
    ensures forall i :: 0 <= i < lo ==> entries[..lo][i].key !in KeysOf(entries[lo..hi])
    ensures forall i :: 0 <= i < |entries| - hi ==> entries[hi..][i].key !in KeysOf(entries[lo..hi])
  {
    forall i | 0 <= i < lo ensures entries[..lo][i].key !in KeysOf(entries[lo..hi]) {
      ChunkKeys(entries, lo, hi, i);
    }
    forall i | 0 <= i < |entries| - hi ensures entries[hi..][i].key !in KeysOf(entries[lo..hi]) {
      ChunkKeys(entries, lo, hi, i + hi);
      assert entries[hi..][i] == entries[i + hi];
    }
  }

  /** Deleting the next chunk leaves what lay before the cursor and what lies after the chunk. */
  lemma ChunkRemoved(entries: seq<Entry>, cursor: Option<Bytes>, chunk: seq<Entry>)
    requires Sorted(entries) && chunk != [] && chunk <= Within(entries, AfterKey(cursor))
    ensures var left, ahead := WithoutKeys(entries, KeysOf(chunk)), Within(entries, AfterKey(cursor));
            && Sorted(left) && |ahead| <= |entries|
            && Within(left, AfterKey(Some(chunk[|chunk| - 1].key))) == ahead[|chunk|..]
            && left == entries[..|entries| - |ahead|] + ahead[|chunk|..]
  {
    AheadIsTail(entries, cursor);
    var lo := Low(entries, AfterKey(cursor).lower);
    var hi := lo + |chunk|;
    PrefixOfTail(entries, lo, chunk);
    var left, last := Cut(entries, lo, hi), entries[hi - 1].key;
    assert WithoutKeys(entries, KeysOf(chunk)) == left by {
      SliceRemoved(entries, lo, hi);
    }
    assert Sorted(left) && Within(left, AfterKey(Some(last))) == entries[hi..] by {
      RestAfter(entries, lo, hi);
    }
  }

  ghost function Cut(entries: seq<Entry>, lo: nat, hi: nat): seq<Entry>
    requires lo <= hi <= |entries|
  {
    entries[..lo] + entries[hi..]
  }

  lemma AheadIsTail(entries: seq<Entry>, cursor: Option<Bytes>)
    requires Sorted(entries)
    ensures Low(entries, AfterKey(cursor).lower) <= |entries|
    ensures Within(entries, AfterKey(cursor)) == entries[Low(entries, AfterKey(cursor).lower)..]
  {
    RangeIsSlice(entries, AfterKey(cursor));
    Unbounded(entries);
  }

  lemma PrefixOfTail(entries: seq<Entry>, lo: nat, chunk: seq<Entry>)
    requires lo <= |entries| && chunk != [] && chunk <= entries[lo..]
    ensures lo + |chunk| <= |entries| && chunk == entries[lo..lo + |chunk|] &&
            chunk[|chunk| - 1] == entries[lo + |chunk| - 1]
    ensures entries[lo..][|chunk|..] == entries[lo + |chunk|..]
  {
  }

  lemma ChunkKeys(entries: seq<Entry>, lo: nat, hi: nat, i: nat)
    requires Sorted(entries) && lo <= hi <= |entries| && i < |entries|
    ensures entries[i].key in KeysOf(entries[lo..hi]) <==> lo <= i < hi
  {
    if lo <= i < hi {
      assert entries[lo..hi][i - lo] == entries[i];
    }
    forall j | lo <= j < hi ensures entries[j].key == entries[i].key ==> j == i {
      assert Ascends(entries, i, j) && Ascends(entries, j, i);
      if j != i {
        LessIsStrict(entries[if i < j then i else j].key, entries[if i < j then j else i].key);
      }
    }
    assert forall e :: e in entries[lo..hi] ==> exists j :: lo <= j < hi && entries[j] == e;
  }

  ghost function CutFrom(lo: nat, hi: nat, i: int): int
    requires lo <= hi
  {
    if i < lo then i else i + hi - lo
  }

  lemma CutSorted(entries: seq<Entry>, lo: nat, hi: nat)
    requires Sorted(entries) && lo < hi <= |entries|
    ensures Sorted(Cut(entries, lo, hi))
  {
    forall i, j ensures Ascends(Cut(entries, lo, hi), i, j) {
      assert Ascends(entries, CutFrom(lo, hi, i), CutFrom(lo, hi, j));
    }
  }

  lemma CutEdge(entries: seq<Entry>, lo: nat, hi: nat, i: nat)
    requires Sorted(entries) && lo < hi <= |entries| && i < |Cut(entries, lo, hi)|
    ensures Less(entries[hi - 1].key, Cut(entries, lo, hi)[i].key) <==> i >= lo
  {
    assert Cut(entries, lo, hi)[i] == entries[CutFrom(lo, hi, i)];
    OpenEdge(entries, hi - 1, CutFrom(lo, hi, i));
  }

  lemma RestAfter(entries: seq<Entry>, lo: nat, hi: nat)
    requires Sorted(entries) && lo < hi <= |entries|
    ensures Sorted(Cut(entries, lo, hi)) &&
            Within(Cut(entries, lo, hi), AfterKey(Some(entries[hi - 1].key))) == entries[hi..]
  {
    CutSorted(entries, lo, hi);
    var left, r := Cut(entries, lo, hi), AfterKey(Some(entries[hi - 1].key));
    forall i | 0 <= i < |left| ensures AboveLower(left[i].key, r.lower) <==> i >= lo {
      CutEdge(entries, lo, hi, i);
    }
    WithinIsSlice(left, r, lo, |left|);
  }

  class LevelStore {
    var entries: seq<Entry>

    /** At most one chunk of entries past `after`. */
    method ReadKeyChunk(after: Option<Bytes>) returns (chunk: seq<Entry>)
      requires Sorted(entries)
      ensures chunk == Scan(entries, AfterKey(after), Some(CLEAR_CHUNK_SIZE))
    {
      var it := new NativeIterator(entries);
      chunk := WalkEntries(it, AfterKey(after), Some(CLEAR_CHUNK_SIZE));
    }

    /** Reads a chunk, deletes it, resumes strictly past it. Ends even if a delete does not land; when all do, the
        store is empty. */
    method Clear(lands: nat -> bool)
      requires Sorted(entries)
      modifies this
      ensures Sorted(entries)
      ensures (forall i :: lands(i)) ==> entries == []
    {
      var cursor := None;
      var pass := 0;
      WholeRange(entries);
      while true
        invariant Sorted(entries) && ((forall i :: lands(i)) ==> Within(entries, AfterKey(cursor)) == entries)
        decreases |Within(entries, AfterKey(cursor))|
      {
        var chunk := ReadKeyChunk(cursor);
        if chunk == [] {
          break;
        }
        ghost var ahead := Within(entries, AfterKey(cursor));
        ChunkRemoved(entries, cursor, chunk);
        ResumeSkipsNothing(entries, AfterKey(cursor), |chunk|);
        cursor := Some(chunk[|chunk| - 1].key);
        if lands(pass) {
          entries := WithoutKeys(entries, KeysOf(chunk));
        }
        pass := pass + 1;
        if |chunk| < CLEAR_CHUNK_SIZE {
          break;
        }
      }
    }
  }

  lemma WholeRange(entries: seq<Entry>)
    requires Sorted(entries)
    ensures Within(entries, AfterKey(None)) == entries
  {
    RangeIsSlice(entries, AfterKey(None));
    Unbounded(entries);
  }

  /** All three ways of scanning give the same entries for every range, direction and limit. */
  method ThreeScansAgree(entries: seq<Entry>, r: Range, limit: Option<int>)
                         returns (a: seq<Entry>, b: seq<Entry>, c: seq<Entry>)
    requires Sorted(entries)
    ensures a == b == c
  {
    a := IterateSortedMap(entries, r, limit);
    b := IteratePaged(entries, r, limit);
    var it := new NativeIterator(entries);
    c := WalkEntries(it, r, limit);
  }
}
