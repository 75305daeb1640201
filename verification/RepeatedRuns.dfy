/** Maximal equal runs of 16-byte blocks shared by different payloads, found through a block index. */
module RepeatedRuns {
  import opened Bytes

  const BLOCK_SIZE: nat := 16
  const HEADER_SIZE: nat := 4

  type Block = seq<byte>
  type Blocks = seq<seq<Block>>

  /** A block position: descriptor and index. */
  datatype Location = Location(descriptor: nat, position: nat)

  /** The first blocks of a candidate run, in two payloads. */
  datatype Start = Start(left: nat, right: nat, leftBlock: nat, rightBlock: nat)

  datatype Run = Run(start: Start, count: nat)

  function SplitFrom(p: seq<byte>, i: nat): seq<Block>
    decreases |p| - i
  {
    if i >= |p| then []
    else [if i + BLOCK_SIZE <= |p| then p[i..i + BLOCK_SIZE] else p[i..]] + SplitFrom(p, i + BLOCK_SIZE)
  }

  function Split(payloads: seq<seq<byte>>): (r: Blocks)
    ensures |r| == |payloads|
  {
    seq(|payloads|, k requires 0 <= k < |payloads| => SplitFrom(payloads[k], HEADER_SIZE))
  }

  // ---------------------------------------------------------------- what is to be found

  predicate InBlocks(bs: Blocks, q: Start) {
    q.left < q.right < |bs| && q.leftBlock < |bs[q.left]| && q.rightBlock < |bs[q.right]|
  }

  predicate SameBlock(bs: Blocks, q: Start, k: nat) {
    && q.left < |bs| && q.right < |bs|
    && q.leftBlock + k < |bs[q.left]| && q.rightBlock + k < |bs[q.right]|
    && bs[q.left][q.leftBlock + k] == bs[q.right][q.rightBlock + k]
  }

  /** n blocks from the start on are equal. */
  predicate EqualRange(bs: Blocks, q: Start, n: nat) {
    && q.left < q.right < |bs|
    && q.leftBlock + n <= |bs[q.left]| && q.rightBlock + n <= |bs[q.right]|
    && forall k: nat :: k < n ==> SameBlock(bs, q, k)
  }

  predicate ExtendsLeft(bs: Blocks, q: Start)
    requires InBlocks(bs, q)
  {
    && q.leftBlock > 0 && q.rightBlock > 0
    && bs[q.left][q.leftBlock - 1] == bs[q.right][q.rightBlock - 1]
  }

  /** A run that can be extended to neither side. */
  predicate MaximalRun(bs: Blocks, r: Run) {
    && r.count >= 1 && EqualRange(bs, r.start, r.count) && !EqualRange(bs, r.start, r.count + 1)
    && !ExtendsLeft(bs, r.start)
  }

  predicate IsStart(bs: Blocks, q: Start) {
    InBlocks(bs, q) && EqualRange(bs, q, 1) && !ExtendsLeft(bs, q)
  }

  predicate StartLess(p: Start, q: Start) {
    || p.left < q.left
    || (p.left == q.left && p.right < q.right)
    || (p.left == q.left && p.right == q.right && p.leftBlock < q.leftBlock)
    || (p.left == q.left && p.right == q.right && p.leftBlock == q.leftBlock && p.rightBlock < q.rightBlock)
  }

  // ---------------------------------------------------------------- the index

  predicate LocationLess(a: Location, b: Location) {
    a.descriptor < b.descriptor || (a.descriptor == b.descriptor && a.position < b.position)
  }

  predicate ValidLocation(bs: Blocks, x: Location) {
    x.descriptor < |bs| && x.position < |bs[x.descriptor]|
  }

  function BlockAt(bs: Blocks, x: Location): Block
    requires ValidLocation(bs, x)
  {
    bs[x.descriptor][x.position]
  }

  /** Locations of one block value, in order. */
  predicate Listing(bs: Blocks, v: Block, xs: seq<Location>) {
    && (forall k :: 0 <= k < |xs| ==> ValidLocation(bs, xs[k]) && BlockAt(bs, xs[k]) == v)
    && (forall k, m :: 0 <= k < m < |xs| ==> LocationLess(xs[k], xs[m]))
  }

  /** Every location before `next` is listed under its block. */
  ghost predicate Indexed(bs: Blocks, index: map<Block, seq<Location>>, next: Location) {
    && (forall v :: v in index ==> Listing(bs, v, index[v]))
    && (forall v :: v in index ==> forall k :: 0 <= k < |index[v]| ==> LocationLess(index[v][k], next))
    && (forall x :: ValidLocation(bs, x) && LocationLess(x, next) ==>
          BlockAt(bs, x) in index && x in index[BlockAt(bs, x)])
  }

  lemma IndexOneMore(bs: Blocks, index: map<Block, seq<Location>>, x: Location, index': map<Block, seq<Location>>)
    requires Indexed(bs, index, x) && ValidLocation(bs, x)
    requires var v := BlockAt(bs, x); index' == index[v := (if v in index then index[v] else []) + [x]]
    ensures Indexed(bs, index', Location(x.descriptor, x.position + 1))
  {
    var v := BlockAt(bs, x);
    var next := Location(x.descriptor, x.position + 1);
    assert Listing(bs, v, index'[v]);
    forall y | ValidLocation(bs, y) && LocationLess(y, next)
      ensures BlockAt(bs, y) in index' && y in index'[BlockAt(bs, y)]
    {
      if y == x {
        assert index'[v][|index'[v]| - 1] == x;
      } else {
        assert LocationLess(y, x);
        assert y in index[BlockAt(bs, y)];
      }
    }
  }

  method BuildIndex(bs: Blocks) returns (index: map<Block, seq<Location>>)
    ensures Indexed(bs, index, Location(|bs|, 0))
  {
    index := map[];
    for descriptor := 0 to |bs|
      invariant Indexed(bs, index, Location(descriptor, 0))
    {
      for position := 0 to |bs[descriptor]|
        invariant Indexed(bs, index, Location(descriptor, position))
      {
        var value := bs[descriptor][position];
        ghost var before := index;
        index := index[value := (if value in index then index[value] else []) + [Location(descriptor, position)]];
        IndexOneMore(bs, before, Location(descriptor, position), index);
      }
      NextDescriptor(bs, index, descriptor);
    }
  }

  lemma NextDescriptor(bs: Blocks, index: map<Block, seq<Location>>, d: nat)
    requires d < |bs| && Indexed(bs, index, Location(d, |bs[d]|))
    ensures Indexed(bs, index, Location(d + 1, 0))
  {
    forall x | ValidLocation(bs, x) && LocationLess(x, Location(d + 1, 0))
      ensures BlockAt(bs, x) in index && x in index[BlockAt(bs, x)]
    {
      assert LocationLess(x, Location(d, |bs[d]|));
    }
  }

  // ---------------------------------------------------------------- the starts

  function StartAt(l: Location, r: Location): Start {
    Start(l.descriptor, r.descriptor, l.position, r.position)
  }

  /** The pairs of one value's locations that begin a run. */
  method StartsOf(bs: Blocks, v: Block, xs: seq<Location>) returns (starts: set<Start>)
    requires Listing(bs, v, xs)
    ensures forall q :: q in starts ==> IsStart(bs, q)
    ensures forall l, r :: 0 <= l < r < |xs| && IsStart(bs, StartAt(xs[l], xs[r])) ==> StartAt(xs[l], xs[r]) in starts
  {
    starts := {};
    for left := 0 to |xs|
      invariant forall q :: q in starts ==> IsStart(bs, q)
      invariant forall l, r :: 0 <= l < left && l < r < |xs| && IsStart(bs, StartAt(xs[l], xs[r])) ==>
                  StartAt(xs[l], xs[r]) in starts
    {
      for right := left + 1 to |xs|
        invariant forall q :: q in starts ==> IsStart(bs, q)
        invariant forall l, r :: 0 <= l < left && l < r < |xs| && IsStart(bs, StartAt(xs[l], xs[r])) ==>
                    StartAt(xs[l], xs[r]) in starts
        invariant forall r :: left < r < right && IsStart(bs, StartAt(xs[left], xs[r])) ==>
                    StartAt(xs[left], xs[r]) in starts
      {
        var l, r := xs[left], xs[right];
        if l.descriptor == r.descriptor {
          continue;
        }
        if l.position > 0 && r.position > 0
           && bs[l.descriptor][l.position - 1] == bs[r.descriptor][r.position - 1] {
          continue;
        }
        starts := starts + {StartAt(l, r)};
      }
    }
  }

  method FindStarts(bs: Blocks, index: map<Block, seq<Location>>) returns (starts: set<Start>)
    requires Indexed(bs, index, Location(|bs|, 0))
    ensures forall q :: q in starts <==> IsStart(bs, q)
  {
    starts := {};
    var values := index.Keys;
    forall q | IsStart(bs, q)
      ensures bs[q.left][q.leftBlock] in values
    {
      PairListed(bs, index, q);
    }
    while values != {}
      invariant values <= index.Keys
      invariant forall q :: q in starts ==> IsStart(bs, q)
      invariant forall q :: IsStart(bs, q) && bs[q.left][q.leftBlock] !in values ==> q in starts
      decreases values
    {
      var v :| v in values;
      var some := StartsOf(bs, v, index[v]);
      forall q | IsStart(bs, q) && bs[q.left][q.leftBlock] == v
        ensures q in some
      {
        PairListed(bs, index, q);
      }
      starts := starts + some;
      values := values - {v};
    }
    forall q | IsStart(bs, q)
      ensures q in starts
    {
    }
  }

  lemma PairListed(bs: Blocks, index: map<Block, seq<Location>>, q: Start)
    requires Indexed(bs, index, Location(|bs|, 0)) && IsStart(bs, q)
    ensures var v := bs[q.left][q.leftBlock];
      v in index && exists l, r :: 0 <= l < r < |index[v]| && StartAt(index[v][l], index[v][r]) == q
  {
    var x, y := Location(q.left, q.leftBlock), Location(q.right, q.rightBlock);
    var v := BlockAt(bs, x);
    assert SameBlock(bs, q, 0);
    assert BlockAt(bs, y) == v;
    var l :| 0 <= l < |index[v]| && index[v][l] == x;
    var r :| 0 <= r < |index[v]| && index[v][r] == y;
    assert StartAt(index[v][l], index[v][r]) == q;
    assert LocationLess(x, y) && (r < l ==> LocationLess(y, x));
  }

  // ---------------------------------------------------------------- sorting the starts

  predicate Ascending(s: seq<Start>) {
    forall i, j :: 0 <= i < j < |s| ==> StartLess(s[i], s[j])
  }

  function Insert(s: seq<Start>, q: Start): (r: seq<Start>)
    requires Ascending(s) && q !in s
    ensures Ascending(r) && forall x :: x in r <==> x == q || x in s
  {
    if s == [] || StartLess(q, s[0]) then
      assert forall i :: 0 <= i < |s| ==> StartLess(q, s[i]);
      [q] + s
    else
      var rest := Insert(s[1..], q);
      assert forall x :: x in rest ==> StartLess(s[0], x);
      assert s == [s[0]] + s[1..];
      [s[0]] + rest
  }

  method Sorted(starts: set<Start>) returns (s: seq<Start>)
    ensures Ascending(s) && forall q :: q in s <==> q in starts
  {
    s := [];
    var rest := starts;
    while rest != {}
      invariant rest <= starts && Ascending(s)
      invariant forall q :: q in s <==> q in starts && q !in rest
      decreases rest
    {
      var q :| q in rest;
      s := Insert(s, q);
      rest := rest - {q};
    }
  }

  // ---------------------------------------------------------------- the runs

  lemma RangePrefix(bs: Blocks, q: Start, n: nat, m: nat)
    ensures EqualRange(bs, q, n) && m <= n ==> EqualRange(bs, q, m)
  {
  }

  /** From one start there is one maximal run. */
  lemma CountIsUnique(bs: Blocks, a: Run, b: Run)
    requires MaximalRun(bs, a) && MaximalRun(bs, b) && a.start == b.start
    ensures a == b
  {
    RangePrefix(bs, a.start, a.count, b.count + 1);
    RangePrefix(bs, b.start, b.count, a.count + 1);
  }

  lemma MaximalRunStarts(bs: Blocks, r: Run)
    requires MaximalRun(bs, r)
    ensures IsStart(bs, r.start)
  {
    RangePrefix(bs, r.start, r.count, 1);
  }

  method CountEqual(bs: Blocks, q: Start) returns (count: nat)
    requires IsStart(bs, q)
    ensures MaximalRun(bs, Run(q, count))
  {
    count := 0;
    while q.leftBlock + count < |bs[q.left]| && q.rightBlock + count < |bs[q.right]|
          && bs[q.left][q.leftBlock + count] == bs[q.right][q.rightBlock + count]
      invariant EqualRange(bs, q, count)
      decreases |bs[q.left]| - count
    {
      count := count + 1;
    }
    assert SameBlock(bs, q, 0) && !SameBlock(bs, q, count);
  }

  predicate Reported(bs: Blocks, minimum: int, r: Run) {
    MaximalRun(bs, r) && r.count >= minimum
  }

  predicate Ordered(runs: seq<Run>) {
    forall i, j :: 0 <= i < j < |runs| ==> StartLess(runs[i].start, runs[j].start)
  }

  /** `maximal_repeated_runs`: exactly the maximal runs of at least the minimum length, each once, sorted. */
  method MaximalRepeatedRuns(payloads: seq<seq<byte>>, minimum: int) returns (runs: seq<Run>)
    ensures Ordered(runs)
    ensures forall r :: r in runs <==> Reported(Split(payloads), minimum, r)
    ensures forall r :: r in runs <==> ByteRun(payloads, r) && r.count >= minimum
  {
    var bs := Split(payloads);
    var index := BuildIndex(bs);
    var starts := FindStarts(bs, index);
    var sorted := Sorted(starts);
    runs := [];
    for k := 0 to |sorted|
      invariant Ordered(runs)
      invariant forall r :: r in runs ==> Reported(bs, minimum, r) && r.start in sorted[..k]
      invariant forall r :: Reported(bs, minimum, r) && r.start in sorted[..k] ==> r in runs
    {
      var q := sorted[k];
      var count := CountEqual(bs, q);
      forall r | Reported(bs, minimum, r) && r.start == q
        ensures r == Run(q, count)
      {
        CountIsUnique(bs, r, Run(q, count));
      }
      assert sorted[..k + 1] == sorted[..k] + [q];
      if count < minimum {
        continue;
      }
      assert forall r :: r in runs ==> StartLess(r.start, q);
      runs := runs + [Run(q, count)];
    }
    assert sorted[..|sorted|] == sorted;
    forall r | Reported(bs, minimum, r)
      ensures r in runs
    {
      MaximalRunStarts(bs, r);
    }
    forall r
      ensures Reported(bs, minimum, r) <==> ByteRun(payloads, r) && r.count >= minimum
    {
      RunsInBytes(payloads, minimum, r);
    }
    hide Reported, ByteRun;
  }

  // ---------------------------------------------------------------- every equal range is in one run

  predicate SameDiagonal(p: Start, q: Start) {
    p.left == q.left && p.right == q.right
    && p.leftBlock - p.rightBlock == q.leftBlock - q.rightBlock
  }

  predicate Covers(r: Run, q: Start, n: nat) {
    SameDiagonal(r.start, q) && r.start.leftBlock <= q.leftBlock
    && q.leftBlock + n <= r.start.leftBlock + r.count
  }

  lemma {:induction false} ExtendRight(bs: Blocks, q: Start, n: nat) returns (m: nat)
    requires EqualRange(bs, q, n)
    ensures m >= n && EqualRange(bs, q, m) && !EqualRange(bs, q, m + 1)
    decreases if q.left < |bs| then |bs[q.left]| - n else 0
  {
    if EqualRange(bs, q, n + 1) {
      m := ExtendRight(bs, q, n + 1);
    } else {
      m := n;
    }
  }

  lemma {:induction false} ExtendBoth(bs: Blocks, q: Start, n: nat) returns (r: Run)
    requires n >= 1 && EqualRange(bs, q, n)
    ensures MaximalRun(bs, r) && Covers(r, q, n)
    decreases q.leftBlock
  {
    if ExtendsLeft(bs, q) {
      var p := Start(q.left, q.right, q.leftBlock - 1, q.rightBlock - 1);
      forall k: nat | k < n + 1
        ensures SameBlock(bs, p, k)
      {
        assert k > 0 ==> SameBlock(bs, q, k - 1);
      }
      r := ExtendBoth(bs, p, n + 1);
    } else {
      var m := ExtendRight(bs, q, n);
      r := Run(q, m);
    }
  }

  /** A position inside a run, but not its first, extends to the left. */
  lemma InsideExtends(bs: Blocks, a: Run, p: Start)
    requires InBlocks(bs, p) && SameDiagonal(a.start, p) && EqualRange(bs, a.start, a.count)
    ensures a.start.leftBlock < p.leftBlock <= a.start.leftBlock + a.count ==> ExtendsLeft(bs, p)
  {
    var k := p.leftBlock - 1 - a.start.leftBlock;
    if 0 <= k < a.count {
      assert SameBlock(bs, a.start, k);
    }
  }

  lemma NoLaterStart(bs: Blocks, a: Run, b: Run, q: Start)
    requires MaximalRun(bs, a) && MaximalRun(bs, b) && Covers(a, q, 1) && Covers(b, q, 1)
    ensures a.start.leftBlock >= b.start.leftBlock
  {
    RangePrefix(bs, b.start, b.count, 1);
    InsideExtends(bs, a, b.start);
  }

  /** Every equal range of at least the minimum length lies inside exactly one reported run of its diagonal. */
  lemma CoveredByOneRun(bs: Blocks, minimum: int, q: Start, n: nat)
    requires n >= 1 && n >= minimum && EqualRange(bs, q, n)
    ensures exists r :: Reported(bs, minimum, r) && Covers(r, q, n)
    ensures forall a, b :: Reported(bs, minimum, a) && Reported(bs, minimum, b) && Covers(a, q, n) && Covers(b, q, n)
              ==> a == b
  {
    var r := ExtendBoth(bs, q, n);
    assert Reported(bs, minimum, r) && Covers(r, q, n);
    forall a, b | Reported(bs, minimum, a) && Reported(bs, minimum, b) && Covers(a, q, n) && Covers(b, q, n)
      ensures a == b
    {
      NoLaterStart(bs, a, b, q);
      NoLaterStart(bs, b, a, q);
      CountIsUnique(bs, a, b);
    }
  }

  // ---------------------------------------------------------------- in bytes

  /** The end of the i-th 16-byte stretch of a payload's body, which begins behind four bytes of header. */
  function StretchEnd(p: seq<byte>, i: nat): nat {
    if 4 + 16 * i + 16 <= |p| then 4 + 16 * i + 16 else |p|
  }

  lemma OneBlockMore(n: nat)
    ensures (n + 16 + 15) / 16 == (n + 15) / 16 + 1
  {
  }

  lemma {:induction false} BlockCount(p: seq<byte>, o: nat)
    ensures |SplitFrom(p, o)| == if o >= |p| then 0 else (|p| - o + 15) / 16
    decreases |p| - o
  {
    if o >= |p| {
    } else {
      BlockCount(p, o + 16);
      if o + 16 < |p| {
        OneBlockMore(|p| - o - 16);
      }
    }
  }

  lemma {:induction false} BlockFrom(p: seq<byte>, o: nat, i: nat)
    requires i < |SplitFrom(p, o)|
    ensures o + 16 * i < |p|
    ensures SplitFrom(p, o)[i] == p[o + 16 * i..if o + 16 * i + 16 <= |p| then o + 16 * i + 16 else |p|]
    decreases i
  {
    if i == 0 {
    } else {
      BlockFrom(p, o + 16, i - 1);
      assert o + 16 + 16 * (i - 1) == o + 16 * i;
    }
  }

  lemma CountBound(n: nat, i: nat)
    ensures n >= 4 ==> (i < (n - 4 + 15) / 16 <==> 4 + 16 * i < n)
  {
  }

  /** The blocks of a payload are the stretches of its body, the last one perhaps shorter. */
  lemma BlocksAreStretches(payloads: seq<seq<byte>>, d: nat, i: nat)
    requires d < |payloads|
    ensures |Split(payloads)[d]| == if |payloads[d]| < 4 then 0 else (|payloads[d]| - 4 + 15) / 16
    ensures i < |Split(payloads)[d]| <==> 4 + 16 * i < |payloads[d]|
    ensures i < |Split(payloads)[d]| ==> Split(payloads)[d][i] == payloads[d][4 + 16 * i..StretchEnd(payloads[d], i)]
  {
    BlockCount(payloads[d], 4);
    CountBound(|payloads[d]|, i);
    if i < |Split(payloads)[d]| {
      BlockFrom(payloads[d], 4, i);
    }
    hide SplitFrom;
  }

  /** The two payloads have the same bytes in the k-th stretch from the start, before it where k is negative. */
  predicate SameStretch(payloads: seq<seq<byte>>, q: Start, k: int)
    requires q.left < |payloads| && q.right < |payloads|
  {
    var p, r, i, j := payloads[q.left], payloads[q.right], q.leftBlock + k, q.rightBlock + k;
    && 0 <= i && 0 <= j && 4 + 16 * i < |p| && 4 + 16 * j < |r|
    && p[4 + 16 * i..StretchEnd(p, i)] == r[4 + 16 * j..StretchEnd(r, j)]
  }

  /** A run in terms of the payloads: stretch by stretch equal, and extended to neither side. */
  predicate ByteRun(payloads: seq<seq<byte>>, run: Run) {
    && run.count >= 1 && run.start.left < run.start.right < |payloads|
    && (forall k :: 0 <= k < run.count ==> SameStretch(payloads, run.start, k))
    && !SameStretch(payloads, run.start, run.count) && !SameStretch(payloads, run.start, -1)
  }

  lemma SameBlockIsSameStretch(payloads: seq<seq<byte>>, q: Start, k: nat)
    requires q.left < |payloads| && q.right < |payloads|
    ensures SameBlock(Split(payloads), q, k) <==> SameStretch(payloads, q, k)
  {
    BlocksAreStretches(payloads, q.left, q.leftBlock + k);
    BlocksAreStretches(payloads, q.right, q.rightBlock + k);
    hide Split, StretchEnd;
  }

  lemma BlockBeforeIsStretchBefore(payloads: seq<seq<byte>>, q: Start)
    requires InBlocks(Split(payloads), q)
    ensures ExtendsLeft(Split(payloads), q) <==> SameStretch(payloads, q, -1)
  {
    if q.leftBlock > 0 && q.rightBlock > 0 {
      BlocksAreStretches(payloads, q.left, q.leftBlock - 1);
      BlocksAreStretches(payloads, q.right, q.rightBlock - 1);
    }
    hide Split, StretchEnd;
  }

  lemma RangeIsStretches(payloads: seq<seq<byte>>, q: Start, n: nat)
    requires q.left < q.right < |payloads| && n >= 1
    ensures EqualRange(Split(payloads), q, n) <==> forall k: nat :: k < n ==> SameStretch(payloads, q, k)
  {
    var bs := Split(payloads);
    forall k: nat | k < n
      ensures SameBlock(bs, q, k) <==> SameStretch(payloads, q, k)
    {
      SameBlockIsSameStretch(payloads, q, k);
    }
    hide Split, SameStretch;
    if SameBlock(bs, q, n - 1) {
      assert q.leftBlock + n <= |bs[q.left]| && q.rightBlock + n <= |bs[q.right]|;
    }
  }

  /** The reported runs, in terms of the payloads' bytes. */
  lemma RunsInBytes(payloads: seq<seq<byte>>, minimum: int, run: Run)
    ensures Reported(Split(payloads), minimum, run) <==> ByteRun(payloads, run) && run.count >= minimum
  {
    var bs, q := Split(payloads), run.start;
    if run.count >= 1 && q.left < q.right < |payloads| {
      RangeIsStretches(payloads, q, run.count);
      RangeIsStretches(payloads, q, run.count + 1);
      if EqualRange(bs, q, run.count) {
        BlockBeforeIsStretchBefore(payloads, q);
      }
    }
    hide Split, SameStretch, EqualRange, ExtendsLeft;
  }

  /** A run is one equal range of bytes: from 4 + 16 * leftBlock and from 4 + 16 * rightBlock on. */
  lemma RunIsOneRange(payloads: seq<seq<byte>>, run: Run)
    requires ByteRun(payloads, run)
    ensures var q := run.start;
      var p, r := payloads[q.left], payloads[q.right];
      var i, j := 4 + 16 * q.leftBlock, 4 + 16 * q.rightBlock;
      var m, n := StretchEnd(p, q.leftBlock + run.count - 1), StretchEnd(r, q.rightBlock + run.count - 1);
      i < m <= |p| && j < n <= |r| && p[i..m] == r[j..n]
  {
    StretchesJoin(payloads, run.start, run.count);
  }

  lemma {:induction false} StretchesJoin(payloads: seq<seq<byte>>, q: Start, count: nat)
    requires q.left < |payloads| && q.right < |payloads| && count >= 1
    requires forall k :: 0 <= k < count ==> SameStretch(payloads, q, k)
    ensures var p, r := payloads[q.left], payloads[q.right];
      var i, j := 4 + 16 * q.leftBlock, 4 + 16 * q.rightBlock;
      var m, n := StretchEnd(p, q.leftBlock + count - 1), StretchEnd(r, q.rightBlock + count - 1);
      i < m <= |p| && j < n <= |r| && p[i..m] == r[j..n]
  {
    assert SameStretch(payloads, q, count - 1);
    if count == 1 {
    } else {
      StretchesJoin(payloads, q, count - 1);
      var p, r := payloads[q.left], payloads[q.right];
      JoinRanges(p, 4 + 16 * q.leftBlock, 4 + 16 * (q.leftBlock + count - 1), StretchEnd(p, q.leftBlock + count - 1));
      JoinRanges(r, 4 + 16 * q.rightBlock, 4 + 16 * (q.rightBlock + count - 1),
                 StretchEnd(r, q.rightBlock + count - 1));
    }
  }

  lemma JoinRanges(p: seq<byte>, i: nat, j: nat, k: nat)
    requires i <= j <= k <= |p|
    ensures p[i..k] == p[i..j] + p[j..k]
  {
  }

  lemma StretchOfRange(p: seq<byte>, i: nat, n: nat, k: nat)
    requires k < n && i + 16 * n <= |p|
    ensures p[i..i + 16 * n][16 * k..16 * k + 16] == p[i + 16 * k..i + 16 * k + 16]
  {
    var a, b := 16 * n, 16 * k;
    assert b + 16 <= a;
    SliceOfSlice(p, i, i + a, b, b + 16);
  }

  lemma SliceOfSlice(p: seq<byte>, i: nat, j: nat, a: nat, b: nat)
    requires i <= j <= |p| && a <= b <= j - i
    ensures p[i..j][a..b] == p[i + a..i + b]
  {
    forall x | 0 <= x < b - a
      ensures p[i..j][a..b][x] == p[i + a..i + b][x]
    {
      assert p[i..j][a + x] == p[i + a + x];
    }
  }

  /** Every range of whole stretches that two payloads share is inside a reported run of its diagonal. */
  lemma SharedRangeIsReported(payloads: seq<seq<byte>>, minimum: int, q: Start, n: nat) returns (run: Run)
    requires n >= 1 && n >= minimum && q.left < q.right < |payloads|
    requires 4 + 16 * (q.leftBlock + n) <= |payloads[q.left]| && 4 + 16 * (q.rightBlock + n) <= |payloads[q.right]|
    requires payloads[q.left][4 + 16 * q.leftBlock..4 + 16 * (q.leftBlock + n)]
          == payloads[q.right][4 + 16 * q.rightBlock..4 + 16 * (q.rightBlock + n)]
    ensures ByteRun(payloads, run) && run.count >= minimum && Covers(run, q, n)
  {
    forall k: nat | k < n
      ensures SameStretch(payloads, q, k)
    {
      StretchOfRange(payloads[q.left], 4 + 16 * q.leftBlock, n, k);
      StretchOfRange(payloads[q.right], 4 + 16 * q.rightBlock, n, k);
    }
    hide SameStretch;
    RangeIsStretches(payloads, q, n);
    CoveredByOneRun(Split(payloads), minimum, q, n);
    run :| Reported(Split(payloads), minimum, run) && Covers(run, q, n);
    RunsInBytes(payloads, minimum, run);
  }
}
