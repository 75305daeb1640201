/** The depth-bounded search for the callers of a function, over any call graph. */
module CallerTree {

  datatype Work<F> = Work(function_: F, depth: nat)

  /** `getCallingFunctions`, sorted by entry point: the callers of each function, without repetition. */
  type Graph<!F> = F -> seq<F>

  // ---------------------------------------------------------------- caller distances

  /** The functions that call `root` through exactly n calls. */
  ghost predicate CallsIn<F(!new)>(callers: Graph<F>, root: F, f: F, n: nat)
    decreases n
  {
    if n == 0 then f == root
    else exists g :: CallsIn(callers, root, g, n - 1) && f in callers(g)
  }

  /** d is the length of a shortest call chain from f to `root`. */
  ghost predicate Distance<F(!new)>(callers: Graph<F>, root: F, f: F, d: nat) {
    CallsIn(callers, root, f, d) && forall n: nat :: n < d ==> !CallsIn(callers, root, f, n)
  }

  // ---------------------------------------------------------------- the work that is left

  /** Nodes of the caller tree of f down to k levels: bounds the work one entry can still cause. */
  ghost function TreeSize<F>(callers: Graph<F>, f: F, k: nat): nat
    decreases k, 1
  {
    1 + if k == 0 then 0 else ForestSize(callers, callers(f), k - 1)
  }

  ghost function ForestSize<F>(callers: Graph<F>, fs: seq<F>, k: nat): nat
    decreases k, 2, |fs|
  {
    if fs == [] then 0 else TreeSize(callers, fs[0], k) + ForestSize(callers, fs[1..], k)
  }

  ghost function Left<F>(callers: Graph<F>, pending: seq<Work<F>>, limit: nat): nat {
    if pending == [] then 0
    else
      var w := pending[0];
      (if w.depth <= limit then TreeSize(callers, w.function_, limit - w.depth) else 0)
      + Left(callers, pending[1..], limit)
  }

  lemma {:induction false} LeftOfSum<F>(callers: Graph<F>, a: seq<Work<F>>, b: seq<Work<F>>, limit: nat)
    ensures Left(callers, a + b, limit) == Left(callers, a, limit) + Left(callers, b, limit)
  {
    if a == [] {
      assert a + b == b;
    } else {
      assert (a + b)[1..] == a[1..] + b;
      LeftOfSum(callers, a[1..], b, limit);
    }
  }

  function Entries<F>(fs: seq<F>, depth: nat): (r: seq<Work<F>>)
    ensures |r| == |fs|
    ensures forall i :: 0 <= i < |r| ==> r[i] == Work(fs[i], depth)
  {
    seq(|fs|, i requires 0 <= i < |fs| => Work(fs[i], depth))
  }

  lemma {:induction false} LeftOfEntries<F>(callers: Graph<F>, fs: seq<F>, depth: nat, limit: nat)
    requires depth <= limit
    ensures Left(callers, Entries(fs, depth), limit) == ForestSize(callers, fs, limit - depth)
  {
    if fs == [] {
    } else {
      assert Entries(fs, depth)[1..] == Entries(fs[1..], depth);
      LeftOfEntries(callers, fs[1..], depth, limit);
    }
  }

  // ---------------------------------------------------------------- the state of the search

  /** Everything recorded or pending has a call chain of its depth. */
  ghost predicate Sound<F(!new)>(callers: Graph<F>, root: F, limit: nat, m: map<F, nat>, pending: seq<Work<F>>) {
    && (forall f :: f in m ==> m[f] <= limit && CallsIn(callers, root, f, m[f]))
    && (forall i :: 0 <= i < |pending| ==>
          pending[i].depth <= limit && CallsIn(callers, root, pending[i].function_, pending[i].depth))
  }

  /** f is recorded at depth d or less, or waits with depth d. */
  ghost predicate Seen<F(!new)>(m: map<F, nat>, pending: seq<Work<F>>, f: F, d: nat) {
    (f in m && m[f] <= d) || Work(f, d) in pending
  }

  /** The root, and the callers of what is recorded above the limit, are not forgotten. */
  ghost predicate Closed<F(!new)>(callers: Graph<F>, root: F, limit: nat, m: map<F, nat>, pending: seq<Work<F>>) {
    && Seen(m, pending, root, 0)
    && (forall f, c :: f in m && m[f] < limit && c in callers(f) ==> Seen(m, pending, c, m[f] + 1))
  }

  /** Breadth first: what waits is in depth order and spans two levels at most; what is recorded is not deeper. */
  ghost predicate Layered<F(!new)>(m: map<F, nat>, pending: seq<Work<F>>) {
    && (forall i, j :: 0 <= i < j < |pending| ==> pending[i].depth <= pending[j].depth)
    && (forall i :: 0 <= i < |pending| ==> pending[i].depth <= pending[0].depth + 1)
    && (pending != [] ==> forall f :: f in m ==> m[f] <= pending[0].depth)
  }

  /** The insertion order of the map: each key once, depths not decreasing. */
  ghost predicate InOrder<F(!new)>(m: map<F, nat>, order: seq<F>) {
    && (forall f :: f in m <==> f in order)
    && (forall i, j :: 0 <= i < j < |order| ==> order[i] != order[j])
    && (forall i, j :: 0 <= i < j < |order| ==> m[order[i]] <= m[order[j]])
  }

  ghost predicate Searching<F(!new)>(callers: Graph<F>, root: F, limit: nat,
                                     m: map<F, nat>, order: seq<F>, pending: seq<Work<F>>) {
    Sound(callers, root, limit, m, pending) && Closed(callers, root, limit, m, pending)
    && Layered(m, pending) && InOrder(m, order)
  }

  lemma StartSearching<F(!new)>(callers: Graph<F>, root: F, limit: nat)
    ensures Searching(callers, root, limit, map[], [], [Work(root, 0)])
  {
  }

  lemma FirstInLimit<F(!new)>(callers: Graph<F>, root: F, limit: nat,
                              m: map<F, nat>, order: seq<F>, pending: seq<Work<F>>)
    requires Searching(callers, root, limit, m, order, pending) && pending != []
    ensures pending[0].depth <= limit
  {
  }

  /** A recorded function that comes up again is dropped. */
  lemma DropKeepsSearching<F(!new)>(callers: Graph<F>, root: F, limit: nat,
                                    m: map<F, nat>, order: seq<F>, pending: seq<Work<F>>)
    requires Searching(callers, root, limit, m, order, pending)
    requires pending != [] && pending[0].function_ in m
    ensures m[pending[0].function_] <= pending[0].depth
    ensures Searching(callers, root, limit, m, order, pending[1..])
  {
    var w := pending[0];
    assert pending == [w] + pending[1..];
    forall f, d | Seen(m, pending, f, d)
      ensures Seen(m, pending[1..], f, d)
    {
    }
  }

  /** What recording the first entry w adds to the end of the queue. */
  function Added<F>(callers: Graph<F>, limit: nat, w: Work<F>): seq<Work<F>> {
    if w.depth == limit then [] else Entries(callers(w.function_), w.depth + 1)
  }

  lemma RecordKeepsSound<F(!new)>(callers: Graph<F>, root: F, limit: nat, m: map<F, nat>, pending: seq<Work<F>>)
    requires Sound(callers, root, limit, m, pending) && pending != []
    ensures var w := pending[0];
      Sound(callers, root, limit, m[w.function_ := w.depth], pending[1..] + Added(callers, limit, w))
  {
    var w := pending[0];
    forall i | 0 <= i < |Added(callers, limit, w)|
      ensures CallsIn(callers, root, Added(callers, limit, w)[i].function_, w.depth + 1)
    {
      assert callers(w.function_)[i] in callers(w.function_);
    }
  }

  lemma RecordKeepsClosed<F(!new)>(callers: Graph<F>, root: F, limit: nat, m: map<F, nat>, pending: seq<Work<F>>)
    requires Closed(callers, root, limit, m, pending) && pending != [] && pending[0].function_ !in m
    ensures var w := pending[0];
      Closed(callers, root, limit, m[w.function_ := w.depth], pending[1..] + Added(callers, limit, w))
  {
    var w := pending[0];
    var m', rest := m[w.function_ := w.depth], pending[1..] + Added(callers, limit, w);
    assert pending == [w] + pending[1..];
    forall f, d | Seen(m, pending, f, d)
      ensures Seen(m', rest, f, d)
    {
    }
    forall c | c in callers(w.function_) && w.depth < limit
      ensures Seen(m', rest, c, w.depth + 1)
    {
      var i :| 0 <= i < |callers(w.function_)| && callers(w.function_)[i] == c;
      assert Added(callers, limit, w)[i] == Work(c, w.depth + 1);
    }
  }

  /** Where the entries of the next queue come from. */
  lemma NextQueue<F>(callers: Graph<F>, limit: nat, pending: seq<Work<F>>, i: nat)
    requires pending != []
    requires i < |pending[1..] + Added(callers, limit, pending[0])|
    ensures var rest := pending[1..] + Added(callers, limit, pending[0]);
      if i < |pending| - 1 then rest[i] == pending[i + 1] else rest[i].depth == pending[0].depth + 1
  {
    var waiting, added := pending[1..], Added(callers, limit, pending[0]);
    assert (waiting + added)[i] == if i < |waiting| then waiting[i] else added[i - |waiting|];
  }

  lemma RecordKeepsLayers<F(!new)>(callers: Graph<F>, limit: nat, m: map<F, nat>, pending: seq<Work<F>>)
    requires Layered(m, pending) && pending != []
    ensures var w := pending[0];
      Layered(m[w.function_ := w.depth], pending[1..] + Added(callers, limit, w))
  {
    var w := pending[0];
    var rest := pending[1..] + Added(callers, limit, w);
    forall i | 0 <= i < |rest|
      ensures if i < |pending| - 1 then rest[i] == pending[i + 1] else rest[i].depth == w.depth + 1
    {
      NextQueue(callers, limit, pending, i);
    }
    hide Added;
  }

  lemma RecordKeepsOrder<F(!new)>(m: map<F, nat>, order: seq<F>, pending: seq<Work<F>>)
    requires InOrder(m, order) && Layered(m, pending) && pending != [] && pending[0].function_ !in m
    ensures var w := pending[0];
      InOrder(m[w.function_ := w.depth], order + [w.function_])
  {
    var w := pending[0];
    var longer := order + [w.function_];
    assert longer[|order|] == w.function_;
    forall i | 0 <= i < |order|
      ensures order[i] in m && m[order[i]] <= w.depth && order[i] != w.function_
    {
      assert order[i] in order;
    }
  }

  lemma RecordKeepsSearching<F(!new)>(callers: Graph<F>, root: F, limit: nat,
                                      m: map<F, nat>, order: seq<F>, pending: seq<Work<F>>)
    requires Searching(callers, root, limit, m, order, pending)
    requires pending != [] && pending[0].function_ !in m
    ensures var w := pending[0];
      Searching(callers, root, limit, m[w.function_ := w.depth], order + [w.function_],
                pending[1..] + Added(callers, limit, w))
  {
    var w := pending[0];
    hide Sound, Closed, Layered, InOrder;
    RecordKeepsSound(callers, root, limit, m, pending);
    RecordKeepsClosed(callers, root, limit, m, pending);
    RecordKeepsLayers(callers, limit, m, pending);
    RecordKeepsOrder(m, order, pending);
  }

  lemma WorkShrinks<F>(callers: Graph<F>, pending: seq<Work<F>>, limit: nat)
    requires pending != [] && pending[0].depth <= limit
    ensures Left(callers, pending[1..], limit) < Left(callers, pending, limit)
    ensures Left(callers, pending[1..] + Added(callers, limit, pending[0]), limit) < Left(callers, pending, limit)
  {
    var w := pending[0];
    LeftOfSum(callers, pending[1..], Added(callers, limit, w), limit);
    if w.depth < limit {
      LeftOfEntries(callers, callers(w.function_), w.depth + 1, limit);
    }
  }

  lemma {:induction false} ClosedReaches<F(!new)>(callers: Graph<F>, root: F, limit: nat, m: map<F, nat>, f: F, n: nat)
    requires Closed(callers, root, limit, m, []) && CallsIn(callers, root, f, n) && n <= limit
    ensures f in m && m[f] <= n
    decreases n
  {
    if n == 0 {
    } else {
      var g :| CallsIn(callers, root, g, n - 1) && f in callers(g);
      ClosedReaches(callers, root, limit, m, g, n - 1);
      assert Seen(m, [], f, m[g] + 1);
    }
  }

  ghost predicate Shortest<F(!new)>(callers: Graph<F>, root: F, limit: nat, m: map<F, nat>) {
    && (forall f :: f in m <==> exists n: nat :: n <= limit && CallsIn(callers, root, f, n))
    && (forall f :: f in m ==> Distance(callers, root, f, m[f]))
  }

  lemma SearchDone<F(!new)>(callers: Graph<F>, root: F, limit: nat, m: map<F, nat>, order: seq<F>)
    requires Searching(callers, root, limit, m, order, [])
    ensures Shortest(callers, root, limit, m)
  {
    forall f, n: nat | n <= limit && CallsIn(callers, root, f, n)
      ensures f in m && m[f] <= n
    {
      ClosedReaches(callers, root, limit, m, f, n);
    }
    forall f | f in m
      ensures exists n: nat :: n <= limit && CallsIn(callers, root, f, n)
      ensures Distance(callers, root, f, m[f])
    {
      assert m[f] <= limit && CallsIn(callers, root, f, m[f]);
    }
  }

  /** The state after the first entry of the queue was handled. */
  ghost predicate Handled<F(!new)>(callers: Graph<F>, root: F, limit: nat, before: seq<Work<F>>,
                                   m: map<F, nat>, order: seq<F>, pending: seq<Work<F>>) {
    Searching(callers, root, limit, m, order, pending) && Left(callers, pending, limit) < Left(callers, before, limit)
  }

  lemma VisitKeepsSearching<F(!new)>(callers: Graph<F>, root: F, limit: nat,
                                     m: map<F, nat>, order: seq<F>, pending: seq<Work<F>>)
    requires Searching(callers, root, limit, m, order, pending) && pending != []
    ensures var w := pending[0];
      if w.function_ in m then
        m[w.function_] <= w.depth && Handled(callers, root, limit, pending, m, order, pending[1..])
      else Handled(callers, root, limit, pending, m[w.function_ := w.depth], order + [w.function_],
                   pending[1..] + Added(callers, limit, w))
  {
    FirstInLimit(callers, root, limit, m, order, pending);
    WorkShrinks(callers, pending, limit);
    hide Searching, Left, Added;
    if pending[0].function_ in m {
      DropKeepsSearching(callers, root, limit, m, order, pending);
    } else {
      RecordKeepsSearching(callers, root, limit, m, order, pending);
    }
  }

  /** The search of `run`: it ends on every graph, and its map holds exactly the functions within the limit,
      each with its shortest distance, inserted once and in non-decreasing depth order. */
  method CallerDepths<F(==, !new)>(callers: Graph<F>, root: F, limit: nat)
    returns (functions: map<F, nat>, order: seq<F>)
    ensures Shortest(callers, root, limit, functions)
    ensures InOrder(functions, order)
  {
    functions, order := map[], [];
    var pending := [Work(root, 0)];
    StartSearching(callers, root, limit);
    hide Searching, Left, Shortest, InOrder, Entries;
    while pending != []
      invariant Searching(callers, root, limit, functions, order, pending)
      decreases Left(callers, pending, limit)
    {
      VisitKeepsSearching(callers, root, limit, functions, order, pending);
      ghost var before := pending;
      var work := pending[0];
      pending := pending[1..];
      if work.function_ in functions && functions[work.function_] <= work.depth {
        continue;
      }
      if work.function_ !in functions {
        order := order + [work.function_];
      }
      functions := functions[work.function_ := work.depth];
      ghost var longer := pending + Added(callers, limit, work);
      assert Handled(callers, root, limit, before, functions, order, longer);
      if work.depth == limit {
        assert longer == pending;
        continue;
      }
      pending := pending + Entries(callers(work.function_), work.depth + 1);
      assert longer == pending;
    }
    FoundAll(callers, root, limit, functions, order, pending);
  }

  lemma FoundAll<F(!new)>(callers: Graph<F>, root: F, limit: nat, m: map<F, nat>, order: seq<F>, pending: seq<Work<F>>)
    requires Searching(callers, root, limit, m, order, pending) && pending == []
    ensures Shortest(callers, root, limit, m) && InOrder(m, order)
  {
    SearchDone(callers, root, limit, m, order);
  }
}
