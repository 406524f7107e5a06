/**
  `progress_iterable` of `graphrag/logger/progress.py`: a generator that ticks its
  own ticker once, by one, before yielding each element of the source.

  The generator is a state (`Gen`) over a fixed source and a step (`Next`, one
  pull by the consumer). `Pull(source, g, k)` is what `k` pulls yield and emit,
  so laziness is a statement about prefixes: after `k` pulls exactly `k` ticks
  have fired.
 */
module ProgressIteration {
  import opened Optional
  import opened Progress

  /** A suspended generator: its ticker and how many elements of its source it has yielded. */
  datatype Gen = Gen(ticker: Ticker, pos: nat)

  /** The result of one pull: the element yielded (`None` at the end), the new state, the events. */
  datatype Pulled<T> = Pulled(item: Option<T>, gen: Gen, events: seq<Event>)

  /** The result of several pulls: the elements yielded, the state reached, the events in order. */
  datatype Consumed<T> = Consumed(items: seq<T>, gen: Gen, events: seq<Event>)

  /** The ticker's total: the explicit one if given, otherwise the length of the source. */
  function TotalFor<T>(source: seq<T>, numTotal: Option<int>): int
  {
    if numTotal.Some? then numTotal.value else |source|
  }

  /** The generator before its first pull. */
  function Start<T>(source: seq<T>, hasCallback: bool, numTotal: Option<int>, description: string): (g: Gen)
    ensures g.pos == 0 && g.ticker.numComplete == 0
    ensures g.ticker.hasCallback == hasCallback && g.ticker.description == description
    ensures g.ticker.numTotal == if numTotal.Some? then numTotal.value else |source|
  {
    Gen(NewTicker(hasCallback, TotalFor(source, numTotal), description), 0)
  }

  /** One pull: tick by one and yield the next element, or stop without ticking. */
  function Next<T>(source: seq<T>, g: Gen): (r: Pulled<T>)
    ensures g.pos < |source| ==>
      && r.item == Some(source[g.pos])
      && r.gen.pos == g.pos + 1
      && r.gen.ticker == g.ticker.(numComplete := g.ticker.numComplete + 1)
      && r.events == Tick(g.ticker, 1).events
    ensures g.pos >= |source| ==> r.item == None && r.gen == g && r.events == []
  {
    if g.pos >= |source| then Pulled(None, g, [])
    else
      var s := Tick(g.ticker, 1);
      Pulled(Some(source[g.pos]), Gen(s.ticker, g.pos + 1), s.events)
  }

  /** `k` pulls in a row. */
  function Pull<T>(source: seq<T>, g: Gen, k: nat): Consumed<T>
    decreases k
  {
    if k == 0 then Consumed([], g, [])
    else
      var c := Pull(source, g, k - 1);
      var n := Next(source, c.gen);
      Consumed(c.items + (if n.item.Some? then [n.item.value] else []), n.gen, c.events + n.events)
  }

  /** The events of `n` ticks by one on a fresh ticker with this callback, total and description. */
  function UnitTrace(hasCallback: bool, description: string, total: int, n: nat): seq<Event>
  {
    if n == 0 then []
    else UnitTrace(hasCallback, description, total, n - 1) + Tick(Ticker(hasCallback, description, total, n - 1), 1).events
  }

  /** The snapshots of the first `n` ticks by one on a fresh ticker with this total and description. */
  function UnitReports(description: string, total: int, n: nat): seq<Snapshot>
  {
    seq(n, j => SnapshotOf(description, total, j + 1))
  }

  /** The log lines of the first `n` ticks by one on a fresh ticker with this total and description. */
  function UnitLogs(description: string, total: int, n: nat): seq<LogRecord>
  {
    seq(n, j => LogRecord(description, j + 1, total))
  }

  lemma UnitReportsSnoc(description: string, total: int, n: nat)
    ensures UnitReports(description, total, n + 1)
         == UnitReports(description, total, n) + [SnapshotOf(description, total, n + 1)]
  {
  }

  lemma UnitLogsSnoc(description: string, total: int, n: nat)
    ensures UnitLogs(description, total, n + 1)
         == UnitLogs(description, total, n) + [LogRecord(description, n + 1, total)]
  {
  }

  lemma TakeSnoc<T>(xs: seq<T>, n: nat)
    requires n < |xs|
    ensures xs[..n + 1] == xs[..n] + [xs[n]]
  {
  }

  lemma PrefixExtend<X>(a: seq<X>, b: seq<X>, c: seq<X>)
    requires a <= b
    ensures a <= b + c
  {
    assert (b + c)[..|a|] == b[..|a|];
  }

  /** Unit ticks report the counts 1, 2, ..., n with the fixed total, one report per tick. */
  lemma {:induction false} UnitTraceReports(hasCallback: bool, description: string, total: int, n: nat)
    ensures Reports(UnitTrace(hasCallback, description, total, n))
         == if hasCallback then UnitReports(description, total, n) else []
    decreases n
  {
    if n > 0 {
      var t := Ticker(hasCallback, description, total, n - 1);
      UnitTraceReports(hasCallback, description, total, n - 1);
      TickObservers(t, 1);
      ReportsAppend(UnitTrace(hasCallback, description, total, n - 1), Tick(t, 1).events);
      if hasCallback {
        UnitReportsSnoc(description, total, n - 1);
      }
    }
  }

  /** Unit ticks log the lines for 1, 2, ..., n when there is a callback and a description. */
  lemma {:induction false} UnitTraceLogs(hasCallback: bool, description: string, total: int, n: nat)
    ensures Logs(UnitTrace(hasCallback, description, total, n))
         == if hasCallback && description != "" then UnitLogs(description, total, n) else []
    decreases n
  {
    if n > 0 {
      var t := Ticker(hasCallback, description, total, n - 1);
      UnitTraceLogs(hasCallback, description, total, n - 1);
      TickObservers(t, 1);
      LogsAppend(UnitTrace(hasCallback, description, total, n - 1), Tick(t, 1).events);
      if hasCallback && description != "" {
        UnitLogsSnoc(description, total, n - 1);
      }
    }
  }

  lemma {:induction false} UnitTraceOrdered(hasCallback: bool, description: string, total: int, n: nat)
    ensures LogsPrecedeReports(UnitTrace(hasCallback, description, total, n))
    decreases n
  {
    if n > 0 {
      UnitTraceOrdered(hasCallback, description, total, n - 1);
      TickObservers(Ticker(hasCallback, description, total, n - 1), 1);
      LogsPrecedeReportsAppend(UnitTrace(hasCallback, description, total, n - 1),
                               Tick(Ticker(hasCallback, description, total, n - 1), 1).events);
    }
  }

  /** Fewer unit ticks emit a prefix of what more unit ticks emit. */
  lemma {:induction false} UnitTracePrefix(hasCallback: bool, description: string, total: int, n1: nat, n2: nat)
    requires n1 <= n2
    ensures UnitTrace(hasCallback, description, total, n1) <= UnitTrace(hasCallback, description, total, n2)
    decreases n2
  {
    if n1 < n2 {
      UnitTracePrefix(hasCallback, description, total, n1, n2 - 1);
      PrefixExtend(UnitTrace(hasCallback, description, total, n1),
                   UnitTrace(hasCallback, description, total, n2 - 1),
                   Tick(Ticker(hasCallback, description, total, n2 - 1), 1).events);
    }
  }

  /** `UnitTrace` is what the ticker's own `Run` emits for `n` calls `ticker(1)` from count 0. */
  lemma {:induction false} RunUnitTicks(hasCallback: bool, description: string, total: int, n: nat)
    ensures Run(Ticker(hasCallback, description, total, 0), seq(n, _ => TickBy(1)))
         == Step(Ticker(hasCallback, description, total, n), UnitTrace(hasCallback, description, total, n))
    decreases n
  {
    if n > 0 {
      var t0 := Ticker(hasCallback, description, total, 0);
      var ops := seq(n - 1, _ => TickBy(1));
      assert seq(n, _ => TickBy(1)) == ops + [TickBy(1)];
      RunUnitTicks(hasCallback, description, total, n - 1);
      RunSnoc(t0, ops, TickBy(1));
    }
  }

  /** `g` has not been pulled yet: its ticker is fresh, with this callback, description and total. */
  predicate Fresh(g: Gen, hasCallback: bool, description: string, total: int)
  {
    g.pos == 0 && g.ticker == Ticker(hasCallback, description, total, 0)
  }

  /**
    After `k <= |source|` pulls of a fresh generator it stands at position `k`
    and its ticker has been ticked by one exactly `k` times.
   */
  lemma {:induction false} PullGen<T>(source: seq<T>, g: Gen, hasCallback: bool, description: string, total: int, k: nat)
    requires Fresh(g, hasCallback, description, total)
    requires k <= |source|
    ensures var c := Pull(source, g, k);
      c.gen.pos == k && c.gen.ticker == Ticker(hasCallback, description, total, k)
    decreases k
  {
    if k > 0 {
      PullGen(source, g, hasCallback, description, total, k - 1);
    }
  }

  /** The first `k` elements of `source`, one at a time. */
  function Prefix<T>(source: seq<T>, k: nat): seq<T>
    requires k <= |source|
  {
    if k == 0 then [] else Prefix(source, k - 1) + [source[k - 1]]
  }

  /** `Prefix` is the slice `source[..k]`. */
  lemma {:induction false} PrefixIsTake<T>(source: seq<T>, k: nat)
    requires k <= |source|
    ensures Prefix(source, k) == source[..k]
    decreases k
  {
    if k > 0 {
      PrefixIsTake(source, k - 1);
      TakeSnoc(source, k - 1);
    }
  }

  /** After `k <= |source|` pulls of a fresh generator it has yielded `Prefix(source, k)`. */
  lemma {:induction false} PullPrefix<T>(source: seq<T>, g: Gen, hasCallback: bool, description: string, total: int, k: nat)
    requires Fresh(g, hasCallback, description, total)
    requires k <= |source|
    ensures Pull(source, g, k).items == Prefix(source, k)
    decreases k
  {
    if k > 0 {
      PullPrefix(source, g, hasCallback, description, total, k - 1);
      PullGen(source, g, hasCallback, description, total, k - 1);
    }
  }

  /** After `k <= |source|` pulls of a fresh generator it has yielded the first `k` elements of the source in order. */
  lemma PullItems<T>(source: seq<T>, g: Gen, hasCallback: bool, description: string, total: int, k: nat)
    requires Fresh(g, hasCallback, description, total)
    requires k <= |source|
    ensures Pull(source, g, k).items == source[..k]
  {
    PullPrefix(source, g, hasCallback, description, total, k);
    PrefixIsTake(source, k);
  }

  /** One more unit tick appends what that tick emits. */
  lemma UnitTraceSnoc(hasCallback: bool, description: string, total: int, n: nat)
    ensures UnitTrace(hasCallback, description, total, n + 1)
         == UnitTrace(hasCallback, description, total, n) + Tick(Ticker(hasCallback, description, total, n), 1).events
  {
  }

  /** After `k <= |source|` pulls of a fresh generator it has emitted exactly what `k` unit ticks emit. */
  lemma {:induction false} PullEvents<T>(source: seq<T>, g: Gen, hasCallback: bool, description: string, total: int, k: nat)
    requires Fresh(g, hasCallback, description, total)
    requires k <= |source|
    ensures Pull(source, g, k).events == UnitTrace(hasCallback, description, total, k)
    decreases k
  {
    if k > 0 {
      PullEvents(source, g, hasCallback, description, total, k - 1);
      PullGen(source, g, hasCallback, description, total, k - 1);
      UnitTraceSnoc(hasCallback, description, total, k - 1);
    }
  }

  /** The pull after the last element yields nothing, emits nothing and leaves the state as it is. */
  lemma PullPastEnd<T>(source: seq<T>, g: Gen, k: nat)
    requires Pull(source, g, k).gen.pos >= |source|
    ensures Pull(source, g, k + 1) == Pull(source, g, k)
  {
  }

  /** The whole state after `k <= |xs|` pulls. */
  lemma PullState<T>(xs: seq<T>, hasCallback: bool, numTotal: Option<int>, description: string, k: nat)
    requires k <= |xs|
    ensures var c := Pull(xs, Start(xs, hasCallback, numTotal, description), k);
      && c.items == xs[..k]
      && c.gen.ticker == Ticker(hasCallback, description, TotalFor(xs, numTotal), k)
      && c.gen.pos == k
      && c.events == UnitTrace(hasCallback, description, TotalFor(xs, numTotal), k)
  {
    var g := Start(xs, hasCallback, numTotal, description);
    PullGen(xs, g, hasCallback, description, TotalFor(xs, numTotal), k);
    PullItems(xs, g, hasCallback, description, TotalFor(xs, numTotal), k);
    PullEvents(xs, g, hasCallback, description, TotalFor(xs, numTotal), k);
  }

  /**
    Iterating the wrapper to the end: the elements of `xs` unchanged and in
    order, exactly the events of `|xs|` calls `ticker(1)` on the ticker it
    builds, the k-th report carrying completed count k and the ticker's total,
    one report per element and nothing after the last (no `done`).
   */
  function ProgressIterable<T>(xs: seq<T>, hasCallback: bool, numTotal: Option<int>, description: string): (r: Consumed<T>)
    ensures r.items == xs
    ensures r.events == Run(NewTicker(hasCallback, TotalFor(xs, numTotal), description), seq(|xs|, _ => TickBy(1))).events
    ensures Reports(r.events)
         == if hasCallback then UnitReports(description, TotalFor(xs, numTotal), |xs|) else []
    ensures Logs(r.events)
         == if hasCallback && description != "" then UnitLogs(description, TotalFor(xs, numTotal), |xs|) else []
    ensures LogsPrecedeReports(r.events)
    ensures r.gen.ticker.numComplete == |xs|
    ensures r.gen.ticker.numTotal == if numTotal.Some? then numTotal.value else |xs|
  {
    var total := TotalFor(xs, numTotal);
    PullState(xs, hasCallback, numTotal, description, |xs|);
    PullPastEnd(xs, Start(xs, hasCallback, numTotal, description), |xs|);
    UnitTraceReports(hasCallback, description, total, |xs|);
    UnitTraceLogs(hasCallback, description, total, |xs|);
    UnitTraceOrdered(hasCallback, description, total, |xs|);
    RunUnitTicks(hasCallback, description, total, |xs|);
    Pull(xs, Start(xs, hasCallback, numTotal, description), |xs| + 1)
  }

  /**
    Laziness: what the consumer has seen after `k` pulls is a prefix of the
    whole iteration, with exactly `k` reports for `k` elements.
   */
  lemma LazyPrefix<T>(xs: seq<T>, hasCallback: bool, numTotal: Option<int>, description: string, k: nat)
    requires k <= |xs|
    ensures var c := Pull(xs, Start(xs, hasCallback, numTotal, description), k);
      && c.items == xs[..k]
      && c.events <= ProgressIterable(xs, hasCallback, numTotal, description).events
      && Reports(c.events) == if hasCallback then UnitReports(description, TotalFor(xs, numTotal), k) else []
  {
    var total := TotalFor(xs, numTotal);
    PullState(xs, hasCallback, numTotal, description, k);
    PullState(xs, hasCallback, numTotal, description, |xs|);
    PullPastEnd(xs, Start(xs, hasCallback, numTotal, description), |xs|);
    UnitTracePrefix(hasCallback, description, total, k, |xs|);
    UnitTraceReports(hasCallback, description, total, k);
  }

  /** The scenario of wrapping a three-element list with no total and no description. */
  lemma ThreeElementScenario<T>(xs: seq<T>)
    requires |xs| == 3
    ensures var r := ProgressIterable(xs, true, None, "");
      && r.items == xs
      && r.events == [Report(SnapshotOf("", 3, 1)), Report(SnapshotOf("", 3, 2)), Report(SnapshotOf("", 3, 3))]
  {
    var r := ProgressIterable(xs, true, None, "");
    assert Reports(r.events) == [SnapshotOf("", 3, 1), SnapshotOf("", 3, 2), SnapshotOf("", 3, 3)];
    OnlyReports(r.events);
  }

  /** A trace without log lines is exactly its reports. */
  lemma {:induction false} OnlyReports(trace: seq<Event>)
    requires Logs(trace) == []
    ensures |Reports(trace)| == |trace|
    ensures forall i :: 0 <= i < |trace| ==> trace[i] == Report(Reports(trace)[i])
    decreases |trace|
  {
    if trace != [] {
      OnlyReports(trace[1..]);
      assert trace[0].Report?;
      forall i | 0 < i < |trace|
        ensures trace[i] == Report(Reports(trace)[i])
      {
        assert trace[i] == trace[1..][i - 1];
      }
    }
  }
}
