/**
  The progress ticker of `graphrag/logger/progress.py`: a counter with a fixed
  total and description that reports snapshots to an optional callback.

  The callback and the logger are observers. Instead of calling them, each
  operation returns the events they would have received, in order: a `Log`
  for each `logger.info` line and a `Report` for each callback invocation.
  Only the presence of the callback matters to the ticker, so it is a flag.
 */
module Progress {
  import opened Optional
  import opened Decimal

  /** The `Progress` record: every field optional. This module never fills `percent`. */
  datatype Snapshot = Snapshot(
    percent: Option<real>,
    description: Option<string>,
    totalItems: Option<int>,
    completedItems: Option<int>)

  /**
    One `logger.info` call. The source passes the format "%s%s/%s" the
    description, `str(completed)` and `str(total)`; the record keeps the two
    integers, and `Message` renders them as `str` would and joins the text as
    a handler formatting the call would.
   */
  datatype LogRecord = LogRecord(description: string, completed: int, total: int) {

    /** The logged text: the description, the completed count, '/', the total. */
    function Message(): string
    {
      description + IntToString(completed) + "/" + IntToString(total)
    }
  }

  /** What the observers see, in the order they see it. */
  datatype Event = Log(record: LogRecord) | Report(snapshot: Snapshot)

  /** The state of a `ProgressTicker`: callback present?, description, total, completed count. */
  datatype Ticker = Ticker(hasCallback: bool, description: string, numTotal: int, numComplete: int)

  /** The state after an operation together with the events it emitted. */
  datatype Step = Step(ticker: Ticker, events: seq<Event>)

  /** One call on a ticker: `ticker(n)` or `ticker.done()`. */
  datatype Op = TickBy(n: int) | MarkDone

  /** The snapshot a ticker builds: description, total and completed count set, no percent. */
  function SnapshotOf(description: string, total: int, completed: int): Snapshot
  {
    Snapshot(None, Some(description), Some(total), Some(completed))
  }

  /** The position of the first '/' in `s`, if any. */
  function SlashIndex(s: string): (r: Option<nat>)
    ensures r.None? ==> forall k :: 0 <= k < |s| ==> s[k] != '/'
    ensures r.Some? ==> r.value < |s| && s[r.value] == '/'
    ensures r.Some? ==> forall k :: 0 <= k < r.value ==> s[k] != '/'
    decreases |s|
  {
    if s == [] then None
    else if s[0] == '/' then Some(0)
    else match SlashIndex(s[1..])
      case None => None
      case Some(k) => Some(k + 1)
  }

  /**
    Reads the completed count and the total back from a log line written for
    `description`; `None` if the line does not have that shape.
   */
  function ParseLogLine(description: string, line: string): Option<(int, int)>
  {
    if |line| < |description| || line[..|description|] != description then None
    else
      var rest := line[|description|..];
      match SlashIndex(rest)
      case None => None
      case Some(k) =>
        match (ParseInt(rest[..k]), ParseInt(rest[k + 1..]))
        case (Some(completed), Some(total)) => Some((completed, total))
        case _ => None
  }

  /**
    Together with the ticker's description, a logged line determines the
    completed count and the total it was written for. The description is
    needed: "Loading 1" with count 2 and "Loading " with count 12 log the
    same line for total 3.
   */
  lemma LogLineRoundTrip(description: string, completed: int, total: int)
    ensures ParseLogLine(description, LogRecord(description, completed, total).Message()) == Some((completed, total))
  {
    var line := LogRecord(description, completed, total).Message();
    var c := IntToString(completed);
    var rest := line[|description|..];
    assert line[..|description|] == description;
    assert rest == c + "/" + IntToString(total);
    assert rest[|c|] == '/';
    var k := SlashIndex(rest).value;
    assert k == |c|;
    assert rest[..k] == c && rest[k + 1..] == IntToString(total);
    IntRoundTrip(completed);
    IntRoundTrip(total);
  }

  /** Without the description a line is ambiguous: two different records log the same text. */
  lemma MessageNeedsDescription()
    ensures LogRecord("Loading 1", 2, 3) != LogRecord("Loading ", 12, 3)
    ensures LogRecord("Loading 1", 2, 3).Message() == LogRecord("Loading ", 12, 3).Message() == "Loading 12/3"
  {
  }

  /** The snapshots handed to the callback, in order. */
  function Reports(trace: seq<Event>): (r: seq<Snapshot>)
    ensures |r| <= |trace|
  {
    if trace == [] then []
    else (if trace[0].Report? then [trace[0].snapshot] else []) + Reports(trace[1..])
  }

  /** The log records, in order. */
  function Logs(trace: seq<Event>): (r: seq<LogRecord>)
    ensures |r| <= |trace|
  {
    if trace == [] then []
    else (if trace[0].Log? then [trace[0].record] else []) + Logs(trace[1..])
  }

  /** Where `a` is a log record, `b` is the report of the same non-empty description, count and total. */
  predicate Adjacent(a: Event, b: Event)
  {
    a.Log? ==>
      && a.record.description != ""
      && b == Report(SnapshotOf(a.record.description, a.record.total, a.record.completed))
  }

  /**
    Every log record is followed at once by the callback report it describes;
    in particular no trace ends in a log record.
   */
  predicate LogsPrecedeReports(trace: seq<Event>)
    decreases |trace|
  {
    if trace == [] then true
    else
      && (trace[0].Log? ==> |trace| > 1 && Adjacent(trace[0], trace[1]))
      && LogsPrecedeReports(trace[1..])
  }

  /** `LogsPrecedeReports` stated position by position. */
  ghost predicate LogsPrecedeReportsAt(trace: seq<Event>)
  {
    && (forall i :: 0 <= i < |trace| - 1 ==> Adjacent(trace[i], trace[i + 1]))
    && (|trace| > 0 ==> !trace[|trace| - 1].Log?)
  }

  /** The recursive and the positional statements of the ordering agree on every trace. */
  lemma {:induction false} LogsPrecedeReportsPositions(trace: seq<Event>)
    ensures LogsPrecedeReports(trace) <==> LogsPrecedeReportsAt(trace)
    decreases |trace|
  {
    if trace != [] {
      var tail := trace[1..];
      LogsPrecedeReportsPositions(tail);
      if LogsPrecedeReports(trace) {
        forall i | 0 <= i < |trace| - 1
          ensures Adjacent(trace[i], trace[i + 1])
        {
          if i > 0 {
            assert trace[i] == tail[i - 1] && trace[i + 1] == tail[i];
          }
        }
        if |trace| > 1 {
          assert trace[|trace| - 1] == tail[|tail| - 1];
        }
      }
      if LogsPrecedeReportsAt(trace) {
        forall i | 0 <= i < |tail| - 1
          ensures Adjacent(tail[i], tail[i + 1])
        {
          assert tail[i] == trace[i + 1] && tail[i + 1] == trace[i + 2];
        }
        if |tail| > 0 {
          assert tail[|tail| - 1] == trace[|trace| - 1];
        }
        if trace[0].Log? {
          assert |trace| > 1;
          assert Adjacent(trace[0], trace[1]);
        }
      }
    }
  }

  /** `ProgressTicker(callback, num_total, description)`: no validation of the total. */
  function NewTicker(hasCallback: bool, numTotal: int, description: string): (t: Ticker)
    ensures t.numComplete == 0
    ensures t.hasCallback == hasCallback && t.numTotal == numTotal && t.description == description
  {
    Ticker(hasCallback, description, numTotal, 0)
  }

  /** `progress_ticker(callback, num_total, description)`: the same ticker as the constructor. */
  function MakeTicker(hasCallback: bool, numTotal: int, description: string): (t: Ticker)
    ensures t == NewTicker(hasCallback, numTotal, description)
  {
    NewTicker(hasCallback, numTotal, description)
  }

  /**
    `ticker(n)`: add `n` to the count (no clamp against the total); with a
    callback, log a line first when the description is non-empty, then hand
    the callback the snapshot of the new count.
   */
  function Tick(t: Ticker, n: int): (r: Step)
    ensures r.ticker.numComplete == t.numComplete + n
    ensures r.ticker.hasCallback == t.hasCallback
    ensures r.ticker.numTotal == t.numTotal && r.ticker.description == t.description
    ensures !t.hasCallback ==> r.events == []
    ensures t.hasCallback ==>
      && |r.events| == (if t.description != "" then 2 else 1)
      && r.events[|r.events| - 1] == Report(SnapshotOf(t.description, t.numTotal, t.numComplete + n))
      && (t.description != "" ==> r.events[0] == Log(LogRecord(t.description, t.numComplete + n, t.numTotal)))
  {
    var t' := t.(numComplete := t.numComplete + n);
    if !t.hasCallback then Step(t', [])
    else
      var report := [Report(SnapshotOf(t.description, t.numTotal, t'.numComplete))];
      if t.description != "" then
        Step(t', [Log(LogRecord(t.description, t'.numComplete, t.numTotal))] + report)
      else
        Step(t', report)
  }

  /** What a tick hands the callback and the logger, and in which order. */
  lemma TickObservers(t: Ticker, n: int)
    ensures Reports(Tick(t, n).events)
         == if t.hasCallback then [SnapshotOf(t.description, t.numTotal, t.numComplete + n)] else []
    ensures Logs(Tick(t, n).events)
         == if t.hasCallback && t.description != ""
            then [LogRecord(t.description, t.numComplete + n, t.numTotal)] else []
    ensures LogsPrecedeReports(Tick(t, n).events)
  {
  }

  /** `ticker.done()`: with a callback, report completed == total whatever the count; change nothing. */
  function Done(t: Ticker): (r: Step)
    ensures r.ticker == t
    ensures !t.hasCallback ==> r.events == []
    ensures t.hasCallback ==> r.events == [Report(SnapshotOf(t.description, t.numTotal, t.numTotal))]
  {
    if !t.hasCallback then Step(t, [])
    else Step(t, [Report(SnapshotOf(t.description, t.numTotal, t.numTotal))])
  }

  /** `done` hands the callback the completed == total snapshot and never logs. */
  lemma DoneObservers(t: Ticker)
    ensures Reports(Done(t).events)
         == if t.hasCallback then [SnapshotOf(t.description, t.numTotal, t.numTotal)] else []
    ensures Logs(Done(t).events) == []
    ensures LogsPrecedeReports(Done(t).events)
  {
  }

  function Apply(t: Ticker, op: Op): Step
  {
    match op
    case TickBy(n) => Tick(t, n)
    case MarkDone => Done(t)
  }

  /** Apply the calls in order, concatenating what each emits. */
  function Run(t: Ticker, ops: seq<Op>): Step
    decreases |ops|
  {
    if ops == [] then Step(t, [])
    else
      var s := Apply(t, ops[0]);
      var rest := Run(s.ticker, ops[1..]);
      Step(rest.ticker, s.events + rest.events)
  }

  /** The total of the tick amounts among `ops`. */
  function TickSum(ops: seq<Op>): int
  {
    if ops == [] then 0 else (if ops[0].TickBy? then ops[0].n else 0) + TickSum(ops[1..])
  }

  /** The snapshot the callback gets for `op` applied in state `t`. */
  function ReportFor(t: Ticker, op: Op): Snapshot
  {
    match op
    case TickBy(n) => SnapshotOf(t.description, t.numTotal, t.numComplete + n)
    case MarkDone => SnapshotOf(t.description, t.numTotal, t.numTotal)
  }

  lemma {:induction false} ReportsAppend(a: seq<Event>, b: seq<Event>)
    ensures Reports(a + b) == Reports(a) + Reports(b)
    decreases |a|
  {
    if a != [] {
      assert (a + b)[0] == a[0] && (a + b)[1..] == a[1..] + b;
      ReportsAppend(a[1..], b);
    } else {
      assert a + b == b;
    }
  }

  lemma {:induction false} LogsAppend(a: seq<Event>, b: seq<Event>)
    ensures Logs(a + b) == Logs(a) + Logs(b)
    decreases |a|
  {
    if a != [] {
      assert (a + b)[0] == a[0] && (a + b)[1..] == a[1..] + b;
      LogsAppend(a[1..], b);
    } else {
      assert a + b == b;
    }
  }

  /** Well-ordered traces stay well-ordered when concatenated. */
  lemma {:induction false} LogsPrecedeReportsAppend(a: seq<Event>, b: seq<Event>)
    requires LogsPrecedeReports(a) && LogsPrecedeReports(b)
    ensures LogsPrecedeReports(a + b)
    decreases |a|
  {
    if a == [] {
      assert a + b == b;
    } else {
      LogsPrecedeReportsAppend(a[1..], b);
      assert (a + b)[1..] == a[1..] + b;
      assert (a + b)[0] == a[0];
      if a[0].Log? {
        assert (a + b)[1] == a[1];
      }
    }
  }

  /** No call ever changes the callback, the description or the total. */
  lemma {:induction false} RunKeepsConfiguration(t: Ticker, ops: seq<Op>)
    ensures Run(t, ops).ticker.hasCallback == t.hasCallback
    ensures Run(t, ops).ticker.description == t.description
    ensures Run(t, ops).ticker.numTotal == t.numTotal
    decreases |ops|
  {
    if ops != [] {
      RunKeepsConfiguration(Apply(t, ops[0]).ticker, ops[1..]);
    }
  }

  /** The count moves by exactly the sum of the ticks; `done` never moves it. */
  lemma {:induction false} RunCount(t: Ticker, ops: seq<Op>)
    ensures Run(t, ops).ticker.numComplete == t.numComplete + TickSum(ops)
    decreases |ops|
  {
    if ops != [] {
      RunCount(Apply(t, ops[0]).ticker, ops[1..]);
    }
  }

  /** Without a callback nothing is ever reported or logged. */
  lemma {:induction false} RunSilentWithoutCallback(t: Ticker, ops: seq<Op>)
    requires !t.hasCallback
    ensures Run(t, ops).events == []
    decreases |ops|
  {
    if ops != [] {
      RunSilentWithoutCallback(Apply(t, ops[0]).ticker, ops[1..]);
    }
  }

  /**
    One call keeps the callback, keeps its trace well ordered and, with a
    callback, hands it exactly the snapshot built from the state before it.
   */
  lemma ApplyObservers(t: Ticker, op: Op)
    ensures Apply(t, op).ticker.hasCallback == t.hasCallback
    ensures LogsPrecedeReports(Apply(t, op).events)
    ensures t.hasCallback ==> Reports(Apply(t, op).events) == [ReportFor(t, op)]
  {
    match op
    case TickBy(n) => TickObservers(t, n);
    case MarkDone => DoneObservers(t);
  }

  /** One more call at the end: it starts from the state the earlier calls left and its events come last. */
  lemma {:induction false} RunSnoc(t: Ticker, ops: seq<Op>, op: Op)
    ensures var r := Run(t, ops);
      Run(t, ops + [op]) == Step(Apply(r.ticker, op).ticker, r.events + Apply(r.ticker, op).events)
    decreases |ops|
  {
    if ops == [] {
      assert ops + [op] == [op];
      assert Apply(t, op).events + [] == Apply(t, op).events;
    } else {
      var s := Apply(t, ops[0]);
      assert (ops + [op])[0] == ops[0] && (ops + [op])[1..] == ops[1..] + [op];
      RunSnoc(s.ticker, ops[1..], op);
      var r := Run(s.ticker, ops[1..]);
      var a := Apply(r.ticker, op);
      assert s.events + (r.events + a.events) == (s.events + r.events) + a.events;
    }
  }

  /** The state after the first `j` calls, seen from the state after the first call. */
  lemma RunTakeCons(t: Ticker, ops: seq<Op>, j: nat)
    requires 0 < j <= |ops|
    ensures Run(t, ops[..j]).ticker == Run(Apply(t, ops[0]).ticker, ops[1..][..j - 1]).ticker
  {
    assert ops[..j][0] == ops[0] && ops[..j][1..] == ops[1..][..j - 1];
  }

  /**
    With a callback, the callback runs exactly once per call, and the j-th report
    is the one call j builds from the state left by the calls before it.
   */
  lemma {:induction false} RunReports(t: Ticker, ops: seq<Op>)
    requires t.hasCallback
    ensures |Reports(Run(t, ops).events)| == |ops|
    ensures forall j :: 0 <= j < |ops| ==>
      Reports(Run(t, ops).events)[j] == ReportFor(Run(t, ops[..j]).ticker, ops[j])
    decreases |ops|
  {
    if ops != [] {
      var s := Apply(t, ops[0]);
      var rest := Run(s.ticker, ops[1..]);
      assert Run(t, ops).events == s.events + rest.events;
      ApplyObservers(t, ops[0]);
      ReportsAppend(s.events, rest.events);
      RunReports(s.ticker, ops[1..]);
      var r := Reports(Run(t, ops).events);
      assert r == [ReportFor(t, ops[0])] + Reports(rest.events);
      forall j | 0 <= j < |ops|
        ensures r[j] == ReportFor(Run(t, ops[..j]).ticker, ops[j])
      {
        if j > 0 {
          RunTakeCons(t, ops, j);
          assert r[j] == Reports(rest.events)[j - 1];
          assert ops[j] == ops[1..][j - 1];
        } else {
          assert ops[..0] == [];
        }
      }
    }
  }

  /** Each log line comes right before the report it describes, whatever the calls. */
  lemma {:induction false} RunLogsPrecedeReports(t: Ticker, ops: seq<Op>)
    ensures LogsPrecedeReports(Run(t, ops).events)
    decreases |ops|
  {
    if ops != [] {
      var s := Apply(t, ops[0]);
      ApplyObservers(t, ops[0]);
      RunLogsPrecedeReports(s.ticker, ops[1..]);
      LogsPrecedeReportsAppend(s.events, Run(s.ticker, ops[1..]).events);
    }
  }

  /** `k` calls of `done` leave the ticker as it was and emit the same events `k` times. */
  lemma {:induction false} DoneRepeated(t: Ticker, k: nat)
    ensures Run(t, seq(k, _ => MarkDone)).ticker == t
    ensures Reports(Run(t, seq(k, _ => MarkDone)).events)
         == seq(if t.hasCallback then k else 0, _ => SnapshotOf(t.description, t.numTotal, t.numTotal))
    decreases k
  {
    if k > 0 {
      var ops := seq(k, _ => MarkDone);
      var tail := seq(k - 1, _ => MarkDone);
      assert ops[0] == MarkDone && ops[1..] == tail;
      var s := Done(t);
      var rest := Run(t, tail);
      assert Run(t, ops) == Step(rest.ticker, s.events + rest.events);
      DoneRepeated(t, k - 1);
      DoneObservers(t);
      ReportsAppend(s.events, rest.events);
      var p := SnapshotOf(t.description, t.numTotal, t.numTotal);
      if t.hasCallback {
        assert seq(k, _ => p) == [p] + seq(k - 1, _ => p);
      }
    }
  }

  /** The scenario of three unit ticks on a ticker "Loading " with total 3. */
  lemma LoadingScenario()
    ensures Run(NewTicker(true, 3, "Loading "), [TickBy(1), TickBy(1), TickBy(1)]).events == [
      Log(LogRecord("Loading ", 1, 3)), Report(Snapshot(None, Some("Loading "), Some(3), Some(1))),
      Log(LogRecord("Loading ", 2, 3)), Report(Snapshot(None, Some("Loading "), Some(3), Some(2))),
      Log(LogRecord("Loading ", 3, 3)), Report(Snapshot(None, Some("Loading "), Some(3), Some(3)))]
    ensures var e := Run(NewTicker(true, 3, "Loading "), [TickBy(1), TickBy(1), TickBy(1)]).events;
      && e[0].record.Message() == "Loading 1/3"
      && e[2].record.Message() == "Loading 2/3"
      && e[4].record.Message() == "Loading 3/3"
  {
  }
}
