# Progress ticker model

A Dafny model of the progress-reporting core of GraphRAG's logger,
`graphrag/logger/progress.py`:

- the `Progress` record (`Progress.Snapshot`);
- `ProgressTicker`: its constructor, `ticker(n)` and `ticker.done()`
  (`Progress.NewTicker`, `Progress.Tick`, `Progress.Done`);
- the `progress_ticker` factory (`Progress.MakeTicker`);
- the `progress_iterable` generator (`ProgressIteration`).

The callback and the logger are observers, so they are not called. Each
operation returns the new ticker state together with the events the
observers would have seen, in order:

- `Log(record)` for each `logger.info` call. The source passes the format
  `"%s%s/%s"` the description, `str(completed)` and `str(total)`. The record
  keeps the description and the two integers. `LogRecord.Message()` renders
  the integers as `str` does and produces the text a handler writes,
  `description + str(completed) + "/" + str(total)`.
- `Report(snapshot)` for each callback invocation.

Only whether a callback is present affects the ticker, so the callback is a
flag. `Run` replays a sequence of calls (`TickBy(n)` / `MarkDone`) and
concatenates what they emit.

The generator is modelled as a state over a fixed source: a ticker and a
position. `Next` is one pull by the consumer: it ticks by one, then yields
the element, or it stops without ticking when the source is exhausted.
`Pull(source, g, k)` is what `k` pulls yield and emit. Laziness is therefore
a statement about prefixes: after `k` pulls exactly `k` ticks have fired.

Python's `str(int)` is modelled by `Decimal.IntToString`. A parser is proved
to invert it in both directions. So, together with the ticker's description,
a logged message determines the count and the total it was written for.
Without the description it does not: `Progress.MessageNeedsDescription` shows
two different records that both render as "Loading 12/3".

Files:

- `optional.dfy`: `Option`.
- `decimal.dfy`: decimal rendering and parsing of integers.
- `progress.dfy`: the record, the ticker, the factory and the trace
  observers.
- `iterable.dfy`: `progress_iterable`.

## Model

| member | source | states |
|---|---|---|
| Progress.NewTicker | graphrag/logger/progress.py:44-50 | A new ticker has completed count 0. It keeps the callback's presence, the total and the description exactly as given, with no check on the total. |
| Progress.MakeTicker | graphrag/logger/progress.py:79-83 | `progress_ticker` yields the very ticker the constructor yields for the same arguments. |
| Progress.Tick | graphrag/logger/progress.py:52-65 | The count grows by exactly `n` with no clamp against the total, for any `n`, including negative ones. Callback, description and total never change. Without a callback nothing is emitted. With a callback, the last event is the one report of (total, new count, description) with no percent. A log of (description, new count, total) comes before it if and only if the description is non-empty. |
| Progress.TickObservers | graphrag/logger/progress.py:52-65 | A tick hands the callback one snapshot when there is a callback and none otherwise. It logs one record exactly when there is a callback and a non-empty description. Its trace keeps every log record directly before the report it describes. |
| Progress.Done | graphrag/logger/progress.py:67-76 | `done` leaves the ticker unchanged: the count is not moved to the total. With a callback it emits exactly one report whose completed count equals the total. Without one it emits nothing. |
| Progress.DoneObservers | graphrag/logger/progress.py:67-76 | `done` never logs, and reports the completed == total snapshot only when there is a callback. |
| Progress.DoneRepeated | graphrag/logger/progress.py:67-76 | `k` calls of `done` leave the ticker as it was and report `k` identical completed == total snapshots (none without a callback). |
| Progress.LogLineRoundTrip | graphrag/logger/progress.py:61-64 | The message `LogRecord.Message` renders, `description + str(completed) + "/" + str(total)` (the `"%s%s/%s"` formatting of lines 62-64), parses back to exactly that completed count and total when the ticker's description is given. |
| Progress.MessageNeedsDescription | graphrag/logger/progress.py:62-64 | Two different records, `("Loading 1", 2, 3)` and `("Loading ", 12, 3)`, log the same text "Loading 12/3". A line alone, without the description, does not determine the count. |
| Progress.LogsPrecedeReportsPositions | graphrag/logger/progress.py:61-65 | The recursive statement of "every log record is immediately followed by the report it describes" agrees on every trace with the position-by-position statement. |
| Progress.RunKeepsConfiguration | graphrag/logger/progress.py:44-76 | No sequence of ticks and `done` calls changes the callback, the description or the total. |
| Progress.RunCount | graphrag/logger/progress.py:52-76 | After any sequence of calls the count has moved by exactly the sum of the tick amounts; `done` contributes nothing. |
| Progress.RunSilentWithoutCallback | graphrag/logger/progress.py:52-76 | Without a callback no sequence of calls reports or logs anything. |
| Progress.RunReports | graphrag/logger/progress.py:52-76 | With a callback, every call reports exactly once. The j-th report is the snapshot call j builds from the state the earlier calls left: for a tick, the post-increment count; for `done`, the total. |
| Progress.RunLogsPrecedeReports | graphrag/logger/progress.py:52-76 | In the trace of any sequence of calls, each log record comes immediately before the report with the same description, count and total. |
| Progress.LoadingScenario | graphrag/logger/progress.py:52-65 | Three unit ticks on a ticker with a callback, total 3 and description "Loading " emit log, report, log, report, log, report for the counts 1, 2, 3. The messages read "Loading 1/3", "Loading 2/3", "Loading 3/3". |
| Decimal.IntToString | graphrag/logger/progress.py:63 | `str(i)` is a canonical decimal numeral: digits with no leading zero, a '-' exactly when `i` is negative, and never a '/'. |
| Decimal.IntRoundTrip | graphrag/logger/progress.py:63 | The decimal rendering of an integer (`str`) parses back to that integer. |
| Decimal.CanonicalIntRoundTrip | graphrag/logger/progress.py:63 | Every canonical decimal numeral is the rendering of the integer it parses to, so rendering is onto the canonical numerals. |
| ProgressIteration.Start | graphrag/logger/progress.py:93-96 | Before the first pull the generator is at position 0. Its ticker has count 0, the given callback and description, and the explicit total if one was given, otherwise the length of the source. |
| ProgressIteration.RunUnitTicks | graphrag/logger/progress.py:52-65 | `n` calls `ticker(1)` on a fresh ticker reach count `n` and emit exactly the unit-tick trace used to describe the generator. |
| ProgressIteration.Next | graphrag/logger/progress.py:98-100 | A pull on a generator that is not exhausted ticks its ticker by one, emits exactly that tick's events and yields the element at its position. A pull on an exhausted generator yields nothing, emits nothing and changes nothing. |
| ProgressIteration.PullGen | graphrag/logger/progress.py:96-100 | After `k` pulls of a fresh generator (at most the source's length), it stands at position `k` and its ticker has count `k`, with the same callback, description and total. |
| ProgressIteration.PullItems | graphrag/logger/progress.py:98-100 | After `k` pulls (at most the source's length), the elements yielded are exactly the first `k` elements of the source, in order and unchanged. |
| ProgressIteration.PullEvents | graphrag/logger/progress.py:96-100 | After `k` pulls (at most the source's length), the events emitted are exactly those of `k` unit ticks on a fresh ticker. |
| ProgressIteration.UnitTraceReports | graphrag/logger/progress.py:52-65 | `n` unit ticks on a fresh ticker with a callback report the counts 1, 2, ..., n, each with the fixed description and total. Without a callback they report nothing. |
| ProgressIteration.PullPastEnd | graphrag/logger/progress.py:98-100 | Once the source is exhausted, a further pull yields nothing, emits nothing and leaves the state unchanged: no tick and no `done`. |
| ProgressIteration.PullState | graphrag/logger/progress.py:93-100 | After `k` pulls (at most `|xs|`), the generator has yielded `xs[..k]`, its ticker has count `k` and the total, and it has emitted exactly `k` unit ticks' events. The total is the explicit one if given, otherwise `|xs|`. |
| ProgressIteration.ProgressIterable | graphrag/logger/progress.py:86-100 | Iterating to the end yields `xs` unchanged. It emits exactly the events of `\|xs\|` calls `ticker(1)` on the ticker it builds. With a callback there is exactly one report per element; the k-th has completed count k and the ticker's total, and none follows the last. Log records for counts 1..n appear exactly when there is a callback and a description, each directly before its report. The final count is `|xs|`. The total is the explicit value if one was given, otherwise `|xs|`. |
| ProgressIteration.LazyPrefix | graphrag/logger/progress.py:98-100 | After `k` pulls of a fresh generator (at most `\|xs\|`), the consumer has `xs[..k]`. The events so far are a prefix of the full iteration's events. With a callback they hold exactly `k` reports, for counts 1..k; without one they hold none. |
| ProgressIteration.ThreeElementScenario | graphrag/logger/progress.py:86-100 | Wrapping a three-element list with a callback, no total and no description yields the list and emits exactly three reports (total 3; counts 1, 2, 3) and no log line. |

## Left out

- Logging machinery: logger name, level, handlers, filtering and the time of
  formatting. A log event carries the record's arguments, and `Message`
  renders the text.
- Callback identity, its return value and any exception it raises are not
  modelled. In the source, a raising callback would leave the count already
  incremented and the log line already written.
- `Progress.percent` is never set by this code, so the model keeps it `None`
  everywhere; the float type is modelled as `real`.
- One-shot iterators are not modelled; the source is a finite sequence that
  can be walked twice. Line 94 computes the missing total with
  `len(list(iterable))`. On a one-shot iterator that consumes the elements,
  so the generator then yields nothing. Infinite iterables are left out too.
  The source is also taken to be unchanged during iteration: a list the
  consumer mutates between pulls is not modelled, although the `for` at line
  98 would see the change while the total computed at line 94 would not.
- Python's deferred start of a generator body is not modelled. The total is
  computed and the ticker constructed only on the first pull, but neither
  step emits anything, so `Start` builds the state eagerly.
- Closing or abandoning a generator part way through is not modelled beyond
  the prefix statements of `LazyPrefix`.
- Default arguments (`num_ticks=1`, `description=""`, `num_total=None`) are
  explicit parameters.
- Type checks are not modelled: the source does not check that `num_total`
  and `num_ticks` are integers.
- Decimal.IntToString: the digit limit of `str(int)` in recent CPython is not modelled. `sys.int_max_str_digits`
  (4300 by default) makes `str` raise `ValueError` above it. At line 63 that
  error would leave `ticker(n)` with the count already raised at line 54,
  before anything is logged and before the callback at line 65 runs. The
  model always logs and reports.
- Concurrency and re-entrant calls from inside the callback are not
  modelled; every call is atomic in the model.
