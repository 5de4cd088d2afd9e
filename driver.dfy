/** The consumer's main loop: poll, decode, append to `weather_data`, and on
    every fifth record rebuild the snapshot, number a chart and render it,
    until 60 records are held. `Next` and `Replay` are the loop as functions;
    the class `Consumer` is the loop as the script runs it, on mutable state. */
module Driver {
  import opened Analysis

  /** `max_messages`: the loop runs while fewer records are buffered. */
  const MaxMessages: nat := 60

  /** A snapshot is built whenever the buffer length becomes a multiple of this. */
  const Cadence: nat := 5

  /** What one `next(consumer, None)` yields, after UTF-8 and JSON decoding. */
  datatype Poll = Empty | Undecodable | Decoded(record: Record)

  /** What one loop iteration did. Every event but `Stored` matches a log
      line of the script; `Stored` is an append at a length that is not a
      multiple of `Cadence`, which the script does silently. */
  datatype Event =
    | NoMessage
    | DecodeError
    | Stored(count: nat)
    | SnapshotFailed(count: nat, reason: Failure)
    | NoValidData(count: nat)
    | Charted(count: nat, number: nat, saved: bool)

  /** The loop's state: `weather_data`, `chart_count`, and the chart files written. */
  datatype State = State(buffer: seq<Record>, chartCount: nat, charts: seq<Chart>)

  datatype Outcome = Outcome(next: State, event: Event)

  const Initial: State := State([], 0, [])

  /** An event that built a snapshot. */
  predicate IsBuild(e: Event)
  {
    e.SnapshotFailed? || e.NoValidData? || e.Charted?
  }

  /** Whether `generate_chart` gets as far as saving the file: the table has a
      `city` column (otherwise `df['city']` raises) and plotting succeeds. */
  predicate Saves(buffer: seq<Record>, chart: Chart, lib: Lib)
    ensures Saves(buffer, chart, lib) ==> buffer != [] && lib.renderOk(chart)
    ensures (forall i | 0 <= i < |buffer| :: "city" !in buffer[i]) ==> !Saves(buffer, chart, lib)
  {
    HasColumn(buffer, "city") && lib.renderOk(chart)
  }

  /** One iteration of the loop body, entered only while the buffer holds
      fewer than `MaxMessages` records. Any exception in the body is caught
      after the append, so a failed build or render leaves the record buffered. */
  function Next(s: State, p: Poll, lib: Lib): (o: Outcome)
    requires |s.buffer| < MaxMessages
    ensures !p.Decoded? ==> o.next == s
    ensures p.Decoded? ==> o.next.buffer == s.buffer + [p.record]
    ensures IsBuild(o.event) <==> p.Decoded? && |o.next.buffer| % Cadence == 0
  {
    match p
    case Empty => Outcome(s, NoMessage)
    case Undecodable => Outcome(s, DecodeError)
    case Decoded(r) =>
      var buffer := s.buffer + [r];
      if |buffer| % Cadence != 0 then Outcome(s.(buffer := buffer), Stored(|buffer|))
      else Refresh(s.(buffer := buffer), lib)
  }

  /** The body of the `if len(weather_data) % 5 == 0` block, on a state whose
      buffer already holds the new record: build the snapshot and, when it has
      rows, take the next chart number and render. */
  function Refresh(s: State, lib: Lib): (o: Outcome)
    ensures o.next.buffer == s.buffer
    ensures IsBuild(o.event)
  {
    match Build(s.buffer, lib)
    case Failed(why) => Outcome(s, SnapshotFailed(|s.buffer|, why))
    case Built(rows) =>
      if rows == [] then Outcome(s, NoValidData(|s.buffer|)) else Draw(s, rows, lib)
  }

  /** `chart_count += 1` followed by `generate_chart` on the filtered rows:
      the number is taken first, and the file is added only when rendering
      succeeds. */
  function Draw(s: State, rows: seq<Row>, lib: Lib): (o: Outcome)
    ensures o.next.buffer == s.buffer && o.next.chartCount == s.chartCount + 1
    ensures o.event.Charted? && o.event.number == o.next.chartCount
  {
    var number := s.chartCount + 1;
    var chart := Chart(number, Group(rows));
    var saved := Saves(s.buffer, chart, lib);
    Outcome(State(s.buffer, number, if saved then s.charts + [chart] else s.charts), Charted(|s.buffer|, number, saved))
  }

  /** A chart number is used exactly when a build at a multiple of `Cadence`
      succeeds with at least one row; the number is taken before rendering,
      and the file is added only when rendering succeeds. */
  lemma NextCharts(s: State, p: Poll, lib: Lib)
    requires |s.buffer| < MaxMessages
    ensures var o := Next(s, p, lib);
            var b := Build(o.next.buffer, lib);
            (o.event.Charted? <==> IsBuild(o.event) && b.Built? && b.rows != []) &&
            o.next.chartCount == (if o.event.Charted? then s.chartCount + 1 else s.chartCount) &&
            (o.event.Charted? ==> o.event.number == o.next.chartCount) &&
            o.next.charts == if o.event.Charted? && o.event.saved
                             then s.charts + [Chart(o.next.chartCount, Group(b.rows))]
                             else s.charts
  {
  }

  /** The chart files carry distinct numbers from 1 to the chart count, in increasing order. */
  predicate ChartsNumbered(charts: seq<Chart>, count: nat)
  {
    (forall i | 0 <= i < |charts| :: 1 <= charts[i].number <= count) &&
    (forall i, j | 0 <= i < j < |charts| :: charts[i].number < charts[j].number)
  }

  /** What the loop keeps true: at most `MaxMessages` records, at most one
      chart number per `Cadence` records, and well-numbered chart files. */
  predicate Inv(s: State)
  {
    |s.buffer| <= MaxMessages &&
    s.chartCount <= |s.buffer| / Cadence &&
    ChartsNumbered(s.charts, s.chartCount)
  }

  /** Numbered chart files are never more than the chart count: a render
      failure uses up a number without writing a file. */
  lemma {:induction false} NumberedBound(charts: seq<Chart>, count: nat)
    requires ChartsNumbered(charts, count)
    ensures |charts| <= count
  {
    if charts != [] {
      var last := charts[|charts| - 1].number;
      NumberedBound(charts[..|charts| - 1], last - 1);
    }
  }

  /** One iteration keeps the invariant. */
  lemma {:induction false} NextKeepsInv(s: State, p: Poll, lib: Lib)
    requires Inv(s) && |s.buffer| < MaxMessages
    ensures Inv(Next(s, p, lib).next)
  {
    var o := Next(s, p, lib);
    if o.event.Charted? {
      assert |s.buffer| / Cadence + 1 == |o.next.buffer| / Cadence;
      NextCharts(s, p, lib);
      NumberedExtend(s.charts, s.chartCount, Chart(o.next.chartCount, Group(Build(o.next.buffer, lib).rows)));
    }
  }

  /** A new chart file numbered one past the count keeps the files well
      numbered under the raised count, and so does writing no file. */
  lemma NumberedExtend(charts: seq<Chart>, count: nat, chart: Chart)
    requires ChartsNumbered(charts, count) && chart.number == count + 1
    ensures ChartsNumbered(charts, count + 1)
    ensures ChartsNumbered(charts + [chart], count + 1)
  {
  }

  /** The loop from state `s` over the polls `polls`: it stops when the
      buffer holds `MaxMessages` records or the polls run out. */
  function Replay(s: State, polls: seq<Poll>, lib: Lib): (t: State)
    ensures |s.buffer| <= |t.buffer|
    ensures |s.buffer| <= MaxMessages ==> |t.buffer| <= MaxMessages
    ensures polls == [] ==> t == s
    decreases |polls|
  {
    if polls == [] || |s.buffer| >= MaxMessages then s
    else Replay(Next(s, polls[0], lib).next, polls[1..], lib)
  }

  /** The events of the same run, one per iteration. */
  function Trace(s: State, polls: seq<Poll>, lib: Lib): (events: seq<Event>)
    ensures |events| <= |polls|
    ensures |s.buffer| >= MaxMessages ==> events == []
    decreases |polls|
  {
    if polls == [] || |s.buffer| >= MaxMessages then []
    else
      var o := Next(s, polls[0], lib);
      [o.event] + Trace(o.next, polls[1..], lib)
  }

  /** A run that has not stopped is its first iteration followed by the run
      over the remaining polls. */
  lemma RunUnfold(s: State, polls: seq<Poll>, lib: Lib)
    requires polls != [] && |s.buffer| < MaxMessages
    ensures var o := Next(s, polls[0], lib);
            Replay(s, polls, lib) == Replay(o.next, polls[1..], lib) &&
            Trace(s, polls, lib) == [o.event] + Trace(o.next, polls[1..], lib)
  {
  }

  /** The records of the decodable polls, in arrival order. */
  function Records(polls: seq<Poll>): seq<Record>
  {
    if polls == [] then []
    else (if polls[0].Decoded? then [polls[0].record] else []) + Records(polls[1..])
  }

  function Min(a: nat, b: nat): nat
  {
    if a <= b then a else b
  }

  /** The number of snapshot builds among `events`. */
  function Builds(events: seq<Event>): nat
  {
    if events == [] then 0 else (if IsBuild(events[0]) then 1 else 0) + Builds(events[1..])
  }

  /** A run keeps the invariant. */
  lemma {:induction false} ReplayKeepsInv(s: State, polls: seq<Poll>, lib: Lib)
    requires Inv(s)
    ensures Inv(Replay(s, polls, lib))
    decreases |polls|
  {
    if polls != [] && |s.buffer| < MaxMessages {
      NextKeepsInv(s, polls[0], lib);
      ReplayKeepsInv(Next(s, polls[0], lib).next, polls[1..], lib);
    }
  }

  /** The buffer gains the decoded records in arrival order, up to
      `MaxMessages` and no further; empty and undecodable polls add nothing. */
  lemma {:induction false} ReplayBuffer(s: State, polls: seq<Poll>, lib: Lib)
    requires |s.buffer| <= MaxMessages
    ensures Replay(s, polls, lib).buffer == s.buffer + Records(polls)[..Min(|Records(polls)|, MaxMessages - |s.buffer|)]
    decreases |polls|
  {
    if polls != [] && |s.buffer| < MaxMessages {
      var next := Next(s, polls[0], lib).next;
      var rest := Records(polls[1..]);
      var m := Min(|rest|, MaxMessages - |next.buffer|);
      assert Replay(s, polls, lib) == Replay(next, polls[1..], lib);
      ReplayBuffer(next, polls[1..], lib);
      if polls[0].Decoded? {
        var r := polls[0].record;
        assert next.buffer == s.buffer + [r];
        assert Records(polls) == [r] + rest;
        assert Min(|Records(polls)|, MaxMessages - |s.buffer|) == m + 1;
        assert Records(polls)[..m + 1] == [r] + rest[..m];
        assert s.buffer + ([r] + rest[..m]) == next.buffer + rest[..m];
      } else {
        assert next == s;
        assert Records(polls) == rest;
      }
    }
  }

  /** The chart count and the list of chart files only grow during a run. */
  lemma {:induction false} ReplayGrows(s: State, polls: seq<Poll>, lib: Lib)
    ensures s.chartCount <= Replay(s, polls, lib).chartCount
    ensures s.charts <= Replay(s, polls, lib).charts
    decreases |polls|
  {
    if polls != [] && |s.buffer| < MaxMessages {
      ReplayGrows(Next(s, polls[0], lib).next, polls[1..], lib);
    }
  }

  /** A snapshot is built exactly once for each multiple of `Cadence` the
      buffer length reaches during the run. */
  lemma {:induction false} ReplayBuilds(s: State, polls: seq<Poll>, lib: Lib)
    ensures Builds(Trace(s, polls, lib)) == |Replay(s, polls, lib).buffer| / Cadence - |s.buffer| / Cadence
    decreases |polls|
  {
    if polls != [] && |s.buffer| < MaxMessages {
      var o := Next(s, polls[0], lib);
      ReplayBuilds(o.next, polls[1..], lib);
      assert |o.next.buffer| / Cadence - |s.buffer| / Cadence == if IsBuild(o.event) then 1 else 0;
    }
  }

  /** The loop exits with exactly `MaxMessages` records when the polls carry
      enough decodable messages, and otherwise has buffered all of them. */
  lemma {:induction false} ReplayExit(s: State, polls: seq<Poll>, lib: Lib)
    requires Inv(s)
    ensures |Replay(s, polls, lib).buffer| == Min(|s.buffer| + |Records(polls)|, MaxMessages)
    ensures Builds(Trace(s, polls, lib)) <= MaxMessages / Cadence
  {
    var t := Replay(s, polls, lib);
    var m := Min(|Records(polls)|, MaxMessages - |s.buffer|);
    ReplayBuffer(s, polls, lib);
    assert |t.buffer| == |s.buffer| + m;
    ReplayBuilds(s, polls, lib);
    assert |t.buffer| <= MaxMessages;
  }

  /** A record that parses cleanly: it has a timestamp key, nothing in it
      raises, and its temperature yields a number. */
  predicate Clean(r: Record, lib: Lib)
  {
    "timestamp" in r && !Poisoned(r, lib) && Temperature(CellOf(r, "temperature"), lib).Kept?
  }

  /** When every record is clean, every build yields rows, so the chart count
      is exactly the buffer length divided by `Cadence`. */
  lemma {:induction false} CleanRunCharts(s: State, polls: seq<Poll>, lib: Lib)
    requires Inv(s) && s.chartCount == |s.buffer| / Cadence
    requires forall i | 0 <= i < |s.buffer| :: Clean(s.buffer[i], lib)
    requires forall i | 0 <= i < |polls| && polls[i].Decoded? :: Clean(polls[i].record, lib)
    ensures Replay(s, polls, lib).chartCount == |Replay(s, polls, lib).buffer| / Cadence
    decreases |polls|
  {
    if polls != [] && |s.buffer| < MaxMessages {
      CleanStep(s, polls[0], lib);
      assert forall i | 0 <= i < |polls[1..]| && polls[1..][i].Decoded? :: Clean(polls[1..][i].record, lib) by {
        assert forall i | 0 <= i < |polls[1..]| :: polls[1..][i] == polls[i + 1];
      }
      CleanRunCharts(Next(s, polls[0], lib).next, polls[1..], lib);
    }
  }

  /** One iteration on a clean buffer and a clean poll keeps the buffer clean
      and the chart count at the buffer length divided by `Cadence`. */
  lemma {:induction false} CleanStep(s: State, p: Poll, lib: Lib)
    requires Inv(s) && s.chartCount == |s.buffer| / Cadence && |s.buffer| < MaxMessages
    requires forall i | 0 <= i < |s.buffer| :: Clean(s.buffer[i], lib)
    requires p.Decoded? ==> Clean(p.record, lib)
    ensures var t := Next(s, p, lib).next;
            Inv(t) && t.chartCount == |t.buffer| / Cadence &&
            forall i | 0 <= i < |t.buffer| :: Clean(t.buffer[i], lib)
  {
    var o := Next(s, p, lib);
    NextKeepsInv(s, p, lib);
    var b := o.next.buffer;
    assert forall i | 0 <= i < |b| :: Clean(b[i], lib);
    if p.Decoded? && |b| % Cadence == 0 {
      assert "timestamp" in b[0];
      assert Build(b, lib).Built?;
      RowsEmpty(b, lib);
      assert o.event.Charted?;
    }
  }

  /** Once a poisoned record is buffered, no later build succeeds, so the
      chart count and the chart files stay as they are for the rest of the run. */
  lemma {:induction false} PoisonFreezes(s: State, polls: seq<Poll>, lib: Lib, i: nat)
    requires i < |s.buffer| && Poisoned(s.buffer[i], lib)
    ensures Replay(s, polls, lib).chartCount == s.chartCount
    ensures Replay(s, polls, lib).charts == s.charts
    decreases |polls|
  {
    if polls != [] && |s.buffer| < MaxMessages {
      var o := Next(s, polls[0], lib);
      if polls[0].Decoded? {
        PoisonPersists(s.buffer, [polls[0].record], lib, i);
      }
      assert o.next.buffer[i] == s.buffer[i];
      PoisonFreezes(o.next, polls[1..], lib, i);
    }
  }

  /** When no record, buffered or arriving, carries a usable temperature,
      every build is empty or fails: no chart number is used and no file written. */
  lemma {:induction false} NoTemperatureNoCharts(s: State, polls: seq<Poll>, lib: Lib)
    requires forall i | 0 <= i < |s.buffer| :: !Temperature(CellOf(s.buffer[i], "temperature"), lib).Kept?
    requires forall i | 0 <= i < |polls| && polls[i].Decoded? :: !Temperature(CellOf(polls[i].record, "temperature"), lib).Kept?
    ensures Replay(s, polls, lib).chartCount == s.chartCount
    ensures Replay(s, polls, lib).charts == s.charts
    decreases |polls|
  {
    if polls != [] && |s.buffer| < MaxMessages {
      var o := Next(s, polls[0], lib);
      var b := o.next.buffer;
      assert forall i | 0 <= i < |b| :: !Temperature(CellOf(b[i], "temperature"), lib).Kept?;
      RowsEmpty(b, lib);
      assert forall i | 0 <= i < |polls[1..]| :: polls[1..][i] == polls[i + 1];
      NoTemperatureNoCharts(o.next, polls[1..], lib);
    }
  }

  /** The consumer script's module-level state and loop. */
  class Consumer {
    const lib: Lib
    var weatherData: seq<Record>
    var chartCount: nat
    var charts: seq<Chart>

    function Model(): State
      reads this
    {
      State(weatherData, chartCount, charts)
    }

    ghost predicate Valid()
      reads this
    {
      Inv(Model())
    }

    constructor (lib: Lib)
      ensures Valid() && Model() == Initial && this.lib == lib
    {
      this.lib := lib;
      weatherData, chartCount, charts := [], 0, [];
    }

    /** One pass of the loop body on a poll. */
    method Step(p: Poll) returns (e: Event)
      requires Valid() && |weatherData| < MaxMessages
      modifies this
      ensures Valid()
      ensures Outcome(Model(), e) == Next(old(Model()), p, lib)
    {
      ghost var before := Model();
      NextKeepsInv(before, p, lib);
      match p {
        case Empty =>
          e := NoMessage;
        case Undecodable =>
          e := DecodeError;
        case Decoded(r) =>
          weatherData := weatherData + [r];
          if |weatherData| % Cadence != 0 {
            e := Stored(|weatherData|);
          } else {
            e := RefreshCharts();
          }
      }
    }

    /** The snapshot block on the mutable state: the chart count and the chart
        files change as `Refresh` says. */
    method RefreshCharts() returns (e: Event)
      modifies this
      ensures Outcome(Model(), e) == Refresh(old(Model()), lib)
    {
      var n := |weatherData|;
      var snapshot := Build(weatherData, lib);
      match snapshot {
        case Failed(why) =>
          e := SnapshotFailed(n, why);
        case Built(rows) =>
          if rows == [] {
            e := NoValidData(n);
          } else {
            e := DrawChart(rows);
          }
      }
    }

    /** Numbering and rendering a chart on the mutable state. */
    method DrawChart(rows: seq<Row>) returns (e: Event)
      modifies this
      ensures Outcome(Model(), e) == Draw(old(Model()), rows, lib)
    {
      var number := chartCount + 1;
      var chart := Chart(number, Group(rows));
      var saved := Saves(weatherData, chart, lib);
      chartCount := number;
      if saved {
        charts := charts + [chart];
      }
      e := Charted(|weatherData|, number, saved);
    }

    /** The `while len(weather_data) < max_messages` loop over a finite run of
        polls: it stops at `MaxMessages` records or when the polls run out,
        and ends in the state and with the events the functional model gives. */
    method Run(polls: seq<Poll>) returns (used: nat, log: seq<Event>)
      requires Valid()
      modifies this
      ensures Valid() && used <= |polls|
      ensures used == |polls| || |weatherData| == MaxMessages
      ensures Model() == Replay(old(Model()), polls, lib)
      ensures log == Trace(old(Model()), polls, lib)
    {
      used, log := 0, [];
      while |weatherData| < MaxMessages && used < |polls|
        invariant Valid() && used <= |polls|
        invariant Replay(old(Model()), polls, lib) == Replay(Model(), polls[used..], lib)
        invariant Trace(old(Model()), polls, lib) == log + Trace(Model(), polls[used..], lib)
        decreases |polls| - used
      {
        RunUnfold(Model(), polls[used..], lib);
        assert polls[used..][1..] == polls[used + 1..];
        var e := Step(polls[used]);
        log := log + [e];
        used := used + 1;
      }
    }
  }
}
