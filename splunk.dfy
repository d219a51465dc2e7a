/**
 Ingestion from Splunk, geode/splunk.py: the byte copy `readinto` of the
 response wrapper, and the control of `Splunk.search`, which walks from the
 last time searched up to `latest_time` in windows of at most five minutes
 and re-queries a window from the last result seen while a job returns a
 full page. The Splunk jobs themselves are an abstract `source` from a query
 window to the page it returns.
 */
module Ingest {
  import opened Values
  import opened TimeUtils

  newtype byte = x: int | 0 <= x < 256

  // ---------------------------------------------------------------------
  // ResponseReaderWrapper
  // ---------------------------------------------------------------------

  /** The wrapper around a Splunk response stream; `pending` holds the bytes
      the response has not delivered yet. */
  class ResponseReaderWrapper {
    var pending: seq<byte>

    constructor (response: seq<byte>)
      ensures pending == response
    {
      pending := response;
    }

    /** `read(n)`: the next `n` bytes of the response, or all that are left. */
    method Read(n: nat) returns (data: seq<byte>)
      modifies this
      ensures data == old(pending)[..Min(n, |old(pending)|)]
      ensures pending == old(pending)[|data|..]
    {
      data := pending[..Min(n, |pending|)];
      pending := pending[|data|..];
    }

    /** `readinto(b)`: reads at most `len(b)` bytes, copies them to the front
        of `b`, and returns how many there were. The rest of `b` is untouched,
        and no byte of the response is lost or repeated. */
    method ReadInto(b: array<byte>) returns (n: nat)
      modifies this, b
      ensures n == Min(b.Length, |old(pending)|)
      ensures b[..n] == old(pending)[..n]
      ensures b[n..] == old(b[n..])
      ensures old(pending) == b[..n] + pending
    {
      var size := b.Length;
      var data := Read(size);
      assert old(pending) == data + pending;
      var idx := 0;
      while idx < |data|
        invariant 0 <= idx <= |data| <= b.Length
        invariant b[..idx] == data[..idx]
        invariant forall j | idx <= j < b.Length :: b[j] == old(b[j])
        invariant old(pending) == data + pending
      {
        b[idx] := data[idx];
        idx := idx + 1;
      }
      assert b[..|data|] == data;
      return |data|;
    }
  }

  // ---------------------------------------------------------------------
  // Search windows and pagination
  // ---------------------------------------------------------------------

  /** The longest window, in seconds, searched at once while catching up. */
  const Span := 300

  /** The `earliest_time` and `latest_time` arguments of one job. */
  datatype Window = Window(earliest: TimeText, latest: TimeText)

  /** What a job returns: the `start` of each result, in the order the reader
      yields them, and the job's `resultCount`. */
  datatype Page = Page(starts: seq<TimeText>, resultCount: int)

  /** The jobs run, in order, the starts of the results yielded, in order, and
      whether the generator finished. */
  datatype Trace = Trace(windows: seq<Window>, yielded: seq<TimeText>, done: bool)

  /** The end of one catch-up window and whether it reaches `latest_time`. */
  datatype Bound = Bound(end: TimeText, caughtUp: bool)

  /** `earliest_time` as read from the configuration, or five minutes before
      `latest_time` when none is stored. */
  function InitialEarliest(stored: Option<TimeText>, latest: TimeText): (e: TimeText)
    ensures stored.Some? ==> e == stored.value
    ensures stored.None? ==> ReturnDifference(e, latest) == Span
  {
    if stored.Some? then stored.value else TimeDiffString(latest, -Span)
  }

  /** The window searched next from `earliest`: five minutes when more than
      that remains, otherwise up to `latest_time`, which sets `caught_up`. */
  function WindowEnd(earliest: TimeText, latest: TimeText): (b: Bound)
    ensures b.caughtUp <==> ReturnDifference(earliest, latest) <= Span
    ensures b.caughtUp ==> b.end == latest
    ensures !b.caughtUp ==> ReturnDifference(earliest, b.end) == Span
    ensures StringToDto(b.end) <= StringToDto(latest)
    ensures ReturnDifference(earliest, b.end) <= Span
  {
    if ReturnDifference(earliest, latest) > Span then Bound(TimeDiffString(earliest, Span), false)
    else Bound(latest, true)
  }

  /** `earliest_time` after a page: the start of the last result yielded, or
      unchanged when the page was empty. */
  function LastStart(starts: seq<TimeText>, earliest: TimeText): (s: TimeText)
    ensures starts == [] ==> s == earliest
    ensures starts != [] ==> s == starts[|starts| - 1] && s in starts
    ensures (forall i | 0 <= i < |starts| :: StringToDto(earliest) <= StringToDto(starts[i])) ==>
              StringToDto(earliest) <= StringToDto(s)
  {
    if starts == [] then earliest else starts[|starts| - 1]
  }

  function Then(windows: seq<Window>, yielded: seq<TimeText>, rest: Trace): Trace {
    Trace(windows + rest.windows, yielded + rest.yielded, rest.done)
  }

  /** The inner loop from a job over `[earliest, bound.end]`, with at most
      `fuel` jobs: a full page re-queries from the last start seen, a short
      one ends the window. */
  function Query(source: Window -> Page, maxEvents: int, latest: TimeText,
                 earliest: TimeText, bound: Bound, fuel: nat): (t: Trace)
    decreases fuel, 0
    ensures |t.windows| <= fuel
    ensures t.done ==>
              && t.windows != []
              && t.windows[|t.windows| - 1].latest == (if bound.caughtUp then bound.end else latest)
  {
    if fuel == 0 then Trace([], [], false)
    else
      var w := Window(earliest, bound.end);
      var p := source(w);
      var next := LastStart(p.starts, earliest);
      var rest :=
        if p.resultCount >= maxEvents then Query(source, maxEvents, latest, next, bound, fuel - 1)
        else if bound.caughtUp then Trace([], [], true)
        else Catchup(source, maxEvents, latest, next, fuel - 1);
      Then([w], p.starts, rest)
  }

  /** One turn of the outer loop and what follows, from `earliest`. */
  function Catchup(source: Window -> Page, maxEvents: int, latest: TimeText,
                   earliest: TimeText, fuel: nat): (t: Trace)
    decreases fuel, 1
    ensures |t.windows| <= fuel
    ensures t.done ==> t.windows != [] && t.windows[|t.windows| - 1].latest == latest
  {
    Query(source, maxEvents, latest, earliest, WindowEnd(earliest, latest), fuel)
  }

  /** The whole of `search`, up to `fuel` jobs. */
  function SearchTrace(source: Window -> Page, maxEvents: int, stored: Option<TimeText>,
                       latest: TimeText, fuel: nat): Trace
  {
    Catchup(source, maxEvents, latest, InitialEarliest(stored, latest), fuel)
  }

  /** The yield loop over one page: every result is yielded in turn, and
      `earliest_time` follows the start of each. */
  method YieldPage(starts: seq<TimeText>, earliest: TimeText, yielded: seq<TimeText>)
    returns (earliest': TimeText, yielded': seq<TimeText>)
    ensures earliest' == LastStart(starts, earliest)
    ensures yielded' == yielded + starts
  {
    earliest', yielded' := earliest, yielded;
    var i := 0;
    while i < |starts|
      invariant 0 <= i <= |starts|
      invariant earliest' == LastStart(starts[..i], earliest)
      invariant yielded' == yielded + starts[..i]
    {
      earliest' := starts[i];
      yielded' := yielded' + [starts[i]];
      i := i + 1;
    }
    assert starts[..i] == starts;
  }

  /** One job of `Query`, unfolded. */
  lemma QueryStep(source: Window -> Page, maxEvents: int, latest: TimeText,
                  earliest: TimeText, bound: Bound, fuel: nat)
    requires fuel > 0
    ensures var p := source(Window(earliest, bound.end));
            var next := LastStart(p.starts, earliest);
            Query(source, maxEvents, latest, earliest, bound, fuel) ==
              Then([Window(earliest, bound.end)], p.starts,
                   if p.resultCount >= maxEvents then Query(source, maxEvents, latest, next, bound, fuel - 1)
                   else if bound.caughtUp then Trace([], [], true)
                   else Catchup(source, maxEvents, latest, next, fuel - 1))
  {
  }

  lemma ThenThen(w1: seq<Window>, y1: seq<TimeText>, w2: seq<Window>, y2: seq<TimeText>, rest: Trace)
    ensures Then(w1, y1, Then(w2, y2, rest)) == Then(w1 + w2, y1 + y2, rest)
  {
    assert w1 + (w2 + rest.windows) == (w1 + w2) + rest.windows;
    assert y1 + (y2 + rest.yielded) == (y1 + y2) + rest.yielded;
  }

  /** One job of the inner loop, as the loop sees it: the trace so far, then
      this job's window and results, then what the page makes follow. */
  lemma QueryAdvance(source: Window -> Page, maxEvents: int, latest: TimeText,
                     earliest: TimeText, bound: Bound, fuel: nat,
                     windows: seq<Window>, yielded: seq<TimeText>, total: Trace)
    requires fuel > 0
    requires Then(windows, yielded, Query(source, maxEvents, latest, earliest, bound, fuel)) == total
    ensures var w := Window(earliest, bound.end);
            var p := source(w);
            var next := LastStart(p.starts, earliest);
            && (p.resultCount >= maxEvents ==>
                  Then(windows + [w], yielded + p.starts, Query(source, maxEvents, latest, next, bound, fuel - 1)) == total)
            && (p.resultCount < maxEvents && bound.caughtUp ==>
                  Trace(windows + [w], yielded + p.starts, true) == total)
            && (p.resultCount < maxEvents && !bound.caughtUp ==>
                  Then(windows + [w], yielded + p.starts, Catchup(source, maxEvents, latest, next, fuel - 1)) == total)
  {
    var w := Window(earliest, bound.end);
    var p := source(w);
    var next := LastStart(p.starts, earliest);
    var rest :=
      if p.resultCount >= maxEvents then Query(source, maxEvents, latest, next, bound, fuel - 1)
      else if bound.caughtUp then Trace([], [], true)
      else Catchup(source, maxEvents, latest, next, fuel - 1);
    QueryStep(source, maxEvents, latest, earliest, bound, fuel);
    ThenThen(windows, yielded, [w], p.starts, rest);
  }

  /** `Splunk.search(search, latest_time)`, where `stored` is the time kept in
      the configuration for this search and `source` runs a job. At most
      `fuel` jobs are run; `done` tells whether the generator was exhausted. */
  method Search(source: Window -> Page, maxEvents: int, stored: Option<TimeText>,
                latest: TimeText, fuel: nat)
    returns (windows: seq<Window>, yielded: seq<TimeText>, done: bool)
    ensures Trace(windows, yielded, done) == SearchTrace(source, maxEvents, stored, latest, fuel)
  {
    ghost var total := SearchTrace(source, maxEvents, stored, latest, fuel);
    var earliest := InitialEarliest(stored, latest);
    var caughtUp := false;
    var eventsDone := false;
    var jobs := 0;
    windows, yielded := [], [];
    while !caughtUp && jobs < fuel
      invariant jobs <= fuel
      invariant !caughtUp ==>
                  Then(windows, yielded, Catchup(source, maxEvents, latest, earliest, fuel - jobs)) == total
      invariant caughtUp ==> Trace(windows, yielded, eventsDone) == total
      decreases fuel - jobs
    {
      eventsDone := false;
      var searchTime;
      if ReturnDifference(earliest, latest) > Span {
        searchTime := TimeDiffString(earliest, Span);
      } else {
        searchTime := latest;
        caughtUp := true;
      }
      ghost var bound := Bound(searchTime, caughtUp);
      assert bound == WindowEnd(earliest, latest);
      var w := Window(earliest, searchTime);
      ghost var j0 := jobs;
      while !eventsDone && jobs < fuel
        invariant j0 <= jobs <= fuel
        invariant eventsDone ==> j0 < jobs
        invariant !eventsDone ==> w == Window(earliest, bound.end)
        invariant !eventsDone ==>
                    Then(windows, yielded, Query(source, maxEvents, latest, earliest, bound, fuel - jobs)) == total
        invariant eventsDone && !caughtUp ==>
                    Then(windows, yielded, Catchup(source, maxEvents, latest, earliest, fuel - jobs)) == total
        invariant eventsDone && caughtUp ==> Trace(windows, yielded, true) == total
        decreases fuel - jobs
      {
        var p := source(w);
        QueryAdvance(source, maxEvents, latest, earliest, bound, fuel - jobs, windows, yielded, total);
        jobs := jobs + 1;
        earliest, yielded := YieldPage(p.starts, earliest, yielded);
        windows := windows + [w];
        if p.resultCount < maxEvents {
          eventsDone := true;
        } else {
          w := Window(earliest, w.latest);
        }
      }
    }
    done := caughtUp && eventsDone;
  }

  /** With no configured time, the first job searches the last five minutes
      up to `latest_time`, and that window is the last one. */
  lemma DefaultFirstWindow(source: Window -> Page, maxEvents: int, latest: TimeText, fuel: nat)
    requires fuel > 0
    ensures var t := SearchTrace(source, maxEvents, None, latest, fuel);
            |t.windows| > 0 && t.windows[0] == Window(TimeDiffString(latest, -Span), latest)
  {
    var e := TimeDiffString(latest, -Span);
    assert InitialEarliest(None, latest) == e;
    assert WindowEnd(e, latest) == Bound(latest, true);
    QueryFirst(source, maxEvents, latest, e, Bound(latest, true), fuel);
  }

  /** A run with fuel left starts with the job over its own window. */
  lemma QueryFirst(source: Window -> Page, maxEvents: int, latest: TimeText,
                   earliest: TimeText, bound: Bound, fuel: nat)
    requires fuel > 0
    ensures var t := Query(source, maxEvents, latest, earliest, bound, fuel);
            |t.windows| > 0 && t.windows[0] == Window(earliest, bound.end)
  {
  }

  /** What follows the first job of a window: a full page re-queries the same
      window from the last start seen; a short page ends the search when it
      was caught up and otherwise opens the next window from that start. The
      page's results come out first. */
  lemma NextQuery(source: Window -> Page, maxEvents: int, latest: TimeText,
                  earliest: TimeText, bound: Bound, fuel: nat)
    requires fuel >= 2
    ensures var p := source(Window(earliest, bound.end));
            var next := LastStart(p.starts, earliest);
            var t := Query(source, maxEvents, latest, earliest, bound, fuel);
            && t.windows[0] == Window(earliest, bound.end)
            && t.yielded[..|p.starts|] == p.starts
            && (p.resultCount >= maxEvents ==>
                  |t.windows| >= 2 && t.windows[1] == Window(next, bound.end))
            && (p.resultCount < maxEvents && bound.caughtUp ==>
                  t.windows == [Window(earliest, bound.end)] && t.done)
            && (p.resultCount < maxEvents && !bound.caughtUp ==>
                  |t.windows| >= 2 && t.windows[1] == Window(next, WindowEnd(next, latest).end))
  {
    var p := source(Window(earliest, bound.end));
    var next := LastStart(p.starts, earliest);
    var t := Query(source, maxEvents, latest, earliest, bound, fuel);
    assert t.yielded[..|p.starts|] == p.starts;
    if p.resultCount >= maxEvents {
      QueryFirst(source, maxEvents, latest, next, bound, fuel - 1);
    } else if !bound.caughtUp {
      QueryFirst(source, maxEvents, latest, next, WindowEnd(next, latest), fuel - 1);
    }
  }

  /** Every page's results lie within the window asked for. */
  ghost predicate Contained(source: Window -> Page) {
    forall w: Window, i | 0 <= i < |source(w).starts| ::
      StringToDto(w.earliest) <= StringToDto(source(w).starts[i]) <= StringToDto(w.latest)
  }

  /** No job searches past `latest_time`; and, when pages keep to their
      windows, no job searches more than five minutes. */
  lemma {:induction false} QueryBounded(source: Window -> Page, maxEvents: int, latest: TimeText,
                                        earliest: TimeText, bound: Bound, fuel: nat)
    requires StringToDto(bound.end) <= StringToDto(latest)
    ensures forall w | w in Query(source, maxEvents, latest, earliest, bound, fuel).windows ::
              StringToDto(w.latest) <= StringToDto(latest)
    ensures Contained(source) && ReturnDifference(earliest, bound.end) <= Span ==>
              forall w | w in Query(source, maxEvents, latest, earliest, bound, fuel).windows ::
                ReturnDifference(w.earliest, w.latest) <= Span
    decreases fuel, 0
  {
    if fuel > 0 {
      var w := Window(earliest, bound.end);
      var p := source(w);
      var next := LastStart(p.starts, earliest);
      if Contained(source) && p.starts != [] {
        assert StringToDto(w.earliest) <= StringToDto(source(w).starts[|p.starts| - 1]);
      }
      if p.resultCount >= maxEvents {
        QueryBounded(source, maxEvents, latest, next, bound, fuel - 1);
      } else if !bound.caughtUp {
        CatchupBounded(source, maxEvents, latest, next, fuel - 1);
      }
    }
  }

  lemma {:induction false} CatchupBounded(source: Window -> Page, maxEvents: int, latest: TimeText,
                                          earliest: TimeText, fuel: nat)
    ensures forall w | w in Catchup(source, maxEvents, latest, earliest, fuel).windows ::
              StringToDto(w.latest) <= StringToDto(latest)
    ensures Contained(source) ==>
              forall w | w in Catchup(source, maxEvents, latest, earliest, fuel).windows ::
                ReturnDifference(w.earliest, w.latest) <= Span
    decreases fuel, 1
  {
    QueryBounded(source, maxEvents, latest, earliest, WindowEnd(earliest, latest), fuel);
  }

  /** The bounds above, for the whole search. */
  lemma SearchBounded(source: Window -> Page, maxEvents: int, stored: Option<TimeText>,
                      latest: TimeText, fuel: nat)
    ensures forall w | w in SearchTrace(source, maxEvents, stored, latest, fuel).windows ::
              StringToDto(w.latest) <= StringToDto(latest)
    ensures Contained(source) ==>
              forall w | w in SearchTrace(source, maxEvents, stored, latest, fuel).windows ::
                ReturnDifference(w.earliest, w.latest) <= Span
  {
    CatchupBounded(source, maxEvents, latest, InitialEarliest(stored, latest), fuel);
  }

  /** A window more than five minutes behind `latest_time` that holds no
      results is searched again and again: however many jobs are allowed,
      the search never finishes, never moves on and yields nothing. */
  lemma {:induction false} StalledWindowRepeats(source: Window -> Page, maxEvents: int,
                                                latest: TimeText, earliest: TimeText, fuel: nat)
    requires ReturnDifference(earliest, latest) > Span
    requires source(Window(earliest, TimeDiffString(earliest, Span))).starts == []
    ensures var t := Catchup(source, maxEvents, latest, earliest, fuel);
            && !t.done && t.yielded == []
            && forall w | w in t.windows :: w == Window(earliest, TimeDiffString(earliest, Span))
  {
    if fuel > 0 {
      StalledWindowRepeats(source, maxEvents, latest, earliest, fuel - 1);
      var bound := WindowEnd(earliest, latest);
      var w := Window(earliest, bound.end);
      assert LastStart(source(w).starts, earliest) == earliest;
      assert Query(source, maxEvents, latest, earliest, bound, fuel - 1)
          == Catchup(source, maxEvents, latest, earliest, fuel - 1);
    }
  }

  // ---------------------------------------------------------------------
  // The catch-up as evidently intended
  // ---------------------------------------------------------------------

  /** `Query`, except that a window that is done moves the search on to the
      end of that window rather than to the last start seen. */
  function QueryCorrected(source: Window -> Page, maxEvents: int, latest: TimeText,
                          earliest: TimeText, bound: Bound, fuel: nat): Trace
    decreases fuel, 0
  {
    if fuel == 0 then Trace([], [], false)
    else
      var w := Window(earliest, bound.end);
      var p := source(w);
      var rest :=
        if p.resultCount >= maxEvents then
          QueryCorrected(source, maxEvents, latest, LastStart(p.starts, earliest), bound, fuel - 1)
        else if bound.caughtUp then Trace([], [], true)
        else CatchupCorrected(source, maxEvents, latest, bound.end, fuel - 1);
      Then([w], p.starts, rest)
  }

  function CatchupCorrected(source: Window -> Page, maxEvents: int, latest: TimeText,
                            earliest: TimeText, fuel: nat): Trace
    decreases fuel, 1
  {
    QueryCorrected(source, maxEvents, latest, earliest, WindowEnd(earliest, latest), fuel)
  }

  /** The number of windows needed to catch up from `behind` seconds. */
  function WindowsNeeded(behind: int): (n: nat)
    ensures n >= 1
    decreases behind
  {
    if behind <= Span then 1 else 1 + WindowsNeeded(behind - Span)
  }

  /** With the correction, when no page is full the search finishes after one
      job per five-minute window, empty windows included. */
  lemma {:induction false} CorrectedCatchupFinishes(source: Window -> Page, maxEvents: int,
                                                    latest: TimeText, earliest: TimeText, fuel: nat)
    requires forall w {:trigger source(w)} :: source(w).resultCount < maxEvents
    requires fuel >= WindowsNeeded(ReturnDifference(earliest, latest))
    ensures CatchupCorrected(source, maxEvents, latest, earliest, fuel).done
    ensures |CatchupCorrected(source, maxEvents, latest, earliest, fuel).windows| ==
              WindowsNeeded(ReturnDifference(earliest, latest))
    decreases fuel
  {
    var bound := WindowEnd(earliest, latest);
    var w := Window(earliest, bound.end);
    var p := source(w);
    assert p.resultCount < maxEvents;
    var t := CatchupCorrected(source, maxEvents, latest, earliest, fuel);
    assert fuel > 0;
    assert t == QueryCorrected(source, maxEvents, latest, earliest, bound, fuel);
    if bound.caughtUp {
      assert t == Then([w], p.starts, Trace([], [], true));
    } else {
      assert ReturnDifference(bound.end, latest) == ReturnDifference(earliest, latest) - Span;
      CorrectedCatchupFinishes(source, maxEvents, latest, bound.end, fuel - 1);
      assert t == Then([w], p.starts, CatchupCorrected(source, maxEvents, latest, bound.end, fuel - 1));
    }
  }
}
