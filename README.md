# geode session reconciliation, modelled in Dafny

geode folds network-identity observations into durable session rows. An
observation pulled from Splunk carries a mac and/or an ip, a netid,
hostname, user agent, os, a set of event kinds and a `[start, stop]`
interval. The model covers five parts:

- **Event record** (`geode/event.py`, module `Events`): the kind-name ↔
  kind-code tables, the normalising constructor, the conflict check `match`
  (every caller spells it `matches`) and `merge`.
- **Session table** (`geode/database.py`, module `Sessions`): the
  `sediment` table as an in-memory map from serial id to row, owned by a
  `Database` class. It covers `insert`, `select` (by id, or by mac and
  otherwise ip, over a window shifted 30 s forward, using the three-clause
  overlap condition), `update` and `terminate`.
- **Reconciliation** (`geode/main.py`, module `Reconcile`):
  `process_results`. Each result is looked up. A matching session is
  rewritten from `lookup.merge(r)`. A conflicting one is ended at the
  result's start, and the result is inserted as a new row.
- **Ingestion** (`geode/splunk.py`, module `Ingest`): the byte copy of
  `ResponseReaderWrapper.readinto`, and the control of `Splunk.search`. That
  control walks up to `latest_time` in windows of at most 300 s and
  re-queries a window from the last start seen while a job returns a full
  page. Splunk jobs are an abstract function from a window to a page.
- **Time arithmetic** (`geode/utils.py`, module `TimeUtils`). A timestamp
  is a whole number of seconds. A text in the format `%Y-%m-%dT%H:%M:%S` is
  its parsed fields: a day number, hour, minute and second.

Values are Python's: `None`, strings (text that parses as a timestamp is
kept apart from other text), ints, datetimes, lists and sets (module
`Values`). Exceptions are a `Result` error.

The model follows the code wherever the code and its tests or intentions
differ:

- `match` only walks the receiver's own keys. A `None` on the receiver
  conflicts with a value on the other side, so it is not symmetric.
  tests/test_event.py:86 and :90 expect the opposite of what the code
  returns (`SampleMatch12`, `SampleMatch23`).
- `merge` copies every key of the other event, `None` included. So
  tests/test_event.py:102 expects `'abc12345'` where the code yields
  `None` (`SampleMerge`). Both inputs' missing stops are filled in place.
- The guard `if not 'start' and 'stop' in event.keys()`
  (geode/database.py:92, :195) is always false, so it is not modelled.
  The constructor performs no start check.
- `process_results` calls `db.get(r)` and `db.update(m)`. These are modelled
  as `Database.select(r)` and `Database.update(m, id)`, where `id` is the
  looked-up row's id. The test `r.matches(lookup)` has the result as the
  receiver, whereas `select` uses the found row as the receiver.
- A `None` lookup makes `process_results` raise (`AttributeError`). The model
  keeps this error path.
- The connection's cursor factory is `RealDictCursor`
  (geode/database.py:78), whose rows are `RealDictRow` objects, a subclass
  of dict. `Event.__init__` rejects anything whose type is not exactly `dict`
  (geode/event.py:44), so as written every row `select` finds raises
  'Invalid type' (`Sessions.SelectAsWritten`, `Sessions.SelectNeverFinds`).
  The rest of the model reads rows back as plain dicts (`Sessions.SelectIn`),
  which is what the merge and terminate branches of `process_results` need
  in order to run at all; see "Findings".

## Model

| member | source | states |
|---|---|---|
| TimeUtils.StringToDto | geode/utils.py:36-49 | a well-formed text denotes a time within its own calendar day |
| TimeUtils.DtoToString | geode/utils.py:17-18 | formatting a time gives a text that parses back to that same time |
| TimeUtils.FormatParse | geode/utils.py:15-18 | parsing a well-formed text and formatting the result gives the text back |
| TimeUtils.ParseInjective | geode/utils.py:36-49 | two well-formed texts denote the same time iff they are equal |
| TimeUtils.Subtract | geode/utils.py:30 | `latest - earliest` is in timedelta normal form (0 <= seconds < 86400), with days <= 0 iff the difference is under a day |
| TimeUtils.ReturnDifference | geode/utils.py:23-33 | `days*24*60*60 + seconds` equals the signed difference in seconds exactly, negative differences included |
| TimeUtils.CalcTimeDiffString | geode/utils.py:4-20 | None iff the argument is not a str; ValueError iff it is a str not in the format; otherwise the text of the time shifted by `duration` seconds |
| TimeUtils.TimeDiffString | geode/splunk.py:130 | `time_diff_string` on well-formed text agrees with `calc_time_diff_string`, and the result lies exactly `n` seconds after the input |
| TimeUtils.TimeDiff | geode/database.py:158 | `time_diff` succeeds iff given a datetime, and then shifts it by `n` seconds |
| TimeUtils.ShiftThenDifference | geode/utils.py:15-33 | `return_difference(a, calc_time_diff_string(a, d)) == d` |
| TimeUtils.ShiftsCompose | geode/utils.py:15-16 | shifting by `d1` and then by `d2` is shifting by `d1 + d2` |
| TimeUtils.DifferenceAntisymmetric | geode/utils.py:23-33 | `return_difference(a, a) == 0` and swapping the arguments negates the difference |
| Events.TablesInverse | geode/event.py:14-38 | both tables have 9 entries; name→code→name and code→name→code round-trip; each table's keys are the other's values |
| Events.KindOf | geode/event.py:59-60 | an int becomes its kind name, or None for an unknown code; any other value is kept |
| Events.CodeOf | geode/database.py:102 | `types.get(x)` is None or a code the reverse table knows |
| Events.KindCodeRoundTrip | geode/event.py:14-38 | a known kind name survives name→code→name; any other value comes back as None |
| Events.NormalizeKinds | geode/event.py:55-68 | `event_type` always becomes a set: a list maps its ints through `types_reverse` and keeps the rest; an int becomes a singleton of its name; any other value becomes a singleton of itself; unhashable members raise TypeError |
| Events.NormalizeFieldMeaning | geode/event.py:49-80 | one field of the constructor: a str start or stop not in the format raises ValueError, and a well-formed one becomes the instant that formats back to it; kinds become a set or raise TypeError; any other field is copied, with `''` turned into None and nothing else set to None |
| Events.Normalized | geode/event.py:47-80 | the constructed event has exactly the input's keys |
| Events.NormalizedFields | geode/event.py:49-80 | text times are parsed; `event_type` is a set; `''` becomes None except under `event_type`; every other value is copied unchanged |
| Events.Construct | geode/event.py:40-80 | a non-dict raises 'Invalid type'; a dict whose fields all normalise gives the normalised event; otherwise the error of some failing field is raised |
| Events.Match | geode/event.py:82-112 | the key loop with early return computes `Matches`: no non-ignored key of self has a different non-None value in e |
| Events.MatchReflexive | geode/event.py:104-112 | every event matches itself |
| Events.MatchFalseIff | geode/event.py:104-112 | `a.match(e)` is false iff some non-ignored key of `a` meets a different, non-None value in `e` |
| Events.MatchIgnoresKeys | geode/event.py:86-100 | start, stop, id, event_type, useragent and os never affect the outcome, and keys that only `e` has are never examined |
| Events.MatchNotSymmetric | geode/event.py:104-105 | `{k: None}` does not match `{k: x}`, but `{k: x}` matches `{k: None}` |
| Events.DefaultStop | geode/event.py:121-127 | a falsy stop becomes start + 30 s, which raises TypeError unless start is a datetime; a truthy stop is kept |
| Events.MergeDefaulted | geode/event.py:129-155 | once stops are defaulted, the merge succeeds iff both starts and stops are datetimes and both kinds are sets; the result holds the keys of both events, starts at the earlier start, stops at the later stop, and holds the union of the kinds |
| Events.Merge | geode/event.py:114-158 | the method, with its copy loop over the other event's keys, computes `Merged` |
| Events.MergeInterval | geode/event.py:121-151 | a merge succeeds iff, after defaulting, both have datetime start and stop and set-valued kinds; it then takes the earliest start, the latest stop and the union of the kinds |
| Events.MergeFields | geode/event.py:119-155 | every key of the other event except start/stop/event_type overrides, even with None; keys only self has keep self's value; the inputs change only by a filled-in stop |
| Events.MergeCommutesOnInterval | geode/event.py:133-151 | start, stop and kinds of a merge do not depend on argument order, and success does not either |
| Events.MergeRedelivery | geode/event.py:114-158 | merging the same event into a merge result a second time changes nothing |
| Events.MergeAbsorbs | geode/event.py:114-158 | an event whose interval already spans another's, which already holds its kinds and agrees on its other keys, is unchanged by merging the other into it |
| Events.MergeEarlierIntoLater | geode/event.py:133-155 | merging a later event into an earlier one keeps the earlier start and the other's stop, netid and kinds added |
| Events.SampleFromSourceBuilt | tests/test_event.py:48-58 | event1 is accepted; its empty ip becomes None and its single kind a singleton set |
| Events.SampleFromStoreBuilt | tests/test_event.py:60-69 | event2 is accepted; its empty netid becomes None and codes 1 and 2 become DHCPACK and DHCPEXPIRE |
| Events.SampleIpOnlyBuilt | tests/test_event.py:71-79 | event3 is accepted and has no mac |
| Events.SampleMatch12 | tests/test_event.py:86 | as written, event1 does not match event2: event1's None ip conflicts with event2's ip |
| Events.SampleMatch23 | tests/test_event.py:90 | as written, event2 matches event3 |
| Events.SampleMerge | tests/test_event.py:92-108 | as written, `event1.merge(event2)` has netid None, event1's start, event2's stop and kinds {wireless_authentication, DHCPACK, DHCPEXPIRE} |
| Sessions.RowEvent | geode/database.py:137 | the event read back from a row has exactly the table's ten columns as keys |
| Sessions.RowEventIsConstruction | geode/database.py:137 | constructing an event from any well-typed row never raises and gives `RowEvent`, whatever order the array column lists its codes in |
| Sessions.RowKindsIsConstruction | geode/event.py:58-60 | the kinds column read back is the set of the names of its codes |
| Sessions.TimeColumn | geode/database.py:116-117 | a time column accepts a datetime or None and stores it as given; anything else raises |
| Sessions.Codes | geode/database.py:201 | `[types.get(x) for x in kinds]`: for a set or a list of hashable kinds, the set of `types.get` of each kind; a list holding a list or set raises TypeError (unhashable), and so does a value that is not a list or set |
| Sessions.InsertCodes | geode/database.py:98-102 | the kinds column `insert` writes is NULL for missing or empty kinds; otherwise it is the set of codes of the kinds, each a code the table knows or NULL, with every known name present as its code; a list holding a list or set raises TypeError, and so does a non-empty value that is not a list or set |
| Sessions.InsertRejectsNestedKinds | geode/database.py:100-102 | `insert` of an event whose kinds list holds a list raises, so no row is added |
| Sessions.RowOf | geode/database.py:111-121 | the nine column values are the event's fields; this fails iff a time column rejects its value |
| Sessions.Inserted | geode/database.py:85-126 | insert succeeds iff the kinds are iterable (or empty) and both time columns convert; it then adds the row with the next id holding the event's nine fields, kind names mapped to codes; other rows unchanged; table validity kept |
| Sessions.InsertAddsOneRow | geode/database.py:85-126 | a successful insert adds exactly one row |
| Sessions.Updated | geode/database.py:184-219 | update overwrites all nine columns of row `id`, with absent fields as NULL; keys, next id and other rows unchanged; an id with no row changes nothing |
| Sessions.Terminated | geode/database.py:221-235 | terminate raises 'No id' for a falsy id; otherwise it sets the event's stop to `time` and updates the event's row from it |
| Sessions.Overlaps | geode/database.py:43-46 | the three-clause time condition of the mac and ip plans; for a well-formed window and a well-formed row interval it holds iff the two intervals intersect |
| Sessions.OverlapWithNull | geode/database.py:59-62 | a row with a NULL start is found only through a stop inside the window; a row with neither time is never found |
| Sessions.KeyColumn | geode/database.py:142-171 | the query filters on mac when the event has one and on ip otherwise; the value it filters on is set whenever the event has a mac or an ip |
| Sessions.FirstHit | geode/database.py:173-181 | the first row, in id order, that the mac or ip plan returns; none is found iff no row qualifies |
| Sessions.ShiftedTime | geode/database.py:154-162 | the query window ends are the event's start and stop shifted 30 s forward; text not in the format, or a value that is neither text nor datetime, raises |
| Sessions.SelectIn | geode/database.py:128-182 | with an id: that row, or IndexError; with neither mac nor ip: 'Not enough data'; otherwise it succeeds iff both shifted times compute, and returns the first overlapping row on mac (else ip) if it matches the event, else None; rows are read back as plain dicts |
| Sessions.SelectNeverFinds | geode/database.py:8-182 | as written, with rows arriving as `RealDictRow`, `select` never returns a session: where the plain-dict select finds one, the written one raises 'Invalid type'; where that select raises, the written one raises the same; the written one returns None only where that select does |
| Sessions.Database.constructor | geode/database.py:14-35 | a new connection sees the rows the `sediment` table already holds and the current value of its id sequence, whatever they are, as long as they form a valid table |
| Sessions.Database.Select | geode/database.py:128-182 | `select` reads the table and returns `SelectIn` of it |
| Sessions.Database.Insert | geode/database.py:85-126 | the table becomes `Inserted(old table)` and True is returned; on an exception nothing changes |
| Sessions.Database.Update | geode/database.py:184-219 | the table becomes `Updated(old table)` and True is returned; on an exception nothing changes |
| Sessions.Database.Terminate | geode/database.py:221-235 | the table becomes `Terminated(old table)`, and the event with its new stop is returned; on an exception nothing changes |
| Reconcile.Step | geode/main.py:15-31 | one result keeps the table valid and never removes a row or lowers the next id |
| Reconcile.Run | geode/main.py:11-34 | processing all the results keeps the table valid and never removes a row |
| Reconcile.ProcessResults | geode/main.py:11-34 | the loop over results leaves the table and the raised exception as `Run` says |
| Reconcile.RunAppend | geode/main.py:15 | results are processed one after another: `a + b` is `a`, then, unless that raised, `b` from where `a` left off |
| Reconcile.StepRowCount | geode/main.py:18-31 | a result that goes through found a session, and exactly one branch ran: a match keeps the row count, a conflict adds one row |
| Reconcile.MatchBranch | geode/main.py:22-24 | on a match, the looked-up row is rewritten from `lookup.merge(r)`; no row is added and no other row changes |
| Reconcile.SplitBranch | geode/main.py:29-31 | on a conflict, the looked-up row is rewritten in full from the event read back with its stop set to `r['start']`, and `r` is stored under the next id; exactly one row is added; no other row changes |
| Reconcile.SplitStoresNullKind | geode/main.py:29-31 | ending a session whose kinds column is NULL writes `{NULL}` into that column |
| Reconcile.MergeInto | geode/main.py:22-24 | the matching branch keeps the table valid and keeps exactly the same row ids and next id |
| Reconcile.SplitFrom | geode/main.py:29-31 | the conflicting branch keeps the table valid and never removes a row or lowers the next id |
| Reconcile.ProcessResult | geode/main.py:18-31 | one pass of the loop body (look up, match, then merge and update or terminate and insert) leaves the table and the exception as `Step` says |
| Reconcile.MergeAndUpdate | geode/main.py:23-24 | `lookup.merge(r)` followed by `db.update(m)` leaves the table and the exception as `MergeInto` says |
| Reconcile.TerminateAndInsert | geode/main.py:30-31 | `db.terminate(lookup, r.get('start'))` followed by `db.insert(r)` leaves the table and the exception as `SplitFrom` says |
| Reconcile.MergeIntoRow | geode/main.py:22-24 | after a match that raised nothing, the looked-up row holds the columns of the merged event and every other row is unchanged |
| Reconcile.SplitFromRow | geode/main.py:29-31 | after a conflict that raised nothing, the looked-up row holds every column of the looked-up event with its stop set to `r['start']`, `r` is stored under the old next id, the next id goes up by one, there is exactly one more row and every other row is unchanged |
| Reconcile.SplitFromEndedRow | geode/main.py:30 | after `terminate` and `insert` raised nothing, the ended session's row holds every column of the looked-up event with its stop set to `r['start']` |
| Reconcile.SplitFromNullKind | geode/main.py:30 | a looked-up event whose kinds are `{None}` leaves `{NULL}` in the ended row's kinds column |
| Reconcile.EmptyStoreNeverFills | geode/main.py:18-31 | from an empty table every run stores nothing, and any non-empty run raises |
| Reconcile.StepCorrected | geode/main.py:16-31 | the corrected step agrees with the written one whenever a session is found |
| Reconcile.CorrectedStepOpensSession | geode/main.py:16-31 | in the corrected step, a result for which `select` returns None is inserted as one new row; that covers a result no session spans and also a result whose first spanning session conflicts with it, which is then inserted while that session stays open |
| Ingest.ResponseReaderWrapper.constructor | geode/splunk.py:19-20 | the wrapper starts with the whole response pending |
| Ingest.ResponseReaderWrapper.Read | geode/splunk.py:28-29 | `read(n)` delivers the next `min(n, remaining)` bytes and consumes them |
| Ingest.ResponseReaderWrapper.ReadInto | geode/splunk.py:31-37 | `readinto(b)` returns `n = min(len(b), remaining)`; `b[:n]` holds the bytes read and `b[n:]` is unchanged; the bytes read followed by what remains are the old pending bytes |
| Ingest.InitialEarliest | geode/splunk.py:104-108 | the stored time if there is one, otherwise exactly 300 s before `latest_time` |
| Ingest.WindowEnd | geode/splunk.py:126-133 | the window ends 300 s after earliest if more than 300 s remain; otherwise it ends at `latest_time` and `caught_up` is set; it never ends after `latest_time` |
| Ingest.LastStart | geode/splunk.py:149-154 | after a page, `earliest_time` is the start of the last result, or unchanged after an empty page; it never moves back when the results start no earlier than it |
| Ingest.YieldPage | geode/splunk.py:149-154 | after a page, all its results are yielded in order and `earliest_time` is the last one's start, or unchanged if there were none |
| Ingest.Search | geode/splunk.py:79-165 | the nested loops run the jobs and yield the results `SearchTrace` describes |
| Ingest.Query | geode/splunk.py:139-165 | the inner loop with at most `fuel` jobs runs at most `fuel` jobs, and reports the generator finished only after a job that reached the end of a caught-up window, or `latest_time` |
| Ingest.Catchup | geode/splunk.py:121-165 | the outer loop from `earliest` runs at most `fuel` jobs, and reports the generator finished only after a job whose window ends at `latest_time` |
| Ingest.DefaultFirstWindow | geode/splunk.py:104-133 | with no stored time, the first job searches `[latest - 300, latest]` |
| Ingest.QueryFirst | geode/splunk.py:136-144 | the first job of a window searches from the current earliest time to the window's end |
| Ingest.NextQuery | geode/splunk.py:141-165 | a page's results come out first; a full page re-queries the same window from the last start; a short page ends the search when caught up, and otherwise opens the next window from the last start |
| Ingest.QueryBounded | geode/splunk.py:126-165 | no job of a window searches past `latest_time`; if pages keep to their windows, none spans more than 300 s |
| Ingest.CatchupBounded | geode/splunk.py:121-165 | the same bounds, from any turn of the outer loop |
| Ingest.SearchBounded | geode/splunk.py:121-165 | every job of a search ends by `latest_time`; if pages keep to their windows, none spans more than 300 s |
| Ingest.StalledWindowRepeats | geode/splunk.py:121-165 | a window more than 300 s behind that holds no results is searched again for ever: the search never finishes and yields nothing |
| Ingest.CorrectedCatchupFinishes | geode/splunk.py:121-165 | with the correction, when no page is full the search finishes after exactly one job per 300 s window |

## Left out

- Postgres and psycopg2 are replaced by an in-memory map from id to row. This covers the connection, the prepared statement text, autocommit and cursors. The `RealDictRow` type of fetched rows is kept only by `Sessions.SelectAsWritten`.
- SQL result order is modelled as id order. `select` takes the first row the plan returns, and the model's first row is the one with the lowest id.
- The `event_type` column is kept as the set of its codes. The order and repetition of codes in the array are not kept. Reading a row back only ever turns the array into a set, and `RowEventIsConstruction` holds for every listing of the codes.
- Calendar details of `strptime`/`strftime` are not modelled. A text timestamp is a day number with hour, minute and second, and the mapping from day number to `YYYY-MM-DD` digits is left out.
- `utils.dto_to_string`, `utils.time_diff`, `utils.time_diff_string`, `utils.now` and `utils.read_config` are called but geode/utils.py does not define them. Their assumed behaviour is:
  - `time_diff(t, n)` is `t` plus `n` seconds, and raises for a non-datetime.
  - `time_diff_string` is `calc_time_diff_string` on well-formed text.
  - `dto_to_string` stores a datetime or None as given, and raises for anything else.
- The configuration file and the `Time` section are not modelled. The stored earliest time is a parameter of `Search`. `_update_most_recent_time`, logging and `print` are left out.
- The default `latest_time=utils.time_diff(utils.now(), -300)` is evaluated once, when the module is imported. The clock is left out, so `latest` is a parameter.
- Splunk itself is left out: the connection, job creation and cancellation, and `ResultsReader` parsing. A job is a function from a window to a page of result starts and a result count.
- Search results are assumed to carry a well-formed `start`. A missing or malformed start, which would make the next `return_difference` raise, is not modelled.
- Search: the number of jobs is bounded by a fuel parameter, because the loop in `search` (geode/splunk.py:121-165) need not terminate (`StalledWindowRepeats`). `done` reports whether the generator finished within that bound.
- ResponseReaderWrapper.Read: `responseReader.read(n)` is assumed to return exactly `min(n, remaining)` bytes. Short reads from the network are not modelled. `readable` and `close` only delegate and are not modelled.
- `copy.deepcopy` is not modelled because model values are immutable.
- Iterating a str `event_type` is not modelled. In `insert`/`update` it would yield its characters; the model raises TypeError, treating only lists and sets as iterable.
- Python 2 comparisons across types are not modelled. Where `merge` would compare a datetime with a value of another type, the model raises TypeError, as Python 2 does.
- Events.MergeInterval, Events.MergeDefaulted: a merge succeeds only when both starts and both stops (after defaulting) are datetimes. Python 2's `min`/`max` (geode/event.py:134, :139) also accept bounds that are both non-datetimes: two ints, two strings, two missing starts when both stops are set, or a mix of such types, which Python 2 orders by type. The model raises TypeError for those. On the mac/ip path of `process_results` they cannot arise, because `select` has already raised for a start or stop that is not a datetime or well-formed text. They can arise on the id path, for instance for a stored row with a NULL start merged with a result without a start.
- `main()`, the `searches`/`splunk`/`db` globals and the test scripts that query a live Splunk are left out.

## Findings

| source | as written | input that shows it | evidently intended | confidence | as-written member | corrected member |
|---|---|---|---|---|---|---|
| geode/main.py:18-31 | a result for which `db.get` finds no session reaches `r.matches(None)` or `None.merge(r)` and raises, so nothing is ever inserted into an empty table | an empty `sediment` table and any result with a mac or ip and valid times | a result that no session spans opens a new session (is inserted) | high, not executed | Reconcile.EmptyStoreNeverFills | Reconcile.StepCorrected, Reconcile.CorrectedStepOpensSession |
| geode/database.py:137-182 | rows come from a `RealDictCursor` (geode/database.py:78) as `RealDictRow`, a dict subclass, and `Event(row)` raises 'Invalid type' for anything whose type is not exactly `dict` (geode/event.py:44), so every row `select` finds raises and `process_results` never reaches `merge` or `terminate` | a table with one row whose mac equals the result's and whose interval meets the result's shifted window | a found row is returned as an event built from its columns | high, not executed | Sessions.SelectNeverFinds | Sessions.SelectIn, Sessions.RowEventIsConstruction |
| geode/splunk.py:121-165 | `earliest_time` only follows result starts, so a catch-up window with no results is searched again for ever | a stored time more than 300 s before `latest_time`, and no results in the next 300 s | after a window is done, the next window starts where it ended (`search_time`) | medium, not executed | Ingest.StalledWindowRepeats | Ingest.CatchupCorrected, Ingest.CorrectedCatchupFinishes |
