/**
 `process_results` of geode/main.py: each result from a search is looked up
 in the session table; a matching session is widened by merging the result
 into it, and a conflicting one is ended at the result's start while the
 result opens a session of its own.
 */
module Reconcile {
  import opened Values
  import opened Events
  import opened Sessions

  /** The table after processing, and the exception that stopped processing,
      if any. Writes made before an exception stay in the table. */
  datatype Outcome = Outcome(table: Table, error: Option<Error>)

  /** One iteration of the loop, for the result `r`. `db.get(r)` is
      `Database.select(r)`, and `db.update(m)` is `Database.update(m, id)` with
      the looked-up row's id. When no row is found, `r.matches(None)` or
      `None.merge(r)` raises. */
  function Step(t: Table, r: Event): (o: Outcome)
    requires TableValid(t)
    ensures TableValid(o.table)
    ensures t.rows.Keys <= o.table.rows.Keys && t.nextId <= o.table.nextId
  {
    match SelectIn(t, r)
    case Err(x) => Outcome(t, Some(x))
    case Ok(None) => Outcome(t, Some(AttributeError))
    case Ok(Some(lookup)) =>
      if Matches(r, lookup) then MergeInto(t, lookup, r) else SplitFrom(t, lookup, r)
  }

  /** The matching branch: `m = lookup.merge(r)`, then `update(m, id)`. */
  function MergeInto(t: Table, lookup: Event, r: Event): (o: Outcome)
    requires TableValid(t)
    ensures TableValid(o.table)
    ensures o.table.rows.Keys == t.rows.Keys && o.table.nextId == t.nextId
  {
    match Merged(lookup, r)
    case Err(x) => Outcome(t, Some(x))
    case Ok(m) =>
      match Updated(t, m.merged, Get(lookup, "id"))
      case Err(x) => Outcome(t, Some(x))
      case Ok(t') => Outcome(t', None)
  }

  /** The conflicting branch: `terminate(lookup, r['start'])`, then
      `insert(r)`. */
  function SplitFrom(t: Table, lookup: Event, r: Event): (o: Outcome)
    requires TableValid(t)
    ensures TableValid(o.table)
    ensures t.rows.Keys <= o.table.rows.Keys && t.nextId <= o.table.nextId
  {
    match Terminated(t, lookup, Get(r, "start"))
    case Err(x) => Outcome(t, Some(x))
    case Ok(term) =>
      match Inserted(term.table, r)
      case Err(x) => Outcome(term.table, Some(x))
      case Ok(t') => Outcome(t', None)
  }

  /** The whole loop: results in the order given, stopping at the first one
      that raises. No session row is ever removed. */
  function Run(t: Table, rs: seq<Event>): (o: Outcome)
    requires TableValid(t)
    ensures TableValid(o.table)
    ensures t.rows.Keys <= o.table.rows.Keys && t.nextId <= o.table.nextId
    decreases |rs|
  {
    if rs == [] then Outcome(t, None)
    else
      var o := Step(t, rs[0]);
      if o.error.Some? then o else Run(o.table, rs[1..])
  }

  /** `process_results(results)` against the database `db`. */
  method ProcessResults(db: Database, results: seq<Event>) returns (err: Option<Error>)
    requires db.Valid()
    modifies db
    ensures db.Valid()
    ensures Outcome(db.Model(), err) == Run(old(db.Model()), results)
  {
    var i := 0;
    while i < |results|
      invariant 0 <= i <= |results|
      invariant db.Valid()
      invariant Run(db.Model(), results[i..]) == Run(old(db.Model()), results)
    {
      assert results[i..][0] == results[i] && results[i..][1..] == results[i + 1..];
      err := ProcessResult(db, results[i]);
      if err.Some? {
        return;
      }
      i := i + 1;
    }
    return None;
  }

  /** The body of the loop, for one result. */
  method ProcessResult(db: Database, r: Event) returns (err: Option<Error>)
    requires db.Valid()
    modifies db
    ensures db.Valid()
    ensures Outcome(db.Model(), err) == Step(old(db.Model()), r)
  {
    var lookup := db.Select(r);
    if lookup.Err? {
      return Some(lookup.error);
    }
    if lookup.value.None? {
      return Some(AttributeError);
    }
    var l := lookup.value.value;
    var same := Match(r, l);
    if same {
      err := MergeAndUpdate(db, l, r);
    } else {
      err := TerminateAndInsert(db, l, r);
    }
  }

  /** `m = lookup.merge(r)` and `db.update(m, lookup['id'])`. */
  method MergeAndUpdate(db: Database, l: Event, r: Event) returns (err: Option<Error>)
    requires db.Valid()
    modifies db
    ensures db.Valid()
    ensures Outcome(db.Model(), err) == MergeInto(old(db.Model()), l, r)
  {
    var m := Merge(l, r);
    if m.Err? {
      return Some(m.error);
    }
    var ok := db.Update(m.value.merged, Get(l, "id"));
    if ok.Err? {
      return Some(ok.error);
    }
    return None;
  }

  /** `db.terminate(lookup, r.get('start'))` and `db.insert(r)`. */
  method TerminateAndInsert(db: Database, l: Event, r: Event) returns (err: Option<Error>)
    requires db.Valid()
    modifies db
    ensures db.Valid()
    ensures Outcome(db.Model(), err) == SplitFrom(old(db.Model()), l, r)
  {
    var term := db.Terminate(l, Get(r, "start"));
    if term.Err? {
      return Some(term.error);
    }
    var ok := db.Insert(r);
    if ok.Err? {
      return Some(ok.error);
    }
    return None;
  }

  /** Results are processed one after another: processing `a + b` is
      processing `a`, then, unless that raised, `b` from where `a` left off. */
  lemma {:induction false} RunAppend(t: Table, a: seq<Event>, b: seq<Event>)
    requires TableValid(t)
    ensures Run(t, a + b) ==
              var o := Run(t, a);
              if o.error.Some? then o else Run(o.table, b)
    decreases |a|
  {
    if a != [] {
      assert (a + b)[0] == a[0] && (a + b)[1..] == a[1..] + b;
      var o := Step(t, a[0]);
      if o.error.None? {
        RunAppend(o.table, a[1..], b);
      }
    } else {
      assert a + b == b;
    }
  }

  /** A result that goes through has found a session, and exactly one branch
      ran: a match keeps the number of rows, a conflict adds one. */
  lemma StepRowCount(t: Table, r: Event)
    requires TableValid(t) && Step(t, r).error.None?
    ensures SelectIn(t, r).Ok? && SelectIn(t, r).value.Some?
    ensures |Step(t, r).table.rows| ==
              |t.rows| + if Matches(r, SelectIn(t, r).value.value) then 0 else 1
  {
    var l := SelectIn(t, r).value.value;
    var id :| id in t.rows && l == RowEvent(id, t.rows[id]);
    if Matches(r, l) {
      MatchBranch(t, r, id);
    } else {
      SplitBranch(t, r, id);
    }
  }

  /** A result that matches the session found (row `id`) rewrites that row
      from `lookup.merge(r)`; no row is added and no other row changes. */
  lemma MatchBranch(t: Table, r: Event, id: int)
    requires TableValid(t) && id in t.rows
    requires SelectIn(t, r) == Ok(Some(RowEvent(id, t.rows[id])))
    requires Matches(r, RowEvent(id, t.rows[id]))
    requires Step(t, r).error.None?
    ensures Merged(RowEvent(id, t.rows[id]), r).Ok?
    ensures var m := Merged(RowEvent(id, t.rows[id]), r).value.merged;
            var t' := Step(t, r).table;
            && t'.nextId == t.nextId
            && t'.rows.Keys == t.rows.Keys
            && Codes(Get(m, "event_type")).Ok?
            && Ok(t'.rows[id]) == RowOf(m, Codes(Get(m, "event_type")).value)
            && forall k | k in t.rows && k != id :: t'.rows[k] == t.rows[k]
  {
    var l := RowEvent(id, t.rows[id]);
    assert Step(t, r) == MergeInto(t, l, r);
    MergeIntoRow(t, r, l, id);
  }

  lemma MergeIntoRow(t: Table, r: Event, l: Event, id: int)
    requires TableValid(t) && id in t.rows && Get(l, "id") == Int(id)
    requires MergeInto(t, l, r).error.None?
    ensures Merged(l, r).Ok?
    ensures var m := Merged(l, r).value.merged;
            var t' := MergeInto(t, l, r).table;
            && Codes(Get(m, "event_type")).Ok?
            && Ok(t'.rows[id]) == RowOf(m, Codes(Get(m, "event_type")).value)
            && forall k | k in t.rows && k != id :: t'.rows[k] == t.rows[k]
  {
  }

  /** A result that conflicts with the session found (row `id`) ends that
      session at the result's start and stores the result as a new row with
      the next id; no other row changes. The session's row is rewritten in
      full from the event read back, as `update` writes every column. */
  lemma SplitBranch(t: Table, r: Event, id: int)
    requires TableValid(t) && id in t.rows
    requires SelectIn(t, r) == Ok(Some(RowEvent(id, t.rows[id])))
    requires !Matches(r, RowEvent(id, t.rows[id]))
    requires Step(t, r).error.None?
    ensures var t' := Step(t, r).table;
            var l := RowEvent(id, t.rows[id]);
            && t'.nextId == t.nextId + 1
            && t'.rows.Keys == t.rows.Keys + {t.nextId}
            && |t'.rows| == |t.rows| + 1
            && t'.rows[id].stop == Get(r, "start")
            && Codes(Get(l, "event_type")).Ok?
            && Ok(t'.rows[id]) == RowOf(l["stop" := Get(r, "start")], Codes(Get(l, "event_type")).value)
            && InsertCodes(Get(r, "event_type")).Ok?
            && RowOf(r, InsertCodes(Get(r, "event_type")).value) == Ok(t'.rows[t.nextId])
            && forall k | k in t.rows && k != id :: t'.rows[k] == t.rows[k]
  {
    var l := RowEvent(id, t.rows[id]);
    assert Step(t, r) == SplitFrom(t, l, r);
    SplitFromRow(t, r, l, id);
  }

  /** Ending a session whose kinds column is NULL writes `{NULL}` there: the
      row is read back with kinds `{None}`, and `update` stores a code for
      each kind. */
  lemma SplitStoresNullKind(t: Table, r: Event, id: int)
    requires TableValid(t) && id in t.rows && t.rows[id].eventType == Null
    requires SelectIn(t, r) == Ok(Some(RowEvent(id, t.rows[id])))
    requires !Matches(r, RowEvent(id, t.rows[id]))
    requires Step(t, r).error.None?
    ensures Step(t, r).table.rows[id].eventType == Set({Null})
  {
    var l := RowEvent(id, t.rows[id]);
    assert Step(t, r) == SplitFrom(t, l, r);
    assert Get(l, "event_type") == RowKinds(Null);
    SplitFromNullKind(t, r, l, id);
  }

  lemma SplitFromNullKind(t: Table, r: Event, l: Event, id: int)
    requires TableValid(t) && id in t.rows && Get(l, "id") == Int(id)
    requires Get(l, "event_type") == Set({Null})
    requires SplitFrom(t, l, r).error.None?
    ensures SplitFrom(t, l, r).table.rows[id].eventType == Set({Null})
  {
    SplitFromEndedRow(t, r, l, id);
    assert Codes(Set({Null})).value == Set({CodeOf(Null)}) == Set({Null});
  }

  lemma SplitFromRow(t: Table, r: Event, l: Event, id: int)
    requires TableValid(t) && id in t.rows && Get(l, "id") == Int(id)
    requires SplitFrom(t, l, r).error.None?
    ensures var t' := SplitFrom(t, l, r).table;
            && t'.nextId == t.nextId + 1
            && t'.rows.Keys == t.rows.Keys + {t.nextId}
            && |t'.rows| == |t.rows| + 1
            && t'.rows[id].stop == Get(r, "start")
            && Codes(Get(l, "event_type")).Ok?
            && Ok(t'.rows[id]) == RowOf(l["stop" := Get(r, "start")], Codes(Get(l, "event_type")).value)
            && InsertCodes(Get(r, "event_type")).Ok?
            && RowOf(r, InsertCodes(Get(r, "event_type")).value) == Ok(t'.rows[t.nextId])
            && forall k | k in t.rows && k != id :: t'.rows[k] == t.rows[k]
  {
    SplitFromEndedRow(t, r, l, id);
    var term := Terminated(t, l, Get(r, "start")).value;
    InsertAddsOneRow(term.table, r);
  }

  /** The ended session's row after a conflict that raised nothing: every
      column written back from the event read, with its stop set. */
  lemma SplitFromEndedRow(t: Table, r: Event, l: Event, id: int)
    requires TableValid(t) && id in t.rows && Get(l, "id") == Int(id)
    requires SplitFrom(t, l, r).error.None?
    ensures id in SplitFrom(t, l, r).table.rows
    ensures Codes(Get(l, "event_type")).Ok?
    ensures Ok(SplitFrom(t, l, r).table.rows[id]) ==
              RowOf(l["stop" := Get(r, "start")], Codes(Get(l, "event_type")).value)
  {
    var l' := l["stop" := Get(r, "start")];
    var term := Terminated(t, l, Get(r, "start")).value;
    assert term.table == Updated(t, l', Int(id)).value;
    assert Get(l', "event_type") == Get(l, "event_type");
    assert Ok(term.table.rows[id]) == RowOf(l', Codes(Get(l, "event_type")).value);
    var t' := Inserted(term.table, r).value;
    assert id != t.nextId && t'.rows[id] == term.table.rows[id];
  }

  /** Nothing is ever stored in an empty table: the first result finds no
      session, and `r.matches(None)` or `None.merge(r)` raises. */
  lemma EmptyStoreNeverFills(n: int, rs: seq<Event>)
    requires n >= 1
    ensures Run(Table(map[], n), rs).table == Table(map[], n)
    ensures rs != [] ==> Run(Table(map[], n), rs).error.Some?
  {
    if rs != [] {
      var t := Table(map[], n);
      var s := SelectIn(t, rs[0]);
      assert s.Err? || s == Ok(None);
    }
  }

  /** The step as evidently intended: a result for which no session is found
      opens one. */
  function StepCorrected(t: Table, r: Event): (o: Outcome)
    requires TableValid(t)
    ensures TableValid(o.table)
    ensures SelectIn(t, r).Ok? && SelectIn(t, r).value.Some? ==> o == Step(t, r)
  {
    if SelectIn(t, r) == Ok(None) then
      match Inserted(t, r)
      case Err(x) => Outcome(t, Some(x))
      case Ok(t') => Outcome(t', None)
    else
      Step(t, r)
  }

  /** With the correction, a result no session spans is stored as a new row,
      so the first result can fill an empty table. */
  lemma CorrectedStepOpensSession(t: Table, r: Event)
    requires TableValid(t) && SelectIn(t, r) == Ok(None) && Inserted(t, r).Ok?
    ensures StepCorrected(t, r) == Outcome(Inserted(t, r).value, None)
    ensures |StepCorrected(t, r).table.rows| == |t.rows| + 1
  {
    InsertAddsOneRow(t, r);
  }
}
