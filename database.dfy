/**
 The session table of geode/database.py. The prepared SQL statements are
 modelled by what they do to an in-memory table of rows keyed by a
 serial id; the `Database` class owns that table.
 */
module Sessions {
  import opened Values
  import opened TimeUtils
  import opened Events

  /** The buffer, in seconds, by which `select` shifts the query window. */
  const Buffer := 30

  /** A row of the `sediment` table: its nine columns besides the id. The
      `event_type` column (a `smallint[]`) is kept as the set of its codes,
      since it is only ever read back as a set. */
  datatype Row = Row(mac: Value, ip: Value, netid: Value, hostname: Value,
                     start: Value, stop: Value, useragent: Value, os: Value,
                     eventType: Value)

  /** What the column types admit: timestamps or NULL in the time columns, and
      NULL or an array of codes (each a smallint or NULL) for the kinds. */
  predicate WellTyped(row: Row) {
    && (row.start == Null || row.start.Stamp?)
    && (row.stop == Null || row.stop.Stamp?)
    && (row.eventType == Null ||
        (row.eventType.Set? && forall c | c in row.eventType.elems :: c == Null || c.Int?))
  }

  /** The table: its rows by id, and the next value of the id sequence. */
  datatype Table = Table(rows: map<int, Row>, nextId: int)

  predicate TableValid(t: Table) {
    t.nextId >= 1 && forall id | id in t.rows :: 1 <= id < t.nextId && WellTyped(t.rows[id])
  }

  // ---------------------------------------------------------------------
  // Reading rows back
  // ---------------------------------------------------------------------

  /** `Event(row)` on the `event_type` column: an array of codes becomes the set
      of their names; NULL becomes `{None}`. */
  function RowKinds(v: Value): Value {
    if v.Set? then Set(set x | x in v.elems :: KindOf(x)) else Set({v})
  }

  function Blank(v: Value): Value {
    if v == Str("") then Null else v
  }

  /** `Event(row)` for the dictionary the cursor returns for a row. */
  function RowEvent(id: int, row: Row): (ev: Event)
    ensures ev.Keys == {"id", "mac", "ip", "netid", "hostname", "start", "stop",
                        "useragent", "os", "event_type"}
    ensures Get(ev, "id") == Int(id)
  {
    map[
      "id" := Int(id), "mac" := Blank(row.mac), "ip" := Blank(row.ip),
      "netid" := Blank(row.netid), "hostname" := Blank(row.hostname),
      "start" := row.start, "stop" := row.stop,
      "useragent" := Blank(row.useragent), "os" := Blank(row.os),
      "event_type" := RowKinds(row.eventType)
    ]
  }

  /** The dictionary the cursor returns for a row, with the array column
      listed in the order `codes`. */
  function RowDict(id: int, row: Row, codes: seq<Value>): (f: map<string, Value>)
    ensures f.Keys == RowEvent(id, row).Keys
  {
    map[
      "id" := Int(id), "mac" := row.mac, "ip" := row.ip,
      "netid" := row.netid, "hostname" := row.hostname,
      "start" := row.start, "stop" := row.stop,
      "useragent" := row.useragent, "os" := row.os,
      "event_type" := if row.eventType.Set? then List(codes) else row.eventType
    ]
  }

  /** Constructing an event from a well-typed row never raises and gives
      `RowEvent`, in whatever order the array column lists its codes. */
  lemma RowEventIsConstruction(id: int, row: Row, codes: seq<Value>)
    requires WellTyped(row)
    requires row.eventType.Set? ==> (set c | c in codes) == row.eventType.elems
    ensures Clean(RowDict(id, row, codes))
    ensures Normalized(RowDict(id, row, codes)) == RowEvent(id, row)
  {
    var f, ev := RowDict(id, row, codes), RowEvent(id, row);
    forall k | k in f
      ensures NormalizeField(k, f[k]) == Ok(ev[k])
    {
      RowFieldIsConstruction(id, row, codes, k);
    }
    assert Clean(f);
    var n := Normalized(f);
    forall k | k in n ensures n[k] == ev[k] {
      assert n[k] == NormalizeField(k, f[k]).value;
    }
  }

  lemma RowFieldIsConstruction(id: int, row: Row, codes: seq<Value>, k: string)
    requires WellTyped(row)
    requires row.eventType.Set? ==> (set c | c in codes) == row.eventType.elems
    requires k in RowDict(id, row, codes)
    ensures NormalizeField(k, RowDict(id, row, codes)[k]) == Ok(RowEvent(id, row)[k])
  {
    if k == "event_type" {
      RowKindsIsConstruction(row, codes);
    } else if k in {"start", "stop", "id"} {
      TypedFieldIsConstruction(id, row, codes, k);
    } else if k in {"mac", "ip", "netid"} {
      AddressFieldIsConstruction(id, row, codes, k);
    } else {
      ClientFieldIsConstruction(id, row, codes, k);
    }
  }

  /** The id and the two time columns pass through construction unchanged. */
  lemma TypedFieldIsConstruction(id: int, row: Row, codes: seq<Value>, k: string)
    requires WellTyped(row)
    requires k == "start" || k == "stop" || k == "id"
    ensures k in RowDict(id, row, codes) && k in RowEvent(id, row)
    ensures NormalizeField(k, RowDict(id, row, codes)[k]) == Ok(RowEvent(id, row)[k])
  {
    var f, ev := RowDict(id, row, codes), RowEvent(id, row);
    if k == "start" {
      assert f[k] == row.start && ev[k] == row.start;
    } else if k == "stop" {
      assert f[k] == row.stop && ev[k] == row.stop;
    } else {
      assert f[k] == Int(id) == ev[k];
    }
  }

  /** The mac, ip and netid columns: an empty text becomes None. */
  lemma AddressFieldIsConstruction(id: int, row: Row, codes: seq<Value>, k: string)
    requires WellTyped(row)
    requires k == "mac" || k == "ip" || k == "netid"
    ensures k in RowDict(id, row, codes) && k in RowEvent(id, row)
    ensures NormalizeField(k, RowDict(id, row, codes)[k]) == Ok(RowEvent(id, row)[k])
  {
    var f, ev := RowDict(id, row, codes), RowEvent(id, row);
    if k == "mac" {
      assert f[k] == row.mac && ev[k] == Blank(row.mac);
    } else if k == "ip" {
      assert f[k] == row.ip && ev[k] == Blank(row.ip);
    } else {
      assert f[k] == row.netid && ev[k] == Blank(row.netid);
    }
  }

  /** The hostname, useragent and os columns: an empty text becomes None. */
  lemma ClientFieldIsConstruction(id: int, row: Row, codes: seq<Value>, k: string)
    requires WellTyped(row)
    requires k in RowDict(id, row, codes)
    requires k !in {"event_type", "start", "stop", "id", "mac", "ip", "netid"}
    ensures k in RowEvent(id, row)
    ensures NormalizeField(k, RowDict(id, row, codes)[k]) == Ok(RowEvent(id, row)[k])
  {
    var f, ev := RowDict(id, row, codes), RowEvent(id, row);
    if k == "hostname" {
      assert f[k] == row.hostname && ev[k] == Blank(row.hostname);
    } else if k == "useragent" {
      assert f[k] == row.useragent && ev[k] == Blank(row.useragent);
    } else {
      assert k == "os";
      assert f[k] == row.os && ev[k] == Blank(row.os);
    }
  }

  lemma RowKindsIsConstruction(row: Row, codes: seq<Value>)
    requires WellTyped(row)
    requires row.eventType.Set? ==> (set c | c in codes) == row.eventType.elems
    ensures NormalizeField("event_type", if row.eventType.Set? then List(codes) else row.eventType)
         == Ok(RowKinds(row.eventType))
  {
    if row.eventType.Set? {
      forall x | x in codes ensures Hashable(x) {
        assert x in (set c | c in codes);
        assert x in row.eventType.elems;
        assert x == Null || x.Int?;
      }
      assert (set x | x in codes :: KindOf(x)) == (set x | x in row.eventType.elems :: KindOf(x));
    }
  }

  // ---------------------------------------------------------------------
  // Writing rows
  // ---------------------------------------------------------------------

  /** `utils.dto_to_string` on a time field (geode/utils.py does not define
      it): a datetime is stored as that timestamp and None as NULL;
      anything else has no `strftime`. */
  function TimeColumn(v: Value): (r: Result<Value>)
    ensures r.Ok? <==> v.Stamp? || v == Null
    ensures r.Ok? ==> r.value == v
  {
    if v.Stamp? || v == Null then Ok(v) else Err(AttributeError)
  }

  /** The codes of the kinds an iterable holds, `[types.get(x) for x in kinds]`;
      only sets and lists are iterated, and `types.get` of a list or set raises
      TypeError (it is unhashable). */
  function Codes(kinds: Value): (r: Result<Value>)
    ensures r.Ok? <==> kinds.Set? || (kinds.List? && forall x | x in kinds.items :: Hashable(x))
    ensures kinds.Set? ==> r == Ok(Set(set x | x in kinds.elems :: CodeOf(x)))
    ensures kinds.List? && r.Ok? ==> r.value == Set(set x | x in kinds.items :: CodeOf(x))
  {
    match kinds
    case Set(elems) => Ok(Set(set x | x in elems :: CodeOf(x)))
    case List(items) =>
      if forall x | x in items :: Hashable(x) then Ok(Set(set x | x in items :: CodeOf(x)))
      else Err(TypeError)
    case _ => Err(TypeError)
  }

  /** The array column `insert` writes: NULL for kinds that are missing or
      empty, otherwise the codes of the kinds, which are codes the table knows
      or NULL for a name it does not know; only sets and lists are iterated,
      and a list holding a list or set raises TypeError. */
  function InsertCodes(kinds: Value): (r: Result<Value>)
    ensures !Truthy(kinds) ==> r == Ok(Null)
    ensures Truthy(kinds) ==>
              (r.Ok? <==> kinds.Set? || (kinds.List? && forall x | x in kinds.items :: Hashable(x)))
    ensures r.Ok? && r.value != Null ==>
              && r.value.Set?
              && forall c | c in r.value.elems :: c == Null || (c.Int? && c.i in TypesReverse)
    ensures kinds.Set? && Truthy(kinds) ==>
              r.Ok? && r.value.Set? &&
              forall x | x in kinds.elems && x.Str? && x.s in Types :: Int(Types[x.s]) in r.value.elems
    ensures kinds.List? && Truthy(kinds) && r.Ok? ==>
              r.value.Set? &&
              forall x | x in kinds.items && x.Str? && x.s in Types :: Int(Types[x.s]) in r.value.elems
  {
    if Truthy(kinds) then Codes(kinds) else Ok(Null)
  }

  /** The nine column values written for an event, given its codes. */
  function RowOf(e: Event, codes: Value): (r: Result<Row>)
    ensures r.Ok? <==> TimeColumn(Get(e, "start")).Ok? && TimeColumn(Get(e, "stop")).Ok?
    ensures r.Ok? ==>
              r.value == Row(Get(e, "mac"), Get(e, "ip"), Get(e, "netid"), Get(e, "hostname"),
                             Get(e, "start"), Get(e, "stop"), Get(e, "useragent"), Get(e, "os"),
                             codes)
  {
    match TimeColumn(Get(e, "start"))
    case Err(x) => Err(x)
    case Ok(start) =>
      match TimeColumn(Get(e, "stop"))
      case Err(x) => Err(x)
      case Ok(stop) =>
        Ok(Row(Get(e, "mac"), Get(e, "ip"), Get(e, "netid"), Get(e, "hostname"),
               start, stop, Get(e, "useragent"), Get(e, "os"), codes))
  }

  /** `insert`: one new row with the next id holding the event's nine fields,
      kind names turned into codes; no other row changes. */
  function Inserted(t: Table, e: Event): (r: Result<Table>)
    ensures r.Ok? <==> InsertCodes(Get(e, "event_type")).Ok? &&
                       RowOf(e, InsertCodes(Get(e, "event_type")).value).Ok?
    ensures r.Ok? ==>
              && r.value.nextId == t.nextId + 1
              && r.value.rows.Keys == t.rows.Keys + {t.nextId}
              && (forall id | id in t.rows && id != t.nextId :: r.value.rows[id] == t.rows[id])
              && InsertCodes(Get(e, "event_type")).Ok?
              && RowOf(e, InsertCodes(Get(e, "event_type")).value) == Ok(r.value.rows[t.nextId])
    ensures TableValid(t) && r.Ok? ==> TableValid(r.value)
  {
    match InsertCodes(Get(e, "event_type"))
    case Err(x) => Err(x)
    case Ok(codes) =>
      match RowOf(e, codes)
      case Err(x) => Err(x)
      case Ok(row) =>
        Ok(Table(t.rows[t.nextId := row], t.nextId + 1))
  }

  /** `insert` of an event whose kinds list holds a list raises TypeError in
      `types.get`, and the table is left as it was. */
  lemma InsertRejectsNestedKinds(t: Table)
    ensures Inserted(t, map["mac" := Str("m"), "start" := Stamp(120), "stop" := Stamp(130),
                            "event_type" := List([List([])])]).Err?
  {
    var e := map["mac" := Str("m"), "start" := Stamp(120), "stop" := Stamp(130),
                 "event_type" := List([List([])])];
    assert Get(e, "event_type") == List([List([])]);
    assert !Hashable(List([]));
  }

  /** A successful insert into a valid table adds exactly one row. */
  lemma InsertAddsOneRow(t: Table, e: Event)
    requires TableValid(t) && Inserted(t, e).Ok?
    ensures |Inserted(t, e).value.rows| == |t.rows| + 1
  {
    var t' := Inserted(t, e).value;
    assert t.nextId !in t.rows;
    assert t'.rows.Keys == t.rows.Keys + {t.nextId};
  }

  /** `update`: all nine columns of the row with id `id` overwritten (absent
      fields become NULL); no row is added, and other rows do not change. An
      id that addresses no row changes nothing. */
  function Updated(t: Table, e: Event, id: Value): (r: Result<Table>)
    ensures r.Ok? <==> Codes(Get(e, "event_type")).Ok? &&
                       RowOf(e, Codes(Get(e, "event_type")).value).Ok?
    ensures r.Ok? ==>
              && r.value.nextId == t.nextId
              && r.value.rows.Keys == t.rows.Keys
              && (forall k | k in t.rows && Int(k) != id :: r.value.rows[k] == t.rows[k])
              && (id.Int? && id.i in t.rows ==>
                    Ok(r.value.rows[id.i]) == RowOf(e, Codes(Get(e, "event_type")).value))
    ensures TableValid(t) && r.Ok? ==> TableValid(r.value)
  {
    match Codes(Get(e, "event_type"))
    case Err(x) => Err(x)
    case Ok(codes) =>
      match RowOf(e, codes)
      case Err(x) => Err(x)
      case Ok(row) =>
        if id.Int? && id.i in t.rows then Ok(Table(t.rows[id.i := row], t.nextId)) else Ok(t)
  }

  /** What `terminate` leaves behind: the table and the event, whose stop it
      set. */
  datatype Termination = Termination(table: Table, event: Event)

  /** `terminate`: raises when the event's id is falsy; otherwise sets the
      event's stop to `time` and rewrites the event's row from it. */
  function Terminated(t: Table, e: Event, time: Value): (r: Result<Termination>)
    ensures !Truthy(Get(e, "id")) ==> r == Err(NoId)
    ensures Truthy(Get(e, "id")) ==>
              match Updated(t, e["stop" := time], e["id"])
              case Ok(t') => r == Ok(Termination(t', e["stop" := time]))
              case Err(x) => r == Err(x)
  {
    var id := Get(e, "id");
    if !Truthy(id) then Err(NoId)
    else
      var e' := e["stop" := time];
      match Updated(t, e', id)
      case Err(x) => Err(x)
      case Ok(t') => Ok(Termination(t', e'))
  }

  // ---------------------------------------------------------------------
  // Selecting
  // ---------------------------------------------------------------------

  /** SQL `a <= b` holds: both operands are non-NULL timestamps, in order. */
  predicate Le(a: Value, b: Value) {
    a.Stamp? && b.Stamp? && a.t <= b.t
  }

  /** The time condition of `select_mac_plan` and `select_ip_plan`, for the
      window `[lo, hi]` and a row's `start` and `stop` columns. For a
      well-formed window and a well-formed row interval, its three clauses
      say exactly that the two intervals intersect. */
  function Overlaps(lo: int, hi: int, start: Value, stop: Value): (b: bool)
    ensures lo <= hi && start.Stamp? && stop.Stamp? && start.t <= stop.t ==>
              (b <==> start.t <= hi && lo <= stop.t)
  {
    || (Le(Stamp(lo), start) && Le(start, Stamp(hi)))
    || (Le(Stamp(lo), stop) && Le(stop, Stamp(hi)))
    || (Le(start, Stamp(lo)) && Le(Stamp(lo), stop))
  }

  /** A row with a NULL start is found only through its stop inside the
      window, and a row with neither time is never found. */
  lemma OverlapWithNull(lo: int, hi: int, stop: Value)
    ensures Overlaps(lo, hi, Null, stop) <==> Le(Stamp(lo), stop) && Le(stop, Stamp(hi))
    ensures !Overlaps(lo, hi, Null, Null)
  {
  }

  /** The column a query filters on: mac when the event has one, ip otherwise;
      the value looked up is set whenever the event has a mac or an ip. */
  function KeyColumn(e: Event): (c: string)
    ensures c == "mac" || c == "ip"
    ensures c == "mac" <==> Get(e, "mac") != Null
    ensures Get(e, c) != Null <==> Get(e, "mac") != Null || Get(e, "ip") != Null
  {
    if Get(e, "mac") != Null then "mac" else "ip"
  }

  function Column(row: Row, name: string): Value {
    if name == "mac" then row.mac else row.ip
  }

  /** The row is one the mac or ip plan returns for `key` and `[lo, hi]`. */
  predicate Hit(row: Row, column: string, key: Value, lo: int, hi: int) {
    Column(row, column) == key && Overlaps(lo, hi, row.start, row.stop)
  }

  /** The first row, in id order from `from`, that the plan returns. */
  function FirstHit(t: Table, column: string, key: Value, lo: int, hi: int, from: int): (r: Option<int>)
    requires TableValid(t)
    decreases t.nextId - from
    ensures r.Some? ==>
              && r.value in t.rows && from <= r.value
              && Hit(t.rows[r.value], column, key, lo, hi)
              && forall id | id in t.rows && from <= id < r.value :: !Hit(t.rows[id], column, key, lo, hi)
    ensures r.None? ==>
              forall id | id in t.rows && from <= id :: !Hit(t.rows[id], column, key, lo, hi)
  {
    if from >= t.nextId then None
    else if from in t.rows && Hit(t.rows[from], column, key, lo, hi) then Some(from)
    else FirstHit(t, column, key, lo, hi, from + 1)
  }

  /** A query time shifted by the buffer: text is parsed (raising on text not
      in the format), a datetime is shifted, anything else raises. */
  function ShiftedTime(v: Value): (r: Result<int>)
    ensures v.TimeStr? ==> r == Ok(StringToDto(v.text) + Buffer)
    ensures v.Stamp? ==> r == Ok(v.t + Buffer)
    ensures !v.TimeStr? && !v.Stamp? ==> r.Err?
  {
    if IsText(v) then
      match CalcTimeDiffString(v, Buffer)
      case Ok(s) => Ok(StringToDto(s.text))
      case Err(x) => Err(x)
    else
      match TimeDiff(v, Buffer)
      case Ok(s) => Ok(s.t)
      case Err(x) => Err(x)
  }

  /** `select`: with an id, the row with that id; without one, the first row
      whose mac (or, without a mac, whose ip) is the event's and whose
      interval meets the event's window shifted 30 s forward, if it matches
      the event. */
  function SelectIn(t: Table, e: Event): (r: Result<Option<Event>>)
    requires TableValid(t)
    ensures Get(e, "id") != Null ==>
              var id := Get(e, "id");
              if id.Int? && id.i in t.rows then r == Ok(Some(RowEvent(id.i, t.rows[id.i])))
              else r == Err(IndexError)
    ensures Get(e, "id") == Null && Get(e, "mac") == Null && Get(e, "ip") == Null ==>
              r == Err(NotEnoughData)
    ensures Get(e, "id") == Null && (Get(e, "mac") != Null || Get(e, "ip") != Null) ==>
              (r.Ok? <==> ShiftedTime(Get(e, "start")).Ok? && ShiftedTime(Get(e, "stop")).Ok?)
    ensures Get(e, "id") == Null && r.Ok? ==>
              ShiftedTime(Get(e, "start")).Ok? && ShiftedTime(Get(e, "stop")).Ok?
    ensures Get(e, "id") == Null && r.Ok? && r.value.Some? ==>
              var lo, hi := ShiftedTime(Get(e, "start")).value, ShiftedTime(Get(e, "stop")).value;
              var col := KeyColumn(e);
              exists id | id in t.rows ::
                && r.value.value == RowEvent(id, t.rows[id])
                && Hit(t.rows[id], col, Get(e, col), lo, hi)
                && Matches(r.value.value, e)
                && forall j | j in t.rows && j < id :: !Hit(t.rows[j], col, Get(e, col), lo, hi)
    ensures Get(e, "id") == Null && r == Ok(None) ==>
              var lo, hi := ShiftedTime(Get(e, "start")).value, ShiftedTime(Get(e, "stop")).value;
              var col := KeyColumn(e);
              || (forall id | id in t.rows :: !Hit(t.rows[id], col, Get(e, col), lo, hi))
              || exists id | id in t.rows ::
                   && Hit(t.rows[id], col, Get(e, col), lo, hi)
                   && !Matches(RowEvent(id, t.rows[id]), e)
                   && forall j | j in t.rows && j < id :: !Hit(t.rows[j], col, Get(e, col), lo, hi)
  {
    var id := Get(e, "id");
    if id != Null then
      if id.Int? && id.i in t.rows then Ok(Some(RowEvent(id.i, t.rows[id.i]))) else Err(IndexError)
    else if Get(e, "mac") == Null && Get(e, "ip") == Null then
      Err(NotEnoughData)
    else
      match ShiftedTime(Get(e, "start"))
      case Err(x) => Err(x)
      case Ok(lo) =>
        match ShiftedTime(Get(e, "stop"))
        case Err(x) => Err(x)
        case Ok(hi) =>
          var col := KeyColumn(e);
          match FirstHit(t, col, Get(e, col), lo, hi, 1)
          case None => Ok(None)
          case Some(first) =>
            var found := RowEvent(first, t.rows[first]);
            if Matches(found, e) then Ok(Some(found)) else Ok(None)
  }

  /** `select` as written. The connection's cursor factory is
      `RealDictCursor`, whose rows are `RealDictRow` objects: a subclass of
      dict, not `dict` itself, so `Event(row)` fails its `type(d) is not dict`
      test and raises `Exception('Invalid type')` (the `NotDict` case of
      `Construct`). Every row the query finds therefore raises before it is
      returned, whether it is looked up by id or by mac/ip, and whether or not
      it would have matched. */
  function SelectAsWritten(t: Table, e: Event): (r: Result<Option<Event>>)
    requires TableValid(t)
  {
    var id := Get(e, "id");
    if id != Null then
      if id.Int? && id.i in t.rows then Err(InvalidType) else Err(IndexError)
    else if Get(e, "mac") == Null && Get(e, "ip") == Null then
      Err(NotEnoughData)
    else
      match ShiftedTime(Get(e, "start"))
      case Err(x) => Err(x)
      case Ok(lo) =>
        match ShiftedTime(Get(e, "stop"))
        case Err(x) => Err(x)
        case Ok(hi) =>
          var col := KeyColumn(e);
          if FirstHit(t, col, Get(e, col), lo, hi, 1).None? then Ok(None) else Err(InvalidType)
  }

  /** As written, `select` never hands back a session: where `SelectIn`, which
      builds the event from a plain dict, finds one, the written `select`
      raises; where `SelectIn` raises, so does the written one; and the written
      one returns None only where `SelectIn` does. */
  lemma SelectNeverFinds(t: Table, e: Event)
    requires TableValid(t)
    ensures !(SelectAsWritten(t, e).Ok? && SelectAsWritten(t, e).value.Some?)
    ensures SelectIn(t, e).Ok? && SelectIn(t, e).value.Some? ==>
              SelectAsWritten(t, e) == Err(InvalidType)
    ensures SelectIn(t, e).Err? ==> SelectAsWritten(t, e) == SelectIn(t, e)
    ensures SelectAsWritten(t, e) == Ok(None) ==> SelectIn(t, e) == Ok(None)
  {
  }

  // ---------------------------------------------------------------------
  // The database object
  // ---------------------------------------------------------------------

  /** The `Database` object: the table it owns. */
  class Database {
    var rows: map<int, Row>
    var nextId: int

    ghost predicate Valid()
      reads this
    {
      TableValid(Model())
    }

    function Model(): Table
      reads this
    {
      Table(rows, nextId)
    }

    /** A connection to the `sediment` table as it stands: `rows0` are the
        rows it already holds and `next0` the next value of its id sequence. */
    constructor (rows0: map<int, Row>, next0: int)
      requires TableValid(Table(rows0, next0))
      ensures Valid() && Model() == Table(rows0, next0)
    {
      rows := rows0;
      nextId := next0;
    }

    /** `Database.select`; reads the table only. */
    function Select(e: Event): (r: Result<Option<Event>>)
      reads this
      requires Valid()
      ensures r == SelectIn(Model(), e)
    {
      SelectIn(Model(), e)
    }

    /** `Database.insert`: appends one row; returns True. */
    method Insert(e: Event) returns (r: Result<bool>)
      requires Valid()
      modifies this
      ensures Valid()
      ensures r.Ok? <==> Inserted(old(Model()), e).Ok?
      ensures r.Ok? ==> r.value && Model() == Inserted(old(Model()), e).value
      ensures r.Err? ==> Model() == old(Model()) && r.error == Inserted(old(Model()), e).error
    {
      var codes := InsertCodes(Get(e, "event_type"));
      if codes.Err? {
        return Err(codes.error);
      }
      var row := RowOf(e, codes.value);
      if row.Err? {
        return Err(row.error);
      }
      rows := rows[nextId := row.value];
      nextId := nextId + 1;
      return Ok(true);
    }

    /** `Database.update`: overwrites the row with id `id`; returns True. */
    method Update(e: Event, id: Value) returns (r: Result<bool>)
      requires Valid()
      modifies this
      ensures Valid()
      ensures r.Ok? <==> Updated(old(Model()), e, id).Ok?
      ensures r.Ok? ==> r.value && Model() == Updated(old(Model()), e, id).value
      ensures r.Err? ==> Model() == old(Model()) && r.error == Updated(old(Model()), e, id).error
    {
      var codes := Codes(Get(e, "event_type"));
      if codes.Err? {
        return Err(codes.error);
      }
      var row := RowOf(e, codes.value);
      if row.Err? {
        return Err(row.error);
      }
      if id.Int? && id.i in rows {
        rows := rows[id.i := row.value];
      }
      return Ok(true);
    }

    /** `Database.terminate`: sets the event's stop to `time` and rewrites its
        row; returns the event as it now stands. */
    method Terminate(e: Event, time: Value) returns (r: Result<Event>)
      requires Valid()
      modifies this
      ensures Valid()
      ensures r.Ok? <==> Terminated(old(Model()), e, time).Ok?
      ensures r.Ok? ==> r.value == Terminated(old(Model()), e, time).value.event &&
                        Model() == Terminated(old(Model()), e, time).value.table
      ensures r.Err? ==> Model() == old(Model()) && r.error == Terminated(old(Model()), e, time).error
    {
      var id := Get(e, "id");
      if !Truthy(id) {
        return Err(NoId);
      }
      var e' := e["stop" := time];
      var ok := Update(e', id);
      if ok.Err? {
        return Err(ok.error);
      }
      return Ok(e');
    }
  }
}
