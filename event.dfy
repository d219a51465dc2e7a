/**
 The event record of geode/event.py: a dictionary from field names to
 values, its kind-name/kind-code tables, the normalising constructor, the
 conflict check `match` (called `matches` by every caller) and `merge`.
 */
module Events {
  import opened Values
  import opened TimeUtils

  /** An `Event` is a dict subclass: a finite map from keys to values. */
  type Event = map<string, Value>

  /** The default duration of an event without a stop time, in seconds. */
  const DefaultDuration := 30

  /** `dict.get`: the value under `k`, or None. */
  function Get(m: Event, k: string): Value {
    if k in m then m[k] else Null
  }

  // ---------------------------------------------------------------------
  // Kind tables
  // ---------------------------------------------------------------------

  /** `Event.types`: kind name to the code stored in the database. */
  const Types: map<string, int> := map[
    "DHCPACK" := 1,
    "DHCPEXPIRE" := 2,
    "DHCPRELEASE" := 3,
    "RELEASE" := 4,
    "tomcat" := 5,
    "wireless_authentication" := 6,
    "saappsrv" := 7,
    "WinEventLog:Security" := 8,
    "access_combined" := 9
  ]

  /** `Event.types_reverse`: code to kind name. */
  const TypesReverse: map<int, string> := map[
    1 := "DHCPACK",
    2 := "DHCPEXPIRE",
    3 := "DHCPRELEASE",
    4 := "RELEASE",
    5 := "tomcat",
    6 := "wireless_authentication",
    7 := "saappsrv",
    8 := "WinEventLog:Security",
    9 := "access_combined"
  ]

  /** The two tables have nine entries each and are inverse to each other. */
  lemma TablesInverse()
    ensures |Types| == 9 && |TypesReverse| == 9
    ensures forall name | name in Types ::
              Types[name] in TypesReverse && TypesReverse[Types[name]] == name
    ensures forall code | code in TypesReverse ::
              TypesReverse[code] in Types && Types[TypesReverse[code]] == code
    ensures TypesReverse.Keys == Types.Values && Types.Keys == TypesReverse.Values
  {
    TypesSize();
    TypesReverseSize();
    NamesRoundTrip();
    CodesRoundTrip();
  }

  lemma TypesSize()
    ensures |Types| == 9
  {
    var m: map<string, int> := map[];
    assert "DHCPACK" !in m;
    m := m["DHCPACK" := 1];
    assert "DHCPEXPIRE" !in m;
    m := m["DHCPEXPIRE" := 2];
    assert "DHCPRELEASE" !in m;
    m := m["DHCPRELEASE" := 3];
    assert "RELEASE" !in m;
    m := m["RELEASE" := 4];
    assert "tomcat" !in m;
    m := m["tomcat" := 5];
    assert "wireless_authentication" !in m;
    m := m["wireless_authentication" := 6];
    assert "saappsrv" !in m;
    m := m["saappsrv" := 7];
    assert "WinEventLog:Security" !in m;
    m := m["WinEventLog:Security" := 8];
    assert "access_combined" !in m;
    m := m["access_combined" := 9];
    assert m == Types;
  }

  lemma TypesReverseSize()
    ensures |TypesReverse| == 9
  {
    var m: map<int, string> := map[];
    assert 1 !in m;
    m := m[1 := "DHCPACK"];
    assert 2 !in m;
    m := m[2 := "DHCPEXPIRE"];
    assert 3 !in m;
    m := m[3 := "DHCPRELEASE"];
    assert 4 !in m;
    m := m[4 := "RELEASE"];
    assert 5 !in m;
    m := m[5 := "tomcat"];
    assert 6 !in m;
    m := m[6 := "wireless_authentication"];
    assert 7 !in m;
    m := m[7 := "saappsrv"];
    assert 8 !in m;
    m := m[8 := "WinEventLog:Security"];
    assert 9 !in m;
    m := m[9 := "access_combined"];
    assert m == TypesReverse;
  }

  lemma NamesRoundTrip()
    ensures forall name | name in Types ::
              Types[name] in TypesReverse && TypesReverse[Types[name]] == name
    ensures Types.Keys == TypesReverse.Values
  {
    assert forall n | n in Types :: Types[n] in TypesReverse && TypesReverse[Types[n]] == n;
  }

  lemma CodesRoundTrip()
    ensures forall code | code in TypesReverse ::
              TypesReverse[code] in Types && Types[TypesReverse[code]] == code
    ensures TypesReverse.Keys == Types.Values
  {
    assert forall c | c in TypesReverse :: TypesReverse[c] in Types && Types[TypesReverse[c]] == c;
  }

  /** `types_reverse.get(x) if type(x) == int else x`: an int becomes its kind
      name (None for an unknown code); every other value is kept. */
  function KindOf(x: Value): (y: Value)
    ensures x.Int? && x.i in TypesReverse ==> y == Str(TypesReverse[x.i])
    ensures x.Int? && x.i !in TypesReverse ==> y == Null
    ensures !x.Int? ==> y == x
  {
    if x.Int? then (if x.i in TypesReverse then Str(TypesReverse[x.i]) else Null) else x
  }

  /** `types.get(x)`: a kind name becomes its code, anything else None. */
  function CodeOf(x: Value): (y: Value)
    ensures y == Null || (y.Int? && y.i in TypesReverse)
  {
    if x.Str? && x.s in Types then Int(Types[x.s]) else Null
  }

  /** Kind names survive the trip to codes and back: names the table knows
      come back unchanged, any other value comes back as None. */
  lemma {:induction false} KindCodeRoundTrip(x: Value)
    ensures x.Str? && x.s in Types ==> KindOf(CodeOf(x)) == x
    ensures !(x.Str? && x.s in Types) ==> KindOf(CodeOf(x)) == Null
  {
    TablesInverse();
  }

  // ---------------------------------------------------------------------
  // Construction
  // ---------------------------------------------------------------------

  /** The argument of `Event(d)`: a dict, or any other value. */
  datatype Raw = Dict(fields: map<string, Value>) | NotDict(other: Value)

  /** The `event_type` branch of the constructor: always a set of kinds. */
  function NormalizeKinds(v: Value): (r: Result<Value>)
    ensures r.Ok? ==> r.value.Set?
    ensures v.List? ==>
              (r.Ok? <==> forall x | x in v.items :: Hashable(x)) &&
              (r.Ok? ==> r.value.elems == set x | x in v.items :: KindOf(x))
    ensures v.Int? ==> r == Ok(Set({KindOf(v)}))
    ensures !v.List? && !v.Int? ==> (r.Ok? <==> Hashable(v)) && (r.Ok? ==> r.value.elems == {v})
    ensures r.Err? ==> r.error == TypeError
  {
    match v
    case List(items) =>
      if forall x | x in items :: Hashable(x) then Ok(Set(set x | x in items :: KindOf(x)))
      else Err(TypeError)
    case Int(_) => Ok(Set({KindOf(v)}))
    case _ => if Hashable(v) then Ok(Set({v})) else Err(TypeError)
  }

  /** The value the constructor stores under key `k` for input value `v`. */
  function NormalizeField(k: string, v: Value): Result<Value> {
    if (k == "start" || k == "stop") && IsText(v) then
      (if v.TimeStr? then Ok(Stamp(StringToDto(v.text))) else Err(ValueError))
    else if k == "event_type" then
      NormalizeKinds(v)
    else if v == Str("") then
      Ok(Null)
    else
      Ok(v)
  }

  /** What the constructor does to one field: a start or stop in text form
      raises unless it is in the format, and is otherwise parsed into the
      instant that formats back to it; kinds always become a set; any other
      field is copied, except that `''` becomes None. */
  lemma NormalizeFieldMeaning(k: string, v: Value)
    ensures NormalizeField(k, v).Err? <==>
              || ((k == "start" || k == "stop") && v.Str?)
              || (k == "event_type" && NormalizeKinds(v).Err?)
    ensures NormalizeField(k, v).Ok? && (k == "start" || k == "stop") && IsText(v) ==>
              NormalizeField(k, v).value.Stamp? && DtoToString(NormalizeField(k, v).value.t) == v.text
    ensures NormalizeField(k, v).Ok? && k == "event_type" ==> NormalizeField(k, v).value.Set?
    ensures k != "event_type" && !((k == "start" || k == "stop") && IsText(v)) ==>
              var r := NormalizeField(k, v);
              && r.Ok?
              && (r.value == Null <==> v == Null || v == Str(""))
              && (r.value != Null ==> r.value == v)
  {
    if (k == "start" || k == "stop") && v.TimeStr? {
      FormatParse(v.text);
    }
  }

  /** No field of the input makes the constructor raise. */
  predicate Clean(f: map<string, Value>) {
    forall k | k in f :: NormalizeField(k, f[k]).Ok?
  }

  /** The event the constructor builds from a dict whose every field is
      accepted. */
  function Normalized(f: map<string, Value>): (ev: Event)
    requires Clean(f)
    ensures ev.Keys == f.Keys
  {
    map k | k in f :: NormalizeField(k, f[k]).value
  }

  /** What construction does to each field: times in text form are parsed,
      `event_type` becomes a set, `''` becomes None except under
      `event_type`, and every other value is copied unchanged. */
  lemma NormalizedFields(f: map<string, Value>)
    requires Clean(f)
    ensures forall k | k in f && (k == "start" || k == "stop") ::
              !f[k].Str? &&
              Normalized(f)[k] == (if f[k].TimeStr? then Stamp(StringToDto(f[k].text)) else f[k])
    ensures "event_type" in f ==> Normalized(f)["event_type"].Set?
    ensures "event_type" in f && f["event_type"] == Str("") ==>
              Normalized(f)["event_type"] == Set({Str("")})
    ensures forall k | k in f && k != "event_type" && f[k] == Str("") :: Normalized(f)[k] == Null
    ensures forall k | k in f && k !in {"start", "stop", "event_type"} && f[k] != Str("") ::
              Normalized(f)[k] == f[k]
  {
  }

  /** `Event.__init__`: raises for a non-dict argument, and otherwise copies
      the dict key by key, normalising each value; a field that cannot be
      normalised raises the error its normalisation raises. */
  method Construct(d: Raw) returns (r: Result<Event>)
    ensures d.NotDict? ==> r == Err(InvalidType)
    ensures d.Dict? && Clean(d.fields) ==> r == Ok(Normalized(d.fields))
    ensures d.Dict? && !Clean(d.fields) ==>
              r.Err? && exists k | k in d.fields :: NormalizeField(k, d.fields[k]) == Err(r.error)
  {
    if d.NotDict? {
      return Err(InvalidType);
    }
    var f := d.fields;
    var todo := f.Keys;
    var ev: Event := map[];
    while todo != {}
      invariant todo <= f.Keys
      invariant forall k | k in f && k !in todo :: NormalizeField(k, f[k]).Ok?
      invariant ev.Keys == f.Keys - todo
      invariant forall k | k in ev :: ev[k] == NormalizeField(k, f[k]).value
      decreases todo
    {
      var k :| k in todo;
      var v := NormalizeField(k, f[k]);
      if v.Err? {
        return Err(v.error);
      }
      ev := ev[k := v.value];
      todo := todo - {k};
    }
    assert ev == Normalized(f);
    return Ok(ev);
  }

  // ---------------------------------------------------------------------
  // match
  // ---------------------------------------------------------------------

  /** The keys `match` removes before comparing. */
  const Ignored: set<string> := {"start", "stop", "id", "event_type", "useragent", "os"}

  /** Key `k` of `a` is conflicting evidence against `e`. */
  predicate Conflict(a: Event, e: Event, k: string) {
    Get(e, k) != Null && Get(a, k) != Get(e, k)
  }

  /** `a.match(e)`: no key of `a` outside `Ignored` conflicts with `e`. */
  predicate Matches(a: Event, e: Event) {
    forall k | k in a && k !in Ignored :: !Conflict(a, e, k)
  }

  /** `Event.match`: walks the keys of `self` that are not ignored and returns
      False at the first conflict. */
  method Match(a: Event, e: Event) returns (b: bool)
    ensures b == Matches(a, e)
  {
    var keys := a.Keys - Ignored;
    while keys != {}
      invariant keys <= a.Keys - Ignored
      invariant forall k | k in a && k !in Ignored && k !in keys :: !Conflict(a, e, k)
      decreases keys
    {
      var k :| k in keys;
      if Get(e, k) == Null || Get(a, k) == Get(e, k) {
        keys := keys - {k};
      } else {
        return false;
      }
    }
    return true;
  }

  /** Every event matches itself. */
  lemma MatchReflexive(a: Event)
    ensures Matches(a, a)
  {
  }

  /** `match` fails exactly when some non-ignored key of `a` meets a different,
      non-None value in `e`. */
  lemma MatchFalseIff(a: Event, e: Event)
    ensures !Matches(a, e) <==>
              exists k | k in a && k !in Ignored :: Get(e, k) != Null && a[k] != Get(e, k)
  {
  }

  /** Ignored keys never decide the outcome: two pairs of events that agree on
      every other key match alike, and keys that only `e` has are never
      examined. */
  lemma MatchIgnoresKeys(a: Event, e: Event, a': Event, e': Event)
    requires forall k | k !in Ignored :: (k in a <==> k in a') && Get(a, k) == Get(a', k)
    requires forall k | k !in Ignored && k in a :: Get(e, k) == Get(e', k)
    ensures Matches(a, e) == Matches(a', e')
  {
    if Matches(a, e) {
      forall k | k in a' && k !in Ignored ensures !Conflict(a', e', k) {
        assert !Conflict(a, e, k);
      }
    } else {
      var k :| k in a && k !in Ignored && Conflict(a, e, k);
      assert Conflict(a', e', k);
    }
  }

  /** A None on `self` conflicts with a value on the other side, but not the
      other way round, so `match` is not symmetric. */
  lemma MatchNotSymmetric(k: string, x: Value)
    requires k !in Ignored && x != Null
    ensures !Matches(map[k := Null], map[k := x])
    ensures Matches(map[k := x], map[k := Null])
  {
    var a: Event := map[k := Null];
    assert Conflict(a, map[k := x], k);
  }

  // ---------------------------------------------------------------------
  // merge
  // ---------------------------------------------------------------------

  /** The keys `merge` does not copy from the other event. */
  const Combined: set<string> := {"start", "stop", "event_type"}

  /** What `merge` leaves behind: both inputs, after the stop time was
      defaulted on them in place, and the merged event. */
  datatype MergeOutcome = MergeOutcome(self: Event, other: Event, merged: Event)

  /** `if not x.get('stop'): x['stop'] = x.get('start') + 30s`. */
  function DefaultStop(x: Event): (r: Result<Event>)
    ensures Truthy(Get(x, "stop")) ==> r == Ok(x)
    ensures !Truthy(Get(x, "stop")) ==>
              (r.Ok? <==> Get(x, "start").Stamp?) &&
              (r.Ok? ==> r.value == x["stop" := Stamp(x["start"].t + DefaultDuration)])
    ensures r.Err? ==> r.error == TypeError
  {
    if Truthy(Get(x, "stop")) then Ok(x)
    else if Get(x, "start").Stamp? then Ok(x["stop" := Stamp(x["start"].t + DefaultDuration)])
    else Err(TypeError)
  }

  /** Both events can take part in a merge once their stops are defaulted:
      datetimes to compare, and sets of kinds to join. */
  predicate Mergeable(a: Event, e: Event) {
    && Get(a, "start").Stamp? && Get(e, "start").Stamp?
    && Get(a, "stop").Stamp? && Get(e, "stop").Stamp?
    && Get(a, "event_type").Set? && Get(e, "event_type").Set?
  }

  /** `self.merge(e)` on events whose stops are already defaulted: it
      succeeds exactly when both intervals are datetimes and both kinds are
      sets, and then spans both intervals, joins the kinds and holds the keys
      of both events. */
  function MergeDefaulted(a: Event, e: Event): (r: Result<Event>)
    ensures r.Ok? <==>
              && Get(a, "start").Stamp? && Get(e, "start").Stamp?
              && Get(a, "stop").Stamp? && Get(e, "stop").Stamp?
              && "event_type" in a && a["event_type"].Set? && Get(e, "event_type").Set?
    ensures r.Ok? ==>
              var m := r.value;
              && m.Keys == a.Keys + e.Keys
              && m["start"].Stamp? && m["stop"].Stamp? && m["event_type"].Set?
              && m["start"].t <= a["start"].t && m["start"].t <= e["start"].t
              && (m["start"] == a["start"] || m["start"] == e["start"])
              && a["stop"].t <= m["stop"].t && e["stop"].t <= m["stop"].t
              && (m["stop"] == a["stop"] || m["stop"] == e["stop"])
              && m["event_type"].elems == a["event_type"].elems + e["event_type"].elems
  {
    if !(Get(a, "start").Stamp? && Get(e, "start").Stamp? &&
         Get(a, "stop").Stamp? && Get(e, "stop").Stamp?) then
      Err(TypeError)
    else if "event_type" !in a then
      Err(KeyError)
    else if !(a["event_type"].Set? && Get(e, "event_type").Set?) then
      Err(TypeError)
    else
      var tmp := a["start" := Stamp(Min(a["start"].t, e["start"].t))]
                  ["stop" := Stamp(Max(a["stop"].t, e["stop"].t))]
                  ["event_type" := Set(a["event_type"].elems + e["event_type"].elems)];
      Ok(tmp + map k | k in e && k !in Combined :: e[k])
  }

  /** `self.merge(e)`: defaults both stops in place, then builds the merged
      event. */
  function Merged(a: Event, e: Event): (r: Result<MergeOutcome>)
  {
    match DefaultStop(a)
    case Err(x) => Err(x)
    case Ok(a1) =>
      match DefaultStop(e)
      case Err(x) => Err(x)
      case Ok(e1) =>
        match MergeDefaulted(a1, e1)
        case Err(x) => Err(x)
        case Ok(m) => Ok(MergeOutcome(a1, e1, m))
  }

  /** `Event.merge`: copies `self`, takes the earliest start and the latest
      stop, joins the kinds, then copies the other event's remaining keys one
      by one. */
  method Merge(a: Event, e: Event) returns (r: Result<MergeOutcome>)
    ensures r == Merged(a, e)
  {
    var a1 := DefaultStop(a);
    if a1.Err? {
      return Err(a1.error);
    }
    var e1 := DefaultStop(e);
    if e1.Err? {
      return Err(e1.error);
    }
    var self, other := a1.value, e1.value;
    if !(Get(self, "start").Stamp? && Get(other, "start").Stamp? &&
         Get(self, "stop").Stamp? && Get(other, "stop").Stamp?) {
      return Err(TypeError);
    }
    if "event_type" !in self {
      return Err(KeyError);
    }
    if !(self["event_type"].Set? && Get(other, "event_type").Set?) {
      return Err(TypeError);
    }
    var tmp := self["start" := Stamp(Min(self["start"].t, other["start"].t))]
                   ["stop" := Stamp(Max(self["stop"].t, other["stop"].t))]
                   ["event_type" := Set(self["event_type"].elems + other["event_type"].elems)];
    var keys := other.Keys - Combined;
    ghost var base := tmp;
    while keys != {}
      invariant keys <= other.Keys - Combined
      invariant tmp.Keys == base.Keys + (other.Keys - Combined - keys)
      invariant forall k | k in tmp ::
                  tmp[k] == if k in other && k !in Combined && k !in keys then other[k] else base[k]
      decreases keys
    {
      var k :| k in keys;
      tmp := tmp[k := other[k]];
      keys := keys - {k};
    }
    assert tmp == base + map k | k in other && k !in Combined :: other[k];
    return Ok(MergeOutcome(self, other, tmp));
  }

  /** A merge succeeds exactly when both events have datetime starts, stops
      that are datetimes or can be defaulted, and sets of kinds; it is then
      the earliest start, the latest stop and the union of the kinds. */
  lemma MergeInterval(a: Event, e: Event)
    ensures Merged(a, e).Ok? <==>
              DefaultStop(a).Ok? && DefaultStop(e).Ok? &&
              Mergeable(DefaultStop(a).value, DefaultStop(e).value)
    ensures Merged(a, e).Ok? ==>
              var o := Merged(a, e).value;
              && o.merged["start"] == Stamp(Min(a["start"].t, e["start"].t))
              && o.merged["stop"] == Stamp(Max(o.self["stop"].t, o.other["stop"].t))
              && o.merged["event_type"] == Set(a["event_type"].elems + e["event_type"].elems)
  {
  }
  /** Keys of the other event override the result, even with None; keys only
      `self` has keep their value; the inputs change only by the defaulted
      stop. */
  lemma MergeFields(a: Event, e: Event)
    requires Merged(a, e).Ok?
    ensures var o := Merged(a, e).value;
            && o.merged.Keys == a.Keys + e.Keys + {"stop"}
            && (forall k | k in e && k !in Combined :: o.merged[k] == e[k])
            && (forall k | k in a && k !in e && k !in Combined :: o.merged[k] == a[k])
            && o.self.Keys == a.Keys + {"stop"} && o.other.Keys == e.Keys + {"stop"}
            && (forall k | k in a && k != "stop" :: o.self[k] == a[k])
            && (forall k | k in e && k != "stop" :: o.other[k] == e[k])
  {
  }

  /** On the start, the stop and the kinds a merge does not depend on the
      order of its arguments, and it succeeds in one order iff in the other. */
  lemma MergeCommutesOnInterval(a: Event, e: Event)
    ensures Merged(a, e).Ok? <==> Merged(e, a).Ok?
    ensures Merged(a, e).Ok? ==>
              var m, m' := Merged(a, e).value.merged, Merged(e, a).value.merged;
              m["start"] == m'["start"] && m["stop"] == m'["stop"] &&
              m["event_type"] == m'["event_type"]
  {
  }

  /** Merging the same observation a second time changes nothing: the result
      of a merge absorbs the event it was merged with. */
  lemma MergeRedelivery(a: Event, e: Event)
    requires Merged(a, e).Ok?
    ensures Merged(Merged(a, e).value.merged, e).Ok?
    ensures Merged(Merged(a, e).value.merged, e).value.merged == Merged(a, e).value.merged
  {
    var o := Merged(a, e).value;
    var m := o.merged;
    MergeFields(a, e);
    MergeInterval(a, e);
    assert Truthy(Get(m, "stop"));
    assert DefaultStop(m) == Ok(m);
    assert DefaultStop(e) == Ok(o.other);
    MergeAbsorbs(m, o.other);
  }

  /** A merged event that already spans `e`, holds its kinds and agrees with
      its other keys is a fixed point of merging `e` into it. */
  lemma MergeAbsorbs(m: Event, e: Event)
    requires "start" in m && "stop" in m && "event_type" in m
    requires m["start"].Stamp? && m["stop"].Stamp? && m["event_type"].Set?
    requires "start" in e && "stop" in e && e["start"].Stamp? && e["stop"].Stamp?
    requires Get(e, "event_type").Set? && e["event_type"].elems <= m["event_type"].elems
    requires m["start"].t <= e["start"].t && e["stop"].t <= m["stop"].t
    requires forall k | k in e && k !in Combined :: k in m && m[k] == e[k]
    ensures MergeDefaulted(m, e) == Ok(m)
  {
    assert m["event_type"].elems + e["event_type"].elems == m["event_type"].elems;
    var tmp := m["start" := Stamp(Min(m["start"].t, e["start"].t))]
                ["stop" := Stamp(Max(m["stop"].t, e["stop"].t))]
                ["event_type" := Set(m["event_type"].elems + e["event_type"].elems)];
    assert tmp == m;
    var r := tmp + map k | k in e && k !in Combined :: e[k];
    assert MergeDefaulted(m, e) == Ok(r);
    forall k | k in r ensures k in m && r[k] == m[k] {
    }
    assert r.Keys == m.Keys;
    assert r == m;
  }

  // ---------------------------------------------------------------------
  // The three events of tests/test_event.py (their calendar days left open)
  // ---------------------------------------------------------------------

  /** `event1`: from the telemetry source, with an empty ip. */
  function SampleFromSource(day: int): map<string, Value> {
    map[
      "ip" := Str(""),
      "mac" := Str("ff:ff:ff:ff:ff:ff"),
      "netid" := Str("abc12345"),
      "start" := TimeStr(Civil(day, 11, 11, 22)),
      "stop" := TimeStr(Civil(day, 11, 41, 22)),
      "event_type" := Str("wireless_authentication")
    ]
  }

  /** `event2`: a stored row, with an empty netid and two kind codes. */
  function SampleFromStore(day: int): map<string, Value> {
    map[
      "id" := Int(1),
      "ip" := Str("127.0.0.1"),
      "mac" := Str("ff:ff:ff:ff:ff:ff"),
      "netid" := Str(""),
      "start" := Stamp(day * SecondsPerDay + 11 * 3600 + 22 * 60),
      "stop" := Stamp(day * SecondsPerDay + 21 * 3600 + 11 * 60),
      "event_type" := List([Int(1), Int(2)])
    ]
  }

  /** `event3`: an ip-only event. */
  function SampleIpOnly(day: int): map<string, Value> {
    map[
      "ip" := Str("127.0.0.1"),
      "start" := TimeStr(Civil(day, 0, 0, 0)),
      "stop" := TimeStr(Civil(day, 0, 30, 0)),
      "user_agent" := Str("test user agent string")
    ]
  }

  /** The constructor accepts event1: its empty ip becomes None and its one
      kind a singleton set. */
  lemma SampleFromSourceBuilt(day: int)
    ensures Clean(SampleFromSource(day))
    ensures var e1 := Normalized(SampleFromSource(day));
            e1["ip"] == Null && e1["netid"] == Str("abc12345") &&
            e1["start"] == Stamp(day * SecondsPerDay + 11 * 3600 + 11 * 60 + 22) &&
            e1["stop"] == Stamp(day * SecondsPerDay + 11 * 3600 + 41 * 60 + 22) &&
            e1["event_type"] == Set({Str("wireless_authentication")})
  {
    var f1 := SampleFromSource(day);
    assert NormalizeField("ip", f1["ip"]) == Ok(Null);
    assert Clean(f1);
  }

  /** The constructor accepts event2: its empty netid becomes None and its
      kind codes become the names DHCPACK and DHCPEXPIRE. */
  lemma SampleFromStoreBuilt(day: int)
    ensures Clean(SampleFromStore(day))
    ensures var e2 := Normalized(SampleFromStore(day));
            e2["netid"] == Null && e2["ip"] == Str("127.0.0.1") && e2["id"] == Int(1) &&
            e2["start"] == Stamp(day * SecondsPerDay + 11 * 3600 + 22 * 60) &&
            e2["stop"] == Stamp(day * SecondsPerDay + 21 * 3600 + 11 * 60) &&
            e2["event_type"] == Set({Str("DHCPACK"), Str("DHCPEXPIRE")})
  {
    var f2 := SampleFromStore(day);
    StoreKinds(f2["event_type"]);
    assert NormalizeField("netid", f2["netid"]) == Ok(Null);
    assert Clean(f2);
  }

  /** The kind codes 1 and 2 of event2 name DHCPACK and DHCPEXPIRE. */
  lemma StoreKinds(v: Value)
    requires v == List([Int(1), Int(2)])
    ensures NormalizeField("event_type", v) == Ok(Set({Str("DHCPACK"), Str("DHCPEXPIRE")}))
  {
    var kinds := [Int(1), Int(2)];
    assert KindOf(Int(1)) == Str("DHCPACK") && KindOf(Int(2)) == Str("DHCPEXPIRE");
    assert (set x | x in kinds :: KindOf(x)) == {Str("DHCPACK"), Str("DHCPEXPIRE")};
  }

  /** The constructor accepts event3, which has no mac. */
  lemma SampleIpOnlyBuilt(day: int)
    ensures Clean(SampleIpOnly(day))
    ensures "mac" !in Normalized(SampleIpOnly(day)) && "netid" !in Normalized(SampleIpOnly(day))
    ensures Normalized(SampleIpOnly(day))["ip"] == Str("127.0.0.1")
  {
    assert Clean(SampleIpOnly(day));
  }

  /** On the test events, `match` as written gives False for event1 against
      event2: the None ip of event1 conflicts with event2's ip (the test
      expects True). */
  lemma SampleMatch12(day: int)
    ensures Clean(SampleFromSource(day)) && Clean(SampleFromStore(day))
    ensures !Matches(Normalized(SampleFromSource(day)), Normalized(SampleFromStore(day)))
  {
    SampleFromSourceBuilt(day);
    SampleFromStoreBuilt(day);
    var e1, e2 := Normalized(SampleFromSource(day)), Normalized(SampleFromStore(day));
    assert Get(e1, "ip") == Null && Get(e2, "ip") == Str("127.0.0.1");
    assert "ip" in e1 && "ip" !in Ignored && Conflict(e1, e2, "ip");
  }

  /** event2 matches event3 as written, since event3 has neither a mac nor a
      netid to conflict with (the test expects False). */
  lemma SampleMatch23(day: int, day3: int)
    ensures Clean(SampleFromStore(day)) && Clean(SampleIpOnly(day3))
    ensures Matches(Normalized(SampleFromStore(day)), Normalized(SampleIpOnly(day3)))
  {
    SampleFromStoreBuilt(day);
    SampleIpOnlyBuilt(day3);
    var e2, e3 := Normalized(SampleFromStore(day)), Normalized(SampleIpOnly(day3));
    forall k | k in e2 && k !in Ignored ensures !Conflict(e2, e3, k) {
      assert k == "ip" || k == "mac" || k == "netid";
    }
  }

  /** Merging event2 into event1 as written takes event2's None netid, where
      the test expects event1's 'abc12345'; start, stop and kinds are as the
      test expects. */
  lemma SampleMerge(day: int)
    ensures Clean(SampleFromSource(day)) && Clean(SampleFromStore(day))
    ensures var e1, e2 := Normalized(SampleFromSource(day)), Normalized(SampleFromStore(day));
            var r := Merged(e1, e2);
            && r.Ok?
            && r.value.merged["netid"] == Null
            && r.value.merged["start"] == e1["start"]
            && r.value.merged["stop"] == e2["stop"]
            && r.value.merged["event_type"] ==
                 Set({Str("wireless_authentication"), Str("DHCPACK"), Str("DHCPEXPIRE")})
  {
    SampleFromSourceBuilt(day);
    SampleFromStoreBuilt(day);
    var e1, e2 := Normalized(SampleFromSource(day)), Normalized(SampleFromStore(day));
    assert "netid" in e2 && e2["netid"] == Null;
    assert e1["event_type"].elems + e2["event_type"].elems ==
           {Str("wireless_authentication"), Str("DHCPACK"), Str("DHCPEXPIRE")};
    MergeEarlierIntoLater(e1, e2);
  }

  lemma MergeEarlierIntoLater(e1: Event, e2: Event)
    requires "start" in e1 && "stop" in e1 && "event_type" in e1
    requires "start" in e2 && "stop" in e2 && "event_type" in e2 && "netid" in e2
    requires e1["start"].Stamp? && e1["stop"].Stamp? && e2["start"].Stamp? && e2["stop"].Stamp?
    requires e1["start"].t <= e2["start"].t && e1["stop"].t <= e2["stop"].t
    requires e1["event_type"].Set? && e2["event_type"].Set?
    ensures var r := Merged(e1, e2);
            && r.Ok?
            && r.value.merged["netid"] == e2["netid"]
            && r.value.merged["start"] == e1["start"]
            && r.value.merged["stop"] == e2["stop"]
            && r.value.merged["event_type"] == Set(e1["event_type"].elems + e2["event_type"].elems)
  {
    assert DefaultStop(e1) == Ok(e1) && DefaultStop(e2) == Ok(e2);
    MergeInterval(e1, e2);
    MergeFields(e1, e2);
  }
}
