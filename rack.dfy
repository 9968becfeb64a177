/**
 * `OpenBmcHttpClient._on_rack_data` (fsmhttp/proto.py:128-133) up to and
 * around its loop: the two decoding steps that reach the `rack` object, and
 * the walk of every top-level entry of the point configuration. The JSON
 * decoder is a parameter.
 */
module RackData {
  import opened Wrappers
  import opened Json
  import opened Points

  /** The default that `.get('data', ...)` falls back on: a `str`, not a
      mapping. */
  const DefaultData: Json := Str("{\"rack\": {}}")

  /** `json_decode(json_decode(body).get('data', default)['rack'])`;
      `None` stands for any exception on the way. */
  function RackOf(body: string, decode: string -> Option<Json>): Option<Json> {
    match decode(body)
    case None => None
    case Some(top) =>
      if !top.Obj? then None
      else
        var d := match Get(top.fields, "data") case None => DefaultData case Some(x) => x;
        if !d.Obj? then None
        else match Get(d.fields, "rack")
          case None => None
          case Some(r) => if r.Str? then decode(r.str) else None
  }

  /** A body whose top-level object lacks `data` always raises: the default
      is a string, and indexing a string by `'rack'` raises. */
  lemma DefaultDataRaises(body: string, decode: string -> Option<Json>, fs: seq<(string, Json)>)
    requires decode(body) == Some(Obj(fs)) && Get(fs, "data").None?
    ensures RackOf(body, decode).None?
  {
  }

  /** A `data` member that is a string, not a mapping, raises at `['rack']`
      as well. */
  lemma StringDataRaises(body: string, decode: string -> Option<Json>, fs: seq<(string, Json)>, text: string)
    requires decode(body) == Some(Obj(fs)) && Get(fs, "data") == Some(Str(text))
    ensures RackOf(body, decode).None?
  {
  }

  /** The loop `for k, p in points.items(): _process_points(p, rack[k], rack, tm)`
      from the `i`-th entry on; indexing a non-mapping or a missing key raises. */
  function RackFrom(points: seq<(string, PointSpec)>, rack: Json, i: nat, tm: real, render: Json -> string): (e: Emission)
    requires i <= |points|
    ensures forall j :: 0 <= j < |e.out| ==> e.out[j].tm == tm
    decreases |points| - i
  {
    if i == |points| then Emission([], true)
    else if !rack.Obj? then Emission([], false)
    else match Get(rack.fields, points[i].0)
      case None => Emission([], false)
      case Some(x) =>
        var h := Extract(Some(points[i].1), x, rack, tm, render);
        if !h.ok then h else Then(h, RackFrom(points, rack, i + 1, tm, render))
  }

  /** Everything `_on_rack_data` emits for one body. */
  function RackEmission(points: seq<(string, PointSpec)>, body: string, tm: real,
                        decode: string -> Option<Json>, render: Json -> string): Emission
  {
    match RackOf(body, decode)
    case None => Emission([], false)
    case Some(rack) => RackFrom(points, rack, 0, tm, render)
  }

  /** A walk of the configuration that does not raise found every configured
      top-level key in the rack object. */
  lemma {:induction false} RackOkHasKeys(points: seq<(string, PointSpec)>, rack: Json, i: nat, tm: real, render: Json -> string)
    requires i <= |points|
    requires RackFrom(points, rack, i, tm, render).ok
    ensures i < |points| ==> rack.Obj?
    ensures forall j :: i <= j < |points| ==> rack.Obj? && Get(rack.fields, points[j].0).Some?
    decreases |points| - i
  {
    if i < |points| {
      RackOkHasKeys(points, rack, i + 1, tm, render);
    }
  }

  /** The reference for the loop: for each configured key present in the
      rack, the scalars its spec tree selects, in configuration order. */
  function RackSelected(points: seq<(string, PointSpec)>, rack: Json, i: nat): seq<Json>
    requires i <= |points|
    decreases |points| - i
  {
    if i == |points| || !rack.Obj? then []
    else match Get(rack.fields, points[i].0)
      case None => []
      case Some(x) => Selected(Some(points[i].1), Scalars(x)) + RackSelected(points, rack, i + 1)
  }

  /** The loop emits the selected scalars of every configured key in order;
      a loop that raises has emitted a prefix of them. */
  lemma {:induction false} RackSelects(points: seq<(string, PointSpec)>, rack: Json, i: nat, tm: real, render: Json -> string)
    requires i <= |points|
    ensures IsPrefix(Values(RackFrom(points, rack, i, tm, render).out), RackSelected(points, rack, i))
    ensures RackFrom(points, rack, i, tm, render).ok
        ==> Values(RackFrom(points, rack, i, tm, render).out) == RackSelected(points, rack, i)
    decreases |points| - i
  {
    if i < |points| && rack.Obj? {
      match Get(rack.fields, points[i].0)
      case None =>
      case Some(x) =>
        var h := Extract(Some(points[i].1), x, rack, tm, render);
        var here := Selected(Some(points[i].1), Scalars(x));
        var there := RackSelected(points, rack, i + 1);
        var r := RackFrom(points, rack, i + 1, tm, render);
        assert RackSelected(points, rack, i) == here + there;
        assert RackFrom(points, rack, i, tm, render) == if h.ok then Then(h, r) else h;
        ExtractSelects(Some(points[i].1), x, rack, tm, render);
        if h.ok {
          RackSelects(points, rack, i + 1, tm, render);
          ValuesAppend(h.out, r.out);
          PrefixExtend(Values(h.out), here, Values(r.out), there);
        } else {
          PrefixExtend(Values(h.out), here, [], there);
          assert Values(h.out) + [] == Values(h.out);
        }
    }
  }
}
