/** The work `st_folium` does before handing its arguments to the front end:
    the script of the map (renumbered, with the second map of a DualMap
    renamed, the `alert(coords);` popup removed and a `drawnItems`
    declaration guaranteed), and the default return value built from the
    map's bounds and zoom and filtered by `returned_objects`. */
module Component {
  import opened Text
  import opened Wrappers
  import opened Leaflet
  import opened LeafletProps

  // ---------------------------------------------------------------------------
  // The script.

  const Alert := "alert(coords);"
  const DrawnItemsDecl := "\nvar drawnItems = [];"

  /** `get_full_id(m)`: the name of the JavaScript variable of a map, taken
      from the first map of a DualMap. */
  function FullId(m: Node): (r: string)
    reads if m.kind.DualMap? then {m.kind.m1} else {m}
    ensures var x := if m.kind.DualMap? then m.kind.m1 else m;
      |r| == |x.name| + 1 + |x.id| && r[|x.name|] == '_' && r[|x.name| + 1..] == x.id &&
      (forall k :: 0 <= k < |x.name| ==> !('A' <= r[k] <= 'Z')) &&
      (forall k :: 0 <= k < |x.name| && !('A' <= x.name[k] <= 'Z') ==> r[k] == x.name[k])
  {
    var x := if m.kind.DualMap? then m.kind.m1 else m;
    Lower(x.name) + "_" + x.id
  }

  /** Two maps with the same id have the same variable name exactly when
      their names agree once lower-cased. */
  lemma FullIdSameId(m1: Node, m2: Node)
    requires !m1.kind.DualMap? && !m2.kind.DualMap? && m1.id == m2.id
    ensures FullId(m1) == FullId(m2) <==> Lower(m1.name) == Lower(m2.name)
  {
    if FullId(m1) == FullId(m2) {
      assert |m1.name| == |m2.name|;
      assert FullId(m1)[..|m1.name|] == Lower(m1.name);
      assert FullId(m2)[..|m2.name|] == Lower(m2.name);
    }
  }

  /** The declaration appended to a script without `drawnItems` has it. */
  lemma DeclHasDrawnItems()
    ensures OccursAt(DrawnItemsDecl, "drawnItems", 5)
  {
  }

  /** Lines 184-187 of `st_folium`: every `alert(coords);` is removed in one
      pass, then a `drawnItems` declaration is appended when none is left. The
      result always declares `drawnItems`, and text is appended only when it
      was absent. */
  function Finish(leaflet: string): (s: string)
    ensures Contains(s, "drawnItems")
    ensures var t := ReplaceAll(leaflet, Alert, ""); s == t || s == t + DrawnItemsDecl
    ensures var t := ReplaceAll(leaflet, Alert, "");
      |t| <= |s| && s[..|t|] == t && (s == t <==> Contains(t, "drawnItems"))
  {
    var t := ReplaceAll(leaflet, Alert, "");
    if Contains(t, "drawnItems") then t
    else
      DeclHasDrawnItems();
      ContainsSuffix(t, DrawnItemsDecl, "drawnItems", 5);
      t + DrawnItemsDecl
  }

  /** The script `st_folium` sends: the map is renumbered with base id
      "map_div"; for a DualMap the second map's variable, as `get_full_id`
      gives it after the renumbering, is renamed "map_div2"; then `Finish`.
      `mId` is the id sent along with it. Both maps of a DualMap are
      renumbered "0", so `mId` and the second map's variable coincide when
      the two maps have the same name. An exception from the generation
      escapes. */
  method StFoliumScript(fig: Node, r: Renderer) returns (res: Outcome, mId: string)
    requires fig.Valid()
    modifies fig.Repr
    ensures var g := Gen(old(fig.Abs()), true, "map_div", [], r);
      fig.Abs() == g.tree && (res.Ok? <==> g.out.Ok?) && (!g.out.Ok? ==> res == g.out)
    ensures res.Ok? ==>
      var g := Gen(old(fig.Abs()), true, "map_div", [], r);
      var whole := ApplyAll(g.ms, g.out.text);
      res.text == Finish(if fig.kind.DualMap? then ReplaceAll(whole, FullId(fig.kind.m2), "map_div2") else whole)
    ensures fig.id == "map_div"
    ensures !fig.kind.DualMap? ==> mId == Lower(fig.name) + "_" + fig.id
    ensures fig.kind.DualMap? && res.Ok? ==>
      fig.kind.m1.id == "0" && fig.kind.m2.id == "0" &&
      mId == FullId(fig.kind.m1) &&
      (fig.kind.m1.kind.Plain? && fig.kind.m2.kind.Plain? ==>
        (mId == FullId(fig.kind.m2) <==> Lower(fig.kind.m1.name) == Lower(fig.kind.m2.name)))
  {
    ghost var t0 := fig.Abs();
    ghost var g := Gen(t0, true, "map_div", [], r);
    res := GenerateLeafletString(fig, true, "map_div", r);
    assert fig.id == g.tree.id == "map_div";
    if !res.Ok? {
      mId := FullId(if fig.kind.DualMap? then fig.kind.m1 else fig);
      return;
    }
    var leaflet := res.text;
    if fig.kind.DualMap? {
      var m1, m2 := fig.kind.m1, fig.kind.m2;
      DualMapBothZero(t0, true, "map_div", [], r);
      assert m1.id == m1.Abs().id == "0" && m2.id == m2.Abs().id == "0";
      mId := FullId(m1);
      if m1.kind.Plain? && m2.kind.Plain? {
        FullIdSameId(m1, m2);
      }
      var m2Id := FullId(m2);
      leaflet := ReplaceAll(leaflet, m2Id, "map_div2");
    } else {
      mId := FullId(fig);
    }
    res := Ok(Finish(leaflet));
  }

  // ---------------------------------------------------------------------------
  // The default return value.

  /** The JSON-like values of the default dict. Coordinates and the zoom are
      passed through without being looked at. */
  datatype Json = JNull | JNum(x: real) | JObj(fields: seq<(string, Json)>)

  /** A coordinate as `get_bounds` gives it: a number or None. */
  function CoordJson(c: Option<real>): Json {
    if c.Some? then JNum(c.value) else JNull
  }

  function JsonCoord(j: Json): Option<Option<real>> {
    match j
    case JNull => Some(None)
    case JNum(x) => Some(Some(x))
    case JObj(_) => None
  }

  /** `bounds_to_dict`: `[[s, w], [n, e]]` becomes
      `{"_southWest": {"lat": s, "lng": w}, "_northEast": {"lat": n, "lng": e}}`.
      The unpacking demands exactly two corners of at least two numbers. */
  function BoundsToDict(b: seq<seq<Option<real>>>): (d: Json)
    requires |b| == 2 && |b[0]| >= 2 && |b[1]| >= 2
    ensures DictToBounds(d) == Some([b[0][..2], b[1][..2]])
  {
    assert [b[0][0], b[0][1]] == b[0][..2] && [b[1][0], b[1][1]] == b[1][..2];
    JObj([("_southWest", JObj([("lat", CoordJson(b[0][0])), ("lng", CoordJson(b[0][1]))])),
          ("_northEast", JObj([("lat", CoordJson(b[1][0])), ("lng", CoordJson(b[1][1]))]))])
  }

  /** Reads a corner back from `{"lat": .., "lng": ..}`. */
  function CornerOf(j: Json): Option<seq<Option<real>>> {
    if j.JObj? && |j.fields| == 2 && j.fields[0].0 == "lat" && j.fields[1].0 == "lng" &&
       JsonCoord(j.fields[0].1).Some? && JsonCoord(j.fields[1].1).Some?
    then Some([JsonCoord(j.fields[0].1).value, JsonCoord(j.fields[1].1).value])
    else None
  }

  /** The inverse of `BoundsToDict`: the two corners, when `d` has its shape. */
  function DictToBounds(d: Json): Option<seq<seq<Option<real>>>> {
    if d.JObj? && |d.fields| == 2 && d.fields[0].0 == "_southWest" && d.fields[1].0 == "_northEast" &&
       CornerOf(d.fields[0].1).Some? && CornerOf(d.fields[1].1).Some?
    then Some([CornerOf(d.fields[0].1).value, CornerOf(d.fields[1].1).value])
    else None
  }

  /** Every dict with the shape of a bounds dict is the dict of its bounds. */
  lemma DictToBoundsInverse(d: Json)
    requires DictToBounds(d).Some?
    ensures BoundsToDict(DictToBounds(d).value) == d
  {
    var sw, ne := d.fields[0].1, d.fields[1].1;
    assert JObj([("lat", CoordJson(JsonCoord(sw.fields[0].1).value)),
                 ("lng", CoordJson(JsonCoord(sw.fields[1].1).value))]).fields == sw.fields;
    assert JObj([("lat", CoordJson(JsonCoord(ne.fields[0].1).value)),
                 ("lng", CoordJson(JsonCoord(ne.fields[1].1).value))]).fields == ne.fields;
    assert [("_southWest", sw), ("_northEast", ne)] == d.fields;
  }

  /** `fig.get_bounds()`, which may raise AttributeError. */
  datatype BoundsAttempt = Bounds(b: seq<seq<Option<real>>>) | NoBounds

  /** The `bounds` entry: the map's bounds, or four None coordinates when
      `get_bounds` raised AttributeError. */
  function ResolveBounds(a: BoundsAttempt): (d: Json)
    requires a.Bounds? ==> |a.b| == 2 && |a.b[0]| >= 2 && |a.b[1]| >= 2
    ensures a.NoBounds? ==> DictToBounds(d) == Some([[None, None], [None, None]])
    ensures a.Bounds? ==> DictToBounds(d) == Some([a.b[0][..2], a.b[1][..2]])
  {
    match a
    case Bounds(b) => BoundsToDict(b)
    case NoBounds => BoundsToDict([[None, None], [None, None]])
  }

  /** `fig.options.get("zoom") if hasattr(fig, "options") else {}`: `options`
      is None when the object has no `options` attribute. */
  function Zoom(options: Option<seq<(string, Json)>>): (z: Json)
    ensures options.None? ==> z == JObj([])
    ensures options.Some? && "zoom" !in KeyList(options.value) ==> z == JNull
    ensures options.Some? ==> forall i ::
      (0 <= i < |options.value| && options.value[i].0 == "zoom" && "zoom" !in KeyList(options.value[..i]))
      ==> z == options.value[i].1
  {
    if options.None? then JObj([]) else Get(options.value, "zoom")
  }

  /** `d.get(k)`: the value of the first entry with key `k`, or None. */
  function Get(d: seq<(string, Json)>, k: string): (v: Json)
    ensures k !in KeyList(d) ==> v == JNull
    ensures forall i :: 0 <= i < |d| && d[i].0 == k && k !in KeyList(d[..i]) ==> v == d[i].1
  {
    if d == [] then JNull
    else if d[0].0 == k then d[0].1
    else
      assert forall i :: 1 <= i < |d| ==> KeyList(d[..i]) == [d[0].0] + KeyList(d[1..][..i - 1]);
      Get(d[1..], k)
  }

  /** The eight keys of the default value, in their fixed order. */
  const DefaultKeys := ["last_clicked", "last_object_clicked", "all_drawings",
                        "last_active_drawing", "bounds", "zoom",
                        "last_circle_radius", "last_circle_polygon"]

  /** `_defaults`: everything None except the bounds and the zoom. */
  function Defaults(bounds: Json, zoom: Json): (d: seq<(string, Json)>)
    ensures KeyList(d) == DefaultKeys
    ensures d[4] == ("bounds", bounds) && d[5] == ("zoom", zoom)
    ensures forall i :: 0 <= i < |d| && i != 4 && i != 5 ==> d[i].1 == JNull
  {
    [("last_clicked", JNull), ("last_object_clicked", JNull), ("all_drawings", JNull),
     ("last_active_drawing", JNull), ("bounds", bounds), ("zoom", zoom),
     ("last_circle_radius", JNull), ("last_circle_polygon", JNull)]
  }

  /** The condition of the comprehension: `returned_objects is None or k in
      returned_objects`. */
  predicate Keep(k: string, returned: Option<seq<string>>) {
    returned.None? || k in returned.value
  }

  /** `xs` is `ys` with some entries left out, the rest in the same order. */
  predicate IsSubseq<T(==)>(xs: seq<T>, ys: seq<T>)
    decreases |ys|
  {
    if xs == [] then true
    else if ys == [] then false
    else (xs[0] == ys[0] && IsSubseq(xs[1..], ys[1..])) || IsSubseq(xs, ys[1..])
  }

  /** `{k: v for k, v in d.items() if returned_objects is None or k in
      returned_objects}`: the entries kept are exactly those whose key passes
      the test, in their original order. */
  function FilterDefaults(d: seq<(string, Json)>, returned: Option<seq<string>>): (r: seq<(string, Json)>)
    ensures forall kv :: kv in r <==> kv in d && Keep(kv.0, returned)
    ensures IsSubseq(r, d)
  {
    if d == [] then []
    else if Keep(d[0].0, returned) then [d[0]] + FilterDefaults(d[1..], returned)
    else FilterDefaults(d[1..], returned)
  }

  /** The keys that pass the test, in their order. */
  function KeepKeys(ks: seq<string>, returned: Option<seq<string>>): (r: seq<string>)
    ensures forall k :: k in r <==> k in ks && Keep(k, returned)
    ensures IsSubseq(r, ks)
  {
    if ks == [] then []
    else if Keep(ks[0], returned) then [ks[0]] + KeepKeys(ks[1..], returned)
    else KeepKeys(ks[1..], returned)
  }

  /** Filtering the entries filters their keys the same way. */
  lemma {:induction false} FilterKeys(d: seq<(string, Json)>, returned: Option<seq<string>>)
    ensures KeyList(FilterDefaults(d, returned)) == KeepKeys(KeyList(d), returned)
  {
    if d != [] {
      FilterKeys(d[1..], returned);
      assert KeyList(d)[1..] == KeyList(d[1..]);
    }
  }

  /** The value `st_folium` passes as `default`: the defaults whose keys pass
      the test, in the fixed order, the bounds and the zoom among them when
      asked for. */
  function ComponentDefaults(bounds: BoundsAttempt, options: Option<seq<(string, Json)>>,
                             returned: Option<seq<string>>): (r: seq<(string, Json)>)
    requires bounds.Bounds? ==> |bounds.b| == 2 && |bounds.b[0]| >= 2 && |bounds.b[1]| >= 2
    ensures KeyList(r) == KeepKeys(DefaultKeys, returned)
    ensures Keep("bounds", returned) ==> ("bounds", ResolveBounds(bounds)) in r
    ensures Keep("zoom", returned) ==> ("zoom", Zoom(options)) in r
    ensures forall kv :: kv in r && kv.0 != "bounds" && kv.0 != "zoom" ==> kv.1 == JNull
  {
    var d := Defaults(ResolveBounds(bounds), Zoom(options));
    FilterKeys(d, returned);
    assert d[4] in d && d[5] in d;
    DefaultsOthersNull(ResolveBounds(bounds), Zoom(options));
    FilterDefaults(d, returned)
  }

  /** Every default other than the bounds and the zoom is None. */
  lemma DefaultsOthersNull(bounds: Json, zoom: Json)
    ensures forall kv :: kv in Defaults(bounds, zoom) && kv.0 != "bounds" && kv.0 != "zoom" ==> kv.1 == JNull
  {
    var d := Defaults(bounds, zoom);
    forall kv | kv in d && kv.0 != "bounds" && kv.0 != "zoom"
      ensures kv.1 == JNull
    {
      var i :| 0 <= i < |d| && d[i] == kv;
      assert i != 4 && i != 5;
    }
  }

  /** With `returned_objects=None` every default is returned. */
  lemma {:induction false} FilterNone(d: seq<(string, Json)>)
    ensures FilterDefaults(d, None) == d
  {
    if d != [] {
      FilterNone(d[1..]);
    }
  }
}
