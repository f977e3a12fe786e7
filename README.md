# streamlit-folium: the script and defaults pipeline in Dafny

streamlit-folium shows a folium map inside a Streamlit app. Before the
browser component is mounted, `st_folium` turns the map into a JavaScript
script whose variable names do not change from run to run. It also builds
the component's default return value and derives a re-mount key from the
script. This project models that pipeline and proves what it guarantees.

- `text.dfy` (module `Text`) holds the Python string built-ins the adapter
  relies on:
  - `str.replace`: leftmost, non-overlapping, one pass;
  - `sub in s`;
  - `str(int)`;
  - ASCII `str.lower`.
- `leaflet.dfy` (module `Leaflet`) models `_generate_leaflet_string` and
  `generate_leaflet_string`.
  - The map elements are objects of class `Node`. The walk changes only
    their `id` field, in place.
  - The shared `mappings` dict is an object of class `IdMappings`. Its
    entries are kept in insertion order.
  - The methods are proved against `Gen`, a function on a value copy of the
    element tree (`Node.Abs`). `Gen` records the old id before the new one
    is written.
  - The last replacement pass is proved against `ApplyAll`.
  - Template rendering is a `Renderer` parameter. Its two functions are the
    template's `script` macro and the fallback `render`, and each returns
    text or one of the two exceptions the adapter catches.
- `leaflet_props.dfy` (module `LeafletProps`) proves properties of `Gen`:
  - the mapping only grows, and it only writes the ids of visited elements;
  - old ids are captured before they are mutated;
  - children are numbered by position with distinct ids;
  - failing children are skipped;
  - the fallback rendering is used when the script raises UndefinedError;
  - the DualMap's two maps are both renumbered;
  - only ids change;
  - the text does not depend on the old ids.
- `component.dfy` (module `Component`) models the body of `st_folium`:
  - the script it sends, as method `StFoliumScript`;
  - the `id` it sends;
  - `bounds_to_dict` and its inverse;
  - the `AttributeError` fallback of `get_bounds`;
  - the zoom entry;
  - the default dict and its filtering by `returned_objects`.
- `jshash.dfy` (module `JsHash`) models `generate_js_hash`.
  - The two `re.sub` calls are leftmost-greedy scans.
  - SHA-256 is a `digest` parameter.
  - The lemmas prove that stripping is idempotent and that the hash ignores
    the random suffix of a variable name.

The model follows the code where the documented intent differs. A DualMap
takes the base id `map_div` itself, and both of its maps are renumbered with
the default base id `"0"` (`__init__.py:282-285`).
- So `get_full_id(fig.m1)` and `get_full_id(fig.m2)` differ only in the
  maps' names.
- When the two maps have the same name, the `map_div2` replacement at line
  179 renames the first map's variable as well.
- In that case both maps' variables were named `m_id` before that
  replacement and neither is after it, so the `id` sent to the front end
  names a variable that no longer occurs in the script.

`StFoliumScript` states this behaviour as it is. It does not promise two
distinct variables `map_div` and `map_div2`.

## Model

| member | source | states |
|---|---|---|
| Text.ReplaceAbsent | streamlit_folium/__init__.py:184 | `s.replace(p, r)` returns `s` unchanged when the non-empty `p` does not occur in `s` |
| Text.ReplaceSelf | streamlit_folium/__init__.py:330-331 | `s.replace(p, p)` is `s` for every `p`, the empty pattern included |
| Text.ReplaceAll | streamlit_folium/__init__.py:184 | with a non-empty pattern, a replacement no longer than the pattern never lengthens the text (so removing `alert(coords);` only shortens the script), and one of the same length keeps the length |
| Text.ReplaceLeftmost | streamlit_folium/__init__.py:330-331 | for every text `a + p + b` in which the non-empty `p` starts at no position inside `a`, `replace` keeps `a`, writes the replacement, and continues on `b` alone: occurrences never overlap and the replacement text is never scanned again |
| Text.NatStrInjective | streamlit_folium/__init__.py:306 | distinct child indices print as distinct decimal strings |
| Text.Lower | streamlit_folium/__init__.py:262 | `name.lower()` keeps the length, leaves no ASCII upper-case letter, and keeps every character that is not one in its place |
| Text.LowerIdempotent | streamlit_folium/__init__.py:262 | lower-casing twice is lower-casing once |
| Leaflet.Store | streamlit_folium/__init__.py:274 | `mappings[k] = v`: the key now maps to `v`, all other keys keep their values, and a new key is appended at the end while an existing key keeps its position |
| Leaflet.IdMappings.Put | streamlit_folium/__init__.py:274 | the shared dict's entries become `Store` of the old entries |
| Leaflet.Gen | streamlit_folium/__init__.py:265-312 | after every call, whatever it returns or raises, the element's id is the base id it was given |
| Leaflet.Generate | streamlit_folium/__init__.py:265-312 | records the old id, overwrites it in place, dispatches on DualMap; result, final mapping and final element tree are exactly those of `Gen` on the tree before the call |
| Leaflet.IdOnly | streamlit_folium/__init__.py:276 | `m._id = base_id` changes the root id of the tree and nothing else in it |
| Leaflet.GenerateDualMap | streamlit_folium/__init__.py:278-289 | the DualMap branch: map 1, then (when nested) map 2 with base id "0", then the sync script; early return when not nested; exceptions propagate; equal to `DualStep` |
| Leaflet.GenerateElement | streamlit_folium/__init__.py:291-312 | own snippet with fallback, return when not nested, then every child in order; equal to `ElementStep` (the loop's invariant ties the visited prefix to the fold `Kids`) |
| Leaflet.NextChild | streamlit_folium/__init__.py:301-310 | one loop turn advances the fold `Kids` by exactly one child and replaces that child's tree by its generated tree |
| Leaflet.GenerateChild | streamlit_folium/__init__.py:301-310 | child `idx` is generated with base id `f"{base_id}_{idx}"`; a raising child contributes no text; sibling subtrees are unchanged |
| Leaflet.GenerateLeafletString | streamlit_folium/__init__.py:315-333 | fresh mapping, generation, then `replace(k, v)` for every entry in insertion order (`ApplyAll`); an exception from the generation escapes; the element tree ends as `Gen` says |
| LeafletProps.GenKeys | streamlit_folium/__init__.py:271-274 | a call keeps every key of the mapping it was given, at its position, and changes the value only of keys that are ids in the visited tree |
| LeafletProps.DualKeys | streamlit_folium/__init__.py:278-289 | the same for the DualMap branch, restricted to the ids of its two maps |
| LeafletProps.ElementKeys | streamlit_folium/__init__.py:291-312 | the same for the element branch, restricted to the ids of its children |
| LeafletProps.KidsKeys | streamlit_folium/__init__.py:301-310 | the same for the loop over the children |
| LeafletProps.CaptureBeforeMutate | streamlit_folium/__init__.py:274-276 | the old id is a key of the final mapping, the new id is the base id, and the old id maps to the base id unless a descendant had the same old id |
| LeafletProps.KidsVisitsAll | streamlit_folium/__init__.py:301-310 | the loop visits every child, failing ones included: one tree per child, appended after those already visited |
| LeafletProps.KidsNumbering | streamlit_folium/__init__.py:301-306 | the child at position `j` gets id `base_id + "_" + str(j)` |
| LeafletProps.ChildIdInjective | streamlit_folium/__init__.py:306 | different positions give different child ids |
| LeafletProps.ElementNumbering | streamlit_folium/__init__.py:291-312 | a nested element whose own snippet renders succeeds, keeps its number of children and gives them pairwise distinct ids `base_id_0`, `base_id_1`, ... |
| LeafletProps.NotNested | streamlit_folium/__init__.py:298-299 | without nesting, an element's output is its own snippet, its children are untouched and only its own id is recorded |
| LeafletProps.KidsPrefix | streamlit_folium/__init__.py:301-308 | the loop only appends to the element's text |
| LeafletProps.ScriptOrFallback | streamlit_folium/__init__.py:291-296 | whatever its children do, an element whose script renders succeeds and its output starts with the script text; AttributeError from the script is what the element raises; when the script raises UndefinedError the fallback is used, and the output starts with the fallback text, or is the fallback's own error |
| LeafletProps.FailedChildSkipped | streamlit_folium/__init__.py:309-310 | a child raising UndefinedError or AttributeError adds no text, yet its mapping entries and renumbering stay and the next child gets the next index |
| LeafletProps.DualMapBothZero | streamlit_folium/__init__.py:278-289 | the DualMap takes the base id and map 1 gets id "0"; without nesting the result, mapping and untouched map 2 are those of map 1's non-nested call; with nesting map 2 gets id "0" as soon as map 1 succeeds, the call succeeds exactly when map 1, map 2 and the sync script all render, its output is then map 1, a newline, map 2 and the sync script, and otherwise it raises the first of their errors |
| LeafletProps.ApplyAllIdentity | streamlit_folium/__init__.py:330-331 | entries that map an id to itself leave the text unchanged |
| LeafletProps.ApplyAllAppend | streamlit_folium/__init__.py:330-331 | the pass applies the entries in insertion order, each to the previous result: applying `es1 + es2` is applying `es1` and then `es2` to its result |
| LeafletProps.GenShape | streamlit_folium/__init__.py:274-312 | generation changes ids only: templates, kinds and the number and order of children are kept |
| LeafletProps.KidsShape | streamlit_folium/__init__.py:301-310 | the loop replaces each child by a tree of the same shape |
| LeafletProps.GenDeterministic | streamlit_folium/__init__.py:265-312 | the text or exception depends only on the tree's shape, the nesting flag, the base id and the templates: not on the old ids or on the mapping passed in |
| LeafletProps.DualDeterministic | streamlit_folium/__init__.py:278-289 | the same for the DualMap branch |
| LeafletProps.KidsDeterministic | streamlit_folium/__init__.py:301-310 | the same for the loop over the children |
| Component.FullId | streamlit_folium/__init__.py:259-262 | `get_full_id` is the (first) map's name lower-cased, an underscore and its id: no ASCII upper-case letter in the name part, the other characters of the name kept, the id as suffix |
| Component.FullIdSameId | streamlit_folium/__init__.py:259-262 | two maps with the same id get the same full id exactly when their lower-cased names are equal |
| Component.Finish | streamlit_folium/__init__.py:183-187 | after removing every `alert(coords);`, the script always contains `drawnItems`; the result is the cleaned script itself or it with the declaration appended, the latter exactly when `drawnItems` was absent |
| Component.StFoliumScript | streamlit_folium/__init__.py:160-187 | the script is `generate_leaflet_string(fig, base_id="map_div")`; for a DualMap the second map's full id is then replaced by `map_div2`; then `Finish`; exceptions escape; `m_id` is `get_full_id` of the map (of map 1 for a DualMap, whose two maps both end with id "0", so `m_id` equals the second map's full id exactly when the two lower-cased names agree) |
| Component.BoundsToDict | streamlit_folium/__init__.py:189-200 | `bounds_to_dict` is undone by `DictToBounds`: the two corners come back as `[lat, lng]` pairs |
| Component.DictToBoundsInverse | streamlit_folium/__init__.py:189-200 | every dict with the `_southWest`/`_northEast` shape is the `bounds_to_dict` of the corners read from it |
| Component.ResolveBounds | streamlit_folium/__init__.py:202-205 | the `bounds` entry carries the map's bounds, or four None coordinates when `get_bounds` raised AttributeError |
| Component.Zoom | streamlit_folium/__init__.py:213 | `{}` when the object has no `options`; otherwise the first `zoom` value, or None when there is none |
| Component.Get | streamlit_folium/__init__.py:213 | `dict.get`: the value of the first entry with the key, None when the key is absent |
| Component.Defaults | streamlit_folium/__init__.py:207-216 | the default dict has exactly the eight keys, in their fixed order; `bounds` holds the bounds dict, `zoom` the zoom, every other value is None |
| Component.DefaultsOthersNull | streamlit_folium/__init__.py:207-216 | every entry of the default dict whose key is neither `bounds` nor `zoom` holds None |
| Component.FilterDefaults | streamlit_folium/__init__.py:220-224 | an entry is kept exactly when `returned_objects` is None or contains its key; kept entries keep their order |
| Component.KeepKeys | streamlit_folium/__init__.py:220-224 | the keys that pass the same test, in order, as an independent reference |
| Component.FilterKeys | streamlit_folium/__init__.py:220-224 | the keys of the filtered dict are exactly the filtered keys |
| Component.ComponentDefaults | streamlit_folium/__init__.py:202-224 | the `default` value has exactly the default keys that pass the filter, in order, and carries the resolved bounds and the zoom whenever those keys are kept; every other kept value is None |
| Component.FilterNone | streamlit_folium/__init__.py:223 | with `returned_objects=None` every default is returned |
| JsHash.WordRunGreedy | streamlit_folium/__init__.py:39 | the greedy `[a-z0-9]+` takes the longest prefix of word characters: all of it are word characters and the next one is not |
| JsHash.UrlRunGreedy | streamlit_folium/__init__.py:41 | the greedy `[-a-z0-9]+` takes the longest prefix of such characters: all of it are such characters and the next one is not |
| JsHash.StripSuffixes | streamlit_folium/__init__.py:39-40 | `re.sub(r"(_[a-z0-9]+)", "", s)` never lengthens the text |
| JsHash.StripLeavesNoSuffix | streamlit_folium/__init__.py:39-40 | after the substitution no underscore is followed by a word character |
| JsHash.StripNoSuffix | streamlit_folium/__init__.py:39-40 | text without such a suffix is left unchanged |
| JsHash.StripIdempotent | streamlit_folium/__init__.py:39-40 | applying the substitution twice is the same as once |
| JsHash.WordRunConcat | streamlit_folium/__init__.py:39 | a run stops at a non-word character, whatever follows it |
| JsHash.StripConcat | streamlit_folium/__init__.py:39-40 | text joined at a non-word character is stripped piece by piece |
| JsHash.StripOneSuffix | streamlit_folium/__init__.py:39-40 | `_` followed by a run of word characters, at a boundary, is deleted whole |
| JsHash.UrlMatch | streamlit_folium/__init__.py:41 | a match of `maps/[-a-z0-9]+/` is at least seven characters long and lies within the text |
| JsHash.StripUrls | streamlit_folium/__init__.py:41-42 | `re.sub(r"(maps\/[-a-z0-9]+\/)", "", s)` never lengthens the text |
| JsHash.StripOneUrl | streamlit_folium/__init__.py:41-42 | a leading `maps/<run>/` segment is deleted whole and the scan resumes after it |
| JsHash.StripUrlsAbsent | streamlit_folium/__init__.py:41-42 | text without `maps/` is left unchanged |
| JsHash.Normalise | streamlit_folium/__init__.py:38-41 | the normalised text ends with `str(key)` and is no longer than the script plus two copies of `str(key)` |
| JsHash.Hash | streamlit_folium/__init__.py:28-44 | the key of a script is the key of the script with its suffixes already stripped |
| JsHash.HashIgnoresSuffix | streamlit_folium/__init__.py:30-44 | two scripts that differ only in the random suffix after one underscore get the same key, for every key and every digest function |

## Left out

- Component declaration (`__init__.py:20-27`) and the component call with its arguments (242-254): these are calls into Streamlit. Only the values passed as `script`, `id`, `default` and `key` are modelled.
- `folium_static` (47-99): this is HTML embedding through Streamlit and is not part of this model.
- Jinja2 rendering: the `script` macro and `render` are the two functions of a `Renderer` parameter. They take the template and the element's current id, and nothing else. In the source the macro receives the whole element (`this`, line 288 passes the DualMap itself), so a template may read another element's name or id, for instance a child naming its parent's variable. The model cannot express such a template: the old name of another element can only appear as fixed text inside a `Template`.
- `fig.render()` and the unwrapping of a `Figure` to its first child (155-158): the model's `fig` is already a Map or a DualMap.
- Collection of child HTML (162-170): this walks folium's figure root and swallows every exception. It does not affect the script or the defaults.
- Feature-group handling (228-240): it adds the group to the map and generates it with another base id. This model does not cover it.
- SHA-256 and UTF-8 encoding (43): a `digest` parameter stands for them.
- `JsHash.Hash`: the insensitivity to tile-URL segments is proved only for `StripUrls` (`StripOneUrl`, `StripUrlsAbsent`), not restated for the hash.
- Floats are `real`. `get_bounds` is an input (`BoundsAttempt`): the bounds, or the AttributeError it raised.
- `returned_objects` is a sequence of strings, and `zoom` and `center` are not looked at. The options dict is a sequence of entries whose first occurrence of a key counts.
- Exceptions other than UndefinedError and AttributeError from rendering are not modelled. A renderer that raises something else would make the whole call raise.
- `Text.Lower`: only ASCII letters are lower-cased. Python's Unicode case mapping is not modelled.
- Aliasing: an element object shared by two places in the tree is excluded by `Node.Valid` (disjoint footprints). In the source a shared object would be renumbered twice.
- A DualMap's own children: the DualMap branch (278-289) never visits them, so `Node.Valid` gives a DualMap none.
- LeafletProps.GenDeterministic: states that the output is independent of old ids and the mapping. It does not state the same for the final tree, whose ids depend on the mapping only through the base ids (`CaptureBeforeMutate` and `KidsNumbering` state those). It holds because a `Renderer` sees only the template and the element's own new id; with a template that reads another element's id (see the Jinja2 line above) the source's output could depend on ids this lemma rules out.
- Component.BoundsToDict, Component.ResolveBounds, Component.ComponentDefaults: require two corners of at least two values each. Any other shape makes the source raise ValueError at the unpacking (line 190) or IndexError at the indexing (line 193), and those errors are not modelled; folium's `get_bounds` always returns two `[lat, lng]` pairs.
- Leaflet.Gen: its own contract states only the new root id. Everything else about it is stated by the lemmas of `LeafletProps` and by the methods proved equal to it.
