/** Identifier stabiliser and script assembler: `_generate_leaflet_string`
    and `generate_leaflet_string`. A tree of map elements is walked depth
    first, pre-order; every element gets a stable id derived from its place in
    the tree, the old id is recorded in a shared, insertion-ordered mapping
    before it is overwritten, the elements' snippets are concatenated, and a
    final pass replaces every recorded old id by its new one in the text. */
module Leaflet {
  import opened Text
  import opened Wrappers

  /** Outcome of rendering: the text, or one of the two exceptions the
      adapter catches (jinja2's UndefinedError and Python's AttributeError). */
  datatype Outcome = Ok(text: string) | UndefinedErr | AttrErr

  /** The element's template, opaque to the adapter. */
  datatype Template = Template(source: string)

  /** The two foreign rendering entry points, as functions of the template and
      the element's current id: `_template.module.script(m)` and the fallback
      `_template.render(this=m, kwargs={})`. */
  datatype Renderer = Renderer(script: (Template, string) -> Outcome,
                               fallback: (Template, string) -> Outcome)

  /** The mapping `old id -> new id`, in insertion order (a Python dict). */
  type Entries = seq<(string, string)>

  /** The keys of a dict, in insertion order. */
  function KeyList<V>(es: seq<(string, V)>): (ks: seq<string>)
    ensures |ks| == |es| && forall i :: 0 <= i < |es| ==> ks[i] == es[i].0
  {
    if es == [] then [] else [es[0].0] + KeyList(es[1..])
  }

  /** `d[k]`, or None when `k` is not a key. */
  function Lookup(es: Entries, k: string): Option<string> {
    if es == [] then None
    else if es[0].0 == k then Some(es[0].1)
    else Lookup(es[1..], k)
  }


  /** `d[k] = v`: an existing key keeps its position and takes the new value,
      a new key is appended. */
  function Store(es: Entries, k: string, v: string): (r: Entries)
    ensures Lookup(r, k) == Some(v)
    ensures forall k' :: k' != k ==> Lookup(r, k') == Lookup(es, k')
    ensures KeyList(r) == if k in KeyList(es) then KeyList(es) else KeyList(es) + [k]
  {
    if es == [] then [(k, v)]
    else if es[0].0 == k then [(k, v)] + es[1..]
    else [es[0]] + Store(es[1..], k, v)
  }

  /** `d2` keeps every key of `d1` at its position and may append more keys. */
  ghost predicate Extends(d1: Entries, d2: Entries) {
    |d1| <= |d2| && KeyList(d2)[..|d1|] == KeyList(d1)
  }

  lemma ExtendsTrans(d1: Entries, d2: Entries, d3: Entries)
    requires Extends(d1, d2) && Extends(d2, d3)
    ensures Extends(d1, d3)
  {
    assert KeyList(d3)[..|d1|] == KeyList(d3)[..|d2|][..|d1|];
  }

  lemma StoreExtends(es: Entries, k: string, v: string)
    ensures Extends(es, Store(es, k, v))
  {
  }

  /** Replacing the first element after a prefix moves it into the prefix. */
  lemma SpliceStep<T>(prefix: seq<T>, rest: seq<T>, x: T)
    requires |rest| > 0
    ensures (prefix + rest)[|prefix| := x] == (prefix + [x]) + rest[1..]
  {
  }

  /** The whole replacement pass of `generate_leaflet_string`: one
      `text.replace(old, new)` per entry, in insertion order. */
  function ApplyAll(es: Entries, text: string): string {
    if es == [] then text
    else ReplaceAll(ApplyAll(es[..|es| - 1], text), es[|es| - 1].0, es[|es| - 1].1)
  }

  // ---------------------------------------------------------------------------
  // The tree as a value: the state of the element objects at one moment.

  datatype TreeKind = Element | DualMapOf(m1: Tree, m2: Tree)

  datatype Tree = Tree(id: string, template: Template, kind: TreeKind, children: seq<Tree>)

  function Size(t: Tree): nat {
    1 + SizeList(t.children) + (if t.kind.DualMapOf? then Size(t.kind.m1) + Size(t.kind.m2) else 0)
  }

  function SizeList(ts: seq<Tree>): nat {
    if ts == [] then 0 else Size(ts[0]) + SizeList(ts[1..])
  }

  /** `f"{base_id}_{idx}"` */
  function ChildId(baseId: string, idx: nat): string {
    baseId + "_" + NatStr(idx)
  }

  /** The element's own snippet: the script, or the fallback rendering when
      the script raises UndefinedError. */
  function Own(template: Template, id: string, r: Renderer): Outcome {
    match r.script(template, id)
    case UndefinedErr => r.fallback(template, id)
    case other => other
  }

  /** What one call of `_generate_leaflet_string` returns or raises (`out`),
      the mapping after it (`ms`) and the tree after it (`tree`). */
  datatype Step = Step(out: Outcome, ms: Entries, tree: Tree)

  /** Progress through an element's children: the text so far, the mapping so
      far and the children already visited, as they are afterwards. */
  datatype Progress = Progress(text: string, ms: Entries, done: seq<Tree>)

  /** The specification of `_generate_leaflet_string(t, nested, base_id, ms)`:
      the old id is recorded before anything else happens. */
  function Gen(t: Tree, nested: bool, baseId: string, ms: Entries, r: Renderer): (s: Step)
    ensures s.tree.id == baseId
    decreases Size(t), 2
  {
    if t.kind.DualMapOf? then DualStep(t, nested, baseId, Store(ms, t.id, baseId), r)
    else ElementStep(t, nested, baseId, Store(ms, t.id, baseId), r)
  }

  /** The DualMap branch, after the DualMap's own id was recorded: both maps are
      generated with the default base id "0"; `nested == false` returns the
      first map's output alone. */
  function DualStep(t: Tree, nested: bool, baseId: string, ms: Entries, r: Renderer): Step
    requires t.kind.DualMapOf?
    decreases Size(t), 1
  {
    var g1 := Gen(t.kind.m1, nested, "0", ms, r);
    if !nested || !g1.out.Ok? then
      Step(g1.out, g1.ms, Tree(baseId, t.template, DualMapOf(g1.tree, t.kind.m2), t.children))
    else
      var g2 := Gen(t.kind.m2, true, "0", g1.ms, r);
      var t2 := Tree(baseId, t.template, DualMapOf(g1.tree, g2.tree), t.children);
      if !g2.out.Ok? then Step(g2.out, g2.ms, t2)
      else
        var sync := r.script(t.template, baseId);
        Step(if sync.Ok? then Ok(g1.out.text + "\n" + g2.out.text + sync.text) else sync, g2.ms, t2)
  }

  /** The branch for every other element, after its id was recorded. */
  function ElementStep(t: Tree, nested: bool, baseId: string, ms: Entries, r: Renderer): Step
    decreases Size(t), 1
  {
    var own := Own(t.template, baseId, r);
    if !own.Ok? || !nested then Step(own, ms, t.(id := baseId))
    else
      var p := Kids(t.children, baseId, Progress(own.text, ms, []), r);
      Step(Ok(p.text), p.ms, t.(id := baseId, children := p.done))
  }

  /** The loop over the children still to visit, `cs`; the next child's index
      is the number already visited. A child that raises contributes no text. */
  function Kids(cs: seq<Tree>, baseId: string, p: Progress, r: Renderer): Progress
    decreases SizeList(cs), 3
  {
    if cs == [] then p
    else
      var g := Gen(cs[0], true, ChildId(baseId, |p.done|), p.ms, r);
      Kids(cs[1..], baseId, Progress(p.text + Piece(g.out), g.ms, p.done + [g.tree]), r)
  }

  lemma KidsUnfold(cs: seq<Tree>, baseId: string, p: Progress, r: Renderer)
    requires cs != []
    ensures var g := Gen(cs[0], true, ChildId(baseId, |p.done|), p.ms, r);
      Kids(cs, baseId, p, r) == Kids(cs[1..], baseId, Progress(p.text + Piece(g.out), g.ms, p.done + [g.tree]), r)
  {
  }

  /** What a child adds to its parent's script: a newline and its script, or
      nothing when it raised. */
  function Piece(o: Outcome): string {
    if o.Ok? then "\n" + o.text else ""
  }

  // ---------------------------------------------------------------------------
  // The element objects.

  datatype NodeKind = Plain | DualMap(m1: Node, m2: Node)

  /** A folium element: its id is the only field the adapter changes. */
  class Node {
    var id: string
    const name: string
    const template: Template
    const kind: NodeKind
    const children: seq<Node>
    ghost const Repr: set<object>
    ghost const KidsRepr: set<object>

    /** The element owns disjoint subtrees: its children (whose objects make
        up `KidsRepr`) or, for a DualMap, its two maps (a DualMap hands every
        child added to it to its first map, so it has none of its own). */
    ghost predicate Valid()
      decreases Repr
    {
      this in Repr && KidsRepr <= Repr && this !in KidsRepr &&
      (forall i :: 0 <= i < |children| ==>
        children[i] in KidsRepr && children[i].Repr <= KidsRepr &&
        children[i].KidsRepr <= children[i].Repr && children[i].Valid()) &&
      (forall i, j :: 0 <= i < j < |children| ==> children[i].Repr !! children[j].Repr) &&
      (kind.DualMap? ==>
        kind.m1 in Repr && kind.m2 in Repr &&
        kind.m1.KidsRepr <= kind.m1.Repr && kind.m2.KidsRepr <= kind.m2.Repr &&
        kind.m1.Repr <= Repr && this !in kind.m1.Repr && kind.m1.Valid() &&
        kind.m2.Repr <= Repr && this !in kind.m2.Repr && kind.m2.Valid() &&
        kind.m1.Repr !! kind.m2.Repr && children == [])
    }

    constructor (name: string, template: Template, id: string, kind: NodeKind, children: seq<Node>)
      requires forall i :: 0 <= i < |children| ==> children[i].Valid()
      requires forall i, j :: 0 <= i < j < |children| ==> children[i].Repr !! children[j].Repr
      requires kind.DualMap? ==> kind.m1.Valid() && kind.m2.Valid() && kind.m1.Repr !! kind.m2.Repr
      requires kind.DualMap? ==> children == []
      ensures Valid() && this.id == id && this.name == name && this.template == template
      ensures this.kind == kind && this.children == children
    {
      this.id := id;
      this.name := name;
      this.template := template;
      this.kind := kind;
      this.children := children;
      var kids := UnionRepr(children);
      this.KidsRepr := kids;
      this.Repr := {this} + kids + (if kind.DualMap? then kind.m1.Repr + kind.m2.Repr else {});
      new;
    }

    /** The tree rooted here, with every element's current id. The guards
        hold whenever Valid() does; they only make the recursion well founded. */
    ghost function Abs(): (t: Tree)
      reads this, Repr, KidsRepr
      ensures Valid() && kind.DualMap? ==> t.kind == DualMapOf(kind.m1.Abs(), kind.m2.Abs())
      ensures kind.Plain? ==> t.kind == Element
      decreases Repr, |children| + 1
    {
      Tree(id, template,
           if kind.DualMap? && Owns(kind.m1) && Owns(kind.m2)
           then DualMapOf(kind.m1.Abs(), kind.m2.Abs()) else Element,
           ChildrenAbs(|children|))
    }

    ghost predicate Owns(c: Node) {
      c in Repr && c.Repr < Repr && c.KidsRepr <= c.Repr
    }

    ghost predicate OwnsKid(c: Node) {
      c in KidsRepr && c.Repr <= KidsRepr && c.Repr < Repr && c.KidsRepr <= c.Repr
    }

    /** The trees of the first `k` children. */
    ghost function ChildrenAbs(k: nat): (ts: seq<Tree>)
      requires k <= |children|
      reads KidsRepr
      ensures |ts| == k
      ensures Valid() ==> forall i :: 0 <= i < k ==> ts[i] == children[i].Abs()
      decreases Repr, k
    {
      if k == 0 then []
      else ChildrenAbs(k - 1) + [if OwnsKid(children[k - 1]) then children[k - 1].Abs() else Leaf()]
    }
  }

  /** Every object of the given elements. */
  ghost function UnionRepr(cs: seq<Node>): (u: set<object>)
    ensures forall i :: 0 <= i < |cs| ==> cs[i].Repr <= u
    ensures forall o :: o in u ==> exists i :: 0 <= i < |cs| && o in cs[i].Repr
  {
    if cs == [] then {} else cs[0].Repr + UnionRepr(cs[1..])
  }

  /** A childless element with no id, standing for nothing reachable. */
  function Leaf(): Tree {
    Tree("", Template(""), Element, [])
  }

  /** The shared `mappings` dict. */
  class IdMappings {
    var entries: Entries

    constructor ()
      ensures entries == []
    {
      entries := [];
    }

    /** `mappings[k] = v` */
    method Put(k: string, v: string)
      modifies this
      ensures entries == Store(old(entries), k, v)
    {
      entries := Store(entries, k, v);
    }
  }

  /** `_generate_leaflet_string(n, nested, base_id, ms)`: renumbers the
      elements it visits in place, records their old ids in `ms`, and returns
      the script or the exception it raises. */
  method Generate(n: Node, nested: bool, baseId: string, ms: IdMappings, r: Renderer)
    returns (out: Outcome)
    requires n.Valid() && ms !in n.Repr
    modifies n.Repr, ms
    ensures var g := Gen(old(n.Abs()), nested, baseId, old(ms.entries), r);
      out == g.out && ms.entries == g.ms && n.Abs() == g.tree
    decreases n.Repr, 3
  {
    ghost var t := n.Abs();
    ms.Put(n.id, baseId);
    n.id := baseId;
    IdOnly(n);
    if n.kind.DualMap? {
      out := GenerateDualMap(n, nested, ms, r, t);
    } else {
      out := GenerateElement(n, nested, ms, r, t);
    }
  }

  /** Changing an element's own id changes only the root of its tree. */
  twostate lemma IdOnly(n: Node)
    requires n.Valid() && unchanged(n.Repr - {n})
    ensures n.Abs() == old(n.Abs()).(id := n.id)
  {
    assert n.ChildrenAbs(|n.children|) == old(n.ChildrenAbs(|n.children|));
    if n.kind.DualMap? {
      assert n.kind.m1.Abs() == old(n.kind.m1.Abs());
      assert n.kind.m2.Abs() == old(n.kind.m2.Abs());
    }
  }

  /** The DualMap branch of `_generate_leaflet_string` (lines after the id
      change); `t` is the tree before the call. */
  method GenerateDualMap(n: Node, nested: bool, ms: IdMappings, r: Renderer, ghost t: Tree)
    returns (out: Outcome)
    requires n.Valid() && ms !in n.Repr && n.kind.DualMap?
    requires n.Abs() == t.(id := n.id)
    modifies n.Repr, ms
    ensures var g := DualStep(t, nested, old(n.id), old(ms.entries), r);
      out == g.out && ms.entries == g.ms && n.Abs() == g.tree
    decreases n.Repr, 2
  {
    var m1, m2 := n.kind.m1, n.kind.m2;
    ghost var a1, a2 := m1.Abs(), m2.Abs();
    DualAbs(n);
    assert t.kind == DualMapOf(a1, a2);
    out := Generate(m1, nested, "0", ms, r);
    ghost var g1 := Gen(a1, nested, "0", old(ms.entries), r);
    assert m2.Abs() == a2;
    DualAbs(n);
    if !nested || !out.Ok? {
      return;
    }
    var first := out.text;
    ghost var b1 := m1.Abs();
    out := Generate(m2, true, "0", ms, r);
    assert m1.Abs() == b1;
    DualAbs(n);
    if !out.Ok? {
      return;
    }
    var sync := r.script(n.template, n.id);
    out := if sync.Ok? then Ok(first + "\n" + out.text + sync.text) else sync;
  }

  /** A DualMap's tree is made of its two maps' trees. */
  lemma DualAbs(n: Node)
    requires n.Valid() && n.kind.DualMap?
    ensures n.Abs() == Tree(n.id, n.template, DualMapOf(n.kind.m1.Abs(), n.kind.m2.Abs()), [])
  {
  }

  /** The branch of `_generate_leaflet_string` for every other element: its own
      snippet (with the fallback rendering), then each child in order, numbered
      by its position; a child that raises is skipped. */
  method GenerateElement(n: Node, nested: bool, ms: IdMappings, r: Renderer, ghost t: Tree)
    returns (out: Outcome)
    requires n.Valid() && ms !in n.Repr && n.kind.Plain?
    requires n.Abs() == t.(id := n.id)
    modifies n.Repr, ms
    ensures var g := ElementStep(t, nested, old(n.id), old(ms.entries), r);
      out == g.out && ms.entries == g.ms && n.Abs() == g.tree
    decreases n.Repr, 2
  {
    var baseId := n.id;
    out := r.script(n.template, baseId);
    if out.UndefinedErr? {
      out := r.fallback(n.template, baseId);
    }
    if !out.Ok? || !nested {
      return;
    }
    var leaflet := out.text;
    ghost var done: seq<Tree> := [];
    for idx := 0 to |n.children|
      invariant |done| == idx
      invariant n.id == baseId
      invariant n.ChildrenAbs(|n.children|) == done + t.children[idx..]
      invariant Kids(t.children, baseId, Progress(out.text, old(ms.entries), []), r)
             == Kids(t.children[idx..], baseId, Progress(leaflet, ms.entries, done), r)
    {
      leaflet, done := NextChild(n, idx, baseId, ms, r, t.children, leaflet, done);
    }
    out := Ok(leaflet);
  }

  /** One turn of the loop over the children, with its effect on the
      remaining fold `Kids`. */
  method NextChild(n: Node, idx: nat, baseId: string, ms: IdMappings, r: Renderer,
                   ghost ts: seq<Tree>, leaflet: string, ghost done: seq<Tree>)
    returns (leaflet': string, ghost done': seq<Tree>)
    requires n.Valid() && ms !in n.Repr && idx < |n.children| == |ts| && |done| == idx
    requires n.ChildrenAbs(|n.children|) == done + ts[idx..]
    modifies n.children[idx].Repr, ms
    ensures n.ChildrenAbs(|n.children|) == done' + ts[idx + 1..]
    ensures Kids(ts[idx..], baseId, Progress(leaflet, old(ms.entries), done), r)
         == Kids(ts[idx + 1..], baseId, Progress(leaflet', ms.entries, done'), r)
    ensures |done'| == idx + 1 && n.id == old(n.id)
    decreases n.Repr, 1
  {
    ghost var p := Progress(leaflet, ms.entries, done);
    ghost var g := Gen(ts[idx], true, ChildId(baseId, idx), ms.entries, r);
    KidsUnfold(ts[idx..], baseId, p, r);
    assert ts[idx..][1..] == ts[idx + 1..];
    assert n.children[idx].Abs() == (done + ts[idx..])[idx] == ts[idx];
    var piece := GenerateChild(n, idx, baseId, ms, r);
    leaflet' := leaflet + piece;
    assert n.ChildrenAbs(|n.children|) == (done + ts[idx..])[idx := g.tree];
    SpliceStep(done, ts[idx..], g.tree);
    done' := done + [g.tree];
  }

  /** One iteration of the loop over the children: generate child `idx` with
      base id `f"{base_id}_{idx}"`; UndefinedError and AttributeError are
      caught and the child then contributes no text. Its siblings are left as
      they were. */
  method GenerateChild(n: Node, idx: nat, baseId: string, ms: IdMappings, r: Renderer)
    returns (piece: string)
    requires n.Valid() && ms !in n.Repr && idx < |n.children|
    modifies n.children[idx].Repr, ms
    ensures var g := Gen(old(n.children[idx].Abs()), true, ChildId(baseId, idx), old(ms.entries), r);
      piece == Piece(g.out) && ms.entries == g.ms && n.children[idx].Abs() == g.tree
    ensures n.ChildrenAbs(|n.children|) ==
      old(n.ChildrenAbs(|n.children|))[idx := n.children[idx].Abs()]
    ensures n.id == old(n.id)
    decreases n.Repr, 0
  {
    var child := n.children[idx];
    var o := Generate(child, true, ChildId(baseId, idx), ms, r);
    piece := if o.Ok? then "\n" + o.text else "";
    forall j | 0 <= j < |n.children| && j != idx
      ensures n.children[j].Abs() == old(n.children[j].Abs())
    {
      assert n.children[j].Repr !! child.Repr;
    }
  }

  /** `generate_leaflet_string(m, nested, base_id)`: generate with a fresh
      mapping, then rewrite the text with `leaflet.replace(k, v)` for every
      entry in insertion order. An exception from the generation escapes. */
  method GenerateLeafletString(m: Node, nested: bool, baseId: string, r: Renderer)
    returns (res: Outcome)
    requires m.Valid()
    modifies m.Repr
    ensures var g := Gen(old(m.Abs()), nested, baseId, [], r);
      m.Abs() == g.tree &&
      res == if g.out.Ok? then Ok(ApplyAll(g.ms, g.out.text)) else g.out
  {
    var ms := new IdMappings();
    var out := Generate(m, nested, baseId, ms, r);
    if !out.Ok? {
      return out;
    }
    var es := ms.entries;
    var leaflet := out.text;
    for i := 0 to |es|
      invariant leaflet == ApplyAll(es[..i], out.text)
    {
      assert es[..i + 1][..i] == es[..i];
      leaflet := ReplaceAll(leaflet, es[i].0, es[i].1);
    }
    assert es[..|es|] == es;
    res := Ok(leaflet);
  }
}
