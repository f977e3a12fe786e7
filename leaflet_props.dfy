/** What `_generate_leaflet_string` guarantees, proved about its specification
    `Gen` (which the methods of `Leaflet` are proved to implement). */
module LeafletProps {
  import opened Text
  import opened Wrappers
  import opened Leaflet

  // ---------------------------------------------------------------------------
  // The ids present in a tree.

  /** Every id in the tree: the root's and those below it. */
  function Ids(t: Tree): set<string>
    decreases Size(t), 2
  {
    {t.id} + Inner(t)
  }

  /** The ids of every element below the root, the two maps of a DualMap
      included. */
  function Inner(t: Tree): set<string>
    decreases Size(t), 1
  {
    (if t.kind.DualMapOf? then Ids(t.kind.m1) + Ids(t.kind.m2) else {}) + IdsList(t.children)
  }

  function IdsList(cs: seq<Tree>): set<string>
    decreases SizeList(cs), 3
  {
    if cs == [] then {} else Ids(cs[0]) + IdsList(cs[1..])
  }

  // ---------------------------------------------------------------------------
  // The mapping: keys are only appended, and only the ids of visited elements
  // are written.

  /** After a call, every key of the mapping it was given is still there, at
      the same position; a key that is not an id of the tree keeps its value. */
  lemma {:induction false} GenKeys(t: Tree, nested: bool, baseId: string, ms: Entries, r: Renderer)
    ensures var g := Gen(t, nested, baseId, ms, r);
      Extends(ms, g.ms) && forall k :: k !in Ids(t) ==> Lookup(g.ms, k) == Lookup(ms, k)
    decreases Size(t), 2
  {
    var ms1 := Store(ms, t.id, baseId);
    StoreExtends(ms, t.id, baseId);
    if t.kind.DualMapOf? {
      DualKeys(t, nested, baseId, ms1, r);
      ExtendsTrans(ms, ms1, DualStep(t, nested, baseId, ms1, r).ms);
    } else {
      ElementKeys(t, nested, baseId, ms1, r);
      ExtendsTrans(ms, ms1, ElementStep(t, nested, baseId, ms1, r).ms);
    }
  }

  lemma {:induction false} DualKeys(t: Tree, nested: bool, baseId: string, ms: Entries, r: Renderer)
    requires t.kind.DualMapOf?
    ensures var g := DualStep(t, nested, baseId, ms, r);
      Extends(ms, g.ms) && forall k :: k !in Inner(t) ==> Lookup(g.ms, k) == Lookup(ms, k)
    decreases Size(t), 1
  {
    var g1 := Gen(t.kind.m1, nested, "0", ms, r);
    GenKeys(t.kind.m1, nested, "0", ms, r);
    if nested && g1.out.Ok? {
      GenKeys(t.kind.m2, true, "0", g1.ms, r);
      ExtendsTrans(ms, g1.ms, Gen(t.kind.m2, true, "0", g1.ms, r).ms);
    }
  }

  lemma {:induction false} ElementKeys(t: Tree, nested: bool, baseId: string, ms: Entries, r: Renderer)
    ensures var g := ElementStep(t, nested, baseId, ms, r);
      Extends(ms, g.ms) && forall k :: k !in Inner(t) ==> Lookup(g.ms, k) == Lookup(ms, k)
    decreases Size(t), 1
  {
    var own := Own(t.template, baseId, r);
    if own.Ok? && nested {
      KidsKeys(t.children, baseId, Progress(own.text, ms, []), r);
    }
  }

  lemma {:induction false} KidsKeys(cs: seq<Tree>, baseId: string, p: Progress, r: Renderer)
    ensures var q := Kids(cs, baseId, p, r);
      Extends(p.ms, q.ms) && forall k :: k !in IdsList(cs) ==> Lookup(q.ms, k) == Lookup(p.ms, k)
    decreases SizeList(cs), 3
  {
    if cs != [] {
      var g := Gen(cs[0], true, ChildId(baseId, |p.done|), p.ms, r);
      var p' := Progress(p.text + Piece(g.out), g.ms, p.done + [g.tree]);
      GenKeys(cs[0], true, ChildId(baseId, |p.done|), p.ms, r);
      KidsKeys(cs[1..], baseId, p', r);
      ExtendsTrans(p.ms, g.ms, Kids(cs[1..], baseId, p', r).ms);
    }
  }

  /** Capture before mutate: the element's old id is recorded as a key, and
      maps to the new id unless an element below it had the same old id and
      overwrote the entry later. */
  lemma CaptureBeforeMutate(t: Tree, nested: bool, baseId: string, ms: Entries, r: Renderer)
    ensures var g := Gen(t, nested, baseId, ms, r);
      t.id in KeyList(g.ms) && g.tree.id == baseId &&
      (t.id !in Inner(t) ==> Lookup(g.ms, t.id) == Some(baseId))
  {
    var ms1 := Store(ms, t.id, baseId);
    var g := Gen(t, nested, baseId, ms, r);
    if t.kind.DualMapOf? {
      DualKeys(t, nested, baseId, ms1, r);
    } else {
      ElementKeys(t, nested, baseId, ms1, r);
    }
    assert t.id in KeyList(ms1);
    assert KeyList(g.ms)[..|ms1|] == KeyList(ms1);
  }

  // ---------------------------------------------------------------------------
  // Numbering of the children.

  /** The loop visits every remaining child, a failing one included: each
      adds one tree after those already visited. */
  lemma {:induction false} KidsVisitsAll(cs: seq<Tree>, baseId: string, p: Progress, r: Renderer)
    ensures var q := Kids(cs, baseId, p, r);
      |q.done| == |p.done| + |cs| && q.done[..|p.done|] == p.done
    decreases |cs|
  {
    if cs != [] {
      var g := Gen(cs[0], true, ChildId(baseId, |p.done|), p.ms, r);
      var p' := Progress(p.text + Piece(g.out), g.ms, p.done + [g.tree]);
      KidsUnfold(cs, baseId, p, r);
      KidsVisitsAll(cs[1..], baseId, p', r);
      var q := Kids(cs[1..], baseId, p', r);
      assert q.done[..|p.done|] == q.done[..|p'.done|][..|p.done|];
    }
  }

  /** The loop gives the child at position `j` the id `base_id + "_" + j`. */
  lemma {:induction false} KidsNumbering(cs: seq<Tree>, baseId: string, p: Progress, r: Renderer)
    ensures var q := Kids(cs, baseId, p, r);
      |q.done| == |p.done| + |cs| && q.done[..|p.done|] == p.done &&
      forall j :: |p.done| <= j < |q.done| ==> q.done[j].id == ChildId(baseId, j)
    decreases |cs|
  {
    KidsVisitsAll(cs, baseId, p, r);
    if cs != [] {
      var g := Gen(cs[0], true, ChildId(baseId, |p.done|), p.ms, r);
      var p' := Progress(p.text + Piece(g.out), g.ms, p.done + [g.tree]);
      KidsUnfold(cs, baseId, p, r);
      KidsNumbering(cs[1..], baseId, p', r);
      KidsVisitsAll(cs[1..], baseId, p', r);
      var q := Kids(cs[1..], baseId, p', r);
      forall j | |p.done| <= j < |q.done|
        ensures q.done[j].id == ChildId(baseId, j)
      {
        if j == |p.done| {
          assert q.done[j] == q.done[..|p'.done|][j] == g.tree;
        }
      }
    }
  }

  /** Distinct positions give distinct child ids. */
  lemma ChildIdInjective(baseId: string, i: nat, j: nat)
    requires ChildId(baseId, i) == ChildId(baseId, j)
    ensures i == j
  {
    var pre := baseId + "_";
    assert NatStr(i) == ChildId(baseId, i)[|pre|..];
    assert NatStr(j) == ChildId(baseId, j)[|pre|..];
    NatStrInjective(i, j);
  }

  /** A nested element whose own snippet renders keeps all its children, in
      order, and numbers them `base_id_0`, `base_id_1`, ...: distinct ids. */
  lemma ElementNumbering(t: Tree, baseId: string, ms: Entries, r: Renderer)
    requires t.kind.Element? && Own(t.template, baseId, r).Ok?
    ensures var g := Gen(t, true, baseId, ms, r);
      g.out.Ok? && |g.tree.children| == |t.children| &&
      (forall i :: 0 <= i < |t.children| ==> g.tree.children[i].id == ChildId(baseId, i)) &&
      (forall i, j :: 0 <= i < j < |t.children| ==> g.tree.children[i].id != g.tree.children[j].id)
  {
    var own := Own(t.template, baseId, r);
    var g := Gen(t, true, baseId, ms, r);
    var q := Kids(t.children, baseId, Progress(own.text, Store(ms, t.id, baseId), []), r);
    KidsNumbering(t.children, baseId, Progress(own.text, Store(ms, t.id, baseId), []), r);
    assert g == ElementStep(t, true, baseId, Store(ms, t.id, baseId), r);
    assert g.tree.children == q.done;
    forall i, j | 0 <= i < j < |t.children|
      ensures g.tree.children[i].id != g.tree.children[j].id
    {
      if g.tree.children[i].id == g.tree.children[j].id {
        ChildIdInjective(baseId, i, j);
      }
    }
  }

  /** Without nesting no child is visited: the element's children are left
      as they were and the only new entry is the element's own. */
  lemma NotNested(t: Tree, baseId: string, ms: Entries, r: Renderer)
    requires t.kind.Element?
    ensures var g := Gen(t, false, baseId, ms, r);
      g.tree == t.(id := baseId) && g.ms == Store(ms, t.id, baseId) &&
      g.out == Own(t.template, baseId, r)
  {
  }

  // ---------------------------------------------------------------------------
  // The text.

  /** The loop only appends to the text. */
  lemma {:induction false} KidsPrefix(cs: seq<Tree>, baseId: string, p: Progress, r: Renderer)
    ensures var q := Kids(cs, baseId, p, r);
      |p.text| <= |q.text| && q.text[..|p.text|] == p.text
    decreases |cs|
  {
    if cs != [] {
      var g := Gen(cs[0], true, ChildId(baseId, |p.done|), p.ms, r);
      var p' := Progress(p.text + Piece(g.out), g.ms, p.done + [g.tree]);
      KidsPrefix(cs[1..], baseId, p', r);
      var q := Kids(cs[1..], baseId, p', r);
      assert q.text[..|p.text|] == q.text[..|p'.text|][..|p.text|];
    }
  }

  /** An element's output starts with its own snippet, whatever its children
      do: the script's text, or the fallback's when the script raises
      UndefinedError. When the snippet it would start with is not text, the
      element raises exactly what the script (AttributeError) or the fallback
      raised. */
  lemma ScriptOrFallback(t: Tree, nested: bool, baseId: string, ms: Entries, r: Renderer)
    requires t.kind.Element?
    ensures var g := Gen(t, nested, baseId, ms, r);
      var s := r.script(t.template, baseId);
      var f := r.fallback(t.template, baseId);
      (s.Ok? ==> g.out.Ok? && |s.text| <= |g.out.text| && g.out.text[..|s.text|] == s.text) &&
      (s.AttrErr? ==> g.out == s) &&
      (s.UndefinedErr? && f.Ok? ==>
        g.out.Ok? && |f.text| <= |g.out.text| && g.out.text[..|f.text|] == f.text) &&
      (s.UndefinedErr? && !f.Ok? ==> g.out == f)
  {
    var own := Own(t.template, baseId, r);
    if nested && own.Ok? {
      KidsPrefix(t.children, baseId, Progress(own.text, Store(ms, t.id, baseId), []), r);
    }
  }

  /** A child that raises adds no text, and the next child is still generated
      with the next index. */
  lemma FailedChildSkipped(cs: seq<Tree>, baseId: string, p: Progress, r: Renderer)
    requires cs != []
    requires !Gen(cs[0], true, ChildId(baseId, |p.done|), p.ms, r).out.Ok?
    ensures var g := Gen(cs[0], true, ChildId(baseId, |p.done|), p.ms, r);
      Kids(cs, baseId, p, r) == Kids(cs[1..], baseId, Progress(p.text, g.ms, p.done + [g.tree]), r)
  {
    var g := Gen(cs[0], true, ChildId(baseId, |p.done|), p.ms, r);
    KidsUnfold(cs, baseId, p, r);
    assert p.text + Piece(g.out) == p.text;
  }

  /** The DualMap: its own id becomes `base_id`, but both maps are generated
      with the default base id "0". Without nesting the result is the first
      map's non-nested output alone and the second map is not visited. With
      nesting the second map is renumbered as soon as the first succeeds; the
      call succeeds exactly when map 1, map 2 and the synchronisation script
      all render, its output is then their texts joined by a newline before
      the synchronisation script, and otherwise it raises the first failure. */
  lemma DualMapBothZero(t: Tree, nested: bool, baseId: string, ms: Entries, r: Renderer)
    requires t.kind.DualMapOf?
    ensures var g := Gen(t, nested, baseId, ms, r);
      var g1 := Gen(t.kind.m1, nested, "0", Store(ms, t.id, baseId), r);
      g.tree.id == baseId && g.tree.kind.DualMapOf? &&
      g.tree.kind.m1 == g1.tree && g.tree.kind.m1.id == "0"
    ensures var g := Gen(t, nested, baseId, ms, r);
      var g1 := Gen(t.kind.m1, nested, "0", Store(ms, t.id, baseId), r);
      !nested ==> g.out == g1.out && g.ms == g1.ms && g.tree.kind.m2 == t.kind.m2
    ensures var g := Gen(t, true, baseId, ms, r);
      var g1 := Gen(t.kind.m1, true, "0", Store(ms, t.id, baseId), r);
      var g2 := Gen(t.kind.m2, true, "0", g1.ms, r);
      var sync := r.script(t.template, baseId);
      nested ==>
        (g1.out.Ok? ==> g.tree.kind.m2 == g2.tree && g.tree.kind.m2.id == "0") &&
        (g.out.Ok? <==> g1.out.Ok? && g2.out.Ok? && sync.Ok?) &&
        (!g1.out.Ok? ==> g.out == g1.out) &&
        (g1.out.Ok? && !g2.out.Ok? ==> g.out == g2.out) &&
        (g1.out.Ok? && g2.out.Ok? && !sync.Ok? ==> g.out == sync) &&
        (g.out.Ok? ==> g.out.text == g1.out.text + "\n" + g2.out.text + sync.text)
  {
  }

  // ---------------------------------------------------------------------------
  // The replacement pass.

  /** Entries that map an id to itself leave the text as it is. */
  lemma {:induction false} ApplyAllIdentity(es: Entries, text: string)
    requires forall i :: 0 <= i < |es| ==> es[i].0 == es[i].1
    ensures ApplyAll(es, text) == text
    decreases |es|
  {
    if es != [] {
      ApplyAllIdentity(es[..|es| - 1], text);
      ReplaceSelf(text, es[|es| - 1].0);
    }
  }

  /** The entries are applied in insertion order, each to the text the
      previous ones left: applying a mapping is applying its first part and
      then, to that result, the rest. */
  lemma {:induction false} ApplyAllAppend(es1: Entries, es2: Entries, text: string)
    ensures ApplyAll(es1 + es2, text) == ApplyAll(es2, ApplyAll(es1, text))
    decreases |es2|
  {
    if es2 == [] {
      assert es1 + es2 == es1;
    } else {
      var es := es1 + es2;
      assert es[..|es| - 1] == es1 + es2[..|es2| - 1];
      assert es[|es| - 1] == es2[|es2| - 1];
      ApplyAllAppend(es1, es2[..|es2| - 1], text);
    }
  }

  // ---------------------------------------------------------------------------
  // Only ids change, and the text depends on nothing else.

  /** The tree with every id blanked: its templates, kinds and shape. */
  function Erase(t: Tree): (e: Tree)
    ensures e.template == t.template && |e.children| == |t.children|
    ensures e.kind.DualMapOf? <==> t.kind.DualMapOf?
    decreases Size(t), 1
  {
    Tree("", t.template,
         if t.kind.DualMapOf? then DualMapOf(Erase(t.kind.m1), Erase(t.kind.m2)) else Element,
         EraseList(t.children))
  }

  function EraseList(cs: seq<Tree>): (es: seq<Tree>)
    ensures |es| == |cs|
    decreases SizeList(cs), 2
  {
    if cs == [] then [] else [Erase(cs[0])] + EraseList(cs[1..])
  }

  /** Equal shapes split into equal heads and equal tails. */
  lemma EraseListSplit(cs: seq<Tree>, ds: seq<Tree>)
    requires cs != [] && EraseList(cs) == EraseList(ds)
    ensures ds != [] && Erase(cs[0]) == Erase(ds[0]) && EraseList(cs[1..]) == EraseList(ds[1..])
  {
    assert EraseList(cs)[0] == EraseList(ds)[0];
    assert EraseList(cs)[1..] == EraseList(ds)[1..];
  }

  /** Generation changes ids only: templates, kinds and the order and number
      of children are kept. */
  lemma {:induction false} GenShape(t: Tree, nested: bool, baseId: string, ms: Entries, r: Renderer)
    ensures Erase(Gen(t, nested, baseId, ms, r).tree) == Erase(t)
    decreases Size(t), 2
  {
    var ms1 := Store(ms, t.id, baseId);
    if t.kind.DualMapOf? {
      var g1 := Gen(t.kind.m1, nested, "0", ms1, r);
      GenShape(t.kind.m1, nested, "0", ms1, r);
      if nested && g1.out.Ok? {
        GenShape(t.kind.m2, true, "0", g1.ms, r);
      }
    } else {
      var own := Own(t.template, baseId, r);
      if own.Ok? && nested {
        var p := Progress(own.text, ms1, []);
        KidsShape(t.children, baseId, p, r);
        assert Kids(t.children, baseId, p, r).done[0..] == Kids(t.children, baseId, p, r).done;
      }
    }
  }

  lemma {:induction false} KidsShape(cs: seq<Tree>, baseId: string, p: Progress, r: Renderer)
    ensures var q := Kids(cs, baseId, p, r);
      |p.done| <= |q.done| && EraseList(q.done[|p.done|..]) == EraseList(cs)
    decreases SizeList(cs), 3
  {
    var q := Kids(cs, baseId, p, r);
    if cs == [] {
      assert q.done[|p.done|..] == [];
    } else {
      var g := Gen(cs[0], true, ChildId(baseId, |p.done|), p.ms, r);
      var p' := Progress(p.text + Piece(g.out), g.ms, p.done + [g.tree]);
      KidsUnfold(cs, baseId, p, r);
      GenShape(cs[0], true, ChildId(baseId, |p.done|), p.ms, r);
      KidsShape(cs[1..], baseId, p', r);
      KidsNumbering(cs[1..], baseId, p', r);
      var rest := q.done[|p.done|..];
      assert rest[0] == q.done[..|p'.done|][|p.done|] == g.tree;
      assert rest[1..] == q.done[|p'.done|..];
      assert EraseList(rest) == [Erase(cs[0])] + EraseList(cs[1..]);
    }
  }

  /** The text a call produces depends only on the shape of the tree, the
      nesting flag, the base id and the renderer: not on the old ids and not
      on the mapping passed in. */
  lemma {:induction false} GenDeterministic(t: Tree, u: Tree, nested: bool, baseId: string,
                                            ms: Entries, ms': Entries, r: Renderer)
    requires Erase(t) == Erase(u)
    ensures Gen(t, nested, baseId, ms, r).out == Gen(u, nested, baseId, ms', r).out
    decreases Size(t), 2
  {
    EraseTop(t, u);
    EraseChildren(t, u);
    var ms1, ms1' := Store(ms, t.id, baseId), Store(ms', u.id, baseId);
    if t.kind.DualMapOf? {
      EraseFirst(t, u);
      EraseSecond(t, u);
      DualDeterministic(t, u, nested, baseId, ms1, ms1', r);
    } else {
      var own := Own(t.template, baseId, r);
      if own.Ok? && nested {
        KidsDeterministic(t.children, u.children, baseId,
                          Progress(own.text, ms1, []), Progress(own.text, ms1', []), r);
      }
    }
  }

  /** Trees of the same shape have the same template and kind of node. */
  lemma EraseTop(t: Tree, u: Tree)
    requires Erase(t) == Erase(u)
    ensures t.template == u.template && t.kind.DualMapOf? == u.kind.DualMapOf?
  {
  }

  /** The children of trees of the same shape have the same shapes. */
  lemma EraseChildren(t: Tree, u: Tree)
    requires Erase(t) == Erase(u)
    ensures EraseList(t.children) == EraseList(u.children)
  {
    assert Erase(t).children == EraseList(t.children);
  }

  /** The first maps of dual maps of the same shape have the same shape. */
  lemma EraseFirst(t: Tree, u: Tree)
    requires t.kind.DualMapOf? && Erase(t) == Erase(u)
    ensures u.kind.DualMapOf? && Erase(t.kind.m1) == Erase(u.kind.m1)
  {
  }

  /** The second maps of dual maps of the same shape have the same shape. */
  lemma EraseSecond(t: Tree, u: Tree)
    requires t.kind.DualMapOf? && Erase(t) == Erase(u)
    ensures u.kind.DualMapOf? && Erase(t.kind.m2) == Erase(u.kind.m2)
  {
  }

  /** The dual-map case of `GenDeterministic`. */
  lemma {:induction false} DualDeterministic(t: Tree, u: Tree, nested: bool, baseId: string,
                                             ms1: Entries, ms1': Entries, r: Renderer)
    requires t.kind.DualMapOf? && u.kind.DualMapOf? && t.template == u.template
    requires Erase(t.kind.m1) == Erase(u.kind.m1) && Erase(t.kind.m2) == Erase(u.kind.m2)
    ensures DualStep(t, nested, baseId, ms1, r).out == DualStep(u, nested, baseId, ms1', r).out
    decreases Size(t), 1
  {
    var g1 := Gen(t.kind.m1, nested, "0", ms1, r);
    var h1 := Gen(u.kind.m1, nested, "0", ms1', r);
    GenDeterministic(t.kind.m1, u.kind.m1, nested, "0", ms1, ms1', r);
    if nested && g1.out.Ok? {
      GenDeterministic(t.kind.m2, u.kind.m2, true, "0", g1.ms, h1.ms, r);
    }
  }

  lemma {:induction false} KidsDeterministic(cs: seq<Tree>, ds: seq<Tree>, baseId: string,
                                             p: Progress, p': Progress, r: Renderer)
    requires EraseList(cs) == EraseList(ds) && p.text == p'.text && |p.done| == |p'.done|
    ensures Kids(cs, baseId, p, r).text == Kids(ds, baseId, p', r).text
    decreases SizeList(cs), 3
  {
    if cs != [] {
      EraseListSplit(cs, ds);
      var g := Gen(cs[0], true, ChildId(baseId, |p.done|), p.ms, r);
      var h := Gen(ds[0], true, ChildId(baseId, |p.done|), p'.ms, r);
      KidsUnfold(cs, baseId, p, r);
      KidsUnfold(ds, baseId, p', r);
      GenDeterministic(cs[0], ds[0], true, ChildId(baseId, |p.done|), p.ms, p'.ms, r);
      KidsDeterministic(cs[1..], ds[1..], baseId,
                        Progress(p.text + Piece(g.out), g.ms, p.done + [g.tree]),
                        Progress(p'.text + Piece(h.out), h.ms, p'.done + [h.tree]), r);
    }
  }
}
