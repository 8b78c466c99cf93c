/** The handler tree as seen from one root, and the three searches of
    `torchslime/core/handlers/__init__.py` (`get_by_id`, `get_by_class`,
    `get_by_filter`) that walk it in pre-order through the shared
    `_append_search_result`. */
module Tree {
  import opened Base
  import opened Handlers

  /** What a search callback can observe of one handler. */
  datatype Label = Label(ref: Ref, kind: Kind, id: string)

  /** One handler together with the handlers below it, in list order. A node
      held by two containers appears once under each. */
  datatype HTree = HNode(info: Label, children: seq<HTree>)

  // ---------------------------------------------------------------------
  // Reading the tree out of the store
  // ---------------------------------------------------------------------

  /** The tree below `r`, or `None` when the walk meets a reference that is
      not a handler or comes back to a handler above it (a cycle, on which
      the source's recursion would not end). */
  function View(w: World, r: Ref, above: set<Ref>): (t: Option<HTree>)
    decreases w.nodes.Keys - above, 0
  {
    if r !in w.nodes || r in above then None
    else
      match ViewAll(w, w.nodes[r].children, above + {r})
      case None => None
      case Some(ts) => Some(HNode(Label(r, w.nodes[r].kind, w.nodes[r].id), ts))
  }

  function ViewAll(w: World, rs: seq<Ref>, above: set<Ref>): (ts: Option<seq<HTree>>)
    decreases w.nodes.Keys - above, |rs| + 1
  {
    if rs == [] then Some([])
    else
      match View(w, rs[0], above)
      case None => None
      case Some(t) =>
        match ViewAll(w, rs[1..], above)
        case None => None
        case Some(rest) => Some([t] + rest)
  }

  /** The handlers below `r` form a finite tree. */
  predicate Acyclic(w: World, r: Ref) {
    View(w, r, {}).Some?
  }

  /** A view has the store's node at its root and one subtree per child. */
  lemma {:induction false} ViewShape(w: World, r: Ref, above: set<Ref>)
    requires View(w, r, above).Some?
    ensures var t := View(w, r, above).value;
      && r in w.nodes && t.info == Label(r, w.nodes[r].kind, w.nodes[r].id)
      && |t.children| == |w.nodes[r].children|
      && forall i :: 0 <= i < |t.children| ==> t.children[i].info.ref == w.nodes[r].children[i]
  {
    ViewAllShape(w, w.nodes[r].children, above + {r});
  }

  lemma {:induction false} ViewAllShape(w: World, rs: seq<Ref>, above: set<Ref>)
    requires ViewAll(w, rs, above).Some?
    ensures var ts := ViewAll(w, rs, above).value;
      |ts| == |rs| && forall i :: 0 <= i < |ts| ==> ts[i].info.ref == rs[i]
    decreases w.nodes.Keys - above, |rs| + 1
  {
    if rs != [] {
      assert View(w, rs[0], above).Some?;
      var t := View(w, rs[0], above).value;
      assert t.info.ref == rs[0];
      ViewAllShape(w, rs[1..], above);
    }
  }

  /** Every label a view shows is a handler of the store with its class and
      id. */
  lemma {:induction false} ViewLabels(w: World, r: Ref, above: set<Ref>)
    requires View(w, r, above).Some?
    ensures forall l :: l in PreOrder(View(w, r, above).value) ==>
      l.ref in w.nodes && l.kind == w.nodes[l.ref].kind && l.id == w.nodes[l.ref].id
    decreases w.nodes.Keys - above, 0
  {
    ViewAllLabels(w, w.nodes[r].children, above + {r});
  }

  lemma {:induction false} ViewAllLabels(w: World, rs: seq<Ref>, above: set<Ref>)
    requires ViewAll(w, rs, above).Some?
    ensures forall l :: l in PreOrderAll(ViewAll(w, rs, above).value) ==>
      l.ref in w.nodes && l.kind == w.nodes[l.ref].kind && l.id == w.nodes[l.ref].id
    decreases w.nodes.Keys - above, |rs| + 1
  {
    if rs != [] {
      var t := View(w, rs[0], above).value;
      var rest := ViewAll(w, rs[1..], above).value;
      ViewLabels(w, rs[0], above);
      ViewAllLabels(w, rs[1..], above);
      assert ([t] + rest)[1..] == rest;
    }
  }

  /** `w2` keeps every handler of `w1` with the same class, id and children
      (parent links may differ: a view never reads them). */
  predicate Extends(w1: World, w2: World) {
    forall x :: x in w1.nodes ==>
      && x in w2.nodes
      && w2.nodes[x].kind == w1.nodes[x].kind
      && w2.nodes[x].id == w1.nodes[x].id
      && w2.nodes[x].children == w1.nodes[x].children
  }

  /** A view only depends on the handlers it reaches. */
  lemma {:induction false} ViewExtend(w1: World, w2: World, r: Ref, above: set<Ref>)
    requires Extends(w1, w2) && View(w1, r, above).Some?
    ensures View(w2, r, above) == View(w1, r, above)
    decreases w1.nodes.Keys - above, 0
  {
    ViewAllExtend(w1, w2, w1.nodes[r].children, above + {r});
  }

  lemma {:induction false} ViewAllExtend(w1: World, w2: World, rs: seq<Ref>, above: set<Ref>)
    requires Extends(w1, w2) && ViewAll(w1, rs, above).Some?
    ensures ViewAll(w2, rs, above) == ViewAll(w1, rs, above)
    decreases w1.nodes.Keys - above, |rs| + 1
  {
    if rs != [] {
      ViewExtend(w1, w2, rs[0], above);
      ViewAllExtend(w1, w2, rs[1..], above);
    }
  }

  // ---------------------------------------------------------------------
  // Pre-order
  // ---------------------------------------------------------------------

  /** Self first, then each child's pre-order in list order. */
  function PreOrder(t: HTree): (ls: seq<Label>)
    ensures |ls| >= 1 && ls[0] == t.info
  {
    [t.info] + PreOrderAll(t.children)
  }

  function PreOrderAll(ts: seq<HTree>): seq<Label> {
    if ts == [] then [] else PreOrder(ts[0]) + PreOrderAll(ts[1..])
  }

  /** The references of the labels that satisfy `p`, in order. */
  function Matches(ls: seq<Label>, p: Label -> bool): (rs: seq<Ref>)
    ensures |rs| <= |ls|
    ensures forall x :: x in rs <==> exists i :: 0 <= i < |ls| && ls[i].ref == x && p(ls[i])
  {
    if ls == [] then []
    else if p(ls[0]) then [ls[0].ref] + Matches(ls[1..], p)
    else Matches(ls[1..], p)
  }

  lemma {:induction false} MatchesAppend(a: seq<Label>, b: seq<Label>, p: Label -> bool)
    ensures Matches(a + b, p) == Matches(a, p) + Matches(b, p)
  {
    if a != [] {
      assert (a + b)[0] == a[0];
      assert (a + b)[1..] == a[1..] + b;
      MatchesAppend(a[1..], b, p);
    } else {
      assert a + b == b;
    }
  }

  /** The reference list a duplicate-free accumulator ends with after
      offering it `xs` in order. */
  function AddAll(found: seq<Ref>, xs: seq<Ref>): (r: seq<Ref>)
    ensures Distinct(found) ==> Distinct(r)
    ensures forall x :: x in r <==> x in found || x in xs
    ensures |found| <= |r| <= |found| + |xs| && r[..|found|] == found
    decreases |xs|
  {
    if xs == [] then found
    else if xs[0] in found then AddAll(found, xs[1..])
    else AddAll(found + [xs[0]], xs[1..])
  }

  lemma {:induction false} AddAllAppend(found: seq<Ref>, xs: seq<Ref>, ys: seq<Ref>)
    ensures AddAll(found, xs + ys) == AddAll(AddAll(found, xs), ys)
    decreases |xs|
  {
    if xs == [] {
      assert xs + ys == ys;
    } else {
      assert (xs + ys)[0] == xs[0];
      assert (xs + ys)[1..] == xs[1..] + ys;
      if xs[0] in found {
        AddAllAppend(found, xs[1..], ys);
      } else {
        AddAllAppend(found + [xs[0]], xs[1..], ys);
      }
    }
  }

  // ---------------------------------------------------------------------
  // The searches
  // ---------------------------------------------------------------------

  /** The shared result list and the warnings logged while filling it. */
  datatype Search = Search(found: seq<Ref>, warnings: seq<Warning>)

  /** `_append_search_result(item, result, allow_multiple=multiple)`: a node
      already in the list is skipped with a warning; otherwise it is
      appended, and without `multiple` the list reaching length 2 logs one
      warning. */
  function Append(s: Search, x: Ref, multiple: bool): (r: Search)
    ensures x in s.found ==> r == s.(warnings := s.warnings + [DuplicateResult(x)])
    ensures x !in s.found ==> r.found == s.found + [x]
    ensures x !in s.found ==> r.warnings == s.warnings + (if !multiple && |s.found| == 1 then [MultipleMatches] else [])
  {
    if x in s.found then s.(warnings := s.warnings + [DuplicateResult(x)])
    else
      var grown := s.found + [x];
      Search(grown, s.warnings + (if !multiple && |grown| == 2 then [MultipleMatches] else []))
  }

  /** The recursive search: test the node itself, then search each child in
      order with the same result list. */
  function Collect(t: HTree, p: Label -> bool, multiple: bool, s: Search): Search
    decreases t
  {
    var s1 := if p(t.info) then Append(s, t.info.ref, multiple) else s;
    CollectAll(t.children, p, multiple, s1)
  }

  function CollectAll(ts: seq<HTree>, p: Label -> bool, multiple: bool, s: Search): Search
    decreases ts
  {
    if ts == [] then s else CollectAll(ts[1..], p, multiple, Collect(ts[0], p, multiple, s))
  }

  /** The `result=None`/`NOTHING` default: a fresh list, else the caller's. */
  function Initial(result: Option<seq<Ref>>, warnings: seq<Warning>): Search {
    Search(if result.None? then [] else result.value, warnings)
  }

  /** `get_by_class(classes, result)`. */
  function GetByClass(t: HTree, classes: set<Kind>, result: Option<seq<Ref>>, warnings: seq<Warning>): Search {
    Collect(t, (l: Label) => IsInstance(l.kind, classes), true, Initial(result, warnings))
  }

  /** `get_by_filter(f, result)`. */
  function GetByFilter(t: HTree, f: Label -> bool, result: Option<seq<Ref>>, warnings: seq<Warning>): Search {
    Collect(t, f, true, Initial(result, warnings))
  }

  predicate IdIs(id: string, l: Label) {
    l.id == id
  }

  /** `get_by_id(id, result)`: the first entry of the result list, or
      NOTHING when it stays empty. */
  function GetById(t: HTree, id: string, result: Option<seq<Ref>>, warnings: seq<Warning>): (r: (Option<Ref>, Search))
    ensures r.0.None? <==> r.1.found == []
    ensures r.0.Some? ==> r.0.value == r.1.found[0]
  {
    var s := Collect(t, (l: Label) => IdIs(id, l), false, Initial(result, warnings));
    (if |s.found| < 1 then None else Some(s.found[0]), s)
  }

  // ---------------------------------------------------------------------
  // What the searches compute
  // ---------------------------------------------------------------------

  /** A search offers every matching node to the result list in pre-order,
      and the list keeps the first offer of each node. */
  lemma {:induction false} CollectIsPreOrder(t: HTree, p: Label -> bool, multiple: bool, s: Search)
    ensures Collect(t, p, multiple, s).found == AddAll(s.found, Matches(PreOrder(t), p))
    decreases t
  {
    var s1 := if p(t.info) then Append(s, t.info.ref, multiple) else s;
    CollectAllIsPreOrder(t.children, p, multiple, s1);
    assert PreOrder(t) == [t.info] + PreOrderAll(t.children);
    MatchesAppend([t.info], PreOrderAll(t.children), p);
    AddAllAppend(s.found, Matches([t.info], p), Matches(PreOrderAll(t.children), p));
  }

  lemma {:induction false} CollectAllIsPreOrder(ts: seq<HTree>, p: Label -> bool, multiple: bool, s: Search)
    ensures CollectAll(ts, p, multiple, s).found == AddAll(s.found, Matches(PreOrderAll(ts), p))
    decreases ts
  {
    if ts != [] {
      var s1 := Collect(ts[0], p, multiple, s);
      CollectIsPreOrder(ts[0], p, multiple, s);
      CollectAllIsPreOrder(ts[1..], p, multiple, s1);
      MatchesAppend(PreOrder(ts[0]), PreOrderAll(ts[1..]), p);
      AddAllAppend(s.found, Matches(PreOrder(ts[0]), p), Matches(PreOrderAll(ts[1..]), p));
    }
  }

  /** A fresh search never lists a node twice and lists exactly the matching
      nodes of the tree. */
  lemma SearchDistinct(t: HTree, p: Label -> bool, multiple: bool, warnings: seq<Warning>)
    ensures var found := Collect(t, p, multiple, Search([], warnings)).found;
      && Distinct(found)
      && forall x :: x in found <==> exists i :: 0 <= i < |PreOrder(t)| && PreOrder(t)[i].ref == x && p(PreOrder(t)[i])
  {
    CollectIsPreOrder(t, p, multiple, Search([], warnings));
  }

  /** `get_by_id` with a fresh result list answers the first handler with
      that id in pre-order, or NOTHING when there is none. */
  lemma GetByIdFirst(t: HTree, id: string, warnings: seq<Warning>)
    ensures var ms := Matches(PreOrder(t), (l: Label) => IdIs(id, l));
      GetById(t, id, None, warnings).0 == if ms == [] then None else Some(ms[0])
  {
    var p := (l: Label) => IdIs(id, l);
    var ms := Matches(PreOrder(t), p);
    CollectIsPreOrder(t, p, false, Search([], warnings));
    AddAllFirst(ms);
  }

  lemma AddAllFirst(xs: seq<Ref>)
    ensures xs == [] <==> AddAll([], xs) == []
    ensures xs != [] ==> AddAll([], xs)[0] == xs[0]
  {
    if xs != [] {
      assert xs[0] !in [];
      var r := AddAll([xs[0]], xs[1..]);
      assert r[..1] == [xs[0]];
    }
  }

  // ---------------------------------------------------------------------
  // The warnings a search logs
  // ---------------------------------------------------------------------

  function CountMultiple(ws: seq<Warning>): nat {
    if ws == [] then 0 else (if ws[0] == MultipleMatches then 1 else 0) + CountMultiple(ws[1..])
  }

  lemma {:induction false} CountMultipleAppend(a: seq<Warning>, b: seq<Warning>)
    ensures CountMultiple(a + b) == CountMultiple(a) + CountMultiple(b)
  {
    if a == [] {
      assert a + b == b;
    } else {
      assert (a + b)[0] == a[0];
      assert (a + b)[1..] == a[1..] + b;
      CountMultipleAppend(a[1..], b);
    }
  }

  /** 1 exactly when the result list grew across length 2 without the
      multiple-match allowance. */
  function Crossed(multiple: bool, before: nat, after: nat): nat {
    if !multiple && before < 2 <= after then 1 else 0
  }

  /** A search only appends warnings; the multiple-match warning is logged
      once, when the list first reaches two entries, and never when
      multiple matches are allowed. */
  lemma {:induction false} CollectWarnings(t: HTree, p: Label -> bool, multiple: bool, s: Search)
    ensures var r := Collect(t, p, multiple, s);
      && |s.found| <= |r.found|
      && |s.warnings| <= |r.warnings| && r.warnings[..|s.warnings|] == s.warnings
      && CountMultiple(r.warnings) == CountMultiple(s.warnings) + Crossed(multiple, |s.found|, |r.found|)
    decreases t
  {
    var s1 := if p(t.info) then Append(s, t.info.ref, multiple) else s;
    if p(t.info) {
      if t.info.ref in s.found {
        CountMultipleAppend(s.warnings, [DuplicateResult(t.info.ref)]);
      } else {
        CountMultipleAppend(s.warnings, if !multiple && |s.found| == 1 then [MultipleMatches] else []);
      }
    }
    assert s1.warnings[..|s.warnings|] == s.warnings;
    CollectAllWarnings(t.children, p, multiple, s1);
    var r := CollectAll(t.children, p, multiple, s1);
    assert r.warnings[..|s1.warnings|][..|s.warnings|] == s.warnings;
  }

  lemma {:induction false} CollectAllWarnings(ts: seq<HTree>, p: Label -> bool, multiple: bool, s: Search)
    ensures var r := CollectAll(ts, p, multiple, s);
      && |s.found| <= |r.found|
      && |s.warnings| <= |r.warnings| && r.warnings[..|s.warnings|] == s.warnings
      && CountMultiple(r.warnings) == CountMultiple(s.warnings) + Crossed(multiple, |s.found|, |r.found|)
    decreases ts
  {
    if ts != [] {
      var s1 := Collect(ts[0], p, multiple, s);
      CollectWarnings(ts[0], p, multiple, s);
      CollectAllWarnings(ts[1..], p, multiple, s1);
      var r := CollectAll(ts[1..], p, multiple, s1);
      assert r.warnings[..|s1.warnings|][..|s.warnings|] == s.warnings;
    }
  }

  /** `get_by_id` from a fresh list warns about multiple matches exactly once
      when two or more distinct handlers carry the id, and never otherwise. */
  lemma GetByIdWarnsOnce(t: HTree, id: string, warnings: seq<Warning>)
    ensures var s := GetById(t, id, None, warnings).1;
      CountMultiple(s.warnings) == CountMultiple(warnings) + (if |s.found| >= 2 then 1 else 0)
  {
    CollectWarnings(t, (l: Label) => IdIs(id, l), false, Search([], warnings));
  }

  /** The class and filter searches never log the multiple-match warning. */
  lemma ClassSearchNeverWarnsMultiple(t: HTree, classes: set<Kind>, result: Option<seq<Ref>>, warnings: seq<Warning>)
    ensures CountMultiple(GetByClass(t, classes, result, warnings).warnings) == CountMultiple(warnings)
  {
    CollectWarnings(t, (l: Label) => IsInstance(l.kind, classes), true, Initial(result, warnings));
  }
}
