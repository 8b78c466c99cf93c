/** The launch hooks of `src/torchslime/hook/launch.py`. `VanillaLaunch`
    leaves the built tree alone; `DistributedLaunch`, after the tree is
    built, puts a `GatherAverageHandler` immediately before every meter so
    that averages are gathered across processes before they are computed. */
module Launch {
  import opened Base
  import opened Handlers
  import opened Tree
  import opened Build

  // ---------------------------------------------------------------------
  // The gather handler's id
  // ---------------------------------------------------------------------

  /** `s.split('_')[-1]`: the text after the last underscore, or all of `s`
      when it has none. */
  function LastSegment(s: string): (r: string)
    ensures '_' !in r && |r| <= |s|
    decreases |s|
  {
    if s == [] then []
    else if s[|s| - 1] == '_' then []
    else LastSegment(s[..|s| - 1]) + [s[|s| - 1]]
  }

  /** The segment after an underscore that is followed by no other
      underscore is what `split('_')[-1]` answers. */
  lemma {:induction false} LastSegmentOfJoin(p: string, r: string)
    requires '_' !in r
    ensures LastSegment(p + "_" + r) == r
    decreases |r|
  {
    var s := p + "_" + r;
    if r != [] {
      var r' := r[..|r| - 1];
      assert s[..|s| - 1] == p + "_" + r';
      LastSegmentOfJoin(p, r');
      assert r == r' + [r[|r| - 1]];
    }
  }

  /** An id without underscores is its own last segment. */
  lemma {:induction false} LastSegmentWhole(s: string)
    requires '_' !in s
    ensures LastSegment(s) == s
    decreases |s|
  {
    if s != [] {
      LastSegmentWhole(s[..|s| - 1]);
      assert s == s[..|s| - 1] + [s[|s| - 1]];
    }
  }

  /** `f'gather_average_{state}'` for a meter whose id is `meterId`. */
  function GatherId(meterId: string): string {
    "gather_average_" + LastSegment(meterId)
  }

  /** The train tree's meters gather as `gather_average_train` and
      `gather_average_val`: the phase suffix survives. */
  lemma TrainMeterGatherIds()
    ensures GatherId("train_average_train") == "gather_average_train"
    ensures GatherId("train_average_val") == "gather_average_val"
  {
    assert "train_average" + "_" + "train" == "train_average_train";
    LastSegmentOfJoin("train_average", "train");
    assert "train_average" + "_" + "val" == "train_average_val";
    LastSegmentOfJoin("train_average", "val");
  }

  /** The eval tree's meter `eval_average` gathers as
      `gather_average_average`: its last segment is `average`, not the
      phase. */
  lemma EvalMeterGatherId()
    ensures GatherId("eval_average") == "gather_average_average"
  {
    assert "eval" + "_" + "average" == "eval_average";
    LastSegmentOfJoin("eval", "average");
  }

  // ---------------------------------------------------------------------
  // One step of the loop
  // ---------------------------------------------------------------------

  /** `x` is a handler whose parent, if any, is a container holding it: what
      a well-linked store says about each of its handlers. */
  predicate Held(w: World, x: Ref) {
    Located(w, x) && (w.nodes[x].parent.Some? ==> x in w.nodes[w.nodes[x].parent.value].children)
  }

  /** `insert_before_self` in a store where the node is held: a root only
      logs the failed `_verify_parent`; otherwise it is `insert` at the
      node's own index. */
  lemma InsertBeforeSelfCases(w: World, x: Ref, h: Ref)
    requires Held(w, x) && h in w.nodes
    ensures w.nodes[x].parent.None? ==> InsertBeforeSelf(w, x, h).0 == w.(warnings := w.warnings + [StaleParent(x)])
    ensures w.nodes[x].parent.Some? ==> var c := w.nodes[x].parent.value;
      InsertBeforeSelf(w, x, h).0 == Insert(w, c, IndexOf(w.nodes[c].children, x), h)
  {
    if w.nodes[x].parent.None? {
      assert w.nodes[x].(parent := None) == w.nodes[x];
      assert w.nodes[x := w.nodes[x]] == w.nodes;
    }
  }

  lemma WellLinkedHeld(w: World, x: Ref)
    requires WellLinked(w) && x in w.nodes
    ensures Held(w, x)
  {
  }

  /** A handler the class search for `MeterHandler` returns. */
  predicate IsMeter(w: World, m: Ref) {
    m in w.nodes && IsA(w.nodes[m].kind, Meter)
  }

  /** The store right after `GatherAverageHandler(id=...)` for meter `m`. */
  function Created(w: World, m: Ref): (r: (World, Ref))
    requires Allocated(w) && Held(w, m)
    ensures r.1 == w.next && r.1 !in w.nodes && Allocated(r.0) && r.0.warnings == w.warnings
    ensures r.0.nodes == w.nodes[r.1 := Node(GatherAverage, GatherId(w.nodes[m].id), [], None)]
    ensures Held(r.0, m)
  {
    NewHandler(w, GatherAverage, Some(GatherId(w.nodes[m].id)))
  }

  /** One turn of the loop over the meters: create the gather handler, then
      `m.insert_before_self(g)`. The handler is created even when `m` has no
      parent and the insertion fails softly. */
  function GatherOne(w: World, m: Ref): (r: (World, Ref))
    requires Allocated(w) && Held(w, m)
    ensures r.1 == w.next && r.1 !in w.nodes && r.0.nodes.Keys == w.nodes.Keys + {r.1}
    ensures Allocated(r.0)
  {
    var (w1, g) := Created(w, m);
    InsertBeforeSelfCases(w1, m, g);
    (InsertBeforeSelf(w1, m, g).0, g)
  }

  /** A turn keeps the store well linked. */
  lemma GatherOneKeepsLinks(w: World, m: Ref)
    requires WellLinked(w) && Allocated(w) && m in w.nodes
    ensures Held(w, m) && WellLinked(GatherOne(w, m).0)
  {
    NewHandlerKeepsLinks(w, GatherAverage, Some(GatherId(w.nodes[m].id)));
    var (w1, g) := Created(w, m);
    InsertBeforeSelfKeepsLinks(w1, m, g);
  }

  /** The created handler is a `GatherAverageHandler` whose id comes from the
      meter's. */
  lemma GatherOneCreates(w: World, m: Ref)
    requires Allocated(w) && Held(w, m)
    ensures var (r, g) := GatherOne(w, m);
      r.nodes[g].kind == GatherAverage && r.nodes[g].id == GatherId(w.nodes[m].id)
  {
    var (w1, g) := Created(w, m);
    InsertBeforeSelfCases(w1, m, g);
  }

  /** No existing handler changes class, id or parent, and only the meter's
      container changes its children. */
  lemma GatherOneFrame(w: World, m: Ref, x: Ref)
    requires Allocated(w) && Held(w, m) && x in w.nodes
    ensures var r := GatherOne(w, m).0;
      && r.nodes[x].kind == w.nodes[x].kind && r.nodes[x].id == w.nodes[x].id
      && r.nodes[x].parent == w.nodes[x].parent
      && (Some(x) != w.nodes[m].parent ==> r.nodes[x].children == w.nodes[x].children)
  {
    var (w1, g) := Created(w, m);
    InsertBeforeSelfCases(w1, m, g);
  }

  /** A meter in a container gets the new handler immediately before it, with
      nothing logged; a meter at a root only logs the failed check. */
  lemma GatherOnePlaces(w: World, m: Ref)
    requires Allocated(w) && Held(w, m)
    ensures var (r, g) := GatherOne(w, m);
      && (w.nodes[m].parent.Some? ==>
            var c := w.nodes[m].parent.value;
            && PlacedAt(r.nodes[c].children, w.nodes[c].children, IndexOf(w.nodes[c].children, m), g)
            && r.warnings == w.warnings)
      && (w.nodes[m].parent.None? ==> r.warnings == w.warnings + [StaleParent(m)])
  {
    var (w1, g) := Created(w, m);
    InsertBeforeSelfCases(w1, m, g);
  }

  /** Putting `g` in at another node's index, neither at `m0` nor at the
      node before it, keeps that node right behind `m0`'s predecessor. */
  lemma PlacedKeepsNeighbour(kids: seq<Ref>, now: seq<Ref>, k: nat, g: Ref, m0: Ref, j: nat)
    requires PlacedAt(now, kids, k, g) && g != m0 && m0 in kids
    requires j == IndexOf(kids, m0) && j > 0 && k != j && k != j - 1
    ensures m0 in now && IndexOf(now, m0) > 0 && now[IndexOf(now, m0) - 1] == kids[j - 1]
  {
    if k < j {
      assert now[j + 1] == kids[j] && now[j] == kids[j - 1];
      forall t | 0 <= t < j + 1 ensures now[t] != m0 {
        if t < k { assert now[t] == kids[t]; }
        else if t > k { assert now[t] == kids[t - 1]; }
      }
      assert IndexOf(now, m0) == j + 1;
    } else {
      assert now[j] == kids[j] && now[j - 1] == kids[j - 1];
      forall t | 0 <= t < j ensures now[t] != m0 {
        assert now[t] == kids[t];
      }
      assert IndexOf(now, m0) == j;
    }
  }

  /** A turn for another meter leaves an earlier gather handler where it
      was: the new handler lands before that other meter, which is neither
      the earlier meter nor its gather handler. */
  lemma GatherOneKeeps(w: World, m: Ref, g0: Ref, m0: Ref)
    requires Allocated(w) && Held(w, m) && IsMeter(w, m) && m != m0
    requires g0 in w.nodes && w.nodes[g0].kind == GatherAverage
    requires GatheredBefore(w, g0, m0)
    ensures GatheredBefore(GatherOne(w, m).0, g0, m0)
  {
    if w.nodes[m].parent == w.nodes[m0].parent {
      KeepsBesideSameContainer(w, m, g0, m0);
    } else {
      var c := w.nodes[m0].parent.value;
      GatherOneFrame(w, m, m0);
      GatherOneFrame(w, m, c);
    }
  }

  /** The case of `GatherOneKeeps` where both meters share a container. */
  lemma KeepsBesideSameContainer(w: World, m: Ref, g0: Ref, m0: Ref)
    requires Allocated(w) && Held(w, m) && IsMeter(w, m) && m != m0
    requires g0 in w.nodes && w.nodes[g0].kind == GatherAverage
    requires GatheredBefore(w, g0, m0) && w.nodes[m].parent == w.nodes[m0].parent
    ensures GatheredBefore(GatherOne(w, m).0, g0, m0)
  {
    var (r, g) := GatherOne(w, m);
    var c := w.nodes[m0].parent.value;
    GatherOneFrame(w, m, m0);
    GatherOnePlaces(w, m);
    var kids := w.nodes[c].children;
    var k := IndexOf(kids, m);
    var j := IndexOf(kids, m0);
    assert w.nodes[m].kind != GatherAverage;
    assert kids[k] == m && kids[j] == m0 && kids[j - 1] == g0;
    PlacedKeepsNeighbour(kids, r.nodes[c].children, k, g, m0, j);
  }

  /** `g` sits immediately before `m` in `m`'s container. */
  predicate GatheredBefore(w: World, g: Ref, m: Ref) {
    && m in w.nodes && w.nodes[m].parent.Some?
    && var c := w.nodes[m].parent.value;
    && c in w.nodes && m in w.nodes[c].children
    && var k := IndexOf(w.nodes[c].children, m);
    && k > 0 && w.nodes[c].children[k - 1] == g
  }

  /** A turn keeps every other handler held by its container: the meter's
      container only gains a child. */
  lemma GatherOneHeld(w: World, m: Ref, x: Ref)
    requires Allocated(w) && Held(w, m) && Held(w, x)
    ensures Held(GatherOne(w, m).0, x)
  {
    var (w1, g) := Created(w, m);
    assert Held(w1, x);
    InsertBeforeSelfCases(w1, m, g);
  }

  /** Every meter still to come is held after the first turn. */
  lemma StepHeld(w: World, ms: seq<Ref>)
    requires Allocated(w) && ms != [] && forall i :: 0 <= i < |ms| ==> Held(w, ms[i])
    ensures forall i :: 0 <= i < |ms| - 1 ==> Held(GatherOne(w, ms[0]).0, ms[1..][i])
  {
    forall i | 0 <= i < |ms| - 1 ensures Held(GatherOne(w, ms[0]).0, ms[1..][i]) {
      GatherOneHeld(w, ms[0], ms[i + 1]);
    }
  }

  /** Every handler of `ms` is a meter held by its container. */
  predicate Ready(w: World, ms: seq<Ref>) {
    forall i :: 0 <= i < |ms| ==> Held(w, ms[i]) && IsMeter(w, ms[i])
  }

  /** The meters still to come stay ready after the first turn. */
  lemma StepReady(w: World, ms: seq<Ref>)
    requires Allocated(w) && ms != [] && Ready(w, ms)
    ensures Ready(GatherOne(w, ms[0]).0, ms[1..])
  {
    StepHeld(w, ms);
    forall i | 0 <= i < |ms| - 1 ensures IsMeter(GatherOne(w, ms[0]).0, ms[1..][i]) {
      GatherOneFrame(w, ms[0], ms[i + 1]);
    }
  }

  /** `for a_handler in average_handlers: ...` over the meters collected
      before the loop; answers the created gather handlers, one per meter,
      all of them new. */
  function InsertEach(w: World, ms: seq<Ref>): (r: (World, seq<Ref>))
    requires Allocated(w) && forall i :: 0 <= i < |ms| ==> Held(w, ms[i])
    ensures Allocated(r.0) && |r.1| == |ms| && w.nodes.Keys <= r.0.nodes.Keys
    decreases |ms|
  {
    if ms == [] then (w, [])
    else
      var (w1, g) := GatherOne(w, ms[0]);
      StepHeld(w, ms);
      var (w2, gs) := InsertEach(w1, ms[1..]);
      (w2, [g] + gs)
  }

  /** The handlers the loop creates are new and pairwise distinct, and they
      are all the store gains. */
  lemma {:induction false} InsertEachFresh(w: World, ms: seq<Ref>)
    requires Allocated(w) && forall i :: 0 <= i < |ms| ==> Held(w, ms[i])
    ensures var (r, gs) := InsertEach(w, ms);
      && r.nodes.Keys == w.nodes.Keys + (set g | g in gs)
      && Distinct(gs) && forall g :: g in gs ==> g !in w.nodes
    decreases |ms|
  {
    if ms != [] {
      var (w1, g) := GatherOne(w, ms[0]);
      StepHeld(w, ms);
      var (w2, gs) := InsertEach(w1, ms[1..]);
      assert InsertEach(w, ms) == (w2, [g] + gs);
      InsertEachFresh(w1, ms[1..]);
      DistinctConcat([g], gs);
    }
  }

  /** The loop keeps the store well linked. */
  lemma {:induction false} InsertEachKeepsLinks(w: World, ms: seq<Ref>)
    requires WellLinked(w) && Allocated(w) && forall i :: 0 <= i < |ms| ==> Held(w, ms[i])
    ensures WellLinked(InsertEach(w, ms).0)
    decreases |ms|
  {
    if ms != [] {
      GatherOneKeepsLinks(w, ms[0]);
      StepHeld(w, ms);
      InsertEachKeepsLinks(GatherOne(w, ms[0]).0, ms[1..]);
    }
  }

  /** The loop changes no existing handler's class, id or parent. */
  lemma {:induction false} InsertEachFrame(w: World, ms: seq<Ref>, x: Ref)
    requires Allocated(w) && forall i :: 0 <= i < |ms| ==> Held(w, ms[i])
    requires x in w.nodes
    ensures var r := InsertEach(w, ms).0;
      && r.nodes[x].kind == w.nodes[x].kind && r.nodes[x].id == w.nodes[x].id
      && r.nodes[x].parent == w.nodes[x].parent
    decreases |ms|
  {
    if ms != [] {
      var w1 := GatherOne(w, ms[0]).0;
      GatherOneFrame(w, ms[0], x);
      StepHeld(w, ms);
      InsertEachFrame(w1, ms[1..], x);
    }
  }

  /** Past the first turn, the `i`-th meter and its handler are the
      `i - 1`-th of the rest of the loop. */
  lemma ShiftTurn(w: World, ms: seq<Ref>, i: nat)
    requires Allocated(w) && (forall j :: 0 <= j < |ms| ==> Held(w, ms[j])) && 0 < i < |ms|
    ensures var w1 := GatherOne(w, ms[0]).0; var rest := ms[1..];
      && (forall j :: 0 <= j < |rest| ==> Held(w1, rest[j]))
      && InsertEach(w, ms).0 == InsertEach(w1, rest).0
      && InsertEach(w, ms).1[i] == InsertEach(w1, rest).1[i - 1]
      && rest[i - 1] == ms[i]
      && w1.nodes[ms[i]].id == w.nodes[ms[i]].id && w1.nodes[ms[i]].parent == w.nodes[ms[i]].parent
  {
    StepHeld(w, ms);
    GatherOneFrame(w, ms[0], ms[i]);
  }

  /** The first created handler is the first meter's gather handler. */
  lemma CreatesFirst(w: World, ms: seq<Ref>)
    requires Allocated(w) && (forall j :: 0 <= j < |ms| ==> Held(w, ms[j])) && ms != []
    ensures var (r, gs) := InsertEach(w, ms);
      gs[0] in r.nodes && r.nodes[gs[0]].kind == GatherAverage && r.nodes[gs[0]].id == GatherId(w.nodes[ms[0]].id)
  {
    var (w1, g) := GatherOne(w, ms[0]);
    GatherOneCreates(w, ms[0]);
    StepHeld(w, ms);
    InsertEachFrame(w1, ms[1..], g);
  }

  /** The `i`-th created handler is the gather handler of the `i`-th meter. */
  lemma {:induction false} InsertEachCreates(w: World, ms: seq<Ref>, i: nat)
    requires Allocated(w) && forall j :: 0 <= j < |ms| ==> Held(w, ms[j])
    requires i < |ms|
    ensures var (r, gs) := InsertEach(w, ms);
      gs[i] in r.nodes && r.nodes[gs[i]].kind == GatherAverage && r.nodes[gs[i]].id == GatherId(w.nodes[ms[i]].id)
    decreases |ms|
  {
    if i == 0 {
      CreatesFirst(w, ms);
    } else {
      ShiftTurn(w, ms, i);
      InsertEachCreates(GatherOne(w, ms[0]).0, ms[1..], i - 1);
    }
  }

  /** What the loop must keep to leave `g0` right before `m0`: the meters
      still to come are ready, none of them is `m0`, and `g0` is a gather
      handler sitting right before `m0`. */
  predicate KeepsBeside(w: World, ms: seq<Ref>, g0: Ref, m0: Ref) {
    && Allocated(w) && Ready(w, ms) && (forall i :: 0 <= i < |ms| ==> ms[i] != m0)
    && g0 in w.nodes && w.nodes[g0].kind == GatherAverage && GatheredBefore(w, g0, m0)
  }

  /** One turn keeps it for the meters after the first. */
  lemma StepKeeps(w: World, ms: seq<Ref>, g0: Ref, m0: Ref)
    requires ms != [] && KeepsBeside(w, ms, g0, m0)
    ensures KeepsBeside(GatherOne(w, ms[0]).0, ms[1..], g0, m0)
  {
    StepKeepsGather(w, ms[0], g0, m0);
    StepReady(w, ms);
  }

  /** The gather handler part of `StepKeeps`. */
  lemma StepKeepsGather(w: World, m: Ref, g0: Ref, m0: Ref)
    requires Allocated(w) && Held(w, m) && IsMeter(w, m) && m != m0
    requires g0 in w.nodes && w.nodes[g0].kind == GatherAverage && GatheredBefore(w, g0, m0)
    ensures var r := GatherOne(w, m).0;
      g0 in r.nodes && r.nodes[g0].kind == GatherAverage && GatheredBefore(r, g0, m0)
  {
    GatherOneKeeps(w, m, g0, m0);
    GatherOneFrame(w, m, g0);
  }

  /** The remaining turns keep a gather handler placed earlier. */
  lemma {:induction false} InsertEachKeeps(w: World, ms: seq<Ref>, g0: Ref, m0: Ref)
    requires KeepsBeside(w, ms, g0, m0)
    ensures GatheredBefore(InsertEach(w, ms).0, g0, m0)
    decreases |ms|
  {
    if ms != [] {
      StepKeeps(w, ms, g0, m0);
      InsertEachKeeps(GatherOne(w, ms[0]).0, ms[1..], g0, m0);
    }
  }

  /** After the loop the `i`-th meter, when it had a container, has its
      gather handler immediately before it. */
  lemma {:induction false} InsertEachGathers(w: World, ms: seq<Ref>, i: nat)
    requires Allocated(w) && Distinct(ms) && Ready(w, ms)
    requires i < |ms| && w.nodes[ms[i]].parent.Some?
    ensures var (r, gs) := InsertEach(w, ms); GatheredBefore(r, gs[i], ms[i])
    decreases |ms|
  {
    if i == 0 {
      GathersFirst(w, ms);
    } else {
      ShiftTurn(w, ms, i);
      StepReady(w, ms);
      StepDistinct(ms);
      InsertEachGathers(GatherOne(w, ms[0]).0, ms[1..], i - 1);
    }
  }

  lemma StepDistinct(ms: seq<Ref>)
    requires Distinct(ms) && ms != []
    ensures Distinct(ms[1..]) && forall j :: 0 <= j < |ms| - 1 ==> ms[1..][j] != ms[0]
  {
  }

  /** The first meter, when it has a container, ends the loop right behind
      the first created handler. */
  lemma GathersFirst(w: World, ms: seq<Ref>)
    requires Allocated(w) && Distinct(ms) && Ready(w, ms)
    requires ms != [] && w.nodes[ms[0]].parent.Some?
    ensures var (r, gs) := InsertEach(w, ms); GatheredBefore(r, gs[0], ms[0])
  {
    var (w1, g) := GatherOne(w, ms[0]);
    GatheredFirst(w, ms[0]);
    GatherOneCreates(w, ms[0]);
    StepReady(w, ms);
    StepDistinct(ms);
    InsertEachKeeps(w1, ms[1..], g, ms[0]);
  }

  /** Putting `g` in at `m`'s own index leaves `m` one place later, right
      behind `g`. */
  lemma PlacedAtOwnIndex(kids: seq<Ref>, now: seq<Ref>, g: Ref, m: Ref)
    requires m in kids && g != m && PlacedAt(now, kids, IndexOf(kids, m), g)
    ensures m in now && IndexOf(now, m) == IndexOf(kids, m) + 1 && now[IndexOf(kids, m)] == g
  {
    var k := IndexOf(kids, m);
    assert now[k + 1] == kids[k];
    forall t | 0 <= t < k + 1 ensures now[t] != m {
      if t < k { assert now[t] == kids[t]; }
    }
  }

  /** A turn puts its handler right before a meter that has a container. */
  lemma GatheredFirst(w: World, m: Ref)
    requires Allocated(w) && Held(w, m) && w.nodes[m].parent.Some?
    ensures var (r, g) := GatherOne(w, m); GatheredBefore(r, g, m)
  {
    var (r, g) := GatherOne(w, m);
    GatherOnePlaces(w, m);
    GatherOneFrame(w, m, m);
    var c := w.nodes[m].parent.value;
    PlacedAtOwnIndex(w.nodes[c].children, r.nodes[c].children, g, m);
  }

  // ---------------------------------------------------------------------
  // The hooks
  // ---------------------------------------------------------------------

  /** The meters below `root`, in pre-order, as `get_by_class(MeterHandler)`
      lists them, with the search's warnings. */
  function Meters(w: World, root: Ref): Search
    requires Acyclic(w, root)
  {
    GetByClass(View(w, root, {}).value, {Meter}, None, w.warnings)
  }

  /** The class search lists each meter below `root` once, and only meters. */
  lemma MetersFound(w: World, root: Ref)
    requires Acyclic(w, root)
    ensures Distinct(Meters(w, root).found)
    ensures forall m :: m in Meters(w, root).found ==> IsMeter(w, m)
    ensures forall m :: m in Meters(w, root).found <==>
      exists l :: l in PreOrder(View(w, root, {}).value) && l.ref == m && IsA(l.kind, Meter)
  {
    var t := View(w, root, {}).value;
    var p := (l: Label) => IsInstance(l.kind, {Meter});
    SearchDistinct(t, p, true, w.warnings);
    ViewLabels(w, root, {});
    forall m ensures m in Meters(w, root).found <==>
      exists l :: l in PreOrder(t) && l.ref == m && IsA(l.kind, Meter)
    {
      if m in Meters(w, root).found {
        var i :| 0 <= i < |PreOrder(t)| && PreOrder(t)[i].ref == m && p(PreOrder(t)[i]);
        assert PreOrder(t)[i] in PreOrder(t);
      }
      if exists l :: l in PreOrder(t) && l.ref == m && IsA(l.kind, Meter) {
        var l :| l in PreOrder(t) && l.ref == m && IsA(l.kind, Meter);
        var i :| 0 <= i < |PreOrder(t)| && PreOrder(t)[i] == l;
        assert p(PreOrder(t)[i]);
      }
    }
  }

  /** The store the gather loop starts from: the search's warnings logged,
      and each meter found held by its container. */
  lemma MetersReady(w: World, root: Ref)
    requires WellLinked(w) && Allocated(w) && Acyclic(w, root)
    ensures var s := Meters(w, root); var w' := w.(warnings := s.warnings);
      && WellLinked(w') && Allocated(w') && Distinct(s.found) && Ready(w', s.found)
  {
    var s := Meters(w, root);
    var w' := w.(warnings := s.warnings);
    MetersFound(w, root);
    forall i | 0 <= i < |s.found| ensures Held(w', s.found[i]) && IsMeter(w', s.found[i]) {
      assert s.found[i] in s.found;
      WellLinkedHeld(w', s.found[i]);
    }
  }

  /** The body of `DistributedLaunch.build_<phase>_yield` after its
      `yield`: search the meters of the freshly built tree, then put a
      gather handler before each. */
  function GatherAll(w: World, root: Ref): (r: World)
    requires WellLinked(w) && Allocated(w) && Acyclic(w, root)
    ensures WellLinked(r) && Allocated(r)
  {
    var s := Meters(w, root);
    MetersReady(w, root);
    InsertEachKeepsLinks(w.(warnings := s.warnings), s.found);
    InsertEach(w.(warnings := s.warnings), s.found).0
  }

  datatype LaunchHook = VanillaLaunch | DistributedLaunch

  /** `launch.after_build_<phase>`: only the distributed hook rewrites, and
      only the train and eval trees (it has no predict override). */
  function AfterBuild(hook: LaunchHook, p: Phase, w: World, root: Ref): (r: World)
    requires WellLinked(w) && Allocated(w) && Acyclic(w, root)
    ensures WellLinked(r) && Allocated(r)
  {
    if hook == DistributedLaunch && p != Predict then GatherAll(w, root) else w
  }

  /** The loop adds exactly one handler per meter. */
  lemma InsertEachCount(w: World, ms: seq<Ref>)
    requires Allocated(w) && forall i :: 0 <= i < |ms| ==> Held(w, ms[i])
    ensures var r := InsertEach(w, ms).0;
      w.nodes.Keys <= r.nodes.Keys && |r.nodes.Keys - w.nodes.Keys| == |ms|
  {
    var (r, gs) := InsertEach(w, ms);
    InsertEachFresh(w, ms);
    assert r.nodes.Keys - w.nodes.Keys == set g | g in gs;
    DistinctCard(gs);
  }

  /** Gathering puts a fresh gather handler right before every meter found
      that sits in a container. */
  lemma GatherAllGathers(w: World, root: Ref, m: Ref)
    requires WellLinked(w) && Allocated(w) && Acyclic(w, root)
    requires m in Meters(w, root).found && m in w.nodes && w.nodes[m].parent.Some?
    ensures var r := GatherAll(w, root);
      exists g :: g in r.nodes && g !in w.nodes && r.nodes[g].kind == GatherAverage
        && r.nodes[g].id == GatherId(w.nodes[m].id) && GatheredBefore(r, g, m)
  {
    var s := Meters(w, root);
    MetersReady(w, root);
    var w' := w.(warnings := s.warnings);
    var (r, gs) := InsertEach(w', s.found);
    assert GatherAll(w, root) == r;
    var i := IndexOf(s.found, m);
    InsertEachGathers(w', s.found, i);
    InsertEachCreates(w', s.found, i);
    InsertEachFresh(w', s.found);
    assert gs[i] in gs;
  }

  /** Every meter of a distributed train or eval tree that sits in a
      container ends up right behind a fresh `GatherAverageHandler` whose id
      is `gather_average_` plus the meter id's last segment. */
  lemma DistributedGathersEveryMeter(p: Phase, w: World, root: Ref, m: Ref)
    requires WellLinked(w) && Allocated(w) && Acyclic(w, root) && p != Predict
    requires m in Meters(w, root).found && m in w.nodes && w.nodes[m].parent.Some?
    ensures var r := AfterBuild(DistributedLaunch, p, w, root);
      exists g :: g in r.nodes && g !in w.nodes && r.nodes[g].kind == GatherAverage
        && r.nodes[g].id == GatherId(w.nodes[m].id) && GatheredBefore(r, g, m)
  {
    assert AfterBuild(DistributedLaunch, p, w, root) == GatherAll(w, root);
    GatherAllGathers(w, root, m);
  }

  /** The distributed hook adds exactly one handler per meter found, and
      leaves the store alone when the tree has no meter. */
  lemma DistributedAddsOnePerMeter(p: Phase, w: World, root: Ref)
    requires WellLinked(w) && Allocated(w) && Acyclic(w, root) && p != Predict
    ensures var r := AfterBuild(DistributedLaunch, p, w, root);
      && w.nodes.Keys <= r.nodes.Keys
      && |r.nodes.Keys - w.nodes.Keys| == |Meters(w, root).found|
      && (Meters(w, root).found == [] ==> r.nodes == w.nodes)
  {
    var s := Meters(w, root);
    MetersReady(w, root);
    var w' := w.(warnings := s.warnings);
    assert AfterBuild(DistributedLaunch, p, w, root) == InsertEach(w', s.found).0;
    InsertEachCount(w', s.found);
  }

  /** `VanillaLaunch` never touches the tree, and neither hook touches the
      predict tree. */
  lemma OnlyDistributedRewrites(hook: LaunchHook, p: Phase, w: World, root: Ref)
    requires WellLinked(w) && Allocated(w) && Acyclic(w, root)
    requires hook == VanillaLaunch || p == Predict
    ensures AfterBuild(hook, p, w, root) == w
  {
  }
}
