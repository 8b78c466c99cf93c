/** Build-time construction of the three pipelines in
    `torchslime/core/hooks/build.py`: a nested constructor expression becomes
    a `Blueprint`, evaluating it allocates the handlers bottom-up through the
    handler constructors, and `BuildHook._build_*` fixes the order of the
    seven hook calls around it. */
module Build {
  import opened Base
  import opened Handlers
  import opened Tree

  /** A handler constructor call `Kind([parts...], _id=id)`; a plain
      handler has no parts. */
  datatype Blueprint = Make(kind: Kind, id: string, parts: seq<Blueprint>)

  /** Only container classes take a handler list. */
  predicate WellFormed(bp: Blueprint)
    decreases bp
  {
    && (!IsContainerKind(bp.kind) ==> bp.parts == [])
    && forall i :: 0 <= i < |bp.parts| ==> WellFormed(bp.parts[i])
  }

  predicate AllWellFormed(bps: seq<Blueprint>) {
    forall i :: 0 <= i < |bps| ==> WellFormed(bps[i])
  }

  /** The number of handler objects a constructor expression creates. */
  function Size(bp: Blueprint): nat
    decreases bp
  {
    1 + SizeAll(bp.parts)
  }

  function SizeAll(bps: seq<Blueprint>): nat
    decreases bps
  {
    if bps == [] then 0 else Size(bps[0]) + SizeAll(bps[1..])
  }

  /** The ids of a tree in pre-order. */
  function Ids(bp: Blueprint): seq<string>
    decreases bp
  {
    [bp.id] + IdsAll(bp.parts)
  }

  function IdsAll(bps: seq<Blueprint>): seq<string>
    decreases bps
  {
    if bps == [] then [] else Ids(bps[0]) + IdsAll(bps[1..])
  }

  lemma {:induction false} IdsAllAppend(a: seq<Blueprint>, b: seq<Blueprint>)
    ensures IdsAll(a + b) == IdsAll(a) + IdsAll(b)
    decreases a
  {
    if a == [] {
      assert a + b == b;
    } else {
      assert (a + b)[0] == a[0] && (a + b)[1..] == a[1..] + b;
      IdsAllAppend(a[1..], b);
    }
  }

  /** The classes of a tree in pre-order. */
  function Kinds(bp: Blueprint): seq<Kind>
    decreases bp
  {
    [bp.kind] + KindsAll(bp.parts)
  }

  function KindsAll(bps: seq<Blueprint>): seq<Kind>
    decreases bps
  {
    if bps == [] then [] else Kinds(bps[0]) + KindsAll(bps[1..])
  }

  lemma {:induction false} KindsAllAppend(a: seq<Blueprint>, b: seq<Blueprint>)
    ensures KindsAll(a + b) == KindsAll(a) + KindsAll(b)
    decreases a
  {
    if a == [] {
      assert a + b == b;
    } else {
      assert (a + b)[0] == a[0] && (a + b)[1..] == a[1..] + b;
      KindsAllAppend(a[1..], b);
    }
  }

  lemma KindsAllSnoc(a: seq<Blueprint>, x: Blueprint)
    ensures KindsAll(a + [x]) == KindsAll(a) + Kinds(x)
  {
    KindsAllAppend(a, [x]);
    assert KindsAll([x]) == Kinds(x);
  }

  // ---------------------------------------------------------------------
  // Evaluating a constructor expression
  // ---------------------------------------------------------------------

  /** `w'` is `w` plus newly allocated handlers; nothing that existed
      changes and nothing is logged. */
  ghost predicate Grows(w: World, w': World) {
    && Allocated(w') && w.next <= w'.next
    && (forall x :: x in w'.nodes <==> x in w.nodes || w.next <= x < w'.next)
    && (forall x :: x in w.nodes ==> w'.nodes[x] == w.nodes[x])
    && w'.warnings == w.warnings && w'.idGen == w.idGen
  }

  /** Every reference wrapped as a present constructor argument. */
  function Somes(rs: seq<Ref>): (r: seq<Option<Ref>>)
    ensures |r| == |rs|
    ensures forall x :: Some(x) in r <==> x in rs
    ensures Present(r) == rs
  {
    if rs == [] then [] else [Some(rs[0])] + Somes(rs[1..])
  }

  /** Python evaluates the argument list first, so the children are created
      (left to right, each with its own subtree) before their container. */
  function Instantiate(w: World, bp: Blueprint): (r: (World, Ref))
    requires Allocated(w) && WellFormed(bp)
    ensures Grows(w, r.0) && r.0.next == w.next + Size(bp)
    ensures w.next <= r.1 && r.1 + 1 == r.0.next
    ensures r.0.nodes[r.1].kind == bp.kind && r.0.nodes[r.1].id == bp.id
    ensures r.0.nodes[r.1].parent.None?
    decreases bp
  {
    if IsContainerKind(bp.kind) then
      var (w1, kids) := InstantiateAll(w, bp.parts);
      NewContainer(w1, bp.kind, Some(bp.id), Somes(kids))
    else
      NewHandler(w, bp.kind, Some(bp.id))
  }

  /** The handler list of one constructor call: fresh, unparented handlers
      in argument order, allocated at increasing identities. */
  function InstantiateAll(w: World, bps: seq<Blueprint>): (r: (World, seq<Ref>))
    requires Allocated(w) && AllWellFormed(bps)
    ensures Grows(w, r.0) && r.0.next == w.next + SizeAll(bps)
    ensures |r.1| == |bps| && Distinct(r.1)
    ensures forall x :: x in r.1 ==> w.next <= x < r.0.next && r.0.nodes[x].parent.None?
    decreases bps
  {
    if bps == [] then (w, [])
    else
      var (w1, k) := Instantiate(w, bps[0]);
      var (w2, ks) := InstantiateAll(w1, bps[1..]);
      DistinctConcat([k], ks);
      (w2, [k] + ks)
  }

  /** Evaluation keeps the parent-link invariant. */
  lemma {:induction false} InstantiateKeepsLinks(w: World, bp: Blueprint)
    requires Allocated(w) && WellFormed(bp) && WellLinked(w)
    ensures WellLinked(Instantiate(w, bp).0)
    decreases bp
  {
    if IsContainerKind(bp.kind) {
      var (w1, kids) := InstantiateAll(w, bp.parts);
      InstantiateAllKeepsLinks(w, bp.parts);
      NewContainerKeepsLinks(w1, bp.kind, Some(bp.id), Somes(kids));
    } else {
      NewHandlerKeepsLinks(w, bp.kind, Some(bp.id));
    }
  }

  lemma {:induction false} InstantiateAllKeepsLinks(w: World, bps: seq<Blueprint>)
    requires Allocated(w) && AllWellFormed(bps) && WellLinked(w)
    ensures WellLinked(InstantiateAll(w, bps).0)
    decreases bps
  {
    if bps != [] {
      var (w1, k) := Instantiate(w, bps[0]);
      InstantiateKeepsLinks(w, bps[0]);
      InstantiateAllKeepsLinks(w1, bps[1..]);
    }
  }

  // ---------------------------------------------------------------------
  // Reading the built tree back
  // ---------------------------------------------------------------------

  /** The constructor expression a tree view spells. */
  function Grown(t: HTree): Blueprint
    decreases t
  {
    Make(t.info.kind, t.info.id, GrownAll(t.children))
  }

  function GrownAll(ts: seq<HTree>): (bps: seq<Blueprint>)
    ensures |bps| == |ts|
    decreases ts
  {
    if ts == [] then [] else [Grown(ts[0])] + GrownAll(ts[1..])
  }

  /** `root` is a handler of `w` that spells `bp`: its class and id are as
      written and its children, each allocated before it, spell the parts. */
  ghost predicate Spells(w: World, root: Ref, bp: Blueprint)
    decreases bp
  {
    && root in w.nodes
    && w.nodes[root].kind == bp.kind && w.nodes[root].id == bp.id
    && |w.nodes[root].children| == |bp.parts|
    && forall i :: 0 <= i < |bp.parts| ==>
         w.nodes[root].children[i] < root && Spells(w, w.nodes[root].children[i], bp.parts[i])
  }

  /** Spelling only reads classes, ids and children. */
  lemma {:induction false} SpellsExtend(w1: World, w2: World, root: Ref, bp: Blueprint)
    requires Extends(w1, w2) && Spells(w1, root, bp)
    ensures Spells(w2, root, bp)
    decreases bp
  {
    forall i | 0 <= i < |bp.parts|
      ensures Spells(w2, w1.nodes[root].children[i], bp.parts[i])
    {
      SpellsExtend(w1, w2, w1.nodes[root].children[i], bp.parts[i]);
    }
  }

  lemma GrowsExtends(w: World, w': World)
    requires Grows(w, w')
    ensures Extends(w, w')
  {
  }

  /** The container constructor only re-points its children's parents. */
  lemma NewContainerExtends(w1: World, kind: Kind, id: string, kids: seq<Ref>)
    requires Allocated(w1) && IsContainerKind(kind)
    requires forall x :: x in kids ==> x in w1.nodes
    ensures Extends(w1, NewContainer(w1, kind, Some(id), Somes(kids)).0)
  {
    var w' := NewContainer(w1, kind, Some(id), Somes(kids)).0;
    forall x | x in w1.nodes
      ensures x in w'.nodes && w'.nodes[x].kind == w1.nodes[x].kind
      ensures w'.nodes[x].id == w1.nodes[x].id && w'.nodes[x].children == w1.nodes[x].children
    {
      assert Some(x) in Somes(kids) || Some(x) !in Somes(kids);
    }
  }

  /** Evaluating a constructor expression yields a root that spells it. */
  lemma {:induction false} InstantiateSpells(w: World, bp: Blueprint)
    requires Allocated(w) && WellFormed(bp)
    ensures Spells(Instantiate(w, bp).0, Instantiate(w, bp).1, bp)
    decreases bp
  {
    if IsContainerKind(bp.kind) {
      var built := InstantiateAll(w, bp.parts);
      InstantiateAllSpells(w, bp.parts);
      NewContainerExtends(built.0, bp.kind, bp.id, built.1);
      var r := NewContainer(built.0, bp.kind, Some(bp.id), Somes(built.1));
      forall i | 0 <= i < |bp.parts|
        ensures Spells(r.0, built.1[i], bp.parts[i])
      {
        SpellsExtend(built.0, r.0, built.1[i], bp.parts[i]);
      }
    }
  }

  lemma {:induction false} InstantiateAllSpells(w: World, bps: seq<Blueprint>)
    requires Allocated(w) && AllWellFormed(bps)
    ensures forall i :: 0 <= i < |bps| ==> Spells(InstantiateAll(w, bps).0, InstantiateAll(w, bps).1[i], bps[i])
    decreases bps
  {
    if bps != [] {
      var first := Instantiate(w, bps[0]);
      var rest := InstantiateAll(first.0, bps[1..]);
      assert InstantiateAll(w, bps) == (rest.0, [first.1] + rest.1);
      InstantiateSpells(w, bps[0]);
      InstantiateAllSpells(first.0, bps[1..]);
      GrowsExtends(first.0, rest.0);
      SpellsExtend(first.0, rest.0, first.1, bps[0]);
    }
  }

  /** A spelled root views as a finite tree that reads the expression back,
      from any position below its ancestors. */
  lemma {:induction false} SpellsReadsBack(w: World, root: Ref, bp: Blueprint, above: set<Ref>)
    requires Spells(w, root, bp)
    requires forall x :: x in above ==> root < x
    ensures View(w, root, above).Some? && Grown(View(w, root, above).value) == bp
    decreases bp, 1
  {
    SpellsReadsBackAll(w, w.nodes[root].children, bp.parts, above + {root}, root);
  }

  lemma {:induction false} SpellsReadsBackAll(w: World, rs: seq<Ref>, bps: seq<Blueprint>, above: set<Ref>, bound: Ref)
    requires |rs| == |bps|
    requires forall i :: 0 <= i < |rs| ==> rs[i] < bound && Spells(w, rs[i], bps[i])
    requires forall x :: x in above ==> bound <= x
    ensures ViewAll(w, rs, above).Some? && GrownAll(ViewAll(w, rs, above).value) == bps
    decreases bps, 0
  {
    if rs != [] {
      SpellsReadsBack(w, rs[0], bps[0], above);
      SpellsReadsBackAll(w, rs[1..], bps[1..], above, bound);
      var t := View(w, rs[0], above).value;
      var ts := ViewAll(w, rs[1..], above).value;
      assert ([t] + ts)[0] == t && ([t] + ts)[1..] == ts;
      assert bps == [bps[0]] + bps[1..];
    }
  }

  /** The built handlers form a finite tree that spells the constructor
      expression back: classes, ids and child order are as written. */
  lemma InstantiateReadsBack(w: World, bp: Blueprint)
    requires Allocated(w) && WellFormed(bp)
    ensures View(Instantiate(w, bp).0, Instantiate(w, bp).1, {}).Some?
    ensures Grown(View(Instantiate(w, bp).0, Instantiate(w, bp).1, {}).value) == bp
  {
    InstantiateSpells(w, bp);
    SpellsReadsBack(Instantiate(w, bp).0, Instantiate(w, bp).1, bp, {});
  }

  /** A built tree is finite from its root. */
  lemma InstantiateAcyclic(w: World, bp: Blueprint)
    requires Allocated(w) && WellFormed(bp)
    ensures Acyclic(Instantiate(w, bp).0, Instantiate(w, bp).1)
  {
    InstantiateReadsBack(w, bp);
  }

  // ---------------------------------------------------------------------
  // Searching a built tree
  // ---------------------------------------------------------------------

  /** The pre-order labels of a view carry the classes and ids of the
      pre-order of the expression it spells. */
  predicate Mirrors(ls: seq<Label>, ids: seq<string>, kinds: seq<Kind>) {
    && |ls| == |ids| == |kinds|
    && forall i :: 0 <= i < |ls| ==> ls[i].id == ids[i] && ls[i].kind == kinds[i]
  }

  lemma MirrorsConcat(a: seq<Label>, ia: seq<string>, ka: seq<Kind>, b: seq<Label>, ib: seq<string>, kb: seq<Kind>)
    requires Mirrors(a, ia, ka) && Mirrors(b, ib, kb)
    ensures Mirrors(a + b, ia + ib, ka + kb)
  {
  }

  lemma {:induction false} PreOrderMirrors(t: HTree)
    ensures Mirrors(PreOrder(t), Ids(Grown(t)), Kinds(Grown(t)))
    decreases t
  {
    PreOrderAllMirrors(t.children);
    MirrorsConcat([t.info], [t.info.id], [t.info.kind],
      PreOrderAll(t.children), IdsAll(GrownAll(t.children)), KindsAll(GrownAll(t.children)));
  }

  lemma {:induction false} PreOrderAllMirrors(ts: seq<HTree>)
    ensures Mirrors(PreOrderAll(ts), IdsAll(GrownAll(ts)), KindsAll(GrownAll(ts)))
    decreases ts
  {
    if ts != [] {
      PreOrderMirrors(ts[0]);
      PreOrderAllMirrors(ts[1..]);
      assert GrownAll(ts)[0] == Grown(ts[0]) && GrownAll(ts)[1..] == GrownAll(ts[1..]);
      MirrorsConcat(PreOrder(ts[0]), Ids(Grown(ts[0])), Kinds(Grown(ts[0])),
        PreOrderAll(ts[1..]), IdsAll(GrownAll(ts[1..])), KindsAll(GrownAll(ts[1..])));
    }
  }

  /** With pairwise distinct ids a label list has at most one match per id. */
  lemma {:induction false} UniqueIdMatches(ls: seq<Label>, id: string)
    requires forall i, j :: 0 <= i < j < |ls| ==> ls[i].id != ls[j].id
    ensures |Matches(ls, (l: Label) => IdIs(id, l))| <= 1
    ensures Matches(ls, (l: Label) => IdIs(id, l)) != [] <==> exists i :: 0 <= i < |ls| && ls[i].id == id
  {
    if ls != [] {
      UniqueIdMatches(ls[1..], id);
      if ls[0].id == id {
        assert forall i :: 0 <= i < |ls[1..]| ==> ls[1..][i].id != id by {
          assert forall i :: 1 <= i < |ls| ==> ls[i].id != ls[0].id;
        }
      }
      if ls[0].id != id && exists i :: 0 <= i < |ls| && ls[i].id == id {
        var i :| 0 <= i < |ls| && ls[i].id == id;
        assert ls[1..][i - 1].id == id;
      }
    }
  }

  /** `get_by_id` on a tree whose ids are pairwise distinct answers a
      handler exactly for the ids the tree carries and never logs the
      multiple-match warning. */
  lemma UniqueIdSearch(t: HTree, id: string, warnings: seq<Warning>)
    requires Distinct(Ids(Grown(t)))
    ensures var found := GetById(t, id, None, warnings);
      && (found.0.Some? <==> id in Ids(Grown(t)))
      && CountMultiple(found.1.warnings) == CountMultiple(warnings)
  {
    PreOrderMirrors(t);
    var ls := PreOrder(t);
    var ids := Ids(Grown(t));
    assert forall i :: 0 <= i < |ls| ==> ls[i].id == ids[i];
    UniqueIdMatches(ls, id);
    var p := (l: Label) => IdIs(id, l);
    CollectIsPreOrder(t, p, false, Search([], warnings));
    GetByIdFirst(t, id, warnings);
    GetByIdWarnsOnce(t, id, warnings);
    if id in ids {
      var i :| 0 <= i < |ids| && ids[i] == id;
      assert ls[i].id == id;
    }
  }

  /** In a freshly built tree whose ids are pairwise distinct, `get_by_id`
      answers a handler exactly for the ids the expression names and never
      logs the multiple-match warning. */
  lemma BuiltIdSearch(w: World, bp: Blueprint, id: string, warnings: seq<Warning>)
    requires Allocated(w) && WellFormed(bp) && Distinct(Ids(bp))
    ensures var built := Instantiate(w, bp);
      View(built.0, built.1, {}).Some? &&
      var found := GetById(View(built.0, built.1, {}).value, id, None, warnings);
      && (found.0.Some? <==> id in Ids(bp))
      && CountMultiple(found.1.warnings) == CountMultiple(warnings)
  {
    var built := Instantiate(w, bp);
    InstantiateReadsBack(w, bp);
    UniqueIdSearch(View(built.0, built.1, {}).value, id, warnings);
  }

  // ---------------------------------------------------------------------
  // The vanilla pipelines
  // ---------------------------------------------------------------------

  function Leaf(k: Kind, id: string): Blueprint {
    Make(k, id, [])
  }

  /** The training pass of the epoch loop. */
  const TrainPass: Blueprint :=
    Make(Iteration, "train_iteration_train", [
      Leaf(Forward, "train_forward_train"),
      Leaf(Loss, "train_loss_train"),
      Make(Optimizer, "train_optimizer", [Leaf(Backward, "train_backward")]),
      Leaf(Metrics, "train_metrics_train"),
      Leaf(Average, "train_average_train"),
      Leaf(Display, "train_display_train")
    ])

  /** The validation pass of the epoch loop. */
  const ValPass: Blueprint :=
    Make(Iteration, "train_iteration_val", [
      Leaf(Forward, "train_forward_val"),
      Leaf(Loss, "train_loss_val"),
      Leaf(Metrics, "train_metrics_val"),
      Leaf(Average, "train_average_val"),
      Leaf(Display, "train_display_val")
    ])

  /** Status, dataset and average setup before the training pass. */
  const TrainSetup: seq<Blueprint> := [
    Leaf(State, "train_status_train"),
    Leaf(Dataset, "train_dataset_train"),
    Leaf(AverageInit, "train_average_init_train")
  ]

  /** Learning-rate decay, then the setup of the validation pass. */
  const ValSetup: seq<Blueprint> := [
    Leaf(LRDecay, "train_lr_decay"),
    Leaf(State, "train_status_val"),
    Leaf(Dataset, "train_dataset_val"),
    Leaf(AverageInit, "train_average_init_val")
  ]

  const EpochLoop: Blueprint :=
    Make(EpochIteration, "train_epoch_iteration", TrainSetup + [TrainPass] + ValSetup + [ValPass])

  /** `VanillaBuild.build_train`: an epoch loop running a train pass and a
      validation pass. */
  const TrainTree: Blueprint := Make(Container, "train_container", [EpochLoop])

  /** Status, dataset and average setup of the eval pipeline. */
  const EvalSetup: seq<Blueprint> := [
    Leaf(State, "eval_status"),
    Leaf(Dataset, "eval_dataset"),
    Leaf(AverageInit, "eval_average_init")
  ]

  const EvalPass: Blueprint :=
    Make(Iteration, "eval_iteration", [
      Leaf(Forward, "eval_forward"),
      Leaf(Loss, "eval_loss"),
      Leaf(Metrics, "eval_metrics"),
      Leaf(Average, "eval_average"),
      Leaf(Display, "eval_display")
    ])

  /** `VanillaBuild.build_eval`. */
  const EvalTree: Blueprint := Make(Container, "eval_container", EvalSetup + [EvalPass])

  /** Status and dataset setup of the predict pipeline. */
  const PredictSetup: seq<Blueprint> := [
    Leaf(State, "predict_status"),
    Leaf(Dataset, "predict_dataset")
  ]

  const PredictPass: Blueprint :=
    Make(Iteration, "predict_iteration", [
      Leaf(Forward, "predict_forward"),
      Leaf(Display, "predict_display")
    ])

  /** `VanillaBuild.build_predict`. */
  const PredictTree: Blueprint := Make(Container, "predict_container", PredictSetup + [PredictPass])

  const TrainPassIdList: seq<string> := [
    "train_iteration_train", "train_forward_train", "train_loss_train",
    "train_optimizer", "train_backward", "train_metrics_train",
    "train_average_train", "train_display_train"]

  const ValPassIdList: seq<string> := [
    "train_iteration_val", "train_forward_val", "train_loss_val",
    "train_metrics_val", "train_average_val", "train_display_val"]

  const TrainSetupIdList: seq<string> := ["train_status_train", "train_dataset_train", "train_average_init_train"]

  const ValSetupIdList: seq<string> := ["train_lr_decay", "train_status_val", "train_dataset_val", "train_average_init_val"]

  lemma TrainPassIds()
    ensures Ids(TrainPass) == TrainPassIdList
  {
  }

  lemma ValPassIds()
    ensures Ids(ValPass) == ValPassIdList
  {
  }

  lemma SetupIds()
    ensures IdsAll(TrainSetup) == TrainSetupIdList
    ensures IdsAll(ValSetup) == ValSetupIdList
  {
  }

  lemma IdsAllSnoc(a: seq<Blueprint>, x: Blueprint)
    ensures IdsAll(a + [x]) == IdsAll(a) + Ids(x)
  {
    IdsAllAppend(a, [x]);
    assert IdsAll([x]) == Ids(x);
  }

  lemma EpochIds()
    ensures Ids(EpochLoop) ==
      ["train_epoch_iteration"] + IdsAll(TrainSetup) + Ids(TrainPass) + IdsAll(ValSetup) + Ids(ValPass)
  {
    IdsFourParts(EpochIteration, "train_epoch_iteration", TrainSetup, TrainPass, ValSetup, ValPass);
  }

  /** The ids of a container with parts `a + [x] + b + [y]`: the container,
      then `a`, `x`, `b` and `y` in turn. */
  lemma {:induction false} IdsFourParts(k: Kind, id: string, a: seq<Blueprint>, x: Blueprint, b: seq<Blueprint>, y: Blueprint)
    ensures Ids(Make(k, id, a + [x] + b + [y])) == [id] + IdsAll(a) + Ids(x) + IdsAll(b) + Ids(y)
  {
    IdsAllSnoc(a, x);
    IdsAllAppend(a + [x], b);
    IdsAllSnoc(a + [x] + b, y);
  }

  /** The ids of the epoch loop in pre-order. */
  const EpochIdList: seq<string> :=
    ["train_epoch_iteration"] + TrainSetupIdList + TrainPassIdList + ValSetupIdList + ValPassIdList

  const TrainIdList: seq<string> := ["train_container"] + EpochIdList

  lemma EpochIdsLiteral()
    ensures Ids(EpochLoop) == EpochIdList
  {
    EpochIds();
    SetupIds();
    TrainPassIds();
    ValPassIds();
  }

  lemma TrainIds()
    ensures Ids(TrainTree) == TrainIdList
  {
    EpochIdsLiteral();
    assert IdsAll([EpochLoop]) == Ids(EpochLoop);
  }

  lemma TrainIdListDistinct()
    ensures Distinct(TrainIdList)
  {
    EpochIdListDistinct();
    DistinctConcat(["train_container"], EpochIdList);
  }

  lemma EpochIdListDistinct()
    ensures Distinct(EpochIdList)
  {
  }

  /** The train pipeline carries no id twice. */
  lemma TrainIdsDistinct()
    ensures Distinct(Ids(TrainTree))
  {
    TrainIds();
    TrainIdListDistinct();
  }

  lemma EvalIds()
    ensures Ids(EvalTree) == [
      "eval_container", "eval_status", "eval_dataset", "eval_average_init",
      "eval_iteration", "eval_forward", "eval_loss", "eval_metrics",
      "eval_average", "eval_display"]
  {
    IdsAllSnoc(EvalSetup, EvalPass);
    EvalPartIds();
  }

  lemma EvalPartIds()
    ensures IdsAll(EvalSetup) == ["eval_status", "eval_dataset", "eval_average_init"]
    ensures Ids(EvalPass) == [
      "eval_iteration", "eval_forward", "eval_loss", "eval_metrics",
      "eval_average", "eval_display"]
  {
  }

  /** The eval pipeline carries no id twice. */
  lemma EvalIdsDistinct()
    ensures Distinct(Ids(EvalTree))
  {
    EvalIds();
  }

  lemma PredictIds()
    ensures Ids(PredictTree) == [
      "predict_container", "predict_status", "predict_dataset",
      "predict_iteration", "predict_forward", "predict_display"]
  {
    IdsAllSnoc(PredictSetup, PredictPass);
    PredictPartIds();
  }

  lemma PredictPartIds()
    ensures IdsAll(PredictSetup) == ["predict_status", "predict_dataset"]
    ensures Ids(PredictPass) == ["predict_iteration", "predict_forward", "predict_display"]
  {
  }

  /** The predict pipeline carries no id twice. */
  lemma PredictIdsDistinct()
    ensures Distinct(Ids(PredictTree))
  {
    PredictIds();
  }

  lemma PassesWellFormed()
    ensures WellFormed(TrainPass) && WellFormed(ValPass)
  {
  }

  /** Each of the three pipelines is a valid constructor expression: only
      container classes are given handler lists. */
  lemma TrainTreeWellFormed()
    ensures WellFormed(TrainTree)
  {
    PassesWellFormed();
    assert WellFormed(EpochLoop);
  }

  lemma EvalTreeWellFormed()
    ensures WellFormed(EvalTree)
  {
  }

  lemma PredictTreeWellFormed()
    ensures WellFormed(PredictTree)
  {
  }

  // ---------------------------------------------------------------------
  // Which classes each pipeline holds
  // ---------------------------------------------------------------------

  /** The ids of the handlers that are instances of class `cls`, in
      pre-order: the order `get_by_class(cls)` lists them in. */
  function IdsOf(bp: Blueprint, cls: Kind): seq<string>
    decreases bp
  {
    (if IsA(bp.kind, cls) then [bp.id] else []) + IdsOfAll(bp.parts, cls)
  }

  function IdsOfAll(bps: seq<Blueprint>, cls: Kind): seq<string>
    decreases bps
  {
    if bps == [] then [] else IdsOf(bps[0], cls) + IdsOfAll(bps[1..], cls)
  }

  /** A class search over an expression's handlers finds something exactly
      when one of the classes it spells is an instance of `cls`, and it
      only finds ids the expression names. */
  lemma {:induction false} IdsOfKinds(bp: Blueprint, cls: Kind)
    ensures IdsOf(bp, cls) == [] <==> forall k :: k in Kinds(bp) ==> !IsA(k, cls)
    ensures forall x :: x in IdsOf(bp, cls) ==> x in Ids(bp)
    decreases bp
  {
    IdsOfAllKinds(bp.parts, cls);
  }

  lemma {:induction false} IdsOfAllKinds(bps: seq<Blueprint>, cls: Kind)
    ensures IdsOfAll(bps, cls) == [] <==> forall k :: k in KindsAll(bps) ==> !IsA(k, cls)
    ensures forall x :: x in IdsOfAll(bps, cls) ==> x in IdsAll(bps)
    decreases bps
  {
    if bps != [] {
      IdsOfKinds(bps[0], cls);
      IdsOfAllKinds(bps[1..], cls);
    }
  }

  lemma TrainPassKinds()
    ensures Kinds(TrainPass) == [Iteration, Forward, Loss, Optimizer, Backward, Metrics, Average, Display]
  {
  }

  lemma ValPassKinds()
    ensures Kinds(ValPass) == [Iteration, Forward, Loss, Metrics, Average, Display]
  {
  }

  lemma EvalKinds()
    ensures Kinds(EvalTree) ==
      [Container, State, Dataset, AverageInit, Iteration, Forward, Loss, Metrics, Average, Display]
  {
    KindsAllSnoc(EvalSetup, EvalPass);
    EvalPartKinds();
  }

  lemma EvalPartKinds()
    ensures KindsAll(EvalSetup) == [State, Dataset, AverageInit]
    ensures Kinds(EvalPass) == [Iteration, Forward, Loss, Metrics, Average, Display]
  {
  }

  lemma PredictKinds()
    ensures Kinds(PredictTree) == [Container, State, Dataset, Iteration, Forward, Display]
  {
    KindsAllSnoc(PredictSetup, PredictPass);
    PredictPartKinds();
  }

  lemma PredictPartKinds()
    ensures KindsAll(PredictSetup) == [State, Dataset]
    ensures Kinds(PredictPass) == [Iteration, Forward, Display]
  {
  }

  /** Only the training pass steps an optimizer ... */
  lemma OptimizerInTrainPass()
    ensures Optimizer in Kinds(TrainPass) && Backward in Kinds(TrainPass)
  {
    TrainPassKinds();
  }

  /** ... the validation pass has no `Optimizer` (and so no `Backward`) ... */
  lemma NoOptimizerInValPass()
    ensures Optimizer !in Kinds(ValPass) && Backward !in Kinds(ValPass)
  {
    ValPassKinds();
  }

  /** ... and neither have the eval and predict pipelines. */
  lemma NoOptimizerInEval()
    ensures Optimizer !in Kinds(EvalTree) && Backward !in Kinds(EvalTree)
  {
    EvalKinds();
  }

  lemma NoOptimizerInPredict()
    ensures Optimizer !in Kinds(PredictTree) && Backward !in Kinds(PredictTree)
  {
    PredictKinds();
  }

  /** Prediction computes no loss, metrics or averages. */
  lemma PredictHasNoMeasures()
    ensures forall k :: k in Kinds(PredictTree) ==> k !in {Loss, Metrics, AverageInit, Average, Meter}
  {
    PredictKinds();
  }

  /** The eval pipeline's only meter is its averaging stage. */
  lemma EvalMeters()
    ensures IdsOf(EvalTree, Meter) == ["eval_average"]
  {
    IdsOfTwoParts(Container, "eval_container", EvalSetup, EvalPass, Meter);
    EvalPassMeters();
  }

  lemma EvalPassMeters()
    ensures IdsOf(EvalPass, Meter) == ["eval_average"]
    ensures IdsOfAll(EvalSetup, Meter) == []
  {
  }

  lemma {:induction false} IdsOfTwoParts(k: Kind, id: string, a: seq<Blueprint>, x: Blueprint, c: Kind)
    ensures IdsOf(Make(k, id, a + [x]), c) == (if IsA(k, c) then [id] else []) + (IdsOfAll(a, c) + IdsOf(x, c))
  {
    IdsOfAllAppend(a, [x], c);
    IdsOfAllOne(x, c);
  }

  lemma TrainPassMeters()
    ensures IdsOf(TrainPass, Meter) == ["train_average_train"]
  {
  }

  lemma ValPassMeters()
    ensures IdsOf(ValPass, Meter) == ["train_average_val"]
  {
  }

  lemma SetupMeters()
    ensures IdsOfAll(TrainSetup, Meter) == [] && IdsOfAll(ValSetup, Meter) == []
  {
  }

  lemma {:induction false} IdsOfAllAppend(a: seq<Blueprint>, b: seq<Blueprint>, cls: Kind)
    ensures IdsOfAll(a + b, cls) == IdsOfAll(a, cls) + IdsOfAll(b, cls)
    decreases a
  {
    if a == [] {
      assert a + b == b;
    } else {
      assert (a + b)[0] == a[0] && (a + b)[1..] == a[1..] + b;
      IdsOfAllAppend(a[1..], b, cls);
    }
  }

  /** The class search over a container with parts `a + [x] + b + [y]`
      visits the container, then `a`, `x`, `b` and `y` in turn. */
  lemma {:induction false} IdsOfFourParts(k: Kind, id: string, a: seq<Blueprint>, x: Blueprint, b: seq<Blueprint>, y: Blueprint, c: Kind)
    ensures IdsOf(Make(k, id, a + [x] + b + [y]), c) ==
      (if IsA(k, c) then [id] else []) + (((IdsOfAll(a, c) + IdsOf(x, c)) + IdsOfAll(b, c)) + IdsOf(y, c))
  {
    IdsOfAllAppend(a, [x], c);
    IdsOfAllAppend(a + [x], b, c);
    IdsOfAllAppend(a + [x] + b, [y], c);
    IdsOfAllOne(x, c);
    IdsOfAllOne(y, c);
  }

  /** The class search over the epoch loop visits its four stages in turn. */
  lemma EpochMeterParts()
    ensures IdsOf(EpochLoop, Meter) ==
      IdsOfAll(TrainSetup, Meter) + IdsOf(TrainPass, Meter) + IdsOfAll(ValSetup, Meter) + IdsOf(ValPass, Meter)
  {
    IdsOfFourParts(EpochIteration, "train_epoch_iteration", TrainSetup, TrainPass, ValSetup, ValPass, Meter);
  }

  lemma JoinAroundEmpty<T>(a: seq<T>, x: T, b: seq<T>, y: T)
    requires a == [] && b == []
    ensures a + [x] + b + [y] == [x, y]
  {
  }

  lemma EpochMeters()
    ensures IdsOf(EpochLoop, Meter) == ["train_average_train", "train_average_val"]
  {
    EpochMeterParts();
    TrainPassMeters();
    ValPassMeters();
    SetupMeters();
    JoinAroundEmpty(IdsOfAll(TrainSetup, Meter), "train_average_train", IdsOfAll(ValSetup, Meter), "train_average_val");
  }

  lemma IdsOfAllOne(bp: Blueprint, cls: Kind)
    ensures IdsOfAll([bp], cls) == IdsOf(bp, cls)
  {
    assert [bp][1..] == [];
  }

  /** The train pipeline's meters are its two averaging stages, train pass
      first. */
  lemma TrainMeters()
    ensures IdsOf(TrainTree, Meter) == ["train_average_train", "train_average_val"]
  {
    EpochMeters();
    IdsOfAllOne(EpochLoop, Meter);
  }

  // ---------------------------------------------------------------------
  // The hook call order of `BuildHook._build_*`
  // ---------------------------------------------------------------------

  datatype Phase = Train | Eval | Predict

  /** The hook entry points `_build_<phase>` calls: the plugin container's,
      the build hook's and the launch hook's. */
  datatype Step =
    | PluginsBeforeBuild
    | PluginsBeforeBuildPhase(phase: Phase)
    | BuildPhase(phase: Phase)
    | BuildAfterBuildPhase(phase: Phase)
    | LaunchAfterBuildPhase(phase: Phase)
    | PluginsAfterBuild
    | PluginsAfterBuildPhase(phase: Phase)

  /** The seven calls of `_build_<phase>`, in order. */
  function BuildSteps(p: Phase): seq<Step> {
    [ PluginsBeforeBuild, PluginsBeforeBuildPhase(p), BuildPhase(p), BuildAfterBuildPhase(p),
      LaunchAfterBuildPhase(p), PluginsAfterBuild, PluginsAfterBuildPhase(p) ]
  }

  /** Which hook a step calls into. */
  datatype HookSlot = Plugins | BuildSlot | LaunchSlot

  function SlotOf(s: Step): HookSlot {
    match s
    case PluginsBeforeBuild => Plugins
    case PluginsBeforeBuildPhase(_) => Plugins
    case BuildPhase(_) => BuildSlot
    case BuildAfterBuildPhase(_) => BuildSlot
    case LaunchAfterBuildPhase(_) => LaunchSlot
    case PluginsAfterBuild => Plugins
    case PluginsAfterBuildPhase(_) => Plugins
  }

  /** The phase a step is specific to, if any. */
  function PhaseOf(s: Step): Option<Phase> {
    match s
    case PluginsBeforeBuild => None
    case PluginsAfterBuild => None
    case PluginsBeforeBuildPhase(p) => Some(p)
    case BuildPhase(p) => Some(p)
    case BuildAfterBuildPhase(p) => Some(p)
    case LaunchAfterBuildPhase(p) => Some(p)
    case PluginsAfterBuildPhase(p) => Some(p)
  }

  /** `a` is called before `b`. */
  predicate CalledBefore(steps: seq<Step>, a: Step, b: Step) {
    exists i, j :: 0 <= i < j < |steps| && steps[i] == a && steps[j] == b
  }

  /** Facts read off the seven calls as listed: every hook entry point is
      called exactly once and only for the phase being built; the plugins'
      two before-build calls come first and their two after-build calls
      last, with the build and launch hooks in between; and train, eval and
      predict call the same hook at each position, differing only in the
      phase. */
  lemma BuildStepsShape(p: Phase, q: Phase)
    ensures Distinct(BuildSteps(p))
    ensures forall i :: 0 <= i < 7 ==> PhaseOf(BuildSteps(p)[i]) in {None, Some(p)}
    ensures forall i :: 0 <= i < 7 ==> (SlotOf(BuildSteps(p)[i]) == Plugins <==> i < 2 || i >= 5)
    ensures |BuildSteps(p)| == |BuildSteps(q)|
    ensures forall i :: 0 <= i < |BuildSteps(p)| ==>
      && SlotOf(BuildSteps(p)[i]) == SlotOf(BuildSteps(q)[i])
      && (PhaseOf(BuildSteps(p)[i]).None? <==> PhaseOf(BuildSteps(q)[i]).None?)
  {
  }

  /** The tree is built before the build hook's own after-build, the launch
      hook rewrites it before any plugin's after-build sees it, and the
      generic plugin calls precede the phase-specific ones. */
  lemma BuildOrder(p: Phase)
    ensures CalledBefore(BuildSteps(p), PluginsBeforeBuildPhase(p), BuildPhase(p))
    ensures CalledBefore(BuildSteps(p), BuildPhase(p), BuildAfterBuildPhase(p))
    ensures CalledBefore(BuildSteps(p), BuildAfterBuildPhase(p), LaunchAfterBuildPhase(p))
    ensures CalledBefore(BuildSteps(p), LaunchAfterBuildPhase(p), PluginsAfterBuild)
    ensures CalledBefore(BuildSteps(p), PluginsBeforeBuild, PluginsBeforeBuildPhase(p))
    ensures CalledBefore(BuildSteps(p), PluginsAfterBuild, PluginsAfterBuildPhase(p))
  {
    var s := BuildSteps(p);
    assert s[0] == PluginsBeforeBuild && s[1] == PluginsBeforeBuildPhase(p) && s[2] == BuildPhase(p);
    assert s[3] == BuildAfterBuildPhase(p) && s[4] == LaunchAfterBuildPhase(p);
    assert s[5] == PluginsAfterBuild && s[6] == PluginsAfterBuildPhase(p);
  }

  /** What running the calls of `_build_<phase>` in order does: the calls
      made, and whether one of them raised, which skips all that follow. */
  datatype Ran = Ran(called: seq<Step>, raised: bool)

  /** Calls `steps` in order, where `raises` says which calls raise. */
  function RunSteps(steps: seq<Step>, raises: Step -> bool): (r: Ran)
    ensures |r.called| <= |steps| && r.called == steps[..|r.called|]
    ensures r.raised <==> exists i :: 0 <= i < |steps| && raises(steps[i])
    ensures r.raised ==> r.called != [] && raises(r.called[|r.called| - 1])
    ensures forall i :: 0 <= i < |r.called| - 1 ==> !raises(r.called[i])
    ensures !r.raised ==> r.called == steps
    decreases |steps|
  {
    if steps == [] then Ran([], false)
    else if raises(steps[0]) then Ran([steps[0]], true)
    else
      var rest := RunSteps(steps[1..], raises);
      Ran([steps[0]] + rest.called, rest.raised)
  }

  /** The calls that raise as written: `VanillaBuild.after_build_train` is
      declared without `self` and calls zero-argument `super()` with the
      context as its first argument, which raises `TypeError`; the other
      hooks return. */
  function RaisesAsWritten(s: Step): bool {
    s == BuildAfterBuildPhase(Train)
  }

  /** The calls that raise once `after_build_train` returns like the other
      phases' after-builds: none. */
  function RaisesCorrected(s: Step): bool {
    false
  }

  /** As written, building the train phase stops at the build hook's
      after-build: the launch hook never rewrites the tree and no plugin
      after-build runs. */
  lemma TrainBuildStopsEarly()
    ensures RunSteps(BuildSteps(Train), RaisesAsWritten) == Ran(BuildSteps(Train)[..4], true)
    ensures LaunchAfterBuildPhase(Train) !in RunSteps(BuildSteps(Train), RaisesAsWritten).called
    ensures PluginsAfterBuild !in RunSteps(BuildSteps(Train), RaisesAsWritten).called
  {
    var s := BuildSteps(Train);
    var r := RunSteps(s, RaisesAsWritten);
    assert RaisesAsWritten(s[3]);
    var k := |r.called| - 1;
    assert r.called[k] == s[k] && RaisesAsWritten(s[k]);
    assert k == 3;
  }

  /** As written, eval and predict still run all seven calls. */
  lemma OtherBuildsComplete(p: Phase)
    requires p != Train
    ensures RunSteps(BuildSteps(p), RaisesAsWritten) == Ran(BuildSteps(p), false)
  {
    assert forall i :: 0 <= i < 7 ==> !RaisesAsWritten(BuildSteps(p)[i]);
  }

  /** With the correction every phase runs all seven calls, in order. */
  lemma BuildCompletes(p: Phase)
    ensures RunSteps(BuildSteps(p), RaisesCorrected) == Ran(BuildSteps(p), false)
    ensures CalledBefore(RunSteps(BuildSteps(p), RaisesCorrected).called, LaunchAfterBuildPhase(p), PluginsAfterBuild)
  {
    BuildOrder(p);
  }
}
