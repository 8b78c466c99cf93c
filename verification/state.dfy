/** The state hooks of `torchslime/core/hooks/state.py`: which phase the
    context is in decides the model mode, the dataset provider, the
    iteration fields holding loss and metrics, and the sub-entry of the
    averaging scratch space in `ctx.inner`. */
module StateHooks {
  import opened Base
  import opened PyDict

  /** The four states registered in `ctx_state`; `Val` and `Predict` are
      subclasses of the eval state. */
  datatype StateHook = Train | Eval | Val | Predict

  /** A loss or metric value (a number; its arithmetic is not modelled). */
  type Value = int

  /** A metrics dict, or the contents of a loss wrapper. */
  type Values = Dict<string, Value>

  /** One phase sub-entry of the averaging scratch space: named dicts. */
  type AvgEntry = Dict<string, Values>

  /** `ctx.inner[INNER_KEY]`: the sub-entries by phase key. */
  type AvgSlot = Dict<string, AvgEntry>

  /** The iteration fields the hooks read and write; `None` is `NOTHING`. */
  datatype Iteration = Iteration(
    trainLoss: Option<Values>, trainMetrics: Option<Values>,
    evalLoss: Option<Values>, evalMetrics: Option<Values>)

  /** The part of the context the hooks touch: `ctx.inner` (a key that is
      missing reads as `NOTHING`) and `ctx.iteration`. */
  datatype Ctx = Ctx(inner: map<string, AvgSlot>, iteration: Iteration)

  /** `__str__`. */
  function Name(s: StateHook): string {
    match s
    case Train => "TRAIN"
    case Eval => "EVAL"
    case Val => "VAL"
    case Predict => "PREDICT"
  }

  /** The key each state is registered under in `ctx_state`. */
  function RegistryKey(s: StateHook): string {
    match s
    case Train => "train"
    case Eval => "eval"
    case Val => "val"
    case Predict => "predict"
  }

  /** Looking a state up in `ctx_state`. */
  function Lookup(key: string): (r: Option<StateHook>)
    ensures r.Some? <==> key in ["train", "eval", "val", "predict"]
    ensures r.Some? ==> RegistryKey(r.value) == key
  {
    if key == "train" then Some(Train)
    else if key == "eval" then Some(Eval)
    else if key == "val" then Some(Val)
    else if key == "predict" then Some(Predict)
    else None
  }

  /** Every state is found under its own key, and the four names shown are
      pairwise different. */
  lemma RegistryRoundTrip(s: StateHook, t: StateHook)
    ensures Lookup(RegistryKey(s)) == Some(s)
    ensures Name(s) == Name(t) <==> s == t
  {
    match s
    case Train =>
    case Eval =>
    case Val =>
      assert Name(s)[0] == 'V';
    case Predict =>
  }

  /** What `set_model_mode` switches the model to. */
  datatype Mode = Training | Evaluating

  function ModelMode(s: StateHook): (m: Mode)
    ensures m == Training <==> s == Train
  {
    if s == Train then Training else Evaluating
  }

  /** Which provider `get_dataset` checks for and calls. */
  datatype Provider = TrainProvider | EvalProvider

  function DatasetProvider(s: StateHook): (p: Provider)
    ensures p == TrainProvider <==> s == Train
  {
    if s == Train then TrainProvider else EvalProvider
  }

  /** The sub-entry of the averaging slot a state uses: `train` for the
      train state; the eval state and its two subclasses use `eval`. */
  function PhaseKey(s: StateHook): (k: string)
    ensures k == "train" <==> s == Train
    ensures k == "eval" <==> s != Train
  {
    if s == Train then "train" else "eval"
  }

  /** `_get_avg_inner_init_item`: an empty loss wrapper (`get_empty()`) and
      three empty dicts. */
  function InitItem(): (r: AvgEntry)
    ensures Keys(r) == ["loss_value", "loss_value_count", "metrics", "metrics_count"]
    ensures forall i :: 0 <= i < |r| ==> r[i].1 == []
  {
    [("loss_value", []), ("loss_value_count", []), ("metrics", []), ("metrics_count", [])]
  }

  /** The four keys of the init item are distinct. */
  lemma InitItemValid()
    ensures Valid(InitItem())
    ensures |InitItem()| == 4
  {
    var ks := Keys(InitItem());
    assert ks[0][5] == 'v' && ks[1][5] == 'v' && ks[2][0] == 'm' && ks[3][0] == 'm';
    assert |ks[0]| != |ks[1]| && |ks[2]| != |ks[3]|;
  }

  /** The averaging slot under `key`, `None` when it is `NOTHING`. */
  function Slot(ctx: Ctx, key: string): Option<AvgSlot> {
    if key in ctx.inner then Some(ctx.inner[key]) else None
  }

  /** The base `init_avg_inner_ctx` / `clear_avg_info` step: the slot becomes
      `{}` when it is `NOTHING` and is otherwise left alone. */
  function EnsureSlot(ctx: Ctx, key: string): (r: Ctx)
    ensures key in r.inner && r.iteration == ctx.iteration
    ensures key in ctx.inner ==> r == ctx
    ensures key !in ctx.inner ==> r.inner == ctx.inner[key := []]
  {
    if key in ctx.inner then ctx else ctx.(inner := ctx.inner[key := []])
  }

  /** `init_avg_inner_ctx`: makes the slot exist, then adds the state's phase
      sub-entry only when it is absent; nothing present is overwritten. */
  function InitAvgInnerCtx(s: StateHook, ctx: Ctx, key: string): (r: Ctx)
    ensures key in r.inner && r.iteration == ctx.iteration
    ensures forall k :: k in ctx.inner && k != key ==> k in r.inner && r.inner[k] == ctx.inner[k]
    ensures r.inner.Keys == ctx.inner.Keys + {key}
  {
    var c := EnsureSlot(ctx, key);
    var slot := c.inner[key];
    match Get(slot, PhaseKey(s))
    case Some(_) => c
    case None => c.(inner := c.inner[key := Put(slot, PhaseKey(s), InitItem())])
  }

  /** `get_avg_inner_ctx`: the state's sub-entry, `NOTHING` when it or the
      whole slot is missing (`NOTHING.get(...)` is `NOTHING`). */
  function GetAvgInnerCtx(s: StateHook, ctx: Ctx, key: string): (r: Option<AvgEntry>)
    ensures key !in ctx.inner ==> r.None?
    ensures key in ctx.inner ==> r == Get(ctx.inner[key], PhaseKey(s))
  {
    match Slot(ctx, key)
    case None => None
    case Some(slot) => Get(slot, PhaseKey(s))
  }

  /** After `init_avg_inner_ctx` the sub-entry exists; an entry that was
      there already, and every other phase's entry, reads as before. */
  lemma InitNeverOverwrites(s: StateHook, ctx: Ctx, key: string, phase: string)
    ensures GetAvgInnerCtx(s, InitAvgInnerCtx(s, ctx, key), key).Some?
    ensures GetAvgInnerCtx(s, ctx, key).Some? ==>
      GetAvgInnerCtx(s, InitAvgInnerCtx(s, ctx, key), key) == GetAvgInnerCtx(s, ctx, key)
    ensures GetAvgInnerCtx(s, ctx, key).None? ==>
      GetAvgInnerCtx(s, InitAvgInnerCtx(s, ctx, key), key) == Some(InitItem())
    ensures key in ctx.inner && phase != PhaseKey(s) ==>
      Get(InitAvgInnerCtx(s, ctx, key).inner[key], phase) == Get(ctx.inner[key], phase)
  {
    var c := EnsureSlot(ctx, key);
    PutGet(c.inner[key], PhaseKey(s), InitItem());
  }

  /** Running `init_avg_inner_ctx` twice is running it once. */
  lemma InitIdempotent(s: StateHook, ctx: Ctx, key: string)
    ensures InitAvgInnerCtx(s, InitAvgInnerCtx(s, ctx, key), key) == InitAvgInnerCtx(s, ctx, key)
  {
    var c := EnsureSlot(ctx, key);
    PutGet(c.inner[key], PhaseKey(s), InitItem());
  }

  /** Resets the state's loss and metrics fields to `NOTHING`. */
  function ClearFields(s: StateHook, it: Iteration): Iteration {
    if s == Train then it.(trainMetrics := None, trainLoss := None)
    else it.(evalMetrics := None, evalLoss := None)
  }

  /** `clear_avg_info`: makes the slot exist, replaces the state's
      sub-entry with a fresh init item, and sets the state's metrics and loss
      value to `NOTHING`. */
  function ClearAvgInfo(s: StateHook, ctx: Ctx, key: string): (r: Ctx)
    ensures key in r.inner
    ensures forall k :: k in ctx.inner && k != key ==> k in r.inner && r.inner[k] == ctx.inner[k]
  {
    var c := EnsureSlot(ctx, key);
    Ctx(c.inner[key := Put(c.inner[key], PhaseKey(s), InitItem())], ClearFields(s, c.iteration))
  }

  /** After `clear_avg_info` the sub-entry is a fresh init item whatever it
      held, the state's own loss and metrics read `NOTHING` (the val state's
      metrics read `{}`), and the other
      phase's fields are untouched. */
  lemma ClearResets(s: StateHook, ctx: Ctx, key: string)
    ensures var r := ClearAvgInfo(s, ctx, key);
      && GetAvgInnerCtx(s, r, key) == Some(InitItem())
      && GetAvgLossValueAndMetrics(s, r) == (None, if s == Val then Some([]) else None)
      && (s == Train ==> r.iteration.evalLoss == ctx.iteration.evalLoss && r.iteration.evalMetrics == ctx.iteration.evalMetrics)
      && (s != Train ==> r.iteration.trainLoss == ctx.iteration.trainLoss && r.iteration.trainMetrics == ctx.iteration.trainMetrics)
  {
    var c := EnsureSlot(ctx, key);
    PutGet(c.inner[key], PhaseKey(s), InitItem());
  }

  // ---------------------------------------------------------------------
  // Loss values and metrics
  // ---------------------------------------------------------------------

  /** `'val_{}'.format(key)`. */
  function ValKey(k: string): string {
    "val_" + k
  }

  /** The reference definition of the `val_` renaming, entry by entry:
      same order, same values, every key prefixed. */
  function Prefixed(d: Values): Values
  {
    seq(|d|, i requires 0 <= i < |d| => (ValKey(d[i].0), d[i].1))
  }

  /** The loop of `ValState.get_avg_loss_value_and_metrics`: writes each
      renamed entry into `acc` in turn. */
  function PrefixInto(acc: Values, d: Values): Values
    decreases |d|
  {
    if d == [] then acc else PrefixInto(Put(acc, ValKey(d[0].0), d[0].1), d[1..])
  }

  /** Distinct keys stay distinct once renamed. */
  lemma PrefixedValid(d: Values)
    requires Valid(d)
    ensures Valid(Prefixed(d))
  {
    var ks, ps := Keys(d), Keys(Prefixed(d));
    forall i, j | 0 <= i < j < |ps| ensures ps[i] != ps[j] {
      assert ks[i] != ks[j];
      assert ps[i] == ValKey(ks[i]) && ps[j] == ValKey(ks[j]);
      assert ValKey(ks[i])[4..] == ks[i] && ValKey(ks[j])[4..] == ks[j];
    }
  }

  /** The renaming of a non-empty dict starts with its renamed first entry. */
  lemma PrefixedCons(d: Values)
    requires d != []
    ensures Prefixed(d) == [(ValKey(d[0].0), d[0].1)] + Prefixed(d[1..])
  {
  }

  /** In a dict with distinct keys, the key of an entry is not among the
      keys before it. */
  lemma FreshFront(acc: Values, e: (string, Value), rest: Values)
    requires Valid(acc + [e] + rest)
    ensures !HasKey(acc, e.0)
  {
    KeysAppend(acc + [e], rest);
    KeysAppend(acc, [e]);
    var ks := Keys(acc + [e] + rest);
    forall i | 0 <= i < |acc| ensures Keys(acc)[i] != e.0 {
      assert Keys(acc)[i] == ks[i] && ks[|acc|] == e.0;
    }
  }

  /** Writing renamed entries that are not there yet only appends them. */
  lemma {:induction false} PrefixFold(acc: Values, d: Values)
    requires Valid(acc + Prefixed(d))
    ensures PrefixInto(acc, d) == acc + Prefixed(d)
    decreases |d|
  {
    if d != [] {
      var e := (ValKey(d[0].0), d[0].1);
      PrefixedCons(d);
      assert acc + Prefixed(d) == acc + [e] + Prefixed(d[1..]);
      FreshFront(acc, e, Prefixed(d[1..]));
      PrefixFold(acc + [e], d[1..]);
    } else {
      assert acc + Prefixed(d) == acc;
    }
  }

  /** The renaming loop over a dict builds exactly the entry-by-entry
      renaming: same size, same order, same values, and (the keys being
      distinct) distinct renamed keys. */
  lemma ValRenaming(d: Values)
    requires Valid(d)
    ensures PrefixInto([], d) == Prefixed(d)
    ensures Valid(PrefixInto([], d)) && |PrefixInto([], d)| == |d|
  {
    PrefixedValid(d);
    assert [] + Prefixed(d) == Prefixed(d);
    PrefixFold([], d);
  }

  /** Renames a field that may be `NOTHING`. */
  function Renamed(v: Option<Values>): Option<Values> {
    match v
    case None => None
    case Some(d) => Some(PrefixInto([], d))
  }

  /** The contents of a field that may be `NOTHING`, iterated as a dict:
      `NOTHING` yields no items. */
  function ItemsOf(v: Option<Values>): Values {
    if v.Some? then v.value else []
  }

  /** `get_avg_loss_value_and_metrics`: a copy of the state's loss value and
      its metrics. The val state renames every key with `val_`; its metrics
      are always a fresh dict, `{}` when the field is `NOTHING`, while the
      copy of a `NOTHING` loss value stays `NOTHING`. (The loss wrapper's
      copy is modelled by its contents.) */
  function GetAvgLossValueAndMetrics(s: StateHook, ctx: Ctx): (r: (Option<Values>, Option<Values>))
    ensures s == Train ==> r == (ctx.iteration.trainLoss, ctx.iteration.trainMetrics)
    ensures s == Eval || s == Predict ==> r == (ctx.iteration.evalLoss, ctx.iteration.evalMetrics)
    ensures s == Val ==> r.0.Some? == ctx.iteration.evalLoss.Some? && r.1.Some?
    ensures s == Val && ctx.iteration.evalMetrics.None? ==> r.1 == Some([])
    ensures s == Val && ctx.iteration.evalMetrics.Some? && Valid(ctx.iteration.evalMetrics.value) ==>
      r.1 == Some(Prefixed(ctx.iteration.evalMetrics.value))
    ensures s == Val && ctx.iteration.evalLoss.Some? && Valid(ctx.iteration.evalLoss.value) ==>
      r.0 == Some(Prefixed(ctx.iteration.evalLoss.value))
  {
    match s
    case Train => (ctx.iteration.trainLoss, ctx.iteration.trainMetrics)
    case Val =>
      var m, l := ItemsOf(ctx.iteration.evalMetrics), ItemsOf(ctx.iteration.evalLoss);
      assert Valid(m) ==> PrefixInto([], m) == Prefixed(m) by { if Valid(m) { ValRenaming(m); } }
      assert Valid(l) ==> PrefixInto([], l) == Prefixed(l) by { if Valid(l) { ValRenaming(l); } }
      (Renamed(ctx.iteration.evalLoss), Some(PrefixInto([], ItemsOf(ctx.iteration.evalMetrics))))
    case _ => (ctx.iteration.evalLoss, ctx.iteration.evalMetrics)
  }

  /** `set_avg_loss_value_and_metrics`: stores both into the state's
      fields. */
  function SetAvgLossValueAndMetrics(s: StateHook, ctx: Ctx, loss: Option<Values>, metrics: Option<Values>): (r: Ctx)
    ensures r.inner == ctx.inner
    ensures s == Train ==> r.iteration.evalLoss == ctx.iteration.evalLoss && r.iteration.evalMetrics == ctx.iteration.evalMetrics
    ensures s != Train ==> r.iteration.trainLoss == ctx.iteration.trainLoss && r.iteration.trainMetrics == ctx.iteration.trainMetrics
  {
    if s == Train then ctx.(iteration := ctx.iteration.(trainLoss := loss, trainMetrics := metrics))
    else ctx.(iteration := ctx.iteration.(evalLoss := loss, evalMetrics := metrics))
  }

  /** What was set is what is read back; the val state reads it back
      renamed, key by key. */
  lemma SetThenGet(s: StateHook, ctx: Ctx, loss: Values, metrics: Values)
    requires Valid(loss) && Valid(metrics)
    ensures var r := GetAvgLossValueAndMetrics(s, SetAvgLossValueAndMetrics(s, ctx, Some(loss), Some(metrics)));
      && (s != Val ==> r == (Some(loss), Some(metrics)))
      && (s == Val ==> r == (Some(Prefixed(loss)), Some(Prefixed(metrics))))
  {
    ValRenaming(loss);
    ValRenaming(metrics);
  }

  /** The val and predict states share the eval state's scratch entry and
      fields: every operation on the averaging slot and on the fields does
      the same for them as for the eval state. */
  lemma SubclassesShareEval(s: StateHook, ctx: Ctx, key: string, loss: Option<Values>, metrics: Option<Values>)
    requires s == Val || s == Predict
    ensures InitAvgInnerCtx(s, ctx, key) == InitAvgInnerCtx(Eval, ctx, key)
    ensures ClearAvgInfo(s, ctx, key) == ClearAvgInfo(Eval, ctx, key)
    ensures GetAvgInnerCtx(s, ctx, key) == GetAvgInnerCtx(Eval, ctx, key)
    ensures SetAvgLossValueAndMetrics(s, ctx, loss, metrics) == SetAvgLossValueAndMetrics(Eval, ctx, loss, metrics)
    ensures ModelMode(s) == ModelMode(Eval) && DatasetProvider(s) == DatasetProvider(Eval)
  {
  }
}
