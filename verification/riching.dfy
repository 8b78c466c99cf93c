/** The display side of `src/torchslime/handler/riching.py`: the progress
    bar a handler registers while it runs, the handler-tree profiler (one
    group of renderables per handler, optionally wrapped with a marker,
    assembled breadth-first into a rich tree) and the wrapper-container
    profiler. Rich renderables are opaque tokens: only which token goes
    where is modelled, not how it is drawn. */
module Riching {
  import opened Base
  import opened PyDict
  import opened Handlers
  import opened Tree
  import Utils

  // ---------------------------------------------------------------------
  // Progress bars
  // ---------------------------------------------------------------------

  /** The two concrete progress interfaces: a plain bar, and a bar that also
      shows the meter profile as its text. */
  datatype ProgressKind = PlainProgress | ProfileProgress

  /** One progress task: how far it has advanced and the text shown with
      it. */
  datatype Bar = Bar(completed: nat, text: string)

  /** `progress_update__`: advance the completed count by one; the profiling bar also
      shows `meterText`, the profiler's `meter_profile` (computed
      elsewhere). */
  function ProgressUpdate(kind: ProgressKind, b: Bar, meterText: string): (r: Bar)
    ensures r.completed == b.completed + 1
    ensures kind.PlainProgress? ==> r.text == b.text
    ensures kind.ProfileProgress? ==> r.text == meterText
  {
    match kind
    case PlainProgress => b.(completed := b.completed + 1)
    case ProfileProgress => Bar(b.completed + 1, meterText)
  }

  /** `n` updates in a row advance the completed count by exactly `n`. */
  lemma {:induction false} UpdatesAdvance(kind: ProgressKind, b: Bar, texts: seq<string>)
    ensures UpdateMany(kind, b, texts).completed == b.completed + |texts|
    decreases texts
  {
    if texts != [] {
      UpdatesAdvance(kind, ProgressUpdate(kind, b, texts[0]), texts[1..]);
    }
  }

  /** One update per meter text, in order. */
  function UpdateMany(kind: ProgressKind, b: Bar, texts: seq<string>): Bar
    decreases texts
  {
    if texts == [] then b else UpdateMany(kind, ProgressUpdate(kind, b, texts[0]), texts[1..])
  }

  /** What the display context holds: the progress objects shown in the live
      group, the currently assigned progress and task, and the progress
      objects the store still notifies. */
  datatype DisplayCtx = DisplayCtx(live: seq<nat>, current: Option<(nat, nat)>, observed: set<nat>)

  /** How the body run inside the context ends. */
  datatype Outcome = Returned | Threw

  /** The steps of `progress_context__`, in the order they happen. */
  datatype Step = Create | Assign | Add | Yield | Remove | Restore

  /** A run of the context: the display afterwards, the steps taken, and how
      the `with` statement ends for its caller. */
  datatype Exit = Exit(display: DisplayCtx, steps: seq<Step>, outcome: Outcome)

  /** `add_progress__`: show the assigned progress in the live group. */
  function AddProgress(d: DisplayCtx, p: nat): DisplayCtx {
    d.(live := d.live + [p])
  }

  /** `remove_progress__`: take the progress out of the live group and stop
      notifying it. */
  function RemoveProgress(d: DisplayCtx, p: nat): (r: DisplayCtx)
    ensures p !in r.live && p !in r.observed
    ensures forall i :: 0 <= i < |r.live| ==> r.live[i] in d.live
    ensures forall i :: 0 <= i < |d.live| && d.live[i] != p ==> d.live[i] in r.live
  {
    DisplayCtx(Filter(d.live, x => x != p), d.current, d.observed - {p})
  }

  /** `progress_context__` as written: `create_progress__` gives the progress
      `p` with task `task` (the caller supplies both, already observed), the
      `assign__` block installs them and restores the previous pair on the
      way out, `add_progress__` shows `p`, the body runs at the `yield`, and
      `remove_progress__` follows it in straight-line code, so a body that
      raises skips it. */
  function ProgressContextAsWritten(d: DisplayCtx, p: nat, task: nat, body: Outcome): (r: Exit)
    ensures r.display.current == d.current
    ensures body.Returned? ==> r.steps == [Create, Assign, Add, Yield, Remove, Restore]
    ensures body.Threw? ==> r.steps == [Create, Assign, Add, Yield, Restore]
    ensures r.outcome == body
  {
    var d1 := AddProgress(d.(current := Some((p, task)), observed := d.observed + {p}), p);
    match body
    case Returned =>
      Exit(RemoveProgress(d1, p).(current := d.current), [Create, Assign, Add, Yield, Remove, Restore], Returned)
    case Threw =>
      Exit(d1.(current := d.current), [Create, Assign, Add, Yield, Restore], Threw)
  }

  /** A body that raises leaves the progress bar in the live group and
      still observed, after the context has been left. */
  lemma ProgressLeaksOnRaise(d: DisplayCtx, p: nat, task: nat)
    ensures var r := ProgressContextAsWritten(d, p, task, Threw);
      p in r.display.live && p in r.display.observed && r.outcome == Threw
  {
    assert AddProgress(d, p).live[|d.live|] == p;
  }

  /** `progress_context__` with the removal in a `finally` clause: the body
      still runs at the `yield` and its exception still reaches the caller,
      but the progress is removed either way. */
  function ProgressContext(d: DisplayCtx, p: nat, task: nat, body: Outcome): (r: Exit)
    ensures r.display.current == d.current
    ensures r.steps == [Create, Assign, Add, Yield, Remove, Restore]
    ensures r.outcome == body
  {
    var d1 := AddProgress(d.(current := Some((p, task)), observed := d.observed + {p}), p);
    Exit(RemoveProgress(d1, p).(current := d.current), [Create, Assign, Add, Yield, Remove, Restore], body)
  }

  /** With the `finally`, the progress is gone afterwards whatever the body
      does, every other live entry stays, and a normal run is exactly the
      run as written. */
  lemma ProgressAlwaysRemoved(d: DisplayCtx, p: nat, task: nat, body: Outcome)
    ensures var r := ProgressContext(d, p, task, body);
      && p !in r.display.live && p !in r.display.observed
      && (forall i :: 0 <= i < |d.live| && d.live[i] != p ==> d.live[i] in r.display.live)
    ensures body.Returned? ==> ProgressContext(d, p, task, body) == ProgressContextAsWritten(d, p, task, body)
  {
    var d1 := AddProgress(d.(current := Some((p, task)), observed := d.observed + {p}), p);
    forall i | 0 <= i < |d.live| && d.live[i] != p
      ensures d.live[i] in ProgressContext(d, p, task, body).display.live
    {
      assert d1.live[i] == d.live[i];
    }
  }

  // ---------------------------------------------------------------------
  // Handler profiles
  // ---------------------------------------------------------------------

  /** The marker text a registered wrap function appends to the class name. */
  datatype Mark = ExceptionMark | TerminateMark

  /** A rich renderable: the bold class-name text, the two-column attribute
      table (one row per attribute, in dict order), or a text with a marker
      appended by `Text.assemble`. */
  datatype Renderable =
    | ClassName(name: string)
    | AttrTable(rows: Dict<string, string>)
    | Assembled(text: Renderable, mark: Mark)

  /** A rich `Group` of renderables. */
  datatype Group = Group(items: seq<Renderable>)

  /** What the handler itself supplies to the profiler: its class name and
      its display attributes (keys and values already rendered). */
  datatype Describe = Describe(classname: Label -> string, attrs: Label -> Dict<string, string>)

  /** The `wrap_func` argument: `None`/`NOTHING`, a registry key, or a
      callable. */
  datatype WrapArg = NoWrap | ByName(key: string) | Given(f: (Group, Label) -> Group)

  /** A resolved wrap function. */
  datatype WrapFn = Registered(mark: Mark) | Custom(f: (Group, Label) -> Group)

  /** The `handler_profile_wrap_func` registry: `exception` and `terminate`
      are the two keys registered in this file. */
  function WrapRegistry(key: string): (r: Option<Mark>)
    ensures r == Some(ExceptionMark) <==> key == "exception"
    ensures r == Some(TerminateMark) <==> key == "terminate"
    ensures r.None? <==> key != "exception" && key != "terminate"
  {
    if key == "exception" then Some(ExceptionMark)
    else if key == "terminate" then Some(TerminateMark)
    else None
  }

  /** `get_handler_profile_wrap_func`: a string is looked up in the registry
      (a missing key gives `NOTHING`), anything else is returned as is. */
  function ResolveWrap(arg: WrapArg): (r: Option<WrapFn>)
    ensures arg.NoWrap? ==> r.None?
    ensures arg.ByName? ==> (r.Some? <==> WrapRegistry(arg.key).Some?)
    ensures arg.ByName? && r.Some? ==> r.value == Registered(WrapRegistry(arg.key).value)
    ensures arg.Given? ==> r.Some? && r.value.Custom?
  {
    match arg
    case NoWrap => None
    case ByName(key) =>
      (match WrapRegistry(key)
       case None => None
       case Some(m) => Some(Registered(m)))
    case Given(f) => Some(Custom(f))
  }

  /** Applies a wrap function; the registered ones replace the first
      renderable with the same text followed by their marker. */
  function ApplyWrap(fn: WrapFn, g: Group, l: Label): (r: Group)
    requires fn.Registered? ==> |g.items| > 0
    ensures fn.Registered? ==>
      |r.items| == |g.items| && r.items[0] == Assembled(g.items[0], fn.mark) && r.items[1..] == g.items[1..]
  {
    match fn
    case Registered(m) => Group(g.items[0 := Assembled(g.items[0], m)])
    case Custom(f) => f(g, l)
  }

  /** `check_target_handler`: whether the handler is among the targets
      (`None`/`NOTHING` stands for no targets at all). */
  predicate IsTarget(l: Label, targets: Option<seq<Ref>>) {
    targets.Some? && l.ref in targets.value
  }

  /** The group `handler_profile` builds before any wrapping: the class name
      always first, then the attribute table exactly when attributes are
      displayed and there is at least one. */
  function PlainGroup(l: Label, displayAttr: bool, desc: Describe): (g: Group)
    ensures 1 <= |g.items| <= 2 && g.items[0] == ClassName(desc.classname(l))
    ensures |g.items| == 2 <==> displayAttr && |desc.attrs(l)| >= 1
    ensures |g.items| == 2 ==> g.items[1] == AttrTable(desc.attrs(l))
  {
    var head := [ClassName(desc.classname(l))];
    if displayAttr && |desc.attrs(l)| >= 1 then Group(head + [AttrTable(desc.attrs(l))])
    else Group(head)
  }

  /** The result of `handler_profile` and whether it logged the warning about
      a missing wrap function. */
  datatype Shown = Shown(group: Group, warned: bool)

  /** `handler_profile`: the plain group, wrapped only when the handler is a
      target and the wrap function resolves; a target whose wrap function
      resolves to nothing is shown plain, with a warning. */
  function HandlerProfile(l: Label, displayAttr: bool, targets: Option<seq<Ref>>, wrap: WrapArg, desc: Describe): (r: Shown)
    ensures !IsTarget(l, targets) ==> r == Shown(PlainGroup(l, displayAttr, desc), false)
    ensures IsTarget(l, targets) && ResolveWrap(wrap).None? ==> r == Shown(PlainGroup(l, displayAttr, desc), true)
    ensures IsTarget(l, targets) && ResolveWrap(wrap).Some? ==>
      !r.warned && r.group == ApplyWrap(ResolveWrap(wrap).value, PlainGroup(l, displayAttr, desc), l)
  {
    var group := PlainGroup(l, displayAttr, desc);
    if !IsTarget(l, targets) then Shown(group, false)
    else
      match ResolveWrap(wrap)
      case None => Shown(group, true)
      case Some(fn) => Shown(ApplyWrap(fn, group, l), false)
  }

  /** A registry key other than `exception` and `terminate` leaves a target
      unwrapped and logs the warning. */
  lemma UnknownKeyWarns(l: Label, displayAttr: bool, targets: Option<seq<Ref>>, key: string, desc: Describe)
    requires IsTarget(l, targets) && key != "exception" && key != "terminate"
    ensures HandlerProfile(l, displayAttr, targets, ByName(key), desc)
      == Shown(PlainGroup(l, displayAttr, desc), true)
  {
  }

  /** The `exception` key marks exactly the class name of a target and keeps
      the attribute table. */
  lemma ExceptionKeyMarksName(l: Label, displayAttr: bool, targets: Option<seq<Ref>>, desc: Describe)
    requires IsTarget(l, targets)
    ensures var g := HandlerProfile(l, displayAttr, targets, ByName("exception"), desc).group;
      && g.items[0] == Assembled(ClassName(desc.classname(l)), ExceptionMark)
      && g.items[1..] == PlainGroup(l, displayAttr, desc).items[1..]
  {
  }

  /** The arguments `profile` passes on to every handler below the root. */
  datatype Args = Args(displayAttr: bool, targets: Option<seq<Ref>>, wrap: WrapArg, desc: Describe)

  /** The group of the root: `profile` calls `handler_profile(handler)` with
      the defaults, whatever it was asked for. */
  function RootGroup(l: Label, args: Args): Group {
    HandlerProfile(l, true, None, NoWrap, args.desc).group
  }

  /** The group of a handler below the root. */
  function ChildGroup(l: Label, args: Args): Group {
    HandlerProfile(l, args.displayAttr, args.targets, args.wrap, args.desc).group
  }

  /** The root is shown with its attributes and never wrapped, even when it
      is one of the targets and the wrap function resolves. */
  lemma RootNeverWrapped(l: Label, args: Args)
    ensures RootGroup(l, args) == PlainGroup(l, true, args.desc)
    ensures HandlerProfile(l, true, None, NoWrap, args.desc).warned == false
  {
  }

  /** A rich tree: a group with its subtrees in order. */
  datatype PTree = PNode(group: Group, children: seq<PTree>)

  /** The rich tree that mirrors the handler tree `t`. */
  function Mirror(t: HTree, args: Args): PTree {
    PNode(RootGroup(t.info, args), MirrorAll(t.children, args))
  }

  function MirrorChild(t: HTree, args: Args): PTree
    decreases t, 1
  {
    PNode(ChildGroup(t.info, args), MirrorAll(t.children, args))
  }

  function MirrorAll(ts: seq<HTree>, args: Args): (ps: seq<PTree>)
    decreases ts, 0
    ensures |ps| == |ts|
  {
    if ts == [] then [] else [MirrorChild(ts[0], args)] + MirrorAll(ts[1..], args)
  }

  /** The number of handlers in a tree, and in a list of trees. */
  function Size(t: HTree): nat
    decreases t, 1
  {
    1 + SizeAll(t.children)
  }

  function SizeAll(ts: seq<HTree>): nat
    decreases ts, 0
  {
    if ts == [] then 0 else Size(ts[0]) + SizeAll(ts[1..])
  }

  lemma {:induction false} SizeAllAppend(a: seq<HTree>, b: seq<HTree>)
    ensures SizeAll(a + b) == SizeAll(a) + SizeAll(b)
  {
    if a != [] {
      assert (a + b)[1..] == a[1..] + b;
      SizeAllAppend(a[1..], b);
    } else {
      assert a + b == b;
    }
  }

  // ---------------------------------------------------------------------
  // The breadth-first profiler
  // ---------------------------------------------------------------------

  /** A rich tree node as the profiler holds it: its group and the positions
      of the subtrees `Tree.add` attached to it. The profiler's rich nodes
      live in one list, the root first. */
  datatype RichNode = RichNode(group: Group, kids: seq<nat>)

  /** Every node's subtrees come later in the list. */
  predicate Forward(arena: seq<RichNode>) {
    forall x, j :: 0 <= x < |arena| && 0 <= j < |arena[x].kids| ==> x < arena[x].kids[j] < |arena|
  }

  /** The rich tree rooted at position `x`. */
  function Read(arena: seq<RichNode>, x: nat): PTree
    requires Forward(arena) && x < |arena|
    decreases |arena| - x, 1, 0
  {
    PNode(arena[x].group, ReadKids(arena, arena[x].kids, x))
  }

  function ReadKids(arena: seq<RichNode>, ks: seq<nat>, lb: nat): (ps: seq<PTree>)
    requires Forward(arena) && lb < |arena|
    requires forall j :: 0 <= j < |ks| ==> lb < ks[j] < |arena|
    decreases |arena| - lb, 0, |ks|
    ensures |ps| == |ks|
  {
    if ks == [] then [] else [Read(arena, ks[0])] + ReadKids(arena, ks[1..], lb)
  }

  /** Position `x` was visited: its subtrees are the rich nodes of the
      children of the handler it shows (`src[x]`), in order. */
  predicate Visited(arena: seq<RichNode>, src: seq<HTree>, x: nat)
    requires |src| == |arena| && x < |arena|
  {
    && |arena[x].kids| == |src[x].children|
    && forall j :: 0 <= j < |arena[x].kids| ==>
         x < arena[x].kids[j] < |arena| && src[arena[x].kids[j]] == src[x].children[j]
  }

  /** Every position below the root holds the profile of its handler. */
  predicate Profiled(arena: seq<RichNode>, src: seq<HTree>, args: Args)
    requires |src| == |arena|
  {
    forall x :: 0 < x < |arena| ==> arena[x].group == ChildGroup(src[x].info, args)
  }

  /** Once every position is visited, each position below the root reads as
      the mirror of its handler. */
  lemma {:induction false} ReadMirrorChild(arena: seq<RichNode>, src: seq<HTree>, args: Args, x: nat)
    requires |src| == |arena| && 0 < x < |arena| && Forward(arena) && Profiled(arena, src, args)
    requires forall y :: 0 <= y < |arena| ==> Visited(arena, src, y)
    ensures Read(arena, x) == MirrorChild(src[x], args)
    decreases |arena| - x, 1
  {
    assert Visited(arena, src, x);
    ReadKidsMirror(arena, src, args, arena[x].kids, x, src[x].children);
  }

  lemma {:induction false} ReadKidsMirror(arena: seq<RichNode>, src: seq<HTree>, args: Args, ks: seq<nat>, lb: nat, cs: seq<HTree>)
    requires |src| == |arena| && lb < |arena| && Forward(arena) && Profiled(arena, src, args)
    requires forall y :: 0 <= y < |arena| ==> Visited(arena, src, y)
    requires |ks| == |cs|
    requires forall j :: 0 <= j < |ks| ==> lb < ks[j] < |arena| && src[ks[j]] == cs[j]
    ensures ReadKids(arena, ks, lb) == MirrorAll(cs, args)
    decreases |arena| - lb, 0, |ks|
  {
    if ks != [] {
      ReadMirrorChild(arena, src, args, ks[0]);
      ReadKidsMirror(arena, src, args, ks[1..], lb, cs[1..]);
    }
  }

  /** What one `visit` leaves behind: the popped rich node now has one new
      subtree per child of `node`, placed after all existing nodes, each
      showing that child's profile and queued in order; nothing else
      changes. */
  predicate VisitDone(arena: seq<RichNode>, queue: seq<nat>, node: HTree, args: Args,
                      arena': seq<RichNode>, queue': seq<nat>)
    requires |queue| > 0 && queue[0] < |arena|
  {
    && |arena'| == |arena| + |node.children|
    && (forall x :: 0 <= x < |arena| && x != queue[0] ==> arena'[x] == arena[x])
    && arena'[queue[0]].group == arena[queue[0]].group
    && arena'[queue[0]].kids == seq(|node.children|, j => |arena| + j)
    && (forall j :: 0 <= j < |node.children| ==>
          arena'[|arena| + j] == RichNode(ChildGroup(node.children[j].info, args), []))
    && queue' == queue[1..] + seq(|node.children|, j => |arena| + j)
  }

  /** `visit` for the handler `node`: pops the rich node at the front of the
      queue (it is still a leaf), adds one subtree per child of `node`, in
      order, with the child's profile, and queues each new subtree. */
  method Visit(arena: seq<RichNode>, queue: seq<nat>, node: HTree, args: Args)
    returns (arena': seq<RichNode>, queue': seq<nat>)
    requires |queue| > 0 && queue[0] < |arena| && arena[queue[0]].kids == []
    ensures VisitDone(arena, queue, node, args, arena', queue')
  {
    var top := queue[0];
    queue' := queue[1..];
    arena' := arena;
    var i := 0;
    while i < |node.children|
      invariant 0 <= i <= |node.children|
      invariant |arena'| == |arena| + i
      invariant forall x :: 0 <= x < |arena| && x != top ==> arena'[x] == arena[x]
      invariant arena'[top].group == arena[top].group
      invariant arena'[top].kids == seq(i, j => |arena| + j)
      invariant forall j :: 0 <= j < i ==>
        arena'[|arena| + j] == RichNode(ChildGroup(node.children[j].info, args), [])
      invariant queue' == queue[1..] + seq(i, j => |arena| + j)
    {
      var pos := |arena'|;
      arena' := arena' + [RichNode(ChildGroup(node.children[i].info, args), [])];
      arena' := arena'[top := arena'[top].(kids := arena'[top].kids + [pos])];
      queue' := queue' + [pos];
      i := i + 1;
    }
  }
  /** After a visit, the positions visited before stay visited, the popped
      position becomes visited, and the new positions show the children. */
  lemma VisitKeeps(arena: seq<RichNode>, src: seq<HTree>, queue: seq<nat>, node: HTree,
                   arena': seq<RichNode>, src': seq<HTree>, x: nat)
    requires |src| == |arena| && |queue| > 0 && queue[0] < |arena| && src[queue[0]] == node
    requires src' == src + node.children && |arena'| == |arena| + |node.children|
    requires forall y :: 0 <= y < |arena| && y != queue[0] ==> arena'[y] == arena[y]
    requires arena'[queue[0]].kids == seq(|node.children|, j => |arena| + j)
    requires x < |arena| && (x == queue[0] || Visited(arena, src, x))
    ensures Visited(arena', src', x)
  {
    if x != queue[0] {
      assert arena'[x] == arena[x];
      forall j | 0 <= j < |arena'[x].kids|
        ensures x < arena'[x].kids[j] < |arena'| && src'[arena'[x].kids[j]] == src'[x].children[j]
      {
        assert src'[arena[x].kids[j]] == src[arena[x].kids[j]];
      }
    } else {
      forall j | 0 <= j < |arena'[x].kids|
        ensures x < arena'[x].kids[j] < |arena'| && src'[arena'[x].kids[j]] == src'[x].children[j]
      {
        assert arena'[x].kids[j] == |arena| + j;
        assert src'[|arena| + j] == node.children[j];
      }
    }
  }

  /** The queue invariant of `profile`: the handler queue of the
      breadth-first traversal and the profiler's own queue of rich nodes
      advance together; each queued rich node is an unvisited leaf showing
      the handler queued beside it, and every other node is visited. */
  predicate InStep(arena: seq<RichNode>, src: seq<HTree>, hq: seq<HTree>, queue: seq<nat>)
  {
    && |src| == |arena| && |hq| == |queue| && Distinct(queue)
    && (forall k :: 0 <= k < |queue| ==>
          queue[k] < |arena| && src[queue[k]] == hq[k] && arena[queue[k]].kids == [])
    && (forall x :: 0 <= x < |arena| ==> x in queue || Visited(arena, src, x))
  }

  /** One turn of the traversal keeps the two queues in step and every
      rich node below the root profiled. */
  lemma VisitStep(arena: seq<RichNode>, src: seq<HTree>, hq: seq<HTree>, queue: seq<nat>, args: Args,
                  arena': seq<RichNode>, queue': seq<nat>)
    requires InStep(arena, src, hq, queue) && Profiled(arena, src, args) && hq != []
    requires VisitDone(arena, queue, hq[0], args, arena', queue')
    ensures InStep(arena', src + hq[0].children, hq[1..] + hq[0].children, queue')
    ensures Profiled(arena', src + hq[0].children, args)
    ensures arena'[0].group == arena[0].group
  {
    var src', hq' := src + hq[0].children, hq[1..] + hq[0].children;
    StepQueued(arena, src, hq, queue, args, arena', queue', src', hq');
    StepDistinct(arena, src, hq, queue, args, arena', queue');
    StepVisited(arena, src, hq, queue, args, arena', queue', src');
    StepProfiled(arena, src, hq, queue, args, arena', queue', src');
  }

  /** The queues after a turn: each queued rich node is a leaf showing the
      handler queued beside it. */
  lemma StepQueued(arena: seq<RichNode>, src: seq<HTree>, hq: seq<HTree>, queue: seq<nat>, args: Args,
                   arena': seq<RichNode>, queue': seq<nat>, src': seq<HTree>, hq': seq<HTree>)
    requires InStep(arena, src, hq, queue) && hq != []
    requires VisitDone(arena, queue, hq[0], args, arena', queue')
    requires src' == src + hq[0].children && hq' == hq[1..] + hq[0].children
    ensures |src'| == |arena'| && |hq'| == |queue'|
    ensures forall k :: 0 <= k < |queue'| ==>
      queue'[k] < |arena'| && src'[queue'[k]] == hq'[k] && arena'[queue'[k]].kids == []
  {
    forall k | 0 <= k < |queue'|
      ensures queue'[k] < |arena'| && src'[queue'[k]] == hq'[k] && arena'[queue'[k]].kids == []
    {
      if k < |queue| - 1 {
        assert queue'[k] == queue[k + 1] && hq'[k] == hq[k + 1];
        assert queue[k + 1] != queue[0];
      } else {
        assert queue'[k] == |arena| + (k - (|queue| - 1));
      }
    }
  }

  /** The rich-node queue stays free of repeats. */
  lemma StepDistinct(arena: seq<RichNode>, src: seq<HTree>, hq: seq<HTree>, queue: seq<nat>, args: Args,
                     arena': seq<RichNode>, queue': seq<nat>)
    requires InStep(arena, src, hq, queue) && hq != []
    requires VisitDone(arena, queue, hq[0], args, arena', queue')
    ensures Distinct(queue')
  {
    forall i, j | 0 <= i < j < |queue'| ensures queue'[i] != queue'[j] {
      if j < |queue| - 1 {
        assert queue'[i] == queue[i + 1] && queue'[j] == queue[j + 1];
      } else if i < |queue| - 1 {
        assert queue'[i] == queue[i + 1] && queue[i + 1] < |arena|;
      }
    }
  }

  /** Every rich node is still queued or visited; the popped one is now
      visited. */
  lemma StepVisited(arena: seq<RichNode>, src: seq<HTree>, hq: seq<HTree>, queue: seq<nat>, args: Args,
                    arena': seq<RichNode>, queue': seq<nat>, src': seq<HTree>)
    requires InStep(arena, src, hq, queue) && hq != []
    requires VisitDone(arena, queue, hq[0], args, arena', queue')
    requires src' == src + hq[0].children
    ensures |src'| == |arena'|
    ensures forall x :: 0 <= x < |arena'| ==> x in queue' || Visited(arena', src', x)
  {
    var node := hq[0];
    forall x | 0 <= x < |arena'| ensures x in queue' || Visited(arena', src', x) {
      if x >= |arena| {
        assert queue'[|queue| - 1 + (x - |arena|)] == x;
      } else if x != queue[0] && x in queue {
        var k :| 0 <= k < |queue| && queue[k] == x;
        assert queue'[k - 1] == x;
      } else {
        VisitKeeps(arena, src, queue, node, arena', src', x);
      }
    }
  }

  /** The new rich nodes show the profiles of the children they stand for. */
  lemma StepProfiled(arena: seq<RichNode>, src: seq<HTree>, hq: seq<HTree>, queue: seq<nat>, args: Args,
                     arena': seq<RichNode>, queue': seq<nat>, src': seq<HTree>)
    requires InStep(arena, src, hq, queue) && Profiled(arena, src, args) && hq != []
    requires VisitDone(arena, queue, hq[0], args, arena', queue')
    requires src' == src + hq[0].children
    ensures |src'| == |arena'| && Profiled(arena', src', args)
    ensures arena'[0].group == arena[0].group
  {
    forall x | 0 < x < |arena'| ensures arena'[x].group == ChildGroup(src'[x].info, args) {
      if x >= |arena| {
        assert src'[x] == hq[0].children[x - |arena|];
      } else {
        assert src'[x] == src[x];
      }
    }
  }

  /** When both queues are empty every rich node has been visited, and the
      rich tree read from the root is the mirror of the handler tree. */
  lemma Finished(arena: seq<RichNode>, src: seq<HTree>, t: HTree, args: Args)
    requires InStep(arena, src, [], []) && Profiled(arena, src, args)
    requires |arena| > 0 && src[0] == t && arena[0].group == RootGroup(t.info, args)
    ensures Forward(arena) && Read(arena, 0) == Mirror(t, args)
  {
    AllVisited(arena, src);
    assert Visited(arena, src, 0);
    ReadKidsMirror(arena, src, args, arena[0].kids, 0, t.children);
  }

  /** With nothing queued, every rich node has been visited. */
  lemma AllVisited(arena: seq<RichNode>, src: seq<HTree>)
    requires InStep(arena, src, [], [])
    ensures forall y :: 0 <= y < |arena| ==> Visited(arena, src, y)
    ensures Forward(arena)
  {
    forall x, j | 0 <= x < |arena| && 0 <= j < |arena[x].kids| ensures x < arena[x].kids[j] < |arena| {
      assert Visited(arena, src, x);
    }
  }

  /** `profile`: the root gets the default profile, then the breadth-first
      traversal of `t` (`CompositeBFT`: pop the front handler, `visit` it,
      queue its children) calls `visit`, which pops the matching rich node
      off its own queue. The rich tree read from the root is the mirror of
      `t`, and there is exactly one rich node per handler. */
  method Profile(t: HTree, args: Args) returns (arena: seq<RichNode>)
    ensures |arena| == Size(t) && Forward(arena)
    ensures Read(arena, 0) == Mirror(t, args)
  {
    arena := [RichNode(RootGroup(t.info, args), [])];
    var queue: seq<nat> := [0];
    var hq: seq<HTree> := [t];
    ghost var src: seq<HTree> := [t];
    while hq != []
      invariant InStep(arena, src, hq, queue)
      invariant |arena| > 0 && src[0] == t && arena[0].group == RootGroup(t.info, args)
      invariant Profiled(arena, src, args)
      invariant |arena| + SizeAll(hq) == Size(t) + |hq|
      decreases SizeAll(hq)
    {
      var node := hq[0];
      assert SizeAll(hq) == Size(node) + SizeAll(hq[1..]);
      SizeAllAppend(hq[1..], node.children);
      var arena', queue' := Visit(arena, queue, node, args);
      VisitStep(arena, src, hq, queue, args, arena', queue');
      hq := hq[1..] + node.children;
      arena, queue, src := arena', queue', src + node.children;
    }
    Finished(arena, src, t, args);
  }

  // ---------------------------------------------------------------------
  // Wrapper profiles
  // ---------------------------------------------------------------------

  /** One displayed attribute: its key and its rendered value. */
  type Entry = (string, string)

  /** What a handler wrapper or wrapper container supplies: its class name
      and its display attributes. */
  datatype Wrapped = Wrapped(classname: string, attrs: Dict<string, string>)

  /** The attributes that have no effect on a wrapper, in the order they are
      removed. */
  const IgnoredAttrs: seq<string> := ["exec_ranks", "wrappers", "lifecycle"]

  /** `wrapper_profile` before formatting: the class name and the attributes
      left after popping each ignored one. (`dict_to_key_value_str_list`,
      `concat_format` and `escape` turn this into the shown text.) */
  datatype Listing = Listing(classname: string, attrs: Dict<string, string>)

  /** Pops each key of `ks` in turn, as `dict.pop(k, None)` does. */
  function PopAll(d: Dict<string, string>, ks: seq<string>): Dict<string, string>
    decreases ks
  {
    if ks == [] then d else PopAll(Pop(d, ks[0]), ks[1..])
  }

  function WrapperProfile(w: Wrapped): Listing {
    Listing(w.classname, PopAll(w.attrs, IgnoredAttrs))
  }

  /** The entry tests used below: key differs from `k`, key outside `ks`,
      and both of two tests. */
  function KeyNot(k: string): Entry -> bool {
    (e: Entry) => e.0 != k
  }

  function KeyNotIn(ks: seq<string>): Entry -> bool {
    (e: Entry) => e.0 !in ks
  }

  function Both(p: Entry -> bool, q: Entry -> bool): Entry -> bool {
    (e: Entry) => p(e) && q(e)
  }

  /** `pop(k, None)` keeps exactly the entries whose key is not `k`, in
      order. */
  lemma {:induction false} PopIsFilter(d: Dict<string, string>, k: string)
    ensures Pop(d, k) == Filter(d, KeyNot(k))
  {
    if d != [] {
      PopIsFilter(d[1..], k);
    }
  }

  /** Filtering twice is filtering once by both tests. */
  lemma {:induction false} FilterFilter(d: Dict<string, string>, p: Entry -> bool, q: Entry -> bool)
    ensures Filter(Filter(d, p), q) == Filter(d, Both(p, q))
  {
    if d != [] {
      FilterFilter(d[1..], p, q);
    }
  }

  /** Tests that agree on every entry filter alike. */
  lemma {:induction false} FilterSame(d: Dict<string, string>, p: Entry -> bool, q: Entry -> bool)
    requires forall e :: p(e) == q(e)
    ensures Filter(d, p) == Filter(d, q)
  {
    if d != [] {
      FilterSame(d[1..], p, q);
    }
  }

  /** A test every entry passes keeps the whole dict. */
  lemma {:induction false} FilterKeepsAll(d: Dict<string, string>, p: Entry -> bool)
    requires forall e :: p(e)
    ensures Filter(d, p) == d
  {
    if d != [] {
      FilterKeepsAll(d[1..], p);
    }
  }

  /** Popping each key of `ks` keeps exactly the entries whose key is not
      in `ks`, in order. */
  lemma {:induction false} PopAllIsFilter(d: Dict<string, string>, ks: seq<string>)
    ensures PopAll(d, ks) == Filter(d, KeyNotIn(ks))
    decreases ks
  {
    if ks != [] {
      var k, rest := ks[0], ks[1..];
      PopIsFilter(d, k);
      PopAllIsFilter(Pop(d, k), rest);
      FilterFilter(d, KeyNot(k), KeyNotIn(rest));
      assert forall e :: Both(KeyNot(k), KeyNotIn(rest))(e) == KeyNotIn(ks)(e) by {
        assert ks == [k] + rest;
      }
      FilterSame(d, Both(KeyNot(k), KeyNotIn(rest)), KeyNotIn(ks));
    } else {
      FilterKeepsAll(d, KeyNotIn(ks));
    }
  }

  /** The profile shows exactly the attributes outside `exec_ranks`,
      `wrappers` and `lifecycle`, in their original order. */
  lemma WrapperProfileKeepsOthers(w: Wrapped)
    ensures WrapperProfile(w).classname == w.classname
    ensures WrapperProfile(w).attrs == Filter(w.attrs, KeyNotIn(IgnoredAttrs))
    ensures forall i :: 0 <= i < |WrapperProfile(w).attrs| ==> WrapperProfile(w).attrs[i].0 !in IgnoredAttrs
  {
    PopAllIsFilter(w.attrs, IgnoredAttrs);
  }

  /** One row of the wrapper table: the index cell, the profile shown, and
      whether the row is set in bold. */
  datatype Row = Row(index: string, shown: Listing, bold: bool)

  /** A table: its column headings and its rows, top to bottom. */
  datatype Table = Table(columns: seq<string>, rows: seq<Row>)

  /** `HandlerWrapperContainerProfiler.profile`: a bold header row for the
      container, then one row per wrapper in container order, its index
      written in decimal. */
  method WrapperTable(container: Wrapped, wrappers: seq<Wrapped>) returns (t: Table)
    ensures t.columns == ["index", "wrapper/container"]
    ensures |t.rows| == |wrappers| + 1
    ensures t.rows[0] == Row("Container", WrapperProfile(container), true)
    ensures forall i :: 0 <= i < |wrappers| ==>
      t.rows[i + 1] == Row(Utils.NatToString(i), WrapperProfile(wrappers[i]), false)
  {
    var rows := [Row("Container", WrapperProfile(container), true)];
    var i := 0;
    while i < |wrappers|
      invariant 0 <= i <= |wrappers|
      invariant |rows| == i + 1
      invariant rows[0] == Row("Container", WrapperProfile(container), true)
      invariant forall j :: 0 <= j < i ==>
        rows[j + 1] == Row(Utils.NatToString(j), WrapperProfile(wrappers[j]), false)
    {
      rows := rows + [Row(Utils.NatToString(i), WrapperProfile(wrappers[i]), false)];
      i := i + 1;
    }
    t := Table(["index", "wrapper/container"], rows);
  }

  /** The index cells read back as 0, 1, ..., n - 1 in order, so no two
      wrapper rows share an index. */
  lemma WrapperIndexesReadBack(t: Table, wrappers: seq<Wrapped>, i: nat)
    requires |t.rows| == |wrappers| + 1 && i < |wrappers|
    requires forall j :: 0 <= j < |wrappers| ==>
      t.rows[j + 1] == Row(Utils.NatToString(j), WrapperProfile(wrappers[j]), false)
    ensures Utils.ParseDecimal(t.rows[i + 1].index) == i
  {
    assert t.rows[i + 1].index == Utils.NatToString(i);
    Utils.ParseFormatted(i);
  }
}
