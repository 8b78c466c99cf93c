/** Running a handler tree: `Handler.__call__`, `HandlerContainer.handle`
    and `HandlerContainer.__call__` of `torchslime/core/handlers/__init__.py`.
    The control-flow exceptions become a returned signal; the trace records
    every handler whose `handle` runs, in order. */
module Signals {
  import opened Base
  import opened Handlers
  import opened Tree

  /** What a call hands back to its caller. `Error` is a plain exception that
      no handler has wrapped yet; it never leaves a handler's `__call__`. */
  datatype Signal =
    | Ok
    | Continue
    | Break
    | Terminate(origin: Option<Ref>)
    | Failure(node: Ref)
    | Error

  /** What the body of a plain handler does: finish, raise one of the
      control-flow exceptions (a terminate may already carry its raising
      handler), re-raise an already wrapped `HandlerException`, or raise any
      other exception. */
  datatype Outcome =
    | Normal
    | RaiseContinue
    | RaiseBreak
    | RaiseTerminate(preset: Option<Ref>)
    | RaiseWrapped(node: Ref)
    | RaiseOther

  /** The outside world of a call: which handlers are eligible to run in this
      process (the `exec_ranks` check inside the launch hook, not part of this
      model) and what each plain handler's `handle` does. */
  datatype Env = Env(eligible: Label -> bool, body: Label -> Outcome)

  /** A call's signal and the handlers whose `handle` ran. */
  datatype Run = Run(sig: Signal, trace: seq<Label>)

  function Raise(o: Outcome): Signal {
    match o
    case Normal => Ok
    case RaiseContinue => Continue
    case RaiseBreak => Break
    case RaiseTerminate(h) => Terminate(h)
    case RaiseWrapped(n) => Failure(n)
    case RaiseOther => Error
  }

  /** The `except` clauses of `Handler.__call__` for the handler `self`: an
      unstamped terminate gets `self` as its origin, a plain exception is
      wrapped with `self`, everything else passes unchanged. */
  function Stamp(s: Signal, self: Ref): (r: Signal)
    ensures r != Error
    ensures s.Terminate? && s.origin.Some? ==> r == s
    ensures s == Terminate(None) ==> r == Terminate(Some(self))
    ensures s == Error ==> r == Failure(self)
    ensures !s.Terminate? && s != Error ==> r == s
  {
    match s
    case Terminate(None) => Terminate(Some(self))
    case Error => Failure(self)
    case _ => s
  }

  /** `handler(ctx)`: an ineligible handler does nothing; otherwise its
      `handle` runs (the body for a plain handler, the children for a
      container), the signal is stamped, and a container swallows `Break`. */
  function Invoke(t: HTree, env: Env): Run
    decreases t
  {
    if !env.eligible(t.info) then Run(Ok, [])
    else if IsContainerKind(t.info.kind) then
      var h := HandleAll(t.children, env);
      var s := Stamp(h.sig, t.info.ref);
      Run(if s == Break then Ok else s, [t.info] + h.trace)
    else
      Run(Stamp(Raise(env.body(t.info)), t.info.ref), [t.info])
  }

  /** `HandlerContainer.handle`: calls the children in order; `Continue`
      ends the loop normally, any other non-`Ok` signal ends it and
      propagates. */
  function HandleAll(ts: seq<HTree>, env: Env): Run
    decreases ts
  {
    if ts == [] then Run(Ok, [])
    else
      var first := Invoke(ts[0], env);
      if first.sig == Continue then Run(Ok, first.trace)
      else if first.sig != Ok then first
      else
        var rest := HandleAll(ts[1..], env);
        Run(rest.sig, first.trace + rest.trace)
  }

  // ---------------------------------------------------------------------
  // Absorption
  // ---------------------------------------------------------------------

  /** No call lets a plain exception escape unwrapped, and a container's
      call never hands `Continue` or `Break` to its caller. */
  lemma {:induction false} InvokeAbsorbs(t: HTree, env: Env)
    ensures Invoke(t, env).sig != Error
    ensures IsContainerKind(t.info.kind) ==> Invoke(t, env).sig != Continue && Invoke(t, env).sig != Break
    decreases t
  {
    if env.eligible(t.info) && IsContainerKind(t.info.kind) {
      HandleAllAbsorbs(t.children, env);
    }
  }

  /** The child loop swallows `Continue` and lets no plain exception out. */
  lemma {:induction false} HandleAllAbsorbs(ts: seq<HTree>, env: Env)
    ensures HandleAll(ts, env).sig != Error && HandleAll(ts, env).sig != Continue
    decreases ts
  {
    if ts != [] {
      InvokeAbsorbs(ts[0], env);
      HandleAllAbsorbs(ts[1..], env);
    }
  }

  // ---------------------------------------------------------------------
  // The handler a terminate or failure names
  // ---------------------------------------------------------------------

  /** `l`'s body raised `s` and `s` is what reaches the callers above it: a
      terminate is stamped with `l` unless it already named a handler, a
      plain exception is wrapped with `l`. */
  predicate RaisedBy(s: Signal, l: Label, env: Env) {
    && env.eligible(l) && !IsContainerKind(l.kind)
    && match s
       case Terminate(o) =>
         || (env.body(l) == RaiseTerminate(None) && o == Some(l.ref))
         || (env.body(l) == RaiseTerminate(o) && o.Some?)
       case Failure(n) =>
         || (env.body(l) == RaiseOther && n == l.ref)
         || env.body(l) == RaiseWrapped(n)
       case _ => false
  }

  /** A terminate or failure leaving any call was raised by the last
      handler that ran, and the innermost call stamped it: no outer call
      overwrites the origin. */
  lemma {:induction false} FatalFromLastRun(t: HTree, env: Env)
    ensures var r := Invoke(t, env);
      (r.sig.Terminate? || r.sig.Failure?) ==> r.trace != [] && RaisedBy(r.sig, r.trace[|r.trace| - 1], env)
    decreases t
  {
    if env.eligible(t.info) && IsContainerKind(t.info.kind) {
      HandleAllFatal(t.children, env);
      var h := HandleAll(t.children, env);
      if h.sig.Terminate? || h.sig.Failure? {
        assert ([t.info] + h.trace)[|h.trace|] == h.trace[|h.trace| - 1];
      }
      HandleAllAbsorbs(t.children, env);
    }
  }

  lemma {:induction false} HandleAllFatal(ts: seq<HTree>, env: Env)
    ensures var r := HandleAll(ts, env);
      (r.sig.Terminate? || r.sig.Failure?) ==> r.trace != [] && RaisedBy(r.sig, r.trace[|r.trace| - 1], env)
    decreases ts
  {
    if ts != [] {
      FatalFromLastRun(ts[0], env);
      HandleAllFatal(ts[1..], env);
    }
  }

  // ---------------------------------------------------------------------
  // Runs without signals
  // ---------------------------------------------------------------------

  /** Pre-order restricted to eligible handlers: an ineligible handler and
      everything below it are skipped; a plain handler's children are never
      visited. */
  function Calls(t: HTree, eligible: Label -> bool): seq<Label>
    decreases t
  {
    if !eligible(t.info) then []
    else if IsContainerKind(t.info.kind) then [t.info] + CallsAll(t.children, eligible)
    else [t.info]
  }

  function CallsAll(ts: seq<HTree>, eligible: Label -> bool): seq<Label>
    decreases ts
  {
    if ts == [] then [] else Calls(ts[0], eligible) + CallsAll(ts[1..], eligible)
  }

  /** Only containers have children. */
  predicate Shaped(t: HTree)
    decreases t
  {
    && (!IsContainerKind(t.info.kind) ==> t.children == [])
    && forall i :: 0 <= i < |t.children| ==> Shaped(t.children[i])
  }

  /** When every body that runs finishes normally, a call ends `Ok` after
      running exactly the eligible handlers in pre-order. */
  lemma {:induction false} QuietRun(t: HTree, env: Env)
    requires forall l :: env.eligible(l) ==> env.body(l) == Normal
    ensures Invoke(t, env) == Run(Ok, Calls(t, env.eligible))
    decreases t
  {
    if env.eligible(t.info) && IsContainerKind(t.info.kind) {
      QuietRunAll(t.children, env);
    }
  }

  lemma {:induction false} QuietRunAll(ts: seq<HTree>, env: Env)
    requires forall l :: env.eligible(l) ==> env.body(l) == Normal
    ensures HandleAll(ts, env) == Run(Ok, CallsAll(ts, env.eligible))
    decreases ts
  {
    if ts != [] {
      QuietRun(ts[0], env);
      QuietRunAll(ts[1..], env);
    }
  }

  /** With every handler eligible, the quiet run visits the whole tree in
      pre-order. */
  lemma {:induction false} AllEligibleIsPreOrder(t: HTree, eligible: Label -> bool)
    requires Shaped(t) && forall l :: eligible(l)
    ensures Calls(t, eligible) == PreOrder(t)
    decreases t
  {
    AllEligibleIsPreOrderAll(t.children, eligible);
  }

  lemma {:induction false} AllEligibleIsPreOrderAll(ts: seq<HTree>, eligible: Label -> bool)
    requires (forall i :: 0 <= i < |ts| ==> Shaped(ts[i])) && forall l :: eligible(l)
    ensures CallsAll(ts, eligible) == PreOrderAll(ts)
    decreases ts
  {
    if ts != [] {
      AllEligibleIsPreOrder(ts[0], eligible);
      AllEligibleIsPreOrderAll(ts[1..], eligible);
    }
  }

  /** An ineligible child is as if absent from its container. */
  lemma {:induction false} IneligibleIsAbsent(ts: seq<HTree>, i: nat, x: HTree, env: Env)
    requires i <= |ts| && !env.eligible(x.info)
    ensures HandleAll(ts[..i] + [x] + ts[i..], env) == HandleAll(ts, env)
    decreases i
  {
    var with := ts[..i] + [x] + ts[i..];
    if i == 0 {
      assert with[0] == x && with[1..] == ts;
    } else {
      assert with[0] == ts[0];
      assert with[1..] == ts[1..][..i - 1] + [x] + ts[1..][i - 1..];
      IneligibleIsAbsent(ts[1..], i - 1, x, env);
    }
  }

  // ---------------------------------------------------------------------
  // Worked scenarios
  // ---------------------------------------------------------------------

  function Leaf(r: Ref, id: string): HTree {
    HNode(Label(r, Forward, id), [])
  }

  function Box(r: Ref, id: string, ts: seq<HTree>): HTree {
    HNode(Label(r, Container, id), ts)
  }

  /** Everyone is eligible and only handler `r` raises, with `o`. */
  function OnlyRaises(r: Ref, o: Outcome): Env {
    Env((l: Label) => true, (l: Label) => if l.ref == r then o else Normal)
  }

  /** `Container[B, C]` with `B` raising `Continue` or `Break`: `C` is
      skipped and the container completes normally. */
  lemma InnerSignalScenario(o: Outcome)
    requires o == RaiseContinue || o == RaiseBreak
    ensures var b := Leaf(3, "B"); var inner := Box(2, "inner", [b, Leaf(4, "C")]);
      Invoke(inner, OnlyRaises(3, o)) == Run(Ok, [inner.info, b.info])
  {
    var b := Leaf(3, "B"); var c := Leaf(4, "C");
    var env := OnlyRaises(3, o);
    assert HandleAll([b, c], env) == Run(if o == RaiseContinue then Ok else Break, [b.info]);
  }

  /** ... so the loop over `[Container[B, C], D]` goes on to `D`. */
  lemma TailSignalScenario(o: Outcome)
    requires o == RaiseContinue || o == RaiseBreak
    ensures var b := Leaf(3, "B"); var inner := Box(2, "inner", [b, Leaf(4, "C")]);
      HandleAll([inner, Leaf(5, "D")], OnlyRaises(3, o)) == Run(Ok, [inner.info, b.info, Leaf(5, "D").info])
  {
    var b := Leaf(3, "B"); var d := Leaf(5, "D");
    var inner := Box(2, "inner", [b, Leaf(4, "C")]);
    var env := OnlyRaises(3, o);
    InnerSignalScenario(o);
    assert HandleAll([d], env) == Run(Ok, [d.info]);
    assert [inner, d][1..] == [d];
  }

  /** `Container[A, Container[B, C], D]` with `B` raising `Continue` or
      `Break`: `C` is skipped, the inner container completes normally and
      `D` still runs. */
  lemma SiblingSignalScenario(o: Outcome)
    requires o == RaiseContinue || o == RaiseBreak
    ensures var a := Leaf(1, "A"); var b := Leaf(3, "B"); var c := Leaf(4, "C"); var d := Leaf(5, "D");
      var inner := Box(2, "inner", [b, c]);
      var outer := Box(0, "outer", [a, inner, d]);
      Invoke(outer, OnlyRaises(3, o)) == Run(Ok, [outer.info, a.info, inner.info, b.info, d.info])
  {
    var a := Leaf(1, "A"); var b := Leaf(3, "B"); var c := Leaf(4, "C"); var d := Leaf(5, "D");
    var inner := Box(2, "inner", [b, c]);
    var env := OnlyRaises(3, o);
    TailSignalScenario(o);
    assert [a, inner, d][1..] == [inner, d];
    assert HandleAll([a, inner, d], env) == Run(Ok, [a.info] + [inner.info, b.info, d.info]);
  }

  /** A terminate raised three containers deep reaches the top still naming
      the handler that raised it. */
  lemma DeepTerminateScenario()
    ensures var x := Leaf(3, "x");
      var top := Box(0, "top", [Box(1, "mid", [Box(2, "low", [x])])]);
      Invoke(top, OnlyRaises(3, RaiseTerminate(None))).sig == Terminate(Some(3))
  {
    var x := Leaf(3, "x");
    var env := OnlyRaises(3, RaiseTerminate(None));
    assert Invoke(x, env).sig == Terminate(Some(3));
    assert HandleAll([x], env).sig == Terminate(Some(3));
    var low := Box(2, "low", [x]);
    assert HandleAll([low], env).sig == Terminate(Some(3));
    var mid := Box(1, "mid", [low]);
    assert HandleAll([mid], env).sig == Terminate(Some(3));
  }
}
