/** `PluginContainer` of `src/torchslime/hooks/plugin.py`: a list of plugins,
    each offering a two-phase `build_<phase>_yield` generator, composed into
    one two-phase generator. The composition is modelled by the trace of
    events it produces. */
module Plugin {
  import opened Build

  /** A plugin hook: a plain plugin with its own two phases, or a nested
      `PluginContainer`. */
  datatype Plugin = Single(name: string) | Group(name: string, plugins: seq<Plugin>)

  /** What can be observed while the build runs: a plugin's generator
      object being created, a plain plugin running the part of its
      generator before or after its `yield`, and the work the outermost
      caller does while every plugin is suspended. */
  datatype Event =
    | Create(plugin: string)
    | Before(plugin: string, phase: Phase)
    | After(plugin: string, phase: Phase)
    | Body(phase: Phase)

  /** The first advance of a plugin's generator (the first `gen()` call of
      `BaseGenerator`). A nested container creates its list of generators
      then, since calling a generator function runs none of its body, and
      advances each of them once. */
  function First(p: Plugin, ph: Phase): seq<Event>
    decreases p, 1
  {
    match p
    case Single(n) => [Before(n, ph)]
    case Group(_, ps) => Creates(ps) + FirstAll(ps, ph)
  }

  function FirstAll(ps: seq<Plugin>, ph: Phase): seq<Event>
    decreases ps, 0
  {
    if ps == [] then [] else First(ps[0], ph) + FirstAll(ps[1..], ph)
  }

  /** The second advance: each nested generator advanced once more, in the
      same list order. */
  function Second(p: Plugin, ph: Phase): seq<Event>
    decreases p, 1
  {
    match p
    case Single(n) => [After(n, ph)]
    case Group(_, ps) => SecondAll(ps, ph)
  }

  function SecondAll(ps: seq<Plugin>, ph: Phase): seq<Event>
    decreases ps, 0
  {
    if ps == [] then [] else Second(ps[0], ph) + SecondAll(ps[1..], ph)
  }

  /** `gen_list = [BaseGenerator(plugin.build_<phase>_yield(ctx)) for plugin in self]`. */
  function Creates(ps: seq<Plugin>): (r: seq<Event>)
    ensures |r| == |ps| && forall i :: 0 <= i < |ps| ==> r[i] == Create(ps[i].name)
  {
    if ps == [] then [] else [Create(ps[0].name)] + Creates(ps[1..])
  }

  /** `PluginContainer.build_<phase>_yield` driven to completion by its
      caller: create the generators, advance each, `yield` to the caller's
      work, advance each again. */
  function Run(ps: seq<Plugin>, ph: Phase): seq<Event> {
    Creates(ps) + FirstAll(ps, ph) + [Body(ph)] + SecondAll(ps, ph)
  }

  // ---------------------------------------------------------------------
  // Which events each phase produces
  // ---------------------------------------------------------------------

  /** An event of a plugin's first phase. */
  predicate EarlyEvent(e: Event) {
    e.Create? || e.Before?
  }

  /** The leaves of the plugin tree in list order. */
  function Leaves(p: Plugin): seq<string>
    decreases p, 1
  {
    match p
    case Single(n) => [n]
    case Group(_, ps) => LeavesAll(ps)
  }

  function LeavesAll(ps: seq<Plugin>): seq<string>
    decreases ps, 0
  {
    if ps == [] then [] else Leaves(ps[0]) + LeavesAll(ps[1..])
  }

  /** The plugins whose `Before` events a trace holds, in order. */
  function BeforeNames(t: seq<Event>): seq<string> {
    if t == [] then []
    else (if t[0].Before? then [t[0].plugin] else []) + BeforeNames(t[1..])
  }

  /** The plugins whose `After` events a trace holds, in order. */
  function AfterNames(t: seq<Event>): seq<string> {
    if t == [] then []
    else (if t[0].After? then [t[0].plugin] else []) + AfterNames(t[1..])
  }

  lemma {:induction false} BeforeNamesAppend(a: seq<Event>, b: seq<Event>)
    ensures BeforeNames(a + b) == BeforeNames(a) + BeforeNames(b)
    decreases |a|
  {
    if a != [] {
      assert (a + b)[0] == a[0] && (a + b)[1..] == a[1..] + b;
      BeforeNamesAppend(a[1..], b);
    } else {
      assert a + b == b;
    }
  }

  lemma {:induction false} AfterNamesAppend(a: seq<Event>, b: seq<Event>)
    ensures AfterNames(a + b) == AfterNames(a) + AfterNames(b)
    decreases |a|
  {
    if a != [] {
      assert (a + b)[0] == a[0] && (a + b)[1..] == a[1..] + b;
      AfterNamesAppend(a[1..], b);
    } else {
      assert a + b == b;
    }
  }

  /** The first phase holds only creations and `Before` events. */
  lemma {:induction false} FirstIsEarly(p: Plugin, ph: Phase)
    ensures forall e :: e in First(p, ph) ==> EarlyEvent(e)
    decreases p, 1
  {
    if p.Group? {
      FirstAllIsEarly(p.plugins, ph);
    }
  }

  lemma {:induction false} FirstAllIsEarly(ps: seq<Plugin>, ph: Phase)
    ensures forall e :: e in FirstAll(ps, ph) ==> EarlyEvent(e)
    decreases ps, 0
  {
    if ps != [] {
      FirstIsEarly(ps[0], ph);
      FirstAllIsEarly(ps[1..], ph);
    }
  }

  /** The second phase holds only `After` events. */
  lemma {:induction false} SecondIsLate(p: Plugin, ph: Phase)
    ensures forall e :: e in Second(p, ph) ==> e.After?
    decreases p, 1
  {
    if p.Group? {
      SecondAllIsLate(p.plugins, ph);
    }
  }

  lemma {:induction false} SecondAllIsLate(ps: seq<Plugin>, ph: Phase)
    ensures forall e :: e in SecondAll(ps, ph) ==> e.After?
    decreases ps, 0
  {
    if ps != [] {
      SecondIsLate(ps[0], ph);
      SecondAllIsLate(ps[1..], ph);
    }
  }

  /** Every plain plugin runs its first part exactly once, in list order
      (nested containers flattened). */
  lemma {:induction false} FirstOrder(p: Plugin, ph: Phase)
    ensures BeforeNames(First(p, ph)) == Leaves(p)
    decreases p, 1
  {
    if p.Group? {
      CreatesNoNames(p.plugins);
      BeforeNamesAppend(Creates(p.plugins), FirstAll(p.plugins, ph));
      FirstAllOrder(p.plugins, ph);
    }
  }

  lemma {:induction false} FirstAllOrder(ps: seq<Plugin>, ph: Phase)
    ensures BeforeNames(FirstAll(ps, ph)) == LeavesAll(ps)
    decreases ps, 0
  {
    if ps != [] {
      FirstOrder(ps[0], ph);
      FirstAllOrder(ps[1..], ph);
      BeforeNamesAppend(First(ps[0], ph), FirstAll(ps[1..], ph));
    }
  }

  /** Every plain plugin runs its second part exactly once, in the same
      order as the first parts: not reversed. */
  lemma {:induction false} SecondOrder(p: Plugin, ph: Phase)
    ensures AfterNames(Second(p, ph)) == Leaves(p)
    decreases p, 1
  {
    if p.Group? {
      SecondAllOrder(p.plugins, ph);
    }
  }

  lemma {:induction false} SecondAllOrder(ps: seq<Plugin>, ph: Phase)
    ensures AfterNames(SecondAll(ps, ph)) == LeavesAll(ps)
    decreases ps, 0
  {
    if ps != [] {
      SecondOrder(ps[0], ph);
      SecondAllOrder(ps[1..], ph);
      AfterNamesAppend(Second(ps[0], ph), SecondAll(ps[1..], ph));
    }
  }

  lemma {:induction false} CreatesNoNames(ps: seq<Plugin>)
    ensures BeforeNames(Creates(ps)) == [] && AfterNames(Creates(ps)) == []
    decreases |ps|
  {
    if ps != [] {
      assert Creates(ps)[1..] == Creates(ps[1..]);
      CreatesNoNames(ps[1..]);
    }
  }

  // ---------------------------------------------------------------------
  // The container's trace
  // ---------------------------------------------------------------------

  /** The container's run: its own plugins' generators are all created
      first, then only first-phase events up to the single `yield`, then
      only second-phase events. */
  lemma RunShape(ps: seq<Plugin>, ph: Phase)
    ensures var t := Run(ps, ph); var y := |Creates(ps) + FirstAll(ps, ph)|;
      && y < |t| && t[y] == Body(ph)
      && (forall i :: 0 <= i < |ps| ==> t[i] == Create(ps[i].name))
      && (forall i :: 0 <= i < y ==> EarlyEvent(t[i]))
      && (forall i :: y < i < |t| ==> t[i].After?)
  {
    var a := Creates(ps);
    var b := FirstAll(ps, ph);
    var c := SecondAll(ps, ph);
    var t := Run(ps, ph);
    FirstAllIsEarly(ps, ph);
    SecondAllIsLate(ps, ph);
    forall i | 0 <= i < |a| + |b| ensures EarlyEvent(t[i]) {
      if i >= |a| {
        assert t[i] == b[i - |a|];
        assert b[i - |a|] in b;
      }
    }
    forall i | |a| + |b| < i < |t| ensures t[i].After? {
      assert t[i] == c[i - |a| - |b| - 1];
      assert c[i - |a| - |b| - 1] in c;
    }
  }

  /** Every first-phase event precedes every second-phase event. */
  lemma EarlyBeforeLate(ps: seq<Plugin>, ph: Phase, i: nat, j: nat)
    requires j < |Run(ps, ph)| && Run(ps, ph)[j].After?
    requires i < |Run(ps, ph)| && EarlyEvent(Run(ps, ph)[i])
    ensures i < j
  {
    RunShape(ps, ph);
  }

  /** The plain plugins run their first parts and their second parts in the
      same order, each exactly once per part. */
  lemma RunOrder(ps: seq<Plugin>, ph: Phase)
    ensures BeforeNames(Run(ps, ph)) == LeavesAll(ps)
    ensures AfterNames(Run(ps, ph)) == LeavesAll(ps)
  {
    var a := Creates(ps);
    var b := FirstAll(ps, ph);
    var c := SecondAll(ps, ph);
    CreatesNoNames(ps);
    FirstAllOrder(ps, ph);
    SecondAllOrder(ps, ph);
    FirstAllIsEarly(ps, ph);
    SecondAllIsLate(ps, ph);
    NoAfterInEarly(b);
    NoBeforeInLate(c);
    BeforeNamesAppend(a, b);
    BeforeNamesAppend(a + b, [Body(ph)]);
    BeforeNamesAppend(a + b + [Body(ph)], c);
    AfterNamesAppend(a, b);
    AfterNamesAppend(a + b, [Body(ph)]);
    AfterNamesAppend(a + b + [Body(ph)], c);
  }

  lemma {:induction false} NoAfterInEarly(t: seq<Event>)
    requires forall e :: e in t ==> EarlyEvent(e)
    ensures AfterNames(t) == []
  {
    if t != [] {
      assert t[0] in t;
      assert forall e :: e in t[1..] ==> e in t;
      NoAfterInEarly(t[1..]);
    }
  }

  lemma {:induction false} NoBeforeInLate(t: seq<Event>)
    requires forall e :: e in t ==> e.After?
    ensures BeforeNames(t) == []
  {
    if t != [] {
      assert t[0] in t;
      assert forall e :: e in t[1..] ==> e in t;
      NoBeforeInLate(t[1..]);
    }
  }

  /** An empty container performs exactly its own `yield`. */
  lemma EmptyRun(ph: Phase)
    ensures Run([], ph) == [Body(ph)]
  {
  }

  // ---------------------------------------------------------------------
  // The three phases
  // ---------------------------------------------------------------------

  /** The event with its phase replaced. */
  function Relabel(e: Event, ph: Phase): Event {
    match e
    case Create(n) => Create(n)
    case Before(n, _) => Before(n, ph)
    case After(n, _) => After(n, ph)
    case Body(_) => Body(ph)
  }

  function RelabelAll(t: seq<Event>, ph: Phase): (r: seq<Event>)
    ensures |r| == |t| && forall i :: 0 <= i < |t| ==> r[i] == Relabel(t[i], ph)
  {
    if t == [] then [] else [Relabel(t[0], ph)] + RelabelAll(t[1..], ph)
  }

  lemma RelabelAppend(a: seq<Event>, b: seq<Event>, ph: Phase)
    ensures RelabelAll(a + b, ph) == RelabelAll(a, ph) + RelabelAll(b, ph)
  {
    var l := RelabelAll(a + b, ph);
    var r := RelabelAll(a, ph) + RelabelAll(b, ph);
    forall i | 0 <= i < |l| ensures l[i] == r[i] {
      if i < |a| { assert (a + b)[i] == a[i]; } else { assert (a + b)[i] == b[i - |a|]; }
    }
  }

  /** Creation events carry no phase. */
  lemma CreatesRelabel(ps: seq<Plugin>, q: Phase)
    ensures RelabelAll(Creates(ps), q) == Creates(ps)
  {
  }

  lemma {:induction false} FirstRelabel(p: Plugin, ph: Phase, q: Phase)
    ensures RelabelAll(First(p, ph), q) == First(p, q)
    decreases p, 1
  {
    if p.Group? {
      var ps := p.plugins;
      RelabelAppend(Creates(ps), FirstAll(ps, ph), q);
      FirstAllRelabel(ps, ph, q);
    }
  }

  lemma {:induction false} FirstAllRelabel(ps: seq<Plugin>, ph: Phase, q: Phase)
    ensures RelabelAll(FirstAll(ps, ph), q) == FirstAll(ps, q)
    decreases ps, 0
  {
    if ps != [] {
      RelabelAppend(First(ps[0], ph), FirstAll(ps[1..], ph), q);
      FirstRelabel(ps[0], ph, q);
      FirstAllRelabel(ps[1..], ph, q);
    }
  }

  lemma {:induction false} SecondRelabel(p: Plugin, ph: Phase, q: Phase)
    ensures RelabelAll(Second(p, ph), q) == Second(p, q)
    decreases p, 1
  {
    if p.Group? {
      SecondAllRelabel(p.plugins, ph, q);
    }
  }

  lemma {:induction false} SecondAllRelabel(ps: seq<Plugin>, ph: Phase, q: Phase)
    ensures RelabelAll(SecondAll(ps, ph), q) == SecondAll(ps, q)
    decreases ps, 0
  {
    if ps != [] {
      RelabelAppend(Second(ps[0], ph), SecondAll(ps[1..], ph), q);
      SecondRelabel(ps[0], ph, q);
      SecondAllRelabel(ps[1..], ph, q);
    }
  }

  /** `build_train_yield`, `build_eval_yield` and `build_predict_yield`
      compose identically: the runs differ only in the phase they carry. */
  lemma SamePhasesAllRuns(ps: seq<Plugin>, ph: Phase, q: Phase)
    ensures RelabelAll(Run(ps, ph), q) == Run(ps, q)
  {
    var a := Creates(ps);
    var b := FirstAll(ps, ph);
    var c := SecondAll(ps, ph);
    RelabelAppend(a, b, q);
    CreatesRelabel(ps, q);
    FirstAllRelabel(ps, ph, q);
    var ab := a + FirstAll(ps, q);
    assert RelabelAll(a + b, q) == ab;
    RelabelAppend(a + b, [Body(ph)], q);
    assert RelabelAll(a + b + [Body(ph)], q) == ab + [Body(q)];
    RelabelAppend(a + b + [Body(ph)], c, q);
    SecondAllRelabel(ps, ph, q);
  }
}
