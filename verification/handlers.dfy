/** The handler tree of `torchslime/core/handlers/__init__.py`: handlers are
    identity-keyed records in a store, containers own an ordered list of
    child references, and every handler keeps a non-owning back-link to its
    container. This module holds the store, the parent-link invariant, the
    container's mutation primitives and the node-relative `*_self` helpers. */
module Handlers {
  import opened Base
  import Utils

  /** Object identity of a handler. */
  type Ref = nat

  /** The handler classes the model distinguishes; `isinstance` becomes `IsA`. */
  datatype Kind =
    | Handler | Container | EpochIteration | Iteration | Optimizer
    | State | Dataset | AverageInit | Forward | Loss | Backward | Metrics
    | Meter | Average | Display | LRDecay | GatherAverage

  /** Classes whose instances are `HandlerContainer`s. */
  predicate IsContainerKind(k: Kind) {
    k == Container || k == EpochIteration || k == Iteration || k == Optimizer
  }

  /** `isinstance(h, cls)` for a handler of kind `k`: every kind is a
      `Handler`, the iteration kinds are containers and an averaging stage is
      a meter. */
  predicate IsA(k: Kind, cls: Kind) {
    || k == cls
    || cls == Handler
    || (cls == Container && IsContainerKind(k))
    || (cls == Meter && k == Average)
  }

  /** `isinstance(h, classes)` with a tuple of classes. */
  predicate IsInstance(k: Kind, classes: set<Kind>) {
    || k in classes
    || Handler in classes
    || (Container in classes && IsContainerKind(k))
    || (Meter in classes && k == Average)
  }

  /** The closed form above is `isinstance` with a tuple: some listed class
      is one the handler is an instance of. */
  lemma IsInstanceAny(k: Kind, classes: set<Kind>)
    ensures IsInstance(k, classes) <==> exists cls :: cls in classes && IsA(k, cls)
  {
    if IsInstance(k, classes) {
      if k in classes {
        assert IsA(k, k);
      } else if Handler in classes {
        assert IsA(k, Handler);
      } else if Container in classes && IsContainerKind(k) {
        assert IsA(k, Container);
      } else {
        assert IsA(k, Meter);
      }
    }
  }

  /** One handler object: its class, id, children (empty for a plain handler)
      and the back-link to the container holding it. */
  datatype Node = Node(kind: Kind, id: string, children: seq<Ref>, parent: Option<Ref>)

  /** What the logger would be told. */
  datatype Warning =
    | DuplicateParent(node: Ref)      // set_parent on a node that already has one
    | StaleParent(node: Ref)          // _verify_parent failed
    | DuplicateResult(node: Ref)      // _append_search_result saw the node again
    | MultipleMatches                 // get_by_id found a second match

  /** All handler objects, the warnings logged so far, the next created
      identity and the class-level id counter `Handler._handler_id_gen`. */
  datatype World = World(nodes: map<Ref, Node>, warnings: seq<Warning>, next: Ref, idGen: Utils.Count)

  /** Every identity in use is below the allocation mark. */
  predicate Allocated(w: World) {
    forall r :: r in w.nodes ==> r < w.next
  }

  /** `c` is a container whose children are all handler objects. */
  predicate IsContainerRef(w: World, c: Ref) {
    && c in w.nodes && IsContainerKind(w.nodes[c].kind)
    && forall x :: x in w.nodes[c].children ==> x in w.nodes
  }

  /** `x` is a handler whose parent, if any, is a container: the shape every
      `set_parent` call in the source produces. */
  predicate Located(w: World, x: Ref) {
    x in w.nodes && (w.nodes[x].parent.Some? ==> IsContainerRef(w, w.nodes[x].parent.value))
  }

  // ---------------------------------------------------------------------
  // The parent-link invariant
  // ---------------------------------------------------------------------

  /** The structural invariant the container maintains: a child's parent is
      the container holding it, a parent link points at a container that
      holds the node, no container holds a node twice, and only containers
      have children. */
  predicate WellLinked(w: World) {
    ChildrenPointBack(w) && ParentsHold(w) && NoRepeats(w) && LeavesEmpty(w)
  }

  predicate ChildrenPointBack(w: World) {
    forall c, x :: c in w.nodes && x in w.nodes[c].children ==> x in w.nodes && w.nodes[x].parent == Some(c)
  }

  predicate ParentsHold(w: World) {
    forall x :: x in w.nodes && w.nodes[x].parent.Some? ==>
      w.nodes[x].parent.value in w.nodes && x in w.nodes[w.nodes[x].parent.value].children
  }

  predicate NoRepeats(w: World) {
    forall c :: c in w.nodes ==> Distinct(w.nodes[c].children)
  }

  predicate LeavesEmpty(w: World) {
    forall c :: c in w.nodes && !IsContainerKind(w.nodes[c].kind) ==> w.nodes[c].children == []
  }

  /** A node no container holds and that has no parent: the only kind of node
      whose insertion keeps the invariant. */
  predicate Free(w: World, h: Ref) {
    h in w.nodes && w.nodes[h].parent.None?
  }

  /** The parent a node has after container `c` changed its child list to
      `kids`: newcomers point at `c`, dropped children are cleared,
      everyone else keeps theirs. */
  function RelinkedParent(w: World, c: Ref, kids: seq<Ref>, x: Ref): Option<Ref>
    requires x in w.nodes && c in w.nodes
  {
    if x in kids then Some(c)
    else if x in w.nodes[c].children then None
    else w.nodes[x].parent
  }

  /** The shape of every mutation primitive: container `c` gets a new child
      list and the parent links follow `RelinkedParent`; nothing else changes. */
  predicate Relinked(w: World, w': World, c: Ref) {
    && w'.nodes.Keys == w.nodes.Keys
    && c in w.nodes
    && (forall x :: x in w.nodes ==> w'.nodes[x].kind == w.nodes[x].kind && w'.nodes[x].id == w.nodes[x].id)
    && (forall x :: x in w.nodes && x != c ==> w'.nodes[x].children == w.nodes[x].children)
    && (forall x :: x in w.nodes ==> w'.nodes[x].parent == RelinkedParent(w, c, w'.nodes[c].children, x))
  }

  /** Newcomers to `c` must have been free or already held by `c`. */
  predicate NewcomersFree(w: World, w': World, c: Ref)
    requires Relinked(w, w', c)
  {
    forall x :: x in w'.nodes[c].children ==>
      x in w.nodes && (x in w.nodes[c].children || w.nodes[x].parent.None?)
  }

  lemma RelinkChildrenPointBack(w: World, w': World, c: Ref)
    requires ChildrenPointBack(w) && Relinked(w, w', c) && NewcomersFree(w, w', c)
    ensures ChildrenPointBack(w')
  {
    forall d, x | d in w'.nodes && x in w'.nodes[d].children
      ensures x in w'.nodes && w'.nodes[x].parent == Some(d)
    {
      if d != c {
        OtherChildPointsBack(w, w', c, d, x);
      }
    }
  }

  /** A child of an untouched container is neither a newcomer to `c` nor one
      of its former children, so its link survives. */
  lemma OtherChildPointsBack(w: World, w': World, c: Ref, d: Ref, x: Ref)
    requires ChildrenPointBack(w) && Relinked(w, w', c) && NewcomersFree(w, w', c)
    requires d in w.nodes && d != c && x in w.nodes[d].children
    ensures x in w'.nodes && w'.nodes[x].parent == Some(d)
  {
    assert w.nodes[x].parent == Some(d);
    assert x !in w.nodes[c].children;
    assert x !in w'.nodes[c].children;
  }

  lemma RelinkParentsHold(w: World, w': World, c: Ref)
    requires WellLinked(w) && Relinked(w, w', c)
    ensures ParentsHold(w')
  {
    forall x | x in w'.nodes && w'.nodes[x].parent.Some?
      ensures w'.nodes[x].parent.value in w'.nodes && x in w'.nodes[w'.nodes[x].parent.value].children
    {
      if x !in w'.nodes[c].children {
        assert x !in w.nodes[c].children;
        assert w'.nodes[x].parent == w.nodes[x].parent;
        assert w.nodes[x].parent.value != c;
      }
    }
  }

  /** When the newcomers were free and the new child list has no repeats,
      the invariant survives the change. */
  lemma RelinkKeepsLinks(w: World, w': World, c: Ref)
    requires WellLinked(w) && Relinked(w, w', c) && NewcomersFree(w, w', c)
    requires IsContainerKind(w.nodes[c].kind) || w'.nodes[c].children == []
    requires Distinct(w'.nodes[c].children)
    ensures WellLinked(w')
  {
    RelinkChildrenPointBack(w, w', c);
    RelinkParentsHold(w, w', c);
  }

  // ---------------------------------------------------------------------
  // Construction and the parent accessors
  // ---------------------------------------------------------------------

  /** `set_parent`: warns when the node already has a parent, then overwrites it
      (no rejection). */
  function SetParent(w: World, x: Ref, p: Ref): (r: World)
    requires x in w.nodes
    ensures r.nodes == w.nodes[x := w.nodes[x].(parent := Some(p))]
    ensures r.warnings == w.warnings + (if w.nodes[x].parent.Some? then [DuplicateParent(x)] else [])
    ensures r.next == w.next && r.idGen == w.idGen
  {
    var warned := if w.nodes[x].parent.Some? then w.warnings + [DuplicateParent(x)] else w.warnings;
    w.(nodes := w.nodes[x := w.nodes[x].(parent := Some(p))], warnings := warned)
  }

  /** `del_parent`. */
  function DelParent(w: World, x: Ref): World
    requires x in w.nodes
  {
    w.(nodes := w.nodes[x := w.nodes[x].(parent := None)])
  }

  /** `Handler.__init__`: the id is the given one, or `handler_<n>` where `n`
      is read from the class counter only when no id is given; the new node
      has no parent and no children. */
  function NewHandler(w: World, kind: Kind, id: Option<string>): (r: (World, Ref))
    requires Allocated(w)
    ensures r.1 == w.next && r.1 !in w.nodes
    ensures r.1 in r.0.nodes && r.0.nodes == w.nodes[r.1 := Node(kind, r.0.nodes[r.1].id, [], None)]
    ensures r.0.next == w.next + 1 && r.0.warnings == w.warnings && Allocated(r.0)
    ensures id.Some? ==> r.0.nodes[r.1].id == id.value && r.0.idGen == w.idGen
    ensures id.None? ==> r.0.nodes[r.1].id == Utils.DefaultHandlerId(w.idGen.value)
                         && r.0.idGen.value == w.idGen.value + 1
  {
    var read := Utils.Read(w.idGen);
    var name := if id.Some? then id.value else Utils.DefaultHandlerId(read.0);
    var gen := if id.Some? then w.idGen else read.1;
    var created := w.next;
    (w.(nodes := w.nodes[created := Node(kind, name, [], None)], next := w.next + 1, idGen := gen), created)
  }

  /** The nodes of `w` that have a parent. */
  function Parented(w: World): set<Ref> {
    set x | x in w.nodes && w.nodes[x].parent.Some?
  }

  /** A store in which the nodes of `gone` lost their parents and every
      other node kept its own has exactly the other parented nodes. */
  lemma ParentedLoses(w: World, w': World, gone: seq<Ref>)
    requires w'.nodes.Keys == w.nodes.Keys
    requires forall x :: x in gone ==> x in w.nodes && w'.nodes[x].parent.None?
    requires forall x :: x in w.nodes && x !in gone ==> w'.nodes[x].parent == w.nodes[x].parent
    ensures Parented(w') == Parented(w) - (set x | x in gone)
  {
    forall y ensures y in Parented(w') <==> y in Parented(w) - (set x | x in gone) {
      if y in gone {
        assert y !in Parented(w');
      }
    }
  }

  /** The duplicate-parent warnings logged when the parents of `hs` are set
      in turn and the nodes of `held` start out with a parent: one for each
      entry that still has a parent when its turn comes, because it started
      with one or an earlier entry is the same node. */
  function ParentWarnings(hs: seq<Ref>, held: set<Ref>): seq<Warning>
    decreases |hs|
  {
    if hs == [] then []
    else (if hs[0] in held then [DuplicateParent(hs[0])] else []) + ParentWarnings(hs[1..], held + {hs[0]})
  }

  /** Distinct nodes that all start without a parent log nothing. */
  lemma {:induction false} ParentWarningsQuiet(hs: seq<Ref>, held: set<Ref>)
    requires Distinct(hs) && forall h :: h in hs ==> h !in held
    ensures ParentWarnings(hs, held) == []
    decreases |hs|
  {
    if hs != [] {
      assert forall j :: 0 < j < |hs| ==> hs[j] != hs[0];
      assert forall h :: h in hs[1..] ==> h !in held + {hs[0]};
      assert Distinct(hs[1..]) by {
        forall i, j | 0 <= i < j < |hs[1..]| ensures hs[1..][i] != hs[1..][j] {
          assert hs[1..][i] == hs[i + 1] && hs[1..][j] == hs[j + 1];
        }
      }
      ParentWarningsQuiet(hs[1..], held + {hs[0]});
    }
  }

  /** A node given twice logs a warning on its second turn, even when it
      started without a parent. */
  lemma RepeatWarns(h: Ref, held: set<Ref>)
    requires h !in held
    ensures ParentWarnings([h, h], held) == [DuplicateParent(h)]
  {
    assert [h, h][1..] == [h] && [h][1..] == [];
    assert ParentWarnings([h], held + {h}) == [DuplicateParent(h)] + ParentWarnings([], held + {h});
    assert ParentWarnings([h, h], held) == [] + ParentWarnings([h], held + {h});
  }

  /** The node map once the parent of each node of `hs` is set to `p`, in
      order. */
  function ParentsSet(nodes: map<Ref, Node>, hs: seq<Ref>, p: Ref): (r: map<Ref, Node>)
    requires forall h :: h in hs ==> h in nodes
    ensures r.Keys == nodes.Keys
    ensures forall x :: x in hs ==> r[x] == nodes[x].(parent := Some(p))
    ensures forall x :: x in nodes && x !in hs ==> r[x] == nodes[x]
    decreases |hs|
  {
    if hs == [] then nodes
    else ParentsSet(nodes[hs[0] := nodes[hs[0]].(parent := Some(p))], hs[1..], p)
  }

  /** What `set_parent` logs along the same walk: a duplicate-parent warning
      whenever the node at hand already has a parent. */
  function ParentLog(nodes: map<Ref, Node>, hs: seq<Ref>, p: Ref): seq<Warning>
    requires forall h :: h in hs ==> h in nodes
    decreases |hs|
  {
    if hs == [] then []
    else
      (if nodes[hs[0]].parent.Some? then [DuplicateParent(hs[0])] else [])
      + ParentLog(nodes[hs[0] := nodes[hs[0]].(parent := Some(p))], hs[1..], p)
  }

  /** The walk logs exactly the warnings `ParentWarnings` predicts from the
      nodes that start out with a parent (`held`). */
  lemma {:induction false} ParentLogWarnings(nodes: map<Ref, Node>, hs: seq<Ref>, p: Ref, held: set<Ref>)
    requires forall h :: h in hs ==> h in nodes && (h in held <==> nodes[h].parent.Some?)
    ensures ParentLog(nodes, hs, p) == ParentWarnings(hs, held)
    decreases |hs|
  {
    if hs != [] {
      var next := nodes[hs[0] := nodes[hs[0]].(parent := Some(p))];
      ParentLogWarnings(next, hs[1..], p, held + {hs[0]});
    }
  }

  /** Sets the parent of each node of `hs`, in order (the loop at the end of
      `HandlerContainer.__init__` and of the slice form of `__setitem__`). */
  function SetParents(w: World, hs: seq<Ref>, p: Ref): (r: World)
    requires forall h :: h in hs ==> h in w.nodes
    ensures r.nodes.Keys == w.nodes.Keys && r.next == w.next && r.idGen == w.idGen
    ensures forall x :: x in hs ==> r.nodes[x] == w.nodes[x].(parent := Some(p))
    ensures forall x :: x in w.nodes && x !in hs ==> r.nodes[x] == w.nodes[x]
    ensures r.warnings == w.warnings + ParentWarnings(hs, Parented(w))
    ensures (forall h :: h in hs ==> w.nodes[h].parent.None?) && Distinct(hs) ==> r.warnings == w.warnings
  {
    ParentLogWarnings(w.nodes, hs, p, Parented(w));
    assert (forall h :: h in hs ==> w.nodes[h].parent.None?) && Distinct(hs) ==> ParentWarnings(hs, Parented(w)) == [] by {
      if (forall h :: h in hs ==> w.nodes[h].parent.None?) && Distinct(hs) {
        ParentWarningsQuiet(hs, Parented(w));
      }
    }
    w.(nodes := ParentsSet(w.nodes, hs, p), warnings := w.warnings + ParentLog(w.nodes, hs, p))
  }

  /** Clears the parent of each node of `hs`. */
  function DelParents(w: World, hs: seq<Ref>): (r: World)
    requires forall h :: h in hs ==> h in w.nodes
    ensures r.nodes.Keys == w.nodes.Keys && r.next == w.next && r.idGen == w.idGen && r.warnings == w.warnings
    ensures forall x :: x in hs ==> r.nodes[x] == w.nodes[x].(parent := None)
    ensures forall x :: x in w.nodes && x !in hs ==> r.nodes[x] == w.nodes[x]
    decreases |hs|
  {
    if hs == [] then w else DelParents(DelParent(w, hs[0]), hs[1..])
  }

  /** The handlers that survive the constructor's filter: `None` and NOTHING
      entries are dropped. */
  function Present(hs: seq<Option<Ref>>): (r: seq<Ref>)
    ensures |r| <= |hs|
    ensures forall x :: x in r <==> Some(x) in hs
  {
    if hs == [] then []
    else if hs[0].None? then Present(hs[1..])
    else [hs[0].value] + Present(hs[1..])
  }

  /** The filter works piecewise, so the kept handlers keep their order. */
  lemma {:induction false} PresentAppend(a: seq<Option<Ref>>, b: seq<Option<Ref>>)
    ensures Present(a + b) == Present(a) + Present(b)
  {
    if a == [] {
      assert a + b == b;
    } else {
      assert (a + b)[0] == a[0];
      assert (a + b)[1..] == a[1..] + b;
      PresentAppend(a[1..], b);
    }
  }

  /** `HandlerContainer(handlers, _id=id)`: runs `Handler.__init__`, keeps the
      present handlers in order and sets each one's parent to the new container. */
  function NewContainer(w: World, kind: Kind, id: Option<string>, handlers: seq<Option<Ref>>): (r: (World, Ref))
    requires Allocated(w) && IsContainerKind(kind)
    requires forall x :: Some(x) in handlers ==> x in w.nodes
    ensures r.1 == w.next && r.1 !in w.nodes && Allocated(r.0) && r.0.next == w.next + 1
    ensures r.0.nodes.Keys == w.nodes.Keys + {r.1}
    ensures r.0.nodes[r.1].kind == kind && r.0.nodes[r.1].parent.None?
    ensures r.0.nodes[r.1].children == Present(handlers)
    ensures forall x :: Some(x) in handlers ==> r.0.nodes[x] == w.nodes[x].(parent := Some(r.1))
    ensures forall x :: x in w.nodes && Some(x) !in handlers ==> r.0.nodes[x] == w.nodes[x]
    ensures id.Some? ==> r.0.nodes[r.1].id == id.value
    ensures id.Some? ==> r.0.idGen == w.idGen
    ensures (forall x :: Some(x) in handlers ==> w.nodes[x].parent.None?) && Distinct(Present(handlers))
            ==> r.0.warnings == w.warnings
  {
    var (w1, c) := NewHandler(w, kind, id);
    var kept := Present(handlers);
    var w2 := w1.(nodes := w1.nodes[c := w1.nodes[c].(children := kept)]);
    assert forall x :: x in kept ==> w2.nodes[x] == w.nodes[x];
    (SetParents(w2, kept, c), c)
  }

  /** A freshly created handler is unlinked, so creating it keeps the invariant. */
  lemma NewHandlerKeepsLinks(w: World, kind: Kind, id: Option<string>)
    requires Allocated(w) && WellLinked(w)
    ensures WellLinked(NewHandler(w, kind, id).0)
  {
    var (w1, h) := NewHandler(w, kind, id);
    forall d, x | d in w1.nodes && x in w1.nodes[d].children
      ensures x in w1.nodes && w1.nodes[x].parent == Some(d)
    {
      assert d != h;
      assert x in w.nodes && w.nodes[x].parent == Some(d);
      assert x != h;
    }
    forall x | x in w1.nodes && w1.nodes[x].parent.Some?
      ensures w1.nodes[x].parent.value in w1.nodes && x in w1.nodes[w1.nodes[x].parent.value].children
    {
      assert x != h;
      assert w.nodes[x].parent.value in w.nodes;
    }
  }

  /** The constructor keeps the invariant when the incoming handlers are free
      and pairwise distinct, and then it logs nothing. */
  lemma NewContainerKeepsLinks(w: World, kind: Kind, id: Option<string>, handlers: seq<Option<Ref>>)
    requires Allocated(w) && IsContainerKind(kind) && WellLinked(w)
    requires forall x :: Some(x) in handlers ==> x in w.nodes && w.nodes[x].parent.None?
    requires Distinct(Present(handlers))
    ensures WellLinked(NewContainer(w, kind, id, handlers).0)
    ensures NewContainer(w, kind, id, handlers).0.warnings == w.warnings
  {
    var (w1, c) := NewHandler(w, kind, id);
    NewHandlerKeepsLinks(w, kind, id);
    var kept := Present(handlers);
    var w2 := w1.(nodes := w1.nodes[c := w1.nodes[c].(children := kept)]);
    FillKeepsLinks(w1, c, kept);
  }

  /** Giving a childless container a list of distinct free children and
      pointing them at it keeps the invariant and logs nothing. */
  lemma FillKeepsLinks(w1: World, c: Ref, kept: seq<Ref>)
    requires WellLinked(w1) && c in w1.nodes && IsContainerKind(w1.nodes[c].kind)
    requires w1.nodes[c].children == [] && Distinct(kept)
    requires forall x :: x in kept ==> x in w1.nodes && x != c && w1.nodes[x].parent.None?
    ensures WellLinked(SetParents(w1.(nodes := w1.nodes[c := w1.nodes[c].(children := kept)]), kept, c))
    ensures SetParents(w1.(nodes := w1.nodes[c := w1.nodes[c].(children := kept)]), kept, c).warnings == w1.warnings
  {
    var r := SetParents(w1.(nodes := w1.nodes[c := w1.nodes[c].(children := kept)]), kept, c);
    FillRelinked(w1, c, kept);
    RelinkKeepsLinks(w1, r, c);
  }

  /** Filling an empty container is a relink of that container. */
  lemma FillRelinked(w1: World, c: Ref, kept: seq<Ref>)
    requires c in w1.nodes && w1.nodes[c].children == []
    requires forall x :: x in kept ==> x in w1.nodes && x != c && w1.nodes[x].parent.None?
    ensures var r := SetParents(w1.(nodes := w1.nodes[c := w1.nodes[c].(children := kept)]), kept, c);
      Relinked(w1, r, c) && NewcomersFree(w1, r, c)
  {
    var w2 := w1.(nodes := w1.nodes[c := w1.nodes[c].(children := kept)]);
    var r := SetParents(w2, kept, c);
    assert r.nodes[c].children == kept;
    forall x | x in w1.nodes
      ensures r.nodes[x].kind == w1.nodes[x].kind && r.nodes[x].id == w1.nodes[x].id
      ensures x != c ==> r.nodes[x].children == w1.nodes[x].children
      ensures r.nodes[x].parent == RelinkedParent(w1, c, kept, x)
    {
      assert r.nodes[x].kind == w2.nodes[x].kind;
    }
  }

  // ---------------------------------------------------------------------
  // The container's mutation primitives
  // ---------------------------------------------------------------------

  /** `c`'s own children are distinct and point back at it: what the
      invariant says about one container. */
  predicate OwnsChildren(w: World, c: Ref) {
    && IsContainerRef(w, c)
    && Distinct(w.nodes[c].children)
    && forall x :: x in w.nodes[c].children ==> w.nodes[x].parent == Some(c)
  }

  lemma WellLinkedOwns(w: World, c: Ref)
    requires WellLinked(w) && c in w.nodes && IsContainerKind(w.nodes[c].kind)
    ensures OwnsChildren(w, c)
  {
  }

  /** `now` is `kids` with `h` put in at position `p`: what `list.insert`
      leaves behind. */
  predicate PlacedAt(now: seq<Ref>, kids: seq<Ref>, p: nat, h: Ref) {
    && p <= |kids| && |now| == |kids| + 1
    && now[p] == h && now[..p] == kids[..p] && now[p + 1..] == kids[p..]
  }

  /** `insert(i, h)`: sets `h`'s parent first (warning when it already had
      one), then inserts `h` at the position Python's `list.insert` uses. */
  function Insert(w: World, c: Ref, i: int, h: Ref): (r: World)
    requires IsContainerRef(w, c) && h in w.nodes
    ensures r.nodes.Keys == w.nodes.Keys && r.next == w.next && r.idGen == w.idGen
    ensures r.nodes[h].parent == Some(c)
    ensures r.nodes[c].kind == w.nodes[c].kind && r.nodes[c].id == w.nodes[c].id
    ensures PlacedAt(r.nodes[c].children, w.nodes[c].children, ClampInsert(i, |w.nodes[c].children|), h)
    ensures 0 <= i <= |w.nodes[c].children| ==> r.nodes[c].children[i] == h
    ensures forall y :: y in r.nodes[c].children <==> y in w.nodes[c].children || y == h
    ensures h != c ==> r.nodes[h] == w.nodes[h].(parent := Some(c))
    ensures h != c ==> r.nodes[c].parent == w.nodes[c].parent
    ensures forall x :: x in w.nodes && x != c && x != h ==> r.nodes[x] == w.nodes[x]
    ensures r.warnings == w.warnings + (if w.nodes[h].parent.Some? then [DuplicateParent(h)] else [])
  {
    var w1 := SetParent(w, h, c);
    var kids := w.nodes[c].children;
    var p := ClampInsert(i, |kids|);
    assert InsertAt(kids, p, h) == kids[..p] + [h] + kids[p..];
    w1.(nodes := w1.nodes[c := w1.nodes[c].(children := InsertAt(kids, p, h))])
  }

  /** The single-index `__setitem__` at an in-range position `p`: the list
      slot is overwritten, then the replaced node's parent is cleared and the
      incoming node's parent set (warning when it still had one). */
  function SetAt(w: World, c: Ref, p: nat, v: Ref): (r: World)
    requires IsContainerRef(w, c) && p < |w.nodes[c].children| && v in w.nodes
    ensures r.nodes.Keys == w.nodes.Keys && r.next == w.next && r.idGen == w.idGen
    ensures r.nodes[c].kind == w.nodes[c].kind && r.nodes[c].id == w.nodes[c].id
    ensures var kids := w.nodes[c].children;
      && |r.nodes[c].children| == |kids| && r.nodes[c].children[p] == v
      && forall j :: 0 <= j < |kids| && j != p ==> r.nodes[c].children[j] == kids[j]
    ensures r.nodes[v].parent == Some(c)
    ensures var rep := w.nodes[c].children[p];
      rep != v ==> r.nodes[rep].parent.None?
    ensures forall x :: x in w.nodes && x != c && x != v && x != w.nodes[c].children[p] ==> r.nodes[x] == w.nodes[x]
    ensures c != v && c != w.nodes[c].children[p] ==> r.nodes[c].parent == w.nodes[c].parent
    ensures forall x :: x in w.nodes && x != c ==> r.nodes[x].children == w.nodes[x].children
    ensures forall x :: x in w.nodes ==> r.nodes[x].kind == w.nodes[x].kind && r.nodes[x].id == w.nodes[x].id
    ensures var rep := w.nodes[c].children[p];
      r.warnings == w.warnings + (if v != rep && w.nodes[v].parent.Some? then [DuplicateParent(v)] else [])
  {
    var kids := w.nodes[c].children;
    var w1 := w.(nodes := w.nodes[c := w.nodes[c].(children := kids[p := v])]);
    SetParent(DelParent(w1, kids[p]), v, c)
  }

  /** `container[i] = v`: an out-of-range index raises before anything
      changes; otherwise the slot at the Python position is replaced. */
  function SetItem(w: World, c: Ref, i: int, v: Ref): (r: Result<World>)
    requires IsContainerRef(w, c) && v in w.nodes
    ensures var n := |w.nodes[c].children|;
      r.Raised? <==> !(0 <= i + n && i < n)
    ensures r.Done? ==> r.value.nodes.Keys == w.nodes.Keys
    ensures r.Done? ==> |r.value.nodes[c].children| == |w.nodes[c].children|
    ensures var n := |w.nodes[c].children|; var p := if i < 0 then i + n else i;
      r.Done? ==> 0 <= p < n && r.value.nodes[c].children[p] == v && r.value.nodes[v].parent == Some(c)
  {
    match NormIndex(i, |w.nodes[c].children|)
    case None => Raised(IndexError)
    case Some(p) => Done(SetAt(w, c, p, v))
  }

  /** `container[lo:hi] = vs` (step 1): the covered range is replaced by
      `vs`, then every replaced node's parent is cleared and every incoming
      node's parent set, in order. */
  function SetSlice(w: World, c: Ref, lo: Option<int>, hi: Option<int>, vs: seq<Ref>): (r: World)
    requires IsContainerRef(w, c) && forall v :: v in vs ==> v in w.nodes
    ensures r.nodes.Keys == w.nodes.Keys && r.next == w.next && r.idGen == w.idGen
    ensures var kids := w.nodes[c].children; var (a, b) := SliceRange(lo, hi, |kids|);
      r.nodes[c].children == kids[..a] + vs + kids[b..]
    ensures var kids := w.nodes[c].children; var (a, b) := SliceRange(lo, hi, |kids|);
      forall x :: x in w.nodes ==>
        && r.nodes[x].kind == w.nodes[x].kind && r.nodes[x].id == w.nodes[x].id
        && (x != c ==> r.nodes[x].children == w.nodes[x].children)
        && r.nodes[x].parent == (if x in vs then Some(c) else if x in kids[a..b] then None else w.nodes[x].parent)
    ensures var kids := w.nodes[c].children; var (a, b) := SliceRange(lo, hi, |kids|);
      r.warnings == w.warnings + ParentWarnings(vs, Parented(w) - (set x | x in kids[a..b]))
  {
    var kids := w.nodes[c].children;
    var (a, b) := SliceRange(lo, hi, |kids|);
    var w1 := w.(nodes := w.nodes[c := w.nodes[c].(children := kids[..a] + vs + kids[b..])]);
    var w2 := DelParents(w1, kids[a..b]);
    ParentedLoses(w, w2, kids[a..b]);
    var r := SetParents(w2, vs, c);
    SetSliceFrame(w, w1, w2, r, c, kids[a..b], vs);
    r
  }

  lemma SetSliceFrame(w: World, w1: World, w2: World, r: World, c: Ref, gone: seq<Ref>, vs: seq<Ref>)
    requires c in w.nodes && w1.nodes.Keys == w.nodes.Keys && w2.nodes.Keys == w.nodes.Keys
    requires w1.nodes == w.nodes[c := w.nodes[c].(children := w1.nodes[c].children)]
    requires forall x :: x in gone ==> x in w.nodes
    requires forall x :: x in gone ==> w2.nodes[x] == w1.nodes[x].(parent := None)
    requires forall x :: x in w1.nodes && x !in gone ==> w2.nodes[x] == w1.nodes[x]
    requires forall x :: x in vs ==> x in w.nodes
    requires r.nodes.Keys == w.nodes.Keys
    requires forall x :: x in vs ==> r.nodes[x] == w2.nodes[x].(parent := Some(c))
    requires forall x :: x in w2.nodes && x !in vs ==> r.nodes[x] == w2.nodes[x]
    ensures r.nodes[c].children == w1.nodes[c].children
    ensures forall x :: x in w.nodes ==>
      && r.nodes[x].kind == w.nodes[x].kind && r.nodes[x].id == w.nodes[x].id
      && (x != c ==> r.nodes[x].children == w.nodes[x].children)
      && r.nodes[x].parent == (if x in vs then Some(c) else if x in gone then None else w.nodes[x].parent)
  {
    forall x | x in w.nodes
      ensures r.nodes[x].kind == w.nodes[x].kind && r.nodes[x].id == w.nodes[x].id
      ensures x != c ==> r.nodes[x].children == w.nodes[x].children
      ensures r.nodes[x].parent == (if x in vs then Some(c) else if x in gone then None else w.nodes[x].parent)
    {
      assert r.nodes[x].kind == w2.nodes[x].kind && r.nodes[x].id == w2.nodes[x].id && r.nodes[x].children == w2.nodes[x].children;
      assert w2.nodes[x].kind == w1.nodes[x].kind && w2.nodes[x].id == w1.nodes[x].id && w2.nodes[x].children == w1.nodes[x].children;
    }
  }

  /** The single-index `__delitem__` at an in-range position `p`: the
      removed node's parent is cleared, then it leaves the list. */
  function DelAt(w: World, c: Ref, p: nat): (r: World)
    requires IsContainerRef(w, c) && p < |w.nodes[c].children|
    ensures r.nodes.Keys == w.nodes.Keys && r.next == w.next && r.idGen == w.idGen && r.warnings == w.warnings
    ensures r.nodes[c].kind == w.nodes[c].kind && r.nodes[c].id == w.nodes[c].id
    ensures var kids := w.nodes[c].children;
      |r.nodes[c].children| == |kids| - 1 &&
      r.nodes[c].children[..p] == kids[..p] && r.nodes[c].children[p..] == kids[p + 1..]
    ensures r.nodes[w.nodes[c].children[p]].parent.None?
    ensures forall x :: x in w.nodes && x != c && x != w.nodes[c].children[p] ==> r.nodes[x] == w.nodes[x]
    ensures c != w.nodes[c].children[p] ==> r.nodes[c].parent == w.nodes[c].parent
    ensures forall x :: x in w.nodes && x != c ==> r.nodes[x].children == w.nodes[x].children
    ensures forall x :: x in w.nodes ==> r.nodes[x].kind == w.nodes[x].kind && r.nodes[x].id == w.nodes[x].id
  {
    var kids := w.nodes[c].children;
    var w1 := DelParent(w, kids[p]);
    w1.(nodes := w1.nodes[c := w1.nodes[c].(children := RemoveAt(kids, p))])
  }

  /** `del container[i]`: an out-of-range index raises before anything
      changes. */
  function DelItem(w: World, c: Ref, i: int): (r: Result<World>)
    requires IsContainerRef(w, c)
    ensures var n := |w.nodes[c].children|;
      r.Raised? <==> !(0 <= i + n && i < n)
    ensures r.Done? ==> r.value.nodes.Keys == w.nodes.Keys
    ensures var kids := w.nodes[c].children; var p := if i < 0 then i + |kids| else i;
      r.Done? ==> 0 <= p < |kids| && r.value.nodes[kids[p]].parent.None?
                  && |r.value.nodes[c].children| == |kids| - 1
  {
    match NormIndex(i, |w.nodes[c].children|)
    case None => Raised(IndexError)
    case Some(p) => Done(DelAt(w, c, p))
  }

  /** `del container[lo:hi]` (step 1): every covered node's parent is
      cleared, then the range leaves the list. */
  function DelSlice(w: World, c: Ref, lo: Option<int>, hi: Option<int>): (r: World)
    requires IsContainerRef(w, c)
    ensures r.nodes.Keys == w.nodes.Keys && r.next == w.next && r.idGen == w.idGen && r.warnings == w.warnings
    ensures var kids := w.nodes[c].children; var (a, b) := SliceRange(lo, hi, |kids|);
      r.nodes[c].children == kids[..a] + kids[b..]
    ensures var kids := w.nodes[c].children; var (a, b) := SliceRange(lo, hi, |kids|);
      forall x :: x in w.nodes ==>
        && r.nodes[x].kind == w.nodes[x].kind && r.nodes[x].id == w.nodes[x].id
        && (x != c ==> r.nodes[x].children == w.nodes[x].children)
        && r.nodes[x].parent == (if x in kids[a..b] then None else w.nodes[x].parent)
  {
    var kids := w.nodes[c].children;
    var (a, b) := SliceRange(lo, hi, |kids|);
    var w1 := DelParents(w, kids[a..b]);
    var r := w1.(nodes := w1.nodes[c := w1.nodes[c].(children := kids[..a] + kids[b..])]);
    assert forall x :: x in w.nodes && x != c ==> r.nodes[x] == w1.nodes[x];
    r
  }

  // ---------------------------------------------------------------------
  // Node-relative helpers
  // ---------------------------------------------------------------------

  /** `_verify_parent`: succeeds iff the node has a parent that holds it;
      otherwise logs a warning, clears the stale link and fails. */
  function VerifyParent(w: World, x: Ref): (r: (World, bool))
    requires Located(w, x)
    ensures r.1 <==> w.nodes[x].parent.Some? && x in w.nodes[w.nodes[x].parent.value].children
    ensures r.1 ==> r.0 == w
    ensures !r.1 ==> r.0.nodes == w.nodes[x := w.nodes[x].(parent := None)]
                     && r.0.warnings == w.warnings + [StaleParent(x)]
                     && r.0.next == w.next && r.0.idGen == w.idGen
  {
    var p := w.nodes[x].parent;
    if p.None? || x !in w.nodes[p.value].children then
      (DelParent(w, x).(warnings := w.warnings + [StaleParent(x)]), false)
    else (w, true)
  }

  /** `replace_self(h)`: the node's slot in its parent is given to `h`. */
  function ReplaceSelf(w: World, x: Ref, h: Ref): (r: (World, bool))
    requires Located(w, x) && h in w.nodes
    ensures !r.1 <==> !VerifyParent(w, x).1
    ensures !r.1 ==> r.0 == VerifyParent(w, x).0
    ensures r.1 ==> var c := w.nodes[x].parent.value; var k := IndexOf(w.nodes[c].children, x);
      && r.0.nodes.Keys == w.nodes.Keys
      && |r.0.nodes[c].children| == |w.nodes[c].children| && r.0.nodes[c].children[k] == h
      && r.0.nodes[h].parent == Some(c)
      && (h != x ==> r.0.nodes[x].parent.None?)
  {
    var (w1, ok) := VerifyParent(w, x);
    if !ok then (w1, false)
    else
      var c := w.nodes[x].parent.value;
      (SetAt(w, c, IndexOf(w.nodes[c].children, x), h), true)
  }

  /** `insert_before_self(h)`: `h` goes in at the node's own index, so it
      ends up immediately before the node. */
  function InsertBeforeSelf(w: World, x: Ref, h: Ref): (r: (World, bool))
    requires Located(w, x) && h in w.nodes
    ensures !r.1 <==> !VerifyParent(w, x).1
    ensures !r.1 ==> r.0 == VerifyParent(w, x).0
    ensures r.1 ==> var c := w.nodes[x].parent.value; var k := IndexOf(w.nodes[c].children, x);
      && r.0.nodes.Keys == w.nodes.Keys
      && PlacedAt(r.0.nodes[c].children, w.nodes[c].children, k, h)
      && r.0.nodes[h].parent == Some(c)
  {
    var (w1, ok) := VerifyParent(w, x);
    if !ok then (w1, false)
    else
      var c := w.nodes[x].parent.value;
      var k := IndexOf(w.nodes[c].children, x);
      (Insert(w, c, k, h), true)
  }

  /** `insert_after_self(h)`: `h` goes in at the node's index plus one, so it
      ends up immediately after the node. */
  function InsertAfterSelf(w: World, x: Ref, h: Ref): (r: (World, bool))
    requires Located(w, x) && h in w.nodes
    ensures !r.1 <==> !VerifyParent(w, x).1
    ensures !r.1 ==> r.0 == VerifyParent(w, x).0
    ensures r.1 ==> var c := w.nodes[x].parent.value; var k := IndexOf(w.nodes[c].children, x);
      && r.0.nodes.Keys == w.nodes.Keys
      && PlacedAt(r.0.nodes[c].children, w.nodes[c].children, k + 1, h)
      && r.0.nodes[h].parent == Some(c)
  {
    var (w1, ok) := VerifyParent(w, x);
    if !ok then (w1, false)
    else
      var c := w.nodes[x].parent.value;
      var k := IndexOf(w.nodes[c].children, x);
      (Insert(w, c, k + 1, h), true)
  }

  /** `remove_self()`: `parent.remove(self)`, taken as deleting the first
      occurrence through `__delitem__`, which clears the parent. */
  function RemoveSelf(w: World, x: Ref): (r: (World, bool))
    requires Located(w, x)
    ensures !r.1 <==> !VerifyParent(w, x).1
    ensures !r.1 ==> r.0 == VerifyParent(w, x).0
    ensures r.1 ==> var c := w.nodes[x].parent.value; var k := IndexOf(w.nodes[c].children, x);
      && r.0.nodes.Keys == w.nodes.Keys
      && r.0.nodes[x].parent.None?
      && r.0.nodes[c].children == RemoveAt(w.nodes[c].children, k)
  {
    var (w1, ok) := VerifyParent(w, x);
    if !ok then (w1, false)
    else
      var c := w.nodes[x].parent.value;
      (DelAt(w, c, IndexOf(w.nodes[c].children, x)), true)
  }

  // ---------------------------------------------------------------------
  // The primitives keep the invariant
  // ---------------------------------------------------------------------

  lemma InsertRelinked(w: World, c: Ref, i: int, h: Ref)
    requires OwnsChildren(w, c) && h in w.nodes && w.nodes[h].parent.None?
    ensures Relinked(w, Insert(w, c, i, h), c) && NewcomersFree(w, Insert(w, c, i, h), c)
    ensures Distinct(Insert(w, c, i, h).nodes[c].children)
  {
    var r := Insert(w, c, i, h);
    var kids := w.nodes[c].children;
    assert h !in kids;
    InsertAtDistinct(kids, ClampInsert(i, |kids|), h);
    assert r.nodes[c].children == InsertAt(kids, ClampInsert(i, |kids|), h);
  }

  /** Inserting a parentless node keeps the invariant and logs nothing. */
  lemma InsertKeepsLinks(w: World, c: Ref, i: int, h: Ref)
    requires WellLinked(w) && IsContainerRef(w, c) && Free(w, h)
    ensures WellLinked(Insert(w, c, i, h)) && Insert(w, c, i, h).warnings == w.warnings
  {
    WellLinkedOwns(w, c);
    InsertRelinked(w, c, i, h);
    RelinkKeepsLinks(w, Insert(w, c, i, h), c);
  }

  /** The source does not reject a node another container still holds:
      `set_parent` warns and overwrites, and the old container keeps a child
      that no longer points back at it. */
  lemma InsertHeldBreaksLinks(w: World, c: Ref, i: int, h: Ref)
    requires WellLinked(w) && IsContainerRef(w, c) && h in w.nodes
    requires w.nodes[h].parent.Some? && w.nodes[h].parent.value != c
    ensures !WellLinked(Insert(w, c, i, h))
    ensures Insert(w, c, i, h).warnings == w.warnings + [DuplicateParent(h)]
  {
    var d := w.nodes[h].parent.value;
    var r := Insert(w, c, i, h);
    assert h in w.nodes[d].children;
    assert d != c && d in r.nodes;
    assert r.nodes[d].children == w.nodes[d].children;
    assert r.nodes[h].parent != Some(d);
  }

  lemma SetAtRelinked(w: World, c: Ref, p: nat, v: Ref)
    requires OwnsChildren(w, c) && p < |w.nodes[c].children| && v in w.nodes
    requires w.nodes[v].parent.None? || v == w.nodes[c].children[p]
    ensures Relinked(w, SetAt(w, c, p, v), c) && NewcomersFree(w, SetAt(w, c, p, v), c)
    ensures Distinct(SetAt(w, c, p, v).nodes[c].children)
  {
    var kids := w.nodes[c].children;
    var r := SetAt(w, c, p, v);
    assert r.nodes[c].children == kids[..p] + [v] + kids[p + 1..];
    assert kids[p..p + 1] == [kids[p]];
    SpliceRelinked(w, r, c, p, p + 1, [v]);
  }

  /** Replacing a child by a parentless node (or by itself) keeps the
      invariant and logs nothing. */
  lemma SetAtKeepsLinks(w: World, c: Ref, p: nat, v: Ref)
    requires WellLinked(w) && IsContainerRef(w, c) && p < |w.nodes[c].children| && v in w.nodes
    requires w.nodes[v].parent.None? || v == w.nodes[c].children[p]
    ensures WellLinked(SetAt(w, c, p, v)) && SetAt(w, c, p, v).warnings == w.warnings
  {
    WellLinkedOwns(w, c);
    SetAtRelinked(w, c, p, v);
    RelinkKeepsLinks(w, SetAt(w, c, p, v), c);
  }

  /** The new child list stays distinct. */
  lemma SetSliceChildren(w: World, c: Ref, lo: Option<int>, hi: Option<int>, vs: seq<Ref>)
    requires OwnsChildren(w, c) && Distinct(vs)
    requires var kids := w.nodes[c].children; var (a, b) := SliceRange(lo, hi, |kids|);
      forall v :: v in vs ==> v in w.nodes && (w.nodes[v].parent.None? || v in kids[a..b])
    ensures Distinct(SetSlice(w, c, lo, hi, vs).nodes[c].children)
  {
    var kids := w.nodes[c].children;
    var (a, b) := SliceRange(lo, hi, |kids|);
    SpliceDistinct(kids, a, b, vs);
  }

  /** A splice of distinct children loses exactly the replaced nodes that do
      not come back. */
  lemma SpliceMembers(kids: seq<Ref>, a: nat, b: nat, vs: seq<Ref>, x: Ref)
    requires a <= b <= |kids| && Distinct(kids)
    ensures x in kids[..a] + vs + kids[b..] <==> x in vs || (x in kids && x !in kids[a..b])
  {
    DistinctPieces(kids, a, b);
    assert kids == kids[..a] + kids[a..b] + kids[b..];
  }

  lemma SetSliceRelinked(w: World, c: Ref, lo: Option<int>, hi: Option<int>, vs: seq<Ref>)
    requires OwnsChildren(w, c) && Distinct(vs)
    requires var kids := w.nodes[c].children; var (a, b) := SliceRange(lo, hi, |kids|);
      forall v :: v in vs ==> v in w.nodes && (w.nodes[v].parent.None? || v in kids[a..b])
    ensures Relinked(w, SetSlice(w, c, lo, hi, vs), c) && NewcomersFree(w, SetSlice(w, c, lo, hi, vs), c)
    ensures Distinct(SetSlice(w, c, lo, hi, vs).nodes[c].children)
  {
    var (a, b) := SliceRange(lo, hi, |w.nodes[c].children|);
    SpliceRelinked(w, SetSlice(w, c, lo, hi, vs), c, a, b, vs);
  }

  /** Every mutation primitive is a splice: container `c` trades the range
      `[a, b)` of its children for `vs`, the incoming nodes point at `c`, the
      outgoing ones that do not come back are cleared. With distinct
      incoming nodes that were free or come from the range, that is a
      relink that keeps the child list distinct. */
  lemma SpliceRelinked(w: World, r: World, c: Ref, a: nat, b: nat, vs: seq<Ref>)
    requires OwnsChildren(w, c) && a <= b <= |w.nodes[c].children| && Distinct(vs)
    requires forall v :: v in vs ==> v in w.nodes && (w.nodes[v].parent.None? || v in w.nodes[c].children[a..b])
    requires r.nodes.Keys == w.nodes.Keys
    requires r.nodes[c].children == w.nodes[c].children[..a] + vs + w.nodes[c].children[b..]
    requires forall x :: x in w.nodes ==>
      && r.nodes[x].kind == w.nodes[x].kind && r.nodes[x].id == w.nodes[x].id
      && (x != c ==> r.nodes[x].children == w.nodes[x].children)
      && r.nodes[x].parent == (if x in vs then Some(c) else if x in w.nodes[c].children[a..b] then None else w.nodes[x].parent)
    ensures Relinked(w, r, c) && NewcomersFree(w, r, c) && Distinct(r.nodes[c].children)
  {
    var kids := w.nodes[c].children;
    var now := r.nodes[c].children;
    SpliceDistinct(kids, a, b, vs);
    forall x | x in w.nodes ensures r.nodes[x].parent == RelinkedParent(w, c, now, x) {
      SpliceMembers(kids, a, b, vs, x);
    }
    forall x | x in now ensures x in w.nodes && (x in kids || w.nodes[x].parent.None?) {
      SpliceMembers(kids, a, b, vs, x);
    }
  }

  /** With distinct incoming nodes that are parentless or come from the
      replaced range, slice assignment logs nothing. */
  lemma SetSliceQuiet(w: World, c: Ref, lo: Option<int>, hi: Option<int>, vs: seq<Ref>)
    requires IsContainerRef(w, c) && Distinct(vs)
    requires var kids := w.nodes[c].children; var (a, b) := SliceRange(lo, hi, |kids|);
      forall v :: v in vs ==> v in w.nodes && (w.nodes[v].parent.None? || v in kids[a..b])
    ensures SetSlice(w, c, lo, hi, vs).warnings == w.warnings
  {
    var kids := w.nodes[c].children;
    var (a, b) := SliceRange(lo, hi, |kids|);
    ParentWarningsQuiet(vs, Parented(w) - (set x | x in kids[a..b]));
  }

  /** Replacing a slice by distinct nodes that are parentless or come from
      the replaced range keeps the invariant and logs nothing. */
  lemma SetSliceKeepsLinks(w: World, c: Ref, lo: Option<int>, hi: Option<int>, vs: seq<Ref>)
    requires WellLinked(w) && IsContainerRef(w, c) && Distinct(vs)
    requires var kids := w.nodes[c].children; var (a, b) := SliceRange(lo, hi, |kids|);
      forall v :: v in vs ==> v in w.nodes && (w.nodes[v].parent.None? || v in kids[a..b])
    ensures WellLinked(SetSlice(w, c, lo, hi, vs)) && SetSlice(w, c, lo, hi, vs).warnings == w.warnings
  {
    WellLinkedOwns(w, c);
    SetSliceRelinked(w, c, lo, hi, vs);
    SetSliceQuiet(w, c, lo, hi, vs);
    RelinkKeepsLinks(w, SetSlice(w, c, lo, hi, vs), c);
  }

  lemma DelAtRelinked(w: World, c: Ref, p: nat)
    requires OwnsChildren(w, c) && p < |w.nodes[c].children|
    ensures Relinked(w, DelAt(w, c, p), c) && NewcomersFree(w, DelAt(w, c, p), c)
    ensures Distinct(DelAt(w, c, p).nodes[c].children)
  {
    var kids := w.nodes[c].children;
    var now := DelAt(w, c, p).nodes[c].children;
    assert now == kids[..p] + kids[p + 1..];
    assert now == RemoveAt(kids, p);
    RemoveAtDistinct(kids, p);
  }

  /** Deleting a child keeps the invariant. */
  lemma DelAtKeepsLinks(w: World, c: Ref, p: nat)
    requires WellLinked(w) && IsContainerRef(w, c) && p < |w.nodes[c].children|
    ensures WellLinked(DelAt(w, c, p))
  {
    WellLinkedOwns(w, c);
    DelAtRelinked(w, c, p);
    RelinkKeepsLinks(w, DelAt(w, c, p), c);
  }

  lemma DelSliceRelinked(w: World, c: Ref, lo: Option<int>, hi: Option<int>)
    requires OwnsChildren(w, c)
    ensures Relinked(w, DelSlice(w, c, lo, hi), c) && NewcomersFree(w, DelSlice(w, c, lo, hi), c)
    ensures Distinct(DelSlice(w, c, lo, hi).nodes[c].children)
  {
    var kids := w.nodes[c].children;
    var (a, b) := SliceRange(lo, hi, |kids|);
    assert kids[..a] + kids[b..] == kids[..a] + [] + kids[b..];
    SpliceRelinked(w, DelSlice(w, c, lo, hi), c, a, b, []);
  }

  /** Deleting a slice keeps the invariant. */
  lemma DelSliceKeepsLinks(w: World, c: Ref, lo: Option<int>, hi: Option<int>)
    requires WellLinked(w) && IsContainerRef(w, c)
    ensures WellLinked(DelSlice(w, c, lo, hi))
  {
    WellLinkedOwns(w, c);
    DelSliceRelinked(w, c, lo, hi);
    RelinkKeepsLinks(w, DelSlice(w, c, lo, hi), c);
  }

  // ---------------------------------------------------------------------
  // The node-relative helpers in a well-linked store
  // ---------------------------------------------------------------------

  /** In a well-linked store `_verify_parent` fails exactly at a root, and
      then it only logs. */
  lemma VerifyParentAtRoot(w: World, x: Ref)
    requires WellLinked(w) && x in w.nodes
    ensures Located(w, x)
    ensures VerifyParent(w, x).1 <==> w.nodes[x].parent.Some?
    ensures !VerifyParent(w, x).1 ==> VerifyParent(w, x).0.nodes == w.nodes
  {
    if w.nodes[x].parent.None? {
      assert w.nodes[x].(parent := None) == w.nodes[x];
    }
  }

  /** With a parentless incoming node, each helper keeps the invariant. */
  lemma ReplaceSelfKeepsLinks(w: World, x: Ref, h: Ref)
    requires WellLinked(w) && x in w.nodes && Free(w, h)
    ensures Located(w, x) && WellLinked(ReplaceSelf(w, x, h).0)
  {
    VerifyParentAtRoot(w, x);
    if w.nodes[x].parent.Some? {
      var c := w.nodes[x].parent.value;
      SetAtKeepsLinks(w, c, IndexOf(w.nodes[c].children, x), h);
    }
  }

  lemma InsertBeforeSelfKeepsLinks(w: World, x: Ref, h: Ref)
    requires WellLinked(w) && x in w.nodes && Free(w, h)
    ensures Located(w, x) && WellLinked(InsertBeforeSelf(w, x, h).0)
  {
    VerifyParentAtRoot(w, x);
    if w.nodes[x].parent.Some? {
      var c := w.nodes[x].parent.value;
      InsertKeepsLinks(w, c, IndexOf(w.nodes[c].children, x), h);
    }
  }

  lemma InsertAfterSelfKeepsLinks(w: World, x: Ref, h: Ref)
    requires WellLinked(w) && x in w.nodes && Free(w, h)
    ensures Located(w, x) && WellLinked(InsertAfterSelf(w, x, h).0)
  {
    VerifyParentAtRoot(w, x);
    if w.nodes[x].parent.Some? {
      var c := w.nodes[x].parent.value;
      InsertKeepsLinks(w, c, IndexOf(w.nodes[c].children, x) + 1, h);
    }
  }

  lemma RemoveSelfKeepsLinks(w: World, x: Ref)
    requires WellLinked(w) && x in w.nodes
    ensures Located(w, x) && WellLinked(RemoveSelf(w, x).0)
  {
    VerifyParentAtRoot(w, x);
    if w.nodes[x].parent.Some? {
      var c := w.nodes[x].parent.value;
      DelAtKeepsLinks(w, c, IndexOf(w.nodes[c].children, x));
    }
  }

  /** `remove_self` on an attached node detaches it: afterwards it has no
      parent and its former container no longer holds it. */
  lemma RemoveSelfDetaches(w: World, x: Ref)
    requires WellLinked(w) && x in w.nodes && w.nodes[x].parent.Some?
    ensures Located(w, x)
    ensures var r := RemoveSelf(w, x);
      && r.1 && r.0.nodes[x].parent.None?
      && x !in r.0.nodes[w.nodes[x].parent.value].children
  {
    VerifyParentAtRoot(w, x);
    var c := w.nodes[x].parent.value;
    WellLinkedOwns(w, c);
    RemoveAtDistinct(w.nodes[c].children, IndexOf(w.nodes[c].children, x));
  }
}
