# TorchSlime handler pipeline in Dafny

TorchSlime runs a training, evaluation or prediction job as a tree of
*handlers*. A `HandlerContainer` owns an ordered list of child handlers. Each
child holds a back-link to the container that holds it. Calling a handler
runs its `handle`. Control flow travels as exceptions:

- `HandlerContinue` ends a container's child loop.
- `HandlerBreak` leaves a container.
- `HandlerTerminate` names the handler that raised it.
- `HandlerException` wraps any other error with the handler it came from.

A build hook creates the three pipelines in a fixed order of hook calls. The
launch hook may then rewrite the tree. The distributed hook puts a
`GatherAverageHandler` before every meter. Plugins wrap the build with
two-phase generators. Around the tree sit two more parts:

- a rich display layer: progress bars and a breadth-first profile of the tree;
- per-state hooks that keep the averaging scratch space in the context.

This project models that core as pure Dafny functions over immutable data,
and proves what the code promises. The modules are:

| module | file | what it holds |
|---|---|---|
| `Base`, `PyDict` | base.dfy, pydict.dfy | `Option`, `Result`, Python list indexing and slicing, Python's ordered `dict` as an association list |
| `Handlers` | handlers.dfy | the handler store (`World`): identity → class, id, children, parent. It covers the constructors, `insert`, `__setitem__`, `__delitem__`, `set_parent`, `_verify_parent` and the `*_self` helpers. The parent-link invariant `WellLinked` is proved kept by each of them. |
| `Tree` | tree.dfy | the finite tree a handler reaches (`View`), and the three searches with their shared `_append_search_result` |
| `Signals` | signals.dfy | `Handler.__call__`, `HandlerContainer.handle` and `HandlerContainer.__call__`, with the exceptions as a returned signal |
| `Build` | build.dfy | the train, eval and predict trees of `VanillaBuild`, their evaluation into the store, and the seven-step `_build_*` order |
| `Launch` | launch.dfy | `VanillaLaunch` and the gather-handler insertion of `DistributedLaunch` |
| `Plugin` | plugin.dfy | `PluginContainer`'s two-phase composition, as an event trace |
| `Riching` | riching.dfy | the progress context, the handler profile, the breadth-first `profile`, and the wrapper-container table |
| `StateHooks` | state.dfy | the train/eval/val/predict state hooks over `ctx.inner` and the iteration fields |
| `Utils` | utils.dfy | `bound_clip`, `dict_merge`, `Count`, the infinite iterators, `list_take`, the naming predicates, `xor__`, and the ordering sentinels |

The model is built on a few conventions:

- Object identity is a natural number (`Ref`).
- A handler's class is an enum (`Kind`). `isinstance` is the relation `IsA`:
  - every handler is a `Handler`;
  - the iteration classes and `Optimizer` are containers;
  - an `Average` is a `MeterHandler`.
- Logger warnings are a real list in the store, so contracts can talk about
  them.
- `NOTHING` and `None` are `Option.None`. A Python `IndexError` is a `Raised`
  result.

The sources come from two generations of the code: the `torchslime/...` files
and the `src/torchslime/...` files. The newer launch hook calls
`insert_before_self__` and searches for `MeterHandler`. The model gives both
the older semantics: the `insert_before_self` of
`torchslime/core/handlers/__init__.py`, and `Average` counted as a meter.
It also builds `GatherAverageHandler(id=f'gather_average_{state}')`, and the
model takes that keyword to set the handler id as the older `_id=` does; the
older `Handler.__init__` accepts only the keyword-only `_id` and `exec_ranks`,
so there the keyword `id` would be rejected with a `TypeError`.

## Model

| member | source | states |
|---|---|---|
| Handlers.IsInstanceAny | torchslime/core/handlers/__init__.py:118 | `isinstance` with a tuple of classes holds iff the handler is an instance of some listed class |
| Handlers.SetParent | torchslime/core/handlers/__init__.py:157-161 | the parent is overwritten whatever it was; a duplicate-parent warning is logged exactly when the node already had a parent; nothing else changes |
| Handlers.NewHandler | torchslime/core/handlers/__init__.py:38-48 | a new handler has no parent and no children. A given id is kept and the class counter is left alone. Without an id it gets `handler_<n>` with `n` read from the counter, which then advances by one. |
| Handlers.NewContainer | torchslime/core/handlers/__init__.py:269-287 | the container's children are exactly the non-`None`/`NOTHING` arguments in their order; each of them now points at the new container; every other handler is untouched; nothing is logged when the children were free and distinct |
| Handlers.PresentAppend | torchslime/core/handlers/__init__.py:277-280 | the `None`/`NOTHING` filter works piecewise, so kept handlers keep their relative order |
| Handlers.NewContainerKeepsLinks | torchslime/core/handlers/__init__.py:269-287 | constructing a container from free, distinct handlers keeps the parent-link invariant and logs nothing |
| Handlers.Insert | torchslime/core/handlers/__init__.py:362-364 | the handler's parent becomes the container. The handler lands at the position Python's `list.insert` gives the index, and all other children keep their order. Only the handler and the container change. A duplicate-parent warning is logged iff the handler already had a parent. |
| Handlers.InsertKeepsLinks | torchslime/core/handlers/__init__.py:362-364 | inserting a parentless handler keeps the invariant and logs nothing |
| Handlers.InsertHeldBreaksLinks | torchslime/core/handlers/__init__.py:157-161 | inserting a handler another container still holds is not rejected: it logs the duplicate-parent warning and the invariant no longer holds |
| Handlers.SetAt | torchslime/core/handlers/__init__.py:336-347 | single-index assignment overwrites exactly one slot; the replaced node loses its parent, the incoming node points at the container, nobody else changes; the warning is logged iff a different incoming node already had a parent |
| Handlers.SetItem | torchslime/core/handlers/__init__.py:331-348 | `container[i] = v` raises IndexError iff `i` is outside `[-len, len)`, before any change; otherwise the slot at the Python position holds `v` and `v` points at the container |
| Handlers.SetParents | torchslime/core/handlers/__init__.py:157-161 | setting the parents of `hs` in turn points each at the container and leaves every other node alone; it logs one duplicate-parent warning per entry that already has a parent when its turn comes, so distinct parentless nodes log nothing |
| Handlers.ParentLogWarnings | torchslime/core/handlers/__init__.py:157-161 | walking `hs` with `set_parent` logs exactly the predicted warnings: one per entry that started with a parent or was already met earlier in `hs` |
| Handlers.ParentWarningsQuiet | torchslime/core/handlers/__init__.py:157-161 | distinct nodes that all start without a parent log no warning |
| Handlers.RepeatWarns | torchslime/core/handlers/__init__.py:157-161 | a parentless node given twice logs exactly one warning, on its second turn |
| Handlers.SetSlice | torchslime/core/handlers/__init__.py:336-344 | slice assignment splices `vs` over the covered range. Every incoming node points at the container. Every replaced node that does not come back loses its parent. All other links, classes, ids and child lists are unchanged. The warnings logged are exactly one duplicate-parent warning per incoming node that still has a parent when its turn comes: a node held outside the replaced range, or one met earlier in `vs`. |
| Handlers.SetAtKeepsLinks | torchslime/core/handlers/__init__.py:331-348 | replacing a child by a parentless node, or by itself, keeps the invariant and logs nothing |
| Handlers.SetSliceKeepsLinks | torchslime/core/handlers/__init__.py:331-348 | replacing a slice by distinct nodes that are parentless or come from the replaced range keeps the invariant and logs nothing |
| Handlers.SetSliceQuiet | torchslime/core/handlers/__init__.py:339-344 | such a slice assignment logs no duplicate-parent warning |
| Handlers.DelAt | torchslime/core/handlers/__init__.py:350-360 | single-index deletion removes exactly that child and keeps the others in order; the removed node's parent is cleared; nothing else changes and nothing is logged |
| Handlers.DelItem | torchslime/core/handlers/__init__.py:350-360 | `del container[i]` raises IndexError iff `i` is outside `[-len, len)`; otherwise the child at the Python position is detached and the list shrinks by one |
| Handlers.DelSlice | torchslime/core/handlers/__init__.py:350-360 | slice deletion clears the parent of exactly the covered nodes and keeps the rest of the list in order |
| Handlers.DelAtKeepsLinks | torchslime/core/handlers/__init__.py:350-360 | deleting a child keeps the invariant |
| Handlers.DelSliceKeepsLinks | torchslime/core/handlers/__init__.py:350-360 | deleting a slice keeps the invariant |
| Handlers.VerifyParent | torchslime/core/handlers/__init__.py:98-104 | succeeds iff the node has a parent that holds it, and then changes nothing; otherwise it logs a warning, clears the stale link and fails |
| Handlers.VerifyParentAtRoot | torchslime/core/handlers/__init__.py:98-104 | in a well-linked store the check fails exactly at a root, and then only logs |
| Handlers.ReplaceSelf | torchslime/core/handlers/__init__.py:67-73 | fails exactly when `_verify_parent` fails, with its effect; otherwise the node's slot holds the new handler, which points at the container, and the old node is detached |
| Handlers.InsertBeforeSelf | torchslime/core/handlers/__init__.py:75-81 | fails exactly when `_verify_parent` fails; otherwise the new handler is put in at the node's own index, immediately before it |
| Handlers.InsertAfterSelf | torchslime/core/handlers/__init__.py:83-89 | fails exactly when `_verify_parent` fails; otherwise the new handler is put in at the node's index plus one, immediately after it |
| Handlers.RemoveSelf | torchslime/core/handlers/__init__.py:91-96 | fails exactly when `_verify_parent` fails; otherwise the node leaves its container's list and has no parent |
| Handlers.ReplaceSelfKeepsLinks | torchslime/core/handlers/__init__.py:67-73 | with a parentless new handler, `replace_self` keeps the invariant |
| Handlers.InsertBeforeSelfKeepsLinks | torchslime/core/handlers/__init__.py:75-81 | with a parentless new handler, `insert_before_self` keeps the invariant |
| Handlers.InsertAfterSelfKeepsLinks | torchslime/core/handlers/__init__.py:83-89 | with a parentless new handler, `insert_after_self` keeps the invariant |
| Handlers.RemoveSelfKeepsLinks | torchslime/core/handlers/__init__.py:91-96 | `remove_self` keeps the invariant |
| Handlers.RemoveSelfDetaches | torchslime/core/handlers/__init__.py:91-96 | on an attached node `remove_self` succeeds, and the node has no parent and is no longer held by its former container |
| Tree.AddAll | torchslime/core/handlers/__init__.py:137-142 | the result list keeps its prefix, gains exactly the offered nodes it lacked and stays duplicate-free |
| Tree.Append | torchslime/core/handlers/__init__.py:130-146 | a node already listed is skipped with a duplicate warning; otherwise it is appended, and without the multiple-match allowance reaching length 2 logs one warning |
| Tree.GetById | torchslime/core/handlers/__init__.py:304-311 | `get_by_id` answers the first entry of the result list, or NOTHING exactly when the list stays empty |
| Tree.CollectIsPreOrder | torchslime/core/handlers/__init__.py:304-329 | a search offers the matching handlers to the result list in pre-order (self, then each child in order), keeping each node's first offer |
| Tree.SearchDistinct | torchslime/core/handlers/__init__.py:130-146 | a fresh search never lists a node twice and lists exactly the matching handlers of the tree |
| Tree.GetByIdFirst | torchslime/core/handlers/__init__.py:304-311 | `get_by_id` from a fresh list answers the first handler with that id in pre-order, or NOTHING when there is none |
| Tree.CollectWarnings | torchslime/core/handlers/__init__.py:137-146 | a search only appends warnings, and logs the multiple-match warning exactly once when its list first reaches two entries without the allowance |
| Tree.GetByIdWarnsOnce | torchslime/core/handlers/__init__.py:143-146 | `get_by_id` warns about multiple matches once exactly when two or more distinct handlers carry the id |
| Tree.ClassSearchNeverWarnsMultiple | torchslime/core/handlers/__init__.py:313-320 | `get_by_class` never logs the multiple-match warning |
| Signals.Stamp | torchslime/core/handlers/__init__.py:52-65 | an unstamped terminate gets the current handler as its origin and a stamped one keeps it; a plain exception becomes a failure naming the current handler; everything else passes unchanged |
| Signals.InvokeAbsorbs | torchslime/core/handlers/__init__.py:289-302 | no call lets a plain exception escape, and a container's call never hands `Continue` or `Break` to its caller |
| Signals.HandleAllAbsorbs | torchslime/core/handlers/__init__.py:289-295 | the child loop swallows `Continue` and lets no plain exception out |
| Signals.FatalFromLastRun | torchslime/core/handlers/__init__.py:55-65 | a terminate or failure leaving a call was raised by the last handler that ran and carries the origin the innermost call stamped; no outer call overwrites it |
| Signals.QuietRun | torchslime/core/handlers/__init__.py:289-302 | when every body finishes normally, a call ends normally after running exactly the eligible handlers in pre-order |
| Signals.AllEligibleIsPreOrder | torchslime/core/handlers/__init__.py:289-295 | with every handler eligible, a quiet run visits the whole tree in pre-order |
| Signals.IneligibleIsAbsent | torchslime/core/handlers/__init__.py:289-295 | an ineligible child changes neither the signal nor the trace of its container's loop |
| Signals.InnerSignalScenario | torchslime/core/handlers/__init__.py:289-302 | in `Container[B, C]` a `Continue` or `Break` from `B` skips `C`, and the container completes normally |
| Signals.TailSignalScenario | torchslime/core/handlers/__init__.py:289-295 | the loop around that container goes on to the next sibling |
| Signals.SiblingSignalScenario | torchslime/core/handlers/__init__.py:289-302 | in `Container[A, Container[B, C], D]` a `Continue` or `Break` from `B` skips only `C` |
| Signals.DeepTerminateScenario | torchslime/core/handlers/__init__.py:55-59 | a terminate raised three containers deep reaches the top naming the handler that raised it |
| Utils.BoundClip | torchslime/utils/__init__.py:33-48 | NOTHING iff `_min > _max`; otherwise the result lies in `[_min, _max]`, equals `value` when it is inside, and is the nearer bound when it is not |
| Utils.BoundClipIdempotent | torchslime/utils/__init__.py:33-48 | clipping a clipped value changes nothing |
| Utils.DictMergeKeys | torchslime/utils/__init__.py:51-52 | the merge has distinct keys, exactly those of both dicts |
| Utils.DictMergeValues | torchslime/utils/__init__.py:51-52 | on a clash `dict2`'s value wins; every other key reads as in `dict1` |
| Utils.DictMergeWrites | torchslime/utils/__init__.py:51-52 | a key `dict2` lacks reads as in `dict1`, whatever `dict1` holds elsewhere |
| Utils.DictMergeOrder | torchslime/utils/__init__.py:51-52 | the keys of `dict1` come first, in their original order |
| Utils.ReadMany | torchslime/utils/__init__.py:63-78 | successive reads of `Count` yield the pre-increment values `v, v+1, ...` and leave the counter advanced by the number of reads |
| Utils.ReadsNeverRepeat | torchslime/utils/__init__.py:72-78 | reads never repeat a value, and an assignment through the descriptor changes nothing that follows |
| Utils.DefaultHandlerIdInjective | torchslime/core/handlers/__init__.py:46 | default ids `handler_<n>` are equal iff their counter values are |
| Utils.RangeNth | torchslime/utils/__init__.py:81-85 | the `n`-th further value of `inf_range` is the current value plus `n * step` |
| Utils.IterNth | torchslime/utils/__init__.py:88-91 | `inf_iter` standing at position `pos` yields `s[(pos + n) mod len]` after `n` more steps: the loop restarts at the end |
| Utils.InfIterNth | torchslime/utils/__init__.py:88-91 | the `n`-th item of `inf_iter(s)` is `s[n mod len]`; an empty iterable yields nothing |
| Utils.InfEnumerateNth | torchslime/utils/__init__.py:94-96 | the `n`-th pair of `inf_enumerate(s, start)` is `(start + n, s[n mod len])`; nothing for an empty iterable |
| Utils.TakeEach | torchslime/utils/__init__.py:181-182 | a list index yields a tuple of the same length, element by element, and raises iff some element raises |
| Utils.ListTake | torchslime/utils/__init__.py:160-182 | as written: a `None` index gives NOTHING, an unsupported index gives `None`, a scalar is a 1-tuple, an index in `[0, len)` or `[-len, 0)` gives that element, `>= len` gives NOTHING and `< -len` raises IndexError |
| Utils.ListTakeRaisesBelowBounds | torchslime/utils/__init__.py:178-180 | index `-2` into a one-element list raises, where the bounds check described in the code gives NOTHING |
| Utils.ListTakeBounded | torchslime/utils/__init__.py:178-182 | the corrected version never raises; an int index gives NOTHING iff it is out of bounds on either side, else the Python element |
| Utils.ListTakeBoundedAgrees | torchslime/utils/__init__.py:160-182 | wherever the code as written does not raise, the corrected version returns the same |
| Utils.MagicNamingOfDunder | torchslime/utils/__init__.py:309-312 | for a newline-free body `m`, `__m__` is a magic name iff `m` is non-empty and neither starts nor ends with `_` |
| Utils.SlimeNamingOfStem | torchslime/utils/__init__.py:315-318 | for a newline-free stem `m`, `m__` is a slime name iff `m` is non-empty and neither starts nor ends with `_` |
| Utils.TrailingNewlineAccepted | torchslime/utils/__init__.py:309-318 | the `$` anchor lets one trailing newline through both patterns |
| Utils.MagicAndSlimeDisjoint | torchslime/utils/__init__.py:309-318 | no string is both a magic and a slime name |
| Utils.XorExactlyOne | torchslime/utils/__init__.py:321-322 | `xor__` holds iff exactly one argument is truthy, and is symmetric |
| Utils.SentinelsAreInfinities | torchslime/utils/__init__.py:325-340 | against any number and for every operator, on either side, `LessThanAnything` and `GreaterThanAnything` compare as minus and plus infinity |
| Utils.SentinelNeverEqual | torchslime/utils/__init__.py:325-340 | a sentinel equals nothing, not even itself, unlike an infinity |
| Build.Instantiate | torchslime/core/hooks/build.py:50-98 | evaluating a constructor expression allocates exactly its handlers, children before their container, and returns an unparented root with the written class and id, changing no existing handler |
| Build.InstantiateKeepsLinks | torchslime/core/hooks/build.py:50-98 | building a tree keeps the parent-link invariant |
| Build.InstantiateReadsBack | torchslime/core/hooks/build.py:50-146 | the built handlers form a finite tree that spells the expression back: classes, ids and child order as written |
| Build.BuiltIdSearch | torchslime/core/hooks/build.py:50-146 | in a built tree with distinct ids, `get_by_id` finds a handler exactly for the ids written and never warns about multiple matches |
| Build.TrainIds | torchslime/core/hooks/build.py:50-98 | the train tree's ids in pre-order are exactly the ones written |
| Build.TrainIdsDistinct | torchslime/core/hooks/build.py:50-98 | the train tree carries no id twice |
| Build.EvalIds | torchslime/core/hooks/build.py:104-128 | the eval tree's ids in pre-order are exactly the ones written |
| Build.EvalIdsDistinct | torchslime/core/hooks/build.py:104-128 | the eval tree carries no id twice |
| Build.PredictIds | torchslime/core/hooks/build.py:130-146 | the predict tree's ids in pre-order are exactly the ones written |
| Build.PredictIdsDistinct | torchslime/core/hooks/build.py:130-146 | the predict tree carries no id twice |
| Build.TrainPassKinds | torchslime/core/hooks/build.py:60-75 | the train pass is `Iteration[Forward, Loss, Optimizer[Backward], Metrics, Average, Display]` in pre-order |
| Build.ValPassKinds | torchslime/core/hooks/build.py:85-96 | the validation pass is `Iteration[Forward, Loss, Metrics, Average, Display]` |
| Build.EvalKinds | torchslime/core/hooks/build.py:104-128 | the eval tree's classes in pre-order |
| Build.PredictKinds | torchslime/core/hooks/build.py:130-146 | the predict tree's classes in pre-order |
| Build.TrainTreeWellFormed | torchslime/core/hooks/build.py:50-98 | only container classes are given handler lists in the train tree |
| Build.EvalTreeWellFormed | torchslime/core/hooks/build.py:104-128 | likewise for the eval tree |
| Build.PredictTreeWellFormed | torchslime/core/hooks/build.py:130-146 | likewise for the predict tree |
| Build.OptimizerInTrainPass | torchslime/core/hooks/build.py:66-68 | the train pass steps an `Optimizer` holding `Backward` |
| Build.NoOptimizerInValPass | torchslime/core/hooks/build.py:85-96 | the validation pass has neither `Optimizer` nor `Backward` |
| Build.NoOptimizerInEval | torchslime/core/hooks/build.py:116-127 | the eval tree has neither `Optimizer` nor `Backward` |
| Build.NoOptimizerInPredict | torchslime/core/hooks/build.py:134-146 | the predict tree has neither `Optimizer` nor `Backward` |
| Build.PredictHasNoMeasures | torchslime/core/hooks/build.py:134-146 | the predict tree has no `Loss`, `Metrics`, `AverageInit`, `Average` or other meter |
| Build.TrainMeters | torchslime/core/hooks/build.py:50-98 | the meters of the train tree, in search order, are `train_average_train` then `train_average_val` |
| Build.EvalMeters | torchslime/core/hooks/build.py:124 | the eval tree's only meter is `eval_average` |
| Build.BuildStepsShape | torchslime/core/hooks/build.py:13-41 | each `_build_<phase>` calls each hook entry point once, only for its own phase or for no phase; the plugin calls are exactly the first two and the last two; the three phases call the same hook at each position |
| Build.BuildOrder | torchslime/core/hooks/build.py:13-21 | the phase's before-build precedes the build, the build precedes its after-build, which precedes the launch hook's, which precedes every plugin after-build; generic plugin calls precede phase-specific ones. This is the order of the calls as listed; `Build.TrainBuildStopsEarly` states how far the train build gets |
| Build.RunSteps | torchslime/core/hooks/build.py:13-41 | running the calls in order makes a prefix of them; it raises exactly when some call raises, the last call made is then the first that raises, and otherwise every call is made |
| Build.TrainBuildStopsEarly | torchslime/core/hooks/build.py:100-102 | as written, the train build makes only the first four calls and raises: the launch hook's and the plugins' after-builds never run |
| Build.OtherBuildsComplete | torchslime/core/hooks/build.py:23-41 | as written, the eval and predict builds make all seven calls without raising |
| Build.BuildCompletes | torchslime/core/hooks/build.py:13-41 | with `after_build_train` returning, every phase makes all seven calls and the launch hook's after-build precedes the plugins' |
| Launch.LastSegment | src/torchslime/hook/launch.py:38 | `split('_')[-1]` contains no underscore and is no longer than the id |
| Launch.LastSegmentOfJoin | src/torchslime/hook/launch.py:38 | for an id `p_r` whose `r` has no underscore, the last segment is `r` |
| Launch.LastSegmentWhole | src/torchslime/hook/launch.py:38 | an id without underscores is its own last segment |
| Launch.TrainMeterGatherIds | src/torchslime/hook/launch.py:36-39 | the train tree's meters `train_average_train` and `train_average_val` gather as `gather_average_train` and `gather_average_val` |
| Launch.EvalMeterGatherId | src/torchslime/hook/launch.py:44-47 | the eval tree's meter `eval_average` gathers as `gather_average_average`, named after its last segment and not after the phase |
| Launch.InsertBeforeSelfCases | torchslime/core/handlers/__init__.py:75-81 | for a held node, `insert_before_self` only logs at a root and is otherwise `insert` at the node's index |
| Launch.GatherOne | src/torchslime/hook/launch.py:38-39 | one turn creates exactly one new handler, even when the insertion then fails softly |
| Launch.GatherOneCreates | src/torchslime/hook/launch.py:38-39 | the created handler is a `GatherAverageHandler` with id `gather_average_` plus the meter id's last segment |
| Launch.GatherOnePlaces | src/torchslime/hook/launch.py:39 | a meter in a container gets the new handler immediately before it, logging nothing; a meter at a root only logs the failed check |
| Launch.GatherOneFrame | src/torchslime/hook/launch.py:39 | no existing handler changes class, id or parent, and only the meter's container changes its children |
| Launch.GatherOneKeepsLinks | src/torchslime/hook/launch.py:39 | a turn keeps the parent-link invariant |
| Launch.InsertEach | src/torchslime/hook/launch.py:37-39 | the loop over the collected meters creates one handler per meter and only adds handlers |
| Launch.InsertEachFresh | src/torchslime/hook/launch.py:37-39 | the created handlers are new, pairwise distinct, and all the store gains |
| Launch.InsertEachKeepsLinks | src/torchslime/hook/launch.py:37-39 | the loop keeps the invariant |
| Launch.InsertEachFrame | src/torchslime/hook/launch.py:37-39 | the loop changes no existing handler's class, id or parent |
| Launch.InsertEachCreates | src/torchslime/hook/launch.py:37-39 | the `i`-th created handler is the gather handler of the `i`-th meter |
| Launch.InsertEachKeeps | src/torchslime/hook/launch.py:37-39 | later turns keep an earlier gather handler right before its meter |
| Launch.InsertEachGathers | src/torchslime/hook/launch.py:37-39 | after the loop, each meter that had a container sits immediately after its own gather handler |
| Launch.InsertEachCount | src/torchslime/hook/launch.py:37-39 | the loop adds exactly one handler per meter |
| Launch.MetersFound | src/torchslime/hook/launch.py:36 | the class search collects each meter below the root once, and only meters |
| Launch.MetersReady | src/torchslime/hook/launch.py:36 | after the search every meter found is held by its container in a well-linked store |
| Launch.GatherAll | src/torchslime/hook/launch.py:35-39 | searching then inserting keeps the store well linked |
| Launch.GatherAllGathers | src/torchslime/hook/launch.py:36-39 | every meter found that sits in a container ends up immediately after a fresh gather handler with the derived id |
| Launch.AfterBuild | src/torchslime/hook/launch.py:23-47 | either launch hook keeps the store well linked |
| Launch.DistributedGathersEveryMeter | src/torchslime/hook/launch.py:33-47 | the distributed hook puts a fresh `gather_average_<segment>` handler immediately before every meter of the train or eval tree that sits in a container |
| Launch.DistributedAddsOnePerMeter | src/torchslime/hook/launch.py:36-39 | the distributed hook adds exactly one handler per meter found, and leaves the store alone when there is no meter |
| Launch.OnlyDistributedRewrites | src/torchslime/hook/launch.py:23-27 | `VanillaLaunch` never touches the tree, and neither hook touches the predict tree |
| Plugin.Creates | src/torchslime/hooks/plugin.py:20 | one generator is created per plugin, in container order |
| Plugin.FirstAllIsEarly | src/torchslime/hooks/plugin.py:21-23 | the first advances produce only creations and first-phase events |
| Plugin.SecondAllIsLate | src/torchslime/hooks/plugin.py:25-27 | the second advances produce only second-phase events |
| Plugin.FirstOrder | src/torchslime/hooks/plugin.py:21-23 | a plugin, nested containers flattened, runs each plain plugin's first phase once, in list order |
| Plugin.FirstAllOrder | src/torchslime/hooks/plugin.py:21-23 | the first phases of a plugin list run once each, in container order |
| Plugin.SecondOrder | src/torchslime/hooks/plugin.py:25-27 | a plugin runs each plain plugin's second phase once, in the same order as the first phases |
| Plugin.SecondAllOrder | src/torchslime/hooks/plugin.py:25-27 | the second phases run in container order, not reversed |
| Plugin.RunShape | src/torchslime/hooks/plugin.py:19-27 | every generator is created before any phase runs; then only first-phase events up to the single `yield`; then only second-phase events |
| Plugin.EarlyBeforeLate | src/torchslime/hooks/plugin.py:19-27 | every first-phase event precedes every second-phase event |
| Plugin.RunOrder | src/torchslime/hooks/plugin.py:19-27 | across a whole run, first and second phases each run once per plain plugin, in the same order |
| Plugin.EmptyRun | src/torchslime/hooks/plugin.py:19-27 | an empty container performs exactly its `yield` |
| Plugin.SamePhasesAllRuns | src/torchslime/hooks/plugin.py:19-47 | the train, eval and predict variants produce the same run up to the phase they carry |
| Riching.ProgressUpdate | src/torchslime/handler/riching.py:61-91 | an update advances the bar's completed count by exactly one; the plain bar keeps its text, the profile bar shows the meter profile |
| Riching.UpdatesAdvance | src/torchslime/handler/riching.py:63-70 | `n` updates advance the completed count by exactly `n` |
| Riching.RemoveProgress | src/torchslime/handler/riching.py:72-76 | the progress leaves the live group and is no longer observed; every other live entry stays |
| Riching.ProgressContextAsWritten | src/torchslime/handler/riching.py:49-58 | as written: create, assign, add, yield, remove, restore when the body returns; remove is skipped when it raises; the previous assignment is restored and the body's outcome reaches the caller |
| Riching.ProgressLeaksOnRaise | src/torchslime/handler/riching.py:49-58 | a body that raises leaves the progress bar live and observed after the context is left |
| Riching.ProgressContext | src/torchslime/handler/riching.py:49-58 | corrected: the same steps with the removal always taken, the previous assignment restored, and the body's outcome passed on |
| Riching.ProgressAlwaysRemoved | src/torchslime/handler/riching.py:49-58 | with the correction the progress is gone afterwards whatever the body does, other live entries stay, and a normal run equals the run as written |
| Riching.WrapRegistry | src/torchslime/handler/riching.py:190-211 | exactly `exception` and `terminate` are registered wrap functions |
| Riching.ResolveWrap | src/torchslime/handler/riching.py:181-187 | a string resolves through the registry and to NOTHING when missing; a callable or NOTHING is returned as given |
| Riching.ApplyWrap | src/torchslime/handler/riching.py:194-211 | a registered wrap replaces the first renderable by it followed by its marker and keeps the rest |
| Riching.PlainGroup | src/torchslime/handler/riching.py:112-131 | the class name is always first; the attribute table follows exactly when attributes are displayed and there is at least one |
| Riching.HandlerProfile | src/torchslime/handler/riching.py:105-143 | a non-target is shown plain without warning; a target whose wrap function resolves to nothing is shown plain with a warning; otherwise the target is wrapped |
| Riching.UnknownKeyWarns | src/torchslime/handler/riching.py:135-142 | an unregistered key leaves a target unwrapped and logs the warning |
| Riching.ExceptionKeyMarksName | src/torchslime/handler/riching.py:194-201 | the `exception` key marks exactly the class name of a target and keeps the attribute table |
| Riching.RootNeverWrapped | src/torchslime/handler/riching.py:152 | the root is profiled with the defaults: attributes shown, never wrapped, no warning, whatever `profile` was given |
| Riching.Visit | src/torchslime/handler/riching.py:157-166 | `visit` pops the front rich node and gives it one new subtree per child, in order, each showing that child's profile and queued in order; nothing else changes |
| Riching.VisitStep | src/torchslime/handler/riching.py:157-168 | one turn keeps the handler queue and the rich-node queue in step and every rich node below the root showing its handler's profile |
| Riching.Finished | src/torchslime/handler/riching.py:145-169 | when both queues are empty, the rich tree read from the root mirrors the handler tree |
| Riching.Profile | src/torchslime/handler/riching.py:145-169 | `profile` builds one rich node per handler, and the rich tree read from the root mirrors the handler tree: same shape, children in iteration order, each below the root with its own profile |
| Riching.PopAllIsFilter | src/torchslime/handler/riching.py:233-234 | popping each ignored key keeps exactly the entries whose key is not ignored, in order |
| Riching.WrapperProfileKeepsOthers | src/torchslime/handler/riching.py:221-237 | the wrapper profile keeps the class name and exactly the attributes other than `exec_ranks`, `wrappers` and `lifecycle`, in their order |
| Riching.WrapperTable | src/torchslime/handler/riching.py:241-251 | the table has columns `index` and `wrapper/container`, a bold header row for the container, then one row per wrapper in container order indexed `0..n-1` |
| Riching.WrapperIndexesReadBack | src/torchslime/handler/riching.py:248-249 | the index cells read back as `0, 1, ..., n-1`, so no two rows share an index |
| StateHooks.Lookup | torchslime/core/hooks/state.py:41-151 | exactly the keys `train`, `eval`, `val`, `predict` are registered, each naming the state registered under it |
| StateHooks.RegistryRoundTrip | torchslime/core/hooks/state.py:41-151 | every state is found under its own key, and the four `__str__` names are pairwise different |
| StateHooks.ModelMode | torchslime/core/hooks/state.py:47-88 | only the train state puts the model in training mode |
| StateHooks.DatasetProvider | torchslime/core/hooks/state.py:50-92 | only the train state uses the train provider |
| StateHooks.PhaseKey | torchslime/core/hooks/state.py:59-115 | the train state uses the `train` sub-entry; the eval state and its subclasses use `eval` |
| StateHooks.InitItem | torchslime/core/hooks/state.py:29-35 | the init item has exactly the keys `loss_value`, `loss_value_count`, `metrics`, `metrics_count`, in that order, each empty |
| StateHooks.InitItemValid | torchslime/core/hooks/state.py:29-35 | those four keys are distinct |
| StateHooks.EnsureSlot | torchslime/core/hooks/state.py:21-27 | the slot becomes `{}` only when it is NOTHING; a present slot is left alone |
| StateHooks.InitAvgInnerCtx | torchslime/core/hooks/state.py:59-62 | init makes the slot exist and leaves every other slot and the iteration fields alone |
| StateHooks.InitNeverOverwrites | torchslime/core/hooks/state.py:99-102 | after init the sub-entry exists; an entry already there, and every other phase's entry, reads as before; a missing one is a fresh init item |
| StateHooks.InitIdempotent | torchslime/core/hooks/state.py:59-62 | running init twice is running it once |
| StateHooks.GetAvgInnerCtx | torchslime/core/hooks/state.py:68-69 | the state's sub-entry, NOTHING when it or the slot is missing |
| StateHooks.ClearAvgInfo | torchslime/core/hooks/state.py:71-75 | clearing makes the slot exist and leaves the other slots alone |
| StateHooks.ClearResets | torchslime/core/hooks/state.py:111-115 | after clearing, the sub-entry is a fresh init item whatever it held, the state's loss and metrics read NOTHING except that the val state's metrics read `{}`, and the other phase's fields are untouched |
| StateHooks.PrefixedValid | torchslime/core/hooks/state.py:134-137 | distinct keys stay distinct once renamed |
| StateHooks.ValRenaming | torchslime/core/hooks/state.py:127-138 | the renaming loop builds exactly the entry-by-entry renaming: same size, same order, same values, distinct keys |
| StateHooks.GetAvgLossValueAndMetrics | torchslime/core/hooks/state.py:54-138 | the train state reads the train fields and the eval and predict states the eval fields; the val state always returns a metrics dict, `{}` when the eval metrics are NOTHING and otherwise their `val_` renaming, and a loss value exactly where the eval loss is set, holding its `val_` renaming |
| StateHooks.SetAvgLossValueAndMetrics | torchslime/core/hooks/state.py:64-106 | setting writes only the state's own fields and leaves `ctx.inner` and the other phase's fields alone |
| StateHooks.SetThenGet | torchslime/core/hooks/state.py:94-138 | what was set is read back; the val state reads it back renamed key by key |
| StateHooks.SubclassesShareEval | torchslime/core/hooks/state.py:121-151 | the val and predict states act exactly as the eval state on the slot, the sub-entry, the fields, the model mode and the provider |

## Left out

- Eligibility and wrapping inside `ctx.hook_ctx.launch.handler_call` (torchslime/core/handlers/__init__.py:54) are not part of this model. `Signals.Env` takes eligibility as an abstract predicate and each plain handler's body as an abstract outcome.
- `BaseList.create__`, `BaseList.remove`, `BaseGenerator` and `CompositeBFT` are not part of this model. The model assumes:
  - `remove_self` deletes the first occurrence through `__delitem__`, which clears the parent;
  - `check_target_handler` treats `None`/NOTHING targets as an empty list;
  - `CompositeBFT` is a first-in-first-out traversal that calls `visit` once per handler, children in `composite_iterable__` order;
  - a plugin generator advanced by `BaseGenerator` runs up to its next `yield`.
- Extended slices (step other than 1) in `__setitem__`/`__delitem__` are left out. Only `s[lo:hi]` is modelled.
- Terminal and rich rendering are left out: `_get_display_list`, `Cursor` colours, the indicator texts of the wrap functions, and `Text`/`Table`/`Tree` styling. Renderables are opaque tokens, and a registered wrap function is a marker.
- Logger text is left out. Warnings are recorded by kind only.
- `src/torchslime/utils/store.py` is a global configuration singleton. It is not part of this model, beyond "observed" in the progress display state.
- `src/torchslime/utils/typing/__init__.py` is an import shim. It is not part of this model.
- Left out as torch, inspection, timing and floating-point helpers:
  - `get_device`, `get_dtype`, `type_cast` and `count_params`;
  - `is_torch_distributed_ready`, `get_exec_info` and `IterTool.time`;
  - `safe_divide`.
- External collaborators are left out:
  - `get_copy` and `get_empty` are modelled as the contents and as an empty dict;
  - `model.train()`/`model.eval()` is a mode value;
  - the dataset providers are a provider value;
  - `ctx_check` is not modelled;
  - the body of `GatherAverageHandler` and `meter_profile` are opaque; the latter is a text parameter.
- `State('train')` and the other state arguments of the built handlers are not modelled. Only class and id are.
- The `Count` thread-safety TODO (torchslime/core/handlers/__init__.py:45) is left out: the model is sequential.
- `VanillaBuild.after_build_train` is modelled, in the tree model, as the corrected no-op that leaves the tree alone; how it raises as written is stated only at the level of the call order (see Findings).
- `DistributedLaunch` does nothing before its `yield`, so only the part after it is modelled (`Launch.AfterBuild`). It has no predict override.
- `LaunchHook.get_device_info` is device I/O and is left out.
- `Riching.Profile` does not return the warnings `handler_profile` logs for targets whose wrap function resolves to nothing. `Riching.HandlerProfile` states them per handler.
- `Riching.ApplyWrap` says nothing about a user-supplied callable's result: that code is not visible.
- `Riching.ProgressContext` and `Riching.ProgressContextAsWritten` assume three things about code outside this model:
  - that `display_ctx.assign__` restores the previous assignment when the body raises; that code is not visible;
  - that `create_progress__`, which is `pass` in the base interface, is overridden to return a progress and a task;
  - that the profile variant's detaching of `handler_progress.progress` is the same as detaching the single progress id used here.
- `Handlers.SetSlice` assumes the assigned value can be iterated twice, as a list or tuple can: the source hands it to the list's own slice assignment and then walks it again to set parents, and a one-shot iterator would be exhausted by the first use, leaving the new nodes without a parent.
- `Utils.BoundClip` covers integer bounds and values only; floats, and with them NaN comparisons, are not modelled.
- `Utils.IterNth` and `Utils.InfIterNth` assume a re-iterable input such as a list: on a one-shot iterator the second pass of `inf_iter` finds nothing, so asking for an item past the first pass never returns.
- `Launch.GatherAll` and `Launch.AfterBuild` state only that the invariant is kept. What they add is stated by `Launch.GatherAllGathers`, `Launch.DistributedGathersEveryMeter`, `Launch.DistributedAddsOnePerMeter` and `Launch.OnlyDistributedRewrites`.
- `Launch.GatherOneCreates` (and with it `Launch.InsertEachCreates`, `Launch.GatherAllGathers` and `Launch.DistributedGathersEveryMeter`) takes the newer `GatherAverageHandler(id=...)` to set the id as the older `_id=` does; under the older `Handler.__init__` the keyword `id` is rejected.
- `StateHooks.GetAvgLossValueAndMetrics` assumes that iterating the items of NOTHING yields nothing and that the loss wrapper's copy of NOTHING is NOTHING; `NOTHING` and the loss wrapper are not part of this model.
- `Utils.ListTake` states only the length of a tuple result. `Utils.TakeEach` states it element by element.
- `dict_to_key_value_str_list`, `concat_format` and `escape` turn the wrapper listing into text. They are not part of this model.
- Two source facts are kept as written and stated as lemmas rather than excluded by preconditions:
  - `insert` and `__setitem__` accept a handler another container still holds (the code warns and overwrites; it does not reject);
  - nothing stops a container from being inserted below itself.

## Findings

| source | as written | input that shows it | evidently intended | confidence | as-written member | corrected member |
|---|---|---|---|---|---|---|
| src/torchslime/handler/riching.py:56-58 | `remove_progress__` follows the `yield` in straight-line code with no `finally` | a handler body that raises inside the progress context | the progress bar is removed and detached however the body ends | not executed | Riching.ProgressContextAsWritten, Riching.ProgressLeaksOnRaise | Riching.ProgressContext, Riching.ProgressAlwaysRemoved |
| torchslime/core/hooks/build.py:100-102 | `after_build_train` is declared without `self` and calls zero-argument `super()`, whose first argument is then the context | `_build_train(ctx)` with `VanillaBuild` as the build hook | a no-op after-build, so the launch hook's and the plugins' after-builds run as for eval and predict | not executed | Build.RaisesAsWritten, Build.TrainBuildStopsEarly | Build.RaisesCorrected, Build.BuildCompletes |
| torchslime/utils/__init__.py:178-180 | `list_like[index] if index < list_len else NOTHING` checks only the upper bound | `list_take([7], -2)` raises IndexError | NOTHING for every out-of-bounds index, as the comment at line 179 says | not executed | Utils.ListTake, Utils.ListTakeRaisesBelowBounds | Utils.ListTakeBounded, Utils.ListTakeBoundedAgrees |
