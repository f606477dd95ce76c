# Devtools store, modelled in Dafny

The React devtools frontend keeps a local mirror of the element tree that
lives in the backend. The `Store` class in `src/devtools/store.js` owns three
structures:

- the id index `_idToElement` (id to element);
- the parent index `_idToParentID` (child id to parent id);
- the root sequence `roots`, an ordered list of root ids that is never changed
  in place and is rebuilt on every change.

Four bridge handlers keep the structures in step with the backend:

- `onBridgeRoot` appends a new root id;
- `onBridgeMount` stores an element and links each of its children to it;
- `onBridgeUpdated` replaces a stored element;
- `onBridgeUnmounted` deletes an id from both indexes and splices it out of the roots.

The store announces changes through `emit(key)`. The key is an element id, or
the literal `"roots"` when the root sequence was rebuilt.

The project has four modules:

- `RootSequence` (`roots.dfy`): the root-sequence operations `indexOf` and the
  slice-and-concat splice, with a filter as the reference definition, and the
  no-duplicates invariant.
- `DevtoolsStore` (`store.dfy`): the element and state data model. It has one
  pure transition function per handler (`Root`, `Mount`, `Update`, `Unmount`)
  and the events-in-order fold `Run`. It also holds the class `Store`, whose
  fields are the source's three structures plus a ghost log of emitted keys.
  Each handler is a method that updates those fields the way the source does:
  - `onBridgeMount` walks the children with a `while` loop;
  - `onBridgeUnmounted` deletes the key only after the `has` check, and splices
    at the position `IndexOf` returns.

  Each method is proved to move the object's state by its transition function
  and to keep the invariant.
- `StoreProperties` (`store_properties.dfy`): what each transition does to
  every part of the state. It also proves that every event keeps the roots
  duplicate-free.
- `StoreScenarios` (`store_scenarios.dfy`): event sequences and the state and
  emissions they leave.

`onBridgeUnmounted` (lines 61-76) never emits the unmounted id. It emits
`"roots"` only when the id was a root. So unmounting an unknown id emits
nothing, unmounting a mounted root emits `"roots"` alone, and
`StoreScenarios.LifecycleFromEmpty` emits five keys.

`onBridgeUpdated` (line 81) stores its element under any id: one never mounted,
or one already unmounted. So the id index holds every id that was last mounted
or updated and not unmounted since, not only the mounted ids
(`StoreScenarios.UpdateAfterUnmount`).

## Model

| member | source | states |
|---|---|---|
| `DevtoolsStore.Store.constructor` | src/devtools/store.js:17-22 | a new store has an empty id index, an empty parent index, empty roots and has emitted nothing, and satisfies the invariant |
| `DevtoolsStore.Store.GetElement` | src/devtools/store.js:33-35 | returns the element stored under the id, or absent when the id is not a key; reads only, changes nothing |
| `DevtoolsStore.Store.GeParent` | src/devtools/store.js:37-39 | returns the parent id recorded for the id, or absent when it has none; reads only, changes nothing |
| `DevtoolsStore.Store.OnBridgeMount` | src/devtools/store.js:41-51 | the loop over the children updates the parent index in place; the new state is exactly `Mount` of the old one, and roots stay duplicate-free |
| `DevtoolsStore.Store.OnBridgeRoot` | src/devtools/store.js:53-59 | the new state is exactly `Root` of the old one: append and emit "roots" only when the id is absent; roots stay duplicate-free |
| `DevtoolsStore.Store.OnBridgeUnmounted` | src/devtools/store.js:61-76 | the new state is exactly `Unmount` of the old one: both keys deleted, roots spliced at `indexOf` with one "roots" emission when present; roots stay duplicate-free |
| `DevtoolsStore.Store.OnBridgeUpdated` | src/devtools/store.js:78-84 | the new state is exactly `Update` of the old one: element replaced, id emitted, parent index and roots untouched |
| `DevtoolsStore.LinkChildren` | src/devtools/store.js:46-48 | after the `forEach` every listed child maps to the parent, every other entry of the parent index keeps its value, and no other key appears |
| `DevtoolsStore.Root` | src/devtools/store.js:53-59 | the root handler on values: both indexes unchanged, the id is a root afterwards, and at most one "roots" is emitted |
| `DevtoolsStore.Mount` | src/devtools/store.js:41-51 | the mount handler on values: the element is stored under its id, each child points at it, the roots are unchanged and the id is emitted once |
| `DevtoolsStore.Update` | src/devtools/store.js:78-84 | the update handler on values: the element is stored under its id, the parent index and roots are unchanged and the id is emitted once |
| `DevtoolsStore.Unmount` | src/devtools/store.js:61-76 | the unmount handler on values: the id is removed as a key of both indexes and no other key is removed; the only possible emission is "roots" |
| `DevtoolsStore.Apply` | src/devtools/store.js:27-30 | delivering one event on its channel calls that channel's handler; the handler appends at most one key to the log and never rewrites earlier ones |
| `DevtoolsStore.Run` | src/devtools/store.js:27-30 | events applied in delivery order; the log only grows, by at most one key per event |
| `RootSequence.IndexOf` | src/devtools/store.js:69 | the result is -1 exactly when the id is absent, and otherwise a position holding the id with no earlier occurrence |
| `RootSequence.RemoveFirstIsWithout` | src/devtools/store.js:69-73 | on duplicate-free roots the splice equals filtering the id out, so the other roots keep their relative order |
| `RootSequence.RemoveFirstMembership` | src/devtools/store.js:69-73 | on duplicate-free roots an id is in the spliced sequence exactly when it was a root and is not the removed id |
| `RootSequence.RemoveFirstLength` | src/devtools/store.js:69-73 | `RemoveFirst`, the slice-and-concat splice: splicing out a present id shortens the roots by one; an absent id leaves them unchanged |
| `RootSequence.RemoveFirstNoDuplicates` | src/devtools/store.js:69-73 | the splice keeps a duplicate-free sequence duplicate-free |
| `RootSequence.AppendNoDuplicates` | src/devtools/store.js:55-56 | appending an id that the `includes` check found absent keeps the roots duplicate-free |
| `RootSequence.RemoveFirstAfterAppend` | src/devtools/store.js:53-76 | splicing out an id just appended to roots that lacked it gives back the original roots |
| `StoreProperties.LinkChildrenAt` | src/devtools/store.js:46-48 | after the `forEach` every listed child maps to the parent, and every other entry of the parent index is unchanged |
| `StoreProperties.RootEffect` | src/devtools/store.js:53-59 | a new id is appended last with exactly one "roots" emission; a known id leaves the whole state and the log unchanged; the indexes never change |
| `StoreProperties.RootIdempotent` | src/devtools/store.js:55-58 | announcing the same root a second time is a no-op |
| `StoreProperties.RootConsistent` | src/devtools/store.js:55-56 | the root handler keeps the roots duplicate-free |
| `StoreProperties.MountEffect` | src/devtools/store.js:41-51 | the element is stored under its id and other ids keep their entries; each child maps to the id; every other parent entry is unchanged (a child dropped by a re-mount keeps its link); roots unchanged; the id emitted exactly once |
| `StoreProperties.UpdateEffect` | src/devtools/store.js:78-84 | the element is stored under its id and other ids keep their entries; the parent index and roots are unchanged; the id is emitted exactly once |
| `StoreProperties.UnmountMaps` | src/devtools/store.js:63-67 | the id is a key of neither index afterwards; every other key keeps its value in both, including entries whose value is the id |
| `StoreProperties.UnmountLeavesDanglingParent` | src/devtools/store.js:63-67 | a child whose parent is unmounted still points at the parent, which is no longer in the id index |
| `StoreProperties.UnmountRoots` | src/devtools/store.js:69-75 | the id is never a root afterwards and other roots stay roots; a root is filtered out (length one less, order kept) with exactly one "roots" emission; otherwise roots and log are unchanged, so the id itself is never emitted |
| `StoreProperties.UnmountUnknown` | src/devtools/store.js:61-76 | unmounting an id absent from both indexes and the roots changes no state and emits nothing |
| `StoreProperties.UnmountConsistent` | src/devtools/store.js:69-73 | the unmount handler keeps the roots duplicate-free |
| `StoreProperties.RootThenUnmount` | src/devtools/store.js:53-76 | unmounting a root just announced restores the previous roots, after two "roots" emissions |
| `StoreProperties.ApplyConsistent` | src/devtools/store.js:41-84 | every one of the four handlers keeps the roots duplicate-free |
| `StoreProperties.RunConsistent` | src/devtools/store.js:41-84 | any sequence of events, applied in order, keeps the roots duplicate-free |
| `StoreProperties.ReachableConsistent` | src/devtools/store.js:17-84 | starting from the empty store, the roots never hold an id twice, whatever events arrive |
| `StoreScenarios.RootAnnouncedTwice` | src/devtools/store.js:53-59 | announcing a new root twice leaves it in the roots once, with one "roots" emission |
| `StoreScenarios.RemountKeepsDroppedChild` | src/devtools/store.js:41-51 | re-mounting x with children [a, c] after [a, b] leaves a, b and c all pointing at x |
| `StoreScenarios.UpdateKeepsParentLinks` | src/devtools/store.js:78-84 | an update with no children keeps the child link made by the earlier mount |
| `StoreScenarios.UpdateAfterUnmount` | src/devtools/store.js:61-84 | an update right after an unmount stores the element again under its id, while the parent entry stays deleted and the roots stay spliced |
| `StoreScenarios.UnmountMountedRoot` | src/devtools/store.js:61-76 | a mounted root that is unmounted is gone from the id index and the roots, and the unmount emits "roots" only |
| `StoreScenarios.UnmountParentFirst` | src/devtools/store.js:61-67 | mounting p with child a and unmounting p leaves a pointing at p, which is no longer stored |
| `StoreScenarios.LifecycleFromEmpty` | src/devtools/store.js:41-84 | root "1", mount "1" with child "2", mount and update "2", unmount "2" then "1": everything is empty and the emitted keys are roots, 1, 2, 2, roots |

## Left out

- The `EventEmitter` machinery: listener registration, synchronous dispatch and listener order. `emit(key)` is modelled only as appending the key to the ghost `log`. Node's special handling of an emitted key `"error"` with no listener is also part of that machinery and is not modelled.
- The constructor's bridge argument and the four `bridge.on` registrations (lines 24-31) are transport wiring. The constructor only initialises empty state. Delivering an event is a call of the matching handler method, or `Apply`/`Run` on values.
- The `debug` helper (lines 8-10) has no effect and is not modelled.
- Element fields other than `id` and `children` are never read by the store and are not modelled. Elements are stored as values: the store keeps a reference to the caller's object, so later mutation of that object through another alias is not captured.
- The Flow annotations and the `Element` and `Bridge` types are not part of this model (`./types` and `../types`).
- The source signals a roots change through the identity of the `roots` array: every change assigns a new array, so consumers compare references (lines 20-22, 56, 71-73). A Dafny `seq` has no identity, so in the model a roots change is visible only as a `"roots"` entry in the log.
- Element ids and the key `"roots"` share one string space, as in the source. An element whose id is `"roots"` is indistinguishable in the log from a roots change.
