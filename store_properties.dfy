/**
 What each bridge handler of the devtools store does to the id index, the
 parent index, the root sequence and the emitted keys, stated for every
 state, and the invariant all four handlers keep.
 */
module StoreProperties {
  import opened RootSequence
  import opened DevtoolsStore

  /** Linking children sets each listed child to the parent and leaves every
      other entry of the parent index as it was. */
  lemma {:induction false} LinkChildrenAt(parents: map<string, string>, children: seq<string>, parent: string, c: string)
    ensures c in children ==> Get(LinkChildren(parents, children, parent), c) == Some(parent)
    ensures c !in children ==> Get(LinkChildren(parents, children, parent), c) == Get(parents, c)
    decreases |children|
  {
    if children != [] {
      var init := children[..|children| - 1];
      LinkChildrenAt(parents, init, parent, c);
      assert children == init + [children[|children| - 1]];
    }
  }

  // ---- onBridgeRoot ----

  /** A new root is appended last with one "roots" emission; a known root
      changes nothing; the indexes are never touched. */
  lemma RootEffect(s: State, id: string)
    ensures id !in s.roots ==> Root(s, id).roots == s.roots + [id] && Root(s, id).log == s.log + [RootsKey]
    ensures id in s.roots ==> Root(s, id) == s
    ensures Root(s, id).elements == s.elements && Root(s, id).parents == s.parents
    ensures id in Root(s, id).roots
  {
  }

  /** Announcing the same root twice is the same as announcing it once. */
  lemma RootIdempotent(s: State, id: string)
    ensures Root(Root(s, id), id) == Root(s, id)
  {
  }

  lemma RootConsistent(s: State, id: string)
    requires Consistent(s)
    ensures Consistent(Root(s, id))
  {
    if id !in s.roots {
      AppendNoDuplicates(s.roots, id);
    }
  }

  // ---- onBridgeMount ----

  /** Mounting stores the element under its id, points each of its children
      at it, keeps every other entry of both indexes (so a child dropped by a
      re-mount keeps its old link), keeps the roots, and emits the id once. */
  lemma MountEffect(s: State, e: Element, k: string)
    ensures Get(Mount(s, e).elements, e.id) == Some(e)
    ensures k != e.id ==> Get(Mount(s, e).elements, k) == Get(s.elements, k)
    ensures k in e.children ==> Get(Mount(s, e).parents, k) == Some(e.id)
    ensures k !in e.children ==> Get(Mount(s, e).parents, k) == Get(s.parents, k)
    ensures Mount(s, e).roots == s.roots
    ensures Mount(s, e).log == s.log + [e.id]
  {
    LinkChildrenAt(s.parents, e.children, e.id, k);
  }

  // ---- onBridgeUpdated ----

  /** Updating stores the element under its id, leaves the parent index and
      the roots alone, and emits the id once. */
  lemma UpdateEffect(s: State, e: Element, k: string)
    ensures Get(Update(s, e).elements, e.id) == Some(e)
    ensures k != e.id ==> Get(Update(s, e).elements, k) == Get(s.elements, k)
    ensures Update(s, e).parents == s.parents
    ensures Update(s, e).roots == s.roots
    ensures Update(s, e).log == s.log + [e.id]
  {
  }

  // ---- onBridgeUnmounted ----

  /** Unmounting removes `id` as a key of both indexes and keeps every other
      key with its value, including entries whose value is `id`. */
  lemma UnmountMaps(s: State, id: string, k: string)
    ensures id !in Unmount(s, id).elements && id !in Unmount(s, id).parents
    ensures k != id ==> Get(Unmount(s, id).elements, k) == Get(s.elements, k)
    ensures k != id ==> Get(Unmount(s, id).parents, k) == Get(s.parents, k)
  {
  }

  /** A child of an unmounted parent keeps a parent link to an id that is no
      longer in the id index. */
  lemma UnmountLeavesDanglingParent(s: State, id: string, child: string)
    requires child != id && Get(s.parents, child) == Some(id)
    ensures Get(Unmount(s, id).parents, child) == Some(id)
    ensures Get(Unmount(s, id).elements, id) == None
  {
  }

  /** A root is spliced out of the roots, every other root keeps its relative
      order, and "roots" is emitted once; an id that is not a root leaves the
      roots and the log as they were. The only key an unmount can emit is
      "roots": never the id. */
  lemma UnmountRoots(s: State, id: string, y: string)
    requires Consistent(s)
    ensures id !in Unmount(s, id).roots
    ensures y != id ==> (y in Unmount(s, id).roots <==> y in s.roots)
    ensures id in s.roots ==>
      && Unmount(s, id).roots == Without(s.roots, id)
      && |Unmount(s, id).roots| == |s.roots| - 1
      && Unmount(s, id).log == s.log + [RootsKey]
    ensures id !in s.roots ==> Unmount(s, id).roots == s.roots && Unmount(s, id).log == s.log
  {
    RemoveFirstIsWithout(s.roots, id);
    RemoveFirstMembership(s.roots, id, id);
    RemoveFirstMembership(s.roots, id, y);
    RemoveFirstLength(s.roots, id);
  }

  /** Unmounting an id that is in neither index nor the roots changes no
      state and emits nothing. */
  lemma UnmountUnknown(s: State, id: string)
    requires id !in s.elements && id !in s.parents && id !in s.roots
    ensures Unmount(s, id) == s
  {
    assert s.elements - {id} == s.elements;
    assert s.parents - {id} == s.parents;
  }

  lemma UnmountConsistent(s: State, id: string)
    requires Consistent(s)
    ensures Consistent(Unmount(s, id))
  {
    RemoveFirstNoDuplicates(s.roots, id);
  }

  /** Announcing a new root and then unmounting it restores the roots and
      leaves two "roots" emissions. */
  lemma RootThenUnmount(s: State, id: string)
    requires id !in s.roots
    ensures Unmount(Root(s, id), id).roots == s.roots
    ensures Unmount(Root(s, id), id).log == s.log + [RootsKey, RootsKey]
  {
    RemoveFirstAfterAppend(s.roots, id);
  }

  // ---- the invariant ----

  lemma ApplyConsistent(s: State, ev: Event)
    requires Consistent(s)
    ensures Consistent(Apply(s, ev))
  {
    match ev
    case RootEvent(id) => RootConsistent(s, id);
    case MountEvent(e) =>
    case UpdateEvent(e) =>
    case UnmountEvent(id) => UnmountConsistent(s, id);
  }

  lemma {:induction false} RunConsistent(s: State, events: seq<Event>)
    requires Consistent(s)
    ensures Consistent(Run(s, events))
    decreases |events|
  {
    if events != [] {
      ApplyConsistent(s, events[0]);
      RunConsistent(Apply(s, events[0]), events[1..]);
    }
  }

  /** Whatever events the bridge delivers, the roots of a store that started
      empty never hold an id twice. */
  lemma ReachableConsistent(events: seq<Event>)
    ensures NoDuplicates(Run(Initial(), events).roots)
  {
    RunConsistent(Initial(), events);
  }
}
