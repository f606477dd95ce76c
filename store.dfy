/**
 The devtools store: a local mirror of the element tree that lives in the
 backend, kept in sync by four bridge handlers (root, mount, update, unmount).

 The store holds an id index (id to element), a parent index (child id to
 parent id) and the root sequence, and announces changes by emitting a key:
 an element id after a mount or an update, the literal key "roots" whenever
 the root sequence is rebuilt. The emitted keys are recorded in a log.

 `State` and the transition functions below are the value-level model of one
 handler call; the class `Store` is the object the source updates in place,
 and each of its handlers is proved to move its state by that transition.
 */
module DevtoolsStore {
  import opened RootSequence

  datatype Option<T> = None | Some(value: T)

  /** `Map.prototype.get`: the entry for `k`, or absent. */
  function Get<K, V>(m: map<K, V>, k: K): Option<V>
  {
    if k in m then Some(m[k]) else None
  }

  /** The part of a backend element the store interprets: its id and the
      ordered ids of its children. */
  datatype Element = Element(id: string, children: seq<string>)

  /** The key emitted whenever the root sequence changes. */
  const RootsKey: string := "roots"

  /** Everything a handler reads or changes: the three fields of the store
      and the keys emitted so far. */
  datatype State = State(
    elements: map<string, Element>,
    parents: map<string, string>,
    roots: seq<string>,
    log: seq<string>)

  /** The state of a freshly constructed store. */
  function Initial(): State
  {
    State(map[], map[], [], [])
  }

  /** The object invariant: the root sequence holds no id twice. */
  predicate Consistent(s: State)
  {
    NoDuplicates(s.roots)
  }

  /** The parent index after `children.forEach(c => parents.set(c, parent))`:
      the children are linked first to last. */
  function LinkChildren(parents: map<string, string>, children: seq<string>, parent: string): (r: map<string, string>)
    ensures forall c | c in children :: c in r && r[c] == parent
    ensures forall c | c in parents && c !in children :: c in r && r[c] == parents[c]
    ensures forall c | c in r :: c in parents || c in children
    decreases |children|
  {
    if children == [] then parents
    else LinkChildren(parents, children[..|children| - 1], parent)[children[|children| - 1] := parent]
  }

  /** `onBridgeRoot(id)`: append `id` to the roots and emit "roots", unless
      `id` is already a root. */
  function Root(s: State, id: string): (r: State)
    ensures r.elements == s.elements && r.parents == s.parents
    ensures id in r.roots
    ensures r.log == s.log || r.log == s.log + [RootsKey]
  {
    if id in s.roots then s
    else s.(roots := s.roots + [id], log := s.log + [RootsKey])
  }

  /** `onBridgeMount(element)`: store the element, link each child to it,
      emit its id. */
  function Mount(s: State, e: Element): (r: State)
    ensures e.id in r.elements && r.elements[e.id] == e
    ensures forall c | c in e.children :: c in r.parents && r.parents[c] == e.id
    ensures r.roots == s.roots && r.log == s.log + [e.id]
  {
    s.(elements := s.elements[e.id := e],
       parents := LinkChildren(s.parents, e.children, e.id),
       log := s.log + [e.id])
  }

  /** `onBridgeUpdated(element)`: store the element, emit its id. */
  function Update(s: State, e: Element): (r: State)
    ensures e.id in r.elements && r.elements[e.id] == e
    ensures r.parents == s.parents && r.roots == s.roots && r.log == s.log + [e.id]
  {
    s.(elements := s.elements[e.id := e], log := s.log + [e.id])
  }

  /** `onBridgeUnmounted(id)`: delete `id` from both indexes; if it is a root,
      splice it out of the roots and emit "roots". The id itself is not
      emitted, and entries whose parent is `id` stay. */
  function Unmount(s: State, id: string): (r: State)
    ensures id !in r.elements && id !in r.parents
    ensures r.elements.Keys == s.elements.Keys - {id} && r.parents.Keys == s.parents.Keys - {id}
    ensures r.log == s.log || r.log == s.log + [RootsKey]
  {
    s.(elements := s.elements - {id},
       parents := s.parents - {id},
       roots := RemoveFirst(s.roots, id),
       log := if IndexOf(s.roots, id) >= 0 then s.log + [RootsKey] else s.log)
  }

  /** One message from the bridge, by channel. */
  datatype Event =
    | RootEvent(id: string)
    | MountEvent(element: Element)
    | UpdateEvent(element: Element)
    | UnmountEvent(id: string)

  /** Every handler emits at most one key, and never rewrites earlier ones. */
  function Apply(s: State, ev: Event): (r: State)
    ensures s.log <= r.log && |r.log| <= |s.log| + 1
  {
    match ev
    case RootEvent(id) => Root(s, id)
    case MountEvent(e) => Mount(s, e)
    case UpdateEvent(e) => Update(s, e)
    case UnmountEvent(id) => Unmount(s, id)
  }

  /** The events applied one after another, in delivery order. */
  function Run(s: State, events: seq<Event>): (r: State)
    ensures s.log <= r.log && |r.log| <= |s.log| + |events|
    decreases |events|
  {
    if events == [] then s
    else
      var t := Apply(s, events[0]);
      var r := Run(t, events[1..]);
      assert s.log == t.log[..|s.log|] && t.log == r.log[..|t.log|];
      r
  }

  class Store {
    var idToElement: map<string, Element>
    var idToParentID: map<string, string>
    /** Never changed in place: every change assigns a new sequence. */
    var roots: seq<string>
    /** The keys passed to `emit`, oldest first. */
    ghost var log: seq<string>

    ghost function Snapshot(): State
      reads this
    {
      State(idToElement, idToParentID, roots, log)
    }

    ghost predicate Valid()
      reads this
    {
      Consistent(Snapshot())
    }

    constructor ()
      ensures Valid()
      ensures Snapshot() == Initial()
    {
      idToElement := map[];
      idToParentID := map[];
      roots := [];
      log := [];
    }

    /** The element stored under `id`, or absent. */
    function GetElement(id: string): (r: Option<Element>)
      reads this
      ensures r.Some? <==> id in idToElement
      ensures r.Some? ==> r.value == idToElement[id]
    {
      Get(idToElement, id)
    }

    /** The parent id recorded for `id`, or absent (the source spells this
        getter `geParent`). */
    function GeParent(id: string): (r: Option<string>)
      reads this
      ensures r.Some? <==> id in idToParentID
      ensures r.Some? ==> r.value == idToParentID[id]
    {
      Get(idToParentID, id)
    }

    method OnBridgeMount(element: Element)
      requires Valid()
      modifies this
      ensures Valid()
      ensures Snapshot() == Mount(old(Snapshot()), element)
    {
      var id := element.id;
      idToElement := idToElement[id := element];

      var i := 0;
      while i < |element.children|
        invariant 0 <= i <= |element.children|
        invariant idToParentID == LinkChildren(old(idToParentID), element.children[..i], id)
        invariant idToElement == old(idToElement)[id := element]
        invariant roots == old(roots) && log == old(log)
      {
        var childID := element.children[i];
        assert element.children[..i + 1][..i] == element.children[..i];
        idToParentID := idToParentID[childID := id];
        i := i + 1;
      }
      assert element.children[..i] == element.children;

      log := log + [id];
    }

    method OnBridgeRoot(id: string)
      requires Valid()
      modifies this
      ensures Valid()
      ensures Snapshot() == Root(old(Snapshot()), id)
    {
      if id !in roots {
        AppendNoDuplicates(roots, id);
        roots := roots + [id];
        log := log + [RootsKey];
      }
    }

    method OnBridgeUnmounted(id: string)
      requires Valid()
      modifies this
      ensures Valid()
      ensures Snapshot() == Unmount(old(Snapshot()), id)
    {
      idToElement := idToElement - {id};

      if id in idToParentID {
        idToParentID := idToParentID - {id};
      }

      var index := IndexOf(roots, id);
      if index >= 0 {
        RemoveFirstNoDuplicates(roots, id);
        roots := roots[..index] + roots[index + 1..];
        log := log + [RootsKey];
      }
    }

    method OnBridgeUpdated(element: Element)
      requires Valid()
      modifies this
      ensures Valid()
      ensures Snapshot() == Update(old(Snapshot()), element)
    {
      var id := element.id;
      idToElement := idToElement[id := element];

      log := log + [id];
    }
  }
}
