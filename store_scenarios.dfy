/**
 Event sequences for the devtools store and the state and emissions they
 leave behind.
 */
module StoreScenarios {
  import opened RootSequence
  import opened DevtoolsStore
  import opened StoreProperties

  /** A root announced twice occurs once and is announced with a single
      "roots" emission. */
  lemma RootAnnouncedTwice(s: State, id: string)
    requires Consistent(s) && id !in s.roots
    ensures Run(s, [RootEvent(id), RootEvent(id)]).roots == s.roots + [id]
    ensures NoDuplicates(Run(s, [RootEvent(id), RootEvent(id)]).roots)
    ensures Run(s, [RootEvent(id), RootEvent(id)]).log == s.log + [RootsKey]
  {
    var events := [RootEvent(id), RootEvent(id)];
    assert Run(s, events) == Run(Root(s, id), events[1..]);
    assert Run(Root(s, id), events[1..]) == Root(Root(s, id), id);
    RootIdempotent(s, id);
    RootConsistent(s, id);
  }

  /** Re-mounting `x` with children [a, c] after [a, b]: the last mount wins
      for a and c, and b keeps its link to x. */
  lemma RemountKeepsDroppedChild(s: State, x: string, a: string, b: string, c: string)
    requires b != a && b != c
    ensures
      var t := Mount(Mount(s, Element(x, [a, b])), Element(x, [a, c]));
      Get(t.parents, a) == Some(x) && Get(t.parents, b) == Some(x) && Get(t.parents, c) == Some(x)
  {
    var t1 := Mount(s, Element(x, [a, b]));
    MountEffect(s, Element(x, [a, b]), b);
    MountEffect(t1, Element(x, [a, c]), a);
    MountEffect(t1, Element(x, [a, c]), b);
    MountEffect(t1, Element(x, [a, c]), c);
  }

  /** An update whose element lists no children leaves the links of the
      earlier mount in place. */
  lemma UpdateKeepsParentLinks(s: State, x: string, a: string)
    ensures Get(Update(Mount(s, Element(x, [a])), Element(x, [])).parents, a) == Some(x)
  {
    MountEffect(s, Element(x, [a]), a);
  }

  /** An update stores its element whether or not the id is mounted: right
      after an unmount the id is back in the id index, while the parent index
      and the roots keep what the unmount left. */
  lemma UpdateAfterUnmount(s: State, e: Element)
    ensures
      var t := Update(Unmount(s, e.id), e);
      Get(t.elements, e.id) == Some(e) && e.id !in t.parents && t.roots == RemoveFirst(s.roots, e.id)
  {
  }

  /** A mounted root that is unmounted is gone from the id index and the
      roots; the unmount emits "roots" and nothing else. */
  lemma UnmountMountedRoot(s: State, e: Element)
    requires Consistent(s)
    ensures
      var t := Mount(Root(s, e.id), e);
      && Get(Unmount(t, e.id).elements, e.id) == None
      && e.id !in Unmount(t, e.id).roots
      && Unmount(t, e.id).log == t.log + [RootsKey]
  {
    var t := Mount(Root(s, e.id), e);
    RootConsistent(s, e.id);
    UnmountRoots(t, e.id, e.id);
  }

  /** Unmounting a parent before its child leaves the child pointing at the
      unmounted parent. */
  lemma UnmountParentFirst(s: State, p: string, a: string)
    requires a != p
    ensures
      var t := Unmount(Mount(s, Element(p, [a])), p);
      Get(t.parents, a) == Some(p) && Get(t.elements, p) == None
  {
    MountEffect(s, Element(p, [a]), a);
    UnmountLeavesDanglingParent(Mount(s, Element(p, [a])), p, a);
  }

  /** A whole lifecycle from an empty store: one root with one child, both
      unmounted child first. Everything is removed, and the keys emitted are
      "roots" for the announcement, the ids of the two mounts and the update,
      and "roots" for unmounting the root. */
  lemma LifecycleFromEmpty()
    ensures Run(Initial(), [
        RootEvent("1"),
        MountEvent(Element("1", ["2"])),
        MountEvent(Element("2", [])),
        UpdateEvent(Element("2", [])),
        UnmountEvent("2"),
        UnmountEvent("1")])
      == State(map[], map[], [], [RootsKey, "1", "2", "2", RootsKey])
  {
    var e1, e2 := Element("1", ["2"]), Element("2", []);
    var events := [RootEvent("1"), MountEvent(e1), MountEvent(e2), UpdateEvent(e2), UnmountEvent("2"), UnmountEvent("1")];
    var s1 := State(map[], map[], ["1"], [RootsKey]);
    var s2 := State(map["1" := e1], map["2" := "1"], ["1"], [RootsKey, "1"]);
    var s3 := State(map["1" := e1, "2" := e2], map["2" := "1"], ["1"], [RootsKey, "1", "2"]);
    var s4 := State(map["1" := e1, "2" := e2], map["2" := "1"], ["1"], [RootsKey, "1", "2", "2"]);
    var s5 := State(map["1" := e1], map[], ["1"], [RootsKey, "1", "2", "2"]);
    var s6 := State(map[], map[], [], [RootsKey, "1", "2", "2", RootsKey]);

    assert Apply(Initial(), events[0]) == s1;
    assert LinkChildren(map[], e1.children, "1") == map["2" := "1"] by {
      assert e1.children[..0] == [];
    }
    assert Apply(s1, events[1]) == s2;
    assert Apply(s2, events[2]) == s3;
    assert Apply(s3, events[3]) == s4;
    assert IndexOf(["1"], "2") == -1;
    assert Apply(s4, events[4]) == s5;
    assert IndexOf(["1"], "1") == 0;
    assert Apply(s5, events[5]) == s6;

    calc {
      Run(Initial(), events);
      Run(s1, events[1..]);
      { assert events[1..][0] == events[1] && events[1..][1..] == events[2..]; }
      Run(s2, events[2..]);
      { assert events[2..][0] == events[2] && events[2..][1..] == events[3..]; }
      Run(s3, events[3..]);
      { assert events[3..][0] == events[3] && events[3..][1..] == events[4..]; }
      Run(s4, events[4..]);
      { assert events[4..][0] == events[4] && events[4..][1..] == events[5..]; }
      Run(s5, events[5..]);
      { assert events[5..][0] == events[5] && events[5..][1..] == []; }
      Run(s6, []);
    }
  }
}
