/**
 The root sequence of the devtools store: an ordered list of root ids that is
 never changed in place. A root is added by appending it when absent, and
 removed by splicing out the element at the position `indexOf` finds.
 */
module RootSequence {

  /** No id occurs twice in `s`. */
  predicate NoDuplicates(s: seq<string>)
  {
    forall i, j :: 0 <= i < j < |s| ==> s[i] != s[j]
  }

  /** The position of the first occurrence of `x` in `s`, or -1 when `x` does
      not occur (the semantics of `Array.prototype.indexOf`). */
  function IndexOf(s: seq<string>, x: string): (i: int)
    ensures -1 <= i < |s|
    ensures i == -1 <==> x !in s
    ensures 0 <= i ==> s[i] == x && x !in s[..i]
  {
    if s == [] then -1
    else if s[0] == x then 0
    else
      var j := IndexOf(s[1..], x);
      if j == -1 then -1
      else
        assert s[..j + 1] == [s[0]] + s[1..][..j];
        j + 1
  }

  /** `s` with the first occurrence of `x` spliced out
      (`s.slice(0, index).concat(s.slice(index + 1))`), or `s` itself when `x`
      does not occur. */
  function RemoveFirst(s: seq<string>, x: string): seq<string>
  {
    var index := IndexOf(s, x);
    if index >= 0 then s[..index] + s[index + 1..] else s
  }

  /** Reference definition: `s` with every occurrence of `x` filtered out,
      all other elements kept in their relative order. */
  function Without(s: seq<string>, x: string): seq<string>
  {
    if s == [] then []
    else (if s[0] == x then [] else [s[0]]) + Without(s[1..], x)
  }

  lemma {:induction false} WithoutAbsent(s: seq<string>, x: string)
    requires x !in s
    ensures Without(s, x) == s
  {
    if s != [] {
      WithoutAbsent(s[1..], x);
    }
  }

  lemma {:induction false} WithoutMembership(s: seq<string>, x: string, y: string)
    ensures y in Without(s, x) <==> y in s && y != x
  {
    if s != [] {
      WithoutMembership(s[1..], x, y);
      assert s == [s[0]] + s[1..];
    }
  }

  /** On a duplicate-free sequence, splicing out the first occurrence is the
      same as filtering out every occurrence: the other ids keep their
      relative order. */
  lemma {:induction false} RemoveFirstIsWithout(s: seq<string>, x: string)
    requires NoDuplicates(s)
    ensures RemoveFirst(s, x) == Without(s, x)
  {
    if s == [] {
    } else if s[0] == x {
      assert IndexOf(s, x) == 0;
      assert x !in s[1..] by {
        forall k | 0 <= k < |s[1..]| ensures s[1..][k] != x {
          assert s[1..][k] == s[k + 1];
        }
      }
      WithoutAbsent(s[1..], x);
      assert s[..0] + s[1..] == s[1..];
    } else {
      var t := s[1..];
      assert NoDuplicates(t) by {
        forall i, j | 0 <= i < j < |t| ensures t[i] != t[j] {
          assert t[i] == s[i + 1] && t[j] == s[j + 1];
        }
      }
      RemoveFirstIsWithout(t, x);
      var j := IndexOf(t, x);
      if j == -1 {
        assert x !in s by { assert s == [s[0]] + t; }
        WithoutAbsent(s, x);
      } else {
        assert IndexOf(s, x) == j + 1;
        assert s[..j + 1] + s[j + 2..] == [s[0]] + (t[..j] + t[j + 1..]);
      }
    }
  }

  /** Removing the first occurrence of a present id shortens the sequence by
      one; an absent id leaves it as it is. */
  lemma RemoveFirstLength(s: seq<string>, x: string)
    ensures x in s ==> |RemoveFirst(s, x)| == |s| - 1
    ensures x !in s ==> RemoveFirst(s, x) == s
  {
  }

  /** On a duplicate-free sequence, the removed id is gone and every other
      id is still present. */
  lemma RemoveFirstMembership(s: seq<string>, x: string, y: string)
    requires NoDuplicates(s)
    ensures y in RemoveFirst(s, x) <==> y in s && y != x
  {
    RemoveFirstIsWithout(s, x);
    WithoutMembership(s, x, y);
  }

  /** Splicing an element out keeps a sequence duplicate-free. */
  lemma RemoveFirstNoDuplicates(s: seq<string>, x: string)
    requires NoDuplicates(s)
    ensures NoDuplicates(RemoveFirst(s, x))
  {
    var index := IndexOf(s, x);
    if index >= 0 {
      var r := s[..index] + s[index + 1..];
      forall a, b | 0 <= a < b < |r| ensures r[a] != r[b] {
        var a' := if a < index then a else a + 1;
        var b' := if b < index then b else b + 1;
        assert r[a] == s[a'] && r[b] == s[b'] && a' < b';
      }
    }
  }

  /** Appending an absent id keeps a sequence duplicate-free. */
  lemma AppendNoDuplicates(s: seq<string>, x: string)
    requires NoDuplicates(s) && x !in s
    ensures NoDuplicates(s + [x])
  {
    var r := s + [x];
    forall a, b | 0 <= a < b < |r| ensures r[a] != r[b] {
      if b == |s| {
        assert r[a] == s[a];
      }
    }
  }

  /** Removing what was just appended gives back the original sequence. */
  lemma RemoveFirstAfterAppend(s: seq<string>, x: string)
    requires x !in s
    ensures RemoveFirst(s + [x], x) == s
  {
    var index := IndexOf(s + [x], x);
    assert index == |s|;
    assert (s + [x])[..|s|] == s;
  }
}
