/** The two operations of System.Collections.Generic.List that the engine uses on its
    hidden-window list: Contains (Dafny's `in`) and Remove, which deletes the FIRST
    occurrence of an element and leaves the list alone when the element is absent. */
module Sequences {

  /** No element occurs twice. */
  predicate NoDup<T(==)>(s: seq<T>) {
    forall i, j :: 0 <= i < j < |s| ==> s[i] != s[j]
  }

  /** List<T>.Remove: drops the first occurrence of x, if there is one, and keeps the
      order of the rest. */
  function RemoveFirst<T(==)>(s: seq<T>, x: T): (r: seq<T>)
    ensures x !in s ==> r == s
    ensures x in s ==> |r| == |s| - 1
  {
    if s == [] then []
    else
      assert s == [s[0]] + s[1..];
      if s[0] == x then s[1..] else [s[0]] + RemoveFirst(s[1..], x)
  }

  /** The order part of List<T>.Remove: when i is the first position holding x, the
      result is the list with position i cut out. */
  lemma {:induction false} RemoveFirstCutsFirstOccurrence<T>(s: seq<T>, x: T, i: nat)
    requires i < |s| && s[i] == x
    requires forall k :: 0 <= k < i ==> s[k] != x
    ensures RemoveFirst(s, x) == s[..i] + s[i + 1..]
  {
    if i == 0 {
      assert s[0] == x;
    } else {
      var t := s[1..];
      forall k | 0 <= k < i - 1 ensures t[k] != x {
        assert t[k] == s[k + 1];
      }
      RemoveFirstCutsFirstOccurrence(t, x, i - 1);
      var before, after := t[..i - 1], t[i..];
      assert RemoveFirst(s, x) == [s[0]] + (before + after);
      assert s[..i] == [s[0]] + before;
      assert s[i + 1..] == after;
      assert [s[0]] + (before + after) == ([s[0]] + before) + after;
    }
  }

  /** Removing takes exactly one copy of x out of the list's multiset of elements (none
      when x is absent). */
  lemma {:induction false} RemoveFirstDropsOneCopy<T>(s: seq<T>, x: T)
    ensures multiset(RemoveFirst(s, x)) == multiset(s) - multiset{x}
  {
    if s != [] {
      assert s == [s[0]] + s[1..];
      if s[0] != x {
        RemoveFirstDropsOneCopy(s[1..], x);
      }
    }
  }

  /** Removing x never touches any other element's membership. */
  lemma RemoveFirstKeepsOthers<T>(s: seq<T>, x: T, y: T)
    requires y != x
    ensures y in RemoveFirst(s, x) <==> y in s
  {
    RemoveFirstDropsOneCopy(s, x);
  }

  /** The tail of a duplicate-free list is duplicate-free and lacks the head. */
  lemma NoDupTail<T>(s: seq<T>)
    requires NoDup(s) && s != []
    ensures NoDup(s[1..]) && s[0] !in s[1..]
  {
  }

  /** Putting an absent element in front keeps a list duplicate-free. */
  lemma NoDupCons<T>(x: T, t: seq<T>)
    requires NoDup(t) && x !in t
    ensures NoDup([x] + t)
  {
  }

  /** On a duplicate-free list, removing the first occurrence removes every occurrence,
      and the list stays duplicate-free. */
  lemma {:induction false} RemoveFirstOfNoDup<T>(s: seq<T>, x: T)
    requires NoDup(s)
    ensures x !in RemoveFirst(s, x)
    ensures NoDup(RemoveFirst(s, x))
  {
    if s != [] {
      NoDupTail(s);
      if s[0] != x {
        var t := s[1..];
        RemoveFirstOfNoDup(t, x);
        RemoveFirstKeepsOthers(t, x, s[0]);
        NoDupCons(s[0], RemoveFirst(t, x));
      }
    }
  }

  /** Appending an element that is absent and then removing it gives back the list. */
  lemma {:induction false} RemoveFirstAfterAppend<T>(s: seq<T>, x: T)
    requires x !in s
    ensures RemoveFirst(s + [x], x) == s
  {
    if s == [] {
      assert [] + [x] == [x];
    } else {
      assert (s + [x])[0] == s[0];
      assert (s + [x])[1..] == s[1..] + [x];
      RemoveFirstAfterAppend(s[1..], x);
      assert s == [s[0]] + s[1..];
    }
  }
}
