// One set of the cache: a single tag, or a ring of tags replaced in turn.
// Either way it is a queue: a lookup searches it, a replacement drops the
// oldest tag and adds the new one.
module CacheSets {
  import opened Bits

  type Tag = nat

  // `next` is the slot to be replaced; it moves downwards and wraps to `last`.
  // Slots above `last` are not in use.
  datatype SetState =
    | DirectMapped(tag: Tag)
    | RoundRobin(tags: seq<Tag>, last: nat, next: nat)

  predicate ValidSet(s: SetState) {
    s.RoundRobin? ==> s.next <= s.last < |s.tags|
  }

  function Ways(s: SetState): nat {
    if s.DirectMapped? then 1 else s.last + 1
  }

  predicate Holds(s: SetState, t: Tag)
    requires ValidSet(s)
  {
    if s.DirectMapped? then s.tag == t else t in s.tags[..s.last + 1]
  }

  function Replaced(s: SetState, t: Tag): SetState
    requires ValidSet(s)
  {
    if s.DirectMapped? then s.(tag := t)
    else s.(tags := s.tags[s.next := t], next := if s.next == 0 then s.last else s.next - 1)
  }

  function Zeros(n: nat): (r: seq<Tag>)
    ensures |r| == n && forall k :: 0 <= k < n ==> r[k] == 0
  {
    seq(n, _ => 0)
  }

  function Flushed(s: SetState): SetState
    requires ValidSet(s)
  {
    if s.DirectMapped? then s.(tag := 0)
    else s.(tags := Zeros(s.last + 1) + s.tags[s.last + 1..], next := s.last)
  }

  // ----- a set is a first-in first-out queue -----

  // Slot of the k-th oldest tag.
  function Slot(last: nat, next: nat, k: nat): (r: nat)
    requires next <= last && k <= last
    ensures r <= last
  {
    if k <= next then next - k else next + last + 1 - k
  }

  function Queue(s: SetState): (q: seq<Tag>)
    requires ValidSet(s)
    ensures |q| == Ways(s)
  {
    if s.DirectMapped? then [s.tag]
    else seq(s.last + 1, k requires 0 <= k <= s.last => s.tags[Slot(s.last, s.next, k)])
  }

  // Looking at the used slots is looking through the queue.
  lemma FindSearchesQueue(s: SetState, t: Tag)
    requires ValidSet(s)
    ensures Holds(s, t) <==> t in Queue(s)
  {
    if s.RoundRobin? {
      if Holds(s, t) {
        var j :| 0 <= j <= s.last && s.tags[j] == t;
        var k := if j <= s.next then s.next - j else s.next + s.last + 1 - j;
        assert Slot(s.last, s.next, k) == j;
        assert Queue(s)[k] == t;
      }
      if t in Queue(s) {
        var k :| 0 <= k <= s.last && Queue(s)[k] == t;
        assert s.tags[..s.last + 1][Slot(s.last, s.next, k)] == t;
      }
    }
  }

  // Replacing drops the oldest tag and keeps the order of the others.
  lemma ReplaceIsFirstInFirstOut(s: SetState, t: Tag)
    requires ValidSet(s)
    ensures ValidSet(Replaced(s, t)) && Ways(Replaced(s, t)) == Ways(s)
    ensures Queue(Replaced(s, t)) == Queue(s)[1..] + [t]
  {
    if s.RoundRobin? {
      var r := Replaced(s, t);
      forall k | 0 <= k <= s.last
        ensures Queue(r)[k] == (Queue(s)[1..] + [t])[k]
      {
        if k < s.last {
          assert Slot(r.last, r.next, k) == Slot(s.last, s.next, k + 1) != s.next;
        } else {
          assert Slot(r.last, r.next, k) == s.next;
        }
      }
    }
  }

  lemma FlushEmptiesQueue(s: SetState)
    requires ValidSet(s)
    ensures ValidSet(Flushed(s)) && Ways(Flushed(s)) == Ways(s)
    ensures Queue(Flushed(s)) == Zeros(Ways(s))
  {
  }

  // ----- the round-robin set in its own form -----

  class RoundRobinSet {
    const tags: array<Tag>
    var tagsLastIndex: nat
    var nextReplaceIndex: nat

    ghost function View(): SetState
      reads this, tags
    {
      RoundRobin(tags[..], tagsLastIndex, nextReplaceIndex)
    }

    // The assertion admits an associativity of 0, with which the next slot to
    // be replaced lies beyond any array.
    constructor (maxAssociativity: nat, associativity: nat)
      requires associativity <= maxAssociativity < UINT32_LIMIT
      ensures fresh(tags) && tags.Length == maxAssociativity
      ensures if associativity > 0 then
          ValidSet(View()) && Ways(View()) == associativity && Queue(View()) == Zeros(associativity)
        else
          nextReplaceIndex == UINT32_LIMIT - 1 >= tags.Length
    {
      tagsLastIndex := Pred32(associativity);
      nextReplaceIndex := Pred32(associativity);
      tags := new Tag[maxAssociativity](_ => 0);
    }

    method SetAssociativity(associativity: nat)
      requires associativity <= tags.Length < UINT32_LIMIT
      modifies this
      ensures View() == RoundRobin(old(tags[..]), Pred32(associativity), Pred32(associativity))
      ensures if associativity > 0 then ValidSet(View()) && Ways(View()) == associativity
        else nextReplaceIndex == UINT32_LIMIT - 1 >= tags.Length
    {
      tagsLastIndex := Pred32(associativity);
      nextReplaceIndex := tagsLastIndex;
    }

    method Find(tag: Tag) returns (result: bool)
      requires ValidSet(View())
      ensures result == Holds(View(), tag)
    {
      var index: int := tagsLastIndex;
      while index >= 0
        invariant -1 <= index <= tagsLastIndex
        invariant forall k :: index < k <= tagsLastIndex ==> tags[k] != tag
        decreases index + 1
      {
        if tags[index] == tag {
          assert tags[..tagsLastIndex + 1][index] == tag;
          return true;
        }
        index := index - 1;
      }
      return false;
    }

    method Replace(tag: Tag)
      requires ValidSet(View())
      modifies this`nextReplaceIndex, tags
      ensures ValidSet(View())
      ensures View() == Replaced(old(View()), tag)
      ensures Queue(View()) == old(Queue(View()))[1..] + [tag]
    {
      ReplaceIsFirstInFirstOut(View(), tag);
      var index := nextReplaceIndex;
      tags[index] := tag;
      nextReplaceIndex := if index == 0 then tagsLastIndex else index - 1;
    }

    method Flush()
      requires ValidSet(View())
      modifies this`nextReplaceIndex, tags
      ensures ValidSet(View())
      ensures View() == Flushed(old(View()))
      ensures Queue(View()) == Zeros(old(Ways(View())))
    {
      FlushEmptiesQueue(View());
      var index: int := tagsLastIndex;
      while index >= 0
        invariant -1 <= index <= tagsLastIndex
        invariant forall k :: index < k <= tagsLastIndex ==> tags[k] == 0
        invariant forall k :: 0 <= k <= index || tagsLastIndex < k < tags.Length ==> tags[k] == old(tags[k])
        decreases index + 1
      {
        tags[index] := 0;
        index := index - 1;
      }
      nextReplaceIndex := tagsLastIndex;
      assert tags[..] == Zeros(tagsLastIndex + 1) + old(tags[..])[tagsLastIndex + 1..];
    }
  }
}
