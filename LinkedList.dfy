/** The doubly linked list of numbers (`ListItem`, `LinkedList` in index.ts). */
module LinkedLists {

  /** A node of the chain: a number and two nullable links. */
  class ListItem {
    var value: int
    var prev: ListItem?
    var next: ListItem?

    constructor (value: int)
      ensures this.value == value && prev == null && next == null
    {
      this.value := value;
      prev := null;
      next := null;
    }
  }

  /** The direction in which a walk follows the links. */
  datatype Direction = Forward | Backward

  class LinkedList {
    var first: ListItem?
    var last: ListItem?

    // public view: the chain of nodes from `first` to `last`, and their values
    ghost var Nodes: seq<ListItem>
    ghost var Contents: seq<int>
    ghost var Repr: set<object>

    /** The doubly-linked invariant: `Nodes` is a chain of distinct nodes from
        `first` to `last`, linked both ways, with null at both ends. */
    ghost predicate Valid()
      reads this, Repr
    {
      this in Repr &&
      (forall i :: 0 <= i < |Nodes| ==> Nodes[i] in Repr) &&
      |Contents| == |Nodes| &&
      (forall i :: 0 <= i < |Nodes| ==> Nodes[i].value == Contents[i]) &&
      (Nodes == [] ==> first == null && last == null) &&
      (Nodes != [] ==>
        first == Nodes[0] && last == Nodes[|Nodes| - 1] &&
        Nodes[0].prev == null && Nodes[|Nodes| - 1].next == null) &&
      (forall i :: 0 <= i < |Nodes| - 1 ==> Nodes[i].next == Nodes[i + 1]) &&
      (forall i :: 0 < i < |Nodes| ==> Nodes[i].prev == Nodes[i - 1]) &&
      (forall i, j :: 0 <= i < j < |Nodes| ==> Nodes[i] != Nodes[j])
    }

    constructor ()
      ensures Valid() && fresh(Repr)
      ensures Nodes == [] && Contents == []
      ensures first == null && last == null
    {
      first, last := null, null;
      Nodes, Contents := [], [];
      Repr := {this};
    }

    /** Appends a node holding `value`. As in `index.ts`, the new node becomes
        `last` at once, and on a non-empty list the tail is found by walking
        from `first` until a node with a null `next`; `steps` counts the walk's
        iterations. */
    method Add(value: int) returns (ghost steps: nat)
      requires Valid()
      modifies Repr
      ensures Valid() && fresh(Repr - old(Repr))
      ensures Contents == old(Contents) + [value]
      ensures last != null && fresh(last) && Nodes == old(Nodes) + [last]
      ensures last.value == value && last.next == null
      ensures old(Nodes) == [] ==> first == last && last.prev == null
      ensures old(Nodes) != [] ==>
        first == old(first) && old(last) != null && old(last).next == last && last.prev == old(last)
      ensures steps == if old(Nodes) == [] then 0 else |old(Nodes)| + 1
    {
      var item := new ListItem(value);
      last := item;
      steps := 0;
      if first == null {
        first := item;
      } else {
        var current: ListItem := first;
        ghost var n := |Nodes|;
        ghost var tail: ListItem := Nodes[n - 1];
        ghost var k := 0;           // current is Nodes[k], or item once k == n
        ghost var linked := false;  // whether the old tail already points at item
        while current != last
          invariant 0 <= k <= n
          invariant k < n ==> current == Nodes[k]
          invariant k == n ==> current == item && linked
          invariant k < n - 1 ==> current.next == Nodes[k + 1]
          invariant linked ==> tail.next == item && item.prev == tail
          invariant !linked ==> tail.next == null && item.prev == null
          invariant steps == k + if linked then 1 else 0
          modifies tail`next, item`prev
          decreases n - k, if linked then 0 else 1
        {
          if current.next == null {
            item.prev := current;
            current.next := item;
            linked := true;
          } else {
            current := current.next;
            k := k + 1;
          }
          steps := steps + 1;
        }
        assert Nodes[n - 1].next == item && item.prev == Nodes[n - 1];
      }
      Nodes := Nodes + [item];
      Contents := Contents + [value];
      Repr := Repr + {item};
      assert forall i :: 0 <= i < |Nodes| - 1 ==> Nodes[i].next == Nodes[i + 1];
      assert forall i :: 0 < i < |Nodes| ==> Nodes[i].prev == Nodes[i - 1];
    }

    /** Iteration: the values met by following `next` from `first` until null. */
    method Elements() returns (values: seq<int>)
      requires Valid()
      ensures values == Contents
    {
      values := [];
      var current := first;
      ghost var k := 0;
      while current != null
        invariant 0 <= k <= |Nodes|
        invariant current == if k < |Nodes| then Nodes[k] else null
        invariant values == Contents[..k]
        decreases |Nodes| - k
      {
        values := values + [current.value];
        current := current.next;
        k := k + 1;
      }
    }

    /** The node reached from `from` after `k` hops along `next` (Forward) or
        `prev` (Backward); the walk stops at null. */
    ghost function Follow(from: ListItem?, dir: Direction, k: nat): ListItem?
      reads this, Repr
      decreases k
    {
      if k == 0 || from == null || from !in Repr then from
      else Follow(if dir == Forward then from.next else from.prev, dir, k - 1)
    }

    lemma {:induction false} FollowForward(j: nat, i: nat)
      requires Valid() && j + i < |Nodes|
      ensures Follow(Nodes[j], Forward, i) == Nodes[j + i]
      decreases i
    {
      if i > 0 {
        FollowForward(j + 1, i - 1);
      }
    }

    lemma {:induction false} FollowBackward(j: nat, i: nat)
      requires Valid() && i <= j < |Nodes|
      ensures Follow(Nodes[j], Backward, i) == Nodes[j - i]
      decreases i
    {
      if i > 0 {
        FollowBackward(j - 1, i - 1);
      }
    }

    /** Following `next` from `first` |Nodes| - 1 times reaches `last`, and one
        more hop reaches null; following `prev` from `last` as often reaches
        `first`, and one more hop reaches null. */
    lemma WalkEnds()
      requires Valid() && Nodes != []
      ensures Follow(first, Forward, |Nodes| - 1) == last
      ensures Follow(first, Forward, |Nodes|) == null
      ensures Follow(last, Backward, |Nodes| - 1) == first
      ensures Follow(last, Backward, |Nodes|) == null
    {
      var n := |Nodes|;
      FollowForward(0, n - 1);
      FollowBackward(n - 1, n - 1);
      FollowForward(0, 0);
      FollowBackward(n - 1, 0);
      FollowAfter(first, Forward, n - 1);
      FollowAfter(last, Backward, n - 1);
    }

    /** One more hop is a hop from where k hops lead. */
    lemma {:induction false} FollowAfter(from: ListItem?, dir: Direction, k: nat)
      requires Valid()
      requires Follow(from, dir, k) != null && Follow(from, dir, k) in Repr
      ensures Follow(from, dir, k + 1) ==
        if dir == Forward then Follow(from, dir, k).next else Follow(from, dir, k).prev
      decreases k
    {
      if k > 0 {
        FollowAfter(if dir == Forward then from.next else from.prev, dir, k - 1);
      }
    }

    /** For every node of the chain whose `next` is not null, that node's
        `prev` leads back. */
    lemma LinksAgree()
      requires Valid()
      ensures forall i :: 0 <= i < |Nodes| && Nodes[i].next != null ==>
        Nodes[i].next.prev == Nodes[i]
    {
      forall i | 0 <= i < |Nodes| && Nodes[i].next != null
        ensures Nodes[i].next.prev == Nodes[i]
      {
        if i < |Nodes| - 1 {
          assert Nodes[i].next == Nodes[i + 1];
        }
      }
    }
  }

  /** The four `add` calls of the tests in `index.test.ts`, then one iteration. */
  method AddOneToFour() returns (values: seq<int>, firstValue: int, lastValue: int,
                                 secondValue: int, backFromSecond: int, backThreeFromLast: int)
    ensures values == [1, 2, 3, 4]
    ensures firstValue == 1 && lastValue == 4 && secondValue == 2
    ensures backFromSecond == 1 && backThreeFromLast == 1
  {
    var list := new LinkedList();
    ghost var s1 := list.Add(1);
    ghost var s2 := list.Add(2);
    ghost var s3 := list.Add(3);
    ghost var s4 := list.Add(4);
    assert s4 == 4;
    ghost var nodes := list.Nodes;
    assert |nodes| == 4;
    assert list.first == nodes[0] && list.last == nodes[3];
    assert nodes[0].next == nodes[1] && nodes[1].prev == nodes[0];
    assert nodes[3].prev == nodes[2] && nodes[2].prev == nodes[1];
    firstValue := list.first.value;
    lastValue := list.last.value;
    secondValue := list.first.next.value;
    backFromSecond := list.first.next.prev.value;
    backThreeFromLast := list.last.prev.prev.prev.value;
    values := list.Elements();
  }
}
