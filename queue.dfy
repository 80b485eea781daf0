/** The unbounded FIFO queue of queue/queue.go: a singly linked list of entries
    with a head pointer, a bottom (tail) pointer and an element count. */
module QueueModel {

  /** One linked entry of the queue. */
  class Entry<V> {
    var value: V
    var next: Entry?<V>

    constructor (value: V)
      ensures this.value == value && next == null
    {
      this.value := value;
      next := null;
    }
  }

  class Queue<V> {
    var head: Entry?<V>
    var bottom: Entry?<V>
    var count: nat
    /** Go's zero value of V, returned by Get and Pop on an empty queue. */
    const zero: V

    // public view of the queue
    ghost var Contents: seq<V>
    // the entries from head to bottom, in order
    ghost var Nodes: seq<Entry<V>>
    ghost var Repr: set<object>

    ghost predicate Valid()
      reads this, Repr
    {
      && this in Repr
      && (forall i :: 0 <= i < |Nodes| ==> Nodes[i] in Repr)
      && |Nodes| == |Contents|
      && count == |Nodes|
      && (forall i :: 0 <= i < |Nodes| ==> Nodes[i].value == Contents[i])
      && (forall i :: 0 <= i < |Nodes| - 1 ==> Nodes[i].next == Nodes[i + 1])
      && (|Nodes| == 0 ==> head == null && bottom == null)
      && (|Nodes| > 0 ==> head == Nodes[0] && bottom == Nodes[|Nodes| - 1] && bottom.next == null)
    }

    /** NewQueue: an empty queue. */
    constructor (zero: V)
      ensures Valid() && fresh(Repr)
      ensures Contents == [] && this.zero == zero
    {
      head, bottom, count := null, null, 0;
      this.zero := zero;
      Contents, Nodes := [], [];
      Repr := {this};
    }

    /** The head value without removing it, or the zero value when empty. */
    method Get() returns (result: V)
      requires Valid()
      ensures result == if Contents == [] then zero else Contents[0]
    {
      if head == null {
        return zero;
      }
      result := head.value;
    }

    /** Removes and returns the head value; an empty queue is left as it is. */
    method Pop() returns (result: V)
      requires Valid()
      modifies this
      ensures Valid() && Repr <= old(Repr)
      ensures old(Contents) == [] ==> result == zero && Contents == []
      ensures old(Contents) == [] ==> head == old(head) && bottom == old(bottom) && count == old(count)
      ensures old(Contents) != [] ==> result == old(Contents)[0] && Contents == old(Contents)[1..]
      ensures old(Contents) != [] ==> count == old(count) - 1
      ensures Contents == [] ==> head == null && bottom == null
    {
      if head == null {
        return zero;
      }
      result := head.value;
      head := head.next;
      if head == null {
        bottom := null;
      }
      // the count always matches the entries, so this guard never fails here
      assert count > 0;
      if count > 0 {
        count := count - 1;
      }
      Contents := Contents[1..];
      Nodes := Nodes[1..];
    }

    /** Appends a value at the bottom of the queue. */
    method Push(value: V)
      requires Valid()
      modifies this, bottom
      ensures Valid() && fresh(Repr - old(Repr))
      ensures Contents == old(Contents) + [value]
      ensures count == old(count) + 1
      ensures old(head) == null ==> head == bottom
    {
      var entry := new Entry(value);
      // only the old bottom entry has no successor, so relinking it keeps the other links
      forall i | 0 <= i < |Nodes| - 1
        ensures Nodes[i] != bottom
      {
        assert Nodes[i].next == Nodes[i + 1];
      }
      ghost var last := bottom;
      if bottom != null {
        bottom.next := entry;
      }
      bottom := entry;
      if head == null {
        head := entry;
      }
      count := count + 1;
      ghost var nodes := Nodes + [entry];
      ghost var contents := Contents + [value];
      forall i | 0 <= i < |nodes|
        ensures nodes[i].value == contents[i]
      {
        if i < |Nodes| {
          assert nodes[i] == Nodes[i] && contents[i] == Contents[i];
        }
      }
      forall i | 0 <= i < |nodes| - 1
        ensures nodes[i].next == nodes[i + 1]
      {
        if i < |Nodes| - 1 {
          assert nodes[i] == Nodes[i] && nodes[i + 1] == Nodes[i + 1];
        } else {
          assert nodes[i] == last;
        }
      }
      Contents, Nodes := contents, nodes;
      Repr := Repr + {entry};
    }

    /** The number of queued values. */
    method Count() returns (n: nat)
      requires Valid()
      ensures n == |Contents|
    {
      n := count;
    }
  }

  /** Pushing a sequence of values and then popping as many values returns them
      in the order they were pushed, and Get always previews the next Pop. */
  method PushAllPopAll<V>(xs: seq<V>, zero: V) returns (ys: seq<V>)
    ensures ys == xs
  {
    var q := new Queue(zero);
    var i := 0;
    while i < |xs|
      invariant 0 <= i <= |xs|
      invariant q.Valid() && fresh(q.Repr)
      invariant q.Contents == xs[..i]
    {
      q.Push(xs[i]);
      i := i + 1;
    }
    ys := PopEach(q, |xs|);
  }

  /** Popping n values from a queue holding at least n returns its first n
      values in order and leaves the rest. */
  method PopEach<V>(q: Queue<V>, n: nat) returns (ys: seq<V>)
    requires q.Valid() && n <= |q.Contents|
    modifies q
    ensures q.Valid()
    ensures ys == old(q.Contents)[..n] && q.Contents == old(q.Contents)[n..]
  {
    ys := [];
    while |ys| < n
      invariant q.Valid()
      invariant |ys| <= n
      invariant ys + q.Contents == old(q.Contents)
    {
      ghost var before := q.Contents;
      var peek := q.Get();
      var y := q.Pop();
      assert peek == y == before[0];
      assert ys + [y] + q.Contents == ys + before;
      ys := ys + [y];
    }
  }
}
