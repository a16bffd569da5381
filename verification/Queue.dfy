/** The replayable doubly linked queue: taken items stay until they are cleaned away, and can be taken again. */
module Queue {

  datatype Option<T> = None | Some(value: T)

  datatype Location = QueueFront | QueueBack

  const SIZE_MAX: nat := 0xFFFF_FFFF_FFFF_FFFF

  class QueueNode<T> {
    const data: T
    var prev: QueueNode?<T>
    var next: QueueNode?<T>

    constructor (data: T, prev: QueueNode?<T>, next: QueueNode?<T>)
      ensures this.data == data && this.prev == prev && this.next == next
    {
      this.data, this.prev, this.next := data, prev, next;
    }
  }

  class Queue<T> {
    var absFront: QueueNode?<T>
    var front: QueueNode?<T>
    var back: QueueNode?<T>
    var traverseFront: QueueNode?<T>
    var length: nat
    var absLength: nat
    var traverseLength: nat
    /** The nodes from absFront to back. */
    ghost var nodes: seq<QueueNode<T>>
    /** The items given to the free function so far. */
    ghost var freed: seq<T>
    /** Which node is traversed next; |nodes| for none. */
    ghost var traverseAt: nat

    /** The nodes form a list. The first node's prev is not looked at: cleaning leaves it pointing at a freed node. */
    ghost predicate Linked()
      reads this`nodes, nodes
    {
      && (forall i, j :: 0 <= i < j < |nodes| ==> nodes[i] != nodes[j])
      && (forall i {:trigger nodes[i].next} :: 0 <= i < |nodes| ==> nodes[i].next == if i < |nodes| - 1 then nodes[i + 1] else null)
      && (forall i {:trigger nodes[i].prev} :: 1 <= i < |nodes| ==> nodes[i].prev == nodes[i - 1])
    }

    /** Index of the node that front points to; |nodes| for none. */
    ghost predicate FrontAt(k: nat)
      reads this
    {
      k <= |nodes| && front == (if k < |nodes| then nodes[k] else null)
    }

    /** The lengths are exact, front points to the first live item; with none live it points nowhere, or to back
        after a reset. Of an empty queue back may be left over. */
    ghost predicate Chain()
      reads this`absFront, this`absLength, this`nodes, this`traverseAt, nodes
    {
      Linked() && absLength == |nodes| && absFront == (if |nodes| > 0 then nodes[0] else null) && traverseAt <= |nodes|
    }

    ghost predicate Valid()
      reads this, nodes
    {
      && Chain() && length <= absLength
      && (|nodes| > 0 ==> back == nodes[|nodes| - 1])
      && (if length > 0 then FrontAt(absLength - length) else front == null || (|nodes| > 0 && front == back))
    }

    static function DataOf(ns: seq<QueueNode<T>>): (s: seq<T>)
      ensures |s| == |ns| && forall i :: 0 <= i < |s| ==> s[i] == ns[i].data
    {
      seq(|ns|, i requires 0 <= i < |ns| => ns[i].data)
    }

    static lemma DataOfParts(a: seq<QueueNode<T>>, node: QueueNode<T>, b: seq<QueueNode<T>>)
      ensures DataOf(a + [node] + b) == DataOf(a) + [node.data] + DataOf(b)
    {
    }

    /** All items, taken ones included, and the live ones, from the front on. */
    ghost function Items(): (s: seq<T>)
      reads this`nodes
      ensures |s| == |nodes|
    {
      DataOf(nodes)
    }

    /** The traversal stands at a node of the list, or past the last one. */
    ghost predicate Traversing()
      reads this`traverseAt, this`nodes, this`traverseFront
    {
      traverseAt <= |nodes| && traverseFront == (if traverseAt < |nodes| then nodes[traverseAt] else null)
    }

    /** The items still to be traversed. */
    ghost function ToGo(): seq<T>
      requires traverseAt <= |nodes|
      reads this`traverseAt, this`nodes
    {
      Items()[traverseAt..]
    }

    /** Items put behind the others are still traversed, unless the traversal had come to its end. */
    static function Further(togo: seq<T>, more: seq<T>): seq<T> { if togo == [] then [] else togo + more }

    ghost function Live(): seq<T>
      requires Valid()
      reads this, nodes
    {
      Items()[absLength - length..]
    }

    constructor ()
      ensures Valid() && Items() == [] && length == 0 && freed == [] && back == null && fresh(nodes) && Traversing()
    {
      absFront, front, back, traverseFront, length, absLength, traverseLength := null, null, null, null, 0, 0, 0;
      nodes, freed, traverseAt := [], [], 0;
    }

    method Enqueue(data: T)
      requires Valid()
      modifies this, nodes
      ensures Valid() && Items() == old(Items()) + [data] && length == old(length) + 1 && freed == old(freed)
      ensures Live() == old(Live()) + [data]
      ensures forall i :: 0 <= i < |nodes| ==> nodes[i] in old(nodes) || fresh(nodes[i])
      ensures old(Traversing()) ==> Traversing() && ToGo() == Further(old(ToGo()), [data])
      ensures traverseLength == old(traverseLength)
    {
      hide Valid, Linked, DataOf, Further;
      ghost var before, taken, at := nodes, absLength - length, traverseAt;
      Sizes();
      var node: QueueNode<T>;
      if absLength == 0 {
        node := EnqueueFirst(data);
      } else {
        node := EnqueueBehind(data);
      }
      Sizes();
      DataOfParts(before, node, []);
      assert before + [node] + [] == before + [node];
      LiveAppended(DataOf(before), data, taken);
      AppendedToGo(before, node, at);
      forall i | 0 <= i < |nodes| ensures nodes[i] in before || nodes[i] == node {
        assert i < |before| ==> nodes[i] == before[i];
      }
    }

    method EnqueueFirst(data: T) returns (node: QueueNode<T>)
      requires Valid() && absLength == 0
      modifies this, nodes
      ensures Valid() && length == old(length) + 1 && absLength == old(absLength) + 1 && freed == old(freed)
      ensures nodes == old(nodes) + [node] && node.data == data && fresh(node)
      ensures traverseAt == (if old(traverseAt) == |old(nodes)| then |nodes| else old(traverseAt)) && traverseFront == old(traverseFront)
      ensures traverseLength == old(traverseLength)
    {
      FirstNode(data);
      node := front;
      length := length + 1;
    }

    method EnqueueBehind(data: T) returns (node: QueueNode<T>)
      requires Valid() && absLength > 0
      modifies this, nodes
      ensures Valid() && length == old(length) + 1 && absLength == old(absLength) + 1 && freed == old(freed)
      ensures nodes == old(nodes) + [node] && node.data == data && fresh(node)
      ensures traverseAt == (if old(traverseAt) == |old(nodes)| then |nodes| else old(traverseAt)) && traverseFront == old(traverseFront)
      ensures traverseLength == old(traverseLength)
    {
      hide Linked;
      node := AppendNode(data);
      back := node;
      front := if length == 0 then node else front;
      length := length + 1;
    }

    static lemma LiveAppended(items: seq<T>, data: T, k: nat)
      requires k <= |items|
      ensures items + [data] + [] == items + [data] && (items + [data])[k..] == items[k..] + [data]
    {
    }

    static lemma LiveInserted(items: seq<T>, data: T, k: nat)
      requires k <= |items|
      ensures (items[..k] + [data] + items[k..])[k..] == [data] + items[k..]
    {
    }

    static lemma NoneLive(items: seq<T>, data: T, togo: seq<T>)
      ensures items[..|items|] == items && items[|items|..] == [] && items + [data] + [] == items + [data]
      ensures [] + [data] == [data] + [] && PutBefore(togo, data, 0) == Further(togo, [data])
    {
    }

    static lemma AppendedToGo(before: seq<QueueNode<T>>, node: QueueNode<T>, at: nat)
      requires at <= |before|
      ensures DataOf(before + [node])[if at == |before| then at + 1 else at..] == Further(DataOf(before)[at..], [node.data])
    {
    }

    static lemma InsertedToGo(before: seq<QueueNode<T>>, node: QueueNode<T>, k: nat, at: nat)
      requires k < |before| && at <= |before|
      ensures DataOf(before[..k] + [node] + before[k..])[if at >= k then at + 1 else at..]
              == PutBefore(DataOf(before)[at..], node.data, |before| - k)
    {
    }

    /** A node as the only one. */
    method FirstNode(data: T)
      requires |nodes| == 0 && absLength == 0
      modifies this`absFront, this`front, this`back, this`absLength, this`nodes, this`traverseAt
      ensures Chain() && |nodes| == 1 && nodes[0].data == data && fresh(nodes[0]) && front == back == nodes[0]
      ensures traverseAt == 1
    {
      var node := new QueueNode(data, null, null);
      absFront, front, back := node, node, node;
      absLength, traverseAt, nodes := 1, 1, [node];
    }

    /** Links a new node behind the last one; nothing follows that, so there is no other link to change. */
    method AppendNode(data: T) returns (node: QueueNode<T>)
      requires Chain() && absLength > 0 && back == nodes[absLength - 1]
      modifies this`absLength, this`nodes, this`traverseAt, back
      ensures Chain() && nodes == old(nodes) + [node] && fresh(node) && node.data == data
      ensures traverseAt == if old(traverseAt) == |old(nodes)| then |nodes| else old(traverseAt)
    {
      assert back.next == null by { assert nodes[absLength - 1].next == null; }
      node := new QueueNode(data, back, back.next);
      back.next := node;
      absLength := absLength + 1;
      traverseAt := if traverseAt == |nodes| then |nodes| + 1 else traverseAt;
      nodes := nodes + [node];
    }

    /** An item put before the live ones is traversed if the traversal has not come to the first live item;
        with none live it is put behind the others. */
    static function PutBefore(togo: seq<T>, data: T, length: nat): seq<T> {
      if length == 0 then Further(togo, [data])
      else if |togo| <= length then togo
      else togo[..|togo| - length] + [data] + togo[|togo| - length..]
    }

    /** Puts an item before the live ones; with none live it is put at the back. */
    method PriorityEnqueue(data: T)
      requires Valid()
      modifies this, nodes
      ensures Valid() && length == old(length) + 1 && freed == old(freed)
      ensures Items() == old(Items()[..absLength - length]) + [data] + old(Live())
      ensures Live() == [data] + old(Live())
      ensures forall i :: 0 <= i < |nodes| ==> nodes[i] in old(nodes) || fresh(nodes[i])
      ensures old(Traversing()) ==> Traversing() && ToGo() == PutBefore(old(ToGo()), data, old(length))
      ensures traverseLength == old(traverseLength)
    {
      hide Valid, Linked, DataOf, Further, PutBefore;
      ghost var before, k, at := nodes, absLength - length, traverseAt;
      Sizes();
      if length == 0 {
        NoneLive(Items(), data, ToGo());
        Enqueue(data);
      } else {
        var node := InsertBeforeFront(data);
        Sizes();
        DataOfParts(before[..k], node, before[k..]);
        DataOfDrop(before, k);
        LiveInserted(DataOf(before), data, k);
        InsertedToGo(before, node, k, at);
      }
    }

    method InsertBeforeFront(data: T) returns (node: QueueNode<T>)
      requires Valid() && length > 0
      modifies this, nodes
      ensures Valid() && length == old(length) + 1 && absLength == old(absLength) + 1 && freed == old(freed)
      ensures var k := old(absLength - length);
        && nodes == old(nodes)[..k] + [node] + old(nodes)[k..] && node.data == data && fresh(node)
        && traverseAt == (if old(traverseAt) >= k then old(traverseAt) + 1 else old(traverseAt)) && traverseFront == old(traverseFront)
      ensures traverseLength == old(traverseLength)
    {
      hide Linked;
      node := InsertNode(data, absLength - length);
      front := node;
      length := length + 1;
    }

    /** Links a new node before the front. */
    method InsertNode(data: T, ghost k: nat) returns (node: QueueNode<T>)
      requires Chain() && k < absLength && front == nodes[k]
      modifies this`absFront, this`absLength, this`nodes, this`traverseAt, nodes
      ensures Chain() && nodes == old(nodes[..k]) + [node] + old(nodes[k..]) && fresh(node) && node.data == data
      ensures traverseAt == if old(traverseAt) >= k then old(traverseAt) + 1 else old(traverseAt)
    {
      node := new QueueNode(data, front.prev, front);
      if front == absFront {
        absFront := node;
      } else {
        assert nodes[k].prev == nodes[k - 1];
        front.prev.next := node;
      }
      front.prev := node;
      absLength := absLength + 1;
      traverseAt := if traverseAt >= k then traverseAt + 1 else traverseAt;
      InsertDistinct(nodes, node, k);
      nodes := nodes[..k] + [node] + nodes[k..];
    }

    static lemma InsertDistinct(nodes: seq<QueueNode<T>>, node: QueueNode<T>, k: nat)
      requires k <= |nodes| && node !in nodes && forall i, j :: 0 <= i < j < |nodes| ==> nodes[i] != nodes[j]
      ensures var r := nodes[..k] + [node] + nodes[k..]; forall i, j :: 0 <= i < j < |r| ==> r[i] != r[j]
    {
    }

    lemma Sizes()
      requires Valid()
      ensures length <= absLength == |nodes| && traverseAt <= |nodes|
    {
    }

    lemma AllDiffer()
      requires Valid()
      ensures forall i, j :: 0 <= i < j < |nodes| ==> nodes[i] != nodes[j]
    {
    }

    lemma NodesDiffer()
      requires Linked()
      ensures forall i, j :: 0 <= i < j < |nodes| ==> nodes[i] != nodes[j]
    {
    }

    /** Takes the first live item; it stays in the queue. */
    method Dequeue() returns (r: Option<T>)
      requires Valid()
      modifies this`front, this`length
      ensures Valid() && Items() == old(Items()) && freed == old(freed)
      ensures old(length) == 0 ==> r == None && length == 0 && front == old(front)
      ensures old(length) > 0 ==> r == Some(old(Live()[0])) && length == old(length) - 1 && Live() == old(Live()[1..])
      ensures old(length) > 0 ==> Taken() == absLength - length
      ensures old(Traversing()) ==> Traversing() && ToGo() == old(ToGo())
    {
      if front != null && length > 0 {
        r := Some(front.data);
        front := front.next;
        length := length - 1;
      } else {
        r := None;
      }
    }

    /** Drops the live items from view. Sound unless the queue is empty and back is left over from cleaning:
        then front is made to point at a freed node. */
    method Reset()
      requires Valid()
      modifies this`front, this`length
      ensures length == 0 && front == back && Items() == old(Items())
      ensures Valid() <==> absLength > 0 || back == null
      ensures old(Traversing()) ==> Traversing() && ToGo() == old(ToGo())
    {
      front := back;
      length := 0;
    }

    /** Makes every item live again, in order. */
    method Restart()
      requires Valid()
      modifies this`front, this`length
      ensures Valid() && Items() == old(Items()) && Live() == Items() && freed == old(freed)
      ensures old(Traversing()) ==> Traversing() && ToGo() == old(ToGo())
    {
      hide Linked, DataOf;
      front := absFront;
      length := absLength;
    }

    method Peek(location: Location) returns (r: Option<T>)
      requires Valid()
      ensures length == 0 ==> r == None
      ensures length > 0 ==> r == Some(if location == QueueFront then Live()[0] else Live()[|Live()| - 1])
    {
      if front != null && length > 0 {
        r := Some(if location == QueueFront then front.data else back.data);
      } else {
        r := None;
      }
    }

    /** How many items are counted as taken: after a reset all but the last. */
    ghost function Taken(): (k: nat)
      requires Valid()
      reads this, nodes
      ensures k <= absLength - length && absLength == |nodes|
    {
      if length > 0 then absLength - length else if front == null then absLength else absLength - 1
    }

    /** Frees the taken items. A traversal survives unless it stands at one of them: then it goes on at freed memory. */
    method Clean()
      requires Valid()
      modifies this, nodes
      ensures Valid() && length == old(length) && back == old(back) && nodes == old(nodes[Taken()..])
      ensures Items() == old(Items()[Taken()..]) && freed == old(freed) + old(Items()[..Taken()])
      ensures Live() == old(Live()) && traverseLength == old(traverseLength)
      ensures old(Traversing()) ==> (Traversing() <==> old(traverseAt >= Taken())) && (Traversing() ==> ToGo() == old(ToGo()))
    {
      hide Valid, Linked, Chain, DataOf, Taken;
      ghost var all, at, k, live := nodes, traverseAt, Taken(), absLength - length;
      AllDiffer();
      FreeTaken();
      Sizes();
      DataOfDrop(all, k);
      LaterStill(DataOf(all), k, live);
      if old(Traversing()) { Dropped(all, k, at, traverseFront); }
    }

    static lemma LaterStill(items: seq<T>, k: nat, live: nat)
      requires k <= live <= |items|
      ensures items[k..][live - k..] == items[live..]
    {
    }

    method FreeTaken()
      requires Valid()
      modifies this, nodes
      ensures Valid() && length == old(length) && back == old(back) && nodes == old(nodes[Taken()..])
      ensures freed == old(freed) + old(Items()[..Taken()])
      ensures traverseLength == old(traverseLength) && traverseFront == old(traverseFront)
      ensures traverseAt == if old(traverseAt >= Taken()) then old(traverseAt - Taken()) else 0
    {
      hide Linked, DataOf;
      ghost var k := Taken();
      assert FrontAt(k);
      DropToFront(k);
    }

    /** Dropping nodes that the cursor has passed. */
    static lemma Dropped(all: seq<QueueNode<T>>, k: nat, at: nat, cursor: QueueNode?<T>)
      requires k <= |all| && at <= |all| && cursor == if at < |all| then all[at] else null
      requires forall i, j :: 0 <= i < j < |all| ==> all[i] != all[j]
      ensures var rest := all[k..];
        && (at >= k ==> cursor == (if at - k < |rest| then rest[at - k] else null) && DataOf(rest)[at - k..] == DataOf(all)[at..])
        && (at < k ==> cursor != if 0 < |rest| then rest[0] else null)
    {
    }

    static lemma DataOfDrop(a: seq<QueueNode<T>>, k: nat)
      requires k <= |a|
      ensures DataOf(a[k..]) == DataOf(a)[k..] && DataOf(a[..k]) == DataOf(a)[..k]
    {
    }

    /** Frees the nodes before the one that front points to. */
    method DropToFront(ghost k: nat)
      requires Chain() && FrontAt(k)
      modifies this`absFront, this`absLength, this`nodes, this`freed, this`traverseAt, nodes
      ensures Chain() && nodes == old(nodes)[k..] && freed == old(freed) + old(Items())[..k]
      ensures traverseAt == if old(traverseAt) >= k then old(traverseAt) - k else 0
    {
      hide Linked, DataOf;
      ghost var all, items, at := nodes, Items(), 0;
      NodesDiffer();
      while absFront != front
        invariant 0 <= at <= k <= |all| && nodes == all[at..] && Chain()
        invariant freed == old(freed) + items[..at] && traverseAt == if old(traverseAt) >= at then old(traverseAt) - at else 0
        decreases k - at
      {
        DataOfDrop(all, at);
        DropFirst();
        assert items[..at + 1] == items[..at] + [items[at]];
        at := at + 1;
      }
    }

    /** The first node is freed. */
    method DropFirst()
      requires Chain() && absLength > 0
      modifies this`absFront, this`absLength, this`nodes, this`freed, this`traverseAt, absFront
      ensures Chain() && nodes == old(nodes[1..]) && freed == old(freed) + [old(nodes[0].data)]
      ensures traverseAt == if old(traverseAt) > 0 then old(traverseAt) - 1 else 0
    {
      var next := absFront.next;
      freed := freed + [absFront.data];
      absFront.prev := null;
      absFront := next;
      absLength := absLength - 1;
      nodes := nodes[1..];
      traverseAt := if traverseAt > 0 then traverseAt - 1 else 0;
    }

    /** Frees every item. */
    method Flush()
      requires Valid()
      modifies this, nodes
      ensures Valid() && Items() == [] && length == 0 && absLength == 0 && back == null && Traversing()
      ensures freed == old(freed) + old(Items()) && traverseLength == old(traverseLength)
    {
      hide Linked;
      ghost var all, at := nodes, 0;
      while absLength > 0
        invariant 0 <= at <= |all| && nodes == all[at..] && Chain()
        invariant freed == old(freed) + old(Items())[..at] && traverseLength == old(traverseLength)
        decreases absLength
      {
        DropFirst();
        at := at + 1;
      }
      MakeEmpty();
      assert old(Items())[..|all|] == old(Items());
    }

    method MakeEmpty()
      requires |nodes| == 0 && absLength == 0
      modifies this`absFront, this`traverseFront, this`front, this`back, this`length, this`traverseAt
      ensures Valid() && length == 0 && back == null && Traversing()
    {
      absFront, traverseFront, front, back, length := null, null, null, null, 0;
      traverseAt := 0;
    }

    // ---- Traversal -------------------------------------------------------------------------

    /** Starts with the first live item; after a reset with the last item, although none is live. The count is
        exact unless there was such a reset. */
    method InitTraversal()
      requires Valid()
      modifies this`traverseFront, this`traverseAt, this`traverseLength
      ensures Valid() && Traversing() && traverseLength == length
      ensures traverseAt == Taken()
      ensures |ToGo()| == traverseLength <==> length > 0 || front == null
      ensures length > 0 || front == null ==> ToGo() == Live()
    {
      hide Linked, DataOf;
      traverseFront, traverseLength, traverseAt := front, length, Taken();
    }

    /** Starts with the first item of all. */
    method InitAbsTraversal()
      requires Valid()
      modifies this`traverseFront, this`traverseAt, this`traverseLength
      ensures Valid() && Traversing() && ToGo() == Items() && |ToGo()| == traverseLength
    {
      traverseFront, traverseAt, traverseLength := absFront, 0, absLength;
    }

    /** The item at hand, if any, and on to the next; the count goes down in 64 bits. */
    method Traverse() returns (r: Option<T>)
      requires Valid() && Traversing()
      modifies this`traverseFront, this`traverseAt, this`traverseLength
      ensures Valid() && Traversing()
      ensures old(ToGo()) != [] ==>
        r == Some(old(ToGo())[0]) && ToGo() == old(ToGo())[1..]
        && traverseLength == if old(traverseLength) == 0 then SIZE_MAX else old(traverseLength) - 1
      ensures old(ToGo()) == [] ==> r == None && ToGo() == [] && traverseLength == old(traverseLength)
    {
      if traverseFront != null {
        r := Some(traverseFront.data);
        traverseFront := traverseFront.next;
        traverseAt := traverseAt + 1;
        traverseLength := if traverseLength == 0 then SIZE_MAX else traverseLength - 1;
      } else {
        r := None;
      }
    }

    method PeekTraverse() returns (r: Option<T>)
      requires Valid() && Traversing()
      ensures r == if ToGo() == [] then None else Some(ToGo()[0])
    {
      if traverseFront != null {
        r := Some(traverseFront.data);
      } else {
        r := None;
      }
    }

    static lemma OneOn(whole: seq<T>, gone: nat)
      requires gone < |whole|
      ensures whole[gone..][0] == whole[gone] && whole[gone..][1..] == whole[gone + 1..] && whole[..gone + 1] == whole[..gone] + [whole[gone]]
    {
    }

    /** The callers' loop: as long as the count is not zero, the next item. */
    method TraverseAll() returns (all: seq<T>)
      requires Valid() && Traversing() && traverseLength == |ToGo()|
      modifies this`traverseFront, this`traverseAt, this`traverseLength
      ensures Valid() && Traversing() && all == old(ToGo()) && ToGo() == [] && traverseLength == 0
    {
      hide Valid, DataOf, Linked, Chain, ToGo, Items;
      ghost var whole, gone := ToGo(), 0;
      all := [];
      while traverseLength > 0
        invariant Valid() && Traversing() && 0 <= gone <= |whole| && ToGo() == whole[gone..] && all == whole[..gone]
        invariant traverseLength == |whole| - gone
        decreases traverseLength
      {
        OneOn(whole, gone);
        var item := Traverse();
        all := all + [item.value];
        gone := gone + 1;
      }
    }
  }

  lemma AtFirst<T>(q: Queue<T>)
    requires q.Valid() && q.Traversing() && q.ToGo() == q.Items() && |q.Items()| > 0
    ensures q.traverseAt == 0 && q.traverseFront != null && |q.nodes| == |q.Items()|
  {
  }

  // ---- What goes wrong ---------------------------------------------------------------------

  /** Enqueue, dequeue, clean, reset: front is left at the freed node. */
  method ResetAfterClean<T>(data: T) returns (q: Queue<T>)
    ensures !q.Valid() && q.absLength == 0 && q.front != null
  {
    hide Queue.Linked, Queue.DataOf, Queue.Live;
    q := new Queue();
    q.Enqueue(data);
    ghost var node := q.nodes[0];
    var item := q.Dequeue();
    assert q.back == node;
    q.Clean();
    assert q.nodes == [];
    q.Reset();
  }

  /** Enqueue, start over all items, dequeue, clean: the traversal is left at the freed node. */
  method TraverseAfterClean<T>(data: T) returns (q: Queue<T>)
    ensures q.Valid() && !q.Traversing() && q.absLength == 0 && q.traverseFront != null
  {
    hide Queue.Valid, Queue.DataOf, Queue.Live, Queue.Taken, Queue.ToGo;
    q := new Queue();
    q.Enqueue(data);
    q.Sizes();
    q.InitAbsTraversal();
    AtFirst(q);
    var item := q.Dequeue();
    q.Sizes();
    assert q.Taken() == 1 && |q.nodes| == 1;
    q.Clean();
    q.Sizes();
    assert q.nodes == [];
  }

  /** Enqueue, reset, start over the live items: one item is traversed although the count says none, and then the count wraps. */
  method TraverseAfterReset<T>(data: T) returns (q: Queue<T>, r: Option<T>)
    ensures q.Valid() && q.length == 0 && r == Some(data) && q.traverseLength == SIZE_MAX
  {
    q := new Queue();
    q.Enqueue(data);
    q.Reset();
    q.InitTraversal();
    r := q.Traverse();
  }

  // ---- Merging -----------------------------------------------------------------------------

  ghost predicate NoneShared<T>(a: seq<QueueNode<T>>, b: seq<QueueNode<T>>) {
    forall i, j :: 0 <= i < |a| && 0 <= j < |b| ==> a[i] != b[j]
  }

  /** One live item goes over. */
  method MoveOne<T>(to: Queue<T>, source: Queue<T>)
    requires to.Valid() && source.Valid() && to != source && NoneShared(to.nodes, source.nodes) && source.length > 0
    modifies to, to.nodes, source`front, source`length
    ensures to.Valid() && source.Valid() && NoneShared(to.nodes, source.nodes) && source.nodes == old(source.nodes)
    ensures source.length == old(source.length) - 1 && source.Live() == old(source.Live()[1..])
    ensures to.Items() == old(to.Items()) + [old(source.Live()[0])]
    ensures old(to.Traversing()) ==> to.Traversing() && to.ToGo() == Queue.Further(old(to.ToGo()), [old(source.Live()[0])])
    ensures old(source.Traversing()) ==> source.Traversing() && source.ToGo() == old(source.ToGo())
    ensures forall i :: 0 <= i < |to.nodes| ==> to.nodes[i] in old(to.nodes) || fresh(to.nodes[i])
  {
    hide Queue.DataOf, Queue.Linked;
    var item := source.Dequeue();
    to.Enqueue(item.value);
  }

  /** The live items of one queue go to another; then the source starts over. */
  method MergeOne<T>(to: Queue<T>, source: Queue<T>)
    requires to.Valid() && source.Valid() && to != source && NoneShared(to.nodes, source.nodes)
    modifies to, to.nodes, source`front, source`length
    ensures to.Valid() && source.Valid() && NoneShared(to.nodes, source.nodes) && source.nodes == old(source.nodes)
    ensures to.Items() == old(to.Items()) + old(source.Live())
    ensures old(to.Traversing()) ==> to.Traversing() && to.ToGo() == Queue.Further(old(to.ToGo()), old(source.Live()))
    ensures old(source.Traversing()) ==> source.Traversing() && source.ToGo() == old(source.ToGo())
    ensures source.Live() == source.Items() == old(source.Items())
    ensures Undisturbed(source, old(source.nodes), old(source.traverseAt), old(source.traverseFront))
    ensures forall i :: 0 <= i < |to.nodes| ==> to.nodes[i] in old(to.nodes) || fresh(to.nodes[i])
  {
    hide Queue.DataOf, Queue.Linked, Queue.Valid, Queue.Live, Queue.Items, Queue.ToGo, Queue.Further, NoneShared;
    ghost var live := source.Live();
    var count := source.length;
    LiveSize(source);
    MoveAll(to, source, count, live);
    source.Restart();
  }

  lemma LiveSize<T>(q: Queue<T>)
    requires q.Valid()
    ensures |q.Live()| == q.length
  {
  }

  method MoveAll<T>(to: Queue<T>, source: Queue<T>, count: nat, ghost live: seq<T>)
    requires to.Valid() && source.Valid() && to != source && NoneShared(to.nodes, source.nodes)
    requires count == source.length == |live| && source.Live() == live
    modifies to, to.nodes, source`front, source`length
    ensures to.Valid() && source.Valid() && NoneShared(to.nodes, source.nodes) && source.nodes == old(source.nodes)
    ensures to.Items() == old(to.Items()) + live
    ensures old(to.Traversing()) ==> to.Traversing() && to.ToGo() == Queue.Further(old(to.ToGo()), live)
    ensures old(source.Traversing()) ==> source.Traversing() && source.ToGo() == old(source.ToGo())
    ensures forall i :: 0 <= i < |to.nodes| ==> to.nodes[i] in old(to.nodes) || fresh(to.nodes[i])
  {
    hide Queue.DataOf, Queue.Linked, Queue.Valid, Queue.Live, Queue.Items, Queue.ToGo, Queue.Further, NoneShared;
    ghost var items := to.Items();
    if old(to.Traversing()) { FurtherStill(old(to.ToGo()), [], []); }
    assert live[..0] == [];
    for j := 0 to count
      invariant to.Valid() && source.Valid() && NoneShared(to.nodes, source.nodes) && source.nodes == old(source.nodes)
      invariant source.length == count - j && source.Live() == live[j..]
      invariant to.Items() == items + live[..j]
      invariant old(to.Traversing()) ==> to.Traversing() && to.ToGo() == Queue.Further(old(to.ToGo()), live[..j])
      invariant old(source.Traversing()) ==> source.Traversing() && source.ToGo() == old(source.ToGo())
      invariant forall i :: 0 <= i < |to.nodes| ==> to.nodes[i] in old(to.nodes) || fresh(to.nodes[i])
    {
      MoveOne(to, source);
      assert live[..j + 1] == live[..j] + [live[j]];
      if old(to.Traversing()) { FurtherStill(old(to.ToGo()), live[..j], [live[j]]); }
    }
    assert live[..count] == live;
  }

  function Concat<T>(parts: seq<seq<T>>): seq<T> {
    if parts == [] then [] else Concat(parts[..|parts| - 1]) + parts[|parts| - 1]
  }

  /** A sound queue that shares nothing with the one to merge into. */
  ghost predicate Apart<T>(to: Queue<T>, q: Queue<T>)
    reads to`nodes, q, q.nodes
  {
    q.Valid() && q != to && NoneShared(to.nodes, q.nodes)
  }

  /** The cursor of a traversal and the nodes it stands among are as they were. */
  ghost predicate Undisturbed<T>(q: Queue<T>, nodes: seq<QueueNode<T>>, at: nat, front: QueueNode?<T>)
    reads q`nodes, q`traverseAt, q`traverseFront
  {
    q.nodes == nodes && q.traverseAt == at && q.traverseFront == front
  }

  /** mergeQueue: the live items of each source, in order, are appended; then every source starts over. */
  method MergeQueue<T>(to: Queue<T>, sources: seq<Queue<T>>, ghost parts: seq<seq<T>>)
    requires to.Valid() && |parts| == |sources|
    requires forall i :: 0 <= i < |sources| ==> Apart(to, sources[i]) && sources[i].Live() == parts[i]
    requires forall i, j :: 0 <= i < j < |sources| ==> sources[i] != sources[j]
    modifies to, to.nodes, sources
    ensures to.Valid() && to.Items() == old(to.Items()) + Concat(parts)
    ensures old(to.Traversing()) ==> to.Traversing() && to.ToGo() == Queue.Further(old(to.ToGo()), Concat(parts))
    ensures forall i :: 0 <= i < |sources| ==> Undisturbed(sources[i], old(sources[i].nodes), old(sources[i].traverseAt), old(sources[i].traverseFront))
    ensures forall i :: 0 <= i < |sources| ==> Apart(to, sources[i]) && sources[i].Live() == sources[i].Items() == old(sources[i].Items())
  {
    hide Queue.DataOf, Queue.Linked, Queue.Valid, Queue.Live, Queue.Items, Queue.ToGo, Queue.Further, Concat;
    ghost var items := to.Items();
    NothingYet(parts);
    if old(to.Traversing()) { FurtherStill(old(to.ToGo()), [], []); }
    for k := 0 to |sources|
      invariant to.Valid() && to.Items() == items + Concat(parts[..k])
      invariant old(to.Traversing()) ==> to.Traversing() && to.ToGo() == Queue.Further(old(to.ToGo()), Concat(parts[..k]))
      invariant forall i :: 0 <= i < |to.nodes| ==> to.nodes[i] in old(to.nodes) || fresh(to.nodes[i])
      invariant forall i :: 0 <= i < |sources| ==>
        && Apart(to, sources[i]) && sources[i].Items() == old(sources[i].Items())
        && sources[i].Live() == (if i < k then sources[i].Items() else parts[i])
        && Undisturbed(sources[i], old(sources[i].nodes), old(sources[i].traverseAt), old(sources[i].traverseFront))
    {
      MergeOne(to, sources[k]);
      OneMore(parts, k);
      if old(to.Traversing()) { FurtherStill(old(to.ToGo()), Concat(parts[..k]), parts[k]); }
    }
    assert parts[..|sources|] == parts;
  }

  lemma FurtherStill<T>(togo: seq<T>, a: seq<T>, b: seq<T>)
    ensures Queue<T>.Further(Queue<T>.Further(togo, a), b) == Queue<T>.Further(togo, a + b) && Queue<T>.Further(togo, []) == togo
  {
  }

  lemma NothingYet<T>(parts: seq<seq<T>>)
    ensures Concat(parts[..0]) == []
  {
  }

  lemma OneMore<T>(parts: seq<seq<T>>, k: nat)
    requires k < |parts|
    ensures Concat(parts[..k + 1]) == Concat(parts[..k]) + parts[k]
  {
    assert parts[..k + 1][..k] == parts[..k];
  }
}
