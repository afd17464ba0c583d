/** The intrusive doubly linked list, server/gluethread/glthread.c: a head and the nodes behind it. */
module GlThreads {
  import opened Lists

  class GlThread {
    var left: GlThread?
    var right: GlThread?

    /** init_glthread. */
    constructor ()
      ensures left == null && right == null
    {
      left, right := null, null;
    }
  }

  ghost predicate LinkedAt(ns: seq<GlThread>, k: nat)
    requires k < |ns|
    reads ns[k]
  {
    && ns[k].right == (if k + 1 < |ns| then ns[k + 1] else null)
    && ns[k].left == (if k > 0 then ns[k - 1] else null)
  }

  ghost predicate Linked(ns: seq<GlThread>)
    reads set k | 0 <= k < |ns| :: ns[k]
  {
    forall k {:trigger LinkedAt(ns, k)} | 0 <= k < |ns| :: LinkedAt(ns, k)
  }

  /** The head of a list and its elements, in order. */
  ghost predicate IsList(head: GlThread, items: seq<GlThread>)
    reads head, set k | 0 <= k < |items| :: items[k]
  {
    Distinct([head] + items) && Linked([head] + items)
  }

  /** The links a node has on no list. */
  ghost predicate Free(n: GlThread)
    reads n
  {
    n.left == null && n.right == null
  }

  ghost function NotNull(n: GlThread?): set<GlThread>
  {
    if n == null then {} else {n}
  }

  /** glthread_add_next. */
  method AddNext(curr: GlThread, node: GlThread)
    modifies curr`right, node, NotNull(curr.right)`left
    ensures old(curr.right) == null ==>
      curr.right == node && node.left == curr && (node != curr ==> node.right == old(node.right))
    ensures old(curr.right) != null ==> var temp := old(curr.right);
      && temp.left == node && node.right == temp
      && (node != curr ==> curr.right == node) && (node != temp ==> node.left == curr)
  {
    if curr.right == null {
      curr.right := node;
      node.left := curr;
      return;
    }
    var temp := curr.right;
    curr.right := node;
    node.left := curr;
    node.right := temp;
    temp.left := node;
  }

  /** remove_glthread. */
  method Remove(curr: GlThread)
    requires curr.left != curr && curr.right != curr
    modifies curr, NotNull(curr.left)`right, NotNull(curr.right)`left
    ensures Free(curr)
    ensures old(curr.left) != null && old(curr.left) != old(curr.right) ==> old(curr.left).right == old(curr.right)
    ensures old(curr.right) != null && old(curr.left) != old(curr.right) ==> old(curr.right).left == old(curr.left)
  {
    if curr.left == null {
      if curr.right != null {
        curr.right.left := null;
        curr.right := null;
        return;
      }
      return;
    }
    if curr.right == null {
      curr.left.right := null;
      curr.left := null;
      return;
    }
    curr.left.right := curr.right;
    curr.right.left := curr.left;
    curr.left := null;
    curr.right := null;
  }

  // ---- what this does to a list ----

  ghost function Next(ns: seq<GlThread>, k: nat): GlThread?
    requires k < |ns|
  {
    if k + 1 < |ns| then ns[k + 1] else null
  }

  ghost function Prev(ns: seq<GlThread>, k: nat): GlThread?
    requires k < |ns|
  {
    if k > 0 then ns[k - 1] else null
  }

  lemma PutKeepsLinks(ns: seq<GlThread>, k: nat, n: GlThread)
    requires k < |ns| && n !in ns
    requires forall i {:trigger Next(ns, i)} | 0 <= i < |ns| && i != k :: ns[i].right == Next(ns, i)
    requires forall i {:trigger Prev(ns, i)} | 0 <= i < |ns| && i != k + 1 :: ns[i].left == Prev(ns, i)
    requires ns[k].right == n && n.left == ns[k] && n.right == Next(ns, k) && (k + 1 < |ns| ==> ns[k + 1].left == n)
    ensures Linked(Put(ns, k + 1, n))
  {
    var r := Put(ns, k + 1, n);
    forall i | 0 <= i < |r| ensures LinkedAt(r, i) {
      var was := if i <= k then i else i - 1;
      assert was != k ==> ns[was].right == Next(ns, was);
      assert was != k + 1 ==> ns[was].left == Prev(ns, was);
      PutAt(ns, k + 1, n, i);
      if i > 0 {
        PutAt(ns, k + 1, n, i - 1);
      }
      if i + 1 < |r| {
        PutAt(ns, k + 1, n, i + 1);
      }
    }
  }

  lemma CutKeepsLinks(ns: seq<GlThread>, k: nat)
    requires 0 < k < |ns|
    requires forall i {:trigger Next(ns, i)} | 0 <= i < |ns| && i != k && i != k - 1 :: ns[i].right == Next(ns, i)
    requires forall i {:trigger Prev(ns, i)} | 0 <= i < |ns| && i != k && i != k + 1 :: ns[i].left == Prev(ns, i)
    requires ns[k - 1].right == Next(ns, k) && (k + 1 < |ns| ==> ns[k + 1].left == ns[k - 1])
    ensures Linked(Cut(ns, k))
  {
    var r := Cut(ns, k);
    forall i | 0 <= i < |r| ensures LinkedAt(r, i) {
      var was := if i < k then i else i + 1;
      assert was != k - 1 ==> ns[was].right == Next(ns, was);
      assert was != k + 1 ==> ns[was].left == Prev(ns, was);
      CutAt(ns, k, i);
      if i > 0 {
        CutAt(ns, k, i - 1);
      }
      if i + 1 < |r| {
        CutAt(ns, k, i + 1);
      }
    }
  }

  lemma LinkSays(ns: seq<GlThread>, k: nat)
    requires Linked(ns) && k < |ns|
    ensures ns[k].right == Next(ns, k) && ns[k].left == Prev(ns, k)
  {
    assert LinkedAt(ns, k);
  }

  lemma LinksSay(ns: seq<GlThread>)
    requires Linked(ns)
    ensures forall i {:trigger Next(ns, i)} | 0 <= i < |ns| :: ns[i].right == Next(ns, i)
    ensures forall i {:trigger Prev(ns, i)} | 0 <= i < |ns| :: ns[i].left == Prev(ns, i)
  {
    forall i | 0 <= i < |ns| ensures ns[i].right == Next(ns, i) && ns[i].left == Prev(ns, i) {
      LinkSays(ns, i);
    }
  }

  lemma LinkNeighbours(ns: seq<GlThread>, k: nat)
    requires Linked(ns) && Distinct(ns) && k < |ns|
    ensures ns[k].right != ns[k] && ns[k].left != ns[k]
    ensures ns[k].right == (if k + 1 < |ns| then ns[k + 1] else null) == Next(ns, k)
    ensures ns[k].left == (if k > 0 then ns[k - 1] else null) == Prev(ns, k)
    ensures ns[k].left != null ==> ns[k].left != ns[k].right
  {
    LinkSays(ns, k);
  }

  /** A node put behind the k-th of head and elements comes k-th among the elements. */
  method PutBehind(head: GlThread, ghost items: seq<GlThread>, curr: GlThread, ghost k: nat, node: GlThread)
    requires IsList(head, items) && k <= |items| && curr == ([head] + items)[k]
    requires Free(node) && node != head && node !in items
    modifies head, node, set i | 0 <= i < |items| :: items[i]
    ensures IsList(head, Put(items, k, node))
  {
    ghost var ns := [head] + items;
    LinkNeighbours(ns, k);
    PutDistinct(ns, k + 1, node);
    hide Linked, LinkedAt, Next, Prev;
    LinksSay(ns);
    AddNext(curr, node);
    PutKeepsLinks(ns, k, node);
    assert [head] + Put(items, k, node) == Put(ns, k + 1, node);
  }

  /** remove_glthread on the k-th element. */
  method TakeOut(head: GlThread, ghost items: seq<GlThread>, curr: GlThread, ghost k: nat)
    requires IsList(head, items) && k < |items| && curr == items[k]
    modifies head, set i | 0 <= i < |items| :: items[i]
    ensures IsList(head, Cut(items, k)) && Free(curr)
  {
    ghost var ns := [head] + items;
    LinkNeighbours(ns, k + 1);
    CutDistinct(ns, k + 1);
    hide Linked, LinkedAt, Next, Prev;
    LinksSay(ns);
    Remove(curr);
    CutKeepsLinks(ns, k + 1);
    assert [head] + Cut(items, k) == Cut(ns, k + 1);
  }

  /** The loop of glthread_add_last: the last element, or the head if there is none. */
  method FindLast(head: GlThread, ghost items: seq<GlThread>) returns (last: GlThread)
    requires IsList(head, items)
    ensures last == ([head] + items)[|items|]
  {
    ghost var ns := [head] + items;
    LinkNeighbours(ns, 0);
    var curr, prev := head.right, null;
    ghost var k := 0;
    while curr != null
      invariant k <= |items| && curr == Next(ns, k) && prev == if k == 0 then null else items[k - 1]
      decreases |items| - k
    {
      prev := curr;
      k := k + 1;
      LinkNeighbours(ns, k);
      curr := curr.right;
    }
    last := if prev != null then prev else head;
  }

  /** glthread_add_last. */
  method AddLast(head: GlThread, ghost items: seq<GlThread>, node: GlThread)
    requires IsList(head, items) && Free(node) && node != head && node !in items
    modifies head, node, set i | 0 <= i < |items| :: items[i]
    ensures IsList(head, items + [node])
  {
    var last := FindLast(head, items);
    PutBehind(head, items, last, |items|, node);
    assert Put(items, |items|, node) == items + [node];
  }

  /** Following the links one never comes to an end. */
  ghost predicate NoEnd(head: GlThread, items: seq<GlThread>)
    reads head, set i | 0 <= i < |items| :: items[i]
  {
    head.right in items && forall n | n in items :: n.right in items
  }

  /** glthread_add_last once more for an element that is on the list already: the list has no end any more. */
  method AddLastAgain(head: GlThread, ghost items: seq<GlThread>, node: GlThread, ghost k: nat)
    requires IsList(head, items) && k < |items| && node == items[k]
    modifies head, set i | 0 <= i < |items| :: items[i]
    ensures NoEnd(head, items)
  {
    ghost var ns := [head] + items;
    LinksSay(ns);
    var last := FindLast(head, items);
    assert last == items[|items| - 1] && Next(ns, |items|) == null;
    AddNext(last, node);
    forall i | 0 <= i < |items| ensures items[i].right in items {
      assert items[i] == ns[i + 1];
      if i + 1 < |items| {
        assert Next(ns, i + 1) == items[i + 1];
      }
    }
    assert Next(ns, 0) == items[0] && head == ns[0];
  }

  /** Where the loop of glthread_add_last stands after n turns. */
  ghost function Follow(curr: GlThread?, n: nat, items: seq<GlThread>): GlThread?
    reads set i | 0 <= i < |items| :: items[i]
    decreases n
  {
    if n == 0 || curr == null || curr !in items then curr else Follow(curr.right, n - 1, items)
  }

  /** So that loop never ends. */
  lemma {:induction false} LoopsForever(curr: GlThread, n: nat, items: seq<GlThread>)
    requires curr in items && forall x | x in items :: x.right in items
    ensures Follow(curr, n, items) != null
    decreases n
  {
    if n > 0 {
      LoopsForever(curr.right, n - 1, items);
    }
  }

  /** dequeue_glthread_first. */
  method DequeueFirst(head: GlThread, ghost items: seq<GlThread>) returns (first: GlThread?)
    requires IsList(head, items)
    modifies head, set i | 0 <= i < |items| :: items[i]
    ensures items == [] ==> first == null && IsList(head, [])
    ensures items != [] ==> first == items[0] && Free(items[0]) && IsList(head, items[1..])
  {
    LinkNeighbours([head] + items, 0);
    first := head.right;
    if first == null {
      return;
    }
    TakeOut(head, items, first, 0);
    assert Cut(items, 0) == items[1..];
  }

  /** The place a priority insert finds: behind all elements that do not come after the new one. */
  ghost predicate Place(items: seq<GlThread>, key: map<GlThread, int>, x: int, p: nat)
    requires forall i | 0 <= i < |items| :: items[i] in key
  {
    && p <= |items| && (forall i | 0 <= i < p :: key[items[i]] <= x)
    && (p < |items| ==> x < key[items[p]])
  }

  /** glthread_priority_insert; the comparison function says -1 when the first key is the smaller. */
  method PriorityInsert(head: GlThread, ghost items: seq<GlThread>, node: GlThread, key: map<GlThread, int>)
    returns (ghost p: nat)
    requires IsList(head, items) && node != head && node !in items
    requires node in key && forall i | 0 <= i < |items| :: items[i] in key
    modifies head, node, set i | 0 <= i < |items| :: items[i]
    ensures Place(items, key, key[node], p) && IsList(head, Put(items, p, node))
  {
    ghost var ns := [head] + items;
    node.left, node.right := null, null;
    assert Linked(ns);
    LinkNeighbours(ns, 0);
    if items != [] {
      LinkNeighbours(ns, 1);
    }
    if head.right == null && head.left == null {
      PutBehind(head, items, head, 0, node);
      return 0;
    }
    if head.right != null && head.right.right == null {
      if key[node] < key[head.right] {
        PutBehind(head, items, head, 0, node);
        return 0;
      }
      PutBehind(head, items, head.right, 1, node);
      return 1;
    }
    var curr, prev := head.right, null;
    p := 0;
    while curr != null
      invariant IsList(head, items) && Free(node)
      invariant p <= |items| && curr == Next(ns, p) && prev == if p == 0 then null else items[p - 1]
      invariant forall i | 0 <= i < p :: key[items[i]] <= key[node]
      decreases |items| - p
    {
      if key[node] < key[curr] {
        PutBehind(head, items, if prev == null then head else prev, p, node);
        return;
      }
      prev := curr;
      p := p + 1;
      LinkNeighbours(ns, p);
      curr := curr.right;
    }
    PutBehind(head, items, prev, p, node);
  }

  ghost predicate Sorted(items: seq<GlThread>, key: map<GlThread, int>)
  {
    && (forall i | 0 <= i < |items| :: items[i] in key)
    && (forall i, j | 0 <= i < j < |items| :: key[items[i]] <= key[items[j]])
  }

  /** A priority insert into a sorted list leaves it sorted, the new element behind its equals. */
  lemma PriorityInsertSorts(items: seq<GlThread>, key: map<GlThread, int>, n: GlThread, p: nat)
    requires Sorted(items, key) && n in key && Place(items, key, key[n], p)
    ensures Sorted(Put(items, p, n), key)
    ensures forall i | p < i <= |items| :: key[n] < key[Put(items, p, n)[i]]
  {
  }
}
