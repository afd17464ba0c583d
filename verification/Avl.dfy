/** The AVL tree with parent pointers of server/Tree/avl.c.

    Nodes and tree are mutable objects rewired in place.  Ghost fields place every node in the
    sorted sequence of the tree's nodes: the subtree under n is order[n.lo..n.hi], n itself sits
    at n.pos, and n.h is the height of the subtree.  With those, tree shape, order and balance are
    all facts about a node and its immediate neighbours. */
module AvlTrees {
  class AvlNode {
    const key: int
    var left: AvlNode?
    var right: AvlNode?
    var parent: AvlNode?
    var balance: int
    ghost var pos: int
    ghost var lo: int
    ghost var hi: int
    ghost var h: int

    constructor (key: int)
      ensures this.key == key
    {
      this.key := key;
      left, right, parent, balance := null, null, null, 0;
    }
  }

  function Just(n: AvlNode?): set<AvlNode> { if n == null then {} else {n} }

  function Max(a: int, b: int): int { if a < b then b else a }

  ghost function Fib(n: int): int
  {
    if n <= 0 then 0 else if n == 1 then 1 else Fib(n - 1) + Fib(n - 2)
  }

  lemma {:induction false} FibGrows(n: int)
    ensures 0 <= Fib(n) <= Fib(n + 1)
    decreases n
  {
    if n > 1 {
      FibGrows(n - 1);
      FibGrows(n - 2);
    }
  }

  /** Height of a subtree as the source counts it: -1 when empty. */
  ghost function H(n: AvlNode?): int
    reads Just(n)`h
  {
    if n == null then -1 else n.h
  }

  class AvlTree {
    var root: AvlNode?
    var first: AvlNode?
    var last: AvlNode?
    var height: int
    ghost var nodes: set<AvlNode>
    ghost var order: seq<AvlNode>

    // ---- invariants, node by node ----

    ghost predicate LeftAt(n: AvlNode)
      requires n in nodes
      reads `nodes, nodes`left, nodes`parent, nodes`lo, nodes`pos, nodes`hi
    {
      && 0 <= n.lo <= n.pos
      && (n.left == null <==> n.lo == n.pos)
      && (n.left != null ==>
            && n.left in nodes && n.left.parent == n
            && n.left.lo == n.lo && n.left.hi == n.pos)
    }

    ghost predicate RightAt(n: AvlNode)
      requires n in nodes
      reads `nodes, `order, nodes`right, nodes`parent, nodes`lo, nodes`pos, nodes`hi
    {
      && n.pos < n.hi <= |order|
      && (n.right == null <==> n.pos + 1 == n.hi)
      && (n.right != null ==>
            && n.right in nodes && n.right.parent == n
            && n.right.lo == n.pos + 1 && n.right.hi == n.hi)
    }

    ghost predicate UpAt(n: AvlNode)
      requires n in nodes
      reads `nodes, `root, nodes`left, nodes`right, nodes`parent
    {
      && (n.parent == null ==> n == root)
      && (n.parent != null ==> n.parent in nodes && (n.parent.left == n || n.parent.right == n))
    }

    ghost predicate LinkedAt(n: AvlNode)
      reads `nodes, `root, `order, nodes`left, nodes`right, nodes`parent, nodes`lo, nodes`pos, nodes`hi
    {
      && n in nodes
      && LeftAt(n) && RightAt(n) && UpAt(n)
      && order[n.pos] == n
    }

    /** Child and parent links agree and every node occupies its place in the sorted sequence. */
    ghost predicate Linked()
      reads `nodes, `root, `order, nodes`left, nodes`right, nodes`parent, nodes`lo, nodes`pos, nodes`hi
    {
      && (forall n {:trigger LinkedAt(n)} | n in nodes :: LinkedAt(n))
      && (forall i {:trigger order[i]} | 0 <= i < |order| :: order[i] in nodes && order[i].pos == i)
      && (root == null ==> order == [] && nodes == {})
      && (root != null ==> root in nodes && root.parent == null && root.lo == 0 && root.hi == |order|)
    }

    /** The stored balance and the ghost height fit children whose heights are off by dl and dr. */
    ghost predicate HeightsAt(n: AvlNode, dl: int, dr: int)
      reads `nodes, nodes`left, nodes`right, nodes`balance, nodes`h
    {
      && n in nodes
      && (n.left == null || n.left in nodes)
      && (n.right == null || n.right in nodes)
      && 0 <= n.h == 1 + Max(H(n.left) + dl, H(n.right) + dr)
      && n.balance == (H(n.right) + dr) - (H(n.left) + dl)
      && -1 <= n.balance <= 1
    }

    ghost predicate BalancedAt(n: AvlNode)
      reads `nodes, nodes`left, nodes`right, nodes`balance, nodes`h
    {
      HeightsAt(n, 0, 0)
    }

    ghost predicate Balanced(except: set<AvlNode>)
      reads `nodes, nodes`left, nodes`right, nodes`balance, nodes`h
    {
      forall n {:trigger BalancedAt(n)} | n in nodes && n !in except :: BalancedAt(n)
    }

    ghost predicate Sorted()
      reads `order
    {
      forall i, j | 0 <= i < j < |order| :: order[i].key < order[j].key
    }

    ghost predicate Ends()
      reads `first, `last, `order
    {
      && first == (if order == [] then null else order[0])
      && last == (if order == [] then null else order[|order| - 1])
    }

    ghost predicate Valid()
      reads this, nodes
    {
      Linked() && Balanced({}) && Sorted() && Ends() && height == H(root)
    }

    // ---- rotations ----

    /** Where node n stands after q rose above p by a left rotation. */
    twostate predicate RotatedLeftAt(new p: AvlNode, new q: AvlNode, new n: AvlNode)
      reads `nodes, {p, q, n}`left, {p, q, n}`right, {p, q, n}`parent, {p, q, n}`lo, {p, q, n}`pos, {p, q, n}`hi
    {
      && p in old(nodes) && q in old(nodes) && n in old(nodes) && n in nodes && n.pos == old(n.pos)
      && if n == p then
           p.left == old(p.left) && p.right == old(q.left) && p.parent == q && p.lo == old(p.lo) && p.hi == old(q.pos)
         else if n == q then
           q.left == p && q.right == old(q.right) && q.parent == old(p.parent) && q.lo == old(p.lo) && q.hi == old(q.hi)
         else
           && n.left == (if n == old(p.parent) && old(n.left) == p then q else old(n.left))
           && n.right == (if n == old(p.parent) && old(n.right) == p then q else old(n.right))
           && n.parent == (if n == old(q.left) then p else old(n.parent))
           && n.lo == old(n.lo) && n.hi == old(n.hi)
    }

    twostate predicate WasLeft(new p: AvlNode, new q: AvlNode, new n: AvlNode?)
      reads `nodes, {p, q, n}`left, {p, q, n}`right, {p, q, n}`parent, {p, q, n}`lo, {p, q, n}`pos, {p, q, n}`hi
    {
       n == null || (n in old(nodes) && RotatedLeftAt(p, q, n) && old(LinkedAt(n)))
    }

    twostate predicate TurnedLeft(new p: AvlNode, new q: AvlNode)
      reads `nodes, `order, `root, {p, q}`left, {p, q}`right, {p, q}`parent, {p, q}`lo, {p, q}`pos, {p, q}`hi
    {
      && nodes == old(nodes) && order == old(order)
      && p in nodes && q == old(p.right) && q in nodes
      && root == (if old(p.parent) == null then q else old(root))
      && WasLeft(p, q, p) && WasLeft(p, q, q)
    }

    twostate lemma LeftAfterTurnLeft(new p: AvlNode, new q: AvlNode, new n: AvlNode)
      requires TurnedLeft(p, q) && n in old(nodes) && WasLeft(p, q, n) && WasLeft(p, q, old(n.left))
      ensures LeftAt(n)
    {
    }

    twostate lemma RightAfterTurnLeft(new p: AvlNode, new q: AvlNode, new n: AvlNode)
      requires TurnedLeft(p, q) && n in old(nodes) && WasLeft(p, q, n) && WasLeft(p, q, old(n.right))
        && WasLeft(p, q, old(q.left))
      ensures RightAt(n)
    {
    }

    twostate lemma UpAfterTurnLeft(new p: AvlNode, new q: AvlNode, new n: AvlNode)
      requires TurnedLeft(p, q) && n in old(nodes) && WasLeft(p, q, n) && WasLeft(p, q, old(n.parent))
        && WasLeft(p, q, old(p.parent))
      ensures UpAt(n)
    {
    }

    twostate lemma TurnLeftKeepsLinked(new p: AvlNode, new q: AvlNode)
      requires nodes == old(nodes) && order == old(order)
      requires p in old(nodes) && q == old(p.right)
      requires root == if old(p.parent) == null then q else old(root)
      requires old(Linked())
      requires forall n {:trigger RotatedLeftAt(p, q, n)} | n in nodes :: RotatedLeftAt(p, q, n)
      ensures Linked()
    {
      assert old(LinkedAt(p)) && old(LinkedAt(q));
      forall n | n in nodes ensures LinkedAt(n) {
        assert old(LinkedAt(n));
        LeftAfterTurnLeft(p, q, n);
        RightAfterTurnLeft(p, q, n);
        UpAfterTurnLeft(p, q, n);
      }
      assert RotatedLeftAt(p, q, q);
      assert old(root) != null ==> RotatedLeftAt(p, q, old(root));
      assert old(root != null ==> LinkedAt(root));
      forall i | 0 <= i < |order| ensures order[i] in nodes && order[i].pos == i {
        assert RotatedLeftAt(p, q, order[i]);
      }
    }

    method RelinkLeft(p: AvlNode)
      requires p in nodes && p.right != null && p.right in nodes
      requires p.parent == null || p.parent in nodes
      requires p.right.left == null || p.right.left in nodes
      requires p != p.right && p != p.parent && p.right != p.parent
      requires p.right.left != p.right && p.right.left != p && p.right.left != p.right
      requires p.parent != null ==> p.parent != p.right.left && (p.parent.left == p) != (p.parent.right == p)
      modifies `root, nodes`left, nodes`right, nodes`parent, nodes`lo, nodes`hi
      ensures root == if old(p.parent) == null then old(p.right) else old(root)
      ensures forall n {:trigger RotatedLeftAt(p, old(p.right), n)} | n in nodes :: RotatedLeftAt(p, old(p.right), n)
    {
      var q := p.right;
      var parent := p.parent;
      if parent != null {
        if parent.left == p {
          parent.left := q;
        } else {
          parent.right := q;
        }
      } else {
        root := q;
      }
      q.parent := parent;
      p.parent := q;
      p.right := q.left;
      if p.right != null {
        p.right.parent := p;
      }
      q.left := p;
      q.lo := p.lo;
      p.hi := q.pos;
    }

    method RotateLeft(p: AvlNode)
      requires Linked() && p in nodes && p.right != null
      modifies `root, nodes`left, nodes`right, nodes`parent, nodes`lo, nodes`hi
      ensures Linked()
      ensures root == if old(p.parent) == null then old(p.right) else old(root)
      ensures forall n {:trigger RotatedLeftAt(p, old(p.right), n)} | n in nodes :: RotatedLeftAt(p, old(p.right), n)
    {
      ghost var q := p.right;
      assert LinkedAt(p) && LinkedAt(q);
      assert p.parent != null ==> LinkedAt(p.parent);
      assert q.left != null ==> LinkedAt(q.left);
      RelinkLeft(p);
      TurnLeftKeepsLinked(p, q);
    }

    /** Where node n stands after q rose above p by a right rotation. */
    twostate predicate RotatedRightAt(new p: AvlNode, new q: AvlNode, new n: AvlNode)
      reads `nodes, {p, q, n}`right, {p, q, n}`left, {p, q, n}`parent, {p, q, n}`lo, {p, q, n}`pos, {p, q, n}`hi
    {
      && p in old(nodes) && q in old(nodes) && n in old(nodes) && n in nodes && n.pos == old(n.pos)
      && if n == p then
           p.right == old(p.right) && p.left == old(q.right) && p.parent == q && p.lo == old(q.pos) + 1
             && p.hi == old(p.hi)
         else if n == q then
           q.right == p && q.left == old(q.left) && q.parent == old(p.parent) && q.lo == old(q.lo) && q.hi == old(p.hi)
         else
           && n.right == (if n == old(p.parent) && old(n.right) == p then q else old(n.right))
           && n.left == (if n == old(p.parent) && old(n.left) == p then q else old(n.left))
           && n.parent == (if n == old(q.right) then p else old(n.parent))
           && n.lo == old(n.lo) && n.hi == old(n.hi)
    }

    twostate predicate WasRight(new p: AvlNode, new q: AvlNode, new n: AvlNode?)
      reads `nodes, {p, q, n}`right, {p, q, n}`left, {p, q, n}`parent, {p, q, n}`lo, {p, q, n}`pos, {p, q, n}`hi
    {
       n == null || (n in old(nodes) && RotatedRightAt(p, q, n) && old(LinkedAt(n)))
    }

    twostate predicate TurnedRight(new p: AvlNode, new q: AvlNode)
      reads `nodes, `order, `root, {p, q}`right, {p, q}`left, {p, q}`parent, {p, q}`lo, {p, q}`pos, {p, q}`hi
    {
      && nodes == old(nodes) && order == old(order)
      && p in nodes && q == old(p.left) && q in nodes
      && root == (if old(p.parent) == null then q else old(root))
      && WasRight(p, q, p) && WasRight(p, q, q)
    }

    twostate lemma RightAfterTurnRight(new p: AvlNode, new q: AvlNode, new n: AvlNode)
      requires TurnedRight(p, q) && n in old(nodes) && WasRight(p, q, n) && WasRight(p, q, old(n.right))
      ensures RightAt(n)
    {
    }

    twostate lemma LeftAfterTurnRight(new p: AvlNode, new q: AvlNode, new n: AvlNode)
      requires TurnedRight(p, q) && n in old(nodes) && WasRight(p, q, n) && WasRight(p, q, old(n.left))
        && WasRight(p, q, old(q.right))
      ensures LeftAt(n)
    {
    }

    twostate lemma UpAfterTurnRight(new p: AvlNode, new q: AvlNode, new n: AvlNode)
      requires TurnedRight(p, q) && n in old(nodes) && WasRight(p, q, n) && WasRight(p, q, old(n.parent))
        && WasRight(p, q, old(p.parent))
      ensures UpAt(n)
    {
    }

    twostate lemma TurnRightKeepsLinked(new p: AvlNode, new q: AvlNode)
      requires nodes == old(nodes) && order == old(order)
      requires p in old(nodes) && q == old(p.left)
      requires root == if old(p.parent) == null then q else old(root)
      requires old(Linked())
      requires forall n {:trigger RotatedRightAt(p, q, n)} | n in nodes :: RotatedRightAt(p, q, n)
      ensures Linked()
    {
      assert old(LinkedAt(p)) && old(LinkedAt(q));
      forall n | n in nodes ensures LinkedAt(n) {
        assert old(LinkedAt(n));
        RightAfterTurnRight(p, q, n);
        LeftAfterTurnRight(p, q, n);
        UpAfterTurnRight(p, q, n);
      }
      assert RotatedRightAt(p, q, q);
      assert old(root) != null ==> RotatedRightAt(p, q, old(root));
      assert old(root != null ==> LinkedAt(root));
      forall i | 0 <= i < |order| ensures order[i] in nodes && order[i].pos == i {
        assert RotatedRightAt(p, q, order[i]);
      }
    }

    method RelinkRight(p: AvlNode)
      requires p in nodes && p.left != null && p.left in nodes
      requires p.parent == null || p.parent in nodes
      requires p.left.right == null || p.left.right in nodes
      requires p != p.left && p != p.parent && p.left != p.parent
      requires p.left.right != p.left && p.left.right != p && p.left.right != p.left
      requires p.parent != null ==> p.parent != p.left.right && (p.parent.left == p) != (p.parent.right == p)
      modifies `root, nodes`right, nodes`left, nodes`parent, nodes`lo, nodes`hi
      ensures root == if old(p.parent) == null then old(p.left) else old(root)
      ensures forall n {:trigger RotatedRightAt(p, old(p.left), n)} | n in nodes :: RotatedRightAt(p, old(p.left), n)
    {
      var q := p.left;
      var parent := p.parent;
      if parent != null {
        if parent.left == p {
          parent.left := q;
        } else {
          parent.right := q;
        }
      } else {
        root := q;
      }
      q.parent := parent;
      p.parent := q;
      p.left := q.right;
      if p.left != null {
        p.left.parent := p;
      }
      q.right := p;
      q.hi := p.hi;
      p.lo := q.pos + 1;
    }

    method RotateRight(p: AvlNode)
      requires Linked() && p in nodes && p.left != null
      modifies `root, nodes`right, nodes`left, nodes`parent, nodes`lo, nodes`hi
      ensures Linked()
      ensures root == if old(p.parent) == null then old(p.left) else old(root)
      ensures forall n {:trigger RotatedRightAt(p, old(p.left), n)} | n in nodes :: RotatedRightAt(p, old(p.left), n)
    {
      ghost var q := p.left;
      assert LinkedAt(p) && LinkedAt(q);
      assert p.parent != null ==> LinkedAt(p.parent);
      assert q.right != null ==> LinkedAt(q.right);
      RelinkRight(p);
      TurnRightKeepsLinked(p, q);
    }

    // ---- rotations and heights ----

    /** Height and balance of m are as before. */
    twostate predicate SameAt(new m: AvlNode?)
      reads `nodes, Just(m)`h, Just(m)`balance
    {
      m == null || (m in old(nodes) && m in nodes && m.h == old(m.h) && m.balance == old(m.balance))
    }

    /** x, the node above p, has only noticed that its subtree's height went from p's old height to r's. */
    twostate predicate SeesChange(new p: AvlNode, new r: AvlNode, new x: AvlNode)
      reads `nodes, nodes`left, nodes`right, nodes`balance, nodes`h, r`h
    {
      && p in old(nodes) && x in old(nodes)
      && var d := old(p.h) - r.h;
         if old(x.left) == p then HeightsAt(x, d, 0) else HeightsAt(x, 0, d)
    }

    /** The subtree of p hangs below x as before, now with r on top. */
    twostate predicate Lifted(new p: AvlNode, new r: AvlNode, new x: AvlNode?)
      reads this, nodes
    {
      && nodes == old(nodes) && order == old(order) && p in old(nodes) && x == old(p.parent)
      && Linked() && Balanced(Just(x))
      && r in nodes && r.parent == x
      && (x == null ==> root == r)
      && (x != null ==>
            && x in nodes && x in old(nodes) && root in nodes && root in old(nodes)
            && root == old(root) && root.h == old(root.h) && x.parent == old(x.parent)
            && x.lo == old(x.lo) && x.hi == old(x.hi) && SeesChange(p, r, x))
    }

    twostate lemma OutsideTurnLeft(new p: AvlNode, new q: AvlNode, new n: AvlNode)
      requires nodes == old(nodes) && p in old(nodes) && q in old(nodes) && n in old(nodes)
      requires q == old(p.right) && n != p && n != q && RotatedLeftAt(p, q, n)
      requires old(LinkedAt(p)) && old(LinkedAt(q)) && old(LinkedAt(n)) && old(BalancedAt(n))
      requires SameAt(n)
      requires old(n.left) == p || SameAt(old(n.left))
      requires old(n.right) == p || SameAt(old(n.right))
      ensures if n == old(p.parent) then SeesChange(p, q, n) else BalancedAt(n)
    {
    }

    twostate predicate TurnedLeftTree(new p: AvlNode, new q: AvlNode)
      reads this, nodes, p, q
    {
      && nodes == old(nodes) && order == old(order) && Linked()
      && p in old(nodes) && q in nodes && old(Linked()) && old(p.right) == q
      && root == (if old(p.parent) == null then q else old(root))
      && (forall n {:trigger RotatedLeftAt(p, q, n)} | n in nodes :: RotatedLeftAt(p, q, n))
      && (forall m {:trigger SameAt(m)} | m in nodes && m != p && m != q :: SameAt(m))
    }

    twostate lemma OthersAfterTurnLeft(new p: AvlNode, new q: AvlNode, new n: AvlNode, ex: set<AvlNode>)
      requires TurnedLeftTree(p, q) && old(Balanced(ex)) && p in ex && q in ex
      requires n in nodes && n !in ex
      ensures if n == old(p.parent) then SeesChange(p, q, n) else BalancedAt(n)
    {
      assert old(LinkedAt(p)) && old(LinkedAt(q));
      assert old(LinkedAt(n)) && old(BalancedAt(n));
      assert RotatedLeftAt(p, q, n);
      assert SameAt(n);
      assert old(n.left) != q && old(n.right) != q;
      assert old(n.left) == p || SameAt(old(n.left));
      assert old(n.right) == p || SameAt(old(n.right));
      OutsideTurnLeft(p, q, n);
    }

    twostate lemma LiftedByTurnLeft(new p: AvlNode, new q: AvlNode)
      requires TurnedLeftTree(p, q) && old(Balanced({p, q}))
      requires BalancedAt(p) && BalancedAt(q)
      ensures Lifted(p, q, old(p.parent))
    {
      assert old(LinkedAt(p)) && old(LinkedAt(q));
      assert RotatedLeftAt(p, q, q);
      forall n | n in nodes && n !in Just(old(p.parent)) ensures BalancedAt(n) {
        if n != p && n != q {
          OthersAfterTurnLeft(p, q, n, {p, q});
        }
      }
      var x := old(p.parent);
      if x != null {
        assert old(LinkedAt(x));
        OthersAfterTurnLeft(p, q, x, {p, q});
        assert RotatedLeftAt(p, q, x);
        assert SameAt(root);
      }
    }

    /** set_balance on both nodes, then rotate_left; the ghost heights follow. */
    method TurnLeft(p: AvlNode, bp: int, bq: int, ghost hp: int, ghost hq: int)
      requires Linked() && p in nodes && p.right != null && p.right in nodes
      modifies `root, nodes`left, nodes`right, nodes`parent, nodes`lo, nodes`hi, p`balance,
        Just(p.right)`balance, nodes`h
      ensures TurnedLeftTree(p, old(p.right))
      ensures p.balance == bp && p.h == hp
      ensures old(p.right).balance == bq && old(p.right).h == hq
    {
      ghost var q := p.right;
      assert LinkedAt(p);
      p.balance := bp;
      p.right.balance := bq;
      p.h := hp;
      q.h := hq;
      label L:
      RotateLeft(p);
      forall n | n in nodes ensures RotatedLeftAt(p, q, n) {
        assert RotatedLeftAt@L(p, q, n);
      }
    }

    /** A left rotation at p whose new balances fit the subtrees that p and its child end up with. */
    method RaiseLeft(p: AvlNode, bp: int, bq: int, ghost hp: int)
      requires Linked() && Balanced({p} + Just(p.right)) && p in nodes && p.right != null && p.right in nodes
      requires var q := p.right;
        (p.left == null || p.left in nodes) && (q.left == null || q.left in nodes)
        && (q.right == null || q.right in nodes)
      requires var q := p.right;
        && 0 <= hp == 1 + Max(H(p.left), H(q.left)) && bp == H(q.left) - H(p.left) && -1 <= bp <= 1
        && bq == H(q.right) - hp && -1 <= bq <= 0
      modifies `root, nodes`left, nodes`right, nodes`parent, nodes`lo, nodes`hi, p`balance,
        Just(p.right)`balance, nodes`h
      ensures Lifted(p, old(p.right), old(p.parent))
      ensures old(p.right).h == hp + 1
    {
      ghost var q := p.right;
      assert LinkedAt(p) && LinkedAt(q);
      TurnLeft(p, bp, bq, hp, hp + 1);
      assert RotatedLeftAt(p, q, p) && RotatedLeftAt(p, q, q);
      assert SameAt(p.left) && SameAt(p.right) && SameAt(q.right);
      LiftedByTurnLeft(p, q);
    }

    method SingleLeft(p: AvlNode)
      requires Linked() && Balanced({p}) && p in nodes && p.right != null
      requires p.right in nodes && p.right.balance in {0, 1} && H(p.right) == H(p.left) + 2
      modifies `root, nodes`left, nodes`right, nodes`parent, nodes`lo, nodes`hi, p`balance,
        Just(p.right)`balance, nodes`h
      ensures Lifted(p, old(p.right), old(p.parent))
      ensures old(p.right).h == old(p.right.h) + (if old(p.right.balance) == 0 then 1 else 0)
    {
      ghost var q := p.right;
      assert LinkedAt(p) && BalancedAt(q);
      assert p.left != null ==> BalancedAt(p.left);
      ghost var hp := 1 + Max(H(p.left), H(q.left));
      if p.right.balance == 0 {
        RaiseLeft(p, 1, -1, hp);
      } else {
        RaiseLeft(p, 0, 0, hp);
      }
    }

    twostate lemma OutsideTurnRight(new p: AvlNode, new q: AvlNode, new n: AvlNode)
      requires nodes == old(nodes) && p in old(nodes) && q in old(nodes) && n in old(nodes)
      requires q == old(p.left) && n != p && n != q && RotatedRightAt(p, q, n)
      requires old(LinkedAt(p)) && old(LinkedAt(q)) && old(LinkedAt(n)) && old(BalancedAt(n))
      requires SameAt(n)
      requires old(n.right) == p || SameAt(old(n.right))
      requires old(n.left) == p || SameAt(old(n.left))
      ensures if n == old(p.parent) then SeesChange(p, q, n) else BalancedAt(n)
    {
    }

    twostate predicate TurnedRightTree(new p: AvlNode, new q: AvlNode)
      reads this, nodes, p, q
    {
      && nodes == old(nodes) && order == old(order) && Linked()
      && p in old(nodes) && q in nodes && old(Linked()) && old(p.left) == q
      && root == (if old(p.parent) == null then q else old(root))
      && (forall n {:trigger RotatedRightAt(p, q, n)} | n in nodes :: RotatedRightAt(p, q, n))
      && (forall m {:trigger SameAt(m)} | m in nodes && m != p && m != q :: SameAt(m))
    }

    twostate lemma OthersAfterTurnRight(new p: AvlNode, new q: AvlNode, new n: AvlNode, ex: set<AvlNode>)
      requires TurnedRightTree(p, q) && old(Balanced(ex)) && p in ex && q in ex
      requires n in nodes && n !in ex
      ensures if n == old(p.parent) then SeesChange(p, q, n) else BalancedAt(n)
    {
      assert old(LinkedAt(p)) && old(LinkedAt(q));
      assert old(LinkedAt(n)) && old(BalancedAt(n));
      assert RotatedRightAt(p, q, n);
      assert SameAt(n);
      assert old(n.right) != q && old(n.left) != q;
      assert old(n.right) == p || SameAt(old(n.right));
      assert old(n.left) == p || SameAt(old(n.left));
      OutsideTurnRight(p, q, n);
    }

    twostate lemma LiftedByTurnRight(new p: AvlNode, new q: AvlNode)
      requires TurnedRightTree(p, q) && old(Balanced({p, q}))
      requires BalancedAt(p) && BalancedAt(q)
      ensures Lifted(p, q, old(p.parent))
    {
      assert old(LinkedAt(p)) && old(LinkedAt(q));
      assert RotatedRightAt(p, q, q);
      forall n | n in nodes && n !in Just(old(p.parent)) ensures BalancedAt(n) {
        if n != p && n != q {
          OthersAfterTurnRight(p, q, n, {p, q});
        }
      }
      var x := old(p.parent);
      if x != null {
        assert old(LinkedAt(x));
        OthersAfterTurnRight(p, q, x, {p, q});
        assert RotatedRightAt(p, q, x);
        assert SameAt(root);
      }
    }

    /** set_balance on both nodes, then rotate_right; the ghost heights follow. */
    method TurnRight(p: AvlNode, bp: int, bq: int, ghost hp: int, ghost hq: int)
      requires Linked() && p in nodes && p.left != null && p.left in nodes
      modifies `root, nodes`right, nodes`left, nodes`parent, nodes`lo, nodes`hi, p`balance,
        Just(p.left)`balance, nodes`h
      ensures TurnedRightTree(p, old(p.left))
      ensures p.balance == bp && p.h == hp
      ensures old(p.left).balance == bq && old(p.left).h == hq
    {
      ghost var q := p.left;
      assert LinkedAt(p);
      p.balance := bp;
      p.left.balance := bq;
      p.h := hp;
      q.h := hq;
      label L:
      RotateRight(p);
      forall n | n in nodes ensures RotatedRightAt(p, q, n) {
        assert RotatedRightAt@L(p, q, n);
      }
    }

    /** A right rotation at p whose new balances fit the subtrees that p and its child end up with. */
    method RaiseRight(p: AvlNode, bp: int, bq: int, ghost hp: int)
      requires Linked() && Balanced({p} + Just(p.left)) && p in nodes && p.left != null && p.left in nodes
      requires var q := p.left;
        (p.right == null || p.right in nodes) && (q.right == null || q.right in nodes)
        && (q.left == null || q.left in nodes)
      requires var q := p.left;
        && 0 <= hp == 1 + Max(H(p.right), H(q.right)) && bp == H(p.right) - H(q.right) && -1 <= bp <= 1
        && bq == hp - H(q.left) && 0 <= bq <= 1
      modifies `root, nodes`right, nodes`left, nodes`parent, nodes`lo, nodes`hi, p`balance,
        Just(p.left)`balance, nodes`h
      ensures Lifted(p, old(p.left), old(p.parent))
      ensures old(p.left).h == hp + 1
    {
      ghost var q := p.left;
      assert LinkedAt(p) && LinkedAt(q);
      TurnRight(p, bp, bq, hp, hp + 1);
      assert RotatedRightAt(p, q, p) && RotatedRightAt(p, q, q);
      assert SameAt(p.right) && SameAt(p.left) && SameAt(q.left);
      LiftedByTurnRight(p, q);
    }

    method SingleRight(p: AvlNode)
      requires Linked() && Balanced({p}) && p in nodes && p.left != null
      requires p.left in nodes && p.left.balance in {0, -1} && H(p.left) == H(p.right) + 2
      modifies `root, nodes`right, nodes`left, nodes`parent, nodes`lo, nodes`hi, p`balance,
        Just(p.left)`balance, nodes`h
      ensures Lifted(p, old(p.left), old(p.parent))
      ensures old(p.left).h == old(p.left.h) + (if old(p.left.balance) == 0 then 1 else 0)
    {
      ghost var q := p.left;
      assert LinkedAt(p) && BalancedAt(q);
      assert p.right != null ==> BalancedAt(p.right);
      ghost var hp := 1 + Max(H(p.right), H(q.right));
      if p.left.balance == 0 {
        RaiseRight(p, -1, 1, hp);
      } else {
        RaiseRight(p, 0, 0, hp);
      }
    }

    /** The inner half of a double rotation: the grandchild r rises above the child q. */
    method TurnInnerRight(p: AvlNode, q: AvlNode, r: AvlNode, bq: int)
      requires Linked() && Balanced({p}) && p in nodes && q in nodes && r in nodes
      requires p.right == q && q.left == r && q.balance == -1
      requires bq == if r.balance == -1 then 1 else 0
      modifies `root, nodes`left, nodes`right, nodes`parent, nodes`lo, nodes`hi, q`balance, r`balance, nodes`h
      ensures Linked() && Balanced({p, r})
      ensures p.right == r && p.left == old(p.left) && r.left == old(r.left) && r.right == q
      ensures p.h == old(p.h) && q.h == old(q.h) - 1
      ensures SameAt(p.left) && SameAt(r.left)
      ensures H(r.left) == old(H(r.left)) && H(p.left) == old(H(p.left))
      ensures p.parent == old(p.parent) && root == old(root)
      ensures p.parent != null ==> SameAt(p.parent) && SameAt(root)
      ensures p.parent != null ==> p.parent.left == old(p.parent.left) && p.parent.parent == old(p.parent.parent)
      ensures p.parent != null ==> p.parent.lo == old(p.parent.lo) && p.parent.hi == old(p.parent.hi)
    {
      assert LinkedAt(p) && LinkedAt(q) && LinkedAt(r) && BalancedAt(q) && BalancedAt(r);
      ghost var x := p.parent;
      assert x != null ==> LinkedAt(x);
      TurnRight(q, bq, 0, q.h - 1, q.h);
      assert RotatedRightAt(q, r, p) && RotatedRightAt(q, r, q) && RotatedRightAt(q, r, r);
      assert SameAt(p) && SameAt(p.left) && SameAt(r.left) && SameAt(q.left) && SameAt(q.right);
      assert BalancedAt(q);
      if x != null {
        assert RotatedRightAt(q, r, x);
        assert SameAt(x) && SameAt(root);
      }
      forall n | n in nodes && n !in {p, r} ensures BalancedAt(n) {
        if n != q {
          OthersAfterTurnRight(q, r, n, {p, q, r});
        }
      }
    }

    method DoubleLeft(p: AvlNode)
      requires Linked() && Balanced({p}) && p in nodes && p.right != null
      requires p.right in nodes && p.right.balance == -1 && H(p.right) == H(p.left) + 2
      modifies `root, nodes`left, nodes`right, nodes`parent, nodes`lo, nodes`hi, p`balance, p.right`balance,
        Just(p.right.left)`balance, nodes`h
      ensures old(p.right.left) != null && Lifted(p, old(p.right.left), old(p.parent))
      ensures old(p.right.left).h == old(p.right.h)
    {
      var right := p.right;
      assert LinkedAt(p) && LinkedAt(right) && BalancedAt(right);
      var r := right.left;
      assert right.right != null ==> BalancedAt(right.right);
      assert r != null && LinkedAt(r) && BalancedAt(r);
      ghost var hp := right.h - 1;
      var bp, bq := 0, 0;
      if r.balance == 1 {
        bp := -1;
      } else if r.balance == -1 {
        bq := 1;
      }
      TurnInnerRight(p, right, r, bq);
      RaiseLeft(p, bp, 0, hp);
    }

    /** The inner half of a double rotation: the grandchild r rises above the child q. */
    method TurnInnerLeft(p: AvlNode, q: AvlNode, r: AvlNode, bq: int)
      requires Linked() && Balanced({p}) && p in nodes && q in nodes && r in nodes
      requires p.left == q && q.right == r && q.balance == 1
      requires bq == if r.balance == 1 then -1 else 0
      modifies `root, nodes`right, nodes`left, nodes`parent, nodes`lo, nodes`hi, q`balance, r`balance, nodes`h
      ensures Linked() && Balanced({p, r})
      ensures p.left == r && p.right == old(p.right) && r.right == old(r.right) && r.left == q
      ensures p.h == old(p.h) && q.h == old(q.h) - 1
      ensures SameAt(p.right) && SameAt(r.right)
      ensures H(r.right) == old(H(r.right)) && H(p.right) == old(H(p.right))
      ensures p.parent == old(p.parent) && root == old(root)
      ensures p.parent != null ==> SameAt(p.parent) && SameAt(root)
      ensures p.parent != null ==> p.parent.left == old(p.parent.left) && p.parent.parent == old(p.parent.parent)
      ensures p.parent != null ==> p.parent.lo == old(p.parent.lo) && p.parent.hi == old(p.parent.hi)
    {
      assert LinkedAt(p) && LinkedAt(q) && LinkedAt(r) && BalancedAt(q) && BalancedAt(r);
      ghost var x := p.parent;
      assert x != null ==> LinkedAt(x);
      TurnLeft(q, bq, 0, q.h - 1, q.h);
      assert RotatedLeftAt(q, r, p) && RotatedLeftAt(q, r, q) && RotatedLeftAt(q, r, r);
      assert SameAt(p) && SameAt(p.right) && SameAt(r.right) && SameAt(q.right) && SameAt(q.left);
      assert BalancedAt(q);
      if x != null {
        assert RotatedLeftAt(q, r, x);
        assert SameAt(x) && SameAt(root);
      }
      forall n | n in nodes && n !in {p, r} ensures BalancedAt(n) {
        if n != q {
          OthersAfterTurnLeft(q, r, n, {p, q, r});
        }
      }
    }

    method DoubleRight(p: AvlNode)
      requires Linked() && Balanced({p}) && p in nodes && p.left != null
      requires p.left in nodes && p.left.balance == 1 && H(p.left) == H(p.right) + 2
      modifies `root, nodes`right, nodes`left, nodes`parent, nodes`lo, nodes`hi, p`balance, p.left`balance,
        Just(p.left.right)`balance, nodes`h
      ensures old(p.left.right) != null && Lifted(p, old(p.left.right), old(p.parent))
      ensures old(p.left.right).h == old(p.left.h)
    {
      var left := p.left;
      assert LinkedAt(p) && LinkedAt(left) && BalancedAt(left);
      var r := left.right;
      assert left.left != null ==> BalancedAt(left.left);
      assert r != null && LinkedAt(r) && BalancedAt(r);
      ghost var hp := left.h - 1;
      var bp, bq := 0, 0;
      if r.balance == -1 {
        bp := 1;
      } else if r.balance == 1 {
        bq := -1;
      }
      TurnInnerLeft(p, left, r, bq);
      RaiseRight(p, bp, 0, hp);
    }

    // ---- lookup ----

    /** g is where key belongs: smaller keys before it, larger ones from it on. */
    ghost predicate GapAt(g: int, key: int)
      reads `order
    {
      && 0 <= g <= |order|
      && (forall i | 0 <= i < g :: order[i].key < key)
      && (forall i | g <= i < |order| :: key < order[i].key)
    }

    /** path leads from the root downwards along parent links. */
    ghost predicate Descends(path: seq<AvlNode>)
      reads `nodes, nodes`parent
    {
      forall k {:trigger path[k]} | 0 <= k < |path| ::
        path[k] in nodes && path[k].parent == if k == 0 then null else path[k - 1]
    }

    /** path[u] is the deepest node of path that is not perfectly balanced, or the root if there is none. */
    ghost predicate DeepestUnbalanced(path: seq<AvlNode>, u: int)
      reads `nodes, nodes`balance
    {
      && 0 <= u < |path| && path[u] in nodes
      && (forall k {:trigger path[k]} | u < k < |path| :: path[k] in nodes && path[k].balance == 0)
      && (path[u].balance == 0 ==> u == 0)
    }

    /** The free child position of parent at which a node for gap g is to be attached. */
    ghost predicate FreeSlot(parent: AvlNode, isLeft: bool, g: int)
      reads parent`left, parent`right, parent`pos
    {
      if isLeft then parent.left == null && parent.pos == g else parent.right == null && parent.pos + 1 == g
    }

    /** The keys before lo are smaller and those from hi on are larger than key. */
    ghost predicate Narrowed(lo: int, hi: int, key: int)
      reads `order
    {
      && 0 <= lo <= hi <= |order|
      && (forall i | 0 <= i < lo :: order[i].key < key)
      && (forall i | hi <= i < |order| :: key < order[i].key)
    }

    lemma Narrow(lo: int, hi: int, key: int, node: AvlNode)
      requires Valid() && node in nodes && Narrowed(lo, hi, key) && lo <= node.pos < hi
      ensures node.key > key ==> Narrowed(lo, node.pos, key)
      ensures node.key < key ==> Narrowed(node.pos + 1, hi, key)
    {
      assert LinkedAt(node);
    }

    /** What descending one level from node does to the stretch, the parent link and the height. */
    lemma ChildrenOf(node: AvlNode)
      requires Valid() && node in nodes
      ensures node.lo <= node.pos < node.hi
      ensures if node.left == null then node.lo == node.pos
              else node.left in nodes && node.left.lo == node.lo && node.left.hi == node.pos && node.left.parent == node
      ensures if node.right == null then node.pos + 1 == node.hi
              else
                && node.right in nodes && node.right.lo == node.pos + 1 && node.right.hi == node.hi
                && node.right.parent == node
      ensures H(node.left) < node.h && H(node.right) < node.h && 0 <= node.h
    {
      assert LinkedAt(node) && BalancedAt(node);
    }

    lemma StartLookup(key: int)
      requires Valid()
      ensures Descends([]) && Narrowed(0, |order|, key)
      ensures if root == null then order == []
              else root in nodes && root.lo == 0 && root.hi == |order| && root.parent == null
    {
    }

    lemma EndLookup(g: int, key: int)
      requires Narrowed(g, g, key)
      ensures GapAt(g, key)
    {
    }

    lemma PathStep(path: seq<AvlNode>, u: int, node: AvlNode)
      requires Descends(path) && node in nodes && node.parent == if path == [] then null else path[|path| - 1]
      requires if path == [] then u == 0 else DeepestUnbalanced(path, u)
      ensures Descends(path + [node])
      ensures DeepestUnbalanced(path + [node], if node.balance != 0 then |path| else u)
    {
    }

    method DoLookup(key: int)
      returns (found: AvlNode?, parent: AvlNode?, unbalanced: AvlNode?, isLeft: bool, ghost path: seq<AvlNode>,
        ghost u: int, ghost g: int)
      requires Valid()
      ensures found != null ==>
        found in nodes && found.key == key && Descends(path + [found]) && |path + [found]| <= height + 1
      ensures found == null ==>
        && GapAt(g, key) && |path| <= height + 1
        && Descends(path)
        && parent == (if path == [] then null else path[|path| - 1])
        && (path == [] <==> root == null)
        && (path != [] ==> DeepestUnbalanced(path, u) && unbalanced == path[u] && FreeSlot(parent, isLeft, g))
    {
      var node := root;
      var res := 0;
      parent, unbalanced, isLeft := null, node, false;
      hide Descends, DeepestUnbalanced, Narrowed, Linked, Balanced, Sorted, Ends;
      found := null;
      path, u, g := [], 0, 0;
      ghost var lo, hi := 0, |order|;
      StartLookup(key);
      while node != null
        invariant Narrowed(lo, hi, key)
        invariant if node == null then lo == hi
                  else node in nodes && node.lo == lo && node.hi == hi && node.parent == parent
        invariant |path| + H(node) <= height
        invariant Descends(path)
        invariant parent == if path == [] then null else path[|path| - 1]
        invariant path == [] ==> node == root && unbalanced == root && u == 0
        invariant path != [] ==> root != null && 0 <= u < |path| && DeepestUnbalanced(path, u) && unbalanced == path[u]
        invariant path != [] && node == null ==> FreeSlot(parent, isLeft, lo)
        decreases hi - lo
      {
        ChildrenOf(node);
        PathStep(path, u, node);
        if node.balance != 0 {
          unbalanced := node;
          u := |path|;
        }
        res := node.key - key;
        if res == 0 {
          found := node;
          return;
        }
        parent := node;
        path := path + [node];
        isLeft := res > 0;
        Narrow(lo, hi, key, node);
        if isLeft {
          hi := node.pos;
          node := node.left;
        } else {
          lo := node.pos + 1;
          node := node.right;
        }
      }
      g := lo;
      EndLookup(g, key);
    }

    method Lookup(key: int) returns (found: AvlNode?)
      requires Valid()
      ensures found != null ==> found in nodes && found.key == key
      ensures found == null <==> forall n | n in nodes :: n.key != key
    {
      var parent, unbalanced, isLeft;
      ghost var path, u, g;
      found, parent, unbalanced, isLeft, path, u, g := DoLookup(key);
      if found == null {
        forall n | n in nodes ensures n.key != key {
          assert LinkedAt(n);
        }
      }
    }

    // ---- in-order neighbours ----

    method GetFirst(n: AvlNode) returns (r: AvlNode)
      requires Linked() && n in nodes
      ensures r in nodes && r.left == null && r.pos == r.lo == n.lo && r.hi <= n.hi
    {
      r := n;
      assert LinkedAt(n);
      while r.left != null
        invariant r in nodes && r.lo == n.lo && r.hi <= n.hi && LinkedAt(r)
        decreases r.hi - r.lo
      {
        r := r.left;
        assert LinkedAt(r);
      }
    }

    method GetLast(n: AvlNode) returns (r: AvlNode)
      requires Linked() && n in nodes
      ensures r in nodes && r.right == null && r.pos + 1 == n.hi
    {
      r := n;
      assert LinkedAt(n);
      while r.right != null
        invariant r in nodes && r.hi == n.hi && LinkedAt(r)
        decreases r.hi - r.lo
      {
        r := r.right;
        assert LinkedAt(r);
      }
    }

    /** avltree_next: the in-order successor, found through child and parent links alone. */
    method Next(node: AvlNode) returns (r: AvlNode?)
      requires Linked() && node in nodes && 0 <= node.pos < |order|
      ensures r == if node.pos + 1 < |order| then order[node.pos + 1] else null
    {
      assert LinkedAt(node);
      if node.right != null {
        r := GetFirst(node.right);
        assert LinkedAt(node.right) && LinkedAt(r);
        return;
      }
      var n: AvlNode := node;
      r := n.parent;
      while r != null && r.right == n
        invariant n in nodes && n.hi == node.pos + 1 && r == n.parent && (r != null ==> r in nodes)
        decreases |order| - (n.hi - n.lo)
      {
        assert LinkedAt(n) && LinkedAt(r);
        n := r;
        r := n.parent;
        assert LinkedAt(n);
      }
      assert LinkedAt(n);
      assert r != null ==> LinkedAt(r);
    }

    /** avltree_prev: the in-order predecessor, found through child and parent links alone. */
    method Prev(node: AvlNode) returns (r: AvlNode?)
      requires Linked() && node in nodes && 0 <= node.pos < |order|
      ensures r == if 0 < node.pos then order[node.pos - 1] else null
    {
      assert LinkedAt(node);
      if node.left != null {
        r := GetLast(node.left);
        assert LinkedAt(node.left) && LinkedAt(r);
        return;
      }
      var n: AvlNode := node;
      r := n.parent;
      while r != null && r.left == n
        invariant n in nodes && n.lo == node.pos && r == n.parent && (r != null ==> r in nodes)
        decreases |order| - (n.hi - n.lo)
      {
        assert LinkedAt(n) && LinkedAt(r);
        n := r;
        r := n.parent;
        assert LinkedAt(n);
      }
      assert LinkedAt(n);
      assert r != null ==> LinkedAt(r);
    }

    // ---- insertion ----

    /** Place x of the sequence after a node was attached at gap g. */
    static ghost function Up(x: int, g: int, strict: bool): int
    {
      if x > g || (x == g && !strict) then x + 1 else x
    }

    /** Node n after the new node was attached below parent at gap g. */
    twostate predicate AttachedAt(new node: AvlNode, new parent: AvlNode, new isLeft: bool, new g: int, new n: AvlNode)
      reads `nodes, n
    {
      && n in old(nodes)
      && n.pos == Up(old(n.pos), g, false) && n.lo == Up(old(n.lo), g, isLeft) && n.hi == Up(old(n.hi), g, isLeft)
      && n.left == (if n == parent && isLeft then node else old(n.left))
      && n.right == (if n == parent && !isLeft then node else old(n.right))
      && n.parent == old(n.parent) && n.h == old(n.h) && n.balance == old(n.balance)
    }

    twostate predicate WasAttached(new node: AvlNode, new parent: AvlNode, new isLeft: bool, new g: int,
      new n: AvlNode?)
      reads `nodes, Just(n)
    {
      n == null || (n in old(nodes) && AttachedAt(node, parent, isLeft, g, n) && old(LinkedAt(n)))
    }

    twostate predicate Attached(new node: AvlNode, new parent: AvlNode, new isLeft: bool, new g: int)
      reads this, node, parent
    {
      && node !in old(nodes) && nodes == old(nodes) + {node} && parent in old(nodes) && old(FreeSlot(parent, isLeft, g))
      && 0 <= g <= |old(order)| && order == old(order)[..g] + [node] + old(order)[g..]
      && node.pos == g && node.lo == g && node.hi == g + 1 && node.h == 0 && node.balance == 0
      && node.left == null && node.right == null && node.parent == parent
      && root == old(root)
    }

    twostate lemma LeftAfterAttach(new node: AvlNode, new parent: AvlNode, new isLeft: bool, new g: int, new n: AvlNode)
      requires Attached(node, parent, isLeft, g) && n in old(nodes)
      requires WasAttached(node, parent, isLeft, g, n) && WasAttached(node, parent, isLeft, g, parent)
      requires WasAttached(node, parent, isLeft, g, old(n.left))
      ensures LeftAt(n)
    {
    }

    twostate lemma RightAfterAttach(new node: AvlNode, new parent: AvlNode, new isLeft: bool, new g: int,
      new n: AvlNode)
      requires Attached(node, parent, isLeft, g) && n in old(nodes)
      requires WasAttached(node, parent, isLeft, g, n) && WasAttached(node, parent, isLeft, g, parent)
      requires WasAttached(node, parent, isLeft, g, old(n.right))
      ensures RightAt(n)
    {
    }

    twostate lemma UpAfterAttach(new node: AvlNode, new parent: AvlNode, new isLeft: bool, new g: int, new n: AvlNode)
      requires Attached(node, parent, isLeft, g) && n in old(nodes)
      requires WasAttached(node, parent, isLeft, g, n) && WasAttached(node, parent, isLeft, g, parent)
      requires WasAttached(node, parent, isLeft, g, old(n.parent))
      ensures UpAt(n)
    {
    }

    twostate lemma SpotAfterAttach(new node: AvlNode, new parent: AvlNode, new isLeft: bool, new g: int, new n: AvlNode)
      requires Attached(node, parent, isLeft, g) && n in old(nodes)
      requires old(LinkedAt(n)) && AttachedAt(node, parent, isLeft, g, n)
      ensures 0 <= n.pos < |order| && order[n.pos] == n
    {
    }

    twostate lemma NodeAfterAttach(new node: AvlNode, new parent: AvlNode, new isLeft: bool, new g: int)
      requires Attached(node, parent, isLeft, g) && WasAttached(node, parent, isLeft, g, parent)
      ensures LinkedAt(node)
    {
    }

    twostate lemma OrderAfterAttach(new node: AvlNode, new parent: AvlNode, new isLeft: bool, new g: int, new i: int)
      requires Attached(node, parent, isLeft, g) && 0 <= i < |order|
      requires forall i | 0 <= i < |old(order)| :: old(order)[i] in old(nodes) && old(order[i].pos) == i
      requires forall n {:trigger AttachedAt(node, parent, isLeft, g, n)} | n in old(nodes) ::
        AttachedAt(node, parent, isLeft, g, n)
      ensures order[i] in nodes && order[i].pos == i
    {
      if i != g {
        var j := if i < g then i else i - 1;
        assert order[i] == old(order)[j];
        assert AttachedAt(node, parent, isLeft, g, old(order)[j]);
      }
    }

    twostate lemma AttachKeepsLinked(new node: AvlNode, new parent: AvlNode, new isLeft: bool, new g: int)
      requires Attached(node, parent, isLeft, g) && old(Linked())
      requires forall n {:trigger AttachedAt(node, parent, isLeft, g, n)} | n in old(nodes) ::
        AttachedAt(node, parent, isLeft, g, n)
      ensures Linked()
    {
      assert old(LinkedAt(parent));
      assert AttachedAt(node, parent, isLeft, g, parent);
      NodeAfterAttach(node, parent, isLeft, g);
      forall n | n in nodes ensures LinkedAt(n) {
        if n != node {
          assert old(LinkedAt(n));
          assert AttachedAt(node, parent, isLeft, g, n);
          LeftAfterAttach(node, parent, isLeft, g, n);
          RightAfterAttach(node, parent, isLeft, g, n);
          UpAfterAttach(node, parent, isLeft, g, n);
          SpotAfterAttach(node, parent, isLeft, g, n);
        }
      }
      forall i {:trigger order[i]} | 0 <= i < |order| ensures order[i] in nodes && order[i].pos == i {
        OrderAfterAttach(node, parent, isLeft, g, i);
      }
      assert old(LinkedAt(root));
      assert AttachedAt(node, parent, isLeft, g, root);
    }

    /** Shifts every place behind gap g and puts the new node into it. */
    ghost method MakeRoom(node: AvlNode, g: int, strict: bool)
      requires node !in nodes && 0 <= g <= |order|
      modifies `nodes, `order, nodes`pos, nodes`lo, nodes`hi, node`pos, node`lo, node`hi, node`h
      ensures nodes == old(nodes) + {node} && order == old(order)[..g] + [node] + old(order)[g..]
      ensures node.pos == g && node.lo == g && node.hi == g + 1 && node.h == 0
      ensures forall n {:trigger n.pos} {:trigger n.lo} {:trigger n.hi} | n in old(nodes) ::
        n.pos == Up(old(n.pos), g, false) && n.lo == Up(old(n.lo), g, strict) && n.hi == Up(old(n.hi), g, strict)
    {
      forall n | n in nodes { n.pos := Up(n.pos, g, false); }
      forall n | n in nodes { n.lo := Up(n.lo, g, strict); }
      forall n | n in nodes { n.hi := Up(n.hi, g, strict); }
      nodes, order := nodes + {node}, order[..g] + [node] + order[g..];
      node.pos, node.lo, node.hi, node.h := g, g, g + 1, 0;
    }

    /** INIT_NODE, the first/last update, set_parent and set_child of an insertion below parent. */
    method Attach(node: AvlNode, parent: AvlNode, isLeft: bool, ghost g: int)
      requires Linked() && node !in nodes && parent in nodes && FreeSlot(parent, isLeft, g) && 0 <= g <= |order|
      modifies `first, `last, `nodes, `order, nodes`pos, nodes`lo, nodes`hi, parent`left, parent`right, node
      ensures first == if isLeft && parent == old(first) then node else old(first)
      ensures last == if !isLeft && parent == old(last) then node else old(last)
      ensures Attached(node, parent, isLeft, g)
      ensures forall n {:trigger AttachedAt(node, parent, isLeft, g, n)} | n in old(nodes) ::
        AttachedAt(node, parent, isLeft, g, n)
      ensures Linked()
    {
      node.left, node.right, node.parent, node.balance := null, null, null, 0;
      if isLeft {
        if parent == first {
          first := node;
        }
      } else {
        if parent == last {
          last := node;
        }
      }
      node.parent := parent;
      if isLeft {
        parent.left := node;
      } else {
        parent.right := node;
      }
      MakeRoom(node, g, isLeft);
      AttachKeepsLinked(node, parent, isLeft, g);
    }

    /** The subtree under n is one higher than its parent's balance and height account for. */
    ghost predicate GrownBelow(p: AvlNode, n: AvlNode)
      reads `nodes, nodes`left, nodes`right, nodes`balance, nodes`h
    {
      if p in nodes && p.left == n then HeightsAt(p, -1, 0) else HeightsAt(p, 0, -1)
    }

    twostate lemma HeightsAfterAttach(new node: AvlNode, new parent: AvlNode, new isLeft: bool, new g: int,
      new n: AvlNode)
      requires Attached(node, parent, isLeft, g) && n in old(nodes)
      requires WasAttached(node, parent, isLeft, g, n) && old(BalancedAt(n))
      requires WasAttached(node, parent, isLeft, g, old(n.left)) && WasAttached(node, parent, isLeft, g, old(n.right))
      ensures if n == parent then GrownBelow(n, node) else BalancedAt(n)
    {
    }

    twostate lemma AttachUnbalancesParent(new node: AvlNode, new parent: AvlNode, new isLeft: bool, new g: int)
      requires Attached(node, parent, isLeft, g) && old(Linked() && Balanced({}))
      requires forall n {:trigger AttachedAt(node, parent, isLeft, g, n)} | n in old(nodes) ::
        AttachedAt(node, parent, isLeft, g, n)
      ensures Balanced({parent}) && GrownBelow(parent, node)
    {
      forall n | n in old(nodes) ensures if n == parent then GrownBelow(n, node) else BalancedAt(n) {
        assert old(LinkedAt(n)) && old(BalancedAt(n));
        assert old(n.left != null ==> LinkedAt(n.left)) && old(n.right != null ==> LinkedAt(n.right));
        assert AttachedAt(node, parent, isLeft, g, n);
        HeightsAfterAttach(node, parent, isLeft, g, n);
      }
    }

    lemma PathShrinks(path: seq<AvlNode>, j: int, k: int)
      requires Linked() && Descends(path) && 0 <= j < k < |path|
      ensures path[k].hi - path[k].lo < path[j].hi - path[j].lo
      decreases k
    {
      var n, p := path[k], path[k - 1];
      assert LinkedAt(n) && LinkedAt(p);
      if j < k - 1 {
        PathShrinks(path, j, k - 1);
      }
    }

    /** p's height and balance changed and nothing else did; how the other node m sees that. */
    twostate lemma NoticesGrowth(new p: AvlNode, new m: AvlNode)
      requires nodes == old(nodes) && p in old(nodes) && m in old(nodes) && m != p
      requires m.left == old(m.left) && m.right == old(m.right) && SameAt(m)
      requires old(LinkedAt(m)) && old(BalancedAt(m))
      requires m.left == p || SameAt(m.left)
      requires m.right == p || SameAt(m.right)
      requires p.h == old(p.h) + 1
      ensures if m.left == p || m.right == p then m == old(p.parent) && GrownBelow(m, p) else BalancedAt(m)
    {
    }

    /** The child on the heavier side of c is in s. */
    ghost predicate HeavierIn(c: AvlNode, s: set<AvlNode>)
      reads c`left, c`right, c`balance
    {
      && (c.balance < 0 ==> c.left != null && c.left in s)
      && (c.balance > 0 ==> c.right != null && c.right in s)
    }

    /** One pass of the loop over a node that was perfectly balanced: its subtree has now grown, too. */
    method Grow(n: AvlNode, p: AvlNode)
      requires Linked() && Balanced({p}) && n in nodes && n.parent == p && p in nodes
      requires p.balance == 0 && GrownBelow(p, n)
      modifies p`balance, p`h
      ensures p.balance != 0 && Balanced(Just(p.parent)) && HeavierIn(p, {n})
      ensures p.parent != null ==> GrownBelow(p.parent, p)
    {
      assert LinkedAt(n) && LinkedAt(p);
      if p.left == n {
        p.balance := p.balance - 1;
      } else {
        p.balance := p.balance + 1;
      }
      p.h := p.h + 1;
      forall m | m in nodes && m != p
        ensures if m.left == p || m.right == p then m == p.parent && GrownBelow(m, p) else BalancedAt(m)
      {
        assert old(LinkedAt(m)) && old(BalancedAt(m));
        NoticesGrowth(p, m);
      }
      assert BalancedAt(p);
    }

    /** p has a child c whose subtree has grown; p's balance says so, its height does not yet. */
    ghost predicate Tipped(p: AvlNode, c: AvlNode, was: int)
      reads `nodes, nodes`left, nodes`right, nodes`balance, nodes`h
    {
      && p in nodes && (p.left == null || p.left in nodes) && (p.right == null || p.right in nodes)
      && -1 <= was <= 1 && p.h >= 0
      && p.balance == H(p.right) - H(p.left)
      && if p.left == c then
           p.balance == was - 1 && p.h == 1 + Max(H(p.left) - 1, H(p.right))
         else
           p.balance == was + 1 && p.h == 1 + Max(H(p.left), H(p.right) - 1)
    }

    /** A node that was attached with no children, or one that retracing has left leaning. */
    ghost predicate LeafOrLeaning(c: AvlNode)
      reads c`left, c`right, c`h, c`balance
    {
      (c.left == null && c.right == null && c.h == 0) || c.balance != 0
    }

    /** The nodes of path strictly between positions u and k + 1 are perfectly balanced. */
    ghost predicate Flat(path: seq<AvlNode>, u: int, k: int)
      reads `nodes, nodes`balance
    {
      0 <= u <= k < |path| && forall j {:trigger path[j]} | u < j <= k :: path[j] in nodes && path[j].balance == 0
    }

    /** The nodes of path from position u down. */
    static ghost function Below(path: seq<AvlNode>, u: int): set<AvlNode>
      requires 0 <= u <= |path|
    {
      set k {:trigger path[k]} | u <= k < |path| :: path[k]
    }

    /** Retracing stands at p = path[k], having come up from n. */
    ghost predicate Climbing(n: AvlNode, p: AvlNode, path: seq<AvlNode>, u: int, k: int)
      reads this, nodes
    {
      && Linked() && Descends(path) && Flat(path, u, k) && p == path[k]
      && n in nodes && n.parent == p && p in nodes
      && LeafOrLeaning(n) && Balanced({p}) && GrownBelow(p, n)
    }

    method GrowOnPath(n: AvlNode, p: AvlNode, ghost path: seq<AvlNode>, ghost u: int, ghost k: int)
      requires Climbing(n, p, path, u, k) && u < k
      modifies p`balance, p`h
      ensures p.parent != null && p.parent in nodes && p.parent == path[k - 1] && p != root
      ensures Climbing(p, p.parent, path, u, k - 1) && HeavierIn(p, {n})
    {
      forall j | u <= j < k ensures path[j] != p {
        PathShrinks(path, j, k);
      }
      Grow(n, p);
    }

    /** The last pass of the loop, at the unbalanced node itself. */
    method Tip(c: AvlNode, p: AvlNode, ghost path: seq<AvlNode>, ghost u: int, ghost k: int)
      requires Climbing(c, p, path, u, k)
      modifies p`balance
      ensures Balanced({p}) && Tipped(p, c, old(p.balance))
      ensures c in nodes && c.parent == p && c != p && LeafOrLeaning(c) && p in nodes
    {
      assert LinkedAt(c) && LinkedAt(p);
      if p.left == c {
        p.balance := p.balance - 1;
      } else {
        p.balance := p.balance + 1;
      }
      forall m | m in nodes && m != p ensures BalancedAt(m) {
        assert old(BalancedAt(m));
      }
    }

    /** The retracing loop of an insertion, from the attached node up to `unbalanced`; c is the child it came from. */
    method Retrace(node: AvlNode, parent: AvlNode, unbalanced: AvlNode, ghost path: seq<AvlNode>, ghost u: int,
      ghost s: set<AvlNode>) returns (ghost c: AvlNode)
      requires 0 <= u < |path| && unbalanced == path[u] && parent == path[|path| - 1] && parent in nodes
        && Climbing(node, parent, path, u, |path| - 1)
      requires node.balance == 0 && s == Below(path, u)
      modifies s`balance, s`h
      ensures Balanced({unbalanced}) && unbalanced in nodes
      ensures c in nodes && c.parent == unbalanced && LeafOrLeaning(c)
      ensures c in s + {node} && HeavierIn(c, s + {node})
      ensures Tipped(unbalanced, c, old(unbalanced.balance)) && H(root) == old(H(root))
    {
      hide Linked, Balanced, Climbing, Descends, Flat, GrownBelow, LeafOrLeaning, Tipped;
      var n: AvlNode, p: AvlNode := node, parent;
      ghost var k := |path| - 1;
      while p != unbalanced
        invariant u <= k < |path| && p == path[k] && p in nodes
        invariant Climbing(n, p, path, u, k)
        invariant n in s + {node} && HeavierIn(n, s + {node})
        invariant unbalanced.balance == old(unbalanced.balance) && H(root) == old(H(root))
        decreases k
      {
        GrowOnPath(n, p, path, u, k);
        n := p;
        p := p.parent;
        k := k - 1;
      }
      Tip(n, p, path, u, k);
      c := n;
    }

    /** Case 2 of the switch: the right subtree of ub has become two higher than the left. */
    method FixRightHeavy(ub: AvlNode, ghost c: AvlNode, ghost s: set<AvlNode>)
      requires Linked() && Balanced({ub}) && ub in nodes && c in nodes && c.parent == ub
      requires LeafOrLeaning(c) && Tipped(ub, c, 1) && ub.balance == 2
      requires ub in s && c in s && HeavierIn(c, s)
      modifies `root, nodes`left, nodes`right, nodes`parent, nodes`lo, nodes`hi, s`balance, nodes`h
      ensures Linked() && Balanced({}) && H(root) == old(H(root))
    {
      assert LinkedAt(c) && LinkedAt(ub) && BalancedAt(c);
      assert ub.left != null ==> BalancedAt(ub.left);
      var right := ub.right;
      assert ub.parent == null ==> ub == root;
      if right.balance == 1 {
        SingleLeft(ub);
      } else {
        DoubleLeft(ub);
      }
    }

    /** Case -2 of the switch: the left subtree of ub has become two higher than the right. */
    method FixLeftHeavy(ub: AvlNode, ghost c: AvlNode, ghost s: set<AvlNode>)
      requires Linked() && Balanced({ub}) && ub in nodes && c in nodes && c.parent == ub
      requires LeafOrLeaning(c) && Tipped(ub, c, -1) && ub.balance == -2
      requires ub in s && c in s && HeavierIn(c, s)
      modifies `root, nodes`right, nodes`left, nodes`parent, nodes`lo, nodes`hi, s`balance, nodes`h
      ensures Linked() && Balanced({}) && H(root) == old(H(root))
    {
      assert LinkedAt(c) && LinkedAt(ub) && BalancedAt(c);
      assert ub.right != null ==> BalancedAt(ub.right);
      var left := ub.left;
      assert ub.parent == null ==> ub == root;
      if left.balance == -1 {
        SingleRight(ub);
      } else {
        DoubleRight(ub);
      }
    }

    /** The switch on the unbalanced node's balance after retracing. */
    method Restore(ub: AvlNode, ghost c: AvlNode, ghost was: int, ghost s: set<AvlNode>)
      requires Linked() && Balanced({ub}) && ub in nodes && c in nodes && c.parent == ub
      requires LeafOrLeaning(c) && Tipped(ub, c, was) && (was == 0 ==> ub == root) && height == H(root)
      requires ub in s && c in s && HeavierIn(c, s)
      modifies `root, `height, nodes`left, nodes`right, nodes`parent, nodes`lo, nodes`hi, s`balance, nodes`h
      ensures Linked() && Balanced({}) && height == H(root)
      ensures height == old(height) + if was == 0 then 1 else 0
    {
      assert LinkedAt(c);
      if ub.balance == 1 || ub.balance == -1 {
        height := height + 1;
        ub.h := ub.h + 1;
        forall m | m in nodes && m != ub ensures BalancedAt(m) {
          assert LinkedAt(m);
          assert old(BalancedAt(m));
        }
      } else if ub.balance == 2 {
        FixRightHeavy(ub, c, s);
      } else if ub.balance == -2 {
        FixLeftHeavy(ub, c, s);
      } else {
        assert BalancedAt(ub);
      }
    }

    lemma SortedAfterAttach(was: seq<AvlNode>, node: AvlNode, g: int)
      requires 0 <= g <= |was| && order == was[..g] + [node] + was[g..]
      requires forall i, j | 0 <= i < j < |was| :: was[i].key < was[j].key
      requires (forall i | 0 <= i < g :: was[i].key < node.key) && (forall i | g <= i < |was| :: node.key < was[i].key)
      ensures Sorted()
    {
    }

    /** avltree_insert when the tree is empty. */
    method InsertFirst(node: AvlNode)
      requires Valid() && root == null && node !in nodes
      modifies this, node
      ensures Valid() && nodes == old(nodes) + {node} && height == old(height) + 1
    {
      node.left, node.right, node.parent, node.balance := null, null, null, 0;
      root := node;
      first, last := node, node;
      height := height + 1;
      nodes, order := nodes + {node}, [node];
      node.lo, node.pos, node.hi, node.h := 0, 0, 1, 0;
      assert LinkedAt(node) && BalancedAt(node);
    }

    twostate lemma EndsAfterAttach(new node: AvlNode, new parent: AvlNode, new isLeft: bool, new g: int)
      requires Attached(node, parent, isLeft, g) && old(Linked() && Ends())
      requires first == if isLeft && parent == old(first) then node else old(first)
      requires last == if !isLeft && parent == old(last) then node else old(last)
      ensures Ends()
    {
      assert old(LinkedAt(parent));
      assert old(order[0].pos) == 0 && old(order[|order| - 1].pos) == |old(order)| - 1;
    }

    /** Finding the place of a fresh key and attaching a node there, up to the retracing loop. */
    method AttachOnPath(node: AvlNode, parent: AvlNode, isLeft: bool, ghost path: seq<AvlNode>, ghost u: int,
      ghost g: int)
      requires Valid() && node !in nodes && GapAt(g, node.key)
      requires Descends(path) && DeepestUnbalanced(path, u) && parent == path[|path| - 1] && FreeSlot(parent, isLeft, g)
      modifies `first, `last, `nodes, `order, nodes`pos, nodes`lo, nodes`hi, parent`left, parent`right, node
      ensures nodes == old(nodes) + {node} && Linked() && Sorted() && Ends() && height == H(root)
      ensures Climbing(node, parent, path, u, |path| - 1)
      ensures node.balance == 0
        && forall k {:trigger path[k]} | 0 <= k < |path| :: path[k].balance == old(path[k].balance)
      ensures path[u].balance == 0 ==> path[u] == root
    {
      assert LinkedAt(path[0]);
      Attach(node, parent, isLeft, g);
      AttachUnbalancesParent(node, parent, isLeft, g);
      SortedAfterAttach(old(order), node, g);
      EndsAfterAttach(node, parent, isLeft, g);
      forall k {:trigger path[k]} | 0 <= k < |path|
        ensures path[k] in nodes && path[k].parent == old(path[k].parent) && path[k].balance == old(path[k].balance)
      {
        assert AttachedAt(node, parent, isLeft, g, path[k]);
      }
      assert root != null ==> AttachedAt(node, parent, isLeft, g, root);
    }

    /** The retracing loop and the switch behind it. */
    method Rebalance(node: AvlNode, parent: AvlNode, unbalanced: AvlNode, ghost path: seq<AvlNode>, ghost u: int,
      ghost s: set<AvlNode>)
      requires 0 <= u < |path| && unbalanced == path[u] && parent == path[|path| - 1] && parent in nodes
        && Climbing(node, parent, path, u, |path| - 1)
      requires node.balance == 0 && s == Below(path, u) && s <= nodes && unbalanced in s
      requires (unbalanced.balance == 0 ==> unbalanced == root) && height == H(root)
      modifies `root, `height, nodes`left, nodes`right, nodes`parent, nodes`lo, nodes`hi, (s + {node})`balance, nodes`h
      ensures Linked() && Balanced({}) && height == H(root)
      ensures height == old(height) + if old(unbalanced.balance) == 0 then 1 else 0
    {
      hide Tipped;
      ghost var was := unbalanced.balance;
      assert Linked() && node in nodes;
      ghost var c := Retrace(node, parent, unbalanced, path, u, s);
      Restore(unbalanced, c, was, s + {node});
    }

    /** avltree_insert below an existing parent. */
    method InsertBelow(node: AvlNode, parent: AvlNode, unbalanced: AvlNode, isLeft: bool, ghost path: seq<AvlNode>,
      ghost u: int, ghost g: int)
      requires Valid() && node !in nodes && GapAt(g, node.key)
      requires Descends(path) && DeepestUnbalanced(path, u) && 0 <= u < |path| && unbalanced == path[u]
        && unbalanced in nodes && parent in nodes
      requires parent == path[|path| - 1] && FreeSlot(parent, isLeft, g)
      modifies this, nodes, node
      ensures Valid() && nodes == old(nodes) + {node}
      ensures height == old(height) + if old(unbalanced.balance) == 0 then 1 else 0
      ensures forall n | n in old(nodes) && n !in Below(path, u) :: n.balance == old(n.balance)
    {
      hide Climbing, FreeSlot;
      ghost var touched := Below(path, u);
      assert touched <= nodes && unbalanced in touched;
      assert unbalanced.balance == 0 ==> u == 0;
      assert height == H(root);
      AttachOnPath(node, parent, isLeft, path, u, g);
      Rebalance(node, parent, unbalanced, path, u, touched);
      assert Valid();
    }

    /** avltree_insert: an equal key already present is returned, otherwise node joins the tree.
        path is the search path; the tree gets higher exactly when every node on it was perfectly balanced,
        and the only balances that change are those from its deepest unbalanced node down. */
    method Insert(node: AvlNode) returns (existing: AvlNode?, ghost path: seq<AvlNode>)
      requires Valid() && node !in nodes
      modifies this, nodes, node
      ensures Valid()
      ensures existing != null ==>
        && existing in nodes && existing.key == node.key
        && nodes == old(nodes) && order == old(order) && height == old(height)
      ensures existing == null ==>
        && (forall n | n in old(nodes) :: n.key != node.key)
        && nodes == old(nodes) + {node}
        && |path| <= old(height) + 1
        && (forall k {:trigger path[k]} | 0 <= k < |path| ::
              path[k] in old(nodes) && old(path[k].parent) == if k == 0 then null else path[k - 1])
        && height == old(height) + (if forall k | 0 <= k < |path| :: old(path[k].balance) == 0 then 1 else 0)
        && (forall n | n in old(nodes) && n.balance != old(n.balance) ::
              exists k :: 0 <= k < |path| && path[k] == n && forall j | k < j < |path| :: old(path[j].balance) == 0)
    {
      var parent, unbalanced, isLeft;
      ghost var u, g;
      existing, parent, unbalanced, isLeft, path, u, g := DoLookup(node.key);
      if existing != null {
        return;
      }
      forall n | n in nodes ensures n.key != node.key {
        assert LinkedAt(n);
      }
      if parent == null {
        InsertFirst(node);
      } else {
        InsertBelow(node, parent, unbalanced, isLeft, path, u, g);
      }
    }

    // ---- removal ----

    /** Place x of the sequence after the element at place i has left it. */
    static ghost function Down(x: int, i: int): int
    {
      if x > i then x - 1 else x
    }

    /** The tree p hangs in accounts for one more level on p's given side than there is. */
    ghost predicate ShrunkBelow(p: AvlNode, isLeft: bool)
      reads `nodes, nodes`left, nodes`right, nodes`balance, nodes`h
    {
      if isLeft then HeightsAt(p, 1, 0) else HeightsAt(p, 0, 1)
    }

    /** Node n after `node`, which had at most the child `next`, was cut out. */
    twostate predicate CutAt(new node: AvlNode, new next: AvlNode?, new n: AvlNode)
      reads n
    {
      && node in old(nodes) && n in old(nodes) && n != node
      && var x := old(node.parent);
      && n.pos == Down(old(n.pos), old(node.pos)) && n.lo == Down(old(n.lo), old(node.pos))
        && n.hi == Down(old(n.hi), old(node.pos))
      && n.left == (if n == x && old(n.left) == node then next else old(n.left))
      && n.right == (if n == x && old(n.right) == node then next else old(n.right))
      && n.parent == (if n == next then x else old(n.parent))
      && n.h == old(n.h) && n.balance == old(n.balance)
    }

    twostate predicate WasCut(new node: AvlNode, new next: AvlNode?, new n: AvlNode?)
      reads Just(n)
    {
      n == null || n == node || (CutAt(node, next, n) && old(LinkedAt(n)))
    }

    twostate predicate Cut(new node: AvlNode, new next: AvlNode?)
      reads this
    {
      && node in old(nodes) && nodes == old(nodes) - {node} && old(LinkedAt(node))
      && (old(node.left) == null || old(node.right) == null)
      && next == (if old(node.left) == null then old(node.right) else old(node.left))
      && order == old(order)[..old(node.pos)] + old(order)[old(node.pos) + 1..]
      && root == (if old(node.parent) == null then next else old(root))
    }

    twostate lemma LeftAfterCut(new node: AvlNode, new next: AvlNode?, new n: AvlNode)
      requires Cut(node, next) && n in nodes && WasCut(node, next, n)
      requires n in old(nodes) && WasCut(node, next, old(n.left)) && WasCut(node, next, next)
      ensures LeftAt(n)
    {
    }

    twostate lemma RightAfterCut(new node: AvlNode, new next: AvlNode?, new n: AvlNode)
      requires Cut(node, next) && n in nodes && WasCut(node, next, n)
      requires n in old(nodes) && WasCut(node, next, old(n.right)) && WasCut(node, next, next)
      ensures RightAt(n)
    {
    }

    twostate lemma UpAfterCut(new node: AvlNode, new next: AvlNode?, new n: AvlNode)
      requires Cut(node, next) && n in nodes && WasCut(node, next, n)
      requires n in old(nodes) && WasCut(node, next, old(n.parent)) && WasCut(node, next, old(node.parent))
      ensures UpAt(n)
    {
    }

    twostate lemma SpotAfterCut(new node: AvlNode, new next: AvlNode?, new n: AvlNode)
      requires Cut(node, next) && n in nodes && WasCut(node, next, n)
      ensures 0 <= n.pos < |order| && order[n.pos] == n
    {
    }

    twostate lemma HeightsAfterCut(new node: AvlNode, new next: AvlNode?, new n: AvlNode)
      requires Cut(node, next) && n in nodes && WasCut(node, next, n) && old(BalancedAt(n)) && old(BalancedAt(node))
      requires n in old(nodes) && WasCut(node, next, old(n.left)) && WasCut(node, next, old(n.right))
        && WasCut(node, next, next)
      requires old(node.left) != null ==> old(BalancedAt(node.left))
      requires old(node.right) != null ==> old(BalancedAt(node.right))
      ensures if n == old(node.parent) then ShrunkBelow(n, old(n.left) == node) else BalancedAt(n)
    {
    }

    /** Where the retracing loop of a removal stands: p is to learn that its given side lost a level. */
    ghost predicate Retraceable(p: AvlNode?, isLeft: bool, was: int)
      reads `nodes, `root, nodes`left, nodes`right, nodes`balance, nodes`h
    {
      && Balanced(Just(p))
      && (root == null || root in nodes)
      && (p != null ==> p in nodes && ShrunkBelow(p, isLeft) && H(root) == was)
      && (p == null ==> H(root) == was - 1)
    }

    twostate lemma OrderAfterCut(new node: AvlNode, new next: AvlNode?, new i: int)
      requires Cut(node, next) && 0 <= i < |order| && old(Linked())
      requires forall n {:trigger CutAt(node, next, n)} | n in nodes :: CutAt(node, next, n)
      ensures order[i] in nodes && order[i].pos == i
    {
      var j := if i < old(node.pos) then i else i + 1;
      assert order[i] == old(order)[j] && old(order[j].pos) == j;
      assert CutAt(node, next, order[i]);
    }

    twostate lemma CutKeepsLinked(new node: AvlNode, new next: AvlNode?)
      requires Cut(node, next) && old(Linked())
      requires forall n {:trigger CutAt(node, next, n)} | n in nodes :: CutAt(node, next, n)
      ensures Linked()
    {
      assert next != null ==> old(LinkedAt(next));
      assert next != null ==> CutAt(node, next, next);
      forall n | n in nodes ensures LinkedAt(n) {
        assert old(LinkedAt(n));
        assert CutAt(node, next, n);
        LeftAfterCut(node, next, n);
        RightAfterCut(node, next, n);
        UpAfterCut(node, next, n);
        SpotAfterCut(node, next, n);
      }
      forall i {:trigger order[i]} | 0 <= i < |order| ensures order[i] in nodes && order[i].pos == i {
        OrderAfterCut(node, next, i);
      }
      if old(node.parent) != null {
        assert old(LinkedAt(root));
        assert CutAt(node, next, root);
      }
    }

    twostate lemma CutShrinksParent(new node: AvlNode, new next: AvlNode?)
      requires Cut(node, next) && old(Linked() && Balanced({}))
      requires forall n {:trigger CutAt(node, next, n)} | n in nodes :: CutAt(node, next, n)
      ensures Balanced(Just(old(node.parent)))
      ensures old(node.parent) != null ==> ShrunkBelow(old(node.parent), old(node.parent.left == node))
      ensures old(node.parent) != null ==> root != null && root.h == old(H(root))
      ensures old(node.parent) == null ==> H(root) == old(H(root)) - 1
    {
      assert old(BalancedAt(node));
      assert old(node.left != null ==> BalancedAt(node.left)) && old(node.right != null ==> BalancedAt(node.right));
      assert old(node.left != null ==> LinkedAt(node.left)) && old(node.right != null ==> LinkedAt(node.right));
      assert next != null ==> CutAt(node, next, next);
      forall n | n in nodes
        ensures if n == old(node.parent) then ShrunkBelow(n, old(n.left) == node) else BalancedAt(n)
      {
        assert old(LinkedAt(n)) && old(BalancedAt(n));
        assert old(n.left != null ==> LinkedAt(n.left)) && old(n.right != null ==> LinkedAt(n.right));
        assert CutAt(node, next, n);
        HeightsAfterCut(node, next, n);
      }
      if old(node.parent) != null {
        assert old(LinkedAt(root));
        assert CutAt(node, next, root);
      }
    }

    /** Takes the element at place i out of the sequence; bound is the last interval end that stays. */
    ghost method CloseGap(node: AvlNode, i: int, bound: int)
      requires node in nodes && 0 <= i < |order|
      modifies `nodes, `order, nodes`pos, nodes`lo, nodes`hi
      ensures nodes == old(nodes) - {node} && order == old(order)[..i] + old(order)[i + 1..]
      ensures forall n {:trigger n.pos} {:trigger n.lo} {:trigger n.hi} | n in nodes ::
        n.pos == Down(old(n.pos), i) && n.lo == Down(old(n.lo), bound) && n.hi == Down(old(n.hi), bound)
    {
      forall n | n in nodes { n.pos := Down(n.pos, i); }
      forall n | n in nodes { n.lo := Down(n.lo, bound); }
      forall n | n in nodes { n.hi := Down(n.hi, bound); }
      nodes, order := nodes - {node}, order[..i] + order[i + 1..];
    }

    /** The unlinking of a node with at most one child. */
    method Unlink(node: AvlNode, next: AvlNode?) returns (isLeft: bool)
      requires node in nodes && LinkedAt(node) && (node.left == null || node.right == null)
      requires next == if node.left == null then node.right else node.left
      requires node.parent != null ==> LinkedAt(node.parent)
      modifies `root, `nodes, `order, nodes`left, nodes`right, nodes`parent, nodes`pos, nodes`lo, nodes`hi
      ensures Cut(node, next)
      ensures forall n {:trigger CutAt(node, next, n)} | n in nodes :: CutAt(node, next, n)
      ensures old(node.parent) != null ==> isLeft == old(node.parent.left == node)
    {
      var parent := node.parent;
      isLeft := false;
      if parent != null {
        isLeft := parent.left == node;
        if isLeft {
          parent.left := next;
        } else {
          parent.right := next;
        }
      } else {
        root := next;
      }
      if next != null {
        next.parent := parent;
      }
      CloseGap(node, node.pos, node.pos);
    }

    /** avltree_remove up to the retracing loop, for a node with at most one child. */
    method CutOut(node: AvlNode) returns (isLeft: bool)
      requires Linked() && Balanced({}) && node in nodes && (node.left == null || node.right == null)
      modifies `root, `nodes, `order, nodes`left, nodes`right, nodes`parent, nodes`pos, nodes`lo, nodes`hi
      ensures Linked() && nodes == old(nodes) - {node}
      ensures 0 <= old(node.pos) < |old(order)|
      ensures order == old(order)[..old(node.pos)] + old(order)[old(node.pos) + 1..]
      ensures Retraceable(old(node.parent), isLeft, old(H(root)))
    {
      ghost var p := node.parent;
      assert LinkedAt(node);
      assert p != null ==> LinkedAt(p);
      var next := if node.left == null then node.right else node.left;
      isLeft := Unlink(node, next);
      CutKeepsLinked(node, next);
      CutShrinksParent(node, next);
    }

    /** The links of n after `node`, which had two children, was cut out and its successor `next` put in its place. */
    twostate predicate SwapLinksAt(new node: AvlNode, new next: AvlNode, new n: AvlNode)
      reads n`left, n`right, n`parent, n`balance
    {
      && node in old(nodes) && next in old(nodes) && n in old(nodes) && n != node
      && var x := old(node.parent);
         if n == next then
           && n.left == old(node.left)
             && n.right == (if old(node.right) == next then old(next.right) else old(node.right))
           && n.parent == x && n.balance == old(node.balance)
         else
           && n.left == (if n == x && old(n.left) == node then next
                         else if n == old(next.parent) then old(next.right)
                         else old(n.left))
           && n.right == (if n == x && old(n.right) == node then next else old(n.right))
           && n.parent == (if n == old(node.left) || n == old(node.right) then next
                           else if n == old(next.right)
                           then (if old(node.right) == next then next else old(next.parent))
                           else old(n.parent))
           && n.balance == old(n.balance)
    }

    /** Node n after `node`, which had two children, was cut out and its successor `next` put in its place. */
    twostate predicate SwapAt(new node: AvlNode, new next: AvlNode, new n: AvlNode)
      reads n
    {
      && SwapLinksAt(node, next, n)
      && n.pos == Down(old(n.pos), old(node.pos))
      && if n == next then
           n.lo == old(node.lo) && n.hi == old(node.hi) - 1 && n.h == old(node.h)
         else
           n.lo == Down(old(n.lo), old(node.pos) + 1) && n.hi == Down(old(n.hi), old(node.pos) + 1) && n.h == old(n.h)
    }

    twostate predicate WasSwap(new node: AvlNode, new next: AvlNode, new n: AvlNode?)
      reads Just(n)
    {
      n == null || n == node || (SwapAt(node, next, n) && old(LinkedAt(n)))
    }

    twostate predicate Swap(new node: AvlNode, new next: AvlNode)
      reads this
    {
      && node in old(nodes) && next in old(nodes) && next != node && nodes == old(nodes) - {node}
      && old(LinkedAt(node)) && old(LinkedAt(next))
      && old(node.left) != null && old(node.right) != null && old(next.left) == null
        && old(next.pos) == old(node.pos) + 1
      && old(next.lo) == old(next.pos) && old(next.parent) != null
      && order == old(order)[..old(node.pos)] + old(order)[old(node.pos) + 1..]
      && root == (if old(node.parent) == null then next else old(root))
    }

    twostate lemma LeftAfterSwap(new node: AvlNode, new next: AvlNode, new n: AvlNode)
      requires Swap(node, next) && n in nodes && WasSwap(node, next, n) && n in old(nodes)
      requires WasSwap(node, next, old(n.left)) && WasSwap(node, next, next)
      requires WasSwap(node, next, old(node.left)) && WasSwap(node, next, old(next.right))
      ensures LeftAt(n)
    {
    }

    twostate lemma RightAfterSwap(new node: AvlNode, new next: AvlNode, new n: AvlNode)
      requires Swap(node, next) && n in nodes && WasSwap(node, next, n) && n in old(nodes)
      requires WasSwap(node, next, old(n.right)) && WasSwap(node, next, next)
      requires WasSwap(node, next, old(node.right)) && WasSwap(node, next, old(next.right))
      ensures RightAt(n)
    {
    }

    twostate lemma UpAfterSwap(new node: AvlNode, new next: AvlNode, new n: AvlNode)
      requires Swap(node, next) && n in nodes && WasSwap(node, next, n) && n in old(nodes)
      requires WasSwap(node, next, old(n.parent)) && WasSwap(node, next, old(node.parent))
      requires WasSwap(node, next, next) && WasSwap(node, next, old(next.parent))
      ensures UpAt(n)
    {
    }

    twostate lemma SpotAfterSwap(new node: AvlNode, new next: AvlNode, new n: AvlNode)
      requires Swap(node, next) && n in nodes && WasSwap(node, next, n)
      ensures 0 <= n.pos < |order| && order[n.pos] == n
    {
    }

    twostate lemma HeightsAfterSwap(new node: AvlNode, new next: AvlNode, new n: AvlNode)
      requires Swap(node, next) && n in nodes && WasSwap(node, next, n) && old(BalancedAt(n)) && old(BalancedAt(node))
      requires n in old(nodes) && WasSwap(node, next, old(n.left)) && WasSwap(node, next, old(n.right))
      requires WasSwap(node, next, next) && WasSwap(node, next, old(next.right))
      requires WasSwap(node, next, old(node.left)) && WasSwap(node, next, old(node.right)) && old(BalancedAt(next))
      requires old(next.right) != null ==> old(BalancedAt(next.right))
      ensures if n == (if old(node.right) == next then next else old(next.parent))
        then ShrunkBelow(n, old(node.right) != next) else BalancedAt(n)
    {
    }

    twostate lemma OrderAfterSwap(new node: AvlNode, new next: AvlNode, new i: int)
      requires Swap(node, next) && 0 <= i < |order| && old(Linked())
      requires forall n {:trigger SwapAt(node, next, n)} | n in nodes :: SwapAt(node, next, n)
      ensures order[i] in nodes && order[i].pos == i
    {
      var j := if i < old(node.pos) then i else i + 1;
      assert order[i] == old(order)[j] && old(order[j].pos) == j;
      assert SwapAt(node, next, order[i]);
    }

    twostate lemma SwapSeenAround(new node: AvlNode, new next: AvlNode, new n: AvlNode)
      requires Swap(node, next) && old(Linked()) && n in nodes
      requires forall n {:trigger SwapAt(node, next, n)} | n in nodes :: SwapAt(node, next, n)
      ensures n in old(nodes) && WasSwap(node, next, n) && WasSwap(node, next, old(n.left))
      ensures WasSwap(node, next, old(n.right)) && WasSwap(node, next, old(n.parent))
    {
      assert old(LinkedAt(n)) && SwapAt(node, next, n);
      assert old(n.left != null ==> LinkedAt(n.left));
      assert old(n.right != null ==> LinkedAt(n.right));
      assert old(n.parent != null ==> LinkedAt(n.parent));
    }

    twostate lemma SwapSeenBelow(new node: AvlNode, new next: AvlNode)
      requires Swap(node, next) && old(Linked())
      requires forall n {:trigger SwapAt(node, next, n)} | n in nodes :: SwapAt(node, next, n)
      ensures WasSwap(node, next, old(node.left)) && WasSwap(node, next, old(node.right))
        && WasSwap(node, next, old(node.parent))
      ensures WasSwap(node, next, next) && WasSwap(node, next, old(next.right)) && WasSwap(node, next, old(next.parent))
    {
      SwapSeenAround(node, next, next);
      assert old(LinkedAt(node.left)) && old(LinkedAt(node.right));
      assert old(node.parent != null ==> LinkedAt(node.parent));
    }

    twostate lemma SwapKeepsLinkedAt(new node: AvlNode, new next: AvlNode, new n: AvlNode)
      requires Swap(node, next) && old(Linked()) && n in nodes
      requires forall n {:trigger SwapAt(node, next, n)} | n in nodes :: SwapAt(node, next, n)
      ensures LinkedAt(n)
    {
      hide Swap, WasSwap, SwapAt, LeftAt, RightAt, UpAt, Linked;
      SwapSeenAround(node, next, n);
      SwapSeenBelow(node, next);
      LeftAfterSwap(node, next, n);
      RightAfterSwap(node, next, n);
      UpAfterSwap(node, next, n);
      SpotAfterSwap(node, next, n);
    }

    twostate lemma SwapKeepsLinked(new node: AvlNode, new next: AvlNode)
      requires Swap(node, next) && old(Linked())
      requires forall n {:trigger SwapAt(node, next, n)} | n in nodes :: SwapAt(node, next, n)
      ensures Linked()
    {
      forall n | n in nodes ensures LinkedAt(n) {
        SwapKeepsLinkedAt(node, next, n);
      }
      forall i {:trigger order[i]} | 0 <= i < |order| ensures order[i] in nodes && order[i].pos == i {
        OrderAfterSwap(node, next, i);
      }
      assert SwapAt(node, next, next);
      if old(node.parent) != null {
        assert old(LinkedAt(root));
        assert SwapAt(node, next, root);
      }
    }

    twostate lemma SwapHeightsAt(new node: AvlNode, new next: AvlNode, new n: AvlNode)
      requires Swap(node, next) && old(Linked() && Balanced({})) && n in nodes
      requires forall n {:trigger SwapAt(node, next, n)} | n in nodes :: SwapAt(node, next, n)
      ensures if n == (if old(node.right) == next then next else old(next.parent))
        then ShrunkBelow(n, old(node.right) != next) else BalancedAt(n)
    {
      assert old(LinkedAt(n)) && old(BalancedAt(n));
      assert old(BalancedAt(node)) && old(BalancedAt(next));
      assert SwapAt(node, next, n) && SwapAt(node, next, next);
      assert WasSwap(node, next, old(n.left)) by { assert old(n.left != null ==> LinkedAt(n.left)); }
      assert WasSwap(node, next, old(n.right)) by { assert old(n.right != null ==> LinkedAt(n.right)); }
      assert WasSwap(node, next, old(node.left)) by { assert old(LinkedAt(node.left)); }
      assert WasSwap(node, next, old(node.right)) by { assert old(LinkedAt(node.right)); }
      assert WasSwap(node, next, old(next.right)) by { assert old(next.right != null ==> LinkedAt(next.right)); }
      assert old(next.right) != null ==> old(BalancedAt(next.right));
      HeightsAfterSwap(node, next, n);
    }

    twostate lemma SwapShrinks(new node: AvlNode, new next: AvlNode)
      requires Swap(node, next) && old(Linked() && Balanced({}))
      requires forall n {:trigger SwapAt(node, next, n)} | n in nodes :: SwapAt(node, next, n)
      ensures Retraceable(if old(node.right) == next then next else old(next.parent),
        old(node.right) != next, old(H(root)))
    {
      var p := if old(node.right) == next then next else old(next.parent);
      assert p in nodes by {
        assert old(LinkedAt(next.parent));
        assert old(next.parent) == node ==> old(node.right) == next;
      }
      forall n | n in nodes ensures if n == p then ShrunkBelow(n, old(node.right) != next) else BalancedAt(n) {
        SwapHeightsAt(node, next, n);
      }
      assert SwapAt(node, next, next);
      if old(node.parent) != null {
        assert old(LinkedAt(root));
        assert SwapAt(node, next, root);
      }
    }

    /** The nodes that the replacement of node by next touches are the different nodes one thinks they are. */
    ghost predicate Apart(node: AvlNode, next: AvlNode)
      reads `nodes, nodes`left, nodes`right, nodes`parent
    {
      && node in nodes && next in nodes && node != next
      && var left, right, up, p, child := node.left, node.right, node.parent, next.parent, next.right;
      && left != null && right != null && p != null && left in nodes && right in nodes && p in nodes
      && (child != null ==> child in nodes) && (up != null ==> up in nodes)
      && left != node && left != next && left != right && left != up && left != p && left != child
      && right != node && right != up && right != child
      && up != node && up != next && up != p && (up != null ==> up != child && (up.left == node) != (up.right == node))
      && child != node && child != next && child != p
      && p != next && (p == node <==> next == right)
    }

    lemma SwapNodesApart(node: AvlNode, next: AvlNode)
      requires node in nodes && next in nodes && LinkedAt(node) && LinkedAt(next)
      requires node.left != null && node.right != null && LinkedAt(node.left) && LinkedAt(node.right)
      requires node.parent != null ==> LinkedAt(node.parent)
      requires next.parent != null && LinkedAt(next.parent)
      requires next.right != null ==> LinkedAt(next.right)
      requires next.left == null && next.pos == next.lo == node.pos + 1 && next.hi <= node.hi
      ensures Apart(node, next)
    {
    }

    /** The pointer updates that put next, the first node of the right subtree, where node was. */
    method MoveLinks(node: AvlNode, next: AvlNode) returns (parent: AvlNode, isLeft: bool)
      requires Apart(node, next)
      modifies `root, nodes`left, nodes`right, nodes`parent, next`balance
      ensures root == (if old(node.parent) == null then next else old(root))
      ensures forall n {:trigger SwapLinksAt(node, next, n)} | n in nodes && n != node :: SwapLinksAt(node, next, n)
      ensures parent == (if old(node.right) == next then next else old(next.parent))
        && isLeft == (old(node.right) != next)
    {
      var up := node.parent;
      var left := node.left;
      var right := node.right;
      if up != null {
        if up.left == node {
          up.left := next;
        } else {
          up.right := next;
        }
      } else {
        root := next;
      }
      next.balance := node.balance;
      next.left := left;
      left.parent := next;
      var child := next.right;
      if next != right {
        parent := next.parent;
        next.parent := up;
        parent.left := child;
        isLeft := true;
        next.right := right;
        right.parent := next;
      } else {
        next.parent := up;
        parent := next;
        isLeft := false;
      }
      if child != null {
        child.parent := parent;
      }
    }

    lemma InnerNodesApart(node: AvlNode, next: AvlNode)
      requires Linked() && node in nodes && node.left != null && node.right != null
      requires next in nodes && next.left == null && next.pos == next.lo == node.pos + 1 && next.hi <= node.hi
      ensures Apart(node, next) && LinkedAt(node) && LinkedAt(next)
    {
      assert LinkedAt(node) && LinkedAt(next) && LinkedAt(node.left) && LinkedAt(node.right);
      assert LinkedAt(next.parent);
      assert node.parent != null ==> LinkedAt(node.parent);
      assert next.right != null ==> LinkedAt(next.right);
      SwapNodesApart(node, next);
    }

    /** The successor takes over the node's place; the sequence closes up. */
    ghost method InheritPlace(node: AvlNode, next: AvlNode)
      requires node in nodes && next in nodes && next != node && 0 <= node.pos < |order|
      modifies `nodes, `order, nodes`pos, nodes`lo, nodes`hi, next`h
      ensures nodes == old(nodes) - {node} && order == old(order)[..old(node.pos)] + old(order)[old(node.pos) + 1..]
      ensures next.pos == Down(old(next.pos), old(node.pos))
      ensures next.lo == old(node.lo) && next.hi == old(node.hi) - 1 && next.h == old(node.h)
      ensures forall n {:trigger n.pos} {:trigger n.lo} {:trigger n.hi} | n in nodes && n != next ::
        && n.pos == Down(old(n.pos), old(node.pos))
        && n.lo == Down(old(n.lo), old(node.pos) + 1) && n.hi == Down(old(n.hi), old(node.pos) + 1)
    {
      var lo, hi, h := node.lo, node.hi, node.h;
      CloseGap(node, node.pos, node.pos + 1);
      next.lo, next.hi, next.h := lo, hi - 1, h;
    }

    /** The replacement of a node with two children by its successor. */
    method PutInPlace(node: AvlNode, next: AvlNode) returns (parent: AvlNode, isLeft: bool)
      requires Linked() && node in nodes && node.left != null && node.right != null
      requires next in nodes && next.left == null && next.pos == next.lo == node.pos + 1 && next.hi <= node.hi
      modifies `root, `nodes, `order, nodes`left, nodes`right, nodes`parent, nodes`pos, nodes`lo, nodes`hi,
        next`balance, next`h
      ensures Swap(node, next)
      ensures forall n {:trigger SwapAt(node, next, n)} | n in nodes :: SwapAt(node, next, n)
      ensures parent == (if old(node.right) == next then next else old(next.parent))
        && isLeft == (old(node.right) != next)
    {
      InnerNodesApart(node, next);
      parent, isLeft := MoveLinks(node, next);
      InheritPlace(node, next);
      forall n | n in nodes ensures SwapAt(node, next, n) {
        assert SwapLinksAt(node, next, n);
      }
    }

    /** avltree_remove up to the retracing loop, for a node with two children. */
    method CutOutInner(node: AvlNode) returns (parent: AvlNode?, isLeft: bool)
      requires Linked() && Balanced({}) && node in nodes && node.left != null && node.right != null
      modifies `root, `nodes, `order, nodes`left, nodes`right, nodes`parent, nodes`pos, nodes`lo, nodes`hi,
        nodes`balance, nodes`h
      ensures Linked() && nodes == old(nodes) - {node}
      ensures 0 <= old(node.pos) < |old(order)|
      ensures order == old(order)[..old(node.pos)] + old(order)[old(node.pos) + 1..]
      ensures Retraceable(parent, isLeft, old(H(root)))
    {
      assert LinkedAt(node) && LinkedAt(node.right);
      var next := GetFirst(node.right);
      label L:
      parent, isLeft := PutInPlace(node, next);
      SwapKeepsLinked@L(node, next);
      SwapShrinks@L(node, next);
    }

    /** p's height and balance changed and nothing else did; how the other node m sees that. */
    twostate lemma NoticesShrinking(new p: AvlNode, new m: AvlNode)
      requires nodes == old(nodes) && p in old(nodes) && m in old(nodes) && m != p
      requires m.left == old(m.left) && m.right == old(m.right) && SameAt(m)
      requires old(LinkedAt(m)) && old(BalancedAt(m))
      requires m.left == p || SameAt(m.left)
      requires m.right == p || SameAt(m.right)
      requires p.h == old(p.h) - 1
      ensures if m.left == p || m.right == p then m == old(p.parent) && ShrunkBelow(m, m.left == p) else BalancedAt(m)
    {
    }

    /** Case 1: the subtree of p is balanced but one lower, and the node above must learn that. */
    ghost method Lower(p: AvlNode)
      requires Linked() && p in nodes && p.h == 2 + H(p.left) == 2 + H(p.right) && p.h > 0 && p.balance == 0
      requires Balanced({p})
      modifies p`h
      ensures Retraceable(p.parent, p.parent != null && p.parent.left == p, old(H(root)))
    {
      assert LinkedAt(p);
      var x := p.parent;
      p.h := p.h - 1;
      forall m | m in nodes && m != p
        ensures if m.left == p || m.right == p then m == x && ShrunkBelow(m, m.left == p) else BalancedAt(m)
      {
        assert old(LinkedAt(m)) && old(BalancedAt(m));
        NoticesShrinking(p, m);
      }
      assert BalancedAt(p);
      assert x != null ==> LinkedAt(x);
    }

    method AddBalance(node: AvlNode, d: int)
      requires node in nodes && Balanced({node})
      modifies node`balance
      ensures Balanced({node}) && node.balance == old(node.balance) + d
    {
      node.balance := node.balance + d;
      forall m | m in nodes && m != node ensures BalancedAt(m) {
        assert old(BalancedAt(m));
      }
    }

    /** Case 3: the right subtree is two higher than the left; returns whether the subtree kept its height. */
    method RaiseRightHeavy(node: AvlNode) returns (done: bool)
      requires Linked() && node in nodes && Balanced({node}) && node.right != null && node.right in nodes
      requires H(node.right) == H(node.left) + 2 && node.h == 1 + H(node.right)
      modifies `root, nodes`left, nodes`right, nodes`parent, nodes`lo, nodes`hi, nodes`balance, nodes`h
      ensures Linked()
      ensures done ==> Balanced({}) && H(root) == old(H(root))
      ensures !done ==>
        Retraceable(old(node.parent), old(node.parent != null && node.parent.left == node), old(H(root)))
      ensures var x := old(node.parent); x != null ==>
        x.lo == old(x.lo) && x.hi == old(x.hi) && x.parent == old(x.parent)
    {
      var right := node.right;
      assert LinkedAt(node) && BalancedAt(right);
      done := right.balance == 0;
      if right.balance != -1 {
        SingleLeft(node);
      } else {
        DoubleLeft(node);
      }
    }

    /** One pass of the retracing loop of a removal, at a node whose left subtree has become lower. */
    method ShrinkLeft(node: AvlNode) returns (done: bool)
      requires Linked() && node in nodes && Balanced({node}) && ShrunkBelow(node, true)
      modifies `root, nodes`left, nodes`right, nodes`parent, nodes`lo, nodes`hi, nodes`balance, nodes`h
      ensures Linked()
      ensures done ==> Balanced({}) && H(root) == old(H(root))
      ensures !done ==>
        Retraceable(old(node.parent), old(node.parent != null && node.parent.left == node), old(H(root)))
      ensures var x := old(node.parent); x != null ==>
        x.lo == old(x.lo) && x.hi == old(x.hi) && x.parent == old(x.parent)
    {
      assert -1 <= H(node.left) by {
        assert LinkedAt(node);
        assert node.left != null ==> BalancedAt(node.left);
      }
      hide Linked, Retraceable;
      AddBalance(node, 1);
      if node.balance == 0 {
        Lower(node);
        return false;
      }
      if node.balance == 1 {
        assert BalancedAt(node);
        return true;
      }
      done := RaiseRightHeavy(node);
    }

    /** Case 3: the left subtree is two higher than the right; returns whether the subtree kept its height. */
    method RaiseLeftHeavy(node: AvlNode) returns (done: bool)
      requires Linked() && node in nodes && Balanced({node}) && node.left != null && node.left in nodes
      requires H(node.left) == H(node.right) + 2 && node.h == 1 + H(node.left)
      modifies `root, nodes`right, nodes`left, nodes`parent, nodes`lo, nodes`hi, nodes`balance, nodes`h
      ensures Linked()
      ensures done ==> Balanced({}) && H(root) == old(H(root))
      ensures !done ==>
        Retraceable(old(node.parent), old(node.parent != null && node.parent.left == node), old(H(root)))
      ensures var x := old(node.parent); x != null ==>
        x.lo == old(x.lo) && x.hi == old(x.hi) && x.parent == old(x.parent)
    {
      var left := node.left;
      assert LinkedAt(node) && BalancedAt(left);
      done := left.balance == 0;
      if left.balance != 1 {
        SingleRight(node);
      } else {
        DoubleRight(node);
      }
    }

    /** One pass of the retracing loop of a removal, at a node whose right subtree has become lower. */
    method ShrinkRight(node: AvlNode) returns (done: bool)
      requires Linked() && node in nodes && Balanced({node}) && ShrunkBelow(node, false)
      modifies `root, nodes`right, nodes`left, nodes`parent, nodes`lo, nodes`hi, nodes`balance, nodes`h
      ensures Linked()
      ensures done ==> Balanced({}) && H(root) == old(H(root))
      ensures !done ==>
        Retraceable(old(node.parent), old(node.parent != null && node.parent.left == node), old(H(root)))
      ensures var x := old(node.parent); x != null ==>
        x.lo == old(x.lo) && x.hi == old(x.hi) && x.parent == old(x.parent)
    {
      assert -1 <= H(node.right) by {
        assert LinkedAt(node);
        assert node.right != null ==> BalancedAt(node.right);
      }
      hide Linked, Retraceable;
      AddBalance(node, -1);
      if node.balance == 0 {
        Lower(node);
        return false;
      }
      if node.balance == -1 {
        assert BalancedAt(node);
        return true;
      }
      done := RaiseLeftHeavy(node);
    }

    /** The retracing loop of a removal. */
    method RetraceShrunk(start: AvlNode?, fromLeft: bool)
      requires Linked() && Retraceable(start, fromLeft, height)
      modifies `root, `height, nodes`left, nodes`right, nodes`parent, nodes`lo, nodes`hi, nodes`balance, nodes`h
      ensures Linked() && Balanced({}) && height == H(root)
      ensures height == old(height) || height == old(height) - 1
    {
      var parent, isLeft := start, fromLeft;
      while parent != null
        invariant Linked() && Retraceable(parent, isLeft, height) && height == old(height)
        decreases if parent == null then 0 else |order| + 1 - (parent.hi - parent.lo)
      {
        assert LinkedAt(parent);
        assert parent.parent != null ==> LinkedAt(parent.parent);
        var node: AvlNode := parent;
        parent := parent.parent;
        var next := parent != null && parent.left == node;
        var done;
        if isLeft {
          done := ShrinkLeft(node);
        } else {
          done := ShrinkRight(node);
        }
        if done {
          return;
        }
        isLeft := next;
      }
      height := height - 1;
    }

    /** The cached ends already fit the sequence s without its element at place i. */
    ghost predicate EndsWithout(s: seq<AvlNode>, i: int)
      reads `first, `last
    {
      && 0 <= i < |s|
      && first == (if |s| == 1 then null else if i == 0 then s[1] else s[0])
      && last == (if |s| == 1 then null else if i == |s| - 1 then s[|s| - 2] else s[|s| - 1])
    }

    method MoveEnds(node: AvlNode)
      requires Valid() && node in nodes
      modifies `first, `last
      ensures EndsWithout(order, node.pos)
    {
      assert LinkedAt(node);
      assert order[0].pos == 0 && order[|order| - 1].pos == |order| - 1;
      if node == first {
        first := Next(node);
      }
      if node == last {
        last := Prev(node);
      }
    }

    lemma SequenceAfterCut(was: seq<AvlNode>, i: int)
      requires EndsWithout(was, i) && order == was[..i] + was[i + 1..]
      requires forall i, j | 0 <= i < j < |was| :: was[i].key < was[j].key
      ensures Sorted() && Ends()
    {
    }

    /** The unlinking half of avltree_remove, with one or two children. */
    method Extract(node: AvlNode) returns (parent: AvlNode?, isLeft: bool)
      requires Linked() && Balanced({}) && node in nodes
      modifies `root, `nodes, `order, nodes`left, nodes`right, nodes`parent, nodes`pos, nodes`lo, nodes`hi,
        nodes`balance, nodes`h
      ensures Linked() && nodes == old(nodes) - {node}
      ensures 0 <= old(node.pos) < |old(order)|
      ensures order == old(order)[..old(node.pos)] + old(order)[old(node.pos) + 1..]
      ensures Retraceable(parent, isLeft, old(H(root)))
    {
      hide Linked, Balanced, Retraceable;
      if node.left == null || node.right == null {
        parent := node.parent;
        isLeft := CutOut(node);
      } else {
        parent, isLeft := CutOutInner(node);
      }
    }

    /** avltree_remove: node leaves the tree, everything else stays. */
    method Remove(node: AvlNode)
      requires Valid() && node in nodes
      modifies this, nodes
      ensures Valid() && nodes == old(nodes) - {node}
      ensures height == old(height) || height == old(height) - 1
    {
      hide Linked, Balanced, Retraceable, EndsWithout, Ends;
      ghost var was, i := order, node.pos;
      MoveEnds(node);
      var parent, isLeft := Extract(node);
      SequenceAfterCut(was, i);
      RetraceShrunk(parent, isLeft);
    }

    constructor ()
      ensures Valid() && nodes == {} && height == -1
    {
      root, first, last, height := null, null, null, -1;
      nodes, order := {}, [];
    }

    /** ITERATE_AVL_TREE_BEGIN/END: from first along avltree_next. */
    method Traverse() returns (s: seq<AvlNode>)
      requires Valid()
      ensures s == order
    {
      s := [];
      var n := first;
      while n != null
        invariant |s| <= |order| && s == order[..|s|]
        invariant n == if |s| < |order| then order[|s|] else null
        decreases |order| - |s|
      {
        s := s + [n];
        n := Next(n);
      }
    }

    // ---- what Valid() means, told by the links alone ----

    ghost function InOrder(n: AvlNode?): seq<AvlNode>
      requires Linked() && (n != null ==> n in nodes)
      reads `nodes, `root, `order, nodes`left, nodes`right, nodes`parent, nodes`lo, nodes`pos, nodes`hi
      decreases if n == null then 0 else n.hi - n.lo
    {
      if n == null then [] else
        assert LinkedAt(n) && (n.left != null ==> LinkedAt(n.left)) && (n.right != null ==> LinkedAt(n.right));
        InOrder(n.left) + [n] + InOrder(n.right)
    }

    ghost function TrueHeight(n: AvlNode?): int
      requires Linked() && (n != null ==> n in nodes)
      reads `nodes, `root, `order, nodes`left, nodes`right, nodes`parent, nodes`lo, nodes`pos, nodes`hi
      decreases if n == null then 0 else n.hi - n.lo
    {
      if n == null then -1 else
        assert LinkedAt(n) && (n.left != null ==> LinkedAt(n.left)) && (n.right != null ==> LinkedAt(n.right));
        1 + Max(TrueHeight(n.left), TrueHeight(n.right))
    }

    /** Walking the child links from n visits exactly the nodes of its stretch of the sorted sequence, in order. */
    lemma {:induction false} InOrderIsStretch(n: AvlNode)
      requires Linked() && n in nodes
      ensures LinkedAt(n) && InOrder(n) == order[n.lo..n.hi]
      decreases n.hi - n.lo
    {
      assert LinkedAt(n);
      assert InOrder(n.left) == order[n.lo..n.pos] by {
        if n.left != null {
          InOrderIsStretch(n.left);
        }
      }
      assert InOrder(n.right) == order[n.pos + 1..n.hi] by {
        if n.right != null {
          InOrderIsStretch(n.right);
        }
      }
      assert order[n.lo..n.hi] == order[n.lo..n.pos] + [order[n.pos]] + order[n.pos + 1..n.hi];
    }

    lemma {:induction false} HeightIsTrue(n: AvlNode)
      requires Linked() && Balanced({}) && n in nodes
      ensures n.h == TrueHeight(n)
      decreases n.hi - n.lo
    {
      assert LinkedAt(n) && BalancedAt(n);
      if n.left != null {
        assert LinkedAt(n.left);
        HeightIsTrue(n.left);
      }
      if n.right != null {
        assert LinkedAt(n.right);
        HeightIsTrue(n.right);
      }
    }

    /** The whole tree: in-order traversal of the links is the strictly sorted sequence of all nodes,
        and the stored height and every stored balance tell the truth about the links. */
    lemma ValidTree()
      requires Valid()
      ensures InOrder(root) == order && (forall n :: n in nodes <==> n in order)
      ensures forall i, j | 0 <= i < j < |order| :: order[i].key < order[j].key
      ensures height == TrueHeight(root)
      ensures forall n {:trigger TrueHeight(n)} | n in nodes ::
        && (n.left != null ==> n.left in nodes && n.left.parent == n)
          && (n.right != null ==> n.right in nodes && n.right.parent == n)
        && n.balance == TrueHeight(n.right) - TrueHeight(n.left) && -1 <= n.balance <= 1
    {
      if root != null {
        InOrderIsStretch(root);
        HeightIsTrue(root);
      }
      forall n | n in nodes
        ensures n in order
        ensures (n.left != null ==> n.left in nodes && n.left.parent == n)
          && (n.right != null ==> n.right in nodes && n.right.parent == n)
        ensures n.balance == TrueHeight(n.right) - TrueHeight(n.left) && -1 <= n.balance <= 1
      {
        assert LinkedAt(n) && BalancedAt(n);
        if n.left != null {
          HeightIsTrue(n.left);
        }
        if n.right != null {
          HeightIsTrue(n.right);
        }
      }
    }

    /** A subtree of height h holds at least Fib(h + 3) - 1 nodes. */
    lemma {:induction false} SubtreeSize(n: AvlNode)
      requires Linked() && Balanced({}) && n in nodes
      ensures n.h >= 0 && n.hi - n.lo >= Fib(n.h + 3) - 1
      decreases n.hi - n.lo
    {
      assert LinkedAt(n) && BalancedAt(n);
      if n.left != null {
        assert LinkedAt(n.left);
        SubtreeSize(n.left);
      }
      if n.right != null {
        assert LinkedAt(n.right);
        SubtreeSize(n.right);
      }
      FibGrows(n.h + 1);
    }

    /** A tree of height h holds at least Fib(h + 3) - 1 nodes. */
    lemma MinimumSize()
      requires Valid()
      ensures height >= -1 && |order| >= Fib(height + 3) - 1
    {
      if root != null {
        SubtreeSize(root);
      }
    }
  }
}
