/**
 The reference container of the persistent allocator: a binary search tree of linked nodes with parent
 pointers, standing for a multiset of keys and values.
 */
module Bst {
  datatype Item = Item(key: nat, value: nat)

  /**
   A node. For the proofs each node has a place on a line, never changed, and an interval around it that
   holds every place below it in the tree.
   */
  class Node {
    var key: nat
    var value: nat
    var left: Node?
    var right: Node?
    var parent: Node?
    ghost const pos: real
    ghost const lo: real
    ghost const hi: real

    constructor (parent: Node?, value: nat, key: nat, ghost lo: real, ghost hi: real)
      ensures this.parent == parent && this.value == value && this.key == key && left == null && right == null
      ensures this.lo == lo && this.hi == hi && this.pos == (lo + hi) / 2.0
    {
      this.parent, this.value, this.key, left, right := parent, value, key, null, null;
      this.lo, this.hi, this.pos := lo, hi, (lo + hi) / 2.0;
    }
  }

  /** What the fields of a node hold. */
  datatype Fields = Fields(item: Item, left: Node?, right: Node?, parent: Node?)

  /** The nodes of a tree with what they hold. */
  type Linked = map<Node, Fields>

  // ----- The shape of a tree -----

  ghost predicate Over(n: Node, p: real) {
    n.lo < p < n.hi
  }

  /** Every place below n that is taken is taken below one of its children. */
  ghost predicate Covers(h: Linked, n: Node, x: Node)
    requires n in h
  {
    && (Over(n, x.pos) && x.pos < n.pos ==> h[n].left != null && Over(h[n].left, x.pos))
    && (Over(n, x.pos) && x.pos > n.pos ==> h[n].right != null && Over(h[n].right, x.pos))
  }

  /** Intervals below n lie on one side of it. */
  ghost predicate Nested(n: Node, x: Node) {
    && (Over(n, x.pos) && x.pos < n.pos ==> n.lo <= x.lo && x.hi <= n.pos)
    && (Over(n, x.pos) && x.pos > n.pos ==> n.pos <= x.lo && x.hi <= n.hi)
  }

  /** Different nodes have different places, and keys follow places. */
  ghost predicate Pair(h: Linked, n: Node, x: Node)
    requires n in h && x in h
  {
    n != x ==>
      && n.pos != x.pos && Covers(h, n, x) && Nested(n, x)
      && (n.pos < x.pos ==> h[n].item.key <= h[x].item.key)
  }

  /** A child points back, and its interval lies on its side. */
  ghost predicate Links(root: Node?, h: Linked, n: Node)
    requires n in h
  {
    var f := h[n];
    && n.lo < n.pos < n.hi
    && (f.left != null ==> f.left in h && h[f.left].parent == n && n.lo <= f.left.lo && f.left.hi <= n.pos)
    && (f.right != null ==> f.right in h && h[f.right].parent == n && n.pos <= f.right.lo && f.right.hi <= n.hi)
    && (n == root ==> f.parent == null)
    && (n != root ==> f.parent != null && f.parent in h && (h[f.parent].left == n || h[f.parent].right == n))
  }

  ghost predicate Shaped(root: Node?, h: Linked) {
    && (root != null ==> root in h && forall x :: x in h ==> Over(root, x.pos))
    && (root == null ==> h == map[])
    && (forall n :: n in h ==> Links(root, h, n))
    && (forall n, x :: n in h && x in h ==> Pair(h, n, x))
  }

  /** The nodes holding this item. */
  ghost function With(h: Linked, it: Item): set<Node> {
    set n | n in h && h[n].item == it
  }

  /** The items are those the nodes hold, as often as nodes hold them. */
  ghost predicate Counted(h: Linked, items: multiset<Item>) {
    forall it :: items[it] == |With(h, it)|
  }

  /** A node counts for its own item only. */
  lemma CountSplit(h: Linked, n: Node, i: Item)
    requires n in h
    ensures |With(h, i)| == |With(h, i) - {n}| + if h[n].item == i then 1 else 0
  {
    var w := With(h, i);
    assert n in w <==> h[n].item == i;
    if n in w {
      assert w == (w - {n}) + {n};
    } else {
      assert w == w - {n};
    }
  }

  // ----- Going down -----

  /** The nodes below n, with n. */
  ghost function Below(h: Linked, n: Node?): set<Node> {
    if n == null then {} else set x | x in h && Over(n, x.pos)
  }

  /** One step down leaves a node behind. */
  lemma Descends(root: Node?, h: Linked, n: Node, c: Node?)
    requires Shaped(root, h) && n in h && (c == h[n].left || c == h[n].right)
    ensures |Below(h, c)| < |Below(h, n)|
  {
    assert Links(root, h, n);
    assert n in Below(h, n) && n !in Below(h, c);
    assert Below(h, c) <= Below(h, n) - {n};
    Smaller(Below(h, c), Below(h, n) - {n});
  }

  lemma Smaller(a: set<Node>, b: set<Node>)
    requires a <= b
    ensures |a| <= |b|
  {
    if a != b {
      assert b == a + (b - a);
    }
  }

  /** What is below n but not below its left child has no smaller key, and the other way round. */
  lemma LeftPart(root: Node?, h: Linked, n: Node)
    requires Shaped(root, h) && n in h
    ensures Below(h, h[n].left) <= Below(h, n) && n in Below(h, n)
    ensures forall x :: x in Below(h, n) && x !in Below(h, h[n].left) ==> h[x].item.key >= h[n].item.key
    ensures forall x :: x in Below(h, h[n].left) ==> h[x].item.key <= h[n].item.key
  {
    assert Links(root, h, n);
    forall x | x in Below(h, n) && x !in Below(h, h[n].left) ensures h[x].item.key >= h[n].item.key {
      assert Pair(h, n, x);
    }
    forall x | x in Below(h, h[n].left) ensures h[x].item.key <= h[n].item.key {
      assert Pair(h, x, n);
    }
  }

  lemma RightPart(root: Node?, h: Linked, n: Node)
    requires Shaped(root, h) && n in h
    ensures Below(h, h[n].right) <= Below(h, n) && n in Below(h, n)
    ensures forall x :: x in Below(h, n) && x !in Below(h, h[n].right) ==> h[x].item.key <= h[n].item.key
    ensures forall x :: x in Below(h, h[n].right) ==> h[x].item.key >= h[n].item.key
  {
    assert Links(root, h, n);
    forall x | x in Below(h, n) && x !in Below(h, h[n].right) ensures h[x].item.key <= h[n].item.key {
      assert Pair(h, n, x) && Pair(h, x, n);
    }
    forall x | x in Below(h, h[n].right) ensures h[x].item.key >= h[n].item.key {
      assert Pair(h, n, x);
    }
  }

  // ----- Searching -----

  /** The node the search is after: one with the key, or if asked for, one with the least larger key. */
  ghost predicate Sought(h: Linked, r: Node?, key: nat, greater: bool) {
    && (r != null ==>
          && r in h && (h[r].item.key == key || (greater && h[r].item.key > key))
          && forall x :: x in h && h[x].item.key >= key ==> h[r].item.key <= h[x].item.key)
    && (r == null ==> forall x :: x in h ==> if greater then h[x].item.key < key else h[x].item.key != key)
  }

  /** What the search has ruled out on its way down to n, with b the best larger key it has met. */
  ghost predicate Searched(h: Linked, n: Node?, b: Node?, key: nat, greater: bool) {
    && (n != null ==> n in h)
    && (b != null ==> greater && b in h && h[b].item.key > key)
    && (forall x :: x in h && x !in Below(h, n) ==>
          h[x].item.key != key && (greater && h[x].item.key > key ==> b != null && h[b].item.key <= h[x].item.key))
    && (b != null ==> forall x :: x in Below(h, n) ==> h[x].item.key <= h[b].item.key)
  }

  lemma SearchStep(root: Node?, h: Linked, n: Node, b: Node?, key: nat, greater: bool)
    requires Shaped(root, h) && Searched(h, n, b, key, greater) && h[n].item.key != key
    ensures var next := if h[n].item.key > key then h[n].left else h[n].right;
            && |Below(h, next)| < |Below(h, n)|
            && Searched(h, next, if greater && h[n].item.key > key then n else b, key, greater)
  {
    assert Links(root, h, n);
    if h[n].item.key > key {
      Descends(root, h, n, h[n].left);
      LeftPart(root, h, n);
    } else {
      Descends(root, h, n, h[n].right);
      RightPart(root, h, n);
    }
    hide Shaped, Links, Below;
  }

  // ----- Adding -----

  /** How m lies to the empty place (a, b) below p that a new node with this key may take. */
  ghost predicate Aside(h: Linked, p: Node?, a: real, b: real, key: nat, m: Node)
    requires m in h
  {
    var f := h[m];
    && (if m.pos <= a then f.item.key <= key else b <= m.pos && f.item.key >= key)
    && (m.hi <= a || b <= m.lo
        || (b <= m.pos && m.lo <= a && if f.left == null then m == p else f.left.lo <= a && b <= f.left.hi)
        || (m.pos <= a && b <= m.hi && if f.right == null then m == p else f.right.lo <= a && b <= f.right.hi))
  }

  /** The pointer n, reached from p, is all of the tree that lies within (a, b). */
  ghost predicate Slot(root: Node?, h: Linked, p: Node?, n: Node?, a: real, b: real, key: nat) {
    && a < b && (n != null ==> n in h && n.lo == a && n.hi == b)
    && (root != null ==> root.lo <= a && b <= root.hi)
    && (p == null ==> n == root)
    && (p != null ==> p in h && n == if h[p].item.key > key then h[p].left else h[p].right)
    && (p != null && n == null ==> p.lo <= a && b <= p.hi && if h[p].item.key > key then b <= p.pos else p.pos <= a)
    && (forall m :: m in h && m !in Below(h, n) ==> Aside(h, p, a, b, key, m))
  }

  /** The interval of the pointer that the way down takes at n. */
  ghost function NextLo(h: Linked, n: Node, key: nat): real
    requires n in h
  {
    var c := if h[n].item.key > key then h[n].left else h[n].right;
    if c != null then c.lo else if h[n].item.key > key then n.lo else n.pos
  }

  ghost function NextHi(h: Linked, n: Node, key: nat): real
    requires n in h
  {
    var c := if h[n].item.key > key then h[n].left else h[n].right;
    if c != null then c.hi else if h[n].item.key > key then n.pos else n.hi
  }

  lemma SlotStep(root: Node?, h: Linked, p: Node?, n: Node, key: nat)
    requires Shaped(root, h) && Slot(root, h, p, n, n.lo, n.hi, key)
    ensures var c := if h[n].item.key > key then h[n].left else h[n].right;
            && Slot(root, h, n, c, NextLo(h, n, key), NextHi(h, n, key), key)
            && |Below(h, c)| < |Below(h, n)|
  {
    var c := if h[n].item.key > key then h[n].left else h[n].right;
    assert Links(root, h, n);
    Descends(root, h, n, c);
    if c != null {
      assert Links(root, h, c);
    }
    forall m | m in h && m !in Below(h, c) ensures Aside(h, n, NextLo(h, n, key), NextHi(h, n, key), key, m) {
      StepAside(root, h, p, n, key, m);
    }
    hide Shaped, Aside;
  }

  lemma StepAside(root: Node?, h: Linked, p: Node?, n: Node, key: nat, m: Node)
    requires Shaped(root, h) && n in h && m in h
    requires m !in Below(h, if h[n].item.key > key then h[n].left else h[n].right)
    requires m !in Below(h, n) ==> Aside(h, p, n.lo, n.hi, key, m) && (m == p ==> n == h[m].left || n == h[m].right)
    ensures Aside(h, n, NextLo(h, n, key), NextHi(h, n, key), key, m)
  {
    assert Links(root, h, n) && Links(root, h, m);
    if m != n {
      assert Pair(h, n, m) && Pair(h, m, n);
    }
    hide Shaped;
  }

  /** The tree with x put into the empty place below p. */
  ghost function Attached(h: Linked, p: Node?, x: Node, it: Item): Linked {
    var g := h[x := Fields(it, null, null, p)];
    if p == null || p !in h then g
    else if h[p].item.key > it.key then g[p := h[p].(left := x)]
    else g[p := h[p].(right := x)]
  }

  lemma AttachedShape(root: Node?, h: Linked, p: Node?, x: Node, it: Item)
    requires Shaped(root, h) && x !in h && Slot(root, h, p, null, x.lo, x.hi, it.key) && x.pos == (x.lo + x.hi) / 2.0
    ensures Shaped(if p == null then x else root, Attached(h, p, x, it))
  {
    var g, r := Attached(h, p, x, it), if p == null then x else root;
    forall m | m in g ensures Links(r, g, m) && Over(r, m.pos) {
      AttachedLinks(root, h, p, x, it, m);
    }
    forall m, y | m in g && y in g ensures Pair(g, m, y) {
      AttachedPair(root, h, p, x, it, m, y);
    }
    hide Pair, Links;
  }

  lemma AttachedLinks(root: Node?, h: Linked, p: Node?, x: Node, it: Item, m: Node)
    requires Shaped(root, h) && x !in h && Slot(root, h, p, null, x.lo, x.hi, it.key) && x.pos == (x.lo + x.hi) / 2.0
    requires m in Attached(h, p, x, it)
    ensures var r := if p == null then x else root; Links(r, Attached(h, p, x, it), m) && Over(r, m.pos)
  {
    SlotNode(root, h, p, x, it);
    if m == x {
      assert p != null ==> Over(root, p.pos);
      hide Shaped, Slot;
      NewLinks(root, h, p, x, it);
    } else {
      assert Links(root, h, m) && Over(root, m.pos);
      hide Shaped, Slot;
      if m == p {
        ParentLinks(root, h, p, x, it);
      } else {
        OtherLinks(root, h, p, x, it, m);
      }
    }
  }

  lemma NewLinks(root: Node?, h: Linked, p: Node?, x: Node, it: Item)
    requires x !in h && x.lo < x.hi && x.pos == (x.lo + x.hi) / 2.0 && (p == null <==> root == null)
    requires (p != null ==> p in h) && (root != null ==> root in h && root.lo <= x.lo && x.hi <= root.hi)
    ensures var r := if p == null then x else root; Links(r, Attached(h, p, x, it), x) && Over(r, x.pos)
  {
  }

  lemma ParentLinks(root: Node?, h: Linked, p: Node, x: Node, it: Item)
    requires p in h && x !in h && Links(root, h, p)
    requires p.lo <= x.lo && x.hi <= p.hi && if h[p].item.key > it.key then x.hi <= p.pos else p.pos <= x.lo
    requires null == if h[p].item.key > it.key then h[p].left else h[p].right
    ensures Links(root, Attached(h, p, x, it), p)
  {
    var g := Attached(h, p, x, it);
    assert forall k :: k in h ==> k in g && g[k].parent == h[k].parent;
    assert g[x] == Fields(it, null, null, p);
    assert g[p] == if h[p].item.key > it.key then h[p].(left := x) else h[p].(right := x);
    assert p != root ==> h[p].parent != null && (h[p].parent != p ==> g[h[p].parent] == h[h[p].parent]);
    hide Attached;
  }

  lemma SlotNode(root: Node?, h: Linked, p: Node?, x: Node, it: Item)
    requires Shaped(root, h) && Slot(root, h, p, null, x.lo, x.hi, it.key)
    ensures p == null <==> root == null
    ensures p != null ==> p in h && Links(root, h, p) && null == if h[p].item.key > it.key then h[p].left else h[p].right
    ensures p != null ==> p.lo <= x.lo && x.hi <= p.hi && if h[p].item.key > it.key then x.hi <= p.pos else p.pos <= x.lo
    ensures x.lo < x.hi && (root != null ==> root.lo <= x.lo && x.hi <= root.hi) && (root == null ==> h == map[])
  {
  }

  lemma OtherLinks(root: Node, h: Linked, p: Node, x: Node, it: Item, m: Node)
    requires p in h && x !in h && m in h && m != p && Links(root, h, m)
    requires null == if h[p].item.key > it.key then h[p].left else h[p].right
    ensures Links(root, Attached(h, p, x, it), m)
  {
    var g := Attached(h, p, x, it);
    assert g[m] == h[m];
    assert forall k :: k in h ==> k in g && g[k].parent == h[k].parent;
    assert m != root ==> g[h[m].parent].left == m || g[h[m].parent].right == m;
    hide Attached;
  }

  lemma AttachedPair(root: Node?, h: Linked, p: Node?, x: Node, it: Item, m: Node, y: Node)
    requires Shaped(root, h) && x !in h && Slot(root, h, p, null, x.lo, x.hi, it.key) && x.pos == (x.lo + x.hi) / 2.0
    requires m in Attached(h, p, x, it) && y in Attached(h, p, x, it)
    ensures Pair(Attached(h, p, x, it), m, y)
  {
    SlotNode(root, h, p, x, it);
    if m != x && y != x {
      assert Pair(h, m, y);
      hide Shaped, Slot;
      OldPair(h, p, x, it, m, y);
    } else if m != y {
      var z := if m == x then y else m;
      assert Aside(h, p, x.lo, x.hi, it.key, z);
      assert Links(root, h, z);
      hide Shaped, Slot;
      NewPair(root, h, p, x, it, z);
    }
  }

  lemma OldPair(h: Linked, p: Node?, x: Node, it: Item, m: Node, y: Node)
    requires m in h && y in h && x !in h && Pair(h, m, y)
    requires p != null ==> p in h && null == if h[p].item.key > it.key then h[p].left else h[p].right
    ensures Pair(Attached(h, p, x, it), m, y)
  {
  }

  lemma NewPair(root: Node?, h: Linked, p: Node?, x: Node, it: Item, z: Node)
    requires x !in h && z in h && Links(root, h, z) && Aside(h, p, x.lo, x.hi, it.key, z)
    requires x.lo < x.hi && x.pos == (x.lo + x.hi) / 2.0
    requires p != null ==> p in h && null == if h[p].item.key > it.key then h[p].left else h[p].right
    requires p != null ==> p.lo <= x.lo && x.hi <= p.hi && if h[p].item.key > it.key then x.hi <= p.pos else p.pos <= x.lo
    ensures Pair(Attached(h, p, x, it), x, z) && Pair(Attached(h, p, x, it), z, x)
  {
    var g := Attached(h, p, x, it);
    assert g[x] == Fields(it, null, null, p);
    assert g[z] == if z != p then h[z] else if h[p].item.key > it.key then h[p].(left := x) else h[p].(right := x);
    hide Attached;
  }

  lemma AttachedItems(h: Linked, p: Node?, x: Node, it: Item, items: multiset<Item>)
    requires Counted(h, items) && x !in h
    ensures Counted(Attached(h, p, x, it), items + multiset{it})
  {
    var g := Attached(h, p, x, it);
    assert x in g && g[x].item == it && forall m :: m in h ==> m in g && g[m].item == h[m].item;
    forall i: Item ensures (items + multiset{it})[i] == |With(g, i)| {
      assert items[i] == |With(h, i)|;
      hide Counted, Attached;
      assert With(g, i) - {x} == With(h, i);
      CountSplit(g, x, i);
    }
  }

  // ----- Removing -----

  /** The child that takes the place of a node with at most one. */
  function Heir(f: Fields): Node? {
    if f.left != null then f.left else f.right
  }

  /** The tree with n cut out, its only child in its place. */
  ghost function Spliced(h: Linked, n: Node): Linked
    requires n in h
  {
    var c, p := Heir(h[n]), h[n].parent;
    map m | m in h && m != n ::
      Fields(h[m].item,
             if m == p && h[m].left == n then c else h[m].left,
             if m == p && h[m].left != n then c else h[m].right,
             if m == c then p else h[m].parent)
  }

  lemma SplicedKeys(h: Linked, n: Node)
    requires n in h
    ensures Spliced(h, n).Keys == h.Keys - {n}
  {
  }

  /** What splicing does to each node that stays. */
  lemma SplicedAt(root: Node?, h: Linked, n: Node, m: Node)
    requires Shaped(root, h) && n in h && m in h && m != n
    ensures var g, c, p := Spliced(h, n), Heir(h[n]), h[n].parent;
            && m in g && g.Keys == h.Keys - {n}
            && g[m].item == h[m].item && g[m].parent == (if m == c then p else h[m].parent)
            && g[m].left == (if m == p && h[m].left == n then c else h[m].left)
            && g[m].right == (if m == p && h[m].left != n then c else h[m].right)
  {
  }

  /** No node but its parent points to n as a child, and none but its children as a parent. */
  lemma OnlyParentPoints(root: Node?, h: Linked, n: Node, m: Node)
    requires Shaped(root, h) && n in h && m in h && m != n
    ensures h[m].left == n || h[m].right == n ==> m == h[n].parent
    ensures h[m].parent == n ==> h[n].left == m || h[n].right == m
    ensures !(h[m].left == n && h[m].right == n)
  {
    assert Links(root, h, n) && Links(root, h, m);
  }

  lemma AroundSplice(root: Node?, h: Linked, n: Node)
    requires Shaped(root, h) && n in h
    ensures var c, p := Heir(h[n]), h[n].parent;
            && (c != null ==> c in h && c != n && c != p && h[c].parent == n)
            && (p != null ==> p in h && p != n && (h[p].left == n || h[p].right == n))
            && (n == root <==> p == null)
  {
    assert Links(root, h, n);
    if Heir(h[n]) != null {
      assert Links(root, h, Heir(h[n]));
    }
    if h[n].parent != null {
      assert Links(root, h, h[n].parent);
    }
  }

  lemma SplicedLinks(root: Node?, h: Linked, n: Node, m: Node)
    requires Shaped(root, h) && n in h && (h[n].left == null || h[n].right == null)
    requires m in h && m != n
    ensures var g, r := Spliced(h, n), if root == n then Heir(h[n]) else root;
            m in g && r != null && Links(r, g, m) && Over(r, m.pos)
  {
    var g, c, p := Spliced(h, n), Heir(h[n]), h[n].parent;
    assert Links(root, h, n) && Links(root, h, m) && Pair(h, n, m);
    OnlyParentPoints(root, h, n, m);
    SplicedAt(root, h, n, m);
    var f := h[m];
    if f.left != null && f.left != n {
      SplicedAt(root, h, n, f.left);
    }
    if f.right != null && f.right != n {
      SplicedAt(root, h, n, f.right);
    }
    if f.parent != null && f.parent != n {
      SplicedAt(root, h, n, f.parent);
    }
    if p != null {
      assert Links(root, h, p);
      SplicedAt(root, h, n, p);
      OnlyParentPoints(root, h, n, p);
    }
    if c != null {
      assert Links(root, h, c);
      SplicedAt(root, h, n, c);
    }
    assert Over(root, m.pos);
    hide Shaped, Spliced;
  }

  lemma SplicedPair(root: Node?, h: Linked, n: Node, m: Node, y: Node)
    requires Shaped(root, h) && n in h && (h[n].left == null || h[n].right == null)
    requires m in h && y in h && m != n && y != n
    ensures m in Spliced(h, n) && y in Spliced(h, n) && Pair(Spliced(h, n), m, y)
  {
    SplicedAt(root, h, n, m);
    SplicedAt(root, h, n, y);
    OnlyParentPoints(root, h, n, m);
    assert Pair(h, m, y) && Pair(h, n, y);
    assert Links(root, h, n) && Links(root, h, m);
    hide Shaped, Spliced;
  }

  lemma SplicedShape(root: Node?, h: Linked, n: Node)
    requires Shaped(root, h) && n in h && (h[n].left == null || h[n].right == null)
    ensures Shaped(if root == n then Heir(h[n]) else root, Spliced(h, n))
  {
    var g, r := Spliced(h, n), if root == n then Heir(h[n]) else root;
    forall m | m in g ensures r != null && Links(r, g, m) && Over(r, m.pos) {
      SplicedLinks(root, h, n, m);
    }
    forall m, y | m in g && y in g ensures Pair(g, m, y) {
      SplicedPair(root, h, n, m, y);
    }
    assert Links(root, h, n);
    if root != n {
      SplicedAt(root, h, n, root);
    } else if r != null {
      SplicedAt(root, h, n, r);
    }
    hide Pair, Links;
  }

  lemma SplicedItems(root: Node?, h: Linked, n: Node, items: multiset<Item>)
    requires Shaped(root, h) && Counted(h, items) && n in h
    ensures h[n].item in items && Counted(Spliced(h, n), items - multiset{h[n].item})
  {
    var g, it := Spliced(h, n), h[n].item;
    assert n in With(h, it);
    forall m | m in h && m != n ensures m in g && g[m].item == h[m].item {
      SplicedAt(root, h, n, m);
    }
    forall i: Item ensures (items - multiset{it})[i] == |With(g, i)| {
      assert With(g, i) == With(h, i) - {n} by {
        hide Shaped, Counted;
      }
      assert items[i] == |With(h, i)|;
      CountSplit(h, n, i);
      hide *;
    }
  }

  // ----- Replacing a node by its successor -----

  /** m comes right after n. */
  ghost predicate Successor(h: Linked, n: Node, m: Node) {
    && n in h && m in h && n.pos < m.pos && h[m].left == null
    && forall x :: x in h && x.pos > n.pos && x != m ==> x.pos > m.pos
  }

  /** All that comes after n is below m or after it. */
  ghost predicate Towards(h: Linked, n: Node, m: Node) {
    && n in h && m in h && n.pos <= m.lo && m.lo < m.pos
    && forall x :: x in h && x.pos > n.pos ==> Over(m, x.pos) || x.pos > m.pos
  }

  lemma FirstTowards(root: Node?, h: Linked, n: Node)
    requires Shaped(root, h) && n in h && h[n].right != null
    ensures Towards(h, n, h[n].right)
  {
    assert Links(root, h, n) && Links(root, h, h[n].right);
    forall x | x in h && x.pos > n.pos ensures Over(h[n].right, x.pos) || x.pos > h[n].right.pos {
      assert Pair(h, n, x);
    }
  }

  lemma NextTowards(root: Node?, h: Linked, n: Node, m: Node)
    requires Shaped(root, h) && Towards(h, n, m)
    ensures if h[m].left == null then Successor(h, n, m)
            else Towards(h, n, h[m].left) && |Below(h, h[m].left)| < |Below(h, m)|
  {
    assert Links(root, h, m);
    Descends(root, h, m, h[m].left);
    forall x | x in h && x.pos > n.pos && x != m
      ensures x.pos > m.pos || (h[m].left != null && Over(h[m].left, x.pos))
    {
      assert Pair(h, m, x);
    }
    if h[m].left != null {
      assert Links(root, h, h[m].left);
    }
  }

  ghost function Replaced(h: Linked, n: Node, it: Item): Linked
    requires n in h
  {
    h[n := h[n].(item := it)]
  }

  lemma ReplacedShape(root: Node?, h: Linked, n: Node, m: Node)
    requires Shaped(root, h) && Successor(h, n, m)
    ensures Shaped(root, Replaced(h, n, h[m].item))
  {
    var g := Replaced(h, n, h[m].item);
    forall k | k in g ensures Links(root, g, k) {
      ReplacedLinks(root, h, n, h[m].item, k);
    }
    forall k, y | k in g && y in g ensures Pair(g, k, y) {
      ReplacedPair(root, h, n, m, k, y);
    }
    hide Links, Pair, Successor;
    assert g.Keys == h.Keys;
  }

  lemma ReplacedLinks(root: Node?, h: Linked, n: Node, it: Item, k: Node)
    requires Shaped(root, h) && n in h && k in h
    ensures Links(root, Replaced(h, n, it), k)
  {
    assert Links(root, h, k);
    hide Shaped;
  }

  lemma ReplacedPair(root: Node?, h: Linked, n: Node, m: Node, k: Node, y: Node)
    requires Shaped(root, h) && Successor(h, n, m) && k in h && y in h
    ensures Pair(Replaced(h, n, h[m].item), k, y)
  {
    assert Pair(h, k, y) && Pair(h, n, m) && Pair(h, k, n) && Pair(h, m, y) && Pair(h, k, m);
    hide Shaped;
  }

  /** A snapshot that differs in one item only. */
  lemma ReplacedIs(h: Linked, r: Linked, n: Node, it: Item)
    requires n in h && r.Keys == h.Keys && forall k :: k in h ==> r[k] == if k == n then h[n].(item := it) else h[k]
    ensures r == Replaced(h, n, it)
  {
  }

  lemma ReplacedItems(h: Linked, n: Node, it: Item, items: multiset<Item>)
    requires Counted(h, items) && n in h
    ensures h[n].item in items
    ensures Counted(Replaced(h, n, it), items - multiset{h[n].item} + multiset{it})
  {
    assert n in With(h, h[n].item);
    assert items[h[n].item] == |With(h, h[n].item)|;
    forall i: Item ensures (items - multiset{h[n].item} + multiset{it})[i] == |With(Replaced(h, n, it), i)| {
      assert items[i] == |With(h, i)|;
      ReplacedCount(h, n, it, i);
      hide With, Replaced, Counted;
    }
  }

  lemma ReplacedCount(h: Linked, n: Node, it: Item, i: Item)
    requires n in h
    ensures |With(Replaced(h, n, it), i)| ==
            |With(h, i)| - (if i == h[n].item then 1 else 0) + (if i == it then 1 else 0)
  {
    var g := Replaced(h, n, it);
    assert With(g, i) - {n} == With(h, i) - {n};
    CountSplit(h, n, i);
    CountSplit(g, n, i);
    hide With;
  }

  // ----- The tree -----

  class Tree {
    var root: Node?
    ghost var nodes: set<Node>
    ghost var items: multiset<Item>

    ghost function Snap(): Linked
      reads this, nodes
    {
      map n | n in nodes :: FieldsOf(n)
    }

    ghost function FieldsOf(n: Node): Fields
      reads n
    {
      Fields(Item(n.key, n.value), n.left, n.right, n.parent)
    }

    ghost predicate Valid()
      reads this, nodes
    {
      Shaped(root, Snap()) && Counted(Snap(), items)
    }

    constructor ()
      ensures Valid() && items == multiset{} && nodes == {}
    {
      root, nodes, items := null, {}, multiset{};
    }

    method FindNode(key: nat, greater: bool) returns (r: Node?)
      requires Valid()
      ensures Sought(Snap(), r, key, greater)
    {
      var n := root;
      var b: Node? := null;
      ghost var h := Snap();
      while n != null && n.key != key
        invariant Searched(h, n, b, key, greater)
        decreases |Below(h, n)|
      {
        SearchStep(root, h, n, b, key, greater);
        hide Shaped, Searched, Below;
        if greater && n.key > key {
          b := n;
        }
        n := if n.key > key then n.left else n.right;
      }
      r := if n != null then n else b;
    }

    /** Adds a node unless there is no memory for one. */
    method Add(key: nat, value: nat, nomem: bool) returns (ok: bool)
      requires Valid()
      modifies this, nodes
      ensures Valid() && ok == !nomem && fresh(nodes - old(nodes))
      ensures items == if ok then old(items) + multiset{Item(key, value)} else old(items)
    {
      hide Slot, Attached, Counted, Shaped;
      ghost var h := Snap();
      ghost var a, b;
      var p;
      p, a, b := Place(key);
      if nomem {
        return false;
      }
      var x := new Node(p, value, key, a, b);
      AttachReady(h, p, x, a, b);
      Attach(p, x);
      return true;
    }

    lemma AttachReady(h: Linked, p: Node?, x: Node, a: real, b: real)
      requires Shaped(root, h) && Counted(h, items) && x !in h && Slot(root, h, p, null, a, b, x.key)
      requires x.lo == a && x.hi == b && x.pos == (a + b) / 2.0
      ensures p != null ==> p in h
      ensures Shaped(if p == null then x else root, Attached(h, p, x, Item(x.key, x.value)))
      ensures Counted(Attached(h, p, x, Item(x.key, x.value)), items + multiset{Item(x.key, x.value)})
    {
      AttachedShape(root, h, p, x, Item(x.key, x.value));
      AttachedItems(h, p, x, Item(x.key, x.value), items);
      hide Shaped, Counted, Attached;
    }

    method Attach(p: Node?, x: Node)
      requires x !in nodes && (p != null ==> p in nodes) && x.parent == p && x.left == null && x.right == null
      modifies this, p
      ensures nodes == old(nodes) + {x} && items == old(items) + multiset{Item(x.key, x.value)}
      ensures root == if p == null then x else old(root)
      ensures Snap() == Attached(old(Snap()), p, x, Item(x.key, x.value))
    {
      if p == null {
        root := x;
      } else if p.key > x.key {
        p.left := x;
      } else {
        p.right := x;
      }
      nodes := nodes + {x};
      items := items + multiset{Item(x.key, x.value)};
    }

    /** Walks down to the node whose empty child a node with this key becomes. */
    method Place(key: nat) returns (p: Node?, ghost a: real, ghost b: real)
      requires Valid()
      ensures Slot(root, Snap(), p, null, a, b, key)
    {
      p := null;
      var n := root;
      ghost var h := Snap();
      a, b := if root != null then root.lo else 0.0, if root != null then root.hi else 1.0;
      if root != null {
        assert Links(root, h, root);
      }
      while n != null
        invariant Slot(root, h, p, n, a, b, key)
        decreases |Below(h, n)|
      {
        SlotStep(root, h, p, n, key);
        hide Shaped, Below;
        a, b := NextLo(h, n, key), NextHi(h, n, key);
        p := n;
        n := if n.key > key then n.left else n.right;
      }
    }

    /** Removes a node: cut out if it has at most one child, else overwritten by its successor, which goes instead. */
    method Remove(n: Node)
      requires Valid() && n in nodes
      modifies this, nodes
      ensures Valid() && nodes <= old(nodes)
      ensures old(Item(n.key, n.value)) in old(items)
      ensures items == old(items) - multiset{old(Item(n.key, n.value))}
      decreases n.left != null && n.right != null
    {
      if n.left != null && n.right != null {
        var m := Supersede(n);
        hide *;
        Remove(m);
      } else {
        SplicedShape(root, Snap(), n);
        SplicedItems(root, Snap(), n, items);
        AroundSplice(root, Snap(), n);
        hide Shaped, Counted, Spliced;
        Splice(n);
      }
    }

    /** Copies the successor's item over the node's. */
    method Supersede(n: Node) returns (m: Node)
      requires Valid() && n in nodes && n.right != null
      modifies this`items, n`key, n`value
      ensures Valid() && m in nodes && m.left == null
      ensures old(Item(n.key, n.value)) in old(items)
      ensures items == old(items) - multiset{old(Item(n.key, n.value))} + multiset{Item(m.key, m.value)}
    {
      m := Leftmost(n);
      ReplacedShape(root, Snap(), n, m);
      ReplacedItems(Snap(), n, Item(m.key, m.value), items);
      assert n != m && m in nodes && m.left == null;
      hide Shaped, Counted, Replaced, Successor;
      Overwrite(n, m);
    }

    method Leftmost(n: Node) returns (m: Node)
      requires Valid() && n in nodes && n.right != null
      ensures Successor(Snap(), n, m)
    {
      m := n.right;
      ghost var h := Snap();
      FirstTowards(root, h, n);
      while m.left != null
        invariant Towards(h, n, m)
        decreases |Below(h, m)|
      {
        NextTowards(root, h, n, m);
        hide Shaped, Below;
        m := m.left;
      }
      NextTowards(root, h, n, m);
    }

    method Overwrite(n: Node, m: Node)
      requires n in nodes && m in nodes && n != m
      modifies this`items, n`key, n`value
      ensures Snap() == Replaced(old(Snap()), n, Item(m.key, m.value))
      ensures m.left == old(m.left) && m.right == old(m.right) && Item(m.key, m.value) == old(Item(m.key, m.value))
      ensures items == old(items) - multiset{old(Item(n.key, n.value))} + multiset{Item(m.key, m.value)}
    {
      ghost var h, it := Snap(), Item(m.key, m.value);
      hide Replaced;
      items := items - multiset{Item(n.key, n.value)} + multiset{it};
      n.value := m.value;
      n.key := m.key;
      forall k | k in nodes ensures FieldsOf(k) == if k == n then h[n].(item := it) else h[k] {
      }
      ReplacedIs(h, Snap(), n, it);
    }

    method Splice(n: Node)
      requires n in nodes && (root == n <==> n.parent == null) && (n.parent != null ==> n.parent in nodes && n.parent != n)
      requires var c := Heir(Snap()[n]); c != null ==> c in nodes && c != n && c != n.parent
      modifies this, nodes
      ensures nodes == old(nodes) - {n} && items == old(items) - multiset{old(Item(n.key, n.value))}
      ensures root == if old(root) == n then old(Heir(Snap()[n])) else old(root)
      ensures Snap() == Spliced(old(Snap()), n)
    {
      var c := if n.left != null then n.left else n.right;
      hide Spliced, Heir;
      Relink(n, c);
      SplicedKeys(old(Snap()), n);
      nodes := nodes - {n};
      items := items - multiset{Item(n.key, n.value)};
    }

    /** Lets n's parent and n's child point past it. */
    method Relink(n: Node, c: Node?)
      requires n in nodes && (c != null ==> c in nodes && c != n && c != n.parent) && c == Heir(Snap()[n])
      requires (root == n <==> n.parent == null) && (n.parent != null ==> n.parent in nodes && n.parent != n)
      modifies this`root, n.parent, c
      ensures root == if old(root) == n then c else old(root)
      ensures forall m :: m in nodes && m != n ==> FieldsOf(m) == old(Spliced(Snap(), n))[m]
    {
      if root == n {
        root := c;
      } else if n.parent.left == n {
        n.parent.left := c;
      } else {
        n.parent.right := c;
      }
      if c != null {
        c.parent := n.parent;
      }
    }

    /** Takes out the value of a key, or if asked for, of the least key not below it. */
    method GetRm(key: nat, greater: bool) returns (found: bool, value: nat)
      requires Valid()
      modifies this, nodes
      ensures Valid() && nodes <= old(nodes)
      ensures found <==> exists it :: it in old(items) && if greater then it.key >= key else it.key == key
      ensures !found ==> items == old(items)
      ensures found ==>
                exists it :: it in old(items) && it.value == value && items == old(items) - multiset{it}
                             && (it.key == key || (greater && it.key > key))
                             && forall other :: other in old(items) && other.key >= key ==> it.key <= other.key
    {
      var n := FindNode(key, greater);
      SoughtItem(Snap(), n, key, greater, items);
      if n == null {
        return false, 0;
      }
      value := n.value;
      ghost var it := Item(n.key, n.value);
      assert n in nodes;
      assert it in items && it.value == value && (it.key == key || (greater && it.key > key));
      hide *;
      Remove(n);
      found := true;
    }
  }

  /** What the search finds, in terms of the items. */
  lemma SoughtItem(h: Linked, r: Node?, key: nat, greater: bool, items: multiset<Item>)
    requires Counted(h, items) && Sought(h, r, key, greater)
    ensures r == null ==> forall it :: it in items ==> if greater then it.key < key else it.key != key
    ensures r != null ==>
              && r in h && h[r].item in items
              && forall other :: other in items && other.key >= key ==> h[r].item.key <= other.key
  {
    forall it | it in items ensures exists x :: x in h && h[x].item == it {
      assert |With(h, it)| > 0;
      var x :| x in With(h, it);
    }
    if r != null {
      assert r in With(h, h[r].item);
    }
  }
}
