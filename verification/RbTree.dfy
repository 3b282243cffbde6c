/** lib/rbtree.c and include/rbtree.h: intrusive red-black trees with parent pointers.

    Nodes are addressed structures in a memory, as in C.  Every operation works on the
    variables `mem`, the rb_node at every address, and `root`, the pointer in struct
    rb_root; pointers are compared, followed and overwritten as the code does.  `Shaped`
    says which tree the linked nodes represent.  The field-writing steps (rotations,
    recolourings, linking, splicing) are each proved once against that tree, seen from a
    position `Plug(c, t)`; the fix-up loops then reason about trees and contexts only.
 */
module RbTree {
  import opened Machine
  import opened Sequences
  import opened RbTheory

  /** struct rb_node, with the two parts of rb_parent_color side by side. */
  datatype RbNode = RbNode(parent: Ptr, left: Ptr, right: Ptr, color: Color)

  type Memory = map<Addr, RbNode>

  /** rb_empty_node: the word holding parent and colour is the node's own address. */
  predicate IsEmpty(mem: Memory, n: Addr)
  {
    n in mem && mem[n].parent == n && mem[n].color == Red
  }

  // ----- the linked nodes represent a tree -----

  ghost function Ref(t: Tree<Addr>): Ptr
  {
    if t.Leaf? then 0 else t.node
  }

  ghost predicate Linked(h: Memory, t: Tree<Addr>, p: Ptr)
  {
    t.Node? ==>
      && t.node in h && h[t.node] == RbNode(p, Ref(t.left), Ref(t.right), t.color)
      && Linked(h, t.left, t.node) && Linked(h, t.right, t.node)
  }

  /** Parent of the hole of `c`, when `c` itself hangs below `top`. */
  ghost function CtxRef(c: Ctx<Addr>, top: Ptr): Ptr
  {
    if c.Top? then top else c.node
  }

  ghost predicate CtxLinked(h: Memory, c: Ctx<Addr>, hole: Ptr, top: Ptr)
  {
    !c.Top? ==>
      && c.node in h
      && h[c.node] == (if c.LeftOf? then RbNode(CtxRef(c.up, top), hole, Ref(c.sib), c.color)
                       else RbNode(CtxRef(c.up, top), Ref(c.sib), hole, c.color))
      && Linked(h, c.sib, c.node) && CtxLinked(h, c.up, c.node, top)
  }

  ghost function RootRef(c: Ctx<Addr>, hole: Ptr): Ptr
  {
    if c.Top? then hole else RootRef(c.up, c.node)
  }

  lemma {:induction false} PlugLinked(h: Memory, c: Ctx<Addr>, t: Tree<Addr>, top: Ptr)
    ensures Linked(h, Plug(c, t), top) <==> CtxLinked(h, c, Ref(t), top) && Linked(h, t, CtxRef(c, top))
    ensures Ref(Plug(c, t)) == RootRef(c, Ref(t))
    decreases c
  {
    match c
    case Top =>
    case LeftOf(up, n, col, s) => PlugLinked(h, up, Node(t, n, col, s), top);
    case RightOf(up, n, col, s) => PlugLinked(h, up, Node(s, n, col, t), top);
  }

  /** A linked subtree stays linked when only the parent of its root changes. */
  lemma {:induction false} KeepTree(h: Memory, h': Memory, t: Tree<Addr>, p: Ptr, q: Ptr)
    requires Linked(h, t, p) && Distinct(t)
    requires forall n :: n in Nodes(t) && n != Ref(t) && n in h ==> n in h' && h'[n] == h[n]
    requires t.Node? ==> t.node in h' && h'[t.node] == h[t.node].(parent := q)
    ensures Linked(h', t, q)
  {
    if t.Node? {
      KeepTree(h, h', t.left, t.node, t.node);
      KeepTree(h, h', t.right, t.node, t.node);
    }
  }

  /** A linked context stays linked when only the link to its hole changes. */
  lemma {:induction false} KeepCtx(h: Memory, h': Memory, c: Ctx<Addr>,
                                      was: Ptr, now: Ptr, top: Ptr)
    requires CtxLinked(h, c, was, top) && CtxDistinct(c)
    requires forall n :: n in CtxNodes(c) && n != CtxRef(c, 0) && n in h ==> n in h' && h'[n] == h[n]
    requires c.LeftOf? ==> c.node in h' && h'[c.node] == h[c.node].(left := now)
    requires c.RightOf? ==> c.node in h' && h'[c.node] == h[c.node].(right := now)
    ensures CtxLinked(h', c, now, top)
  {
    if !c.Top? {
      assert c.node !in Nodes(c.sib);
      KeepTree(h, h', c.sib, c.node, c.node);
      KeepCtx(h, h', c.up, c.node, c.node, top);
    }
  }

  /** What the linked nodes represent, with `root` the pointer held by the rb_root. */
  ghost predicate Shaped(h: Memory, t: Tree<Addr>, root: Ptr)
  {
    Linked(h, t, 0) && Distinct(t) && root == Ref(t)
  }

  /** A tree seen from one of its positions, and back. */
  lemma {:induction false} Position(h: Memory, c: Ctx<Addr>, t: Tree<Addr>, root: Ptr)
    ensures Shaped(h, Plug(c, t), root) <==>
      && CtxLinked(h, c, Ref(t), 0) && Linked(h, t, CtxRef(c, 0))
      && CtxDistinct(c) && Distinct(t) && CtxNodes(c) !! Nodes(t)
      && root == RootRef(c, Ref(t))
    ensures Nodes(Plug(c, t)) == CtxNodes(c) + Nodes(t)
  {
    PlugLinked(h, c, t, 0);
    PlugDistinct(c, t);
  }

  /** The link from above to the hole of `c` now leads to `now`. */
  ghost predicate Relinked(h: Memory, h': Memory, c: Ctx<Addr>, now: Ptr)
  {
    && (c.LeftOf? && c.node in h ==> c.node in h' && h'[c.node] == h[c.node].(left := now))
    && (c.RightOf? && c.node in h ==> c.node in h' && h'[c.node] == h[c.node].(right := now))
  }

  ghost predicate SameExcept(h: Memory, h': Memory, ns: set<Ptr>)
  {
    forall x :: x in h && x !in ns ==> x in h' && h'[x] == h[x]
  }

  lemma {:induction false} Recolored(h: Memory, h': Memory, c: Ctx<Addr>, t: Tree<Addr>, col: Color, root: Ptr)
    requires Shaped(h, Plug(c, t), root) && t.Node?
    requires SameExcept(h, h', {t.node}) && t.node in h && t.node in h' && h'[t.node] == h[t.node].(color := col)
    ensures Shaped(h', Plug(c, t.(color := col)), root)
    ensures Nodes(Plug(c, t.(color := col))) == Nodes(Plug(c, t))
  {
    Position(h, c, t, root);
    KeepTree(h, h', t.left, t.node, t.node);
    KeepTree(h, h', t.right, t.node, t.node);
    KeepCtx(h, h', c, t.node, t.node, 0);
    Position(h', c, t.(color := col), root);
  }

  lemma {:induction false} LeftLinked(h: Memory, t: Tree<Addr>, p: Ptr)
    requires t.Node? && t.right.Node? && t.node in h && t.right.node in h
    requires Linked(h, t.left, t.node) && Linked(h, t.right.left, t.node) && Linked(h, t.right.right, t.right.node)
    requires h[t.node] == RbNode(t.right.node, Ref(t.left), Ref(t.right.left), t.color)
    requires h[t.right.node] == RbNode(p, t.node, Ref(t.right.right), t.right.color)
    ensures Linked(h, RotatedLeft(t), p)
  {
    assert Linked(h, RotatedLeft(t).left, t.right.node);
  }

  lemma {:induction false} RightLinked(h: Memory, t: Tree<Addr>, p: Ptr)
    requires t.Node? && t.left.Node? && t.node in h && t.left.node in h
    requires Linked(h, t.right, t.node) && Linked(h, t.left.right, t.node) && Linked(h, t.left.left, t.left.node)
    requires h[t.node] == RbNode(t.left.node, Ref(t.left.right), Ref(t.right), t.color)
    requires h[t.left.node] == RbNode(p, Ref(t.left.left), t.node, t.left.color)
    ensures Linked(h, RotatedRight(t), p)
  {
    assert Linked(h, RotatedRight(t).right, t.left.node);
  }

  lemma {:induction false} LeftRotation(h: Memory, h': Memory, c: Ctx<Addr>, t: Tree<Addr>, root: Ptr)
    requires Shaped(h, Plug(c, t), root) && t.Node? && t.right.Node?
    requires var (n, r, m) := (t.node, t.right.node, Ref(t.right.left));
      && SameExcept(h, h', {n, r, m, CtxRef(c, 0)}) && n in h' && r in h'
      && h'[n] == RbNode(r, Ref(t.left), m, t.color)
      && h'[r] == RbNode(CtxRef(c, 0), n, Ref(t.right.right), t.right.color)
      && (m != 0 && m in h ==> m in h' && h'[m] == h[m].(parent := n))
      && Relinked(h, h', c, r)
    ensures Shaped(h', Plug(c, RotatedLeft(t)), if c.Top? then t.right.node else root)
    ensures Nodes(Plug(c, RotatedLeft(t))) == Nodes(Plug(c, t)) && Inorder(RotatedLeft(t)) == Inorder(t)
  {
    Position(h, c, t, root);
    var n, r := t.node, t.right.node;
    KeepTree(h, h', t.left, n, n);
    KeepTree(h, h', t.right.left, r, n);
    KeepTree(h, h', t.right.right, r, r);
    KeepCtx(h, h', c, n, r, 0);
    var t' := RotatedLeft(t);
    LeftLinked(h', t, CtxRef(c, 0));
    LeftRotationKeeps(t);
    Position(h', c, t', if c.Top? then r else root);
  }

  lemma {:induction false} RightRotation(h: Memory, h': Memory, c: Ctx<Addr>, t: Tree<Addr>, root: Ptr)
    requires Shaped(h, Plug(c, t), root) && t.Node? && t.left.Node?
    requires var (n, l, m) := (t.node, t.left.node, Ref(t.left.right));
      && SameExcept(h, h', {n, l, m, CtxRef(c, 0)}) && n in h' && l in h'
      && h'[n] == RbNode(l, m, Ref(t.right), t.color)
      && h'[l] == RbNode(CtxRef(c, 0), Ref(t.left.left), n, t.left.color)
      && (m != 0 && m in h ==> m in h' && h'[m] == h[m].(parent := n))
      && Relinked(h, h', c, l)
    ensures Shaped(h', Plug(c, RotatedRight(t)), if c.Top? then t.left.node else root)
    ensures Nodes(Plug(c, RotatedRight(t))) == Nodes(Plug(c, t)) && Inorder(RotatedRight(t)) == Inorder(t)
  {
    Position(h, c, t, root);
    var n, l := t.node, t.left.node;
    KeepTree(h, h', t.right, n, n);
    KeepTree(h, h', t.left.right, l, n);
    KeepTree(h, h', t.left.left, l, l);
    KeepCtx(h, h', c, n, l, 0);
    var t' := RotatedRight(t);
    RightLinked(h', t, CtxRef(c, 0));
    RightRotationKeeps(t);
    Position(h', c, t', if c.Top? then l else root);
  }

  /** A fresh red leaf hung into the hole of `c`. */
  lemma {:induction false} LeafLinked(h: Memory, h': Memory, c: Ctx<Addr>, n: Addr, root: Ptr)
    requires Shaped(h, Plug(c, Leaf), root) && n !in Nodes(Plug(c, Leaf))
    requires SameExcept(h, h', {CtxRef(c, 0), n}) && Relinked(h, h', c, n)
    requires n in h' && h'[n] == RbNode(CtxRef(c, 0), 0, 0, Red)
    ensures Shaped(h', Plug(c, Node(Leaf, n, Red, Leaf)), if c.Top? then n else root)
    ensures Nodes(Plug(c, Node(Leaf, n, Red, Leaf))) == Nodes(Plug(c, Leaf)) + {n}
  {
    Position(h, c, Leaf, root);
    KeepCtx(h, h', c, 0, n, 0);
    var t: Tree<Addr> := Node(Leaf, n, Red, Leaf);
    assert Nodes(t) == {n} && Linked(h', t, CtxRef(c, 0)) && Distinct(t);
    Position(h', c, t, if c.Top? then n else root);
  }

  /** A node with at most one child replaced by that child. */
  lemma {:induction false} ChildRaised(h: Memory, h': Memory, c: Ctx<Addr>, t: Tree<Addr>, child: Tree<Addr>, root: Ptr)
    requires Shaped(h, Plug(c, t), root) && t.Node?
    requires (t.left.Leaf? && child == t.right) || (t.right.Leaf? && child == t.left)
    requires SameExcept(h, h', {t.node, Ref(child), CtxRef(c, 0)}) && Relinked(h, h', c, Ref(child))
    requires child.Node? && child.node in h ==>
      child.node in h' && h'[child.node] == h[child.node].(parent := CtxRef(c, 0))
    ensures Shaped(h', Plug(c, child), if c.Top? then Ref(child) else root)
    ensures Nodes(Plug(c, child)) == Nodes(Plug(c, t)) - {t.node}
  {
    Position(h, c, t, root);
    KeepTree(h, h', child, t.node, CtxRef(c, 0));
    KeepCtx(h, h', c, t.node, Ref(child), 0);
    Position(h', c, child, if c.Top? then Ref(child) else root);
  }

  /** The nodes below the erased one whose fields change. */
  ghost function Touched(c: Ctx<Addr>, u: Tree<Addr>): set<Ptr>
    requires u.Node?
  {
    if c.Top? then {u.node} else {u.node, c.node, Ref(u.right), RootRef(c, u.node)}
  }

  /** Field changes that unhook the successor `u.node`: its right child goes below its
      parent, and the root of the right subtree goes below the successor. */
  ghost predicate Unhooked(h: Memory, h': Memory, c: Ctx<Addr>, u: Tree<Addr>)
    requires c.LeftOf? && u.Node?
  {
    var (n, r, p) := (c.node, Ref(u.right), RootRef(c, u.node));
    && (n in h ==> n in h' && h'[n] == h[n].(left := r, parent := if n == p then u.node else h[n].parent))
    && (p != 0 && p in h && n != p ==> p in h' && h'[p] == h[p].(parent := u.node))
    && (r != 0 && r in h ==> r in h' && h'[r] == h[r].(parent := n))
  }

  /** The successor `u.node` of a node, at the end of the left spine `c` of its right
      subtree, replaced there by its right child. */
  lemma {:induction false} SuccessorTaken(h: Memory, h': Memory, c: Ctx<Addr>, u: Tree<Addr>, top: Addr)
    requires Linked(h, Plug(c, u), top) && Distinct(Plug(c, u)) && u.Node? && u.left.Leaf? && c.LeftOf? && LeftSpine(c)
    requires forall x :: x in Nodes(Plug(c, u)) && x in h && x !in Touched(c, u) ==> x in h' && h'[x] == h[x]
    requires Unhooked(h, h', c, u)
    ensures Linked(h', Plug(c, u.right), u.node) && Distinct(Plug(c, u.right))
    ensures Nodes(Plug(c, u.right)) == Nodes(Plug(c, u)) - {u.node} && u.node in Nodes(Plug(c, u))
    ensures Ref(Plug(c, u.right)) == RootRef(c, u.node) == Ref(Plug(c, u))
  {
    PlugLinked(h, c, u, top);
    PlugDistinct(c, u);
    PlugDistinct(c, u.right);
    var n, r, p := c.node, Ref(u.right), RootRef(c, u.node);
    RootAbove(c, u.node);
    // h1: the child is hung below the successor's parent, the root still hangs below `top`
    var h1 := h'[p := h'[p].(parent := top)];
    LinkedRoot(h, Plug(c, u), top);
    KeepTree(h, h1, u.right, u.node, n);
    KeepCtx(h, h1, c, u.node, r, top);
    PlugLinked(h1, c, u.right, top);
    KeepTree(h1, h', Plug(c, u.right), top, u.node);
  }

  lemma {:induction false} LinkedRoot(h: Memory, t: Tree<Addr>, p: Ptr)
    requires Linked(h, t, p) && t.Node?
    ensures t.node in h && h[t.node].parent == p
  {
  }

  lemma {:induction false} RootAbove(c: Ctx<Addr>, x: Ptr)
    requires !c.Top?
    ensures RootRef(c, x) != 0 && RootRef(c, x) in CtxNodes(c)
    ensures forall y :: RootRef(c, y) == RootRef(c, x)
  {
    if !c.up.Top? { RootAbove(c.up, c.node); }
  }

  /** SuccessorTaken with the adjacent case, where the successor is the right child itself. */
  lemma {:induction false} RightSubtree(h: Memory, h': Memory, c: Ctx<Addr>, u: Tree<Addr>, top: Addr)
    requires Linked(h, Plug(c, u), top) && Distinct(Plug(c, u)) && u.Node? && u.left.Leaf? && LeftSpine(c)
    requires forall x :: x in Nodes(Plug(c, u)) && x in h && x !in Touched(c, u) ==> x in h' && h'[x] == h[x]
    requires !c.Top? ==> Unhooked(h, h', c, u)
    ensures Linked(h', Plug(c, u.right), u.node) && Distinct(Plug(c, u.right))
    ensures Nodes(Plug(c, u.right)) == Nodes(Plug(c, u)) - {u.node} && u.node in Nodes(Plug(c, u))
    ensures Ref(Plug(c, u.right)) == if c.Top? then Ref(u.right) else Ref(Plug(c, u))
  {
    if c.Top? {
      KeepTree(h, h', u.right, u.node, u.node);
    } else {
      SuccessorTaken(h, h', c, u, top);
    }
  }

  lemma {:induction false} SuccessorPromoted(h: Memory, h': Memory, up: Ctx<Addr>, t: Tree<Addr>,
                                                s: Addr, r: Tree<Addr>, root: Ptr)
    requires Shaped(h, Plug(up, t), root) && t.Node? && t.left.Node?
    requires s in Nodes(t.right) && Nodes(r) == Nodes(t.right) - {s} && Distinct(r) && Linked(h', r, s)
    requires s in h' && h'[s] == RbNode(CtxRef(up, 0), t.left.node, Ref(r), t.color)
    requires t.left.node in h ==> t.left.node in h' && h'[t.left.node] == h[t.left.node].(parent := s)
    requires Relinked(h, h', up, s)
    requires forall x :: x in h && x !in Nodes(t.right) && x !in {t.node, t.left.node, CtxRef(up, 0)} ==>
      x in h' && h'[x] == h[x]
    ensures Shaped(h', Plug(up, Node(t.left, s, t.color, r)), if up.Top? then s else root)
    ensures Nodes(Plug(up, Node(t.left, s, t.color, r))) == Nodes(Plug(up, t)) - {t.node}
  {
    Position(h, up, t, root);
    KeepTree(h, h', t.left, t.node, s);
    KeepCtx(h, h', up, t.node, s, 0);
    var t' := Node(t.left, s, t.color, r);
    assert Linked(h', t', CtxRef(up, 0));
    PromotedNodes(t, s, r);
    Position(h', up, t', if up.Top? then s else root);
  }

  lemma {:induction false} PromotedNodes(t: Tree<Addr>, s: Addr, r: Tree<Addr>)
    requires t.Node? && Distinct(t) && s in Nodes(t.right) && Nodes(r) == Nodes(t.right) - {s} && Distinct(r)
    ensures var t' := Node(t.left, s, t.color, r); Distinct(t') && Nodes(t') == Nodes(t) - {t.node}
  {
  }

  /** All field changes of the two-children branch together: `n`, the successor of `o`,
      takes over the links and colour of `o`. */
  ghost predicate Moved(h: Memory, h': Memory, o: Addr, n: Addr)
    requires o in h && n in h
  {
    var (p, l, r, q, x) := (h[o].parent, h[o].left, h[o].right, h[n].parent, h[n].right);
    && SameExcept(h, h', if q == o then {o, n, l, p} else {o, n, l, p, q, r, x})
    && n in h' && h'[n] == RbNode(p, l, if q == o then x else r, h[o].color)
    && (l != 0 && l in h ==> l in h' && h'[l] == h[l].(parent := n))
    && (p != 0 && p in h ==> p in h' && h'[p] == if h[p].left == o then h[p].(left := n) else h[p].(right := n))
    && (q != o && q != 0 && q in h ==> q in h' && h'[q] == h[q].(left := x,
                                                                 parent := if q == r then n else h[q].parent))
    && (q != o && q != r && r != 0 && r in h ==> r in h' && h'[r] == h[r].(parent := n))
    && (q != o && x != 0 && x in h ==> x in h' && h'[x] == h[x].(parent := q))
  }

  /** The pointers the two-children branch follows: `t` is the node to erase, `u` its
      successor at the end of the left spine `c` of the right subtree. */
  lemma {:induction false} PromotionReads(h: Memory, up: Ctx<Addr>, t: Tree<Addr>,
                                             c: Ctx<Addr>, u: Tree<Addr>, root: Ptr)
    requires Shaped(h, Plug(up, t), root) && t.Node? && t.left.Node? && t.right == Plug(c, u)
    requires u.Node? && LeftSpine(c)
    ensures t.node in h && h[t.node] == RbNode(CtxRef(up, 0), t.left.node, Ref(t.right), t.color)
    ensures u.node in h && h[u.node] == RbNode(CtxRef(c, t.node), Ref(u.left), Ref(u.right), u.color)
    ensures Ref(t.right) == RootRef(c, u.node) != 0 && Ref(t.right) in Nodes(t.right)
    ensures u.node in Nodes(t.right) && (u.right.Node? ==> u.right.node in Nodes(t.right) && u.right.node != u.node)
    ensures !c.Top? ==>
      && c.node in Nodes(t.right) && c.node != u.node && c.node != Ref(u.right)
      && Ref(t.right) != u.node && Ref(t.right) != Ref(u.right)
    ensures Apart(h, t.node, u.node)
  {
    Position(h, up, t, root);
    PlugLinked(h, c, u, t.node);
    PlugDistinct(c, u);
    LinkedRoot(h, t.right, t.node);
    if u.right.Node? { LinkedRoot(h, u.right, u.node); }
    if !c.Top? { RootAbove(c, u.node); }
  }

  /** The pointers of the two-children branch: all in memory, and different where the tree
      makes them so. */
  ghost predicate Apart(h: Memory, o: Addr, n: Addr)
    requires o in h && n in h
  {
    var (p, l, r, q, x) := (h[o].parent, h[o].left, h[o].right, h[n].parent, h[n].right);
    && l != 0 && l in h && r != 0 && r in h && q != 0 && q in h && (p != 0 ==> p in h) && (x != 0 ==> x in h)
    && o != n && l !in {o, n} && p !in {o, n, l}
    && (q == o ==> r == n) && (q != o ==> q !in {n, l, p} && r !in {o, n, l, p})
    && (x != 0 ==> x !in {o, n, l, p, q, r})
  }

  lemma {:induction false} Promotion(h: Memory, h': Memory, up: Ctx<Addr>, t: Tree<Addr>,
                                        c: Ctx<Addr>, u: Tree<Addr>, root: Ptr)
    requires Shaped(h, Plug(up, t), root) && t.Node? && t.left.Node? && t.right == Plug(c, u)
    requires u.Node? && u.left.Leaf? && LeftSpine(c)
    requires t.node in h && u.node in h && Moved(h, h', t.node, u.node)
    ensures Shaped(h', Plug(up, Promoted(t.left, u.node, t.color, c, u.right)), if up.Top? then u.node else root)
    ensures Nodes(Plug(up, Promoted(t.left, u.node, t.color, c, u.right))) == Nodes(Plug(up, t)) - {t.node}
  {
    PromotionReads(h, up, t, c, u, root);
    Position(h, up, t, root);
    RightSubtree(h, h', c, u, t.node);
    assert Relinked(h, h', up, u.node);
    SuccessorPromoted(h, h', up, t, u.node, Plug(c, u.right), root);
  }

  ghost function FirstOf(s: seq<Addr>): Ptr
  {
    if s == [] then 0 else s[0]
  }

  ghost function LastOf(s: seq<Addr>): Ptr
  {
    if s == [] then 0 else s[|s| - 1]
  }

  /** The same nodes are linked, in the same order, and nothing else has been written. */
  ghost predicate Rearranged(mem0: Memory, t0: Tree<Addr>, mem: Memory, t: Tree<Addr>)
  {
    && Nodes(t) == Nodes(t0) && Inorder(t) == Inorder(t0)
    && SameExcept(mem0, mem, Nodes(t0)) && mem.Keys == mem0.Keys
  }

  // ----- reading and writing nodes -----

  /** rb_set_parent, the stores to rb_left and rb_right, and rb_set_red / rb_set_black. */
  function SetParent(mem: Memory, n: Addr, p: Ptr): Memory
    requires n in mem
  {
    mem[n := mem[n].(parent := p)]
  }

  function SetLeft(mem: Memory, n: Addr, p: Ptr): Memory
    requires n in mem
  {
    mem[n := mem[n].(left := p)]
  }

  function SetRight(mem: Memory, n: Addr, p: Ptr): Memory
    requires n in mem
  {
    mem[n := mem[n].(right := p)]
  }

  function SetColor(mem: Memory, n: Addr, col: Color): Memory
    requires n in mem
  {
    mem[n := mem[n].(color := col)]
  }

  /** Everything the code reads around the position `c`, `t` of a tree. */
  lemma {:induction false} Reads(mem: Memory, root: Ptr, c: Ctx<Addr>, t: Tree<Addr>)
    requires Shaped(mem, Plug(c, t), root)
    ensures Nodes(Plug(c, t)) == CtxNodes(c) + Nodes(t) && CtxNodes(c) !! Nodes(t)
    ensures CtxDistinct(c) && Distinct(t)
    ensures t.Node? ==> t.node in mem && mem[t.node] == RbNode(CtxRef(c, 0), Ref(t.left), Ref(t.right), t.color)
    ensures !c.Top? ==> c.node in mem
    ensures c.LeftOf? ==> mem[c.node] == RbNode(CtxRef(c.up, 0), Ref(t), Ref(c.sib), c.color)
    ensures c.RightOf? ==> mem[c.node] == RbNode(CtxRef(c.up, 0), Ref(c.sib), Ref(t), c.color)
    ensures root == RootRef(c, Ref(t))
  {
    Position(mem, c, t, root);
  }

  /** Which child of its parent a node is. */
  lemma {:induction false} Side(mem: Memory, root: Ptr, c: Ctx<Addr>, t: Tree<Addr>)
    requires Shaped(mem, Plug(c, t), root) && t.Node? && !c.Top?
    ensures c.node in mem && (c.LeftOf? <==> mem[c.node].left == t.node)
      && (c.RightOf? <==> mem[c.node].right == t.node)
  {
    Reads(mem, root, c, t);
    assert c.sib.Node? ==> c.sib.node in CtxNodes(c);
  }

  /** Recolouring a linked node. */
  lemma {:induction false} Repaint(mem: Memory, root: Ptr, n: Addr, col: Color, c: Ctx<Addr>, t: Tree<Addr>)
    requires Shaped(mem, Plug(c, t), root) && t.Node? && t.node == n
    ensures n in mem && Shaped(SetColor(mem, n, col), Plug(c, t.(color := col)), root)
    ensures Rearranged(mem, Plug(c, t), SetColor(mem, n, col), Plug(c, t.(color := col)))
  {
    Reads(mem, root, c, t);
    Recolored(mem, SetColor(mem, n, col), c, t, col, root);
    SameInorder(c, t, t.(color := col));
  }

  lemma {:induction false} RotationReads(mem: Memory, root: Ptr, c: Ctx<Addr>, t: Tree<Addr>, u: Tree<Addr>,
                                         mid: Tree<Addr>)
    requires Shaped(mem, Plug(c, t), root) && t.Node? && u.Node?
    requires (u == t.right && mid == u.left) || (u == t.left && mid == u.right)
    ensures t.node != u.node && t.node in mem && u.node in mem
    ensures mem[t.node] == RbNode(CtxRef(c, 0), Ref(t.left), Ref(t.right), t.color)
    ensures mem[u.node] == RbNode(t.node, Ref(u.left), Ref(u.right), u.color)
    ensures mid.Node? ==> mid.node in mem && mid.node != t.node && mid.node != u.node
    ensures !c.Top? ==>
      && c.node in mem && c.node != t.node && c.node != u.node && c.node != Ref(mid)
      && (c.LeftOf? <==> mem[c.node].left == t.node) && (c.RightOf? <==> mem[c.node].right == t.node)
    ensures {t.node, u.node} <= Nodes(Plug(c, t)) && (mid.Node? ==> mid.node in Nodes(Plug(c, t)))
      && (!c.Top? ==> c.node in Nodes(Plug(c, t)))
  {
    Position(mem, c, t, root);
    assert Linked(mem, mid, u.node);
  }

  /** __rb_rotate_left */
  method RotateLeft(mem0: Memory, root0: Ptr, n: Addr, ghost c: Ctx<Addr>, ghost t: Tree<Addr>)
    returns (mem: Memory, root: Ptr)
    requires Shaped(mem0, Plug(c, t), root0) && t.Node? && t.node == n && t.right.Node?
    ensures Shaped(mem, Plug(c, RotatedLeft(t)), root) && Rearranged(mem0, Plug(c, t), mem, Plug(c, RotatedLeft(t)))
  {
    mem, root := mem0, root0;
    RotationReads(mem, root, c, t, t.right, t.right.left);
    var right, parent := mem[n].right, mem[n].parent;
    mem := SetRight(mem, n, mem[right].left);
    if mem[right].left != 0 {
      mem := SetParent(mem, mem[right].left, n);
    }
    mem := SetLeft(mem, right, n);
    mem := SetParent(mem, right, parent);
    if parent == 0 {
      root := right;
    } else if n == mem[parent].left {
      mem := SetLeft(mem, parent, right);
    } else {
      mem := SetRight(mem, parent, right);
    }
    mem := SetParent(mem, n, right);
    assert SameExcept(mem0, mem, {n, right, Ref(t.right.left), parent}) && mem.Keys == mem0.Keys;
    LeftRotation(mem0, mem, c, t, root0);
    SameInorder(c, t, RotatedLeft(t));
  }

  /** __rb_rotate_right */
  method RotateRight(mem0: Memory, root0: Ptr, n: Addr, ghost c: Ctx<Addr>, ghost t: Tree<Addr>)
    returns (mem: Memory, root: Ptr)
    requires Shaped(mem0, Plug(c, t), root0) && t.Node? && t.node == n && t.left.Node?
    ensures Shaped(mem, Plug(c, RotatedRight(t)), root) && Rearranged(mem0, Plug(c, t), mem, Plug(c, RotatedRight(t)))
  {
    mem, root := mem0, root0;
    RotationReads(mem, root, c, t, t.left, t.left.right);
    var left, parent := mem[n].left, mem[n].parent;
    mem := SetLeft(mem, n, mem[left].right);
    if mem[left].right != 0 {
      mem := SetParent(mem, mem[left].right, n);
    }
    mem := SetRight(mem, left, n);
    mem := SetParent(mem, left, parent);
    if parent == 0 {
      root := left;
    } else if n == mem[parent].right {
      mem := SetRight(mem, parent, left);
    } else {
      mem := SetLeft(mem, parent, left);
    }
    mem := SetParent(mem, n, left);
    assert SameExcept(mem0, mem, {n, left, Ref(t.left.right), parent}) && mem.Keys == mem0.Keys;
    RightRotation(mem0, mem, c, t, root0);
    SameInorder(c, t, RotatedRight(t));
  }

  lemma {:induction false} Chain(m0: Memory, t0: Tree<Addr>, m1: Memory, t1: Tree<Addr>, m2: Memory, t2: Tree<Addr>)
    requires Rearranged(m0, t0, m1, t1) && Rearranged(m1, t1, m2, t2)
    ensures Rearranged(m0, t0, m2, t2)
  {
  }

  // ----- insertion -----

  /** rb_link_node; `atLeft` says which child pointer of `parent` rb_link points to. */
  method LinkNode(mem0: Memory, root0: Ptr, n: Addr, parent: Ptr, atLeft: bool, ghost c: Ctx<Addr>)
    returns (mem: Memory, root: Ptr)
    requires Shaped(mem0, Plug(c, Leaf), root0) && n !in Nodes(Plug(c, Leaf)) && n in mem0
    requires parent == CtxRef(c, 0) && (parent != 0 ==> (atLeft <==> c.LeftOf?))
    ensures Shaped(mem, Plug(c, Node(Leaf, n, Red, Leaf)), root)
    ensures Nodes(Plug(c, Node(Leaf, n, Red, Leaf))) == Nodes(Plug(c, Leaf)) + {n}
    ensures SameExcept(mem0, mem, Nodes(Plug(c, Leaf)) + {n}) && mem.Keys == mem0.Keys
  {
    Reads(mem0, root0, c, Leaf);
    mem, root := mem0[n := RbNode(parent, 0, 0, Red)], root0;
    if parent == 0 {
      root := n;
    } else if atLeft {
      mem := SetLeft(mem, parent, n);
    } else {
      mem := SetRight(mem, parent, n);
    }
    assert SameExcept(mem0, mem, {CtxRef(c, 0), n}) && mem.Keys == mem0.Keys;
    LeafLinked(mem0, mem, c, n, root0);
  }

  /** Red uncle: blacken parent and uncle, redden the grandparent. */
  lemma {:induction false} RecolorFamily(mem0: Memory, root: Ptr, c: Ctx<Addr>, t: Tree<Addr>)
    requires Shaped(mem0, Plug(c, t), root) && InsertInv(c, t) && CtxRed(c) && !c.up.Top? && IsRed(c.up.sib)
    ensures c.up.sib.node in mem0 && c.node in mem0 && c.up.node in mem0
    ensures var mem := SetColor(SetColor(SetColor(mem0, c.up.sib.node, Black), c.node, Black), c.up.node, Red);
            var (p, u) := (Blacken(Around(c, t)), Blacken(c.up.sib));
            var g := if c.up.LeftOf? then Node(p, c.up.node, Red, u) else Node(u, c.up.node, Red, p);
            && Shaped(mem, Plug(c.up.up, g), root) && InsertInv(c.up.up, g)
            && Rearranged(mem0, Plug(c, t), mem, Plug(c.up.up, g))
  {
    var cg, n, col, p, u, left := c.up.up, c.up.node, c.up.color, Around(c, t), c.up.sib, c.up.LeftOf?;
    var p', u' := Blacken(p), Blacken(u);
    var t0 := Plug(c, t);
    assert t0 == Plug(c.up, p) == Plug(cg, if left then Node(p, n, col, u) else Node(u, n, col, p));
    Repaint(mem0, root, u.node, Black, if left then RightOf(cg, n, col, p) else LeftOf(cg, n, col, p), u);
    var mem1, t1 := SetColor(mem0, u.node, Black), Plug(cg, if left then Node(p, n, col, u') else Node(u', n, col, p));
    Repaint(mem1, root, c.node, Black, if left then LeftOf(cg, n, col, u') else RightOf(cg, n, col, u'), p);
    var mem2, t2 := SetColor(mem1, c.node, Black), Plug(cg,
                             if left then Node(p', n, col, u') else Node(u', n, col, p'));
    Repaint(mem2, root, n, Red, cg, if left then Node(p', n, col, u') else Node(u', n, col, p'));
    var mem3, t3 := SetColor(mem2, n, Red), Plug(cg, if left then Node(p', n, Red, u') else Node(u', n, Red, p'));
    Chain(mem0, t0, mem1, t1, mem2, t2);
    Chain(mem0, t0, mem2, t2, mem3, t3);
    RecolorStep(c, t);
  }

  /** Black uncle, `t` an outer grandchild: the final rotation. */
  method FinishRight(mem0: Memory, root0: Ptr, parent: Addr, gparent: Addr, ghost c: Ctx<Addr>, ghost t: Tree<Addr>)
    returns (mem: Memory, root: Ptr)
    requires Shaped(mem0, Plug(c, t), root0) && InsertInv(c, t) && CtxRed(c) && c.node == parent
    requires c.LeftOf? && c.up.LeftOf? && c.up.node == gparent && !IsRed(c.up.sib)
    ensures var c' := LeftOf(c.up.up, parent, Black, Node(c.sib, gparent, Red, c.up.sib));
            Shaped(mem, Plug(c', t), root) && InsertInv(c', t) && Rearranged(mem0, Plug(c, t), mem, Plug(c', t))
  {
    ghost var cg, col, u := c.up.up, c.up.color, c.up.sib;
    ghost var t0, t1 := Plug(c, t), Plug(cg, Node(Node(t, parent, Black, c.sib), gparent, col, u));
    ghost var t2 := Plug(cg, Node(Node(t, parent, Black, c.sib), gparent, Red, u));
    Repaint(mem0, root0, parent, Black, c.up, Node(t, parent, Red, c.sib));
    var mem1 := SetColor(mem0, parent, Black);
    Repaint(mem1, root0, gparent, Red, cg, Node(Node(t, parent, Black, c.sib), gparent, col, u));
    var mem2 := SetColor(mem1, gparent, Red);
    mem, root := RotateRight(mem2, root0, gparent, cg, Node(Node(t, parent, Black, c.sib), gparent, Red, u));
    ghost var t3 := Plug(LeftOf(cg, parent, Black, Node(c.sib, gparent, Red, u)), t);
    Chain(mem0, t0, mem1, t1, mem2, t2);
    Chain(mem0, t0, mem2, t2, mem, t3);
    OuterStep(c, t);
  }

  method FinishLeft(mem0: Memory, root0: Ptr, parent: Addr, gparent: Addr, ghost c: Ctx<Addr>, ghost t: Tree<Addr>)
    returns (mem: Memory, root: Ptr)
    requires Shaped(mem0, Plug(c, t), root0) && InsertInv(c, t) && CtxRed(c) && c.node == parent
    requires c.RightOf? && c.up.RightOf? && c.up.node == gparent && !IsRed(c.up.sib)
    ensures var c' := RightOf(c.up.up, parent, Black, Node(c.up.sib, gparent, Red, c.sib));
            Shaped(mem, Plug(c', t), root) && InsertInv(c', t) && Rearranged(mem0, Plug(c, t), mem, Plug(c', t))
  {
    ghost var cg, col, u := c.up.up, c.up.color, c.up.sib;
    ghost var t0, t1 := Plug(c, t), Plug(cg, Node(u, gparent, col, Node(c.sib, parent, Black, t)));
    ghost var t2 := Plug(cg, Node(u, gparent, Red, Node(c.sib, parent, Black, t)));
    Repaint(mem0, root0, parent, Black, c.up, Node(c.sib, parent, Red, t));
    var mem1 := SetColor(mem0, parent, Black);
    Repaint(mem1, root0, gparent, Red, cg, Node(u, gparent, col, Node(c.sib, parent, Black, t)));
    var mem2 := SetColor(mem1, gparent, Red);
    mem, root := RotateLeft(mem2, root0, gparent, cg, Node(u, gparent, Red, Node(c.sib, parent, Black, t)));
    ghost var t3 := Plug(RightOf(cg, parent, Black, Node(u, gparent, Red, c.sib)), t);
    Chain(mem0, t0, mem1, t1, mem2, t2);
    Chain(mem0, t0, mem2, t2, mem, t3);
    OuterStep(c, t);
  }

  lemma {:induction false} InsertReads(mem: Memory, root: Ptr, c: Ctx<Addr>, t: Tree<Addr>)
    requires Shaped(mem, Plug(c, t), root) && InsertInv(c, t) && CtxRed(c)
    ensures !c.up.Top? && c.node in mem && c.up.node in mem && mem[c.node].parent == c.up.node
    ensures (c.LeftOf? <==> mem[c.node].left == t.node) && (c.RightOf? <==> mem[c.node].right == t.node)
    ensures c.up.LeftOf? <==> mem[c.up.node].left == c.node
    ensures c.up.LeftOf? ==> mem[c.up.node].right == Ref(c.up.sib)
    ensures c.up.RightOf? ==> mem[c.up.node].left == Ref(c.up.sib)
    ensures c.up.sib.Node? ==> c.up.sib.node in mem && mem[c.up.sib.node].color == c.up.sib.color
  {
    RedParent(c, t);
    Reads(mem, root, c, t);
    Side(mem, root, c, t);
    Reads(mem, root, c.up, Around(c, t));
    Side(mem, root, c.up, Around(c, t));
    if c.up.LeftOf? {
      Reads(mem, root, RightOf(c.up.up, c.up.node, c.up.color, Around(c, t)), c.up.sib);
    } else {
      Reads(mem, root, LeftOf(c.up.up, c.up.node, c.up.color, Around(c, t)), c.up.sib);
    }
  }

  /** One round of the loop of rb_insert_color: `n`, at position `c`, `t`, is red and so is
      its parent.  The violation moves up two levels or disappears. */
  method InsertStep(mem0: Memory, root0: Ptr, n0: Addr, parent0: Addr, ghost c0: Ctx<Addr>, ghost t0: Tree<Addr>)
    returns (mem: Memory, root: Ptr, n: Addr, ghost c: Ctx<Addr>, ghost t: Tree<Addr>)
    requires Shaped(mem0, Plug(c0, t0), root0) && InsertInv(c0, t0) && t0.node == n0 && CtxRed(c0) && c0.node == parent0
    ensures Shaped(mem, Plug(c, t), root) && InsertInv(c, t) && t.node == n && Depth(c) < Depth(c0)
    ensures Rearranged(mem0, Plug(c0, t0), mem, Plug(c, t))
  {
    mem, root, n, c, t := mem0, root0, n0, c0, t0;
    var parent := parent0;
    InsertReads(mem, root, c, t);
    var gparent := mem[parent].parent;
    if parent == mem[gparent].left {
      var uncle := mem[gparent].right;
      if uncle != 0 && mem[uncle].color == Red {
        RecolorFamily(mem, root, c, t);
        mem := SetColor(mem, uncle, Black);
        mem := SetColor(mem, parent, Black);
        mem := SetColor(mem, gparent, Red);
        n, c, t := gparent, c.up.up, Node(Blacken(Around(c, t)), gparent, Red, Blacken(c.up.sib));
        return;
      }
      if mem[parent].right == n {
        mem, root := RotateLeft(mem, root, parent, c.up, Around(c, t));
        InnerStep(c, t);
        c, t := LeftOf(c.up, t.node, Red, t.right), Node(c.sib, c.node, Red, t.left);
        n, parent := parent, n;
      }
      ghost var mem1, t1 := mem, Plug(c, t);
      mem, root := FinishRight(mem, root, parent, gparent, c, t);
      c := LeftOf(c.up.up, parent, Black, Node(c.sib, gparent, Red, c.up.sib));
      Chain(mem0, Plug(c0, t0), mem1, t1, mem, Plug(c, t));
    } else {
      var uncle := mem[gparent].left;
      if uncle != 0 && mem[uncle].color == Red {
        RecolorFamily(mem, root, c, t);
        mem := SetColor(mem, uncle, Black);
        mem := SetColor(mem, parent, Black);
        mem := SetColor(mem, gparent, Red);
        n, c, t := gparent, c.up.up, Node(Blacken(c.up.sib), gparent, Red, Blacken(Around(c, t)));
        return;
      }
      if mem[parent].left == n {
        mem, root := RotateRight(mem, root, parent, c.up, Around(c, t));
        InnerStep(c, t);
        c, t := RightOf(c.up, t.node, Red, t.left), Node(t.right, c.node, Red, c.sib);
        n, parent := parent, n;
      }
      ghost var mem1, t1 := mem, Plug(c, t);
      mem, root := FinishLeft(mem, root, parent, gparent, c, t);
      c := RightOf(c.up.up, parent, Black, Node(c.up.sib, gparent, Red, c.sib));
      Chain(mem0, Plug(c0, t0), mem1, t1, mem, Plug(c, t));
    }
  }

  /** rb_insert_color: from a red-black tree plus one freshly linked red leaf. */
  method InsertColor(mem0: Memory, root0: Ptr, n0: Addr, ghost c0: Ctx<Addr>)
    returns (mem: Memory, root: Ptr, ghost tree: Tree<Addr>)
    requires Shaped(mem0, Plug(c0, Node(Leaf, n0, Red, Leaf)), root0) && RedBlack(Plug(c0, Leaf))
    ensures Shaped(mem, tree, root) && RedBlack(tree)
    ensures Rearranged(mem0, Plug(c0, Node(Leaf, n0, Red, Leaf)), mem, tree)
  {
    mem, root := mem0, root0;
    var n := n0;
    ghost var c: Ctx<Addr>, t: Tree<Addr> := c0, Node(Leaf, n0, Red, Leaf);
    ghost var start := Plug(c, t);
    InsertStarts(c, n0);
    Reads(mem, root, c, t);
    var parent := mem[n].parent;
    while parent != 0 && mem[parent].color == Red
      invariant Shaped(mem, Plug(c, t), root) && InsertInv(c, t) && t.node == n
      invariant parent == CtxRef(c, 0) && (parent != 0 ==> parent in mem && mem[parent].color == c.color)
      invariant Rearranged(mem0, start, mem, Plug(c, t))
      decreases Depth(c)
    {
      ghost var mem1, t1 := mem, Plug(c, t);
      mem, root, n, c, t := InsertStep(mem, root, n, parent, c, t);
      Chain(mem0, start, mem1, t1, mem, Plug(c, t));
      Reads(mem, root, c, t);
      parent := mem[n].parent;
    }
    InsertEnds(c, t);
    ghost var top := Plug(c, t);
    Repaint(mem, root, root, Black, Top, top);
    Chain(mem0, start, mem, top, SetColor(mem, root, Black), Blacken(top));
    mem, tree := SetColor(mem, root, Black), Blacken(top);
  }

  /** rb_link_node followed by rb_insert_color: `n` joins the in-order sequence at the hole. */
  method InsertAt(mem0: Memory, root0: Ptr, n: Addr, parent: Ptr, atLeft: bool, ghost c: Ctx<Addr>)
    returns (mem: Memory, root: Ptr, ghost tree: Tree<Addr>)
    requires Shaped(mem0, Plug(c, Leaf), root0) && RedBlack(Plug(c, Leaf)) && n !in Nodes(Plug(c, Leaf)) && n in mem0
    requires parent == CtxRef(c, 0) && (parent != 0 ==> (atLeft <==> c.LeftOf?))
    ensures Shaped(mem, tree, root) && RedBlack(tree) && Nodes(tree) == Nodes(Plug(c, Leaf)) + {n}
    ensures Inorder(Plug(c, Leaf)) == Before(c) + After(c) && Inorder(tree) == Before(c) + [n] + After(c)
    ensures SameExcept(mem0, mem, Nodes(tree)) && mem.Keys == mem0.Keys
  {
    PlugInorder(c, Leaf);
    PlugInorder(c, Node(Leaf, n, Red, Leaf));
    mem, root := LinkNode(mem0, root0, n, parent, atLeft, c);
    mem, root, tree := InsertColor(mem, root, n, c);
  }

  // ----- erasure -----

  /** The child pointer of `parent` that leads to `o`, or the root pointer, leads to `n`. */
  method Redirect(mem0: Memory, root0: Ptr, parent: Ptr, o: Addr, n: Ptr) returns (mem: Memory, root: Ptr)
    requires parent != 0 ==> parent in mem0
    ensures root == if parent == 0 then n else root0
    ensures mem == if parent == 0 then mem0
                   else if mem0[parent].left == o then mem0[parent := mem0[parent].(left := n)]
                   else mem0[parent := mem0[parent].(right := n)]
  {
    mem, root := mem0, root0;
    if parent == 0 {
      root := n;
    } else if mem[parent].left == o {
      mem := SetLeft(mem, parent, n);
    } else {
      mem := SetRight(mem, parent, n);
    }
  }

  /** The part of rb_erase that takes out a node with at most one child. */
  method RaiseChild(mem0: Memory, root0: Ptr, n: Addr, child: Ptr, parent: Ptr,
                    ghost c: Ctx<Addr>, ghost t: Tree<Addr>, ghost ct: Tree<Addr>) returns (mem: Memory, root: Ptr)
    requires Shaped(mem0, Plug(c, t), root0) && t.Node? && t.node == n && child == Ref(ct) && parent == CtxRef(c, 0)
    requires (t.left.Leaf? && ct == t.right) || (t.right.Leaf? && ct == t.left)
    ensures Shaped(mem, Plug(c, ct), root) && Nodes(Plug(c, ct)) == Nodes(Plug(c, t)) - {n}
    ensures SameExcept(mem0, mem, Nodes(Plug(c, ct))) && mem.Keys == mem0.Keys
  {
    mem, root := mem0, root0;
    Position(mem, c, t, root);
    if child != 0 {
      mem := SetParent(mem, child, parent);
    }
    mem, root := Redirect(mem, root, parent, n, child);
    assert SameExcept(mem0, mem, {Ref(ct), CtxRef(c, 0)}) && mem.Keys == mem0.Keys;
    ChildRaised(mem0, mem, c, t, ct, root0);
    PlugDistinct(c, ct);
  }

  /** Moved, apart from the pointer that led to `o`. */
  ghost predicate TookOver(h: Memory, h': Memory, o: Addr, n: Addr)
    requires o in h && n in h
  {
    var (p, l, r, q, x) := (h[o].parent, h[o].left, h[o].right, h[n].parent, h[n].right);
    && h'.Keys == h.Keys && SameExcept(h, h', if q == o then {n, l} else {n, l, q, r, x})
    && h'[n] == RbNode(p, l, if q == o then x else r, h[o].color)
    && (l != 0 && l in h ==> h'[l] == h[l].(parent := n))
    && (q != o && q != 0 && q in h ==> h'[q] == h[q].(left := x, parent := if q == r then n else h[q].parent))
    && (q != o && q != r && r != 0 && r in h ==> h'[r] == h[r].(parent := n))
    && (q != o && x != 0 && x in h ==> h'[x] == h[x].(parent := q))
  }

  /** The last three stores of the two-children branch of rb_erase. */
  method TakePlace(mem0: Memory, o: Addr, n: Addr) returns (mem: Memory)
    requires o in mem0 && n in mem0 && mem0[o].left != 0 && mem0[o].left in mem0 && o != n && mem0[o].left != n
      && mem0[o].left != o
    ensures var l: Addr := mem0[o].left;
      mem == mem0[n := mem0[n].(parent := mem0[o].parent, color := mem0[o].color,
                                left := l)][l := mem0[l].(parent := n)]
  {
    mem := mem0[n := mem0[n].(parent := mem0[o].parent, color := mem0[o].color)];
    mem := SetLeft(mem, n, mem[o].left);
    mem := SetParent(mem, mem[o].left, n);
  }

  /** The stores for a successor that is not the right child. */
  method Detach(mem0: Memory, o: Addr, n: Addr, child: Ptr, parent: Addr) returns (mem: Memory)
    requires o in mem0 && n in mem0 && Apart(mem0, o, n) && parent == mem0[n].parent != o && child == mem0[n].right
    ensures mem.Keys == mem0.Keys && mem[o] == mem0[o] && mem[n] == mem0[n].(right := mem0[o].right)
      && mem[mem0[o].left] == mem0[mem0[o].left]
    ensures SameExcept(mem0, mem, {n, parent, mem0[o].right, child})
    ensures mem[parent] == mem0[parent].(left := child,
                                         parent := if parent == mem0[o].right then n else mem0[parent].parent)
    ensures parent != mem0[o].right ==> mem[mem0[o].right] == mem0[mem0[o].right].(parent := n)
    ensures child != 0 ==> mem[child] == mem0[child].(parent := parent)
  {
    mem := mem0;
    if child != 0 {
      mem := SetParent(mem, child, parent);
    }
    mem := SetLeft(mem, parent, child);
    mem := SetRight(mem, n, mem[o].right);
    mem := SetParent(mem, mem[o].right, n);
  }

  /** The field writes of the two-children branch of rb_erase, behind the first. */
  method TakeOver(mem0: Memory, o: Addr, n: Addr) returns (mem: Memory, child: Ptr, parent: Ptr, color: Color)
    requires o in mem0 && n in mem0 && Apart(mem0, o, n)
    ensures TookOver(mem0, mem, o, n) && mem[o] == mem0[o]
    ensures child == mem0[n].right && color == mem0[n].color
    ensures parent == if mem0[n].parent == o then n else mem0[n].parent
  {
    mem, child, parent, color := mem0, mem0[n].right, mem0[n].parent, mem0[n].color;
    if parent == o {
      parent := n;
    } else {
      mem := Detach(mem, o, n, child, parent);
    }
    mem := TakePlace(mem, o, n);
  }

  /** The field writes of the two-children branch of rb_erase. */
  method MoveLinks(mem0: Memory, root0: Ptr, o: Addr, n: Addr)
    returns (mem: Memory, root: Ptr, child: Ptr, parent: Ptr, color: Color)
    requires o in mem0 && n in mem0 && Apart(mem0, o, n)
    ensures Moved(mem0, mem, o, n) && mem.Keys == mem0.Keys && o in mem && mem[o] == mem0[o]
    ensures root == if mem0[o].parent == 0 then n else root0
    ensures child == mem0[n].right && color == mem0[n].color
    ensures parent == if mem0[n].parent == o then n else mem0[n].parent
  {
    mem, root := Redirect(mem0, root0, mem0[o].parent, o, n);
    mem, child, parent, color := TakeOver(mem, o, n);
  }

  /** The two-children branch of rb_erase, after the successor `n` has been found. */
  method PromoteSuccessor(mem0: Memory, root0: Ptr, o: Addr, n: Addr, ghost up: Ctx<Addr>, ghost t: Tree<Addr>,
                          ghost c: Ctx<Addr>, ghost u: Tree<Addr>)
    returns (mem: Memory, root: Ptr, child: Ptr, parent: Ptr, color: Color)
    requires Shaped(mem0, Plug(up, t), root0) && t.Node? && t.node == o && t.left.Node? && t.right == Plug(c, u)
    requires u.Node? && u.node == n && u.left.Leaf? && LeftSpine(c)
    ensures Shaped(mem, Plug(up, Promoted(t.left, n, t.color, c, u.right)), root)
    ensures Nodes(Plug(up, Promoted(t.left, n, t.color, c, u.right))) == Nodes(Plug(up, t)) - {o}
    ensures SameExcept(mem0, mem, Nodes(Plug(up, t)) - {o}) && mem.Keys == mem0.Keys
    ensures child == Ref(u.right) && parent == CtxRef(c, n) && color == u.color
  {
    PromotionReads(mem0, up, t, c, u, root0);
    Position(mem0, up, t, root0);
    mem, root, child, parent, color := MoveLinks(mem0, root0, o, n);
    Promotion(mem0, mem, up, t, c, u, root0);
  }

  /** Everything the loop of __rb_erase_color reads around the sibling. */
  lemma {:induction false} EraseReads(mem: Memory, root: Ptr, c: Ctx<Addr>, t: Tree<Addr>)
    requires Shaped(mem, Plug(c, t), root) && EraseInv(c, t) && !c.Top?
    ensures c.sib.Node? && c.node in mem && mem[c.node].parent == CtxRef(c.up, 0) && mem[c.node].color == c.color
    ensures c.LeftOf? <==> mem[c.node].left == Ref(t)
    ensures c.LeftOf? ==> mem[c.node].right == c.sib.node
    ensures c.RightOf? ==> mem[c.node].left == c.sib.node
    ensures c.sib.node in mem && mem[c.sib.node].left == Ref(c.sib.left) && mem[c.sib.node].right == Ref(c.sib.right)
    ensures mem[c.sib.node].color == c.sib.color
    ensures c.sib.left.Node? ==> c.sib.left.node in mem && mem[c.sib.left.node].color == c.sib.left.color
    ensures c.sib.right.Node? ==> c.sib.right.node in mem && mem[c.sib.right.node].color == c.sib.right.color
  {
    SiblingExists(c, t);
    Reads(mem, root, c, t);
    var s := c.sib;
    var cs := if c.LeftOf? then RightOf(c.up, c.node, c.color, t) else LeftOf(c.up, c.node, c.color, t);
    Reads(mem, root, cs, s);
    Reads(mem, root, LeftOf(cs, s.node, s.color, s.right), s.left);
    Reads(mem, root, RightOf(cs, s.node, s.color, s.left), s.right);
  }

  /** Red sibling: blacken it, redden the parent, rotate the sibling above the parent. */
  method RaiseRightSibling(mem0: Memory, root0: Ptr, parent: Addr, other: Addr, ghost c: Ctx<Addr>, ghost t: Tree<Addr>)
    returns (mem: Memory, root: Ptr)
    requires Shaped(mem0, Plug(c, t), root0) && EraseInv(c, t) && c.LeftOf? && IsRed(c.sib) && c.node == parent
      && c.sib.node == other
    ensures var c' := LeftOf(LeftOf(c.up, other, Black, c.sib.right), parent, Red, c.sib.left);
            && Shaped(mem, Plug(c', t), root) && EraseInv(c', t) && c'.sib.Node? && c'.sib.color.Black?
            && Rearranged(mem0, Plug(c, t), mem, Plug(c', t))
  {
    ghost var s := c.sib;
    Repaint(mem0, root0, other, Black, RightOf(c.up, parent, c.color, t), s);
    var mem1 := SetColor(mem0, other, Black);
    Repaint(mem1, root0, parent, Red, c.up, Node(t, parent, c.color, Blacken(s)));
    var mem2 := SetColor(mem1, parent, Red);
    mem, root := RotateLeft(mem2, root0, parent, c.up, Node(t, parent, Red, Blacken(s)));
    ghost var t1, t2 := Plug(c.up, Node(t, parent, c.color, Blacken(s))), Plug(c.up, Node(t, parent, Red, Blacken(s)));
    ghost var t3 := Plug(LeftOf(LeftOf(c.up, other, Black, s.right), parent, Red, s.left), t);
    assert t3 == Plug(LeftOf(c.up, other, Black, s.right), Node(t, parent, Red, s.left))
      == Plug(c.up, RotatedLeft(Node(t, parent, Red, Blacken(s))));
    Chain(mem0, Plug(c, t), mem1, t1, mem2, t2);
    Chain(mem0, Plug(c, t), mem2, t2, mem, t3);
    RedSibling(c, t);
  }

  method RaiseLeftSibling(mem0: Memory, root0: Ptr, parent: Addr, other: Addr, ghost c: Ctx<Addr>, ghost t: Tree<Addr>)
    returns (mem: Memory, root: Ptr)
    requires Shaped(mem0, Plug(c, t), root0) && EraseInv(c, t) && c.RightOf? && IsRed(c.sib) && c.node == parent
      && c.sib.node == other
    ensures var c' := RightOf(RightOf(c.up, other, Black, c.sib.left), parent, Red, c.sib.right);
            && Shaped(mem, Plug(c', t), root) && EraseInv(c', t) && c'.sib.Node? && c'.sib.color.Black?
            && Rearranged(mem0, Plug(c, t), mem, Plug(c', t))
  {
    ghost var s := c.sib;
    Repaint(mem0, root0, other, Black, LeftOf(c.up, parent, c.color, t), s);
    var mem1 := SetColor(mem0, other, Black);
    Repaint(mem1, root0, parent, Red, c.up, Node(Blacken(s), parent, c.color, t));
    var mem2 := SetColor(mem1, parent, Red);
    mem, root := RotateRight(mem2, root0, parent, c.up, Node(Blacken(s), parent, Red, t));
    ghost var t1, t2 := Plug(c.up, Node(Blacken(s), parent, c.color, t)), Plug(c.up, Node(Blacken(s), parent, Red, t));
    ghost var t3 := Plug(RightOf(RightOf(c.up, other, Black, s.left), parent, Red, s.right), t);
    assert t3 == Plug(RightOf(c.up, other, Black, s.left), Node(s.right, parent, Red, t))
      == Plug(c.up, RotatedRight(Node(Blacken(s), parent, Red, t)));
    Chain(mem0, Plug(c, t), mem1, t1, mem2, t2);
    Chain(mem0, Plug(c, t), mem2, t2, mem, t3);
    RedSibling(c, t);
  }

  /** Red far nephew: the last rotation of __rb_erase_color. */
  method RotateParentLeft(mem0: Memory, root0: Ptr, parent: Addr, other: Addr, ghost c: Ctx<Addr>, ghost t: Tree<Addr>)
    returns (mem: Memory, root: Ptr, ghost tree: Tree<Addr>)
    requires Shaped(mem0, Plug(c, t), root0) && EraseInv(c, t) && !IsRed(t) && c.LeftOf? && c.node == parent
    requires c.sib.Node? && c.sib.node == other && c.sib.color.Black? && IsRed(c.sib.right)
    ensures Shaped(mem, tree, root) && RedBlack(tree) && Rearranged(mem0, Plug(c, t), mem, tree)
  {
    ghost var s, t0 := c.sib, Plug(c, t);
    EraseReads(mem0, root0, c, t);
    Repaint(mem0, root0, other, c.color, RightOf(c.up, parent, c.color, t), s);
    var mem1 := SetColor(mem0, other, mem0[parent].color);
    ghost var t1 := Plug(c.up, Node(t, parent, c.color, s.(color := c.color)));
    Repaint(mem1, root0, parent, Black, c.up, Node(t, parent, c.color, s.(color := c.color)));
    var mem2 := SetColor(mem1, parent, Black);
    ghost var t2 := Plug(c.up, Node(t, parent, Black, s.(color := c.color)));
    ghost var far := RightOf(RightOf(c.up, parent, Black, t), other, c.color, s.left);
    assert Plug(far, s.right) == Plug(RightOf(c.up, parent, Black, t), s.(color := c.color)) == t2;
    Repaint(mem2, root0, mem2[other].right, Black, far, s.right);
    var mem3 := SetColor(mem2, mem2[other].right, Black);
    ghost var v := Node(t, parent, Black, s.(color := c.color, right := Blacken(s.right)));
    assert Plug(far, Blacken(s.right))
      == Plug(RightOf(c.up, parent, Black, t), s.(color := c.color, right := Blacken(s.right))) == Plug(c.up, v);
    mem, root := RotateLeft(mem3, root0, parent, c.up, v);
    tree := Plug(c.up, RotatedLeft(v));
    Chain(mem0, t0, mem1, t1, mem2, t2);
    Chain(mem0, t0, mem2, t2, mem3, Plug(c.up, v));
    Chain(mem0, t0, mem3, Plug(c.up, v), mem, tree);
    FarNephew(c, t);
  }

  method RotateParentRight(mem0: Memory, root0: Ptr, parent: Addr, other: Addr, ghost c: Ctx<Addr>, ghost t: Tree<Addr>)
    returns (mem: Memory, root: Ptr, ghost tree: Tree<Addr>)
    requires Shaped(mem0, Plug(c, t), root0) && EraseInv(c, t) && !IsRed(t) && c.RightOf? && c.node == parent
    requires c.sib.Node? && c.sib.node == other && c.sib.color.Black? && IsRed(c.sib.left)
    ensures Shaped(mem, tree, root) && RedBlack(tree) && Rearranged(mem0, Plug(c, t), mem, tree)
  {
    ghost var s, t0 := c.sib, Plug(c, t);
    EraseReads(mem0, root0, c, t);
    Repaint(mem0, root0, other, c.color, LeftOf(c.up, parent, c.color, t), s);
    var mem1 := SetColor(mem0, other, mem0[parent].color);
    ghost var t1 := Plug(c.up, Node(s.(color := c.color), parent, c.color, t));
    Repaint(mem1, root0, parent, Black, c.up, Node(s.(color := c.color), parent, c.color, t));
    var mem2 := SetColor(mem1, parent, Black);
    ghost var t2 := Plug(c.up, Node(s.(color := c.color), parent, Black, t));
    ghost var far := LeftOf(LeftOf(c.up, parent, Black, t), other, c.color, s.right);
    assert Plug(far, s.left) == Plug(LeftOf(c.up, parent, Black, t), s.(color := c.color)) == t2;
    Repaint(mem2, root0, mem2[other].left, Black, far, s.left);
    var mem3 := SetColor(mem2, mem2[other].left, Black);
    ghost var v := Node(s.(color := c.color, left := Blacken(s.left)), parent, Black, t);
    assert Plug(far, Blacken(s.left))
      == Plug(LeftOf(c.up, parent, Black, t), s.(color := c.color, left := Blacken(s.left))) == Plug(c.up, v);
    mem, root := RotateRight(mem3, root0, parent, c.up, v);
    tree := Plug(c.up, RotatedRight(v));
    Chain(mem0, t0, mem1, t1, mem2, t2);
    Chain(mem0, t0, mem2, t2, mem3, Plug(c.up, v));
    Chain(mem0, t0, mem3, Plug(c.up, v), mem, tree);
    FarNephew(c, t);
  }

  /** Only the near nephew is red: rotate the sibling first. */
  method RotateSiblingRight(mem0: Memory, root0: Ptr, other: Addr, ghost c: Ctx<Addr>, ghost t: Tree<Addr>)
    returns (mem: Memory, root: Ptr)
    requires Shaped(mem0, Plug(c, t), root0) && EraseInv(c, t) && c.LeftOf?
    requires c.sib.Node? && c.sib.node == other && c.sib.color.Black? && IsRed(c.sib.left)
    ensures var c' := LeftOf(c.up, c.node, c.color, RotatedRight(Node(Blacken(c.sib.left), other, Red, c.sib.right)));
            Shaped(mem, Plug(c', t), root) && Rearranged(mem0, Plug(c, t), mem, Plug(c', t))
  {
    ghost var s, cs, t0 := c.sib, RightOf(c.up, c.node, c.color, t), Plug(c, t);
    EraseReads(mem0, root0, c, t);
    assert Plug(LeftOf(cs, other, Black, s.right), s.left) == Plug(cs, s) == t0;
    Repaint(mem0, root0, mem0[other].left, Black, LeftOf(cs, other, Black, s.right), s.left);
    var mem1 := SetColor(mem0, mem0[other].left, Black);
    ghost var s1 := Node(Blacken(s.left), other, Black, s.right);
    Repaint(mem1, root0, other, Red, cs, s1);
    var mem2 := SetColor(mem1, other, Red);
    ghost var s2 := s1.(color := Red);
    mem, root := RotateRight(mem2, root0, other, cs, s2);
    Chain(mem0, t0, mem1, Plug(cs, s1), mem2, Plug(cs, s2));
    Chain(mem0, t0, mem2, Plug(cs, s2), mem, Plug(cs, RotatedRight(s2)));
  }

  method RotateSiblingLeft(mem0: Memory, root0: Ptr, other: Addr, ghost c: Ctx<Addr>, ghost t: Tree<Addr>)
    returns (mem: Memory, root: Ptr)
    requires Shaped(mem0, Plug(c, t), root0) && EraseInv(c, t) && c.RightOf?
    requires c.sib.Node? && c.sib.node == other && c.sib.color.Black? && IsRed(c.sib.right)
    ensures var c' := RightOf(c.up, c.node, c.color, RotatedLeft(Node(c.sib.left, other, Red, Blacken(c.sib.right))));
            Shaped(mem, Plug(c', t), root) && Rearranged(mem0, Plug(c, t), mem, Plug(c', t))
  {
    ghost var s, cs, t0 := c.sib, LeftOf(c.up, c.node, c.color, t), Plug(c, t);
    EraseReads(mem0, root0, c, t);
    assert Plug(RightOf(cs, other, Black, s.left), s.right) == Plug(cs, s) == t0;
    Repaint(mem0, root0, mem0[other].right, Black, RightOf(cs, other, Black, s.left), s.right);
    var mem1 := SetColor(mem0, mem0[other].right, Black);
    ghost var s1 := Node(s.left, other, Black, Blacken(s.right));
    Repaint(mem1, root0, other, Red, cs, s1);
    var mem2 := SetColor(mem1, other, Red);
    ghost var s2 := s1.(color := Red);
    mem, root := RotateLeft(mem2, root0, other, cs, s2);
    Chain(mem0, t0, mem1, Plug(cs, s1), mem2, Plug(cs, s2));
    Chain(mem0, t0, mem2, Plug(cs, s2), mem, Plug(cs, RotatedLeft(s2)));
  }

  /** Black sibling with a red child. */
  method PayFromRight(mem0: Memory, root0: Ptr, parent: Addr, other0: Addr, ghost c0: Ctx<Addr>, ghost t: Tree<Addr>)
    returns (mem: Memory, root: Ptr, ghost tree: Tree<Addr>)
    requires Shaped(mem0, Plug(c0, t), root0) && EraseInv(c0, t) && !IsRed(t) && c0.LeftOf? && c0.node == parent
    requires c0.sib.Node? && c0.sib.node == other0 && c0.sib.color.Black? && (IsRed(c0.sib.left) || IsRed(c0.sib.right))
    ensures Shaped(mem, tree, root) && RedBlack(tree) && Rearranged(mem0, Plug(c0, t), mem, tree)
  {
    mem, root := mem0, root0;
    ghost var c := c0;
    var other := other0;
    EraseReads(mem, root, c, t);
    if mem[other].right == 0 || mem[mem[other].right].color == Black {
      mem, root := RotateSiblingRight(mem, root, other, c, t);
      NearNephew(c, t);
      c := LeftOf(c.up, parent, c.color, RotatedRight(Node(Blacken(c.sib.left), other, Red, c.sib.right)));
      EraseReads(mem, root, c, t);
      other := mem[parent].right;
    }
    ghost var mem1, t1 := mem, Plug(c, t);
    mem, root, tree := RotateParentLeft(mem, root, parent, other, c, t);
    Chain(mem0, Plug(c0, t), mem1, t1, mem, tree);
  }

  method PayFromLeft(mem0: Memory, root0: Ptr, parent: Addr, other0: Addr, ghost c0: Ctx<Addr>, ghost t: Tree<Addr>)
    returns (mem: Memory, root: Ptr, ghost tree: Tree<Addr>)
    requires Shaped(mem0, Plug(c0, t), root0) && EraseInv(c0, t) && !IsRed(t) && c0.RightOf? && c0.node == parent
    requires c0.sib.Node? && c0.sib.node == other0 && c0.sib.color.Black? && (IsRed(c0.sib.right) || IsRed(c0.sib.left))
    ensures Shaped(mem, tree, root) && RedBlack(tree) && Rearranged(mem0, Plug(c0, t), mem, tree)
  {
    mem, root := mem0, root0;
    ghost var c := c0;
    var other := other0;
    EraseReads(mem, root, c, t);
    if mem[other].left == 0 || mem[mem[other].left].color == Black {
      mem, root := RotateSiblingLeft(mem, root, other, c, t);
      NearNephew(c, t);
      c := RightOf(c.up, parent, c.color, RotatedLeft(Node(c.sib.left, other, Red, Blacken(c.sib.right))));
      EraseReads(mem, root, c, t);
      other := mem[parent].left;
    }
    ghost var mem1, t1 := mem, Plug(c, t);
    mem, root, tree := RotateParentRight(mem, root, parent, other, c, t);
    Chain(mem0, Plug(c0, t), mem1, t1, mem, tree);
  }

  /** One round of the loop of __rb_erase_color; `done` stands for `break`. */
  method EraseStepLeft(mem0: Memory, root0: Ptr, n: Ptr, parent: Addr, ghost c0: Ctx<Addr>, ghost t0: Tree<Addr>)
    returns (mem: Memory, root: Ptr, n': Ptr, parent': Ptr, done: bool, ghost c: Ctx<Addr>, ghost t: Tree<Addr>)
    requires Shaped(mem0, Plug(c0, t0), root0) && EraseInv(c0, t0) && !IsRed(t0)
    requires n == Ref(t0) && c0.LeftOf? && parent == c0.node
    ensures Shaped(mem, Plug(c, t), root) && EraseInv(c, t) && n' == Ref(t) && parent' == CtxRef(c, 0)
    ensures Rearranged(mem0, Plug(c0, t0), mem, Plug(c, t))
    ensures if done then c.Top? else t.Node? && (Depth(c) < Depth(c0) || (Depth(c) == Depth(c0) && IsRed(t)))
  {
    mem, root, c, t := mem0, root0, c0, t0;
    EraseReads(mem, root, c, t);
    var other := mem[parent].right;
    if mem[other].color == Red {
      mem, root := RaiseRightSibling(mem, root, parent, other, c, t);
      c := LeftOf(LeftOf(c.up, other, Black, c.sib.right), parent, Red, c.sib.left);
      EraseReads(mem, root, c, t);
      other := mem[parent].right;
    }
    ghost var mem1, t1 := mem, Plug(c, t);
    if (mem[other].left == 0 || mem[mem[other].left].color == Black) &&
       (mem[other].right == 0 || mem[mem[other].right].color == Black) {
      Repaint(mem, root, other, Red, RightOf(c.up, parent, c.color, t), c.sib);
      mem := SetColor(mem, other, Red);
      BlackNephews(c, t);
      c, t := c.up, Node(t, parent, c.color, c.sib.(color := Red));
      Reads(mem, root, c, t);
      n', parent', done := parent, mem[parent].parent, false;
    } else {
      ghost var tree;
      mem, root, tree := PayFromRight(mem, root, parent, other, c, t);
      c, t, n', parent', done := Top, tree, root, 0, true;
    }
    Chain(mem0, Plug(c0, t0), mem1, t1, mem, Plug(c, t));
  }

  method EraseStepRight(mem0: Memory, root0: Ptr, n: Ptr, parent: Addr, ghost c0: Ctx<Addr>, ghost t0: Tree<Addr>)
    returns (mem: Memory, root: Ptr, n': Ptr, parent': Ptr, done: bool, ghost c: Ctx<Addr>, ghost t: Tree<Addr>)
    requires Shaped(mem0, Plug(c0, t0), root0) && EraseInv(c0, t0) && !IsRed(t0)
    requires n == Ref(t0) && c0.RightOf? && parent == c0.node
    ensures Shaped(mem, Plug(c, t), root) && EraseInv(c, t) && n' == Ref(t) && parent' == CtxRef(c, 0)
    ensures Rearranged(mem0, Plug(c0, t0), mem, Plug(c, t))
    ensures if done then c.Top? else t.Node? && (Depth(c) < Depth(c0) || (Depth(c) == Depth(c0) && IsRed(t)))
  {
    mem, root, c, t := mem0, root0, c0, t0;
    EraseReads(mem, root, c, t);
    var other := mem[parent].left;
    if mem[other].color == Red {
      mem, root := RaiseLeftSibling(mem, root, parent, other, c, t);
      c := RightOf(RightOf(c.up, other, Black, c.sib.left), parent, Red, c.sib.right);
      EraseReads(mem, root, c, t);
      other := mem[parent].left;
    }
    ghost var mem1, t1 := mem, Plug(c, t);
    if (mem[other].right == 0 || mem[mem[other].right].color == Black) &&
       (mem[other].left == 0 || mem[mem[other].left].color == Black) {
      Repaint(mem, root, other, Red, LeftOf(c.up, parent, c.color, t), c.sib);
      mem := SetColor(mem, other, Red);
      BlackNephews(c, t);
      c, t := c.up, Node(c.sib.(color := Red), parent, c.color, t);
      Reads(mem, root, c, t);
      n', parent', done := parent, mem[parent].parent, false;
    } else {
      ghost var tree;
      mem, root, tree := PayFromLeft(mem, root, parent, other, c, t);
      c, t, n', parent', done := Top, tree, root, 0, true;
    }
    Chain(mem0, Plug(c0, t0), mem1, t1, mem, Plug(c, t));
  }

  /** __rb_erase_color: `n0`, possibly NULL, is the child of `parent0` that misses a black node. */
  method EraseColor(mem0: Memory, root0: Ptr, n0: Ptr, parent0: Ptr, ghost c0: Ctx<Addr>, ghost t0: Tree<Addr>)
    returns (mem: Memory, root: Ptr, ghost tree: Tree<Addr>)
    requires Shaped(mem0, Plug(c0, t0), root0) && EraseInv(c0, t0) && n0 == Ref(t0) && parent0 == CtxRef(c0, 0)
    ensures Shaped(mem, tree, root) && RedBlack(tree) && Rearranged(mem0, Plug(c0, t0), mem, tree)
  {
    mem, root := mem0, root0;
    var n, parent, done := n0, parent0, false;
    ghost var c, t := c0, t0;
    ghost var start := Plug(c, t);
    Entry(mem, root, c, t);
    while !done && (n == 0 || mem[n].color == Black) && n != root
      invariant Shaped(mem, Plug(c, t), root) && EraseInv(c, t) && n == Ref(t) && parent == CtxRef(c, 0)
      invariant (n != 0 ==> n in mem && mem[n].color == t.color) && (n == root <==> c.Top?) && (done ==> c.Top?)
      invariant Rearranged(mem0, start, mem, Plug(c, t))
      decreases !done, 2 * Depth(c) + (if IsRed(t) then 0 else 1)
    {
      EraseReads(mem, root, c, t);
      ghost var mem1, t1 := mem, Plug(c, t);
      if mem[parent].left == n {
        mem, root, n, parent, done, c, t := EraseStepLeft(mem, root, n, parent, c, t);
      } else {
        mem, root, n, parent, done, c, t := EraseStepRight(mem, root, n, parent, c, t);
      }
      Chain(mem0, start, mem1, t1, mem, Plug(c, t));
      Entry(mem, root, c, t);
    }
    EraseEnds(c, t);
    tree := Plug(c, Blacken(t));
    if n != 0 {
      Repaint(mem, root, n, Black, c, t);
      Chain(mem0, start, mem, Plug(c, t), SetColor(mem, n, Black), tree);
      mem := SetColor(mem, n, Black);
    }
  }

  /** What the loop of __rb_erase_color tests at its head. */
  lemma {:induction false} Entry(mem: Memory, root: Ptr, c: Ctx<Addr>, t: Tree<Addr>)
    requires Shaped(mem, Plug(c, t), root)
    ensures t.Node? ==> t.node in mem && mem[t.node].color == t.color && mem[t.node].parent == CtxRef(c, 0)
    ensures Ref(t) == root <==> c.Top?
  {
    Reads(mem, root, c, t);
    if !c.Top? { RootAbove(c, Ref(t)); }
  }

  /** The leftmost (rightmost) node of a subtree. */
  method Leftmost(mem: Memory, root: Ptr, n0: Addr, ghost c: Ctx<Addr>, ghost t: Tree<Addr>)
    returns (n: Addr, ghost spine: Ctx<Addr>, ghost u: Tree<Addr>)
    requires Shaped(mem, Plug(c, t), root) && t.Node? && n0 == t.node
    ensures t == Plug(spine, u) && LeftSpine(spine) && u.Node? && u.left.Leaf? && n == u.node
  {
    n, spine, u := n0, Top, t;
    Reads(mem, root, c, t);
    while mem[n].left != 0
      invariant t == Plug(spine, u) && LeftSpine(spine) && u.Node? && n == u.node
      invariant n in mem && mem[n].left == Ref(u.left)
      decreases u
    {
      n := mem[n].left;
      spine, u := LeftOf(spine, u.node, u.color, u.right), u.left;
      PlugWithin(spine, c, u);
      Reads(mem, root, Within(spine, c), u);
    }
  }

  method Rightmost(mem: Memory, root: Ptr, n0: Addr, ghost c: Ctx<Addr>, ghost t: Tree<Addr>)
    returns (n: Addr, ghost spine: Ctx<Addr>, ghost u: Tree<Addr>)
    requires Shaped(mem, Plug(c, t), root) && t.Node? && n0 == t.node
    ensures t == Plug(spine, u) && RightSpine(spine) && u.Node? && u.right.Leaf? && n == u.node
  {
    n, spine, u := n0, Top, t;
    Reads(mem, root, c, t);
    while mem[n].right != 0
      invariant t == Plug(spine, u) && RightSpine(spine) && u.Node? && n == u.node
      invariant n in mem && mem[n].right == Ref(u.right)
      decreases u
    {
      n := mem[n].right;
      spine, u := RightOf(spine, u.node, u.color, u.left), u.right;
      PlugWithin(spine, c, u);
      Reads(mem, root, Within(spine, c), u);
    }
  }

  /** What an erasure does: exactly `n` leaves the tree, only linked nodes are written. */
  ghost predicate Erased(mem0: Memory, t0: Tree<Addr>, n: Addr, mem: Memory, t: Tree<Addr>)
  {
    && Inorder(t) == Without(Inorder(t0), n) && Nodes(t) == Nodes(t0) - {n}
    && SameExcept(mem0, mem, Nodes(t)) && mem.Keys == mem0.Keys
  }

  lemma {:induction false} ThenRearranged(m0: Memory, t0: Tree<Addr>, n: Addr, m1: Memory, t1: Tree<Addr>, m2: Memory,
                                          t2: Tree<Addr>)
    requires Erased(m0, t0, n, m1, t1) && Rearranged(m1, t1, m2, t2)
    ensures Erased(m0, t0, n, m2, t2)
  {
  }

  /** rb_erase of a node with at most one child. */
  method EraseOuter(mem0: Memory, root0: Ptr, n: Addr, ghost c: Ctx<Addr>, ghost t: Tree<Addr>)
    returns (mem: Memory, root: Ptr, ghost tree: Tree<Addr>)
    requires Shaped(mem0, Plug(c, t), root0) && RedBlack(Plug(c, t)) && t.Node? && t.node == n
      && (t.left.Leaf? || t.right.Leaf?)
    ensures Shaped(mem, tree, root) && RedBlack(tree) && Erased(mem0, Plug(c, t), n, mem, tree)
  {
    Reads(mem0, root0, c, t);
    var child := if mem0[n].left == 0 then mem0[n].right else mem0[n].left;
    var parent, color := mem0[n].parent, mem0[n].color;
    ghost var ct := if t.left.Leaf? then t.right else t.left;
    EraseStarts(c, t, ct);
    RaisedInorder(c, t, ct);
    mem, root := RaiseChild(mem0, root0, n, child, parent, c, t, ct);
    tree := Plug(c, ct);
    if color == Black {
      ghost var mem1 := mem;
      mem, root, tree := EraseColor(mem, root, child, parent, c, ct);
      ThenRearranged(mem0, Plug(c, t), n, mem1, Plug(c, ct), mem, tree);
    }
  }

  /** rb_erase of a node with two children. */
  method EraseInner(mem0: Memory, root0: Ptr, o: Addr, ghost c: Ctx<Addr>, ghost t: Tree<Addr>)
    returns (mem: Memory, root: Ptr, ghost tree: Tree<Addr>)
    requires Shaped(mem0, Plug(c, t), root0) && RedBlack(Plug(c, t)) && t.Node? && t.node == o && t.left.Node?
      && t.right.Node?
    ensures Shaped(mem, tree, root) && RedBlack(tree) && Erased(mem0, Plug(c, t), o, mem, tree)
  {
    Reads(mem0, root0, c, t);
    var n;
    ghost var spine, u;
    n, spine, u := Leftmost(mem0, root0, mem0[o].right, RightOf(c, o, t.color, t.left), t.right);
    PromotionColors(c, t.left, o, t.color, spine, u);
    PromotedInorder(c, t, spine, u);
    var child, parent, color;
    mem, root, child, parent, color := PromoteSuccessor(mem0, root0, o, n, c, t, spine, u);
    ghost var place := Within(spine, RightOf(c, n, t.color, t.left));
    tree := Plug(place, u.right);
    if color == Black {
      ghost var mem1 := mem;
      mem, root, tree := EraseColor(mem, root, child, parent, place, u.right);
      ThenRearranged(mem0, Plug(c, t), o, mem1, Plug(place, u.right), mem, tree);
    }
  }

  /** rb_erase */
  method Erase(mem0: Memory, root0: Ptr, n: Addr, ghost tree0: Tree<Addr>)
    returns (mem: Memory, root: Ptr, ghost tree: Tree<Addr>)
    requires Shaped(mem0, tree0, root0) && RedBlack(tree0) && n in Nodes(tree0)
    ensures Shaped(mem, tree, root) && RedBlack(tree) && Erased(mem0, tree0, n, mem, tree)
  {
    ghost var c, t := Locate(Top, tree0, n);
    Reads(mem0, root0, c, t);
    if mem0[n].left == 0 || mem0[n].right == 0 {
      mem, root, tree := EraseOuter(mem0, root0, n, c, t);
    } else {
      mem, root, tree := EraseInner(mem0, root0, n, c, t);
    }
  }

  lemma {:induction false} RaisedInorder(c: Ctx<Addr>, t: Tree<Addr>, child: Tree<Addr>)
    requires t.Node? && Distinct(Plug(c, t))
    requires (t.left.Leaf? && child == t.right) || (t.right.Leaf? && child == t.left)
    ensures Inorder(Plug(c, child)) == Without(Inorder(Plug(c, t)), t.node)
  {
    PlugInorder(c, child);
    SplitAt(c, t);
    WithoutAt(Before(c) + Inorder(t.left), t.node, Inorder(t.right) + After(c));
    OneSide(Before(c), Inorder(child), After(c));
  }

  lemma {:induction false} OneSide(b: seq<Addr>, s: seq<Addr>, a: seq<Addr>)
    ensures b + s + a == (b + []) + (s + a) && b + s + a == (b + s) + ([] + a)
  {
  }

  lemma {:induction false} PromotedInorder(c: Ctx<Addr>, t: Tree<Addr>, spine: Ctx<Addr>, u: Tree<Addr>)
    requires t.Node? && t.right == Plug(spine, u) && u.Node? && u.left.Leaf? && LeftSpine(spine) && Distinct(Plug(c, t))
    ensures Inorder(Plug(c, Promoted(t.left, u.node, t.color, spine, u.right))) == Without(Inorder(Plug(c, t)), t.node)
  {
    PromotionInorder(c, t.left, t.node, t.color, spine, u);
    SplitAt(c, t);
    WithoutAt(Before(c) + Inorder(t.left), t.node, Inorder(t.right) + After(c));
  }

  // ----- walking -----

  /** rb_first */
  method First(mem: Memory, root: Ptr, ghost tree: Tree<Addr>) returns (n: Ptr)
    requires Shaped(mem, tree, root)
    ensures n == FirstOf(Inorder(tree))
  {
    if root == 0 {
      return 0;
    }
    ghost var spine, u;
    n, spine, u := Leftmost(mem, root, root, Top, tree);
    LeftSpineFirst(spine);
    PlugInorder(spine, u);
  }

  /** rb_last */
  method Last(mem: Memory, root: Ptr, ghost tree: Tree<Addr>) returns (n: Ptr)
    requires Shaped(mem, tree, root)
    ensures n == LastOf(Inorder(tree))
  {
    if root == 0 {
      return 0;
    }
    ghost var spine, u;
    n, spine, u := Rightmost(mem, root, root, Top, tree);
    RightSpineLast(spine);
    PlugInorder(spine, u);
  }

  /** rb_next; a cleared node has no successor. */
  method Next(mem: Memory, root: Ptr, n: Addr, ghost tree: Tree<Addr>)
    returns (next: Ptr, ghost a: seq<Addr>, ghost b: seq<Addr>)
    requires Shaped(mem, tree, root) && (n in Nodes(tree) || (n in mem && mem[n].parent == n))
    ensures n !in Nodes(tree) ==> next == 0
    ensures n in Nodes(tree) ==> Inorder(tree) == a + [n] + b && n !in a && n !in b && next == FirstOf(b)
  {
    a, b := [], [];
    Member(mem, root, n, tree);
    if mem[n].parent == n {
      return 0, a, b;
    }
    ghost var c, t := Locate(Top, tree, n);
    SplitAt(c, t);
    Reads(mem, root, c, t);
    a, b := Before(c) + Inorder(t.left), Inorder(t.right) + After(c);
    if mem[n].right != 0 {
      ghost var spine, u;
      next, spine, u := Leftmost(mem, root, mem[n].right, RightOf(c, n, t.color, t.left), t.right);
      LeftSpineFirst(spine);
      PlugInorder(spine, u);
    } else {
      next := ClimbNext(mem, root, n, c, t);
    }
  }

  /** The upward loop of rb_next. */
  method ClimbNext(mem: Memory, root: Ptr, n0: Addr, ghost c0: Ctx<Addr>, ghost t0: Tree<Addr>) returns (parent: Ptr)
    requires Shaped(mem, Plug(c0, t0), root) && t0.Node? && n0 == t0.node
    ensures parent == FirstOf(After(c0))
  {
    ghost var c, t := c0, t0;
    var n := n0;
    Reads(mem, root, c, t);
    parent := mem[n].parent;
    while parent != 0 && n == mem[parent].right
      invariant Shaped(mem, Plug(c, t), root) && t.Node? && n == t.node && parent == CtxRef(c, 0)
        && (parent != 0 ==> parent in mem)
      invariant After(c) == After(c0)
      decreases Depth(c)
    {
      Side(mem, root, c, t);
      c, t := c.up, Around(c, t);
      Reads(mem, root, c, t);
      n := parent;
      parent := mem[n].parent;
    }
    if !c.Top? { Side(mem, root, c, t); }
  }

  lemma {:induction false} LastAmong(a: seq<Addr>, b: seq<Addr>, u: Tree<Addr>)
    requires u.Node? && u.right.Leaf?
    ensures LastOf(a + (b + Inorder(u))) == LastOf(a + (b + Inorder(u) + [])) == u.node
  {
    assert Inorder(u) == Inorder(u.left) + [u.node] + [];
    assert b + Inorder(u) + [] == b + Inorder(u);
  }

  /** rb_prev; a cleared node has no predecessor. */
  method Prev(mem: Memory, root: Ptr, n: Addr, ghost tree: Tree<Addr>)
    returns (prev: Ptr, ghost a: seq<Addr>, ghost b: seq<Addr>)
    requires Shaped(mem, tree, root) && (n in Nodes(tree) || (n in mem && mem[n].parent == n))
    ensures n !in Nodes(tree) ==> prev == 0
    ensures n in Nodes(tree) ==> Inorder(tree) == a + [n] + b && n !in a && n !in b && prev == LastOf(a)
  {
    a, b := [], [];
    Member(mem, root, n, tree);
    if mem[n].parent == n {
      return 0, a, b;
    }
    ghost var c, t := Locate(Top, tree, n);
    SplitAt(c, t);
    Reads(mem, root, c, t);
    a, b := Before(c) + Inorder(t.left), Inorder(t.right) + After(c);
    if mem[n].left != 0 {
      ghost var spine, u;
      prev, spine, u := Rightmost(mem, root, mem[n].left, LeftOf(c, n, t.color, t.right), t.left);
      RightSpineLast(spine);
      PlugInorder(spine, u);
      LastAmong(Before(c), Before(spine), u);
    } else {
      prev := ClimbPrev(mem, root, n, c, t);
    }
  }

  /** The upward loop of rb_prev. */
  method ClimbPrev(mem: Memory, root: Ptr, n0: Addr, ghost c0: Ctx<Addr>, ghost t0: Tree<Addr>) returns (parent: Ptr)
    requires Shaped(mem, Plug(c0, t0), root) && t0.Node? && n0 == t0.node
    ensures parent == LastOf(Before(c0))
  {
    ghost var c, t := c0, t0;
    var n := n0;
    Reads(mem, root, c, t);
    parent := mem[n].parent;
    while parent != 0 && n == mem[parent].left
      invariant Shaped(mem, Plug(c, t), root) && t.Node? && n == t.node && parent == CtxRef(c, 0)
        && (parent != 0 ==> parent in mem)
      invariant Before(c) == Before(c0)
      decreases Depth(c)
    {
      Side(mem, root, c, t);
      c, t := c.up, Around(c, t);
      Reads(mem, root, c, t);
      n := parent;
      parent := mem[n].parent;
    }
    if !c.Top? { Side(mem, root, c, t); }
  }

  /** A linked node is in memory and is not its own parent, so it is not taken for a
      cleared one. */
  lemma {:induction false} Member(mem: Memory, root: Ptr, n: Addr, tree: Tree<Addr>)
    requires Shaped(mem, tree, root)
    ensures n in Nodes(tree) ==> n in mem && mem[n].parent != n
  {
    if n in Nodes(tree) {
      var c, t := Locate(Top, tree, n);
      Reads(mem, root, c, t);
    }
  }

  /** rb_clear_node of a node that is not linked; rb_empty_node then recognises it. */
  method Clear(mem0: Memory, root: Ptr, n: Addr, ghost tree: Tree<Addr>) returns (mem: Memory)
    requires Shaped(mem0, tree, root) && n in mem0 && n !in Nodes(tree)
    ensures Shaped(mem, tree, root) && IsEmpty(mem, n) && SameExcept(mem0, mem, {n}) && mem.Keys == mem0.Keys
  {
    mem := mem0[n := mem0[n].(parent := n, color := Red)];
    KeepTree(mem0, mem, tree, 0, 0);
  }
}
