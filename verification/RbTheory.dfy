/** Red-black trees as values: trees, one-hole contexts, the in-order sequence and
    the colour rules.  Nothing here touches the heap; module RbTree ties these values
    to the linked nodes of lib/rbtree.c.
 */
module RbTheory {
  import opened Bits
  import opened Sequences

  datatype Color = Red | Black

  datatype Tree<N> = Leaf | Node(left: Tree<N>, node: N, color: Color, right: Tree<N>)

  /** A tree with one subtree missing.  The hole is the left (right) child of `node`
      for LeftOf (RightOf), and `sib` is the other child of `node`. */
  datatype Ctx<N> =
    | Top
    | LeftOf(up: Ctx<N>, node: N, color: Color, sib: Tree<N>)
    | RightOf(up: Ctx<N>, node: N, color: Color, sib: Tree<N>)

  ghost function Plug<N>(c: Ctx<N>, t: Tree<N>): Tree<N>
    decreases c
  {
    match c
    case Top => t
    case LeftOf(up, n, col, s) => Plug(up, Node(t, n, col, s))
    case RightOf(up, n, col, s) => Plug(up, Node(s, n, col, t))
  }

  /** `c` placed inside `outer`. */
  ghost function Within<N>(c: Ctx<N>, outer: Ctx<N>): Ctx<N>
    decreases c
  {
    match c
    case Top => outer
    case LeftOf(up, n, col, s) => LeftOf(Within(up, outer), n, col, s)
    case RightOf(up, n, col, s) => RightOf(Within(up, outer), n, col, s)
  }

  lemma {:induction false} PlugWithin<N>(c: Ctx<N>, outer: Ctx<N>, t: Tree<N>)
    ensures Plug(Within(c, outer), t) == Plug(outer, Plug(c, t))
    decreases c
  {
    match c
    case Top =>
    case LeftOf(up, n, col, s) => PlugWithin(up, outer, Node(t, n, col, s));
    case RightOf(up, n, col, s) => PlugWithin(up, outer, Node(s, n, col, t));
  }

  ghost function Depth<N>(c: Ctx<N>): nat
  {
    if c.Top? then 0 else 1 + Depth(c.up)
  }

  // ----- in-order sequence -----

  ghost function Inorder<N>(t: Tree<N>): seq<N>
  {
    if t.Leaf? then [] else Inorder(t.left) + [t.node] + Inorder(t.right)
  }

  /** What precedes and follows the hole of a context in the in-order sequence. */
  ghost function Before<N>(c: Ctx<N>): seq<N>
  {
    match c
    case Top => []
    case LeftOf(up, _, _, _) => Before(up)
    case RightOf(up, n, _, s) => Before(up) + Inorder(s) + [n]
  }

  ghost function After<N>(c: Ctx<N>): seq<N>
  {
    match c
    case Top => []
    case LeftOf(up, n, _, s) => [n] + Inorder(s) + After(up)
    case RightOf(up, _, _, _) => After(up)
  }

  lemma {:induction false} PlugInorder<N>(c: Ctx<N>, t: Tree<N>)
    ensures Inorder(Plug(c, t)) == Before(c) + Inorder(t) + After(c)
    decreases c
  {
    match c
    case Top =>
    case LeftOf(up, n, col, s) =>
      PlugInorder(up, Node(t, n, col, s));
      Regroup(Before(up), Inorder(t), n, Inorder(s), After(up));
    case RightOf(up, n, col, s) =>
      PlugInorder(up, Node(s, n, col, t));
      Regroup(Before(up), Inorder(s), n, Inorder(t), After(up));
  }

  lemma {:induction false} Regroup<N>(b: seq<N>, l: seq<N>, x: N, r: seq<N>, a: seq<N>)
    ensures b + (l + [x] + r) + a == (b + l) + [x] + (r + a)
    ensures b + (l + [x] + r) + a == b + l + ([x] + r + a) == (b + l + [x]) + r + a
  {
  }

  lemma {:induction false} SameInorder<N>(c: Ctx<N>, t: Tree<N>, u: Tree<N>)
    requires Inorder(t) == Inorder(u)
    ensures Inorder(Plug(c, t)) == Inorder(Plug(c, u))
  {
    PlugInorder(c, t);
    PlugInorder(c, u);
  }

  // ----- node sets -----

  ghost function Nodes<N>(t: Tree<N>): set<N>
  {
    if t.Leaf? then {} else Nodes(t.left) + {t.node} + Nodes(t.right)
  }

  ghost function CtxNodes<N>(c: Ctx<N>): set<N>
  {
    if c.Top? then {} else CtxNodes(c.up) + {c.node} + Nodes(c.sib)
  }

  /** No node occurs twice. */
  ghost predicate Distinct<N>(t: Tree<N>)
  {
    t.Node? ==>
      && Distinct(t.left) && Distinct(t.right)
      && t.node !in Nodes(t.left) && t.node !in Nodes(t.right)
      && Nodes(t.left) !! Nodes(t.right)
  }

  ghost predicate CtxDistinct<N>(c: Ctx<N>)
  {
    !c.Top? ==>
      && CtxDistinct(c.up) && Distinct(c.sib)
      && c.node !in Nodes(c.sib) && c.node !in CtxNodes(c.up)
      && Nodes(c.sib) !! CtxNodes(c.up)
  }

  lemma {:induction false} PlugDistinct<N>(c: Ctx<N>, t: Tree<N>)
    ensures Nodes(Plug(c, t)) == CtxNodes(c) + Nodes(t)
    ensures Distinct(Plug(c, t)) <==> CtxDistinct(c) && Distinct(t) && CtxNodes(c) !! Nodes(t)
    decreases c
  {
    match c
    case Top =>
    case LeftOf(up, n, col, s) => PlugDistinct(up, Node(t, n, col, s));
    case RightOf(up, n, col, s) => PlugDistinct(up, Node(s, n, col, t));
  }

  lemma {:induction false} InorderNodes<N>(t: Tree<N>)
    ensures forall x :: x in Nodes(t) <==> x in Inorder(t)
  {
    if t.Node? {
      InorderNodes(t.left);
      InorderNodes(t.right);
    }
  }

  /** A node splits the in-order sequence in one way only. */
  lemma {:induction false} SplitAt<N>(c: Ctx<N>, t: Tree<N>)
    requires t.Node? && Distinct(Plug(c, t))
    ensures var (a, b) := (Before(c) + Inorder(t.left), Inorder(t.right) + After(c));
      Inorder(Plug(c, t)) == a + [t.node] + b && t.node !in a && t.node !in b
  {
    PlugInorder(c, t);
    Regroup(Before(c), Inorder(t.left), t.node, Inorder(t.right), After(c));
    PlugDistinct(c, t);
    BeforeNodes(c);
    InorderNodes(t.left);
    InorderNodes(t.right);
  }

  lemma {:induction false} InorderNode<N>(t: Tree<N>, x: N)
    ensures x in Nodes(t) <==> x in Inorder(t)
  {
    InorderNodes(t);
  }

  lemma {:induction false} BeforeNodes<N>(c: Ctx<N>)
    ensures forall x :: x in Before(c) || x in After(c) ==> x in CtxNodes(c)
  {
    if !c.Top? {
      BeforeNodes(c.up);
      InorderNodes(c.sib);
    }
  }

  // ----- rotations -----

  ghost function RotatedLeft<N>(t: Tree<N>): Tree<N>
    requires t.Node? && t.right.Node?
  {
    t.right.(left := t.(right := t.right.left))
  }

  ghost function RotatedRight<N>(t: Tree<N>): Tree<N>
    requires t.Node? && t.left.Node?
  {
    t.left.(right := t.(left := t.left.right))
  }

  lemma {:induction false} LeftRotationKeeps<N>(t: Tree<N>)
    requires t.Node? && t.right.Node?
    ensures Inorder(RotatedLeft(t)) == Inorder(t) && Nodes(RotatedLeft(t)) == Nodes(t)
    ensures Distinct(t) ==> Distinct(RotatedLeft(t))
  {
    var a, x, b, y, c := t.left, t.node, t.right.left, t.right.node, t.right.right;
    assert RotatedLeft(t).left == Node(a, x, t.color, b);
    if Distinct(t) {
      assert Distinct(t.right);
      assert Distinct(RotatedLeft(t).left);
    }
    assert Inorder(a) + [x] + (Inorder(b) + [y] + Inorder(c)) == (Inorder(a) + [x] + Inorder(b)) + [y] + Inorder(c);
  }

  lemma {:induction false} RightRotationKeeps<N>(t: Tree<N>)
    requires t.Node? && t.left.Node?
    ensures Inorder(RotatedRight(t)) == Inorder(t) && Nodes(RotatedRight(t)) == Nodes(t)
    ensures Distinct(t) ==> Distinct(RotatedRight(t))
  {
    LeftRotationKeeps(RotatedRight(t));
    var a, x, b, y, c := t.left.left, t.left.node, t.left.right, t.node, t.right;
    assert RotatedRight(t).right == Node(b, y, t.color, c);
    if Distinct(t) {
      assert Distinct(t.left);
      assert Distinct(RotatedRight(t).right);
    }
  }

  /** The position of a node of the tree. */
  lemma {:induction false} Locate<N>(c: Ctx<N>, t: Tree<N>, n: N) returns (c': Ctx<N>, t': Tree<N>)
    requires n in Nodes(t)
    ensures Plug(c', t') == Plug(c, t) && t'.Node? && t'.node == n
    decreases t
  {
    if t.node == n {
      c', t' := c, t;
    } else if n in Nodes(t.left) {
      c', t' := Locate(LeftOf(c, t.node, t.color, t.right), t.left, n);
    } else {
      c', t' := Locate(RightOf(c, t.node, t.color, t.left), t.right, n);
    }
  }

  // ----- colour rules -----

  ghost predicate IsRed<N>(t: Tree<N>) { t.Node? && t.color.Red? }

  ghost function Blacks(col: Color): nat { if col.Black? then 1 else 0 }

  /** Black nodes on the leftmost path; on every path when Balanced. */
  ghost function BlackHeight<N>(t: Tree<N>): nat
  {
    if t.Leaf? then 0 else BlackHeight(t.left) + Blacks(t.color)
  }

  ghost predicate Balanced<N>(t: Tree<N>)
  {
    t.Node? ==> Balanced(t.left) && Balanced(t.right) && BlackHeight(t.left) == BlackHeight(t.right)
  }

  ghost predicate NoRedRed<N>(t: Tree<N>)
  {
    t.Node? ==>
      && NoRedRed(t.left) && NoRedRed(t.right)
      && (t.color.Red? ==> !IsRed(t.left) && !IsRed(t.right))
  }

  ghost predicate RedBlack<N>(t: Tree<N>)
  {
    !IsRed(t) && Balanced(t) && NoRedRed(t)
  }

  ghost function Blacken<N>(t: Tree<N>): Tree<N>
  {
    if t.Leaf? then t else t.(color := Black)
  }

  /** The context fits a hole of black height `k`. */
  ghost predicate CtxBalanced<N>(c: Ctx<N>, k: nat)
  {
    !c.Top? ==> Balanced(c.sib) && BlackHeight(c.sib) == k && CtxBalanced(c.up, k + Blacks(c.color))
  }

  ghost predicate CtxRed<N>(c: Ctx<N>) { !c.Top? && c.color.Red? }

  /** No red-red edge inside the context, leaving aside the edge to the hole. */
  ghost predicate CtxNoRedRed<N>(c: Ctx<N>)
  {
    !c.Top? ==>
      && CtxNoRedRed(c.up) && NoRedRed(c.sib)
      && (c.color.Red? ==> !IsRed(c.sib) && !CtxRed(c.up))
      && (IsRed(c.sib) ==> c.color.Black?)
  }

  /** The root, when the context has one, is black. */
  ghost predicate TopBlack<N>(c: Ctx<N>)
  {
    !c.Top? ==> (if c.up.Top? then c.color.Black? else TopBlack(c.up))
  }

  lemma {:induction false} PlugBalanced<N>(c: Ctx<N>, t: Tree<N>)
    ensures Balanced(Plug(c, t)) <==> Balanced(t) && CtxBalanced(c, BlackHeight(t))
    decreases c
  {
    match c
    case Top =>
    case LeftOf(up, n, col, s) => PlugBalanced(up, Node(t, n, col, s));
    case RightOf(up, n, col, s) => PlugBalanced(up, Node(s, n, col, t));
  }

  lemma {:induction false} PlugNoRedRed<N>(c: Ctx<N>, t: Tree<N>)
    ensures NoRedRed(Plug(c, t)) <==> NoRedRed(t) && CtxNoRedRed(c) && !(IsRed(t) && CtxRed(c))
    decreases c
  {
    match c
    case Top =>
    case LeftOf(up, n, col, s) => PlugNoRedRed(up, Node(t, n, col, s));
    case RightOf(up, n, col, s) => PlugNoRedRed(up, Node(s, n, col, t));
  }

  lemma {:induction false} PlugTop<N>(c: Ctx<N>, t: Tree<N>)
    ensures !IsRed(Plug(c, t)) <==> (if c.Top? then !IsRed(t) else TopBlack(c))
    decreases c
  {
    match c
    case Top =>
    case LeftOf(up, n, col, s) => PlugTop(up, Node(t, n, col, s));
    case RightOf(up, n, col, s) => PlugTop(up, Node(s, n, col, t));
  }

  /** A red-black tree seen from one of its positions. */
  lemma {:induction false} PlugRedBlack<N>(c: Ctx<N>, t: Tree<N>)
    ensures RedBlack(Plug(c, t)) <==>
      && Balanced(t) && CtxBalanced(c, BlackHeight(t))
      && NoRedRed(t) && CtxNoRedRed(c) && !(IsRed(t) && CtxRed(c))
      && (if c.Top? then !IsRed(t) else TopBlack(c))
  {
    PlugBalanced(c, t);
    PlugNoRedRed(c, t);
    PlugTop(c, t);
  }

  // ----- height -----

  ghost function Max(a: int, b: int): int { if a < b then b else a }

  ghost function Height<N>(t: Tree<N>): nat
  {
    if t.Leaf? then 0 else 1 + Max(Height(t.left), Height(t.right))
  }

  lemma {:induction false} HeightFromBlackHeight<N>(t: Tree<N>)
    requires Balanced(t) && NoRedRed(t)
    ensures Height(t) <= 2 * BlackHeight(t) + (if IsRed(t) then 1 else 0)
  {
    if t.Node? {
      HeightFromBlackHeight(t.left);
      HeightFromBlackHeight(t.right);
    }
  }

  lemma {:induction false} SizeFromBlackHeight<N>(t: Tree<N>)
    requires Balanced(t)
    ensures |Inorder(t)| + 1 >= Pow2(BlackHeight(t))
  {
    if t.Node? {
      SizeFromBlackHeight(t.left);
      SizeFromBlackHeight(t.right);
    }
  }

  lemma {:induction false} Pow2Add(a: nat, b: nat)
    ensures Pow2(a + b) == Pow2(a) * Pow2(b)
    decreases a
  {
    if a > 0 { Pow2Add(a - 1, b); }
  }

  lemma {:induction false} Pow2Monotone(a: nat, b: nat)
    requires a <= b
    ensures 1 <= Pow2(a) <= Pow2(b)
    decreases b
  {
    if b > 0 {
      if a == b { Pow2Monotone(a - 1, b - 1); } else { Pow2Monotone(a, b - 1); }
    }
  }

  lemma {:induction false} SquareMonotone(a: nat, b: nat)
    requires a <= b
    ensures a * a <= b * b
  {
    assert a * a <= a * b;
    assert a * b <= b * b;
  }

  /** A red-black tree of n nodes has height at most 2 * log2(n + 1). */
  lemma {:induction false} HeightBound<N>(t: Tree<N>)
    requires RedBlack(t)
    ensures Pow2(Height(t)) <= (|Inorder(t)| + 1) * (|Inorder(t)| + 1)
  {
    var b := BlackHeight(t);
    var n := |Inorder(t)| + 1;
    HeightFromBlackHeight(t);
    SizeFromBlackHeight(t);
    Pow2Monotone(Height(t), 2 * b);
    Pow2Add(b, b);
    SquareMonotone(Pow2(b), n);
  }

  /** At most 2 * log2(n + 1) steps. */
  ghost predicate Logarithmic(steps: nat, n: nat)
  {
    Pow2(steps) <= (n + 1) * (n + 1)
  }

  /** A descent from the root takes no more. */
  lemma {:induction false} StepsBound<N>(t: Tree<N>, steps: nat)
    requires RedBlack(t) && steps <= Height(t)
    ensures Logarithmic(steps, |Inorder(t)|)
  {
    HeightBound(t);
    Pow2Monotone(steps, Height(t));
  }

  // ----- insertion fix-up -----

  /** `t` is the freshly linked node or a recoloured subtree: all rules hold except that
      its red root may hang below a red node or be the root of the whole tree. */
  ghost predicate InsertInv<N>(c: Ctx<N>, t: Tree<N>)
  {
    && IsRed(t) && NoRedRed(t) && Balanced(t)
    && CtxBalanced(c, BlackHeight(t)) && CtxNoRedRed(c) && TopBlack(c)
  }

  /** Subtree of the parent of position `c`, `t`. */
  ghost function Around<N>(c: Ctx<N>, t: Tree<N>): Tree<N>
    requires !c.Top?
  {
    if c.LeftOf? then Node(t, c.node, c.color, c.sib) else Node(c.sib, c.node, c.color, t)
  }

  /** Insertion starts from a red-black tree with one red leaf added. */
  lemma {:induction false} InsertStarts<N>(c: Ctx<N>, n: N)
    requires RedBlack(Plug(c, Leaf))
    ensures InsertInv(c, Node(Leaf, n, Red, Leaf))
  {
    PlugRedBlack(c, Leaf);
  }

  /** Red parent, hence a black grandparent. */
  lemma {:induction false} RedParent<N>(c: Ctx<N>, t: Tree<N>)
    requires InsertInv(c, t) && CtxRed(c)
    ensures !c.up.Top? && c.up.color.Black?
  {
  }

  /** Red uncle: the violation moves two levels up. */
  lemma {:induction false} RecolorStep<N>(c: Ctx<N>, t: Tree<N>)
    requires InsertInv(c, t) && CtxRed(c) && !c.up.Top? && IsRed(c.up.sib)
    ensures Around(c, t).Node?
    ensures var p, u := Around(c, t).(color := Black), c.up.sib.(color := Black);
            var g := if c.up.LeftOf? then Node(p, c.up.node, Red, u) else Node(u, c.up.node, Red, p);
            InsertInv(c.up.up, g)
  {
    assert CtxBalanced(c.up, BlackHeight(t) + Blacks(c.color)) && CtxNoRedRed(c.up) && TopBlack(c.up);
    assert Around(c, t).Node?;
    var p, u := Around(c, t).(color := Black), c.up.sib.(color := Black);
    assert NoRedRed(p) && Balanced(p) && BlackHeight(p) == BlackHeight(t) + 1;
    assert NoRedRed(u) && Balanced(u) && BlackHeight(u) == BlackHeight(t) + 1;
  }

  /** Black uncle, new node on the outer side: one rotation of the grandparent ends it. */
  lemma {:induction false} OuterStep<N>(c: Ctx<N>, t: Tree<N>)
    requires InsertInv(c, t) && CtxRed(c) && !c.up.Top? && !IsRed(c.up.sib)
    ensures var g := Node(c.sib, c.up.node, Red, c.up.sib);
            c.LeftOf? && c.up.LeftOf? ==> InsertInv(LeftOf(c.up.up, c.node, Black, g), t)
    ensures var g := Node(c.up.sib, c.up.node, Red, c.sib);
            c.RightOf? && c.up.RightOf? ==> InsertInv(RightOf(c.up.up, c.node, Black, g), t)
  {
    assert CtxBalanced(c.up, BlackHeight(t) + Blacks(c.color)) && CtxNoRedRed(c.up) && TopBlack(c.up);
  }

  /** New node on the inner side: a rotation of the parent makes it the outer case. */
  lemma {:induction false} InnerStep<N>(c: Ctx<N>, t: Tree<N>)
    requires InsertInv(c, t) && CtxRed(c) && !c.up.Top? && !IsRed(c.up.sib)
    ensures c.RightOf? && c.up.LeftOf? ==>
      InsertInv(LeftOf(c.up, t.node, Red, t.right), Node(c.sib, c.node, Red, t.left))
    ensures c.LeftOf? && c.up.RightOf? ==>
      InsertInv(RightOf(c.up, t.node, Red, t.left), Node(t.right, c.node, Red, c.sib))
  {
    assert CtxBalanced(c.up, BlackHeight(t) + Blacks(c.color)) && CtxNoRedRed(c.up) && TopBlack(c.up);
    assert Balanced(t.left) && NoRedRed(t.left) && Balanced(t.right) && NoRedRed(t.right);
    if c.RightOf? && c.up.LeftOf? {
      var n := Node(c.sib, c.node, Red, t.left);
      assert Balanced(n) && NoRedRed(n) && BlackHeight(n) == BlackHeight(t) == BlackHeight(t.right);
    } else if c.LeftOf? && c.up.RightOf? {
      var n := Node(t.right, c.node, Red, c.sib);
      assert Balanced(n) && NoRedRed(n) && BlackHeight(n) == BlackHeight(t) == BlackHeight(t.left);
    }
  }

  /** When no red-red edge is left, blackening the root finishes. */
  lemma {:induction false} InsertEnds<N>(c: Ctx<N>, t: Tree<N>)
    requires InsertInv(c, t) && !CtxRed(c)
    ensures RedBlack(Blacken(Plug(c, t)))
  {
    PlugBalanced(c, t);
    PlugNoRedRed(c, t);
  }

  // ----- erasure fix-up -----

  /** `t` misses one black node: blackening a red root of `t`, or moving the debt up,
      restores the rules. */
  ghost predicate EraseInv<N>(c: Ctx<N>, t: Tree<N>)
  {
    && Balanced(t) && NoRedRed(Blacken(t))
    && CtxBalanced(c, BlackHeight(t) + 1) && CtxNoRedRed(c) && TopBlack(c)
  }

  lemma {:induction false} EraseEnds<N>(c: Ctx<N>, t: Tree<N>)
    requires EraseInv(c, t) && (IsRed(t) || c.Top?)
    ensures RedBlack(Plug(c, Blacken(t)))
  {
    PlugRedBlack(c, Blacken(t));
  }

  /** The sibling of a subtree that misses a black node is not empty. */
  lemma {:induction false} SiblingExists<N>(c: Ctx<N>, t: Tree<N>)
    requires EraseInv(c, t) && !c.Top?
    ensures c.sib.Node?
    ensures IsRed(c.sib) ==> c.color.Black? && c.sib.left.Node? && c.sib.right.Node?
  {
  }

  /** Red sibling: rotate it above the parent; the new sibling is black. */
  lemma {:induction false} RedSibling<N>(c: Ctx<N>, t: Tree<N>)
    requires EraseInv(c, t) && !c.Top? && IsRed(c.sib)
    ensures c.LeftOf? ==>
      && EraseInv(LeftOf(LeftOf(c.up, c.sib.node, Black, c.sib.right), c.node, Red, c.sib.left), t)
      && c.sib.left.Node? && c.sib.left.color.Black?
    ensures c.RightOf? ==>
      && EraseInv(RightOf(RightOf(c.up, c.sib.node, Black, c.sib.left), c.node, Red, c.sib.right), t)
      && c.sib.right.Node? && c.sib.right.color.Black?
  {
  }

  /** Black sibling with black children: redden it, the parent's subtree now misses one. */
  lemma {:induction false} BlackNephews<N>(c: Ctx<N>, t: Tree<N>)
    requires EraseInv(c, t) && !c.Top? && !IsRed(t)
    requires c.sib.Node? && c.sib.color.Black? && !IsRed(c.sib.left) && !IsRed(c.sib.right)
    ensures EraseInv(c.up, Around(c.(sib := c.sib.(color := Red)), t))
  {
  }

  /** Only the near nephew is red: rotate the sibling so that the far one is. */
  lemma {:induction false} NearNephew<N>(c: Ctx<N>, t: Tree<N>)
    requires EraseInv(c, t) && !c.Top? && c.sib.Node? && c.sib.color.Black?
    ensures c.LeftOf? && IsRed(c.sib.left) && !IsRed(c.sib.right) ==>
      EraseInv(LeftOf(c.up, c.node, c.color, RotatedRight(c.sib.(color := Red, left := Blacken(c.sib.left)))), t)
    ensures c.RightOf? && IsRed(c.sib.right) && !IsRed(c.sib.left) ==>
      EraseInv(RightOf(c.up, c.node, c.color, RotatedLeft(c.sib.(color := Red, right := Blacken(c.sib.right)))), t)
  {
    assert Balanced(c.sib.left) && NoRedRed(c.sib.left);
    assert Balanced(c.sib.right) && NoRedRed(c.sib.right);
    if c.RightOf? && IsRed(c.sib.right) && !IsRed(c.sib.left) {
      var s := RotatedLeft(c.sib.(color := Red, right := Blacken(c.sib.right)));
      assert Balanced(s.left) && NoRedRed(s.left);
    }
    if c.LeftOf? && IsRed(c.sib.left) && !IsRed(c.sib.right) {
      var s := RotatedRight(c.sib.(color := Red, left := Blacken(c.sib.left)));
      assert Balanced(s.right) && NoRedRed(s.right);
    }
  }

  /** The far nephew is red: one rotation of the parent pays the missing black. */
  lemma {:induction false} FarNephew<N>(c: Ctx<N>, t: Tree<N>)
    requires EraseInv(c, t) && !c.Top? && !IsRed(t) && c.sib.Node? && c.sib.color.Black?
    ensures c.LeftOf? && IsRed(c.sib.right) ==>
      RedBlack(Plug(c.up, Node(Node(t, c.node, Black, c.sib.left), c.sib.node, c.color, Blacken(c.sib.right))))
    ensures c.RightOf? && IsRed(c.sib.left) ==>
      RedBlack(Plug(c.up, Node(Blacken(c.sib.left), c.sib.node, c.color, Node(c.sib.right, c.node, Black, t))))
  {
    assert Balanced(c.sib.left) && NoRedRed(c.sib.left);
    assert Balanced(c.sib.right) && NoRedRed(c.sib.right);
    if c.LeftOf? && IsRed(c.sib.right) {
      var p, f := Node(t, c.node, Black, c.sib.left), Blacken(c.sib.right);
      assert Balanced(p) && NoRedRed(p) && Balanced(f) && NoRedRed(f);
      Pays(c, BlackHeight(t), p, c.sib.node, f);
    } else if c.RightOf? && IsRed(c.sib.left) {
      var p, f := Node(c.sib.right, c.node, Black, t), Blacken(c.sib.left);
      assert Balanced(p) && NoRedRed(p) && Balanced(f) && NoRedRed(f);
      Pays(c, BlackHeight(t), f, c.sib.node, p);
    }
  }

  /** Two black trees of the right height under the colour of the old parent. */
  lemma {:induction false} Pays<N>(c: Ctx<N>, h: nat, a: Tree<N>, n: N, b: Tree<N>)
    requires !c.Top? && CtxBalanced(c, h + 1) && CtxNoRedRed(c) && TopBlack(c)
    requires Balanced(a) && NoRedRed(a) && Balanced(b) && NoRedRed(b) && !IsRed(a) && !IsRed(b)
      && BlackHeight(a) == BlackHeight(b) == h + 1
    ensures RedBlack(Plug(c.up, Node(a, n, c.color, b)))
  {
    PlugRedBlack(c.up, Node(a, n, c.color, b));
  }

  /** Taking a node with at most one child out of a red-black tree. */
  lemma {:induction false} EraseStarts<N>(c: Ctx<N>, t: Tree<N>, child: Tree<N>)
    requires RedBlack(Plug(c, t)) && t.Node?
    requires (t.left.Leaf? && child == t.right) || (t.right.Leaf? && child == t.left)
    ensures t.color.Red? ==> RedBlack(Plug(c, child))
    ensures t.color.Black? ==> EraseInv(c, child)
  {
    PlugRedBlack(c, t);
    PlugRedBlack(c, child);
  }

  // ----- erasure of a node with two children -----

  /** Every step of the context goes left: its hole is the leftmost position. */
  ghost predicate LeftSpine<N>(c: Ctx<N>)
  {
    !c.Top? ==> c.LeftOf? && LeftSpine(c.up)
  }

  lemma {:induction false} LeftSpineFirst<N>(c: Ctx<N>)
    requires LeftSpine(c)
    ensures Before(c) == []
  {
    if !c.Top? { LeftSpineFirst(c.up); }
  }

  /** Every step goes right. */
  ghost predicate RightSpine<N>(c: Ctx<N>)
  {
    !c.Top? ==> c.RightOf? && RightSpine(c.up)
  }

  lemma {:induction false} RightSpineLast<N>(c: Ctx<N>)
    requires RightSpine(c)
    ensures After(c) == []
  {
    if !c.Top? { RightSpineLast(c.up); }
  }

  /** The colour rules of a context do not depend on which node sits in it. */
  lemma {:induction false} RenameBase<N>(c: Ctx<N>, up: Ctx<N>, a: N, b: N, col: Color, s: Tree<N>, k: nat)
    ensures var (x, y) := (Within(c, RightOf(up, a, col, s)), Within(c, RightOf(up, b, col, s)));
      && (CtxBalanced(x, k) ==> CtxBalanced(y, k)) && (CtxNoRedRed(x) ==> CtxNoRedRed(y))
      && (TopBlack(x) ==> TopBlack(y)) && (CtxRed(x) <==> CtxRed(y)) && !x.Top? && !y.Top?
  {
    if !c.Top? { RenameBase(c.up, up, a, b, col, s, k + Blacks(c.color)); }
  }

  /** Erasing `old` (two children): its successor `n`, with at most a right child, leaves
      its own place and takes over the place and colour of `old`. */
  ghost function Promoted<N>(l: Tree<N>, n: N, col: Color, c: Ctx<N>, child: Tree<N>): Tree<N>
  {
    Node(l, n, col, Plug(c, child))
  }

  lemma {:induction false} PromotionColors<N>(up: Ctx<N>, l: Tree<N>, old_: N, col: Color, c: Ctx<N>, u: Tree<N>)
    requires u.Node? && u.left.Leaf?
    requires RedBlack(Plug(up, Node(l, old_, col, Plug(c, u))))
    ensures var place := Within(c, RightOf(up, u.node, col, l));
      && Plug(up, Promoted(l, u.node, col, c, u.right)) == Plug(place, u.right)
      && (u.color.Black? ==> EraseInv(place, u.right))
      && (u.color.Red? ==> RedBlack(Plug(place, u.right)))
  {
    var was, place := Within(c, RightOf(up, old_, col, l)), Within(c, RightOf(up, u.node, col, l));
    PlugWithin(c, RightOf(up, old_, col, l), u);
    PlugWithin(c, RightOf(up, u.node, col, l), u.right);
    EraseStarts(was, u, u.right);
    RenameBase(c, up, old_, u.node, col, l, BlackHeight(u.right) + 1);
    RenameBase(c, up, old_, u.node, col, l, BlackHeight(u.right));
    PlugRedBlack(was, u.right);
    PlugRedBlack(place, u.right);
  }

  /** In-order effect: exactly `old` disappears. */
  lemma {:induction false} PromotionInorder<N>(up: Ctx<N>, l: Tree<N>, old_: N, col: Color, c: Ctx<N>, u: Tree<N>)
    requires u.Node? && u.left.Leaf? && LeftSpine(c)
    ensures Inorder(Plug(up, Node(l, old_, col, Plug(c, u))))
         == (Before(up) + Inorder(l)) + [old_] + (Inorder(Plug(c, u)) + After(up))
    ensures Inorder(Plug(up, Promoted(l, u.node, col, c, u.right)))
         == (Before(up) + Inorder(l)) + (Inorder(Plug(c, u)) + After(up))
  {
    PlugInorder(up, Node(l, old_, col, Plug(c, u)));
    PlugInorder(up, Promoted(l, u.node, col, c, u.right));
    PlugInorder(c, u);
    PlugInorder(c, u.right);
    LeftSpineFirst(c);
    assert Inorder(u) == [u.node] + Inorder(u.right);
    Promotes(Before(up), Inorder(l), old_, u.node, Inorder(u.right) + After(c), After(up));
    assert [] + Inorder(u) == Inorder(u) && [] + Inorder(u.right) == Inorder(u.right);
    assert Inorder(Plug(c, u)) == [u.node] + (Inorder(u.right) + After(c));
  }

  lemma {:induction false} Promotes<N>(b: seq<N>, l: seq<N>, x: N, n: N, r: seq<N>, a: seq<N>)
    ensures b + (l + [x] + ([n] + r)) + a == (b + l) + [x] + (([n] + r) + a)
    ensures b + (l + [n] + r) + a == (b + l) + (([n] + r) + a)
  {
  }
}
