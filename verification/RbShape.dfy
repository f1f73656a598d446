/**
  The shape of an intrusive red-black tree: which node sits where, with which
  colour.  Everything here is a value; the heap only enters through the node
  references stored in a shape.
 */
module RbShape {
  import opened Bits

  datatype Color = Black | Red

  /** One element with the four fields of its RB_ENTRY.  The key stands for the
      element's place in the total order that the comparison function defines. */
  class Node {
    const key: int
    var left: Node?
    var right: Node?
    var parent: Node?
    var color: Color

    constructor (key: int)
      ensures this.key == key
    {
      this.key := key;
      left, right, parent, color := null, null, null, Black;
    }
  }

  datatype Tree = Leaf | Bin(l: Tree, n: Node, c: Color, r: Tree)

  /** A tree with one subtree cut out.  OnL means the hole is the left child of n
      and sib is n's right subtree; OnR is the mirror image. */
  datatype Ctx =
    | Top
    | OnL(up: Ctx, n: Node, c: Color, sib: Tree)
    | OnR(up: Ctx, n: Node, c: Color, sib: Tree)

  ghost function RootOf(t: Tree): Node? {
    if t.Leaf? then null else t.n
  }

  ghost function CtxNode(x: Ctx): Node? {
    if x.Top? then null else x.n
  }

  ghost function Nodes(t: Tree): set<Node> {
    match t
    case Leaf => {}
    case Bin(l, n, _, r) => Nodes(l) + {n} + Nodes(r)
  }

  ghost function CtxNodes(x: Ctx): set<Node> {
    match x
    case Top => {}
    case OnL(up, n, _, sib) => {n} + Nodes(sib) + CtxNodes(up)
    case OnR(up, n, _, sib) => {n} + Nodes(sib) + CtxNodes(up)
  }

  ghost function Inorder(t: Tree): seq<Node> {
    match t
    case Leaf => []
    case Bin(l, n, _, r) => Inorder(l) + [n] + Inorder(r)
  }

  /** The nodes in order before the hole, and after it. */
  ghost function Before(x: Ctx): seq<Node> {
    match x
    case Top => []
    case OnL(up, _, _, _) => Before(up)
    case OnR(up, n, _, sib) => Before(up) + Inorder(sib) + [n]
  }

  ghost function After(x: Ctx): seq<Node> {
    match x
    case Top => []
    case OnL(up, n, _, sib) => [n] + Inorder(sib) + After(up)
    case OnR(up, _, _, _) => After(up)
  }

  ghost function Plug(x: Ctx, t: Tree): Tree
    decreases x
  {
    match x
    case Top => t
    case OnL(up, n, c, sib) => Plug(up, Bin(t, n, c, sib))
    case OnR(up, n, c, sib) => Plug(up, Bin(sib, n, c, t))
  }

  ghost predicate SortedKeys(s: seq<Node>) {
    forall i, j :: 0 <= i < j < |s| ==> s[i].key < s[j].key
  }

  // ---------- separation ----------

  /** No node occurs twice. */
  ghost predicate Sep(t: Tree) {
    match t
    case Leaf => true
    case Bin(l, n, _, r) =>
      Sep(l) && Sep(r) && n !in Nodes(l) && n !in Nodes(r) && Nodes(l) !! Nodes(r)
  }

  /** No node occurs twice in x, none of them in the set hole. */
  ghost predicate CtxSep(x: Ctx, hole: set<Node>) {
    match x
    case Top => true
    case OnL(up, n, _, sib) =>
      Sep(sib) && n !in hole && n !in Nodes(sib) && hole !! Nodes(sib) &&
      CtxSep(up, hole + {n} + Nodes(sib))
    case OnR(up, n, _, sib) =>
      Sep(sib) && n !in hole && n !in Nodes(sib) && hole !! Nodes(sib) &&
      CtxSep(up, Nodes(sib) + {n} + hole)
  }

  // ---------- the colour rules ----------

  ghost predicate IsBlack(t: Tree) {
    t.Leaf? || t.c.Black?
  }

  ghost function Weight(c: Color): nat {
    if c.Black? then 1 else 0
  }

  ghost function BlackHeight(t: Tree): nat {
    if t.Leaf? then 0 else BlackHeight(t.l) + Weight(t.c)
  }

  /** No red node has a red child, and all paths carry the same number of black
      nodes. */
  ghost predicate Balanced(t: Tree) {
    match t
    case Leaf => true
    case Bin(l, _, c, r) =>
      Balanced(l) && Balanced(r) && BlackHeight(l) == BlackHeight(r) &&
      (c.Red? ==> IsBlack(l) && IsBlack(r))
  }

  ghost predicate ParentBlack(x: Ctx) {
    x.Top? || x.c.Black?
  }

  /** x obeys the colour rules around a hole of black height h; a red node in x has
      a black parent. */
  ghost predicate CtxBalanced(x: Ctx, h: nat) {
    match x
    case Top => true
    case OnL(up, _, c, sib) =>
      Balanced(sib) && BlackHeight(sib) == h &&
      (c.Red? ==> IsBlack(sib) && !up.Top? && up.c.Black?) && CtxBalanced(up, h + Weight(c))
    case OnR(up, _, c, sib) =>
      Balanced(sib) && BlackHeight(sib) == h &&
      (c.Red? ==> IsBlack(sib) && !up.Top? && up.c.Black?) && CtxBalanced(up, h + Weight(c))
  }

  /** A red root that may sit under a red parent: the one breach of the rules that
      insertion has to repair. */
  ghost predicate RedAt(x: Ctx, t: Tree) {
    t.Bin? && t.c.Red? && Balanced(t) && CtxBalanced(x, BlackHeight(t))
  }

  ghost function Depth(x: Ctx): nat {
    if x.Top? then 0 else 1 + Depth(x.up)
  }

  // ---------- plugging ----------

  lemma {:induction false} PlugInorder(x: Ctx, t: Tree)
    ensures Inorder(Plug(x, t)) == Before(x) + Inorder(t) + After(x)
    decreases x
  {
    match x
    case Top =>
    case OnL(up, n, c, sib) =>
      PlugInorder(up, Bin(t, n, c, sib));
    case OnR(up, n, c, sib) =>
      PlugInorder(up, Bin(sib, n, c, t));
  }

  lemma {:induction false} PlugNodes(x: Ctx, t: Tree)
    ensures Nodes(Plug(x, t)) == CtxNodes(x) + Nodes(t)
    decreases x
  {
    match x
    case Top =>
    case OnL(up, n, c, sib) => PlugNodes(up, Bin(t, n, c, sib));
    case OnR(up, n, c, sib) => PlugNodes(up, Bin(sib, n, c, t));
  }

  lemma {:induction false} PlugSep(x: Ctx, t: Tree)
    ensures Sep(Plug(x, t)) <==> Sep(t) && CtxSep(x, Nodes(t))
    decreases x
  {
    match x
    case Top =>
    case OnL(up, n, c, sib) => PlugSep(up, Bin(t, n, c, sib));
    case OnR(up, n, c, sib) => PlugSep(up, Bin(sib, n, c, t));
  }

  lemma {:induction false} CtxSepDisjoint(x: Ctx, hole: set<Node>)
    requires CtxSep(x, hole)
    ensures CtxNodes(x) !! hole
    decreases x
  {
    match x
    case Top =>
    case OnL(up, n, c, sib) => CtxSepDisjoint(up, hole + {n} + Nodes(sib));
    case OnR(up, n, c, sib) => CtxSepDisjoint(up, Nodes(sib) + {n} + hole);
  }

  /** Putting a balanced tree where one of the same black height was. */
  lemma {:induction false} PlugBalanced(x: Ctx, t: Tree)
    requires Balanced(t) && CtxBalanced(x, BlackHeight(t)) && (IsBlack(t) || ParentBlack(x))
    ensures Balanced(Plug(x, t)) && (x.Top? || IsBlack(Plug(x, t)))
    decreases x
  {
    match x
    case Top =>
    case OnL(up, n, c, sib) => PlugBalanced(up, Bin(t, n, c, sib));
    case OnR(up, n, c, sib) => PlugBalanced(up, Bin(sib, n, c, t));
  }

  lemma {:induction false} UnplugBalanced(x: Ctx, t: Tree)
    requires Balanced(Plug(x, t)) && IsBlack(Plug(x, t))
    ensures Balanced(t) && CtxBalanced(x, BlackHeight(t))
    ensures !IsBlack(t) ==> !x.Top? && x.c.Black?
    decreases x
  {
    match x
    case Top =>
    case OnL(up, n, c, sib) => UnplugBalanced(up, Bin(t, n, c, sib));
    case OnR(up, n, c, sib) => UnplugBalanced(up, Bin(sib, n, c, t));
  }

  lemma {:induction false} InorderNodes(t: Tree)
    ensures forall m :: m in Nodes(t) <==> m in Inorder(t)
  {
    match t
    case Leaf =>
    case Bin(l, n, _, r) => InorderNodes(l); InorderNodes(r);
  }

  lemma {:induction false} InorderIndex(t: Tree)
    ensures forall i :: 0 <= i < |Inorder(t)| ==> Inorder(t)[i] in Nodes(t)
  {
    match t
    case Leaf =>
    case Bin(l, n, _, r) => InorderIndex(l); InorderIndex(r);
  }

  lemma {:induction false} InorderLength(t: Tree)
    requires Sep(t)
    ensures |Inorder(t)| == |Nodes(t)|
  {
    match t
    case Leaf =>
    case Bin(l, n, _, r) => InorderLength(l); InorderLength(r);
  }

  // ---------- finding a node's place ----------

  /** Every node of a tree is the root of some subtree of it. */
  lemma {:induction false} Focus(x: Ctx, t: Tree, m: Node) returns (y: Ctx, u: Tree)
    requires m in Nodes(t)
    ensures Plug(y, u) == Plug(x, t) && u.Bin? && u.n == m
    decreases t
  {
    if t.n == m {
      y, u := x, t;
    } else if m in Nodes(t.l) {
      y, u := Focus(OnL(x, t.n, t.c, t.r), t.l, m);
    } else {
      y, u := Focus(OnR(x, t.n, t.c, t.l), t.r, m);
    }
  }

  // ---------- height ----------

  ghost function Max(a: nat, b: nat): nat {
    if a < b then b else a
  }

  ghost function Height(t: Tree): nat {
    if t.Leaf? then 0 else 1 + Max(Height(t.l), Height(t.r))
  }

  lemma {:induction false} Pow2Monotone(a: nat, b: nat)
    requires a <= b
    ensures 1 <= Pow2(a) <= Pow2(b)
    decreases b
  {
    if b > 0 && a < b {
      Pow2Monotone(a, b - 1);
    } else if b > 0 {
      Pow2Monotone(a - 1, b - 1);
    }
  }

  lemma {:induction false} Pow2Double(k: nat)
    ensures Pow2(2 * k) == Pow2(k) * Pow2(k)
  {
    if k > 0 {
      Pow2Double(k - 1);
      assert Pow2(2 * k) == 4 * Pow2(2 * (k - 1));
    }
  }

  lemma {:induction false} SizeBound(t: Tree)
    requires Balanced(t)
    ensures Pow2(BlackHeight(t)) <= |Inorder(t)| + 1
  {
    if t.Bin? {
      SizeBound(t.l);
      SizeBound(t.r);
    }
  }

  lemma {:induction false} HeightVsBlack(t: Tree)
    requires Balanced(t)
    ensures Height(t) <= 2 * BlackHeight(t) + (if IsBlack(t) then 0 else 1)
  {
    if t.Bin? {
      HeightVsBlack(t.l);
      HeightVsBlack(t.r);
    }
  }

  /** A tree of n nodes obeying the colour rules, with a black root, is at most
      2 lg(n + 1) high: 2 to the height is at most (n + 1) squared. */
  lemma {:induction false} HeightBound(t: Tree)
    requires Balanced(t) && IsBlack(t)
    ensures Pow2(Height(t)) <= (|Inorder(t)| + 1) * (|Inorder(t)| + 1)
  {
    var b := BlackHeight(t);
    SizeBound(t);
    HeightVsBlack(t);
    Pow2Monotone(Height(t), 2 * b);
    Pow2Double(b);
    MulMonotone(Pow2(b), |Inorder(t)| + 1);
  }

  lemma MulMonotone(a: nat, b: nat)
    requires a <= b
    ensures a * a <= b * b
  {
    assert a * a <= a * b <= b * b;
  }

  // ---------- searching ----------

  /** The comparisons on the way to the hole of x send a key there. */
  ghost predicate Between(x: Ctx, key: int) {
    match x
    case Top => true
    case OnL(up, n, _, _) => key < n.key && Between(up, key)
    case OnR(up, n, _, _) => n.key < key && Between(up, key)
  }

  lemma {:induction false} BetweenAll(x: Ctx, t: Tree, key: int)
    requires SortedKeys(Inorder(Plug(x, t))) && Between(x, key)
    ensures forall n :: n in Before(x) ==> n.key < key
    ensures forall n :: n in After(x) ==> key < n.key
    decreases x
  {
    match x
    case Top =>
    case OnL(up, n, c, sib) =>
      var u := Bin(t, n, c, sib);
      BetweenAll(up, u, key);
      PlugInorder(up, u);
      SplitOrder(Before(up), Inorder(t), n, Inorder(sib), After(up));
    case OnR(up, n, c, sib) =>
      var u := Bin(sib, n, c, t);
      BetweenAll(up, u, key);
      PlugInorder(up, u);
      SplitOrder(Before(up), Inorder(sib), n, Inorder(t), After(up));
  }

  lemma SplitOrder(b: seq<Node>, l: seq<Node>, n: Node, r: seq<Node>, a: seq<Node>)
    requires SortedKeys(b + (l + [n] + r) + a)
    ensures forall k :: k in l ==> k.key < n.key
    ensures forall k :: k in r ==> n.key < k.key
  {
    var s, p := b + (l + [n] + r) + a, |b| + |l|;
    assert s[p] == n;
    assert forall i :: 0 <= i < |l| ==> s[|b| + i] == l[i];
    assert forall i :: 0 <= i < |r| ==> s[p + 1 + i] == r[i];
  }

  /** The node at the focus is the one at this place in the order. */
  ghost function Rank(x: Ctx, t: Tree): nat
    requires t.Bin?
  {
    |Before(x)| + |Inorder(t.l)|
  }

  /** The nearest node after the hole, and before it. */
  ghost function Succ(x: Ctx): Node? {
    match x
    case Top => null
    case OnL(_, n, _, _) => n
    case OnR(up, _, _, _) => Succ(up)
  }

  ghost function Pred(x: Ctx): Node? {
    match x
    case Top => null
    case OnL(up, _, _, _) => Pred(up)
    case OnR(_, n, _, _) => n
  }

  ghost function At0(s: seq<Node>, i: int): Node? {
    if 0 <= i < |s| then s[i] else null
  }

  lemma {:induction false} SuccAfter(x: Ctx)
    ensures Succ(x) == At0(After(x), 0) && Pred(x) == At0(Before(x), |Before(x)| - 1)
  {
    if !x.Top? {
      SuccAfter(x.up);
    }
  }

  lemma RankLemma(x: Ctx, t: Tree)
    requires t.Bin?
    ensures var s, k := Inorder(Plug(x, t)), Rank(x, t);
            k < |s| && s[k] == t.n &&
            (t.r.Leaf? ==> At0(s, k + 1) == Succ(x)) && (t.l.Leaf? ==> At0(s, k - 1) == Pred(x))
  {
    PlugInorder(x, t);
    SuccAfter(x);
  }

  /** A node without a left child is the first one of its subtree, and a node without
      a right child the last. */
  lemma EndBelow(x: Ctx, t: Tree)
    requires t.Bin?
    ensures var s := Inorder(Plug(x, t));
            (t.l.Leaf? ==> At0(s, |Before(x)|) == t.n) && (t.r.Leaf? ==> At0(s, |s| - |After(x)| - 1) == t.n)
  {
    PlugInorder(x, t);
  }

  lemma SortedUnique(s: seq<Node>, i: nat, j: nat)
    requires SortedKeys(s) && i < |s| && j < |s| && s[i] == s[j]
    ensures i == j
  {
    var k := s[i].key;
    assert s[j].key == k;
  }

  /** The hole's successor is the least node after it. */
  lemma NearestInOrder(x: Ctx)
    requires SortedKeys(Before(x) + After(x))
    ensures Succ(x) == null ==> After(x) == []
    ensures Succ(x) != null ==> Succ(x) in After(x)
    ensures Succ(x) != null ==> forall n :: n in After(x) ==> Succ(x).key <= n.key
  {
    SuccAfter(x);
    var s, b := Before(x) + After(x), |Before(x)|;
    forall n | n in After(x)
      ensures Succ(x).key <= n.key
    {
      var j :| 0 <= j < |After(x)| && After(x)[j] == n;
      assert s[b + j] == n && s[b] == After(x)[0];
    }
  }

  lemma SortedInsert(a: seq<Node>, n: Node, b: seq<Node>)
    requires SortedKeys(a + b) && (forall k :: k in a ==> k.key < n.key) && (forall k :: k in b ==> n.key < k.key)
    ensures SortedKeys(a + [n] + b)
  {
    var s, u := a + b, a + [n] + b;
    forall i, j | 0 <= i < j < |u|
      ensures u[i].key < u[j].key
    {
      var i', j' := if i > |a| then i - 1 else i, if j > |a| then j - 1 else j;
      assert i != |a| ==> u[i] == s[i'];
      assert j != |a| ==> u[j] == s[j'];
    }
  }

  lemma SortedWithout(s: seq<Node>, k: nat, s': seq<Node>)
    requires SortedKeys(s) && k < |s| && s' == s[..k] + s[k + 1..]
    ensures SortedKeys(s')
  {
    forall i, j | 0 <= i < j < |s'|
      ensures s'[i].key < s'[j].key
    {
      var i', j' := if i < k then i else i + 1, if j < k then j else j + 1;
      assert s'[i] == s[i'] && s'[j] == s[j'];
    }
  }
}
