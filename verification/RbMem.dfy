/**
  When a heap snapshot holds a given tree shape, and how the stores to links of the
  tree operations change the shape that a snapshot holds.
 */
module RbMem {
  import opened RbShape

  // ---------- what the heap holds ----------

  datatype Fields = Fields(left: Node?, right: Node?, parent: Node?, color: Color)

  type Mem = map<Node, Fields>

  ghost function Snap(s: set<Node>): (m: Mem)
    reads s
    ensures m.Keys == s
  {
    map n | n in s :: Fields(n.left, n.right, n.parent, n.color)
  }

  /** m links and colours the nodes of t as t says; par is the parent of t's root. */
  ghost predicate Linked(t: Tree, par: Node?, m: Mem) {
    match t
    case Leaf => true
    case Bin(l, n, c, r) =>
      n in m && m[n] == Fields(RootOf(l), RootOf(r), par, c) && Linked(l, n, m) && Linked(r, n, m)
  }

  ghost predicate LinkedCtx(x: Ctx, hole: Node?, root: Node?, m: Mem) {
    match x
    case Top => root == hole
    case OnL(up, n, c, sib) =>
      n in m && m[n] == Fields(hole, RootOf(sib), CtxNode(up), c) &&
      Linked(sib, n, m) && LinkedCtx(up, n, root, m)
    case OnR(up, n, c, sib) =>
      n in m && m[n] == Fields(RootOf(sib), hole, CtxNode(up), c) &&
      Linked(sib, n, m) && LinkedCtx(up, n, root, m)
  }

  /** m holds t in the hole of x, under the given root link. */
  ghost predicate At(x: Ctx, t: Tree, root: Node?, m: Mem) {
    LinkedCtx(x, RootOf(t), root, m) && Linked(t, CtxNode(x), m) && Sep(t) && CtxSep(x, Nodes(t))
  }

  lemma {:induction false} PlugLinked(x: Ctx, t: Tree, root: Node?, m: Mem)
    ensures RootOf(Plug(x, t)) == root && Linked(Plug(x, t), null, m) <==>
            LinkedCtx(x, RootOf(t), root, m) && Linked(t, CtxNode(x), m)
    decreases x
  {
    match x
    case Top =>
    case OnL(up, n, c, sib) => PlugLinked(up, Bin(t, n, c, sib), root, m);
    case OnR(up, n, c, sib) => PlugLinked(up, Bin(sib, n, c, t), root, m);
  }

  lemma {:induction false} PlugAt(x: Ctx, t: Tree, root: Node?, m: Mem)
    ensures At(Top, Plug(x, t), root, m) <==> At(x, t, root, m)
  {
    PlugLinked(x, t, root, m);
    PlugSep(x, t);
  }

  ghost predicate Same(s: set<Node>, m: Mem, m': Mem) {
    forall n :: n in s && n in m ==> n in m' && m'[n] == m[n]
  }

  lemma {:induction false} LinkedFrame(t: Tree, par: Node?, m: Mem, m': Mem)
    requires Linked(t, par, m) && Same(Nodes(t), m, m')
    ensures Linked(t, par, m')
  {
    if t.Bin? {
      LinkedFrame(t.l, t.n, m, m');
      LinkedFrame(t.r, t.n, m, m');
    }
  }

  lemma {:induction false} CtxFrame(x: Ctx, hole: Node?, root: Node?, m: Mem, m': Mem)
    requires LinkedCtx(x, hole, root, m) && Same(CtxNodes(x), m, m')
    ensures LinkedCtx(x, hole, root, m')
  {
    if !x.Top? {
      LinkedFrame(x.sib, x.n, m, m');
      CtxFrame(x.up, x.n, root, m, m');
    }
  }

  /** Moving a subtree under another parent: only its root's parent link changes. */
  lemma Reparent(t: Tree, par: Node?, par': Node?, m: Mem, m': Mem)
    requires Linked(t, par, m) && Sep(t) && Same(Nodes(t) - (if t.Bin? then {t.n} else {}), m, m')
    requires t.Bin? ==> t.n in m' && m'[t.n] == m[t.n].(parent := par')
    ensures Linked(t, par', m')
  {
    if t.Bin? {
      LinkedFrame(t.l, t.n, m, m');
      LinkedFrame(t.r, t.n, m, m');
    }
  }

  /** The link that led to old_ leads to nu. */
  ghost predicate Relinked(p: Node?, old_: Node, nu: Node?, root: Node?, m: Mem, root': Node?, m': Mem) {
    if p == null then root' == nu
    else
      root' == root && p in m && p in m' &&
      m'[p] == if m[p].left == old_ then m[p].(left := nu) else m[p].(right := nu)
  }

  lemma RelinkCtx(x: Ctx, hole: set<Node>, old_: Node, nu: Node?, root: Node?, m: Mem, root': Node?, m': Mem)
    requires LinkedCtx(x, old_, root, m) && CtxSep(x, hole) && old_ in hole
    requires Relinked(CtxNode(x), old_, nu, root, m, root', m')
    requires Same(CtxNodes(x) - (if x.Top? then {} else {x.n}), m, m')
    ensures LinkedCtx(x, nu, root', m')
  {
    if !x.Top? {
      if x.OnL? {
        CtxSepDisjoint(x.up, hole + {x.n} + Nodes(x.sib));
      } else {
        CtxSepDisjoint(x.up, Nodes(x.sib) + {x.n} + hole);
        assert x.sib.Bin? ==> x.sib.n in Nodes(x.sib);
      }
      LinkedFrame(x.sib, x.n, m, m');
      CtxFrame(x.up, x.n, root, m, m');
    }
  }

  // ---------- rotations ----------

  ghost function RotL(t: Tree): Tree
    requires t.Bin? && t.r.Bin?
  {
    Bin(Bin(t.l, t.n, t.c, t.r.l), t.r.n, t.r.c, t.r.r)
  }

  ghost function RotR(t: Tree): Tree
    requires t.Bin? && t.l.Bin?
  {
    Bin(t.l.l, t.l.n, t.l.c, Bin(t.l.r, t.n, t.c, t.r))
  }

  lemma Regroup(a: seq<Node>, n: Node, b: seq<Node>, k: Node, c: seq<Node>)
    ensures (a + [n] + b) + [k] + c == a + [n] + (b + [k] + c)
  {
  }

  lemma RotLInorder(t: Tree)
    requires t.Bin? && t.r.Bin?
    ensures Inorder(RotL(t)) == Inorder(t)
  {
    Regroup(Inorder(t.l), t.n, Inorder(t.r.l), t.r.n, Inorder(t.r.r));
  }

  lemma RotRInorder(t: Tree)
    requires t.Bin? && t.l.Bin?
    ensures Inorder(RotR(t)) == Inorder(t)
  {
    Regroup(Inorder(t.l.l), t.l.n, Inorder(t.l.r), t.n, Inorder(t.r));
  }

  lemma RotLShape(t: Tree)
    requires t.Bin? && t.r.Bin? && Sep(t)
    ensures Sep(RotL(t)) && Nodes(RotL(t)) == Nodes(t)
  {
    var u := Bin(t.l, t.n, t.c, t.r.l);
    assert Sep(u) && Nodes(u) == Nodes(t.l) + {t.n} + Nodes(t.r.l);
  }

  lemma RotRShape(t: Tree)
    requires t.Bin? && t.l.Bin? && Sep(t)
    ensures Sep(RotR(t)) && Nodes(RotR(t)) == Nodes(t)
  {
    var u := Bin(t.l.r, t.n, t.c, t.r);
    assert Sep(u) && Nodes(u) == Nodes(t.l.r) + {t.n} + Nodes(t.r);
  }

  /** Which links a rotation at t reads, and that they are all different nodes. */
  lemma RotLFacts(x: Ctx, t: Tree, root: Node?, m: Mem)
    requires At(x, t, root, m) && t.Bin? && t.r.Bin?
    ensures t.n in m && m[t.n] == Fields(RootOf(t.l), t.r.n, CtxNode(x), t.c)
    ensures t.r.n in m && m[t.r.n] == Fields(RootOf(t.r.l), RootOf(t.r.r), t.n, t.r.c)
    ensures t.r.l.Bin? ==> t.r.l.n in m &&
                           m[t.r.l.n] == Fields(RootOf(t.r.l.l), RootOf(t.r.l.r), t.r.n, t.r.l.c)
    ensures !x.Top? ==> x.n in m && (m[x.n].left == t.n || m[x.n].right == t.n)
    ensures t.n != t.r.n && t.n != RootOf(t.r.l) && t.r.n != RootOf(t.r.l)
    ensures CtxNode(x) !in {t.n, t.r.n} && (x.Top? || CtxNode(x) != RootOf(t.r.l))
    ensures CtxNodes(x) !! Nodes(t)
  {
    CtxSepDisjoint(x, Nodes(t));
    assert Linked(t.r, t.n, m) && Linked(t.r.l, t.r.n, m);
    assert t.r.n in Nodes(t.r);
    assert t.r.l.Bin? ==> t.r.l.n in Nodes(t.r.l);
  }

  lemma RotLLinked(t: Tree, par: Node?, m: Mem, m': Mem)
    requires t.Bin? && t.r.Bin? && Sep(t) && Linked(t, par, m)
    requires Same(Nodes(t) - {t.n, t.r.n} - (if t.r.l.Bin? then {t.r.l.n} else {}), m, m')
    requires t.n in m' && m'[t.n] == Fields(RootOf(t.l), RootOf(t.r.l), t.r.n, t.c)
    requires t.r.n in m' && m'[t.r.n] == Fields(t.n, RootOf(t.r.r), par, t.r.c)
    requires t.r.l.Bin? ==> t.r.l.n in m' && m'[t.r.l.n] == Fields(RootOf(t.r.l.l), RootOf(t.r.l.r), t.n, t.r.l.c)
    ensures Linked(RotL(t), par, m')
  {
    assert t.r.l.Bin? ==> t.r.l.n in Nodes(t.r.l);
    LinkedFrame(t.l, t.n, m, m');
    Reparent(t.r.l, t.r.n, t.n, m, m');
    LinkedFrame(t.r.r, t.r.n, m, m');
    assert Linked(Bin(t.l, t.n, t.c, t.r.l), t.r.n, m');
  }

  lemma RotLAt(x: Ctx, t: Tree, root: Node?, m: Mem, root': Node?, m': Mem)
    requires At(x, t, root, m) && t.Bin? && t.r.Bin? && m'.Keys == m.Keys
    requires Same(m.Keys - {t.n, t.r.n, RootOf(t.r.l), CtxNode(x)}, m, m')
    requires t.n in m' && m'[t.n] == Fields(RootOf(t.l), RootOf(t.r.l), t.r.n, t.c)
    requires t.r.n in m' && m'[t.r.n] == Fields(t.n, RootOf(t.r.r), CtxNode(x), t.r.c)
    requires t.r.l.Bin? ==> t.r.l.n in m' && m'[t.r.l.n] == Fields(RootOf(t.r.l.l), RootOf(t.r.l.r), t.n, t.r.l.c)
    requires Relinked(CtxNode(x), t.n, t.r.n, root, m, root', m')
    ensures At(x, RotL(t), root', m')
  {
    RotLFacts(x, t, root, m);
    RotLShape(t);
    RelinkCtx(x, Nodes(t), t.n, t.r.n, root, m, root', m');
    RotLLinked(t, CtxNode(x), m, m');
  }

  lemma RotRLinked(t: Tree, par: Node?, m: Mem, m': Mem)
    requires t.Bin? && t.l.Bin? && Sep(t) && Linked(t, par, m)
    requires Same(Nodes(t) - {t.n, t.l.n} - (if t.l.r.Bin? then {t.l.r.n} else {}), m, m')
    requires t.n in m' && m'[t.n] == Fields(RootOf(t.l.r), RootOf(t.r), t.l.n, t.c)
    requires t.l.n in m' && m'[t.l.n] == Fields(RootOf(t.l.l), t.n, par, t.l.c)
    requires t.l.r.Bin? ==> t.l.r.n in m' && m'[t.l.r.n] == Fields(RootOf(t.l.r.l), RootOf(t.l.r.r), t.n, t.l.r.c)
    ensures Linked(RotR(t), par, m')
  {
    assert t.l.r.Bin? ==> t.l.r.n in Nodes(t.l.r);
    LinkedFrame(t.r, t.n, m, m');
    Reparent(t.l.r, t.l.n, t.n, m, m');
    LinkedFrame(t.l.l, t.l.n, m, m');
    assert Linked(Bin(t.l.r, t.n, t.c, t.r), t.l.n, m');
  }

  lemma RotRFacts(x: Ctx, t: Tree, root: Node?, m: Mem)
    requires At(x, t, root, m) && t.Bin? && t.l.Bin?
    ensures t.n in m && m[t.n] == Fields(t.l.n, RootOf(t.r), CtxNode(x), t.c)
    ensures t.l.n in m && m[t.l.n] == Fields(RootOf(t.l.l), RootOf(t.l.r), t.n, t.l.c)
    ensures t.l.r.Bin? ==> t.l.r.n in m &&
                           m[t.l.r.n] == Fields(RootOf(t.l.r.l), RootOf(t.l.r.r), t.l.n, t.l.r.c)
    ensures !x.Top? ==> x.n in m && (m[x.n].right == t.n || m[x.n].left == t.n)
    ensures t.n != t.l.n && t.n != RootOf(t.l.r) && t.l.n != RootOf(t.l.r)
    ensures CtxNode(x) !in {t.n, t.l.n} && (x.Top? || CtxNode(x) != RootOf(t.l.r))
    ensures CtxNodes(x) !! Nodes(t)
  {
    CtxSepDisjoint(x, Nodes(t));
    assert Linked(t.l, t.n, m) && Linked(t.l.r, t.l.n, m);
    assert t.l.n in Nodes(t.l);
    assert t.l.r.Bin? ==> t.l.r.n in Nodes(t.l.r);
  }

  lemma RotRAt(x: Ctx, t: Tree, root: Node?, m: Mem, root': Node?, m': Mem)
    requires At(x, t, root, m) && t.Bin? && t.l.Bin? && m'.Keys == m.Keys
    requires Same(m.Keys - {t.n, t.l.n, RootOf(t.l.r), CtxNode(x)}, m, m')
    requires t.n in m' && m'[t.n] == Fields(RootOf(t.l.r), RootOf(t.r), t.l.n, t.c)
    requires t.l.n in m' && m'[t.l.n] == Fields(RootOf(t.l.l), t.n, CtxNode(x), t.l.c)
    requires t.l.r.Bin? ==> t.l.r.n in m' && m'[t.l.r.n] == Fields(RootOf(t.l.r.l), RootOf(t.l.r.r), t.n, t.l.r.c)
    requires Relinked(CtxNode(x), t.n, t.l.n, root, m, root', m')
    ensures At(x, RotR(t), root', m')
  {
    RotRFacts(x, t, root, m);
    RotRShape(t);
    RelinkCtx(x, Nodes(t), t.n, t.l.n, root, m, root', m');
    RotRLinked(t, CtxNode(x), m, m');
  }

  // ---------- moving the focus ----------

  lemma ZoomAt(x: Ctx, t: Tree, root: Node?, m: Mem)
    requires t.Bin?
    ensures At(OnL(x, t.n, t.c, t.r), t.l, root, m) <==> At(x, t, root, m)
    ensures At(OnR(x, t.n, t.c, t.l), t.r, root, m) <==> At(x, t, root, m)
    ensures CtxNodes(OnL(x, t.n, t.c, t.r)) + Nodes(t.l) == CtxNodes(x) + Nodes(t)
    ensures CtxNodes(OnR(x, t.n, t.c, t.l)) + Nodes(t.r) == CtxNodes(x) + Nodes(t)
  {
  }

  lemma PaintAt(x: Ctx, t: Tree, c: Color, root: Node?, m: Mem, m': Mem)
    requires At(x, t, root, m) && t.Bin?
    requires m'.Keys == m.Keys && Same(m.Keys - {t.n}, m, m') && m'[t.n] == m[t.n].(color := c)
    ensures At(x, t.(c := c), root, m')
  {
    CtxSepDisjoint(x, Nodes(t));
    CtxFrame(x, t.n, root, m, m');
    LinkedFrame(t.l, t.n, m, m');
    LinkedFrame(t.r, t.n, m, m');
    assert Nodes(t.(c := c)) == Nodes(t);
  }

  // ---------- what insertion's repair steps do to the shape ----------

  /** t together with the parent of its hole. */
  ghost function Above(x: Ctx, t: Tree): Tree
    requires !x.Top?
  {
    if x.OnL? then Bin(t, x.n, x.c, x.sib) else Bin(x.sib, x.n, x.c, t)
  }

  ghost function Spread(g: Tree): Tree
    requires g.Bin? && g.l.Bin? && g.r.Bin?
  {
    Bin(g.l.(c := Black), g.n, Red, g.r.(c := Black))
  }

  lemma PaintInorder(t: Tree, c: Color)
    requires t.Bin?
    ensures Inorder(t.(c := c)) == Inorder(t)
  {
  }

  lemma SameInorder(x: Ctx, t: Tree, u: Tree)
    requires Inorder(t) == Inorder(u)
    ensures Inorder(Plug(x, t)) == Inorder(Plug(x, u))
  {
    PlugInorder(x, t);
    PlugInorder(x, u);
  }

  lemma SpreadLemma(x: Ctx, t: Tree)
    requires RedAt(x, t) && !x.Top? && x.c.Red? && !IsBlack(x.up.sib)
    ensures var g := Above(x.up, Above(x, t));
            RedAt(x.up.up, Spread(g)) && Inorder(Plug(x.up.up, Spread(g))) == Inorder(Plug(x, t))
  {
    var p, unc := Above(x, t), x.up.sib;
    var g := Above(x.up, p);
    SameInorder(x.up.up, g, Spread(g));
    var h := BlackHeight(t);
    assert CtxBalanced(x.up, h) && CtxBalanced(x.up.up, h + 1);
    assert Balanced(p.(c := Black)) && BlackHeight(p.(c := Black)) == h + 1;
    assert Balanced(unc.(c := Black)) && BlackHeight(unc.(c := Black)) == h + 1;
  }

  /** The subtree that replaces the grandparent's, when the parent is a left child. */
  ghost function SettledL(x: Ctx, t: Tree): Tree
    requires RedAt(x, t) && !x.Top? && x.up.OnL?
  {
    var p := Above(x, t);
    var q := if x.OnL? then p else RotL(p);
    RotR(Bin(q.(c := Black), x.up.n, Red, x.up.sib))
  }

  lemma SettleLemmaL(x: Ctx, t: Tree)
    requires RedAt(x, t) && !x.Top? && x.c.Red? && x.up.OnL? && IsBlack(x.up.sib)
    ensures var res := SettledL(x, t);
            RedAt(OnL(x.up.up, res.n, Black, res.r), res.l)
  {
    var p := Above(x, t);
    var h := BlackHeight(t);
    assert CtxBalanced(x.up, h) && CtxBalanced(x.up.up, h + 1);
    var q := if x.OnL? then p else RotL(p);
    assert Balanced(q.l) && BlackHeight(q.l) == h && q.l.Bin? && q.l.c.Red?;
    assert Balanced(q.r) && BlackHeight(q.r) == h && IsBlack(q.r);
    var s := Bin(q.r, x.up.n, Red, x.up.sib);
    assert Balanced(s) && BlackHeight(s) == h;
  }

  lemma SettleInorderL(x: Ctx, t: Tree)
    requires RedAt(x, t) && !x.Top? && x.up.OnL?
    ensures Inorder(Plug(x.up.up, SettledL(x, t))) == Inorder(Plug(x, t))
  {
    var p := Above(x, t);
    var q := if x.OnL? then p else RotL(p);
    if x.OnR? {
      RotLInorder(p);
    }
    RotRInorder(Bin(q.(c := Black), x.up.n, Red, x.up.sib));
    SameInorder(x.up.up, Above(x.up, p), SettledL(x, t));
  }

  /** The subtree that replaces the grandparent's, when the parent is a right child. */
  ghost function SettledR(x: Ctx, t: Tree): Tree
    requires RedAt(x, t) && !x.Top? && x.up.OnR?
  {
    var p := Above(x, t);
    var q := if x.OnR? then p else RotR(p);
    RotL(Bin(x.up.sib, x.up.n, Red, q.(c := Black)))
  }

  lemma SettleLemmaR(x: Ctx, t: Tree)
    requires RedAt(x, t) && !x.Top? && x.c.Red? && x.up.OnR? && IsBlack(x.up.sib)
    ensures var res := SettledR(x, t);
            RedAt(OnR(x.up.up, res.n, Black, res.l), res.r)
  {
    var p := Above(x, t);
    var h := BlackHeight(t);
    assert CtxBalanced(x.up, h) && CtxBalanced(x.up.up, h + 1);
    var q := if x.OnR? then p else RotR(p);
    assert Balanced(q.r) && BlackHeight(q.r) == h && q.r.Bin? && q.r.c.Red?;
    assert Balanced(q.l) && BlackHeight(q.l) == h && IsBlack(q.l);
    var s := Bin(x.up.sib, x.up.n, Red, q.l);
    assert Balanced(s) && BlackHeight(s) == h;
  }

  lemma SettleInorderR(x: Ctx, t: Tree)
    requires RedAt(x, t) && !x.Top? && x.up.OnR?
    ensures Inorder(Plug(x.up.up, SettledR(x, t))) == Inorder(Plug(x, t))
  {
    var p := Above(x, t);
    var q := if x.OnR? then p else RotR(p);
    if x.OnL? {
      RotRInorder(p);
    }
    RotLInorder(Bin(x.up.sib, x.up.n, Red, q.(c := Black)));
    SameInorder(x.up.up, Above(x.up, p), SettledR(x, t));
  }

  // ---------- what removal's repair steps do to the shape ----------

  ghost function Blackened(t: Tree): Tree {
    if t.Leaf? then t else t.(c := Black)
  }

  /** A subtree one black node short of what its surroundings ask for; turning a red
      root black would make up for it. */
  ghost predicate ShortAt(x: Ctx, t: Tree) {
    Balanced(Blackened(t)) && CtxBalanced(x, BlackHeight(t) + 1)
  }

  ghost predicate Settled(x: Ctx, t: Tree) {
    Balanced(t) && CtxBalanced(x, BlackHeight(t)) && (IsBlack(t) || ParentBlack(x)) && (x.Top? ==> IsBlack(t))
  }

  lemma FinishLemma(x: Ctx, t: Tree)
    requires ShortAt(x, t) && (IsBlack(t) ==> x.Top?)
    ensures Settled(x, Blackened(t)) && Inorder(Plug(x, Blackened(t))) == Inorder(Plug(x, t))
  {
    SameInorder(x, t, Blackened(t));
  }

  ghost function Effort(x: Ctx, t: Tree): nat {
    2 * Depth(x) + if IsBlack(t) then 1 else 0
  }

  lemma {:induction false} RootAbove(x: Ctx, hole: Node?, root: Node?, m: Mem)
    requires LinkedCtx(x, hole, root, m)
    ensures !x.Top? ==> root != null && root in CtxNodes(x)
  {
    if !x.Top? {
      RootAbove(x.up, x.n, root, m);
    }
  }

  /** A red sibling is turned over: the hole gets a black sibling and a red parent. */
  ghost function OverturnL(x: Ctx): Ctx
    requires x.OnL? && x.sib.Bin?
  {
    OnL(OnL(x.up, x.sib.n, Black, x.sib.r), x.n, Red, x.sib.l)
  }

  lemma OverLemmaL(x: Ctx, t: Tree)
    requires ShortAt(x, t) && IsBlack(t) && x.OnL?
    ensures x.sib.Bin?
    ensures x.sib.c.Red? ==>
              ShortAt(OverturnL(x), t) && OverturnL(x).sib.Bin? && OverturnL(x).sib.c.Black? &&
              Inorder(Plug(OverturnL(x), t)) == Inorder(Plug(x, t))
  {
    var h, s := BlackHeight(t) + 1, x.sib;
    if s.c.Red? {
      assert Balanced(s.l) && Balanced(s.r) && BlackHeight(s.l) == BlackHeight(s.r) == h;
      assert CtxBalanced(OnL(x.up, s.n, Black, s.r), h);
      RotLInorder(Bin(t, x.n, Red, s.(c := Black)));
      SameInorder(x.up, Bin(t, x.n, x.c, s), RotL(Bin(t, x.n, Red, s.(c := Black))));
    }
  }

  /** A black sibling with black children turns red and the shortage moves up. */
  lemma PassLemmaL(x: Ctx, t: Tree)
    requires ShortAt(x, t) && IsBlack(t) && x.OnL? && x.sib.Bin? && x.sib.c.Black?
    requires IsBlack(x.sib.l) && IsBlack(x.sib.r)
    ensures var u := Bin(t, x.n, x.c, x.sib.(c := Red));
            ShortAt(x.up, u) && Inorder(Plug(x.up, u)) == Inorder(Plug(x, t))
  {
    var s := x.sib.(c := Red);
    assert Balanced(s) && BlackHeight(s) == BlackHeight(t);
    SameInorder(x.up, Bin(t, x.n, x.c, x.sib), Bin(t, x.n, x.c, s));
  }

  /** A black sibling whose outer child is black but whose inner child is red. */
  ghost function TurnedL(s: Tree): Tree
    requires s.Bin? && s.l.Bin?
  {
    RotR(Bin(s.l.(c := Black), s.n, Red, s.r))
  }

  lemma TurnLemmaL(x: Ctx, t: Tree)
    requires ShortAt(x, t) && x.OnL? && x.sib.Bin? && x.sib.c.Black? && !IsBlack(x.sib.l) && IsBlack(x.sib.r)
    ensures var s := TurnedL(x.sib);
            ShortAt(OnL(x.up, x.n, x.c, s), t) && s.c.Black? && !IsBlack(s.r) &&
            Inorder(Plug(OnL(x.up, x.n, x.c, s), t)) == Inorder(Plug(x, t))
  {
    var s := TurnedL(x.sib);
    assert Balanced(x.sib.l) && Balanced(x.sib.r);
    assert Balanced(s.r) && BlackHeight(s.r) == BlackHeight(s.l);
    RotRInorder(Bin(x.sib.l.(c := Black), x.sib.n, Red, x.sib.r));
    PaintInorder(x.sib.l, Black);
    SameInorder(x.up, Bin(t, x.n, x.c, x.sib), Bin(t, x.n, x.c, s));
  }

  /** The last step: the outer nephew is red. */
  ghost function MendedL(x: Ctx, t: Tree): Tree
    requires x.OnL? && x.sib.Bin? && x.sib.r.Bin?
  {
    var s := x.sib;
    RotL(Bin(t, x.n, Black, Bin(s.l, s.n, x.c, s.r.(c := Black))))
  }

  lemma MendLemmaL(x: Ctx, t: Tree)
    requires ShortAt(x, t) && IsBlack(t) && x.OnL? && x.sib.Bin? && x.sib.c.Black? && !IsBlack(x.sib.r)
    ensures var u := MendedL(x, t);
            Settled(x.up, u) && Inorder(Plug(x.up, u)) == Inorder(Plug(x, t))
  {
    var s := x.sib;
    assert Balanced(s.l) && Balanced(s.r) && BlackHeight(s.l) == BlackHeight(s.r) == BlackHeight(t);
    assert Balanced(s.r.(c := Black));
    assert Balanced(Bin(t, x.n, Black, s.l));
    RotLInorder(Bin(t, x.n, Black, Bin(s.l, s.n, x.c, s.r.(c := Black))));
    PaintInorder(s.r, Black);
    assert Inorder(Bin(s.l, s.n, x.c, s.r.(c := Black))) == Inorder(s);
    SameInorder(x.up, Bin(t, x.n, x.c, s), MendedL(x, t));
  }

  /** A red sibling is turned over: the hole gets a black sibling and a red parent. */
  ghost function OverturnR(x: Ctx): Ctx
    requires x.OnR? && x.sib.Bin?
  {
    OnR(OnR(x.up, x.sib.n, Black, x.sib.l), x.n, Red, x.sib.r)
  }

  lemma OverLemmaR(x: Ctx, t: Tree)
    requires ShortAt(x, t) && IsBlack(t) && x.OnR?
    ensures x.sib.Bin?
    ensures x.sib.c.Red? ==>
              ShortAt(OverturnR(x), t) && OverturnR(x).sib.Bin? && OverturnR(x).sib.c.Black? &&
              Inorder(Plug(OverturnR(x), t)) == Inorder(Plug(x, t))
  {
    var h, s := BlackHeight(t) + 1, x.sib;
    if s.c.Red? {
      assert Balanced(s.r) && Balanced(s.l) && BlackHeight(s.r) == BlackHeight(s.l) == h;
      assert CtxBalanced(OnR(x.up, s.n, Black, s.l), h);
      RotRInorder(Bin(s.(c := Black), x.n, Red, t));
      SameInorder(x.up, Bin(s, x.n, x.c, t), RotR(Bin(s.(c := Black), x.n, Red, t)));
    }
  }

  /** A black sibling with black children turns red and the shortage moves up. */
  lemma PassLemmaR(x: Ctx, t: Tree)
    requires ShortAt(x, t) && IsBlack(t) && x.OnR? && x.sib.Bin? && x.sib.c.Black?
    requires IsBlack(x.sib.r) && IsBlack(x.sib.l)
    ensures var u := Bin(x.sib.(c := Red), x.n, x.c, t);
            ShortAt(x.up, u) && Inorder(Plug(x.up, u)) == Inorder(Plug(x, t))
  {
    var s := x.sib.(c := Red);
    assert Balanced(s) && BlackHeight(s) == BlackHeight(t);
    SameInorder(x.up, Bin(x.sib, x.n, x.c, t), Bin(s, x.n, x.c, t));
  }

  /** A black sibling whose outer child is black but whose inner child is red. */
  ghost function TurnedR(s: Tree): Tree
    requires s.Bin? && s.r.Bin?
  {
    RotL(Bin(s.l, s.n, Red, s.r.(c := Black)))
  }

  lemma TurnLemmaR(x: Ctx, t: Tree)
    requires ShortAt(x, t) && x.OnR? && x.sib.Bin? && x.sib.c.Black? && !IsBlack(x.sib.r) && IsBlack(x.sib.l)
    ensures var s := TurnedR(x.sib);
            ShortAt(OnR(x.up, x.n, x.c, s), t) && s.c.Black? && !IsBlack(s.l) &&
            Inorder(Plug(OnR(x.up, x.n, x.c, s), t)) == Inorder(Plug(x, t))
  {
    var s := TurnedR(x.sib);
    assert Balanced(x.sib.r) && Balanced(x.sib.l);
    assert Balanced(s.l) && BlackHeight(s.l) == BlackHeight(s.r);
    RotLInorder(Bin(x.sib.l, x.sib.n, Red, x.sib.r.(c := Black)));
    PaintInorder(x.sib.r, Black);
    SameInorder(x.up, Bin(x.sib, x.n, x.c, t), Bin(s, x.n, x.c, t));
  }

  /** The last step: the outer nephew is red. */
  ghost function MendedR(x: Ctx, t: Tree): Tree
    requires x.OnR? && x.sib.Bin? && x.sib.l.Bin?
  {
    var s := x.sib;
    RotR(Bin(Bin(s.l.(c := Black), s.n, x.c, s.r), x.n, Black, t))
  }

  lemma MendLemmaR(x: Ctx, t: Tree)
    requires ShortAt(x, t) && IsBlack(t) && x.OnR? && x.sib.Bin? && x.sib.c.Black? && !IsBlack(x.sib.l)
    ensures var u := MendedR(x, t);
            Settled(x.up, u) && Inorder(Plug(x.up, u)) == Inorder(Plug(x, t))
  {
    var s := x.sib;
    assert Balanced(s.r) && Balanced(s.l) && BlackHeight(s.r) == BlackHeight(s.l) == BlackHeight(t);
    assert Balanced(s.l.(c := Black));
    assert Balanced(Bin(s.r, x.n, Black, t));
    RotRInorder(Bin(Bin(s.l.(c := Black), s.n, x.c, s.r), x.n, Black, t));
    PaintInorder(s.l, Black);
    assert Inorder(Bin(s.l.(c := Black), s.n, x.c, s.r)) == Inorder(s);
    SameInorder(x.up, Bin(s, x.n, x.c, t), MendedR(x, t));
  }

  // ---------- hanging a node in, and splicing one out ----------

  lemma {:induction false} CtxSepOther(x: Ctx, hole: set<Node>, hole': set<Node>)
    requires CtxSep(x, hole) && CtxNodes(x) !! hole'
    ensures CtxSep(x, hole')
    decreases x
  {
    match x
    case Top =>
    case OnL(up, n, _, sib) =>
      CtxSepDisjoint(up, hole + {n} + Nodes(sib));
      CtxSepOther(up, hole + {n} + Nodes(sib), hole' + {n} + Nodes(sib));
    case OnR(up, n, _, sib) =>
      CtxSepDisjoint(up, Nodes(sib) + {n} + hole);
      CtxSepOther(up, Nodes(sib) + {n} + hole, Nodes(sib) + {n} + hole');
  }

  ghost function Single(n: Node): Tree {
    Bin(Leaf, n, Red, Leaf)
  }

  lemma HangAt(x: Ctx, elm: Node, root: Node?, m: Mem, root': Node?, m': Mem)
    requires At(x, Leaf, root, m) && CtxNodes(x) == m.Keys && elm !in m && m'.Keys == m.Keys + {elm}
    requires m'[elm] == Fields(null, null, CtxNode(x), Red) && Same(m.Keys - {CtxNode(x)}, m, m')
    requires if x.Top? then root' == elm else root' == root
    requires x.OnL? ==> x.n in m && m'[x.n] == m[x.n].(left := elm)
    requires x.OnR? ==> x.n in m && m'[x.n] == m[x.n].(right := elm)
    ensures At(x, Single(elm), root', m') && Nodes(Single(elm)) == {elm}
  {
    assert Nodes(Single(elm)) == {elm};
    CtxSepOther(x, {}, {elm});
    if !x.Top? {
      if x.OnL? {
        CtxSepDisjoint(x.up, {} + {x.n} + Nodes(x.sib));
      } else {
        CtxSepDisjoint(x.up, Nodes(x.sib) + {x.n} + {});
      }
      LinkedFrame(x.sib, x.n, m, m');
      CtxFrame(x.up, x.n, root, m, m');
    }
  }

  lemma SpliceSets(x: Ctx, t: Tree, ch: Tree)
    requires Sep(t) && CtxSep(x, Nodes(t)) && t.Bin? && ((t.l.Leaf? && ch == t.r) || (t.r.Leaf? && ch == t.l))
    ensures Nodes(t) == Nodes(ch) + {t.n} && t.n !in Nodes(ch) && t.n !in CtxNodes(x)
    ensures CtxNodes(x) + Nodes(ch) == CtxNodes(x) + Nodes(t) - {t.n}
    ensures Sep(ch) && CtxSep(x, Nodes(ch))
  {
    CtxSepDisjoint(x, Nodes(t));
    CtxSepOther(x, Nodes(t), Nodes(ch));
  }

  /** Node t.n, with at most one child, is cut out and its child takes its place. */
  lemma SpliceAt(x: Ctx, t: Tree, ch: Tree, root: Node?, m: Mem, root': Node?, m': Mem)
    requires At(x, t, root, m) && t.Bin? && ((t.l.Leaf? && ch == t.r) || (t.r.Leaf? && ch == t.l))
    requires Same(m.Keys - {t.n, RootOf(ch), CtxNode(x)}, m, m')
    requires ch.Bin? ==> ch.n in m && ch.n in m' && m'[ch.n] == m[ch.n].(parent := CtxNode(x))
    requires Relinked(CtxNode(x), t.n, RootOf(ch), root, m, root', m')
    ensures At(x, ch, root', m')
  {
    CtxSepDisjoint(x, Nodes(t));
    SpliceSets(x, t, ch);
    assert ch.Bin? ==> ch.n in Nodes(ch);
    Reparent(ch, t.n, CtxNode(x), m, m');
    RelinkCtx(x, Nodes(t), t.n, RootOf(ch), root, m, root', m');
  }

  lemma SpliceFacts(x: Ctx, t: Tree, ch: Tree, root: Node?, m: Mem)
    requires At(x, t, root, m) && t.Bin? && ((t.l.Leaf? && ch == t.r) || (t.r.Leaf? && ch == t.l))
    ensures t.n in m && m[t.n].parent == CtxNode(x) && CtxNode(x) != t.n
    ensures ch.Bin? ==> ch.n in m && ch.n != t.n && ch.n != CtxNode(x)
    ensures !x.Top? ==> x.n in m
  {
    CtxSepDisjoint(x, Nodes(t));
    assert ch.Bin? ==> ch.n in Nodes(ch);
    assert Linked(ch, t.n, m);
  }

  lemma ReplaceFacts(x: Ctx, t: Tree, root: Node?, m: Mem)
    requires At(x, t, root, m) && t.Bin? && t.l.Bin?
    ensures t.n in m && m[t.n] == Fields(t.l.n, RootOf(t.r), CtxNode(x), t.c)
    ensures t.l.n in m && t.l.n != t.n && t.l.n != CtxNode(x) && t.l.n != RootOf(t.r)
    ensures t.r.Bin? ==> t.r.n in m && t.r.n != t.n && t.r.n != CtxNode(x)
    ensures !x.Top? ==> x.n in m && x.n != t.n
  {
    CtxSepDisjoint(x, Nodes(t));
    assert t.l.n in Nodes(t.l) && (t.r.Bin? ==> t.r.n in Nodes(t.r));
    assert Linked(t.l, t.n, m) && Linked(t.r, t.n, m);
  }

  lemma ReplaceSets(x: Ctx, t: Tree, elm: Node)
    requires Sep(t) && CtxSep(x, Nodes(t)) && t.Bin? && elm !in CtxNodes(x) + Nodes(t)
    ensures CtxNodes(x) + Nodes(t.(n := elm)) == CtxNodes(x) + Nodes(t) - {t.n} + {elm}
    ensures Sep(t.(n := elm)) && CtxSep(x, Nodes(t.(n := elm)))
  {
    CtxSepDisjoint(x, Nodes(t));
    assert Nodes(t.(n := elm)) == Nodes(t.l) + {elm} + Nodes(t.r);
    CtxSepOther(x, Nodes(t), Nodes(t.(n := elm)));
  }

  /** Node elm takes over the fields of t.n. */
  lemma ReplaceAt(x: Ctx, t: Tree, elm: Node, root: Node?, m: Mem, root': Node?, m': Mem)
    requires At(x, t, root, m) && t.Bin? && t.l.Bin? && elm !in CtxNodes(x) + Nodes(t)
    requires Same(m.Keys - {t.n, t.l.n, RootOf(t.r), CtxNode(x)}, m, m')
    requires elm in m' && m'[elm] == Fields(t.l.n, RootOf(t.r), CtxNode(x), t.c)
    requires t.l.n in m && t.l.n in m' && m'[t.l.n] == m[t.l.n].(parent := elm)
    requires t.r.Bin? ==> t.r.n in m && t.r.n in m' && m'[t.r.n] == m[t.r.n].(parent := elm)
    requires Relinked(CtxNode(x), t.n, elm, root, m, root', m')
    ensures At(x, t.(n := elm), root', m')
  {
    ReplaceFacts(x, t, root, m);
    ReplaceSets(x, t, elm);
    CtxSepDisjoint(x, Nodes(t));
    assert t.l.n in Nodes(t.l) && (t.r.Bin? ==> t.r.n in Nodes(t.r));
    Reparent(t.l, t.n, elm, m, m');
    Reparent(t.r, t.n, elm, m, m');
    RelinkCtx(x, Nodes(t), t.n, elm, root, m, root', m');
  }

  // ---------- a path below a path ----------

  ghost function Append(z: Ctx, w: Ctx): Ctx {
    match z
    case Top => w
    case OnL(up, n, c, sib) => OnL(Append(up, w), n, c, sib)
    case OnR(up, n, c, sib) => OnR(Append(up, w), n, c, sib)
  }

  /** z only goes left. */
  ghost predicate LeftSpine(z: Ctx) {
    z.Top? || (z.OnL? && LeftSpine(z.up))
  }

  lemma {:induction false} AppendPlug(z: Ctx, w: Ctx, t: Tree)
    ensures Plug(Append(z, w), t) == Plug(w, Plug(z, t))
    decreases z
  {
    if !z.Top? {
      AppendPlug(z.up, w, Above(z, t));
    }
  }

  lemma {:induction false} AppendAt(z: Ctx, w: Ctx, t: Tree, root: Node?, m: Mem)
    ensures At(Append(z, w), t, root, m) <==> At(w, Plug(z, t), root, m)
    ensures CtxNodes(Append(z, w)) + Nodes(t) == CtxNodes(w) + Nodes(Plug(z, t))
    decreases z
  {
    if !z.Top? {
      ZoomAt(Append(z.up, w), Above(z, t), root, m);
      AppendAt(z.up, w, Above(z, t), root, m);
    }
  }

  lemma {:induction false} AppendBalanced(z: Ctx, x: Ctx, n: Node, n': Node, c: Color, l: Tree, h: nat)
    requires CtxBalanced(Append(z, OnR(x, n, c, l)), h)
    ensures CtxBalanced(Append(z, OnR(x, n', c, l)), h)
    decreases z
  {
    if !z.Top? {
      AppendBalanced(z.up, x, n, n', c, l, h + Weight(z.c));
    }
  }

  lemma {:induction false} SpineBefore(z: Ctx, w: Ctx)
    requires LeftSpine(z)
    ensures Before(Append(z, w)) == Before(w) && After(Append(z, w)) == After(z) + After(w)
    decreases z
  {
    if !z.Top? {
      SpineBefore(z.up, w);
    }
  }

  // ---------- what removal leaves to repair ----------

  /** s' is s without its element number k. */
  ghost predicate Without(s: seq<Node>, k: nat, s': seq<Node>) {
    k < |s| && s' == s[..k] + s[k + 1..]
  }

  lemma CutOuter(b: seq<Node>, l: seq<Node>, n: Node, r: seq<Node>, a: seq<Node>)
    ensures Without(b + (l + [n] + r) + a, |b| + |l|, b + (l + r) + a)
  {
    var s := b + (l + [n] + r) + a;
    assert s[..|b| + |l|] == b + l;
    assert s[|b| + |l| + 1..] == r + a;
  }

  lemma CutInner(b: seq<Node>, l: seq<Node>, n: Node, e: Node, i: seq<Node>, z: seq<Node>, a: seq<Node>)
    ensures Without(b + (l + [n] + ([e] + i + z)) + a, |b| + |l|, (b + l + [e]) + i + (z + a))
  {
    CutOuter(b, l, n, [e] + i + z, a);
    assert b + (l + ([e] + i + z)) + a == (b + l + [e]) + i + (z + a);
  }

  lemma OuterOrder(x: Ctx, t: Tree, ch: Tree)
    requires t.Bin? && ((t.l.Leaf? && ch == t.r) || (t.r.Leaf? && ch == t.l))
    ensures Without(Inorder(Plug(x, t)), Rank(x, t), Inorder(Plug(x, ch)))
  {
    PlugInorder(x, t);
    PlugInorder(x, ch);
    CutOuter(Before(x), Inorder(t.l), t.n, Inorder(t.r), After(x));
    assert Inorder(ch) == Inorder(t.l) + Inorder(t.r);
  }

  lemma OuterLemma(x: Ctx, t: Tree, ch: Tree)
    requires t.Bin? && ((t.l.Leaf? && ch == t.r) || (t.r.Leaf? && ch == t.l))
    requires Balanced(t) && CtxBalanced(x, BlackHeight(t)) && (!IsBlack(t) ==> !x.Top? && x.c.Black?)
    ensures if t.c.Black? then ShortAt(x, ch) else Settled(x, ch)
  {
    assert Balanced(ch) && BlackHeight(t) == BlackHeight(ch) + Weight(t.c);
  }

  /** The successor's parent is the element itself exactly when the successor is the
      root of the right subtree. */
  lemma InnerFacts(z: Ctx, x: Ctx, t: Tree, u: Tree)
    requires t.Bin? && Sep(t) && Plug(z, u) == t.r
    ensures CtxNode(Append(z, OnR(x, t.n, t.c, t.l))) == t.n <==> z.Top?
    ensures u.Bin? ==> u.n != t.n
  {
    hide Plug, Append, Sep, Nodes;
    PlugNodes(z, u);
    RootNode(t);
    AppendNode(z, OnR(x, t.n, t.c, t.l));
    assert !z.Top? ==> z.n in CtxNodes(z);
    assert u.Bin? ==> u.n in Nodes(u) by {
      OwnNode(u);
    }
  }

  lemma OwnNode(t: Tree)
    ensures t.Bin? ==> t.n in Nodes(t)
  {
  }

  lemma RootNode(t: Tree)
    requires t.Bin? && Sep(t)
    ensures t.n !in Nodes(t.r)
  {
  }

  lemma AppendNode(z: Ctx, w: Ctx)
    ensures CtxNode(Append(z, w)) == if z.Top? then CtxNode(w) else z.n
  {
  }

  lemma InnerOrder(z: Ctx, x: Ctx, t: Tree, u: Tree)
    requires t.Bin? && u.Bin? && u.l.Leaf? && LeftSpine(z) && Plug(z, u) == t.r
    ensures Without(Inorder(Plug(x, t)), Rank(x, t),
                    Inorder(Plug(Append(z, OnR(x, u.n, t.c, t.l)), u.r)))
  {
    var w := OnR(x, u.n, t.c, t.l);
    PlugInorder(x, t);
    SpineInorder(z, u);
    SpineBefore(z, w);
    PlugInorder(Append(z, w), u.r);
    CutInner(Before(x), Inorder(t.l), t.n, u.n, Inorder(u.r), After(z), After(x));
  }

  lemma SpineInorder(z: Ctx, u: Tree)
    requires u.Bin? && u.l.Leaf? && LeftSpine(z)
    ensures Inorder(Plug(z, u)) == [u.n] + Inorder(u.r) + After(z)
  {
    PlugInorder(z, u);
    SpineBefore(z, Top);
    AppendTop(z);
  }

  lemma {:induction false} AppendTop(z: Ctx)
    ensures Append(z, Top) == z
  {
    if !z.Top? {
      AppendTop(z.up);
    }
  }

  lemma InnerLemma(z: Ctx, x: Ctx, t: Tree, u: Tree)
    requires t.Bin? && u.Bin? && u.l.Leaf? && Plug(z, u) == t.r
    requires Balanced(Plug(x, t)) && IsBlack(Plug(x, t))
    ensures var y := Append(z, OnR(x, u.n, t.c, t.l));
            if u.c.Black? then ShortAt(y, u.r) else Settled(y, u.r)
  {
    var w := OnR(x, t.n, t.c, t.l);
    AppendPlug(z, w, u);
    UnplugBalanced(Append(z, w), u);
    AppendBalanced(z, x, t.n, u.n, t.c, t.l, BlackHeight(u));
    OuterLemma(Append(z, OnR(x, u.n, t.c, t.l)), u, u.r);
  }
}
