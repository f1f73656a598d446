/**
  The red-black tree operations of utils/tree.h on linked nodes.
 */
module RbTree {
  import opened Bits
  import opened RbShape
  import opened RbMem

  class Head {
    var root: Node?
    ghost var nodes: set<Node>
    ghost var shape: Tree

    /** The heap holds t in the hole of x. */
    ghost predicate Holds(x: Ctx, t: Tree)
      reads this`root, this`nodes, nodes
    {
      At(x, t, root, Snap(nodes)) && CtxNodes(x) + Nodes(t) == nodes
    }

    ghost predicate Valid()
      reads this, nodes
    {
      Holds(Top, shape) && SortedKeys(Inorder(shape)) && Balanced(shape) && IsBlack(shape)
    }

    constructor ()
      ensures Valid() && shape == Leaf
    {
      root, nodes, shape := null, {}, Leaf;
    }

    /** RB_ROTATE_LEFT at elm: the stores. */
    method TurnLeft(elm: Node, tmp: Node)
      requires elm in nodes && elm.right == tmp && tmp in nodes && elm != tmp
      requires tmp.left != null ==> tmp.left in nodes && tmp.left !in {elm, tmp}
      requires elm.parent != null ==> elm.parent in nodes && elm.parent !in {elm, tmp} && elm.parent != tmp.left
      modifies this`root, nodes
      ensures Same(nodes - {elm, tmp, old(tmp.left), old(elm.parent)}, old(Snap(nodes)), Snap(nodes))
      ensures Snap(nodes)[elm] == Fields(old(elm.left), old(tmp.left), tmp, old(elm.color))
      ensures Snap(nodes)[tmp] == Fields(elm, old(tmp.right), old(elm.parent), old(tmp.color))
      ensures old(tmp.left) != null ==>
                Snap(nodes)[old(tmp.left)] == old(Snap(nodes))[old(tmp.left)].(parent := elm)
      ensures Relinked(old(elm.parent), elm, tmp, old(root), old(Snap(nodes)), root, Snap(nodes))
    {
      elm.right := tmp.left;
      if elm.right != null {
        tmp.left.parent := elm;
      }
      tmp.parent := elm.parent;
      if tmp.parent != null {
        if elm == elm.parent.left {
          elm.parent.left := tmp;
        } else {
          elm.parent.right := tmp;
        }
      } else {
        root := tmp;
      }
      tmp.left := elm;
      elm.parent := tmp;
    }

    method RotateLeft(elm: Node, ghost x: Ctx, ghost t: Tree)
      requires Holds(x, t) && t.Bin? && t.n == elm && t.r.Bin?
      modifies this`root, nodes
      ensures Holds(x, RotL(t))
    {
      RotLFacts(x, t, root, Snap(nodes));
      TurnLeft(elm, elm.right);
      RotLAt(x, t, old(root), old(Snap(nodes)), root, Snap(nodes));
    }

    /** RB_ROTATE_RIGHT at elm: the stores. */
    method TurnRight(elm: Node, tmp: Node)
      requires elm in nodes && elm.left == tmp && tmp in nodes && elm != tmp
      requires tmp.right != null ==> tmp.right in nodes && tmp.right !in {elm, tmp}
      requires elm.parent != null ==> elm.parent in nodes && elm.parent !in {elm, tmp} && elm.parent != tmp.right
      modifies this`root, nodes
      ensures Same(nodes - {elm, tmp, old(tmp.right), old(elm.parent)}, old(Snap(nodes)), Snap(nodes))
      ensures Snap(nodes)[elm] == Fields(old(tmp.right), old(elm.right), tmp, old(elm.color))
      ensures Snap(nodes)[tmp] == Fields(old(tmp.left), elm, old(elm.parent), old(tmp.color))
      ensures old(tmp.right) != null ==>
                Snap(nodes)[old(tmp.right)] == old(Snap(nodes))[old(tmp.right)].(parent := elm)
      ensures Relinked(old(elm.parent), elm, tmp, old(root), old(Snap(nodes)), root, Snap(nodes))
    {
      elm.left := tmp.right;
      if elm.left != null {
        tmp.right.parent := elm;
      }
      tmp.parent := elm.parent;
      if tmp.parent != null {
        if elm == elm.parent.left {
          elm.parent.left := tmp;
        } else {
          elm.parent.right := tmp;
        }
      } else {
        root := tmp;
      }
      tmp.right := elm;
      elm.parent := tmp;
    }

    method RotateRight(elm: Node, ghost x: Ctx, ghost t: Tree)
      requires Holds(x, t) && t.Bin? && t.n == elm && t.l.Bin?
      modifies this`root, nodes
      ensures Holds(x, RotR(t))
    {
      RotRFacts(x, t, root, Snap(nodes));
      TurnRight(elm, elm.left);
      RotRAt(x, t, old(root), old(Snap(nodes)), root, Snap(nodes));
    }

    // ---------- small steps ----------

    lemma Zoom(x: Ctx, t: Tree)
      requires t.Bin?
      ensures Holds(OnL(x, t.n, t.c, t.r), t.l) <==> Holds(x, t)
      ensures Holds(OnR(x, t.n, t.c, t.l), t.r) <==> Holds(x, t)
    {
      ZoomAt(x, t, root, Snap(nodes));
    }

    lemma Gather(x: Ctx, t: Tree)
      ensures Holds(Top, Plug(x, t)) <==> Holds(x, t)
    {
      PlugAt(x, t, root, Snap(nodes));
      PlugNodes(x, t);
    }

    /** What the fields of the node at the focus, and of its parent, say. */
    lemma Look(x: Ctx, t: Tree)
      requires Holds(x, t)
      ensures t.Bin? ==>
                t.n in nodes && t.n.left == RootOf(t.l) && t.n.right == RootOf(t.r) &&
                t.n.parent == CtxNode(x) && t.n.color == t.c
      ensures x.Top? ==> root == RootOf(t)
      ensures x.OnL? ==>
                x.n in nodes && x.n.left == RootOf(t) && x.n.right == RootOf(x.sib) &&
                x.n.parent == CtxNode(x.up) && x.n.color == x.c && (x.sib.Leaf? || x.sib.n != RootOf(t))
      ensures x.OnR? ==>
                x.n in nodes && x.n.right == RootOf(t) && x.n.left == RootOf(x.sib) &&
                x.n.parent == CtxNode(x.up) && x.n.color == x.c && (x.sib.Leaf? || x.sib.n != RootOf(t))
    {
      var m := Snap(nodes);
      assert !x.Top? && x.sib.Bin? ==> x.sib.n in Nodes(x.sib);
    }

    method Paint(n: Node, c: Color, ghost x: Ctx, ghost t: Tree)
      requires Holds(x, t) && t.Bin? && t.n == n
      modifies nodes
      ensures Holds(x, t.(c := c))
    {
      n.color := c;
      PaintAt(x, t, c, root, old(Snap(nodes)), Snap(nodes));
    }

    /** RB_INSERT_COLOR with a red uncle: the parent, a left child, and the uncle turn
        black, the grandparent red. */
    method SpreadFromLeft(parent: Node, gparent: Node, tmp: Node, ghost up: Ctx, ghost g: Tree)
      requires Holds(up, g) && g.Bin? && g.l.Bin? && g.r.Bin?
      requires g.n == gparent && g.l.n == parent && g.r.n == tmp
      modifies nodes
      ensures Holds(up, Spread(g))
    {
      ghost var p, unc := g.l, g.r;
      Zoom(up, g);
      Paint(tmp, Black, OnR(up, gparent, g.c, p), unc);
      unc := unc.(c := Black);
      Zoom(up, Bin(p, gparent, g.c, unc));
      Paint(parent, Black, OnL(up, gparent, g.c, unc), p);
      p := p.(c := Black);
      Zoom(up, Bin(p, gparent, g.c, unc));
      Paint(gparent, Red, up, Bin(p, gparent, g.c, unc));
    }

    /** The end of RB_INSERT_COLOR: the parent, a left child, turns black, the
        grandparent red and below it. */
    method SettleFromLeft(parent: Node, gparent: Node, ghost up: Ctx, ghost g: Tree)
      requires Holds(up, g) && g.Bin? && g.l.Bin? && g.n == gparent && g.l.n == parent
      modifies this`root, nodes
      ensures Holds(up, RotR(Bin(g.l.(c := Black), gparent, Red, g.r)))
    {
      Zoom(up, g);
      Paint(parent, Black, OnL(up, gparent, g.c, g.r), g.l);
      ghost var p := g.l.(c := Black);
      Zoom(up, Bin(p, gparent, g.c, g.r));
      Paint(gparent, Red, up, Bin(p, gparent, g.c, g.r));
      RotateRight(gparent, up, Bin(p, gparent, Red, g.r));
    }

    /** One round of RB_INSERT_COLOR when the parent is a left child. */
    method LiftFromLeft(elm: Node, parent: Node, gparent: Node, ghost x: Ctx, ghost t: Tree)
      returns (e: Node, ghost y: Ctx, ghost u: Tree)
      requires Holds(x, t) && RedAt(x, t) && t.n == elm
      requires !x.Top? && x.c.Red? && x.n == parent && x.up.OnL? && x.up.n == gparent
      modifies this`root, nodes
      ensures Holds(y, u) && RedAt(y, u) && u.n == e && Depth(y) < Depth(x)
      ensures Inorder(Plug(y, u)) == Inorder(Plug(x, t))
    {
      ghost var up, p := x.up.up, Above(x, t);
      ghost var g := Bin(p, gparent, x.up.c, x.up.sib);
      Zoom(x.up, p);
      Zoom(up, g);
      Look(x, t);
      Look(OnR(up, gparent, x.up.c, p), x.up.sib);
      var tmp := gparent.right;
      if tmp != null && tmp.color == Red {
        SpreadFromLeft(parent, gparent, tmp, up, g);
        e, y, u := gparent, up, Spread(g);
        SpreadLemma(x, t);
      } else {
        e := elm;
        var p' := parent;
        ghost var q := p;
        if parent.right == elm {
          RotateLeft(parent, x.up, p);
          q := RotL(p);
          e, p' := parent, elm;
        }
        Zoom(up, Bin(q, gparent, x.up.c, x.up.sib));
        SettleFromLeft(p', gparent, up, Bin(q, gparent, x.up.c, x.up.sib));
        ghost var res := RotR(Bin(q.(c := Black), gparent, Red, x.up.sib));
        Zoom(up, res);
        y, u := OnL(up, p', Black, res.r), q.l;
        SettleLemmaL(x, t);
        SettleInorderL(x, t);
      }
    }

    /** RB_INSERT_COLOR with a red uncle: the parent, a right child, and the uncle turn
        black, the grandparent red. */
    method SpreadFromRight(parent: Node, gparent: Node, tmp: Node, ghost up: Ctx, ghost g: Tree)
      requires Holds(up, g) && g.Bin? && g.r.Bin? && g.l.Bin?
      requires g.n == gparent && g.r.n == parent && g.l.n == tmp
      modifies nodes
      ensures Holds(up, Spread(g))
    {
      ghost var p, unc := g.r, g.l;
      Zoom(up, g);
      Paint(tmp, Black, OnL(up, gparent, g.c, p), unc);
      unc := unc.(c := Black);
      Zoom(up, Bin(unc, gparent, g.c, p));
      Paint(parent, Black, OnR(up, gparent, g.c, unc), p);
      p := p.(c := Black);
      Zoom(up, Bin(unc, gparent, g.c, p));
      Paint(gparent, Red, up, Bin(unc, gparent, g.c, p));
    }

    /** The end of RB_INSERT_COLOR: the parent, a right child, turns black, the
        grandparent red and below it. */
    method SettleFromRight(parent: Node, gparent: Node, ghost up: Ctx, ghost g: Tree)
      requires Holds(up, g) && g.Bin? && g.r.Bin? && g.n == gparent && g.r.n == parent
      modifies this`root, nodes
      ensures Holds(up, RotL(Bin(g.l, gparent, Red, g.r.(c := Black))))
    {
      Zoom(up, g);
      Paint(parent, Black, OnR(up, gparent, g.c, g.l), g.r);
      ghost var p := g.r.(c := Black);
      Zoom(up, Bin(g.l, gparent, g.c, p));
      Paint(gparent, Red, up, Bin(g.l, gparent, g.c, p));
      RotateLeft(gparent, up, Bin(g.l, gparent, Red, p));
    }

    /** One round of RB_INSERT_COLOR when the parent is a right child. */
    method LiftFromRight(elm: Node, parent: Node, gparent: Node, ghost x: Ctx, ghost t: Tree)
      returns (e: Node, ghost y: Ctx, ghost u: Tree)
      requires Holds(x, t) && RedAt(x, t) && t.n == elm
      requires !x.Top? && x.c.Red? && x.n == parent && x.up.OnR? && x.up.n == gparent
      modifies this`root, nodes
      ensures Holds(y, u) && RedAt(y, u) && u.n == e && Depth(y) < Depth(x)
      ensures Inorder(Plug(y, u)) == Inorder(Plug(x, t))
    {
      ghost var up, p := x.up.up, Above(x, t);
      ghost var g := Bin(x.up.sib, gparent, x.up.c, p);
      Zoom(x.up, p);
      Zoom(up, g);
      Look(x, t);
      Look(OnL(up, gparent, x.up.c, p), x.up.sib);
      var tmp := gparent.left;
      if tmp != null && tmp.color == Red {
        SpreadFromRight(parent, gparent, tmp, up, g);
        e, y, u := gparent, up, Spread(g);
        SpreadLemma(x, t);
      } else {
        e := elm;
        var p' := parent;
        ghost var q := p;
        if parent.left == elm {
          RotateRight(parent, x.up, p);
          q := RotR(p);
          e, p' := parent, elm;
        }
        Zoom(up, Bin(x.up.sib, gparent, x.up.c, q));
        SettleFromRight(p', gparent, up, Bin(x.up.sib, gparent, x.up.c, q));
        ghost var res := RotL(Bin(x.up.sib, gparent, Red, q.(c := Black)));
        Zoom(up, res);
        y, u := OnR(up, p', Black, res.l), q.r;
        SettleLemmaR(x, t);
        SettleInorderR(x, t);
      }
    }

    /** RB_INSERT_COLOR: repairs a red node under a possibly red parent. */
    method InsertColor(elm: Node, ghost x: Ctx, ghost t: Tree) returns (ghost u: Tree)
      requires Holds(x, t) && RedAt(x, t) && t.n == elm
      modifies this`root, nodes
      ensures Holds(Top, u) && Balanced(u) && IsBlack(u) && Inorder(u) == Inorder(Plug(x, t))
    {
      var e := elm;
      ghost var y, v := x, t;
      Look(y, v);
      while e.parent != null && e.parent.color == Red
        invariant Holds(y, v) && RedAt(y, v) && v.n == e
        invariant e.parent == CtxNode(y) && (!y.Top? ==> y.n.color == y.c)
        invariant Inorder(Plug(y, v)) == Inorder(Plug(x, t))
        decreases Depth(y)
      {
        var parent := e.parent;
        Zoom(y.up, Above(y, v));
        Look(y.up, Above(y, v));
        var gparent := parent.parent;
        if parent == gparent.left {
          e, y, v := LiftFromLeft(e, parent, gparent, y, v);
        } else {
          e, y, v := LiftFromRight(e, parent, gparent, y, v);
        }
        Look(y, v);
      }
      PlugBalanced(y, v);
      u := Plug(y, v);
      Gather(y, v);
      Paint(root, Black, Top, u);
      u := u.(c := Black);
    }

    // ---------- removal's repair ----------

    /** RB_REMOVE_COLOR with a red sibling, for a left child. */
    method OverFromLeft(parent: Node, tmp: Node, ghost x: Ctx, ghost t: Tree)
      requires Holds(x, t) && x.OnL? && x.n == parent && x.sib.Bin? && x.sib.n == tmp
      modifies this`root, nodes
      ensures Holds(OverturnL(x), t)
    {
      ghost var s := x.sib;
      Zoom(x.up, Bin(t, parent, x.c, s));
      Paint(tmp, Black, OnR(x.up, parent, x.c, t), s);
      s := s.(c := Black);
      Zoom(x.up, Bin(t, parent, x.c, s));
      Paint(parent, Red, x.up, Bin(t, parent, x.c, s));
      RotateLeft(parent, x.up, Bin(t, parent, Red, s));
      Zoom(x.up, RotL(Bin(t, parent, Red, s)));
      Zoom(OnL(x.up, tmp, Black, s.r), Bin(t, parent, Red, s.l));
    }

    /** RB_REMOVE_COLOR with a black outer and a red inner nephew, for a left child. */
    method InnerFromLeft(parent: Node, tmp: Node, ghost x: Ctx, ghost t: Tree)
      requires Holds(x, t) && x.OnL? && x.n == parent && x.sib.Bin? && x.sib.n == tmp && x.sib.l.Bin?
      modifies this`root, nodes
      ensures Holds(OnL(x.up, x.n, x.c, TurnedL(x.sib)), t)
    {
      ghost var s, y := x.sib, OnR(x.up, parent, x.c, t);
      Zoom(x.up, Bin(t, parent, x.c, s));
      Zoom(y, s);
      Look(y, s);
      var oleft := tmp.left;
      Paint(oleft, Black, OnL(y, tmp, s.c, s.r), s.l);
      s := Bin(s.l.(c := Black), tmp, s.c, s.r);
      Zoom(y, s);
      Paint(tmp, Red, y, s);
      RotateRight(tmp, y, s.(c := Red));
      Zoom(x.up, Bin(t, parent, x.c, TurnedL(x.sib)));
    }

    /** RB_REMOVE_COLOR with a red outer nephew, for a left child. */
    method MendFromLeft(parent: Node, tmp: Node, ghost x: Ctx, ghost t: Tree)
      requires Holds(x, t) && x.OnL? && x.n == parent && x.sib.Bin? && x.sib.n == tmp && x.sib.r.Bin?
      modifies this`root, nodes
      ensures Holds(x.up, MendedL(x, t))
    {
      ghost var s := x.sib;
      Look(x, t);
      Zoom(x.up, Bin(t, parent, x.c, s));
      Paint(tmp, parent.color, OnR(x.up, parent, x.c, t), s);
      s := s.(c := x.c);
      Zoom(x.up, Bin(t, parent, x.c, s));
      Paint(parent, Black, x.up, Bin(t, parent, x.c, s));
      Zoom(x.up, Bin(t, parent, Black, s));
      ghost var y := OnR(x.up, parent, Black, t);
      Zoom(y, s);
      Look(y, s);
      Paint(tmp.right, Black, OnR(y, tmp, s.c, s.l), s.r);
      s := Bin(s.l, tmp, s.c, s.r.(c := Black));
      Zoom(y, s);
      Zoom(x.up, Bin(t, parent, Black, s));
      RotateLeft(parent, x.up, Bin(t, parent, Black, s));
    }

    /** Which way RB_REMOVE_COLOR goes on from a black sibling, for a left child. */
    method AcrossFromLeft(parent: Node, tmp: Node, ghost x: Ctx, ghost t: Tree)
      returns (done: bool, ghost y: Ctx, ghost u: Tree)
      requires Holds(x, t) && ShortAt(x, t) && IsBlack(t)
      requires x.OnL? && x.n == parent && x.sib.Bin? && x.sib.n == tmp && x.sib.c.Black?
      modifies this`root, nodes
      ensures Holds(y, u) && Inorder(Plug(y, u)) == Inorder(Plug(x, t))
      ensures if done then Settled(y, u) else ShortAt(y, u) && y == x.up && u.Bin? && u.n == parent && u.c == x.c
    {
      ghost var s, z := x.sib, OnR(x.up, parent, x.c, t);
      Zoom(x.up, Bin(t, parent, x.c, s));
      Look(z, s);
      Zoom(z, s);
      Look(OnL(z, tmp, s.c, s.r), s.l);
      Look(OnR(z, tmp, s.c, s.l), s.r);
      if (tmp.left == null || tmp.left.color == Black) && (tmp.right == null || tmp.right.color == Black) {
        Paint(tmp, Red, z, s);
        done, y, u := false, x.up, Bin(t, parent, x.c, s.(c := Red));
        Zoom(x.up, u);
        PassLemmaL(x, t);
      } else {
        ghost var w := x;
        var tmp' := tmp;
        if tmp.right == null || tmp.right.color == Black {
          InnerFromLeft(parent, tmp, x, t);
          w := OnL(x.up, x.n, x.c, TurnedL(x.sib));
          TurnLemmaL(x, t);
          Look(w, t);
          tmp' := parent.right;
        }
        MendFromLeft(parent, tmp', w, t);
        done, y, u := true, x.up, MendedL(w, t);
        MendLemmaL(w, t);
      }
    }

    /** One round of RB_REMOVE_COLOR at a left child. */
    method MakeUpFromLeft(parent: Node, ghost x: Ctx, ghost t: Tree)
      returns (done: bool, ghost y: Ctx, ghost u: Tree)
      requires Holds(x, t) && ShortAt(x, t) && IsBlack(t) && x.OnL? && x.n == parent
      modifies this`root, nodes
      ensures Holds(y, u) && Inorder(Plug(y, u)) == Inorder(Plug(x, t))
      ensures if done then Settled(y, u)
              else ShortAt(y, u) && u.Bin? && u.n == parent && Effort(y, u) < Effort(x, t)
    {
      OverLemmaL(x, t);
      Zoom(x.up, Bin(t, parent, x.c, x.sib));
      Look(x, t);
      Look(OnR(x.up, parent, x.c, t), x.sib);
      var tmp := parent.right;
      ghost var w := x;
      if tmp.color == Red {
        OverFromLeft(parent, tmp, x, t);
        w := OverturnL(x);
        Look(w, t);
        tmp := parent.right;
      }
      done, y, u := AcrossFromLeft(parent, tmp, w, t);
    }

    /** RB_REMOVE_COLOR with a red sibling, for a right child. */
    method OverFromRight(parent: Node, tmp: Node, ghost x: Ctx, ghost t: Tree)
      requires Holds(x, t) && x.OnR? && x.n == parent && x.sib.Bin? && x.sib.n == tmp
      modifies this`root, nodes
      ensures Holds(OverturnR(x), t)
    {
      ghost var s := x.sib;
      Zoom(x.up, Bin(s, parent, x.c, t));
      Paint(tmp, Black, OnL(x.up, parent, x.c, t), s);
      s := s.(c := Black);
      Zoom(x.up, Bin(s, parent, x.c, t));
      Paint(parent, Red, x.up, Bin(s, parent, x.c, t));
      RotateRight(parent, x.up, Bin(s, parent, Red, t));
      Zoom(x.up, RotR(Bin(s, parent, Red, t)));
      Zoom(OnR(x.up, tmp, Black, s.l), Bin(s.r, parent, Red, t));
    }

    /** RB_REMOVE_COLOR with a black outer and a red inner nephew, for a right child. */
    method InnerFromRight(parent: Node, tmp: Node, ghost x: Ctx, ghost t: Tree)
      requires Holds(x, t) && x.OnR? && x.n == parent && x.sib.Bin? && x.sib.n == tmp && x.sib.r.Bin?
      modifies this`root, nodes
      ensures Holds(OnR(x.up, x.n, x.c, TurnedR(x.sib)), t)
    {
      ghost var s, y := x.sib, OnL(x.up, parent, x.c, t);
      Zoom(x.up, Bin(s, parent, x.c, t));
      Zoom(y, s);
      Look(y, s);
      var oright := tmp.right;
      Paint(oright, Black, OnR(y, tmp, s.c, s.l), s.r);
      s := Bin(s.l, tmp, s.c, s.r.(c := Black));
      Zoom(y, s);
      Paint(tmp, Red, y, s);
      RotateLeft(tmp, y, s.(c := Red));
      Zoom(x.up, Bin(TurnedR(x.sib), parent, x.c, t));
    }

    /** RB_REMOVE_COLOR with a red outer nephew, for a right child. */
    method MendFromRight(parent: Node, tmp: Node, ghost x: Ctx, ghost t: Tree)
      requires Holds(x, t) && x.OnR? && x.n == parent && x.sib.Bin? && x.sib.n == tmp && x.sib.l.Bin?
      modifies this`root, nodes
      ensures Holds(x.up, MendedR(x, t))
    {
      ghost var s := x.sib;
      Look(x, t);
      Zoom(x.up, Bin(s, parent, x.c, t));
      Paint(tmp, parent.color, OnL(x.up, parent, x.c, t), s);
      s := s.(c := x.c);
      Zoom(x.up, Bin(s, parent, x.c, t));
      Paint(parent, Black, x.up, Bin(s, parent, x.c, t));
      Zoom(x.up, Bin(s, parent, Black, t));
      ghost var y := OnL(x.up, parent, Black, t);
      Zoom(y, s);
      Look(y, s);
      Paint(tmp.left, Black, OnL(y, tmp, s.c, s.r), s.l);
      s := Bin(s.l.(c := Black), tmp, s.c, s.r);
      Zoom(y, s);
      Zoom(x.up, Bin(s, parent, Black, t));
      RotateRight(parent, x.up, Bin(s, parent, Black, t));
    }

    /** Which way RB_REMOVE_COLOR goes on from a black sibling, for a right child. */
    method AcrossFromRight(parent: Node, tmp: Node, ghost x: Ctx, ghost t: Tree)
      returns (done: bool, ghost y: Ctx, ghost u: Tree)
      requires Holds(x, t) && ShortAt(x, t) && IsBlack(t)
      requires x.OnR? && x.n == parent && x.sib.Bin? && x.sib.n == tmp && x.sib.c.Black?
      modifies this`root, nodes
      ensures Holds(y, u) && Inorder(Plug(y, u)) == Inorder(Plug(x, t))
      ensures if done then Settled(y, u) else ShortAt(y, u) && y == x.up && u.Bin? && u.n == parent && u.c == x.c
    {
      ghost var s, z := x.sib, OnL(x.up, parent, x.c, t);
      Zoom(x.up, Bin(s, parent, x.c, t));
      Look(z, s);
      Zoom(z, s);
      Look(OnR(z, tmp, s.c, s.l), s.r);
      Look(OnL(z, tmp, s.c, s.r), s.l);
      if (tmp.right == null || tmp.right.color == Black) && (tmp.left == null || tmp.left.color == Black) {
        Paint(tmp, Red, z, s);
        done, y, u := false, x.up, Bin(s.(c := Red), parent, x.c, t);
        Zoom(x.up, u);
        PassLemmaR(x, t);
      } else {
        ghost var w := x;
        var tmp' := tmp;
        if tmp.left == null || tmp.left.color == Black {
          InnerFromRight(parent, tmp, x, t);
          w := OnR(x.up, x.n, x.c, TurnedR(x.sib));
          TurnLemmaR(x, t);
          Look(w, t);
          tmp' := parent.left;
        }
        MendFromRight(parent, tmp', w, t);
        done, y, u := true, x.up, MendedR(w, t);
        MendLemmaR(w, t);
      }
    }

    /** One round of RB_REMOVE_COLOR at a right child. */
    method MakeUpFromRight(parent: Node, ghost x: Ctx, ghost t: Tree)
      returns (done: bool, ghost y: Ctx, ghost u: Tree)
      requires Holds(x, t) && ShortAt(x, t) && IsBlack(t) && x.OnR? && x.n == parent
      modifies this`root, nodes
      ensures Holds(y, u) && Inorder(Plug(y, u)) == Inorder(Plug(x, t))
      ensures if done then Settled(y, u)
              else ShortAt(y, u) && u.Bin? && u.n == parent && Effort(y, u) < Effort(x, t)
    {
      OverLemmaR(x, t);
      Zoom(x.up, Bin(x.sib, parent, x.c, t));
      Look(x, t);
      Look(OnL(x.up, parent, x.c, t), x.sib);
      var tmp := parent.left;
      ghost var w := x;
      if tmp.color == Red {
        OverFromRight(parent, tmp, x, t);
        w := OverturnR(x);
        Look(w, t);
        tmp := parent.left;
      }
      done, y, u := AcrossFromRight(parent, tmp, w, t);
    }

    /** RB_REMOVE_COLOR: makes up for a missing black node above t. */
    method RemoveColor(parent: Node?, elm: Node?, ghost x: Ctx, ghost t: Tree) returns (ghost u: Tree)
      requires Holds(x, t) && ShortAt(x, t) && parent == CtxNode(x) && elm == RootOf(t)
      modifies this`root, nodes
      ensures Holds(Top, u) && Balanced(u) && IsBlack(u) && Inorder(u) == Inorder(Plug(x, t))
    {
      var p, e, done := parent, elm, false;
      ghost var y, v := x, t;
      Stand(y, v);
      while !done && (e == null || e.color == Black) && e != root
        invariant Holds(y, v) && Inorder(Plug(y, v)) == Inorder(Plug(x, t))
        invariant !done ==> ShortAt(y, v) && p == CtxNode(y) && e == RootOf(v) && Standing(y, v)
        invariant done ==> Settled(y, v)
        decreases !done, Effort(y, v)
      {
        Look(y, v);
        if p.left == e {
          done, y, v := MakeUpFromLeft(p, y, v);
        } else {
          done, y, v := MakeUpFromRight(p, y, v);
        }
        Stand(y, v);
        if done {
          e := root;
        } else {
          e, p := p, p.parent;
        }
      }
      u := if done then Plug(y, v) else Plug(y, Blackened(v));
      if done {
        PlugBalanced(y, v);
        Gather(y, v);
        BlackenRoot(u);
      } else {
        BlackenFocus(e, y, v);
      }
    }

    method BlackenRoot(ghost t: Tree)
      requires Holds(Top, t) && IsBlack(t)
      modifies nodes
      ensures Holds(Top, t)
    {
      if root != null {
        Paint(root, Black, Top, t);
      }
    }

    method BlackenFocus(e: Node?, ghost x: Ctx, ghost t: Tree)
      requires Holds(x, t) && e == RootOf(t) && ShortAt(x, t) && (IsBlack(t) ==> x.Top?)
      modifies nodes
      ensures var u := Plug(x, Blackened(t));
              Holds(Top, u) && Balanced(u) && IsBlack(u) && Inorder(u) == Inorder(Plug(x, t))
    {
      FinishLemma(x, t);
      if e != null {
        Paint(e, Black, x, t);
      }
      PlugBalanced(x, Blackened(t));
      Gather(x, Blackened(t));
    }

    /** Where the cursor of RB_REMOVE_COLOR stands. */
    ghost predicate Standing(x: Ctx, t: Tree)
      reads this, nodes
    {
      (x.Top? <==> RootOf(t) == root) &&
      (t.Bin? ==> t.n in nodes && t.n.color == t.c && t.n.parent == CtxNode(x))
    }

    lemma Stand(x: Ctx, t: Tree)
      requires Holds(x, t)
      ensures Standing(x, t)
    {
      Look(x, t);
      RootAbove(x, RootOf(t), root, Snap(nodes));
      CtxSepDisjoint(x, Nodes(t));
    }
    // ---------- lookups ----------

    /** A cursor p stands at the subtree t, whose surroundings are x. */
    ghost predicate Cursor(x: Ctx, t: Tree, p: Node?)
      reads this, nodes
    {
      Holds(x, t) && Plug(x, t) == shape && p == RootOf(t)
    }

    lemma Down(x: Ctx, t: Tree, p: Node?)
      requires Cursor(x, t, p) && p != null
      ensures t.Bin? && t.n == p && p in nodes && p.parent == CtxNode(x)
      ensures Cursor(OnL(x, t.n, t.c, t.r), t.l, p.left)
      ensures Cursor(OnR(x, t.n, t.c, t.l), t.r, p.right)
    {
      Zoom(x, t);
      Look(x, t);
    }

    /** RB_FIND, with the number of comparisons it makes. */
    method Find(key: int) returns (r: Node?, ghost comparisons: nat)
      requires Valid()
      ensures r != null ==> r in nodes && r.key == key
      ensures r == null ==> forall n :: n in nodes ==> n.key != key
      ensures Pow2(comparisons) <= (|nodes| + 1) * (|nodes| + 1)
    {
      r, comparisons := Search(key);
      Cost(comparisons);
    }

    method Search(key: int) returns (r: Node?, ghost comparisons: nat)
      requires Valid()
      ensures r != null ==> r in nodes && r.key == key
      ensures r == null ==> forall n :: n in nodes ==> n.key != key
      ensures comparisons <= Height(shape)
    {
      r := root;
      ghost var x, t := Top, shape;
      comparisons := 0;
      while r != null
        invariant Cursor(x, t, r) && Between(x, key)
        invariant comparisons + Height(t) <= Height(shape)
        decreases t
      {
        Down(x, t, r);
        comparisons := comparisons + 1;
        if key < r.key {
          x, t := OnL(x, t.n, t.c, t.r), t.l;
          r := r.left;
        } else if key > r.key {
          x, t := OnR(x, t.n, t.c, t.l), t.r;
          r := r.right;
        } else {
          return;
        }
      }
      Absent(x, key);
    }

    lemma Absent(x: Ctx, key: int)
      requires Valid() && Plug(x, Leaf) == shape && Between(x, key)
      ensures forall n :: n in nodes ==> n.key != key
    {
      Members(x);
      BetweenAll(x, Leaf, key);
    }

    lemma Cost(k: nat)
      requires Valid() && k <= Height(shape)
      ensures Pow2(k) <= (|nodes| + 1) * (|nodes| + 1)
    {
      HeightBound(shape);
      InorderLength(shape);
      Pow2Monotone(k, Height(shape));
      assert Nodes(shape) == nodes;
    }

    /** RB_NFIND, with the number of comparisons it makes. */
    method NFind(key: int) returns (r: Node?, ghost comparisons: nat)
      requires Valid()
      ensures r != null ==> r in nodes && key <= r.key
      ensures r != null ==> forall n :: n in nodes && key <= n.key ==> r.key <= n.key
      ensures r == null ==> forall n :: n in nodes ==> n.key < key
      ensures Pow2(comparisons) <= (|nodes| + 1) * (|nodes| + 1)
    {
      r, comparisons := SearchFrom(key);
      Cost(comparisons);
    }

    method SearchFrom(key: int) returns (r: Node?, ghost comparisons: nat)
      requires Valid()
      ensures r != null ==> r in nodes && key <= r.key
      ensures r != null ==> forall n :: n in nodes && key <= n.key ==> r.key <= n.key
      ensures r == null ==> forall n :: n in nodes ==> n.key < key
      ensures comparisons <= Height(shape)
    {
      var tmp := root;
      r := null;
      ghost var x, t := Top, shape;
      comparisons := 0;
      while tmp != null
        invariant Cursor(x, t, tmp) && Between(x, key) && r == Succ(x)
        invariant comparisons + Height(t) <= Height(shape)
        decreases t
      {
        Down(x, t, tmp);
        comparisons := comparisons + 1;
        if key < tmp.key {
          r := tmp;
          x, t := OnL(x, t.n, t.c, t.r), t.l;
          tmp := tmp.left;
        } else if key > tmp.key {
          x, t := OnR(x, t.n, t.c, t.l), t.r;
          tmp := tmp.right;
        } else {
          return tmp, comparisons;
        }
      }
      Nearest(x, key);
    }

    lemma Nearest(x: Ctx, key: int)
      requires Valid() && Plug(x, Leaf) == shape && Between(x, key)
      ensures Succ(x) == null ==> forall n :: n in nodes ==> n.key < key
      ensures Succ(x) != null ==> Succ(x) in nodes && key <= Succ(x).key
      ensures Succ(x) != null ==> forall n :: n in nodes && key <= n.key ==> Succ(x).key <= n.key
    {
      PlugInorder(x, Leaf);
      assert Inorder(shape) == Before(x) + After(x);
      NearestInOrder(x);
      BetweenAll(x, Leaf, key);
      Members(x);
    }

    lemma Members(x: Ctx)
      requires Holds(Top, shape) && Plug(x, Leaf) == shape
      ensures forall n :: n in nodes <==> n in Before(x) || n in After(x)
    {
      PlugInorder(x, Leaf);
      InorderNodes(shape);
      assert Nodes(shape) == nodes;
    }

    /** RB_MINMAX: the first node in order for a negative val, else the last. */
    method MinMax(val: int) returns (r: Node?)
      requires Valid()
      ensures shape == Leaf ==> r == null
      ensures shape != Leaf ==> Inorder(shape) != []
      ensures shape != Leaf && val < 0 ==> r == Inorder(shape)[0]
      ensures shape != Leaf && val >= 0 ==> r == Inorder(shape)[|Inorder(shape)| - 1]
    {
      var tmp := root;
      r := null;
      ghost var x, t := Top, shape;
      while tmp != null
        invariant Holds(x, t) && Plug(x, t) == shape && tmp == RootOf(t) && r == CtxNode(x)
        invariant val < 0 ==> x.Top? || (x.OnL? && Before(x) == [])
        invariant val >= 0 ==> x.Top? || (x.OnR? && After(x) == [])
        decreases t
      {
        r := tmp;
        Zoom(x, t);
        Look(x, t);
        if val < 0 {
          x, t := OnL(x, t.n, t.c, t.r), t.l;
          tmp := tmp.left;
        } else {
          x, t := OnR(x, t.n, t.c, t.l), t.r;
          tmp := tmp.right;
        }
      }
      PlugInorder(x, t);
    }

    /** RB_NEXT. */
    method Next(elm: Node) returns (r: Node?)
      requires Valid() && elm in nodes
      ensures forall i :: 0 <= i < |Inorder(shape)| && Inorder(shape)[i] == elm ==> r == At0(Inorder(shape), i + 1)
    {
      hide Inorder, Before, After, Succ, Pred, Plug;
      ghost var x, t := Position(elm);
      if elm.right != null {
        r := LeftEnd(elm.right, OnR(x, t.n, t.c, t.l), t.r);
      } else {
        r := ClimbRight(elm, x, t);
      }
    }

    /** Down to the leftmost node below. */
    method LeftEnd(from: Node, ghost x: Ctx, ghost t: Tree) returns (r: Node)
      requires Cursor(x, t, from)
      ensures |Before(x)| < |Inorder(shape)| && r == Inorder(shape)[|Before(x)|]
    {
      r := from;
      ghost var y, u := x, t;
      while r.left != null
        invariant Cursor(y, u, r)
        invariant Before(y) == Before(x)
        decreases u
      {
        Down(y, u, r);
        y, u := OnL(y, u.n, u.c, u.r), u.l;
        r := r.left;
      }
      Down(y, u, r);
      EndBelow(y, u);
    }

    /** Up from right children, to the first node in order after the subtree. */
    method ClimbRight(elm: Node, ghost x: Ctx, ghost t: Tree) returns (r: Node?)
      requires Holds(x, t) && RootOf(t) == elm
      ensures r == Succ(x)
    {
      var e: Node := elm;
      ghost var y, u := x, t;
      Look(y, u);
      if e.parent != null && e == e.parent.left {
        r := e.parent;
      } else {
        while e.parent != null && e == e.parent.right
          invariant Holds(y, u) && RootOf(u) == e && e.parent == CtxNode(y)
          invariant y.OnL? ==> y.n.right != e
          invariant y.OnR? ==> y.n.right == e
          invariant Succ(y) == Succ(x)
          decreases y
        {
          Zoom(y.up, Above(y, u));
          y, u := y.up, Above(y, u);
          e := e.parent;
          Look(y, u);
        }
        r := e.parent;
      }
    }

    /** Where a node stands in the tree and in the order, and who comes next to it. */
    lemma Position(elm: Node) returns (x: Ctx, t: Tree)
      requires Valid() && elm in nodes
      ensures Holds(x, t) && t.Bin? && t.n == elm
      ensures Cursor(OnL(x, t.n, t.c, t.r), t.l, elm.left) && Cursor(OnR(x, t.n, t.c, t.l), t.r, elm.right)
      ensures forall i :: 0 <= i < |Inorder(shape)| && Inorder(shape)[i] == elm ==>
                i + 1 == |Before(OnR(x, t.n, t.c, t.l))| &&
                i == |Inorder(shape)| - |After(OnL(x, t.n, t.c, t.r))| &&
                (t.r.Leaf? ==> At0(Inorder(shape), i + 1) == Succ(x)) &&
                (t.l.Leaf? ==> At0(Inorder(shape), i - 1) == Pred(x))
    {
      x, t := Place(elm);
      Down(x, t, elm);
      RankLemma(x, t);
      PlugInorder(x, t);
      forall i | 0 <= i < |Inorder(shape)| && Inorder(shape)[i] == t.n
        ensures i == Rank(x, t)
      {
        SortedUnique(Inorder(shape), i, Rank(x, t));
      }
    }

    /** RB_PREV. */
    method Prev(elm: Node) returns (r: Node?)
      requires Valid() && elm in nodes
      ensures forall i :: 0 <= i < |Inorder(shape)| && Inorder(shape)[i] == elm ==> r == At0(Inorder(shape), i - 1)
    {
      ghost var x, t := Position(elm);
      if elm.left != null {
        r := RightEnd(elm.left, OnL(x, t.n, t.c, t.r), t.l);
      } else {
        r := ClimbLeft(elm, x, t);
      }
    }

    /** Down to the rightmost node below. */
    method RightEnd(from: Node, ghost x: Ctx, ghost t: Tree) returns (r: Node)
      requires Cursor(x, t, from)
      ensures |After(x)| < |Inorder(shape)| && r == Inorder(shape)[|Inorder(shape)| - |After(x)| - 1]
    {
      r := from;
      ghost var y, u := x, t;
      while r.right != null
        invariant Cursor(y, u, r)
        invariant After(y) == After(x)
        decreases u
      {
        Down(y, u, r);
        y, u := OnR(y, u.n, u.c, u.l), u.r;
        r := r.right;
      }
      Down(y, u, r);
      EndBelow(y, u);
    }

    /** Up from left children, to the last node in order before the subtree. */
    method ClimbLeft(elm: Node, ghost x: Ctx, ghost t: Tree) returns (r: Node?)
      requires Holds(x, t) && RootOf(t) == elm
      ensures r == Pred(x)
    {
      var e: Node := elm;
      ghost var y, u := x, t;
      Look(y, u);
      if e.parent != null && e == e.parent.right {
        r := e.parent;
      } else {
        while e.parent != null && e == e.parent.left
          invariant Holds(y, u) && RootOf(u) == e && e.parent == CtxNode(y)
          invariant y.OnR? ==> y.n.left != e
          invariant y.OnL? ==> y.n.left == e
          invariant Pred(y) == Pred(x)
          decreases y
        {
          Zoom(y.up, Above(y, u));
          y, u := y.up, Above(y, u);
          e := e.parent;
          Look(y, u);
        }
        r := e.parent;
      }
    }

    /** RB_PREV undoes RB_NEXT. */
    method NextThenPrev(elm: Node) returns (next: Node?, back: Node?)
      requires Valid() && elm in nodes
      ensures next == null ==> forall n :: n in nodes ==> n.key <= elm.key
      ensures next != null ==> next in nodes && back == elm && elm.key < next.key
    {
      ghost var s := Inorder(shape);
      ghost var k := IndexOf(elm);
      back := null;
      next := Next(elm);
      if next != null {
        back := Prev(next);
      } else {
        forall n | n in nodes
          ensures n.key <= elm.key
        {
          var i := IndexOf(n);
        }
      }
    }

    /** RB_FOREACH: the nodes that the loop visits. */
    method Foreach() returns (visited: seq<Node>)
      requires Valid()
      ensures visited == Inorder(shape) && SortedKeys(visited)
      ensures forall n :: n in nodes <==> n in visited
    {
      visited := [];
      var n := MinMax(-1);
      ghost var s := Inorder(shape);
      assert shape != Leaf ==> s != [];
      while n != null
        invariant visited <= s && n == At0(s, |visited|)
        decreases |s| - |visited|
      {
        Present(|visited|);
        visited := visited + [n];
        n := Next(n);
      }
      Everyone();
    }

    lemma Everyone()
      requires Valid()
      ensures forall n :: n in nodes <==> n in Inorder(shape)
    {
      InorderNodes(shape);
      assert Nodes(shape) == nodes;
    }

    lemma Present(i: nat)
      requires Valid() && i < |Inorder(shape)|
      ensures Inorder(shape)[i] in nodes
    {
      InorderIndex(shape);
      assert Nodes(shape) == nodes;
    }

    lemma IndexOf(elm: Node) returns (k: nat)
      requires Valid() && elm in nodes
      ensures k < |Inorder(shape)| && Inorder(shape)[k] == elm
      ensures k + 1 < |Inorder(shape)| ==>
                Inorder(shape)[k + 1] in nodes && elm.key < Inorder(shape)[k + 1].key
    {
      Everyone();
      k :| k < |Inorder(shape)| && Inorder(shape)[k] == elm;
      if k + 1 < |Inorder(shape)| {
        Present(k + 1);
      }
    }

    lemma Place(elm: Node) returns (x: Ctx, t: Tree)
      requires Valid() && elm in nodes
      ensures Holds(x, t) && Plug(x, t) == shape && t.Bin? && t.n == elm
    {
      assert Nodes(shape) == nodes;
      x, t := Focus(Top, shape, elm);
      Gather(x, t);
    }

    // ---------- insertion ----------

    /** RB_INSERT.  An element with an equal key is returned and nothing changes;
        otherwise elm goes to place k in the order. */
    method Insert(elm: Node) returns (r: Node?, ghost k: nat)
      requires Valid()
      modifies this, nodes, elm
      ensures Valid()
      ensures r != null ==>
                r in nodes && r.key == elm.key &&
                nodes == old(nodes) && shape == old(shape) && root == old(root) &&
                Snap(nodes + {elm}) == old(Snap(nodes + {elm}))
      ensures r == null ==>
                nodes == old(nodes) + {elm} && (forall n :: n in old(nodes) ==> n.key != elm.key) &&
                k <= |old(Inorder(shape))| &&
                Inorder(shape) == old(Inorder(shape))[..k] + [elm] + old(Inorder(shape))[k..]
    {
      var parent, comp;
      ghost var x;
      k := 0;
      r, parent, comp, x := Seek(elm.key);
      if r == null {
        ghost var t := Single(elm);
        HangLemma(x, elm, t);
        k := |Before(x)|;
        Attach(elm, parent, comp, x, t);
      }
    }

    method Attach(elm: Node, parent: Node?, comp: int, ghost x: Ctx, ghost t: Tree)
      requires Holds(x, Leaf) && elm !in nodes && t == Single(elm) && RedAt(x, t)
      requires parent == CtxNode(x) && (x.OnL? ==> comp < 0) && (x.OnR? ==> comp > 0)
      modifies this`root, this`nodes, this`shape, nodes, elm
      ensures nodes == old(nodes) + {elm} && Holds(Top, shape)
      ensures Balanced(shape) && IsBlack(shape) && Inorder(shape) == Inorder(Plug(x, t))
    {
      hide Balanced, Inorder, Plug, RedAt, Sep, CtxSep, Linked, LinkedCtx, Nodes, CtxNodes;
      Hang(elm, parent, comp, x, t);
      shape := InsertColor(elm, x, t);
    }

    /** The search for the place of a new key. */
    method Seek(key: int) returns (r: Node?, parent: Node?, comp: int, ghost x: Ctx)
      requires Valid()
      ensures r != null ==> r in nodes && r.key == key
      ensures r == null ==>
                Holds(x, Leaf) && Plug(x, Leaf) == shape && Between(x, key) &&
                parent == CtxNode(x) && (x.OnL? ==> comp < 0) && (x.OnR? ==> comp > 0) &&
                forall n :: n in nodes ==> n.key != key
    {
      parent, comp, r := null, 0, root;
      ghost var t := shape;
      x := Top;
      while r != null
        invariant Cursor(x, t, r) && Between(x, key) && parent == CtxNode(x)
        invariant x.OnL? ==> comp < 0
        invariant x.OnR? ==> comp > 0
        decreases t
      {
        parent := r;
        Down(x, t, r);
        if key < parent.key {
          comp := -1;
          x, t := OnL(x, t.n, t.c, t.r), t.l;
          r := r.left;
        } else if key > parent.key {
          comp := 1;
          x, t := OnR(x, t.n, t.c, t.l), t.r;
          r := r.right;
        } else {
          return;
        }
      }
      Absent(x, key);
    }

    lemma HangLemma(x: Ctx, elm: Node, t: Tree)
      requires Valid() && Plug(x, Leaf) == shape && Between(x, elm.key) && t == Single(elm)
      ensures RedAt(x, t) && SortedKeys(Inorder(Plug(x, t)))
      ensures |Before(x)| <= |Inorder(shape)|
      ensures Inorder(Plug(x, t)) == Inorder(shape)[..|Before(x)|] + [elm] + Inorder(shape)[|Before(x)|..]
    {
      UnplugBalanced(x, Leaf);
      PlugInorder(x, Leaf);
      PlugInorder(x, t);
      assert Inorder(shape) == Before(x) + After(x);
      assert Inorder(t) == [elm];
      BetweenAll(x, Leaf, elm.key);
      SortedInsert(Before(x), elm, After(x));
    }

    /** RB_SET and the store that makes elm a child of parent. */
    method Hang(elm: Node, parent: Node?, comp: int, ghost x: Ctx, ghost t: Tree)
      requires Holds(x, Leaf) && elm !in nodes && parent == CtxNode(x) && t == Single(elm)
      requires (x.OnL? ==> comp < 0) && (x.OnR? ==> comp > 0)
      modifies this`root, this`nodes, nodes, elm
      ensures nodes == old(nodes) + {elm} && Holds(x, t)
    {
      Look(x, Leaf);
      elm.parent, elm.left, elm.right, elm.color := parent, null, null, Red;
      if parent != null {
        if comp < 0 {
          parent.left := elm;
        } else {
          parent.right := elm;
        }
      } else {
        root := elm;
      }
      nodes := nodes + {elm};
      HangAt(x, elm, old(root), old(Snap(nodes)), root, Snap(nodes));
    }

    // ---------- removal ----------

    /** Makes child the child of parent in place of elm: the stores. */
    method Unlink(elm: Node, child: Node?, parent: Node?)
      requires elm in nodes && elm != parent && elm != child
      requires child != null ==> child in nodes && child != parent
      requires parent != null ==> parent in nodes
      modifies this`root, nodes
      ensures Same(nodes - {child, parent}, old(Snap(nodes)), Snap(nodes))
      ensures child != null ==> Snap(nodes)[child] == old(Snap(nodes))[child].(parent := parent)
      ensures Relinked(parent, elm, child, old(root), old(Snap(nodes)), root, Snap(nodes))
      ensures elm.parent == old(elm.parent)
    {
      if child != null {
        child.parent := parent;
      }
      if parent != null {
        if parent.left == elm {
          parent.left := child;
        } else {
          parent.right := child;
        }
      } else {
        root := child;
      }
    }

    /** Cuts out elm, which has at most one child. */
    method Splice(elm: Node, child: Node?, parent: Node?, ghost x: Ctx, ghost t: Tree, ghost ch: Tree)
      requires Holds(x, t) && t.Bin? && t.n == elm && parent == CtxNode(x)
      requires ((t.l.Leaf? && ch == t.r) || (t.r.Leaf? && ch == t.l)) && child == RootOf(ch)
      modifies this`root, this`nodes, nodes
      ensures nodes == old(nodes) - {elm} && Holds(x, ch)
      ensures elm.parent == parent
    {
      SpliceFacts(x, t, ch, root, Snap(nodes));
      Unlink(elm, child, parent);
      SpliceSets(x, t, ch);
      nodes := nodes - {elm};
      SpliceAt(x, t, ch, old(root), old(Snap(nodes)), root, Snap(nodes));
    }

    /** Puts elm in the place, links and colour of was, which has a left child: the
        stores. */
    method TakeOver(was: Node, elm: Node, ghost l: Node, ghost r: Node?, ghost p: Node?)
      requires was in nodes && elm !in nodes && was.left == l && was.right == r && was.parent == p
      requires l in nodes && l != was && l != r && l != p
      requires p != null ==> p in nodes && p != was
      requires r != null ==> r in nodes && r != was && r != p
      modifies this`root, nodes, elm
      ensures var m, m' := old(Snap(nodes)), Snap(nodes - {was} + {elm});
              Same(nodes - {was, l, r, p}, m, m') && m'[elm] == m[was] &&
              m'[l] == m[l].(parent := elm) && (r != null ==> m'[r] == m[r].(parent := elm)) &&
              Relinked(p, was, elm, old(root), m, root, m')
    {
      elm.left, elm.right, elm.parent, elm.color := was.left, was.right, was.parent, was.color;
      if was.parent != null {
        if was.parent.left == was {
          was.parent.left := elm;
        } else {
          was.parent.right := elm;
        }
      } else {
        root := elm;
      }
      was.left.parent := elm;
      if was.right != null {
        was.right.parent := elm;
      }
    }

    method Replace(was: Node, elm: Node, ghost x: Ctx, ghost t: Tree)
      requires Holds(x, t) && t.Bin? && t.n == was && t.l.Bin? && elm !in nodes
      modifies this`root, this`nodes, nodes, elm
      ensures nodes == old(nodes) - {was} + {elm} && Holds(x, t.(n := elm))
    {
      ghost var l, r, p := t.l.n, RootOf(t.r), CtxNode(x);
      ghost var m := Snap(nodes);
      ReplaceFacts(x, t, root, m);
      ReplaceSets(x, t, elm);
      TakeOver(was, elm, l, r, p);
      nodes := nodes - {was} + {elm};
      ReplaceAt(x, t, elm, old(root), m, root, Snap(nodes));
    }

    /** The leftmost node of the subtree at w. */
    method LeftMost(from: Node, ghost w: Ctx, ghost t: Tree) returns (e: Node, ghost z: Ctx, ghost u: Tree)
      requires Holds(w, t) && RootOf(t) == from
      ensures Holds(Append(z, w), u) && u.Bin? && u.n == e && u.l.Leaf? && LeftSpine(z) && Plug(z, u) == t
    {
      e, z, u := from, Top, t;
      Look(w, t);
      while e.left != null
        invariant Holds(Append(z, w), u) && u.Bin? && u.n == e && LeftSpine(z) && Plug(z, u) == t
        invariant e.left == RootOf(u.l)
        decreases u
      {
        Zoom(Append(z, w), u);
        z, u := OnL(z, u.n, u.c, u.r), u.l;
        e := e.left;
        Look(Append(z, w), u);
      }
    }

    /** RB_REMOVE of an element with at most one child, up to the colour repair. */
    method RemoveOuter(elm: Node, child: Node?, ghost x: Ctx, ghost t: Tree, ghost ch: Tree)
      returns (parent: Node?, color: Color)
      requires Holds(x, t) && t.Bin? && t.n == elm && Balanced(Plug(x, t)) && IsBlack(Plug(x, t))
      requires ((t.l.Leaf? && ch == t.r) || (t.r.Leaf? && ch == t.l)) && child == RootOf(ch)
      modifies this`root, this`nodes, nodes
      ensures nodes == old(nodes) - {elm} && Holds(x, ch) && parent == CtxNode(x)
      ensures if color.Black? then ShortAt(x, ch) else Settled(x, ch)
      ensures Without(Inorder(Plug(x, t)), Rank(x, t), Inorder(Plug(x, ch)))
    {
      Look(x, t);
      parent, color := elm.parent, elm.color;
      UnplugBalanced(x, t);
      OuterLemma(x, t, ch);
      OuterOrder(x, t, ch);
      Splice(elm, child, parent, x, t, ch);
    }

    /** RB_REMOVE of an element with two children, up to the colour repair: its
        successor takes its place. */
    method RemoveInner(elm: Node, ghost x: Ctx, ghost t: Tree)
      returns (parent: Node?, child: Node?, color: Color, ghost y: Ctx, ghost ch: Tree)
      requires Holds(x, t) && t.Bin? && t.n == elm && t.l.Bin? && t.r.Bin?
      requires Balanced(Plug(x, t)) && IsBlack(Plug(x, t))
      modifies this`root, this`nodes, nodes
      ensures nodes == old(nodes) - {elm} && Holds(y, ch) && parent == CtxNode(y) && child == RootOf(ch)
      ensures if color.Black? then ShortAt(y, ch) else Settled(y, ch)
      ensures Without(Inorder(Plug(x, t)), Rank(x, t), Inorder(Plug(y, ch)))
    {
      Zoom(x, t);
      Look(x, t);
      var e;
      ghost var z, u;
      e, z, u := LeftMost(elm.right, OnR(x, elm, t.c, t.l), t.r);
      InnerLemma(z, x, t, u);
      InnerOrder(z, x, t, u);
      parent, child, color := Swap(elm, e, x, t, z, u);
      y, ch := Append(z, OnR(x, e, t.c, t.l)), u.r;
    }

    /** Cuts out e, the leftmost node right of elm, and puts it in elm's place. */
    method Swap(elm: Node, e: Node, ghost x: Ctx, ghost t: Tree, ghost z: Ctx, ghost u: Tree)
      returns (parent: Node?, child: Node?, color: Color)
      requires Sep(t) && t.Bin? && t.n == elm && t.l.Bin? && Plug(z, u) == t.r && elm in nodes
      requires Holds(Append(z, OnR(x, elm, t.c, t.l)), u) && u.Bin? && u.n == e && u.l.Leaf?
      modifies this`root, this`nodes, nodes
      ensures nodes == old(nodes) - {elm} && Holds(Append(z, OnR(x, e, t.c, t.l)), u.r)
      ensures parent == CtxNode(Append(z, OnR(x, e, t.c, t.l))) && child == RootOf(u.r) && color == u.c
    {
      hide Append, Plug, Sep, Inorder;
      InnerFacts(z, x, t, u);
      AppendNode(z, OnR(x, elm, t.c, t.l));
      AppendNode(z, OnR(x, e, t.c, t.l));
      parent, child, color := CutSuccessor(e, Append(z, OnR(x, elm, t.c, t.l)), u);
      if e.parent == elm {
        parent := e;
      }
      Substitute(elm, e, x, t, z, u.r);
    }

    method CutSuccessor(e: Node, ghost y: Ctx, ghost u: Tree) returns (parent: Node?, child: Node?, color: Color)
      requires Holds(y, u) && u.Bin? && u.n == e && u.l.Leaf?
      modifies this`root, this`nodes, nodes
      ensures e in old(nodes) && nodes == old(nodes) - {e} && Holds(y, u.r) && e.parent == parent
      ensures parent == CtxNode(y) && child == RootOf(u.r) && color == u.c
    {
      Look(y, u);
      child, parent, color := e.right, e.parent, e.color;
      Splice(e, child, parent, y, u, u.r);
    }

    method Substitute(elm: Node, e: Node, ghost x: Ctx, ghost t: Tree, ghost z: Ctx, ghost ch: Tree)
      requires t.Bin? && t.n == elm && t.l.Bin? && e !in nodes
      requires Holds(Append(z, OnR(x, elm, t.c, t.l)), ch)
      modifies this`root, this`nodes, nodes, e
      ensures nodes == old(nodes) - {elm} + {e} && Holds(Append(z, OnR(x, e, t.c, t.l)), ch)
    {
      Rise(z, x, elm, t.c, t.l, ch);
      Replace(elm, e, x, Bin(t.l, elm, t.c, Plug(z, ch)));
      Rise(z, x, e, t.c, t.l, ch);
    }

    lemma Rise(z: Ctx, x: Ctx, n: Node, c: Color, l: Tree, ch: Tree)
      ensures Holds(Append(z, OnR(x, n, c, l)), ch) <==> Holds(x, Bin(l, n, c, Plug(z, ch)))
    {
      AppendAt(z, OnR(x, n, c, l), ch, root, Snap(nodes));
      Zoom(x, Bin(l, n, c, Plug(z, ch)));
    }

    /** RB_REMOVE up to the colour repair. */
    method Detach(elm: Node, ghost x: Ctx, ghost t: Tree)
      returns (parent: Node?, child: Node?, color: Color, ghost y: Ctx, ghost ch: Tree)
      requires Holds(x, t) && t.Bin? && t.n == elm && Balanced(Plug(x, t)) && IsBlack(Plug(x, t))
      modifies this`root, this`nodes, nodes
      ensures nodes == old(nodes) - {elm} && Holds(y, ch) && parent == CtxNode(y) && child == RootOf(ch)
      ensures if color.Black? then ShortAt(y, ch) else Settled(y, ch)
      ensures Without(Inorder(Plug(x, t)), Rank(x, t), Inorder(Plug(y, ch)))
    {
      Look(x, t);
      if elm.left == null {
        child, y, ch := elm.right, x, t.r;
        parent, color := RemoveOuter(elm, child, x, t, ch);
      } else if elm.right == null {
        child, y, ch := elm.left, x, t.l;
        parent, color := RemoveOuter(elm, child, x, t, ch);
      } else {
        parent, child, color, y, ch := RemoveInner(elm, x, t);
      }
    }

    /** RB_REMOVE.  elm was at place k in the order. */
    method Remove(elm: Node) returns (r: Node, ghost k: nat)
      requires Valid() && elm in nodes
      modifies this, nodes
      ensures Valid() && r == elm && nodes == old(nodes) - {elm}
      ensures k < |old(Inorder(shape))| && old(Inorder(shape))[k] == elm
      ensures Inorder(shape) == old(Inorder(shape))[..k] + old(Inorder(shape))[k + 1..]
    {
      r := elm;
      ghost var x, t;
      x, t, k := Locate(elm);
      Cut(elm, x, t, k);
      SortedWithout(old(Inorder(shape)), k, Inorder(shape));
    }

    lemma Locate(elm: Node) returns (x: Ctx, t: Tree, k: nat)
      requires Valid() && elm in nodes
      ensures Holds(x, t) && Plug(x, t) == shape && t.Bin? && t.n == elm
      ensures k == Rank(x, t) < |Inorder(shape)| && Inorder(shape)[k] == elm
    {
      x, t := Place(elm);
      k := Rank(x, t);
      RankLemma(x, t);
    }

    method Cut(elm: Node, ghost x: Ctx, ghost t: Tree, ghost k: nat)
      requires Holds(x, t) && t.Bin? && k == Rank(x, t) && t.Bin? && t.n == elm && Balanced(Plug(x, t)) && IsBlack(Plug(x, t))
      modifies this`root, this`nodes, this`shape, nodes
      ensures nodes == old(nodes) - {elm} && Holds(Top, shape) && Balanced(shape) && IsBlack(shape)
      ensures Without(Inorder(Plug(x, t)), k, Inorder(shape))
    {
      var parent, child, color;
      ghost var y, ch;
      parent, child, color, y, ch := Detach(elm, x, t);
      Recolor(parent, child, color, y, ch);
    }

    /** The colour repair at the end of RB_REMOVE. */
    method Recolor(parent: Node?, child: Node?, color: Color, ghost y: Ctx, ghost ch: Tree)
      requires Holds(y, ch) && parent == CtxNode(y) && child == RootOf(ch)
      requires if color.Black? then ShortAt(y, ch) else Settled(y, ch)
      modifies this`root, this`shape, nodes
      ensures Holds(Top, shape) && Balanced(shape) && IsBlack(shape)
      ensures Inorder(shape) == Inorder(Plug(y, ch))
    {
      hide Inorder, Plug, Balanced, ShortAt, CtxBalanced;
      if color == Black {
        shape := RemoveColor(parent, child, y, ch);
      } else {
        PlugBalanced(y, ch);
        Gather(y, ch);
        shape := Plug(y, ch);
      }
    }
  }
}
