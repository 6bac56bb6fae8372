/**
 The operations of libhv's red-black tree on node memory, written in place.
 */
module RbTree {
  import opened RbSpec
  import opened RbMemory

  class Root {
    var node: Ptr
    var mem: Mem
    ghost var tree: Tree

    ghost predicate Valid()
      reads this
    {
      Holds(mem, node, tree, Top) && RedBlack(tree)
    }

    ghost function Order(): seq<Ptr>
      reads this
    {
      InOrder(tree)
    }

    constructor ()
      ensures Valid() && Order() == []
    {
      node, mem, tree := NULL, map[], Leaf;
      new;
      assert Balanced(Leaf, 0);
    }

    method RotateLeft(x: Ptr, ghost t: Tree, ghost ctx: Ctx)
      requires Holds(mem, node, t, ctx)
      requires t.Node? && t.p == x && t.r.Node?
      modifies this
      ensures mem.Keys == old(mem.Keys)
      ensures Holds(mem, node, Node(Node(t.l, x, t.c, t.r.l), t.r.p, t.r.c, t.r.r), ctx)
    {
      var y := mem[x].right;
      OpenRight(mem, node, t.l, x, t.c, t.r.l, t.r.p, t.r.c, t.r.r, ctx);
      mem := mem[x := mem[x].(right := mem[y].left)];
      if mem[x].right != NULL {
        mem := mem[mem[y].left := mem[mem[y].left].(parent := x)];
      }
      mem := mem[y := mem[y].(left := x)];
      mem := mem[y := mem[y].(parent := mem[x].parent)];
      if mem[y].parent != NULL {
        var p := mem[x].parent;
        if x == mem[p].left {
          mem := mem[p := mem[p].(left := y)];
        } else {
          mem := mem[p := mem[p].(right := y)];
        }
      } else {
        node := y;
      }
      mem := mem[x := mem[x].(parent := y)];
      RotateLeftHolds(old(mem), mem, old(node), node, t.l, x, t.c, t.r.l, y, t.r.c, t.r.r, ctx);
    }

    method RotateRight(y: Ptr, ghost t: Tree, ghost ctx: Ctx)
      requires Holds(mem, node, t, ctx)
      requires t.Node? && t.p == y && t.l.Node?
      modifies this
      ensures mem.Keys == old(mem.Keys)
      ensures Holds(mem, node, Node(t.l.l, t.l.p, t.l.c, Node(t.l.r, y, t.c, t.r)), ctx)
    {
      var x := mem[y].left;
      OpenLeft(mem, node, t.l.l, t.l.p, t.l.c, t.l.r, y, t.c, t.r, ctx);
      mem := mem[y := mem[y].(left := mem[x].right)];
      if mem[y].left != NULL {
        mem := mem[mem[x].right := mem[mem[x].right].(parent := y)];
      }
      mem := mem[x := mem[x].(right := y)];
      mem := mem[x := mem[x].(parent := mem[y].parent)];
      if mem[x].parent != NULL {
        var p := mem[y].parent;
        if y == mem[p].right {
          mem := mem[p := mem[p].(right := x)];
        } else {
          mem := mem[p := mem[p].(left := x)];
        }
      } else {
        node := x;
      }
      mem := mem[y := mem[y].(parent := x)];
      RotateRightHolds(old(mem), mem, old(node), node, t.l.l, x, t.l.c, t.l.r, y, t.c, t.r, ctx);
    }

    /** `rb_link_node`: hang a red leaf in an empty slot. */
    method LinkNode(x: Ptr, parent: Ptr, left: bool, ghost ctx: Ctx)
      requires Holds(mem, node, Leaf, ctx)
      requires x != NULL && x !in CtxPtrs(ctx)
      requires parent == ParentOf(ctx) && (left <==> ctx.InLeft?)
      modifies this
      ensures Holds(mem, node, Node(Leaf, x, Red, Leaf), ctx)
    {
      mem := mem[x := Cell(parent, NULL, NULL, Red)];
      if parent == NULL {
        node := x;
      } else if left {
        mem := mem[parent := mem[parent].(left := x)];
      } else {
        mem := mem[parent := mem[parent].(right := x)];
      }
      RepCtxRelink(old(mem), mem, old(node), node, ctx, NULL, x);
    }

    /** One round of the insertion loop when the parent is a left child. */
    method InsertStepLeft(x: Ptr, parent: Ptr, gparent: Ptr, ghost t: Tree, ghost ctx: Ctx, ghost h: int)
      returns (x': Ptr, ghost t': Tree, ghost ctx': Ctx, ghost h': int)
      requires Holds(mem, node, t, ctx) && RedFocus(t, ctx, h) && t.p == x
      requires UnderRed(ctx) && ctx.up.InLeft? && ctx.p == parent && ctx.up.p == gparent
      modifies this
      ensures Holds(mem, node, t', ctx') && RedFocus(t', ctx', h') && t'.p == x'
      ensures CtxSize(ctx') < CtxSize(ctx)
      ensures InOrder(Plug(t', ctx')) == InOrder(Plug(t, ctx))
    {
      ghost var p := Outer(t, ctx);
      ghost var g, top := Outer(p, ctx.up), ctx.up.up;
      FocusUp(mem, node, t, ctx);
      FocusUp(mem, node, p, ctx.up);
      var uncle := mem[gparent].right;
      if uncle != NULL {
        RecolorRight(mem, node, g, top, Black);
      }
      if uncle != NULL && mem[uncle].color == Red {
        mem := mem[uncle := mem[uncle].(color := Black)];
        ghost var g1 := g.(r := g.r.(c := Black));
        RecolorLeft(mem, node, g1, top, Black);
        mem := mem[parent := mem[parent].(color := Black)];
        ghost var g2 := g1.(l := p.(c := Black));
        Recolor(mem, node, g2, top, Red);
        mem := mem[gparent := mem[gparent].(color := Red)];
        x', t', ctx', h' := gparent, g2.(c := Red), top, h + 1;
        PushRedCorrect(t, ctx, h);
        assert t' == PushRed(t, ctx);
        return;
      }
      x', t', ctx', h' := RotateOutLeft(x, parent, gparent, t, ctx, h);
    }

    method RotateOutLeft(x: Ptr, parent: Ptr, gparent: Ptr, ghost t: Tree, ghost ctx: Ctx, ghost h: int)
      returns (x': Ptr, ghost t': Tree, ghost ctx': Ctx, ghost h': int)
      requires Holds(mem, node, t, ctx) && RedFocus(t, ctx, h) && t.p == x
      requires UnderRed(ctx) && ctx.up.InLeft? && ctx.p == parent && ctx.up.p == gparent
      requires !IsRed(ctx.up.r)
      modifies this
      ensures Holds(mem, node, t', ctx') && RedFocus(t', ctx', h') && t'.p == x' && CtxSize(ctx') < CtxSize(ctx)
      ensures InOrder(Plug(t', ctx')) == InOrder(Plug(t, ctx))
    {
      ghost var p := Outer(t, ctx);
      ghost var top := ctx.up.up;
      FocusUp(mem, node, t, ctx);
      var inner := x;
      var outer := parent;
      ghost var p1 := p;
      if mem[parent].right == x {
        RotateLeft(parent, p, ctx.up);
        p1 := Node(Node(p.l, parent, Red, t.l), x, Red, t.r);
        outer, inner := x, parent;
      }
      FocusUp(mem, node, p1, ctx.up);
      ghost var g := Outer(p1, ctx.up);
      RecolorLeft(mem, node, g, top, Black);
      mem := mem[outer := mem[outer].(color := Black)];
      ghost var g1 := g.(l := p1.(c := Black));
      Recolor(mem, node, g1, top, Red);
      mem := mem[gparent := mem[gparent].(color := Red)];
      RotateRight(gparent, g1.(c := Red), top);
      ghost var o := Node(p1.l, outer, Black, Node(p1.r, gparent, Red, g.r));
      FocusLeft(mem, node, o.l, outer, Black, o.r, top);
      x', t', h' := inner, p1.l, h;
      ctx' := InLeft(outer, Black, o.r, top);
      RotatedCorrect(t, ctx, h);
      assert o == Rotated(t, ctx);
    }

    /** One round of the insertion loop when the parent is a right child. */
    method InsertStepRight(x: Ptr, parent: Ptr, gparent: Ptr, ghost t: Tree, ghost ctx: Ctx, ghost h: int)
      returns (x': Ptr, ghost t': Tree, ghost ctx': Ctx, ghost h': int)
      requires Holds(mem, node, t, ctx) && RedFocus(t, ctx, h) && t.p == x
      requires UnderRed(ctx) && ctx.up.InRight? && ctx.p == parent && ctx.up.p == gparent
      modifies this
      ensures Holds(mem, node, t', ctx') && RedFocus(t', ctx', h') && t'.p == x'
      ensures CtxSize(ctx') < CtxSize(ctx)
      ensures InOrder(Plug(t', ctx')) == InOrder(Plug(t, ctx))
    {
      ghost var p := Outer(t, ctx);
      ghost var g, top := Outer(p, ctx.up), ctx.up.up;
      FocusUp(mem, node, t, ctx);
      FocusUp(mem, node, p, ctx.up);
      var uncle := mem[gparent].left;
      if uncle != NULL {
        RecolorLeft(mem, node, g, top, Black);
      }
      if uncle != NULL && mem[uncle].color == Red {
        mem := mem[uncle := mem[uncle].(color := Black)];
        ghost var g1 := g.(l := g.l.(c := Black));
        RecolorRight(mem, node, g1, top, Black);
        mem := mem[parent := mem[parent].(color := Black)];
        ghost var g2 := g1.(r := p.(c := Black));
        Recolor(mem, node, g2, top, Red);
        mem := mem[gparent := mem[gparent].(color := Red)];
        x', t', ctx', h' := gparent, g2.(c := Red), top, h + 1;
        PushRedCorrect(t, ctx, h);
        assert t' == PushRed(t, ctx);
        return;
      }
      x', t', ctx', h' := RotateOutRight(x, parent, gparent, t, ctx, h);
    }

    method RotateOutRight(x: Ptr, parent: Ptr, gparent: Ptr, ghost t: Tree, ghost ctx: Ctx, ghost h: int)
      returns (x': Ptr, ghost t': Tree, ghost ctx': Ctx, ghost h': int)
      requires Holds(mem, node, t, ctx) && RedFocus(t, ctx, h) && t.p == x
      requires UnderRed(ctx) && ctx.up.InRight? && ctx.p == parent && ctx.up.p == gparent
      requires !IsRed(ctx.up.l)
      modifies this
      ensures Holds(mem, node, t', ctx') && RedFocus(t', ctx', h') && t'.p == x' && CtxSize(ctx') < CtxSize(ctx)
      ensures InOrder(Plug(t', ctx')) == InOrder(Plug(t, ctx))
    {
      ghost var p := Outer(t, ctx);
      ghost var top := ctx.up.up;
      FocusUp(mem, node, t, ctx);
      var inner := x;
      var outer := parent;
      ghost var p1 := p;
      if mem[parent].left == x {
        RotateRight(parent, p, ctx.up);
        p1 := Node(t.l, x, Red, Node(t.r, parent, Red, p.r));
        outer, inner := x, parent;
      }
      FocusUp(mem, node, p1, ctx.up);
      ghost var g := Outer(p1, ctx.up);
      RecolorRight(mem, node, g, top, Black);
      mem := mem[outer := mem[outer].(color := Black)];
      ghost var g1 := g.(r := p1.(c := Black));
      Recolor(mem, node, g1, top, Red);
      mem := mem[gparent := mem[gparent].(color := Red)];
      RotateLeft(gparent, g1.(c := Red), top);
      ghost var o := Node(Node(g.l, gparent, Red, p1.l), outer, Black, p1.r);
      FocusRight(mem, node, o.l, outer, Black, o.r, top);
      x', t', h' := inner, p1.r, h;
      ctx' := InRight(o.l, outer, Black, top);
      RotatedCorrect(t, ctx, h);
      assert o == Rotated(t, ctx);
    }

    /** One round of the erasure loop when the focus is a left child. */
    method EraseStepLeft(x: Ptr, parent: Ptr, ghost t: Tree, ghost ctx: Ctx, ghost k: int)
      returns (x': Ptr, parent': Ptr, ghost t': Tree, ghost ctx': Ctx, ghost k': int)
      requires Holds(mem, node, t, ctx) && Deficit(t, ctx, k) && !IsRed(t)
      requires x == RootOf(t) && ctx.InLeft? && parent == ctx.p
      modifies this
      ensures Holds(mem, node, t', ctx') && Deficit(t', ctx', k')
      ensures x' == RootOf(t') && parent' == ParentOf(ctx')
      ensures CtxSize(ctx') < CtxSize(ctx) || (CtxSize(ctx') == CtxSize(ctx) && IsRed(t'))
      ensures InOrder(Plug(t', ctx')) == InOrder(Plug(t, ctx))
    {
      DeficitSibling(t, ctx, k);
      FocusUp(mem, node, t, ctx);
      ghost var p := Outer(t, ctx);
      RecolorRight(mem, node, p, ctx.up, Black);
      var other := mem[parent].right;
      ghost var c := ctx;
      if mem[other].color == Red {
        RaisedCorrect(t, ctx, k);
        mem := mem[other := mem[other].(color := Black)];
        ghost var p1 := p.(r := p.r.(c := Black));
        Recolor(mem, node, p1, ctx.up, Red);
        mem := mem[parent := mem[parent].(color := Red)];
        RotateLeft(parent, p1.(c := Red), ctx.up);
        c := Raised(ctx);
        FocusLeft(mem, node, Outer(t, c), c.up.p, Black, c.up.r, ctx.up);
        FocusLeft(mem, node, t, parent, Red, c.r, c.up);
      }
      x', parent', t', ctx', k' := BlackSiblingLeft(x, parent, t, c, k);
    }

    method BlackSiblingLeft(x: Ptr, parent: Ptr, ghost t: Tree, ghost ctx: Ctx, ghost k: int)
      returns (x': Ptr, parent': Ptr, ghost t': Tree, ghost ctx': Ctx, ghost k': int)
      requires Holds(mem, node, t, ctx) && Deficit(t, ctx, k) && !IsRed(t)
      requires x == RootOf(t) && ctx.InLeft? && parent == ctx.p && !IsRed(ctx.r)
      modifies this
      ensures Holds(mem, node, t', ctx') && Deficit(t', ctx', k')
      ensures x' == RootOf(t') && parent' == ParentOf(ctx')
      ensures (ctx' == ctx.up && (IsRed(t') <==> UnderRed(ctx))) || ctx' == Top
      ensures InOrder(Plug(t', ctx')) == InOrder(Plug(t, ctx))
    {
      DeficitSibling(t, ctx, k);
      FocusUp(mem, node, t, ctx);
      ghost var p := Outer(t, ctx);
      ghost var s := ctx.r;
      FocusRight(mem, node, p.l, parent, p.c, p.r, ctx.up);
      ghost var sctx := InRight(t, parent, ctx.c, ctx.up);
      Children(mem, node, s, sctx);
      var other := mem[parent].right;
      var nearBlack := mem[other].left == NULL || mem[mem[other].left].color == Black;
      var farBlack := mem[other].right == NULL || mem[mem[other].right].color == Black;
      if nearBlack && farBlack {
        RecolorRight(mem, node, p, ctx.up, Red);
        mem := mem[other := mem[other].(color := Red)];
        x', parent' := parent, mem[parent].parent;
        PushedCorrect(t, ctx, k);
        t', ctx', k' := p.(r := s.(c := Red)), ctx.up, if UnderRed(ctx) then k else k + 1;
        return;
      }
      ghost var c := ctx;
      if farBlack {
        c := TwistLeft(parent, other, t, ctx, k);
      }
      RepayLeft(parent, t, c, k);
      x', parent', t', ctx' := node, NULL, Plug(Repaid(t, c), c.up), Top;
      ghost var h :| Balanced(t', h);
      k' := h + 1;
    }

    method TwistLeft(parent: Ptr, other: Ptr, ghost t: Tree, ghost ctx: Ctx, ghost k: int)
      returns (ghost c: Ctx)
      requires Holds(mem, node, t, ctx) && Deficit(t, ctx, k) && !IsRed(t)
      requires ctx.InLeft? && parent == ctx.p && ctx.r.Node? && !IsRed(ctx.r) && other == ctx.r.p
      requires IsRed(Near(ctx)) && !IsRed(Far(ctx))
      modifies this
      ensures c == Twisted(ctx) && Holds(mem, node, t, c) && Deficit(t, c, k)
      ensures !IsRed(c.r) && IsRed(Far(c)) && InOrder(Plug(t, c)) == InOrder(Plug(t, ctx))
    {
      FocusUp(mem, node, t, ctx);
      ghost var s := ctx.r;
      FocusRight(mem, node, t, parent, ctx.c, s, ctx.up);
      ghost var sctx := InRight(t, parent, ctx.c, ctx.up);
      Children(mem, node, s, sctx);
      var near := mem[other].left;
      RecolorLeft(mem, node, s, sctx, Black);
      mem := mem[near := mem[near].(color := Black)];
      ghost var s1 := s.(l := s.l.(c := Black));
      Recolor(mem, node, s1, sctx, Red);
      mem := mem[other := mem[other].(color := Red)];
      RotateRight(other, s1.(c := Red), sctx);
      c := Twisted(ctx);
      TwistedCorrect(t, ctx, k);
      FocusUp(mem, node, c.r, sctx);
      FocusLeft(mem, node, t, parent, ctx.c, c.r, ctx.up);
    }

    method RepayLeft(parent: Ptr, ghost t: Tree, ghost ctx: Ctx, ghost k: int)
      requires Holds(mem, node, t, ctx) && Deficit(t, ctx, k) && !IsRed(t)
      requires ctx.InLeft? && parent == ctx.p && ctx.r.Node? && !IsRed(ctx.r) && IsRed(Far(ctx))
      modifies this
      ensures Holds(mem, node, Plug(Repaid(t, ctx), ctx.up), Top) && RedBlack(Plug(Repaid(t, ctx), ctx.up))
      ensures InOrder(Plug(Repaid(t, ctx), ctx.up)) == InOrder(Plug(t, ctx))
    {
      ghost var p, up := Outer(t, ctx), ctx.up;
      FocusUp(mem, node, t, ctx);
      var other := mem[parent].right;
      RecolorRight(mem, node, p, up, mem[parent].color);
      mem := mem[other := mem[other].(color := mem[parent].color)];
      ghost var p1 := p.(r := p.r.(c := ctx.c));
      Recolor(mem, node, p1, up, Black);
      mem := mem[parent := mem[parent].(color := Black)];
      ghost var p2 := p1.(c := Black);
      FocusRight(mem, node, p2.l, parent, Black, p2.r, up);
      ghost var sctx := InRight(t, parent, Black, up);
      Children(mem, node, p2.r, sctx);
      if mem[other].right != NULL {
        RecolorRight(mem, node, p2.r, sctx, Black);
        mem := mem[mem[other].right := mem[mem[other].right].(color := Black)];
      }
      ghost var s := p2.r.(r := p2.r.r.(c := Black));
      FocusUp(mem, node, s, sctx);
      RotateLeft(parent, p2.(r := s), up);
      assert Holds(mem, node, Repaid(t, ctx), up);
      FocusTop(mem, node, Repaid(t, ctx), up);
      RepaidCorrect(t, ctx, k);
    }

    /** One round of the erasure loop when the focus is a right child. */
    method EraseStepRight(x: Ptr, parent: Ptr, ghost t: Tree, ghost ctx: Ctx, ghost k: int)
      returns (x': Ptr, parent': Ptr, ghost t': Tree, ghost ctx': Ctx, ghost k': int)
      requires Holds(mem, node, t, ctx) && Deficit(t, ctx, k) && !IsRed(t)
      requires x == RootOf(t) && ctx.InRight? && parent == ctx.p
      modifies this
      ensures Holds(mem, node, t', ctx') && Deficit(t', ctx', k')
      ensures x' == RootOf(t') && parent' == ParentOf(ctx')
      ensures CtxSize(ctx') < CtxSize(ctx) || (CtxSize(ctx') == CtxSize(ctx) && IsRed(t'))
      ensures InOrder(Plug(t', ctx')) == InOrder(Plug(t, ctx))
    {
      DeficitSibling(t, ctx, k);
      FocusUp(mem, node, t, ctx);
      ghost var p := Outer(t, ctx);
      RecolorLeft(mem, node, p, ctx.up, Black);
      var other := mem[parent].left;
      ghost var c := ctx;
      if mem[other].color == Red {
        RaisedCorrect(t, ctx, k);
        mem := mem[other := mem[other].(color := Black)];
        ghost var p1 := p.(l := p.l.(c := Black));
        Recolor(mem, node, p1, ctx.up, Red);
        mem := mem[parent := mem[parent].(color := Red)];
        RotateRight(parent, p1.(c := Red), ctx.up);
        c := Raised(ctx);
        FocusRight(mem, node, c.up.l, c.up.p, Black, Outer(t, c), ctx.up);
        FocusRight(mem, node, c.l, parent, Red, t, c.up);
      }
      x', parent', t', ctx', k' := BlackSiblingRight(x, parent, t, c, k);
    }

    method BlackSiblingRight(x: Ptr, parent: Ptr, ghost t: Tree, ghost ctx: Ctx, ghost k: int)
      returns (x': Ptr, parent': Ptr, ghost t': Tree, ghost ctx': Ctx, ghost k': int)
      requires Holds(mem, node, t, ctx) && Deficit(t, ctx, k) && !IsRed(t)
      requires x == RootOf(t) && ctx.InRight? && parent == ctx.p && !IsRed(ctx.l)
      modifies this
      ensures Holds(mem, node, t', ctx') && Deficit(t', ctx', k')
      ensures x' == RootOf(t') && parent' == ParentOf(ctx')
      ensures (ctx' == ctx.up && (IsRed(t') <==> UnderRed(ctx))) || ctx' == Top
      ensures InOrder(Plug(t', ctx')) == InOrder(Plug(t, ctx))
    {
      DeficitSibling(t, ctx, k);
      FocusUp(mem, node, t, ctx);
      ghost var p := Outer(t, ctx);
      ghost var s := ctx.l;
      FocusLeft(mem, node, p.l, parent, p.c, p.r, ctx.up);
      ghost var sctx := InLeft(parent, ctx.c, t, ctx.up);
      Children(mem, node, s, sctx);
      var other := mem[parent].left;
      var nearBlack := mem[other].right == NULL || mem[mem[other].right].color == Black;
      var farBlack := mem[other].left == NULL || mem[mem[other].left].color == Black;
      if nearBlack && farBlack {
        RecolorLeft(mem, node, p, ctx.up, Red);
        mem := mem[other := mem[other].(color := Red)];
        x', parent' := parent, mem[parent].parent;
        PushedCorrect(t, ctx, k);
        t', ctx', k' := p.(l := s.(c := Red)), ctx.up, if UnderRed(ctx) then k else k + 1;
        return;
      }
      ghost var c := ctx;
      if farBlack {
        c := TwistRight(parent, other, t, ctx, k);
      }
      RepayRight(parent, t, c, k);
      x', parent', t', ctx' := node, NULL, Plug(Repaid(t, c), c.up), Top;
      ghost var h :| Balanced(t', h);
      k' := h + 1;
    }

    method TwistRight(parent: Ptr, other: Ptr, ghost t: Tree, ghost ctx: Ctx, ghost k: int)
      returns (ghost c: Ctx)
      requires Holds(mem, node, t, ctx) && Deficit(t, ctx, k) && !IsRed(t)
      requires ctx.InRight? && parent == ctx.p && ctx.l.Node? && !IsRed(ctx.l) && other == ctx.l.p
      requires IsRed(Near(ctx)) && !IsRed(Far(ctx))
      modifies this
      ensures c == Twisted(ctx) && Holds(mem, node, t, c) && Deficit(t, c, k)
      ensures !IsRed(c.l) && IsRed(Far(c)) && InOrder(Plug(t, c)) == InOrder(Plug(t, ctx))
    {
      FocusUp(mem, node, t, ctx);
      ghost var s := ctx.l;
      FocusLeft(mem, node, s, parent, ctx.c, t, ctx.up);
      ghost var sctx := InLeft(parent, ctx.c, t, ctx.up);
      Children(mem, node, s, sctx);
      var near := mem[other].right;
      RecolorRight(mem, node, s, sctx, Black);
      mem := mem[near := mem[near].(color := Black)];
      ghost var s1 := s.(r := s.r.(c := Black));
      Recolor(mem, node, s1, sctx, Red);
      mem := mem[other := mem[other].(color := Red)];
      RotateLeft(other, s1.(c := Red), sctx);
      c := Twisted(ctx);
      TwistedCorrect(t, ctx, k);
      FocusUp(mem, node, c.l, sctx);
      FocusRight(mem, node, c.l, parent, ctx.c, t, ctx.up);
    }

    method RepayRight(parent: Ptr, ghost t: Tree, ghost ctx: Ctx, ghost k: int)
      requires Holds(mem, node, t, ctx) && Deficit(t, ctx, k) && !IsRed(t)
      requires ctx.InRight? && parent == ctx.p && ctx.l.Node? && !IsRed(ctx.l) && IsRed(Far(ctx))
      modifies this
      ensures Holds(mem, node, Plug(Repaid(t, ctx), ctx.up), Top) && RedBlack(Plug(Repaid(t, ctx), ctx.up))
      ensures InOrder(Plug(Repaid(t, ctx), ctx.up)) == InOrder(Plug(t, ctx))
    {
      ghost var p, up := Outer(t, ctx), ctx.up;
      FocusUp(mem, node, t, ctx);
      var other := mem[parent].left;
      RecolorLeft(mem, node, p, up, mem[parent].color);
      mem := mem[other := mem[other].(color := mem[parent].color)];
      ghost var p1 := p.(l := p.l.(c := ctx.c));
      Recolor(mem, node, p1, up, Black);
      mem := mem[parent := mem[parent].(color := Black)];
      ghost var p2 := p1.(c := Black);
      FocusLeft(mem, node, p2.l, parent, Black, p2.r, up);
      ghost var sctx := InLeft(parent, Black, t, up);
      Children(mem, node, p2.l, sctx);
      if mem[other].left != NULL {
        RecolorLeft(mem, node, p2.l, sctx, Black);
        mem := mem[mem[other].left := mem[mem[other].left].(color := Black)];
      }
      ghost var s := p2.l.(l := p2.l.l.(c := Black));
      FocusUp(mem, node, s, sctx);
      RotateRight(parent, p2.(l := s), up);
      assert Holds(mem, node, Repaid(t, ctx), up);
      FocusTop(mem, node, Repaid(t, ctx), up);
      RepaidCorrect(t, ctx, k);
    }

    /** `rb_insert_color`: restore the balance after linking a red leaf. */
    method InsertColor(x: Ptr, ghost t0: Tree, ghost ctx0: Ctx, ghost h0: int)
      requires Holds(mem, node, t0, ctx0) && RedFocus(t0, ctx0, h0) && t0.p == x
      modifies this
      ensures Valid() && Order() == InOrder(Plug(t0, ctx0))
    {
      var n := x;
      ghost var t, ctx, h := t0, ctx0, h0;
      Locate(mem, node, t, ctx);
      while mem[n].parent != NULL && mem[mem[n].parent].color == Red
        invariant Holds(mem, node, t, ctx) && RedFocus(t, ctx, h) && t.p == n
        invariant n in mem && mem[n].parent == ParentOf(ctx)
        invariant !ctx.Top? ==> ctx.p != NULL && ctx.p in mem && mem[ctx.p].color == ctx.c
        invariant InOrder(Plug(t, ctx)) == InOrder(Plug(t0, ctx0))
        decreases CtxSize(ctx)
      {
        var parent := mem[n].parent;
        var gparent := mem[parent].parent;
        FocusUp(mem, node, t, ctx);
        WhichSide(mem, node, Outer(t, ctx), ctx.up);
        if parent == mem[gparent].left {
          n, t, ctx, h := InsertStepLeft(n, parent, gparent, t, ctx, h);
        } else {
          n, t, ctx, h := InsertStepRight(n, parent, gparent, t, ctx, h);
        }
        Locate(mem, node, t, ctx);
      }
      FocusTop(mem, node, t, ctx);
      RootBlackened(t, ctx, h);
      tree := Plug(t, ctx);
      Recolor(mem, node, tree, Top, Black);
      mem := mem[node := mem[node].(color := Black)];
      tree := tree.(c := Black);
    }

    /** Linking a node into an empty slot and rebalancing, as users of the tree do. */
    method Insert(x: Ptr, parent: Ptr, left: bool)
      requires Valid()
      requires x != NULL && x !in Order()
      requires if Order() == [] then parent == NULL && !left else
                 parent in Order() && parent in mem && (if left then mem[parent].left else mem[parent].right) == NULL
      modifies this
      ensures Valid()
      ensures Order() == if parent == NULL then [x] else Beside(old(Order()), parent, x, left)
    {
      ghost var slot := PickSlot(mem, node, tree, parent, x, left);
      LinkNode(x, parent, left, slot);
      InOrderPlug(Node(Leaf, x, Red, Leaf), slot);
      InsertColor(x, Node(Leaf, x, Red, Leaf), slot, 0);
    }

    method EraseColor(x0: Ptr, parent0: Ptr, ghost t0: Tree, ghost ctx0: Ctx, ghost k0: int)
      requires Holds(mem, node, t0, ctx0) && Deficit(t0, ctx0, k0)
      requires x0 == RootOf(t0) && parent0 == ParentOf(ctx0)
      modifies this
      ensures Valid() && Order() == InOrder(Plug(t0, ctx0))
    {
      var x, parent := x0, parent0;
      ghost var t, ctx, k := t0, ctx0, k0;
      Locate(mem, node, t, ctx);
      while (x == NULL || mem[x].color == Black) && x != node
        invariant Holds(mem, node, t, ctx) && Deficit(t, ctx, k)
        invariant x == RootOf(t) && parent == ParentOf(ctx)
        invariant (x == NULL <==> t.Leaf?) && (t.Node? ==> x in mem && mem[x].color == t.c)
        invariant x == node <==> ctx.Top?
        invariant InOrder(Plug(t, ctx)) == InOrder(Plug(t0, ctx0))
        decreases CtxSize(ctx), if IsRed(t) then 0 else 1
      {
        DeficitSibling(t, ctx, k);
        WhichSide(mem, node, t, ctx);
        if mem[parent].left == x {
          x, parent, t, ctx, k := EraseStepLeft(x, parent, t, ctx, k);
        } else {
          x, parent, t, ctx, k := EraseStepRight(x, parent, t, ctx, k);
        }
        Locate(mem, node, t, ctx);
      }
      if x != NULL {
        Recolor(mem, node, t, ctx, Black);
        mem := mem[x := mem[x].(color := Black)];
        t := t.(c := Black);
        SameOrder(t, t.(c := Red), ctx);
      }
      tree := Plug(t, ctx);
      FocusTop(mem, node, t, ctx);
      DeficitRepaid(t, ctx, k);
    }

    /** Lift the only child of `n`, if any, into the place of `n`. */
    method Unlink(n: Ptr, child: Ptr, ghost t: Tree, ghost ct: Tree, ghost ctx: Ctx)
      requires Holds(mem, node, t, ctx) && SpareChild(t, ct) && t.p == n && child == RootOf(ct)
      modifies this
      ensures Holds(mem, node, ct, ctx)
      ensures mem.Keys == old(mem.Keys) && mem[n] == old(mem[n])
    {
      Locate(mem, node, t, ctx);
      Children(mem, node, t, ctx);
      if !ctx.Top? {
        WhichSide(mem, node, t, ctx);
      }
      assert ct.Node? ==> ct.p in Ptrs(ct) && ct.p in mem && ct.p != NULL;
      var parent := mem[n].parent;
      if child != NULL {
        mem := mem[child := mem[child].(parent := parent)];
      }
      if parent != NULL {
        if mem[parent].left == n {
          mem := mem[parent := mem[parent].(left := child)];
        } else {
          mem := mem[parent := mem[parent].(right := child)];
        }
      } else {
        node := child;
      }
      SpliceHolds(old(mem), mem, old(node), node, t, ct, ctx);
    }

    /** `rb_replace_node`: the cell of `victim` and every link to it pass to `n`. */
    method ReplaceNode(victim: Ptr, n: Ptr, ghost t: Tree, ghost ctx: Ctx)
      requires Holds(mem, node, t, ctx) && t.Node? && t.p == victim
      requires n != NULL && n !in Ptrs(t) + CtxPtrs(ctx)
      modifies this
      ensures Holds(mem, node, t.(p := n), ctx)
    {
      Locate(mem, node, t, ctx);
      Children(mem, node, t, ctx);
      if !ctx.Top? {
        WhichSide(mem, node, t, ctx);
      }
      var parent := mem[victim].parent;
      if parent != NULL {
        if victim == mem[parent].left {
          mem := mem[parent := mem[parent].(left := n)];
        } else {
          mem := mem[parent := mem[parent].(right := n)];
        }
      } else {
        node := n;
      }
      if mem[victim].left != NULL {
        mem := mem[mem[victim].left := mem[mem[victim].left].(parent := n)];
      }
      if mem[victim].right != NULL {
        mem := mem[mem[victim].right := mem[mem[victim].right].(parent := n)];
      }
      mem := mem[n := mem[victim]];
      SubstituteHolds(old(mem), mem, old(node), node, t, n, ctx);
    }

    /** Follow left links as far as they go. */
    method Leftmost(x: Ptr, ghost t: Tree, ghost ctx: Ctx) returns (n: Ptr, ghost s: Tree, ghost inner: Ctx)
      requires Holds(mem, node, t, ctx) && t.Node? && t.p == x
      ensures Holds(mem, node, s, Append(inner, ctx)) && s.Node? && s.p == n && s.l.Leaf?
      ensures Plug(s, inner) == t && Before(inner) == []
      ensures InOrder(t) == [n] + InOrder(t)[1..]
    {
      n, s, inner := x, t, Top;
      Children(mem, node, s, ctx);
      while mem[n].left != NULL
        invariant Holds(mem, node, s, Append(inner, ctx)) && s.Node? && s.p == n
        invariant n in mem && (mem[n].left == NULL <==> s.l.Leaf?)
        invariant Plug(s, inner) == t && Before(inner) == []
        decreases s
      {
        Children(mem, node, s, Append(inner, ctx));
        FocusLeft(mem, node, s.l, n, s.c, s.r, Append(inner, ctx));
        inner, s, n := InLeft(n, s.c, s.r, inner), s.l, mem[n].left;
        Children(mem, node, s, Append(inner, ctx));
      }
      LeftEdge(s, inner);
    }

    /** Two children: the in-order successor is unlinked and takes over the node's place. */
    method DetachSuccessor(x: Ptr, ghost t: Tree, ghost ctx: Ctx, ghost h: int)
      returns (child: Ptr, parent: Ptr, color: Color, ghost ct: Tree, ghost ctx': Ctx, ghost k: int)
      requires Holds(mem, node, t, ctx) && t.Node? && t.p == x && t.l.Node? && t.r.Node?
      requires Balanced(t, h) && BalancedCtx(ctx, h) && (IsRed(t) ==> !ctx.Top? && !UnderRed(ctx))
      modifies this
      ensures Holds(mem, node, ct, ctx')
      ensures child == RootOf(ct) && parent == ParentOf(ctx')
      ensures if color.Black? then Deficit(ct, ctx', k) else RedBlack(Plug(ct, ctx'))
      ensures InOrder(Plug(ct, ctx')) == Without(InOrder(Plug(t, ctx)), x)
    {
      ghost var outer := InRight(t.l, x, t.c, ctx);
      FocusRight(mem, node, t.l, x, t.c, t.r, ctx);
      Locate(mem, node, t.r, outer);
      var n; ghost var s, inner;
      n, s, inner := Leftmost(mem[x].right, t.r, outer);
      k := BalanceInside(s, inner, outer, if t.c.Red? then h else h - 1);
      Children(mem, node, s, Append(inner, outer));
      child, parent, color, ct := mem[n].right, mem[n].parent, mem[n].color, s.r;
      SuccessorReady(mem, node, t, ctx, s, inner, k);
      Unlink(n, child, s, ct, Append(inner, outer));
      if parent == x {
        parent := n;
      }
      ctx' := Append(inner, InRight(t.l, n, t.c, ctx));
      TakePlace(x, n, t, ctx, ct, inner);
    }

    /** Zoom out to the erased node, substitute the detached successor, zoom in again. */
    method TakePlace(x: Ptr, n: Ptr, ghost t: Tree, ghost ctx: Ctx, ghost ct: Tree, ghost inner: Ctx)
      requires t.Node? && t.p == x && n != NULL
      requires Holds(mem, node, ct, Append(inner, InRight(t.l, x, t.c, ctx)))
      requires n !in Ptrs(ct) + CtxPtrs(Append(inner, InRight(t.l, x, t.c, ctx)))
      modifies this
      ensures Holds(mem, node, ct, Append(inner, InRight(t.l, n, t.c, ctx)))
    {
      ghost var r := Plug(ct, inner);
      ghost var outer := InRight(t.l, x, t.c, ctx);
      FocusOut(mem, node, ct, inner, outer);
      FocusUp(mem, node, r, outer);
      PlugPtrs(ct, Append(inner, outer));
      PlugAppend(ct, inner, outer);
      PlugPtrs(Node(t.l, x, t.c, r), ctx);
      ReplaceNode(x, n, Node(t.l, x, t.c, r), ctx);
      FocusRight(mem, node, t.l, n, t.c, r, ctx);
      FocusIn(mem, node, ct, inner, InRight(t.l, n, t.c, ctx));
    }

    /** `rb_erase`. */
    method Erase(x: Ptr)
      requires Valid() && x in Order()
      modifies this
      ensures Valid() && Order() == Without(old(Order()), x)
    {
      OrderPtrs(tree, x);
      ghost var h0 :| Balanced(tree, h0);
      ghost var t, ctx, h := FocusOn(mem, node, tree, Top, h0, x);
      Children(mem, node, t, ctx);
      var child, parent, color;
      ghost var ct;
      if mem[x].left == NULL || mem[x].right == NULL {
        child := if mem[x].left == NULL then mem[x].right else mem[x].left;
        parent, color := mem[x].parent, mem[x].color;
        ct := if t.l.Leaf? then t.r else t.l;
        SpliceBalanced(t, ct, ctx, h);
        FocusApart(mem, node, t, ctx, x);
        OrderPtrs(ct, x);
        SpliceOrder(t, ct, ctx);
        Unlink(x, child, t, ct, ctx);
      } else {
        child, parent, color, ct, ctx, h := DetachSuccessor(x, t, ctx, h);
      }
      if color == Black {
        EraseColor(child, parent, ct, ctx, h);
      } else {
        FocusTop(mem, node, ct, ctx);
        tree := Plug(ct, ctx);
      }
    }

    /** `rb_first`. */
    method First() returns (n: Ptr)
      requires Valid()
      ensures n == if Order() == [] then NULL else Order()[0]
    {
      n := node;
      if n == NULL {
        return;
      }
      ghost var s, inner;
      n, s, inner := Leftmost(n, tree, Top);
    }

    /** `rb_next`: the node right after `x` in the order, or null. */
    method Next(x: Ptr) returns (n: Ptr)
      requires Valid() && x in Order()
      ensures n == if Following(Order(), x) == [] then NULL else Following(Order(), x)[0]
    {
      OrderPtrs(tree, x);
      ghost var h0 :| Balanced(tree, h0);
      ghost var t, ctx, h := FocusOn(mem, node, tree, Top, h0, x);
      OrderPtrs(t.l, x);
      FocusApart(mem, node, t, ctx, x);
      FollowingFocus(t, ctx);
      Children(mem, node, t, ctx);
      n := x;
      if mem[n].right != NULL {
        FocusRight(mem, node, t.l, x, t.c, t.r, ctx);
        ghost var s, inner;
        n, s, inner := Leftmost(mem[n].right, t.r, InRight(t.l, x, t.c, ctx));
        return;
      }
      n := Climb(n, t, ctx);
    }

    method Climb(x: Ptr, ghost t0: Tree, ghost ctx0: Ctx) returns (n: Ptr)
      requires Holds(mem, node, t0, ctx0) && t0.Node? && t0.p == x
      ensures n == if After(ctx0) == [] then NULL else After(ctx0)[0]
    {
      n := x;
      ghost var t, ctx := t0, ctx0;
      Locate(mem, node, t, ctx);
      WhichSideRight(mem, node, t, ctx);
      while mem[n].parent != NULL && n == mem[mem[n].parent].right
        invariant Holds(mem, node, t, ctx) && t.Node? && t.p == n && After(ctx) == After(ctx0)
        invariant n in mem && mem[n].parent == ParentOf(ctx)
        invariant !ctx.Top? ==> ctx.p != NULL && ctx.p in mem && (mem[ctx.p].right == n <==> ctx.InRight?)
        decreases ctx
      {
        FocusUp(mem, node, t, ctx);
        t, ctx, n := Outer(t, ctx), ctx.up, mem[n].parent;
        Locate(mem, node, t, ctx);
        WhichSideRight(mem, node, t, ctx);
      }
      n := mem[n].parent;
    }
  }
}
