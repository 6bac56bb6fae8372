/**
 Node memory: what it means for linked `struct rb_node` cells to hold a tree, and what
 each pointer surgery of the red-black code does to the tree it holds.
 */
module RbMemory {
  import opened RbSpec

  /** One `struct rb_node`. */
  datatype Cell = Cell(parent: Ptr, left: Ptr, right: Ptr, color: Color)
  type Mem = map<Ptr, Cell>

  function RootOf(t: Tree): Ptr { if t.Leaf? then NULL else t.p }
  function ParentOf(ctx: Ctx): Ptr { if ctx.Top? then NULL else ctx.p }

  function Ptrs(t: Tree): set<Ptr> {
    if t.Leaf? then {} else Ptrs(t.l) + {t.p} + Ptrs(t.r)
  }

  function CtxPtrs(ctx: Ctx): set<Ptr> {
    match ctx
    case Top => {}
    case InLeft(p, c, r, up) => {p} + Ptrs(r) + CtxPtrs(up)
    case InRight(l, p, c, up) => {p} + Ptrs(l) + CtxPtrs(up)
  }

  /** `t` is laid out in `m` with consistent links, without sharing, under `parent`. */
  ghost predicate Rep(m: Mem, t: Tree, parent: Ptr) {
    t.Node? ==>
      && t.p != NULL && t.p in m
      && m[t.p] == Cell(parent, RootOf(t.l), RootOf(t.r), t.c)
      && t.p !in Ptrs(t.l) && t.p !in Ptrs(t.r) && Ptrs(t.l) !! Ptrs(t.r)
      && Rep(m, t.l, t.p) && Rep(m, t.r, t.p)
  }

  ghost predicate RepCtx(m: Mem, root: Ptr, ctx: Ctx, hole: Ptr) {
    match ctx
    case Top => root == hole
    case InLeft(p, c, r, up) =>
      && p != NULL && p in m && m[p] == Cell(ParentOf(up), hole, RootOf(r), c)
      && p !in Ptrs(r) && p !in CtxPtrs(up) && Ptrs(r) !! CtxPtrs(up)
      && Rep(m, r, p) && RepCtx(m, root, up, p)
    case InRight(l, p, c, up) =>
      && p != NULL && p in m && m[p] == Cell(ParentOf(up), RootOf(l), hole, c)
      && p !in Ptrs(l) && p !in CtxPtrs(up) && Ptrs(l) !! CtxPtrs(up)
      && Rep(m, l, p) && RepCtx(m, root, up, p)
  }

  /** Memory `m` with root pointer `root` holds the tree `Plug(t, ctx)`. */
  ghost predicate Holds(m: Mem, root: Ptr, t: Tree, ctx: Ctx) {
    && Rep(m, t, ParentOf(ctx))
    && RepCtx(m, root, ctx, RootOf(t))
    && Ptrs(t) !! CtxPtrs(ctx)
  }

  ghost predicate Same(m: Mem, m': Mem, s: set<Ptr>) {
    forall q :: q in s && q in m ==> q in m' && m'[q] == m[q]
  }

  lemma {:induction false} RepFrame(m: Mem, m': Mem, t: Tree, parent: Ptr)
    requires Rep(m, t, parent) && Same(m, m', Ptrs(t))
    ensures Rep(m', t, parent)
  {
    if t.Node? {
      RepFrame(m, m', t.l, t.p);
      RepFrame(m, m', t.r, t.p);
    }
  }

  lemma {:induction false} RepCtxFrame(m: Mem, m': Mem, root: Ptr, ctx: Ctx, hole: Ptr)
    requires RepCtx(m, root, ctx, hole) && Same(m, m', CtxPtrs(ctx))
    ensures RepCtx(m', root, ctx, hole)
  {
    match ctx
    case Top =>
    case InLeft(p, c, r, up) => RepFrame(m, m', r, p); RepCtxFrame(m, m', root, up, p);
    case InRight(l, p, c, up) => RepFrame(m, m', l, p); RepCtxFrame(m, m', root, up, p);
  }

  lemma RepReparent(m: Mem, m': Mem, t: Tree, parent: Ptr, parent': Ptr)
    requires Rep(m, t, parent)
    requires t.Node? ==> t.p in m' && m'[t.p] == m[t.p].(parent := parent')
    requires Same(m, m', Ptrs(t) - {RootOf(t)})
    ensures Rep(m', t, parent')
  {
  }

  /** The link leading to the focus now holds `hole'`. */
  ghost predicate Relinked(m: Mem, m': Mem, root: Ptr, root': Ptr, ctx: Ctx, hole': Ptr)
    requires !ctx.Top? ==> ctx.p in m
  {
    if ctx.Top? then root' == hole' else
      root' == root && ctx.p in m' &&
      m'[ctx.p] == if ctx.InLeft? then m[ctx.p].(left := hole') else m[ctx.p].(right := hole')
  }

  /** Replacing the focused subtree: only the link that leads to it changes in the context. */
  lemma RepCtxRelink(m: Mem, m': Mem, root: Ptr, root': Ptr, ctx: Ctx, hole: Ptr, hole': Ptr)
    requires RepCtx(m, root, ctx, hole)
    requires Relinked(m, m', root, root', ctx, hole')
    requires Same(m, m', CtxPtrs(ctx) - {ParentOf(ctx)})
    ensures RepCtx(m', root', ctx, hole')
  {
    match ctx
    case Top =>
    case InLeft(p, c, r, up) => RepFrame(m, m', r, p); RepCtxFrame(m, m', root, up, p);
    case InRight(l, p, c, up) => RepFrame(m, m', l, p); RepCtxFrame(m, m', root, up, p);
  }

  /** Two nodes, the three subtrees around them and the context share no node. */
  ghost predicate Apart(a: Tree, x: Ptr, b: Tree, y: Ptr, c: Tree, ctx: Ctx) {
    && x != NULL && y != NULL && x != y
    && x !in Ptrs(a) + Ptrs(b) + Ptrs(c) + CtxPtrs(ctx)
    && y !in Ptrs(a) + Ptrs(b) + Ptrs(c) + CtxPtrs(ctx)
    && Ptrs(a) !! Ptrs(b) !! Ptrs(c) !! CtxPtrs(ctx)
  }

  ghost predicate Pieces(m: Mem, root: Ptr, a: Tree, x: Ptr, b: Tree, bp: Ptr, y: Ptr, c: Tree, ctx: Ctx, hole: Ptr) {
    Rep(m, a, x) && Rep(m, b, bp) && Rep(m, c, y) && RepCtx(m, root, ctx, hole)
  }

  lemma OpenRight(m: Mem, root: Ptr, a: Tree, x: Ptr, cx: Color, b: Tree, y: Ptr, cy: Color, c: Tree, ctx: Ctx)
    requires Holds(m, root, Node(a, x, cx, Node(b, y, cy, c)), ctx)
    ensures Apart(a, x, b, y, c, ctx) && Pieces(m, root, a, x, b, y, y, c, ctx, x)
    ensures x in m && m[x] == Cell(ParentOf(ctx), RootOf(a), y, cx)
    ensures y in m && m[y] == Cell(x, RootOf(b), RootOf(c), cy)
  {
    var t := Node(b, y, cy, c);
    assert Ptrs(t) == Ptrs(b) + {y} + Ptrs(c);
    assert Ptrs(Node(a, x, cx, t)) == Ptrs(a) + {x} + Ptrs(t);
    assert Rep(m, t, x);
  }

  lemma CloseLeft(m: Mem, root: Ptr, a: Tree, x: Ptr, cx: Color, b: Tree, y: Ptr, cy: Color, c: Tree, ctx: Ctx)
    requires Apart(a, x, b, y, c, ctx) && Pieces(m, root, a, x, b, x, y, c, ctx, y)
    requires x in m && m[x] == Cell(y, RootOf(a), RootOf(b), cx)
    requires y in m && m[y] == Cell(ParentOf(ctx), x, RootOf(c), cy)
    ensures Holds(m, root, Node(Node(a, x, cx, b), y, cy, c), ctx)
  {
  }

  predicate Rooted(t: Tree, q: Ptr) { t.Node? && t.p == q }

  /** Only the two nodes, the root of the middle subtree and the parent were written. */
  ghost predicate Local(m: Mem, m': Mem, x: Ptr, y: Ptr, b: Tree, ctx: Ctx) {
    && m'.Keys == m.Keys
    && forall q :: q in m && q != x && q != y && !Rooted(b, q) && !(!ctx.Top? && q == ctx.p) ==> m'[q] == m[q]
  }

  lemma LocalFrame(m: Mem, m': Mem, a: Tree, x: Ptr, b: Tree, y: Ptr, c: Tree, ctx: Ctx)
    requires Apart(a, x, b, y, c, ctx) && Local(m, m', x, y, b, ctx)
    ensures Same(m, m', Ptrs(a)) && Same(m, m', Ptrs(c))
    ensures Same(m, m', Ptrs(b) - {RootOf(b)})
    ensures Same(m, m', CtxPtrs(ctx) - {ParentOf(ctx)})
  {
  }

  lemma RotateLeftHolds(m: Mem, m': Mem, root: Ptr, root': Ptr,
                        a: Tree, x: Ptr, cx: Color, b: Tree, y: Ptr, cy: Color, c: Tree, ctx: Ctx)
    requires Apart(a, x, b, y, c, ctx) && Pieces(m, root, a, x, b, y, y, c, ctx, x)
    requires Local(m, m', x, y, b, ctx)
    requires x in m && m'[x] == Cell(y, RootOf(a), RootOf(b), cx)
    requires y in m && m'[y] == Cell(ParentOf(ctx), x, RootOf(c), cy)
    requires b.Node? ==> m'[b.p] == m[b.p].(parent := x)
    requires Relinked(m, m', root, root', ctx, y)
    ensures Holds(m', root', Node(Node(a, x, cx, b), y, cy, c), ctx)
  {
    LocalFrame(m, m', a, x, b, y, c, ctx);
    RepFrame(m, m', a, x);
    RepReparent(m, m', b, y, x);
    RepFrame(m, m', c, y);
    RepCtxRelink(m, m', root, root', ctx, x, y);
    CloseLeft(m', root', a, x, cx, b, y, cy, c, ctx);
  }

  lemma OpenLeft(m: Mem, root: Ptr, a: Tree, x: Ptr, cx: Color, b: Tree, y: Ptr, cy: Color, c: Tree, ctx: Ctx)
    requires Holds(m, root, Node(Node(a, x, cx, b), y, cy, c), ctx)
    ensures Apart(a, x, b, y, c, ctx) && Pieces(m, root, a, x, b, x, y, c, ctx, y)
    ensures x in m && m[x] == Cell(y, RootOf(a), RootOf(b), cx)
    ensures y in m && m[y] == Cell(ParentOf(ctx), x, RootOf(c), cy)
  {
    var t := Node(a, x, cx, b);
    assert Ptrs(t) == Ptrs(a) + {x} + Ptrs(b);
    assert Ptrs(Node(t, y, cy, c)) == Ptrs(t) + {y} + Ptrs(c);
    assert Rep(m, t, y);
  }

  lemma CloseRight(m: Mem, root: Ptr, a: Tree, x: Ptr, cx: Color, b: Tree, y: Ptr, cy: Color, c: Tree, ctx: Ctx)
    requires Apart(a, x, b, y, c, ctx) && Pieces(m, root, a, x, b, y, y, c, ctx, x)
    requires x in m && m[x] == Cell(ParentOf(ctx), RootOf(a), y, cx)
    requires y in m && m[y] == Cell(x, RootOf(b), RootOf(c), cy)
    ensures Holds(m, root, Node(a, x, cx, Node(b, y, cy, c)), ctx)
  {
  }

  lemma RotateRightHolds(m: Mem, m': Mem, root: Ptr, root': Ptr,
                         a: Tree, x: Ptr, cx: Color, b: Tree, y: Ptr, cy: Color, c: Tree, ctx: Ctx)
    requires Apart(a, x, b, y, c, ctx) && Pieces(m, root, a, x, b, x, y, c, ctx, y)
    requires Local(m, m', x, y, b, ctx)
    requires x in m && m'[x] == Cell(ParentOf(ctx), RootOf(a), y, cx)
    requires y in m && m'[y] == Cell(x, RootOf(b), RootOf(c), cy)
    requires b.Node? ==> m'[b.p] == m[b.p].(parent := y)
    requires Relinked(m, m', root, root', ctx, x)
    ensures Holds(m', root', Node(a, x, cx, Node(b, y, cy, c)), ctx)
  {
    LocalFrame(m, m', a, x, b, y, c, ctx);
    RepFrame(m, m', a, x);
    RepReparent(m, m', b, x, y);
    RepFrame(m, m', c, y);
    RepCtxRelink(m, m', root, root', ctx, y, x);
    CloseRight(m', root', a, x, cx, b, y, cy, c, ctx);
  }

  // ---------- Moving the focus ----------

  lemma FocusUp(m: Mem, root: Ptr, t: Tree, ctx: Ctx)
    requires Holds(m, root, t, ctx) && !ctx.Top?
    ensures Holds(m, root, Outer(t, ctx), ctx.up)
    ensures m[ctx.p].parent == ParentOf(ctx.up) && ctx.p in m
  {
  }

  lemma FocusLeft(m: Mem, root: Ptr, l: Tree, p: Ptr, c: Color, r: Tree, ctx: Ctx)
    requires Holds(m, root, Node(l, p, c, r), ctx)
    ensures Holds(m, root, l, InLeft(p, c, r, ctx))
    ensures p in m && m[p].left == RootOf(l)
  {
  }

  lemma FocusRight(m: Mem, root: Ptr, l: Tree, p: Ptr, c: Color, r: Tree, ctx: Ctx)
    requires Holds(m, root, Node(l, p, c, r), ctx)
    ensures Holds(m, root, r, InRight(l, p, c, ctx))
    ensures p in m && m[p].right == RootOf(r)
  {
  }

  lemma Children(m: Mem, root: Ptr, t: Tree, ctx: Ctx)
    requires Holds(m, root, t, ctx) && t.Node?
    ensures t.p in m && m[t.p] == Cell(ParentOf(ctx), RootOf(t.l), RootOf(t.r), t.c)
    ensures if t.l.Leaf? then m[t.p].left == NULL else m[t.p].left != NULL && t.l.p in m && m[t.l.p].color == t.l.c
    ensures if t.r.Leaf? then m[t.p].right == NULL else m[t.p].right != NULL && t.r.p in m && m[t.r.p].color == t.r.c
  {
    assert Rep(m, t.l, t.p) && Rep(m, t.r, t.p);
  }

  // ---------- Recolouring ----------

  lemma Recolor(m: Mem, root: Ptr, t: Tree, ctx: Ctx, c: Color)
    requires Holds(m, root, t, ctx) && t.Node?
    ensures Holds(m[t.p := m[t.p].(color := c)], root, t.(c := c), ctx)
  {
    var m' := m[t.p := m[t.p].(color := c)];
    RepFrame(m, m', t.l, t.p);
    RepFrame(m, m', t.r, t.p);
    RepCtxFrame(m, m', root, ctx, t.p);
  }

  lemma RecolorLeft(m: Mem, root: Ptr, t: Tree, ctx: Ctx, c: Color)
    requires Holds(m, root, t, ctx) && t.Node? && t.l.Node?
    ensures t.l.p in m && m[t.l.p].color == t.l.c
    ensures Holds(m[t.l.p := m[t.l.p].(color := c)], root, t.(l := t.l.(c := c)), ctx)
  {
    FocusLeft(m, root, t.l, t.p, t.c, t.r, ctx);
    Recolor(m, root, t.l, InLeft(t.p, t.c, t.r, ctx), c);
    FocusUp(m[t.l.p := m[t.l.p].(color := c)], root, t.l.(c := c), InLeft(t.p, t.c, t.r, ctx));
  }

  lemma RecolorRight(m: Mem, root: Ptr, t: Tree, ctx: Ctx, c: Color)
    requires Holds(m, root, t, ctx) && t.Node? && t.r.Node?
    ensures t.r.p in m && m[t.r.p].color == t.r.c
    ensures Holds(m[t.r.p := m[t.r.p].(color := c)], root, t.(r := t.r.(c := c)), ctx)
  {
    FocusRight(m, root, t.l, t.p, t.c, t.r, ctx);
    Recolor(m, root, t.r, InRight(t.l, t.p, t.c, ctx), c);
    FocusUp(m[t.r.p := m[t.r.p].(color := c)], root, t.r.(c := c), InRight(t.l, t.p, t.c, ctx));
  }

  lemma {:induction false} RootInCtx(m: Mem, root: Ptr, ctx: Ctx, hole: Ptr)
    requires RepCtx(m, root, ctx, hole) && !ctx.Top?
    ensures root in CtxPtrs(ctx) && root != NULL
  {
    if !ctx.up.Top? {
      RootInCtx(m, root, ctx.up, ctx.p);
    }
  }

  lemma {:induction false} FocusTop(m: Mem, root: Ptr, t: Tree, ctx: Ctx)
    requires Holds(m, root, t, ctx)
    ensures Holds(m, root, Plug(t, ctx), Top)
    decreases ctx
  {
    if !ctx.Top? {
      FocusUp(m, root, t, ctx);
      FocusTop(m, root, Outer(t, ctx), ctx.up);
    }
  }

  /** Zooming out of, and back into, the inner part of a context. */
  lemma {:induction false} FocusOut(m: Mem, root: Ptr, t: Tree, inner: Ctx, outer: Ctx)
    requires Holds(m, root, t, Append(inner, outer))
    ensures Holds(m, root, Plug(t, inner), outer)
    decreases inner
  {
    if !inner.Top? {
      FocusUp(m, root, t, Append(inner, outer));
      FocusOut(m, root, Outer(t, inner), inner.up, outer);
    }
  }

  lemma {:induction false} FocusIn(m: Mem, root: Ptr, t: Tree, inner: Ctx, outer: Ctx)
    requires Holds(m, root, Plug(t, inner), outer)
    ensures Holds(m, root, t, Append(inner, outer))
    decreases inner
  {
    if !inner.Top? {
      FocusIn(m, root, Outer(t, inner), inner.up, outer);
      if inner.InLeft? {
        FocusLeft(m, root, t, inner.p, inner.c, inner.r, Append(inner.up, outer));
      } else {
        FocusRight(m, root, inner.l, inner.p, inner.c, t, Append(inner.up, outer));
      }
    }
  }

  /** Every node of the tree can be brought into focus, with the balance around it. */
  lemma {:induction false} FocusOn(m: Mem, root: Ptr, t: Tree, ctx: Ctx, h: int, x: Ptr)
      returns (t': Tree, ctx': Ctx, h': int)
    requires Holds(m, root, t, ctx) && x in Ptrs(t)
    requires Balanced(t, h) && BalancedCtx(ctx, h) && (IsRed(t) ==> !ctx.Top? && !UnderRed(ctx))
    ensures Holds(m, root, t', ctx') && t'.Node? && t'.p == x
    ensures Balanced(t', h') && BalancedCtx(ctx', h') && (IsRed(t') ==> !ctx'.Top? && !UnderRed(ctx'))
    ensures Plug(t', ctx') == Plug(t, ctx)
    decreases t
  {
    var k := if t.c.Red? then h else h - 1;
    if t.p == x {
      t', ctx', h' := t, ctx, h;
    } else if x in Ptrs(t.l) {
      FocusLeft(m, root, t.l, t.p, t.c, t.r, ctx);
      t', ctx', h' := FocusOn(m, root, t.l, InLeft(t.p, t.c, t.r, ctx), k, x);
    } else {
      FocusRight(m, root, t.l, t.p, t.c, t.r, ctx);
      t', ctx', h' := FocusOn(m, root, t.r, InRight(t.l, t.p, t.c, ctx), k, x);
    }
  }

  // ---------- Unlinking and replacing a node ----------

  /** A node with at most one child is replaced by that child. */
  lemma SpliceHolds(m: Mem, m': Mem, root: Ptr, root': Ptr, t: Tree, child: Tree, ctx: Ctx)
    requires Holds(m, root, t, ctx) && SpareChild(t, child)
    requires m'.Keys == m.Keys
    requires child.Node? ==> child.p in m && m'[child.p] == m[child.p].(parent := ParentOf(ctx))
    requires !ctx.Top? ==> ctx.p in m
    requires Relinked(m, m', root, root', ctx, RootOf(child))
    requires forall q :: q in m && !Rooted(child, q) && !(!ctx.Top? && q == ctx.p) ==> m'[q] == m[q]
    ensures Holds(m', root', child, ctx)
  {
    assert Rep(m, child, t.p) && Ptrs(child) <= Ptrs(t);
    assert Same(m, m', Ptrs(child) - {RootOf(child)});
    assert Same(m, m', CtxPtrs(ctx) - {ParentOf(ctx)});
    RepReparent(m, m', child, t.p, ParentOf(ctx));
    RepCtxRelink(m, m', root, root', ctx, t.p, RootOf(child));
  }

  /** A node is replaced by an unlinked one that takes over its cell. */
  lemma SubstituteHolds(m: Mem, m': Mem, root: Ptr, root': Ptr, t: Tree, n: Ptr, ctx: Ctx)
    requires Holds(m, root, t, ctx) && t.Node?
    requires n != NULL && n !in Ptrs(t) + CtxPtrs(ctx)
    requires m'.Keys == m.Keys + {n}
    requires t.p in m && m'[n] == m[t.p]
    requires t.l.Node? ==> t.l.p in m && m'[t.l.p] == m[t.l.p].(parent := n)
    requires t.r.Node? ==> t.r.p in m && m'[t.r.p] == m[t.r.p].(parent := n)
    requires !ctx.Top? ==> ctx.p in m
    requires Relinked(m, m', root, root', ctx, n)
    requires forall q :: q in m && q != n && !Rooted(t.l, q) && !Rooted(t.r, q) && !(!ctx.Top? && q == ctx.p) ==> m'[q] == m[q]
    ensures Holds(m', root', t.(p := n), ctx)
  {
    assert Ptrs(t) == Ptrs(t.l) + {t.p} + Ptrs(t.r);
    assert Same(m, m', Ptrs(t.l) - {RootOf(t.l)});
    assert Same(m, m', Ptrs(t.r) - {RootOf(t.r)});
    assert Same(m, m', CtxPtrs(ctx) - {ParentOf(ctx)});
    RepReparent(m, m', t.l, t.p, n);
    RepReparent(m, m', t.r, t.p, n);
    RepCtxRelink(m, m', root, root', ctx, t.p, n);
    assert Ptrs(t.(p := n)) == Ptrs(t.l) + {n} + Ptrs(t.r);
  }

  /** Comparing with the left link tells on which side the focus hangs. */
  lemma WhichSide(m: Mem, root: Ptr, t: Tree, ctx: Ctx)
    requires Holds(m, root, t, ctx) && !ctx.Top? && (t.Node? || Sibling(ctx).Node?)
    ensures ctx.p in m && m[ctx.p].color == ctx.c && m[ctx.p].parent == ParentOf(ctx.up)
    ensures m[ctx.p].left == RootOf(t) <==> ctx.InLeft?
  {
  }

  lemma {:induction false} OrderPtrs(t: Tree, q: Ptr)
    ensures q in InOrder(t) <==> q in Ptrs(t)
  {
    if t.Node? {
      OrderPtrs(t.l, q);
      OrderPtrs(t.r, q);
    }
  }

  lemma {:induction false} OrderCtxPtrs(ctx: Ctx, q: Ptr)
    requires q in Before(ctx) || q in After(ctx)
    ensures q in CtxPtrs(ctx)
  {
    match ctx
    case Top =>
    case InLeft(p, c, r, up) =>
      OrderPtrs(r, q);
      if q in Before(up) || q in After(up) { OrderCtxPtrs(up, q); }
    case InRight(l, p, c, up) =>
      OrderPtrs(l, q);
      if q in Before(up) || q in After(up) { OrderCtxPtrs(up, q); }
  }

  lemma FocusApart(m: Mem, root: Ptr, t: Tree, ctx: Ctx, q: Ptr)
    requires Holds(m, root, t, ctx) && q in Ptrs(t)
    ensures q !in Before(ctx) && q !in After(ctx)
  {
    if q in Before(ctx) || q in After(ctx) {
      OrderCtxPtrs(ctx, q);
    }
  }

  /** Memory determines the tree it holds. */
  lemma {:induction false} RepUnique(m: Mem, t: Tree, t': Tree, parent: Ptr)
    requires Rep(m, t, parent) && Rep(m, t', parent) && RootOf(t) == RootOf(t')
    ensures t == t'
  {
    if t.Node? && t'.Node? {
      RepUnique(m, t.l, t'.l, t.p);
      RepUnique(m, t.r, t'.r, t.p);
    }
  }

  /** What the pointers around the focus look like. */
  lemma Locate(m: Mem, root: Ptr, t: Tree, ctx: Ctx)
    requires Holds(m, root, t, ctx)
    ensures t.Node? ==> t.p != NULL && t.p in m && m[t.p].parent == ParentOf(ctx) && m[t.p].color == t.c
    ensures !ctx.Top? ==> ctx.p != NULL && ctx.p in m && m[ctx.p].color == ctx.c
    ensures RootOf(t) == root <==> ctx.Top?
  {
    if !ctx.Top? {
      RootInCtx(m, root, ctx, RootOf(t));
    }
  }

  lemma {:induction false} PlugPtrs(t: Tree, ctx: Ctx)
    ensures Ptrs(Plug(t, ctx)) == Ptrs(t) + CtxPtrs(ctx)
    decreases ctx
  {
    if !ctx.Top? {
      PlugPtrs(Outer(t, ctx), ctx.up);
    }
  }

  /** An empty slot beside a node, and where a new node there comes in the order. */
  lemma OpenSlot(m: Mem, root: Ptr, t: Tree, ctx: Ctx, h: int, x: Ptr, left: bool) returns (slot: Ctx)
    requires Holds(m, root, t, ctx) && t.Node? && t.p in m
    requires (if left then m[t.p].left else m[t.p].right) == NULL
    requires Balanced(t, h) && BalancedCtx(ctx, h) && (IsRed(t) ==> !ctx.Top? && !UnderRed(ctx))
    ensures Holds(m, root, Leaf, slot) && BalancedCtx(slot, 0)
    ensures ParentOf(slot) == t.p && (slot.InLeft? <==> left)
    ensures Plug(Leaf, slot) == Plug(t, ctx)
    ensures Before(slot) + [x] + After(slot) == Beside(InOrder(Plug(t, ctx)), t.p, x, left)
  {
    FocusLeft(m, root, t.l, t.p, t.c, t.r, ctx);
    FocusRight(m, root, t.l, t.p, t.c, t.r, ctx);
    slot := if left then InLeft(t.p, t.c, t.r, ctx) else InRight(t.l, t.p, t.c, ctx);
    Locate(m, root, t.l, InLeft(t.p, t.c, t.r, ctx));
    Locate(m, root, t.r, InRight(t.l, t.p, t.c, ctx));
    SlotOrder(t, ctx, x, left);
    FocusApart(m, root, t, ctx, t.p);
    OrderPtrs(t.l, t.p);
    BesideMiddle(Before(ctx) + InOrder(t.l), t.p, InOrder(t.r) + After(ctx), x, left);
  }

  lemma SlotOrder(t: Tree, ctx: Ctx, x: Ptr, left: bool)
    requires t.Node? && (if left then t.l else t.r).Leaf?
    ensures InOrder(Plug(t, ctx)) == (Before(ctx) + InOrder(t.l)) + [t.p] + (InOrder(t.r) + After(ctx))
    ensures var a, b := Before(ctx) + InOrder(t.l), InOrder(t.r) + After(ctx);
            if left then Before(ctx) + [x] + ([t.p] + InOrder(t.r) + After(ctx)) == a + [x, t.p] + b
            else (Before(ctx) + InOrder(t.l) + [t.p]) + [x] + After(ctx) == a + [t.p, x] + b
  {
    InOrderPlug(t, ctx);
    SlotRegroup(Before(ctx), InOrder(t.l), [t.p], InOrder(t.r), After(ctx), [x]);
    assert [x, t.p] == [x] + [t.p] && [t.p, x] == [t.p] + [x];
  }

  lemma SlotRegroup(a: seq<Ptr>, l: seq<Ptr>, p: seq<Ptr>, r: seq<Ptr>, b: seq<Ptr>, x: seq<Ptr>)
    ensures a + (l + p + r) + b == (a + l) + p + (r + b)
    ensures a + x + (p + r + b) == (a + []) + (x + p) + (r + b)
    ensures (a + l + p) + x + b == (a + l) + (p + x) + ([] + b)
  {
  }

  /** What the order and the balance will be once successor `s.p` stands in the place of `t.p`. */
  lemma SuccessorReady(m: Mem, root: Ptr, t: Tree, ctx: Ctx, s: Tree, inner: Ctx, k: int)
    requires Holds(m, root, t, ctx) && t.Node? && s.Node? && s.l.Leaf?
    requires t.r == Plug(s, inner) && Before(inner) == []
    requires Balanced(s, k) && BalancedCtx(Append(inner, InRight(t.l, t.p, t.c, ctx)), k)
    ensures var ctx' := Append(inner, InRight(t.l, s.p, t.c, ctx));
            && InOrder(Plug(s.r, ctx')) == Without(InOrder(Plug(t, ctx)), t.p)
            && (if s.c.Black? then Deficit(s.r, ctx', k) else RedBlack(Plug(s.r, ctx')))
    ensures ParentOf(Append(inner, InRight(t.l, s.p, t.c, ctx)))
         == if inner.Top? then s.p else ParentOf(Append(inner, InRight(t.l, t.p, t.c, ctx)))
    ensures !inner.Top? ==> inner.p in Ptrs(t.r)
  {
    FocusApart(m, root, t, ctx, t.p);
    OrderPtrs(t.l, t.p);
    OrderPtrs(t.r, t.p);
    PlugPtrs(s, inner);
    SuccessorOrder(t, ctx, s, inner);
    PlugAppend(s.r, inner, InRight(t.l, s.p, t.c, ctx));
    BalancedRename(inner, t.l, t.p, s.p, t.c, ctx, k);
    SpliceBalanced(s, s.r, Append(inner, InRight(t.l, s.p, t.c, ctx)), k);
  }

  lemma WhichSideRight(m: Mem, root: Ptr, t: Tree, ctx: Ctx)
    requires Holds(m, root, t, ctx) && t.Node?
    ensures !ctx.Top? ==> ctx.p in m && (m[ctx.p].right == t.p <==> ctx.InRight?)
  {
  }

  /** The slot an insertion was asked for, as a context. */
  lemma PickSlot(m: Mem, root: Ptr, t: Tree, parent: Ptr, x: Ptr, left: bool) returns (slot: Ctx)
    requires Holds(m, root, t, Top) && RedBlack(t) && x !in InOrder(t)
    requires if InOrder(t) == [] then parent == NULL && !left else
               parent in InOrder(t) && parent in m && (if left then m[parent].left else m[parent].right) == NULL
    ensures Holds(m, root, Leaf, slot) && BalancedCtx(slot, 0) && x !in CtxPtrs(slot)
    ensures ParentOf(slot) == parent && (slot.InLeft? <==> left)
    ensures Before(slot) + [x] + After(slot) == if parent == NULL then [x] else Beside(InOrder(t), parent, x, left)
  {
    OrderPtrs(t, x);
    OrderPtrs(t, parent);
    if t.Leaf? {
      slot := Top;
    } else {
      var h :| Balanced(t, h);
      var t', ctx, k := FocusOn(m, root, t, Top, h, parent);
      Locate(m, root, t', ctx);
      slot := OpenSlot(m, root, t', ctx, k, x, left);
      PlugPtrs(Leaf, slot);
    }
  }
}
