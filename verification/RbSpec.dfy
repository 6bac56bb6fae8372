/**
 Trees of node addresses, their zippers, in-order sequence and red-black balance.
 Nothing here mentions memory.
 */
module RbSpec {

  /** A node address; 0 is the null pointer. */
  type Ptr = nat
  const NULL: Ptr := 0

  datatype Color = Red | Black

  datatype Tree = Leaf | Node(l: Tree, p: Ptr, c: Color, r: Tree)

  /** The part of a tree around one subtree, innermost step first. */
  datatype Ctx =
    | Top
    | InLeft(p: Ptr, c: Color, r: Tree, up: Ctx)
    | InRight(l: Tree, p: Ptr, c: Color, up: Ctx)

  function Plug(t: Tree, ctx: Ctx): Tree
    decreases ctx
  {
    match ctx
    case Top => t
    case InLeft(p, c, r, up) => Plug(Node(t, p, c, r), up)
    case InRight(l, p, c, up) => Plug(Node(l, p, c, t), up)
  }

  function InOrder(t: Tree): seq<Ptr> {
    if t.Leaf? then [] else InOrder(t.l) + [t.p] + InOrder(t.r)
  }

  function Before(ctx: Ctx): seq<Ptr> {
    match ctx
    case Top => []
    case InLeft(p, c, r, up) => Before(up)
    case InRight(l, p, c, up) => Before(up) + InOrder(l) + [p]
  }

  function After(ctx: Ctx): seq<Ptr> {
    match ctx
    case Top => []
    case InLeft(p, c, r, up) => [p] + InOrder(r) + After(up)
    case InRight(l, p, c, up) => After(up)
  }

  lemma Regroup(a: seq<Ptr>, b: seq<Ptr>, c: seq<Ptr>, d: seq<Ptr>, e: seq<Ptr>)
    ensures a + (b + c + d) + e == a + b + (c + d + e)
    ensures a + (b + c + d) + e == (a + b + c) + d + e
    ensures (a + b + c) + d + e == a + b + (c + d + e)
  {
  }

  lemma {:induction false} InOrderPlug(t: Tree, ctx: Ctx)
    ensures InOrder(Plug(t, ctx)) == Before(ctx) + InOrder(t) + After(ctx)
    decreases ctx
  {
    match ctx
    case Top =>
    case InLeft(p, c, r, up) =>
      InOrderPlug(Node(t, p, c, r), up);
      Regroup(Before(up), InOrder(t), [p], InOrder(r), After(up));
    case InRight(l, p, c, up) =>
      InOrderPlug(Node(l, p, c, t), up);
      Regroup(Before(up), InOrder(l), [p], InOrder(t), After(up));
  }

  // ---------- Red-black balance ----------

  predicate IsRed(t: Tree) { t.Node? && t.c.Red? }

  /** No red node has a red child and every path holds `h` black nodes. */
  ghost predicate Balanced(t: Tree, h: int) {
    match t
    case Leaf => h == 0
    case Node(l, _, Red, r) => !IsRed(l) && !IsRed(r) && Balanced(l, h) && Balanced(r, h)
    case Node(l, _, Black, r) => Balanced(l, h - 1) && Balanced(r, h - 1)
  }

  ghost predicate RedBlack(t: Tree) {
    !IsRed(t) && exists h :: Balanced(t, h)
  }

  predicate UnderRed(ctx: Ctx) { !ctx.Top? && ctx.c.Red? }

  /** The context is balanced around a subtree of black height `h`. */
  ghost predicate BalancedCtx(ctx: Ctx, h: int) {
    match ctx
    case Top => true
    case InLeft(_, Red, r, up) => !IsRed(r) && Balanced(r, h) && !up.Top? && !UnderRed(up) && BalancedCtx(up, h)
    case InLeft(_, Black, r, up) => Balanced(r, h) && BalancedCtx(up, h + 1)
    case InRight(l, _, Red, up) => !IsRed(l) && Balanced(l, h) && !up.Top? && !UnderRed(up) && BalancedCtx(up, h)
    case InRight(l, _, Black, up) => Balanced(l, h) && BalancedCtx(up, h + 1)
  }

  lemma {:induction false} PlugBalanced(t: Tree, ctx: Ctx, h: int)
    requires Balanced(t, h) && BalancedCtx(ctx, h)
    requires IsRed(t) ==> !ctx.Top? && !UnderRed(ctx)
    ensures RedBlack(Plug(t, ctx))
    decreases ctx
  {
    match ctx
    case Top =>
    case InLeft(p, c, r, up) => PlugBalanced(Node(t, p, c, r), up, if c.Red? then h else h + 1);
    case InRight(l, p, c, up) => PlugBalanced(Node(l, p, c, t), up, if c.Red? then h else h + 1);
  }

  lemma {:induction false} HeightNatural(t: Tree, h: int)
    requires Balanced(t, h)
    ensures h >= 0
  {
    if t.Node? {
      HeightNatural(t.l, if t.c.Red? then h else h - 1);
    }
  }

  /** Joining two contexts: the hole of `outer` is filled with `inner`. */
  function Append(inner: Ctx, outer: Ctx): Ctx {
    match inner
    case Top => outer
    case InLeft(p, c, r, up) => InLeft(p, c, r, Append(up, outer))
    case InRight(l, p, c, up) => InRight(l, p, c, Append(up, outer))
  }

  lemma {:induction false} PlugAppend(t: Tree, inner: Ctx, outer: Ctx)
    ensures Plug(t, Append(inner, outer)) == Plug(Plug(t, inner), outer)
    decreases inner
  {
    match inner
    case Top =>
    case InLeft(p, c, r, up) => PlugAppend(Node(t, p, c, r), up, outer);
    case InRight(l, p, c, up) => PlugAppend(Node(l, p, c, t), up, outer);
  }

  /** Balance does not look at addresses. */
  lemma {:induction false} BalancedRename(inner: Ctx, l: Tree, x: Ptr, y: Ptr, c: Color, up: Ctx, h: int)
    requires BalancedCtx(Append(inner, InRight(l, x, c, up)), h)
    ensures BalancedCtx(Append(inner, InRight(l, y, c, up)), h)
  {
    if !inner.Top? {
      BalancedRename(inner.up, l, x, y, c, up, if inner.c.Red? then h else h + 1);
    }
  }

  function Without(s: seq<Ptr>, x: Ptr): seq<Ptr> {
    if s == [] then [] else if s[0] == x then Without(s[1..], x) else [s[0]] + Without(s[1..], x)
  }

  lemma {:induction false} WithoutAbsent(s: seq<Ptr>, x: Ptr)
    requires x !in s
    ensures Without(s, x) == s
  {
    if s != [] {
      WithoutAbsent(s[1..], x);
    }
  }

  lemma {:induction false} WithoutMiddle(a: seq<Ptr>, x: Ptr, b: seq<Ptr>)
    requires x !in a && x !in b
    ensures Without(a + [x] + b, x) == a + b
  {
    if a == [] {
      assert a + [x] + b == [x] + b;
      assert ([x] + b)[1..] == b;
      WithoutAbsent(b, x);
    } else {
      assert (a + [x] + b)[1..] == a[1..] + [x] + b;
      WithoutMiddle(a[1..], x, b);
    }
  }

  function CtxSize(ctx: Ctx): nat {
    if ctx.Top? then 0 else 1 + CtxSize(ctx.up)
  }

  /** The insertion loop's state: balanced, except that a red focus may hang under a red parent. */
  ghost predicate RedFocus(t: Tree, ctx: Ctx, h: int) {
    IsRed(t) && Balanced(t, h) && BalancedCtx(ctx, h)
  }

  lemma SameOrder(t: Tree, t': Tree, ctx: Ctx)
    requires InOrder(t) == InOrder(t')
    ensures InOrder(Plug(t, ctx)) == InOrder(Plug(t', ctx))
  {
    InOrderPlug(t, ctx);
    InOrderPlug(t', ctx);
  }

  // ---------- Insertion fix-up, as tree surgery ----------

  function Outer(t: Tree, ctx: Ctx): (r: Tree)
    requires !ctx.Top?
    ensures r.Node? && r.p == ctx.p && r.c == ctx.c
  {
    if ctx.InLeft? then Node(t, ctx.p, ctx.c, ctx.r) else Node(ctx.l, ctx.p, ctx.c, t)
  }

  function Sibling(ctx: Ctx): Tree
    requires !ctx.Top?
  {
    if ctx.InLeft? then ctx.r else ctx.l
  }

  function Grand(t: Tree, ctx: Ctx): Tree
    requires !ctx.Top? && !ctx.up.Top?
  {
    Outer(Outer(t, ctx), ctx.up)
  }

  lemma GrandPlug(t: Tree, ctx: Ctx, g: Tree)
    requires !ctx.Top? && !ctx.up.Top? && InOrder(g) == InOrder(Grand(t, ctx))
    ensures InOrder(Plug(g, ctx.up.up)) == InOrder(Plug(t, ctx))
    ensures CtxSize(ctx.up.up) < CtxSize(ctx)
  {
    SameOrder(g, Grand(t, ctx), ctx.up.up);
  }

  /** Red uncle: the grandparent hands its blackness to both children. */
  function PushRed(t: Tree, ctx: Ctx): Tree
    requires !ctx.Top? && !ctx.up.Top? && IsRed(Sibling(ctx.up))
  {
    var p := Outer(t, ctx);
    var s := Sibling(ctx.up);
    if ctx.up.InLeft? then Node(p.(c := Black), ctx.up.p, Red, s.(c := Black))
    else Node(s.(c := Black), ctx.up.p, Red, p.(c := Black))
  }

  lemma PushRedCorrect(t: Tree, ctx: Ctx, h: int)
    requires RedFocus(t, ctx, h) && UnderRed(ctx) && IsRed(Sibling(ctx.up))
    ensures RedFocus(PushRed(t, ctx), ctx.up.up, h + 1)
    ensures InOrder(Plug(PushRed(t, ctx), ctx.up.up)) == InOrder(Plug(t, ctx))
    ensures CtxSize(ctx.up.up) < CtxSize(ctx)
  {
    assert BalancedCtx(ctx.up, h);
    GrandPlug(t, ctx, PushRed(t, ctx));
  }

  /** Black uncle: the middle one of focus, parent and grandparent becomes their black root. */
  function Rotated(t: Tree, ctx: Ctx): Tree
    requires t.Node? && !ctx.Top? && !ctx.up.Top?
  {
    var s, gp := Sibling(ctx.up), ctx.up.p;
    if ctx.up.InLeft? then
      if ctx.InLeft? then Node(t, ctx.p, Black, Node(ctx.r, gp, Red, s))
      else Node(Node(ctx.l, ctx.p, Red, t.l), t.p, Black, Node(t.r, gp, Red, s))
    else
      if ctx.InRight? then Node(Node(s, gp, Red, ctx.l), ctx.p, Black, t)
      else Node(Node(s, gp, Red, t.l), t.p, Black, Node(t.r, ctx.p, Red, ctx.r))
  }

  lemma RotationOrder(a: Tree, x: Ptr, cx: Color, b: Tree, y: Ptr, cy: Color, c: Tree, dx: Color, dy: Color)
    ensures InOrder(Node(Node(a, x, cx, b), y, cy, c)) == InOrder(Node(a, x, dx, Node(b, y, dy, c)))
  {
  }

  lemma RotatedOrder(t: Tree, ctx: Ctx)
    requires t.Node? && !ctx.Top? && !ctx.up.Top?
    ensures InOrder(Rotated(t, ctx)) == InOrder(Grand(t, ctx))
  {
    var s, x, p, gp := Sibling(ctx.up), t.p, ctx.p, ctx.up.p;
    if ctx.up.InLeft? {
      if ctx.InLeft? {
        RotationOrder(t, p, ctx.c, ctx.r, gp, ctx.up.c, s, Black, Red);
      } else {
        RotationOrder(ctx.l, p, Red, t.l, x, Black, t.r, ctx.c, t.c);
        RotationOrder(Node(ctx.l, p, Red, t.l), x, Black, t.r, gp, ctx.up.c, s, Black, Red);
      }
    } else {
      if ctx.InRight? {
        RotationOrder(s, gp, Red, ctx.l, p, Black, t, ctx.up.c, ctx.c);
      } else {
        RotationOrder(t.l, x, t.c, t.r, p, ctx.c, ctx.r, Black, Red);
        RotationOrder(s, gp, Red, t.l, x, Black, Node(t.r, p, Red, ctx.r), ctx.up.c, Black);
      }
    }
  }

  lemma RotatedCorrect(t: Tree, ctx: Ctx, h: int)
    requires RedFocus(t, ctx, h) && UnderRed(ctx) && !IsRed(Sibling(ctx.up))
    ensures var o, top := Rotated(t, ctx), ctx.up.up;
            && InOrder(Plug(o, top)) == InOrder(Plug(t, ctx))
            && (if ctx.up.InLeft? then RedFocus(o.l, InLeft(o.p, Black, o.r, top), h)
                else RedFocus(o.r, InRight(o.l, o.p, Black, top), h))
  {
    assert BalancedCtx(ctx.up, h);
    RotatedOrder(t, ctx);
    GrandPlug(t, ctx, Rotated(t, ctx));
  }

  // ---------- Erasure fix-up, as tree surgery ----------

  /** The erasure loop's state: the focus is one black node short, unless painting it black repays that. */
  ghost predicate Deficit(t: Tree, ctx: Ctx, k: int) {
    && BalancedCtx(ctx, k)
    && (if IsRed(t) then Balanced(t.(c := Black), k) else Balanced(t, k - 1))
  }

  lemma DeficitSibling(t: Tree, ctx: Ctx, k: int)
    requires Deficit(t, ctx, k) && !IsRed(t) && !ctx.Top?
    ensures k >= 1 && Sibling(ctx).Node? && Balanced(Sibling(ctx), k)
    ensures UnderRed(ctx) ==> !IsRed(Sibling(ctx))
  {
    HeightNatural(t, k - 1);
  }

  /** Red sibling: rotate it above the parent, so that the focus gets a black sibling. */
  function Raised(ctx: Ctx): Ctx
    requires !ctx.Top? && Sibling(ctx).Node?
  {
    var s := Sibling(ctx);
    if ctx.InLeft? then InLeft(ctx.p, Red, s.l, InLeft(s.p, Black, s.r, ctx.up))
    else InRight(s.r, ctx.p, Red, InRight(s.l, s.p, Black, ctx.up))
  }

  lemma RaisedCorrect(t: Tree, ctx: Ctx, k: int)
    requires Deficit(t, ctx, k) && !IsRed(t) && !ctx.Top? && IsRed(Sibling(ctx))
    ensures Deficit(t, Raised(ctx), k) && !IsRed(Sibling(Raised(ctx)))
    ensures InOrder(Plug(t, Raised(ctx))) == InOrder(Plug(t, ctx))
    ensures CtxSize(Raised(ctx)) == CtxSize(ctx) + 1 && UnderRed(Raised(ctx))
  {
    DeficitSibling(t, ctx, k);
    var s := Sibling(ctx);
    if ctx.InLeft? {
      RotationOrder(t, ctx.p, Red, s.l, s.p, Black, s.r, ctx.c, s.c);
    } else {
      RotationOrder(s.l, s.p, s.c, s.r, ctx.p, ctx.c, t, Black, Red);
    }
    SameOrder(Outer(t, ctx), Outer(Outer(t, Raised(ctx)), Raised(ctx).up), ctx.up);
  }

  function Near(ctx: Ctx): Tree
    requires !ctx.Top? && Sibling(ctx).Node?
  {
    if ctx.InLeft? then ctx.r.l else ctx.l.r
  }

  function Far(ctx: Ctx): Tree
    requires !ctx.Top? && Sibling(ctx).Node?
  {
    if ctx.InLeft? then ctx.r.r else ctx.l.l
  }

  function WithSibling(ctx: Ctx, s: Tree): (r: Ctx)
    requires !ctx.Top?
    ensures !r.Top? && r.up == ctx.up && r.InLeft? == ctx.InLeft?
  {
    if ctx.InLeft? then ctx.(r := s) else ctx.(l := s)
  }

  /** Black sibling with black children: painting it red moves the deficit to the parent. */
  lemma PushedCorrect(t: Tree, ctx: Ctx, k: int)
    requires Deficit(t, ctx, k) && !IsRed(t) && !ctx.Top? && Sibling(ctx).Node? && !IsRed(Sibling(ctx))
    requires !IsRed(Near(ctx)) && !IsRed(Far(ctx))
    ensures var t' := Outer(t, WithSibling(ctx, Sibling(ctx).(c := Red)));
            && Deficit(t', ctx.up, if UnderRed(ctx) then k else k + 1)
            && InOrder(Plug(t', ctx.up)) == InOrder(Plug(t, ctx))
            && (IsRed(t') <==> UnderRed(ctx))
  {
    DeficitSibling(t, ctx, k);
    var s := Sibling(ctx);
    assert InOrder(s.(c := Red)) == InOrder(s);
    SameOrder(Outer(t, ctx), Outer(t, WithSibling(ctx, s.(c := Red))), ctx.up);
  }

  /** Only the near nephew is red: rotate it above the sibling. */
  function Twisted(ctx: Ctx): Ctx
    requires !ctx.Top? && Sibling(ctx).Node? && Near(ctx).Node?
  {
    var s := Sibling(ctx);
    var n := Near(ctx);
    if ctx.InLeft? then ctx.(r := Node(n.l, n.p, Black, Node(n.r, s.p, Red, s.r)))
    else ctx.(l := Node(Node(s.l, s.p, Red, n.l), n.p, Black, n.r))
  }

  lemma TwistedCorrect(t: Tree, ctx: Ctx, k: int)
    requires Deficit(t, ctx, k) && !IsRed(t) && !ctx.Top? && Sibling(ctx).Node? && !IsRed(Sibling(ctx))
    requires IsRed(Near(ctx)) && !IsRed(Far(ctx))
    ensures var ctx' := Twisted(ctx);
            && Deficit(t, ctx', k) && !IsRed(Sibling(ctx')) && IsRed(Far(ctx'))
            && InOrder(Plug(t, ctx')) == InOrder(Plug(t, ctx))
  {
    DeficitSibling(t, ctx, k);
    var s := Sibling(ctx);
    var n := Near(ctx);
    if ctx.InLeft? {
      RotationOrder(n.l, n.p, n.c, n.r, s.p, s.c, s.r, Black, Red);
    } else {
      RotationOrder(s.l, s.p, Red, n.l, n.p, Black, n.r, s.c, n.c);
    }
    SameOrder(Outer(t, ctx), Outer(t, Twisted(ctx)), ctx.up);
  }

  /** Red far nephew: one rotation at the parent repays the deficit. */
  function Repaid(t: Tree, ctx: Ctx): Tree
    requires !ctx.Top? && Sibling(ctx).Node? && Far(ctx).Node?
  {
    var s := Sibling(ctx);
    if ctx.InLeft? then Node(Node(t, ctx.p, Black, s.l), s.p, ctx.c, s.r.(c := Black))
    else Node(s.l.(c := Black), s.p, ctx.c, Node(s.r, ctx.p, Black, t))
  }

  lemma RepaidCorrect(t: Tree, ctx: Ctx, k: int)
    requires Deficit(t, ctx, k) && !IsRed(t) && !ctx.Top? && Sibling(ctx).Node? && !IsRed(Sibling(ctx))
    requires IsRed(Far(ctx))
    ensures RedBlack(Plug(Repaid(t, ctx), ctx.up))
    ensures InOrder(Plug(Repaid(t, ctx), ctx.up)) == InOrder(Plug(t, ctx))
  {
    DeficitSibling(t, ctx, k);
    var s := Sibling(ctx);
    var f := Far(ctx);
    assert InOrder(f.(c := Black)) == InOrder(f);
    if ctx.InLeft? {
      RotationOrder(t, ctx.p, Black, s.l, s.p, ctx.c, f.(c := Black), ctx.c, s.c);
    } else {
      RotationOrder(f.(c := Black), s.p, s.c, s.r, ctx.p, ctx.c, t, ctx.c, Black);
    }
    SameOrder(Outer(t, ctx), Repaid(t, ctx), ctx.up);
    PlugBalanced(Repaid(t, ctx), ctx.up, if UnderRed(ctx) then k else k + 1);
  }

  /** `x` placed next to the first occurrence of `at`. */
  function Beside(s: seq<Ptr>, at: Ptr, x: Ptr, before: bool): seq<Ptr> {
    if s == [] then []
    else if s[0] == at then (if before then [x, at] else [at, x]) + s[1..]
    else [s[0]] + Beside(s[1..], at, x, before)
  }

  lemma {:induction false} BesideMiddle(a: seq<Ptr>, at: Ptr, b: seq<Ptr>, x: Ptr, before: bool)
    requires at !in a
    ensures Beside(a + [at] + b, at, x, before) == a + (if before then [x, at] else [at, x]) + b
  {
    if a == [] {
      assert a + [at] + b == [at] + b;
      assert ([at] + b)[1..] == b;
    } else {
      assert (a + [at] + b)[1..] == a[1..] + [at] + b;
      BesideMiddle(a[1..], at, b, x, before);
      var mid := if before then [x, at] else [at, x];
      assert [a[0]] + (a[1..] + mid + b) == a + mid + b;
    }
  }

  lemma RootBlackened(t: Tree, ctx: Ctx, h: int)
    requires RedFocus(t, ctx, h) && !UnderRed(ctx)
    ensures Plug(t, ctx).Node? && RedBlack(Plug(t, ctx).(c := Black))
  {
    if ctx.Top? {
      assert Balanced(t.(c := Black), h + 1);
    } else {
      PlugBalanced(t, ctx, h);
      PlugNode(t, ctx);
    }
  }

  lemma {:induction false} PlugNode(t: Tree, ctx: Ctx)
    requires t.Node?
    ensures Plug(t, ctx).Node?
    decreases ctx
  {
    if !ctx.Top? {
      PlugNode(Outer(t, ctx), ctx.up);
    }
  }

  lemma DeficitRepaid(t: Tree, ctx: Ctx, k: int)
    requires BalancedCtx(ctx, k) && !IsRed(t)
    requires Balanced(t, k) || (ctx.Top? && Balanced(t, k - 1))
    ensures RedBlack(Plug(t, ctx))
  {
    if Balanced(t, k) {
      PlugBalanced(t, ctx, k);
    }
  }

  // ---------- Erasure, before the fix-up ----------

  /** The node has at most one child, `child`. */
  ghost predicate SpareChild(t: Tree, child: Tree) {
    t.Node? && ((t.l.Leaf? && child == t.r) || (t.r.Leaf? && child == t.l))
  }

  lemma SpliceBalanced(t: Tree, child: Tree, ctx: Ctx, h: int)
    requires SpareChild(t, child) && Balanced(t, h) && BalancedCtx(ctx, h)
    ensures if t.c.Black? then Deficit(child, ctx, h) else RedBlack(Plug(child, ctx))
  {
    HeightNatural(t, h);
    if t.c.Red? {
      PlugBalanced(child, ctx, h);
    }
  }

  lemma SpliceRegroup(a: seq<Ptr>, x: seq<Ptr>, c: seq<Ptr>, b: seq<Ptr>)
    ensures a + ([] + x + c) + b == a + x + (c + b)
    ensures a + (c + x + []) + b == (a + c) + x + b
    ensures a + (c + b) == a + c + b
  {
  }

  lemma SpliceSeq(a: seq<Ptr>, x: Ptr, c: seq<Ptr>, b: seq<Ptr>)
    requires x !in a && x !in b && x !in c
    ensures Without(a + ([] + [x] + c) + b, x) == a + c + b
    ensures Without(a + (c + [x] + []) + b, x) == a + c + b
  {
    SpliceRegroup(a, [x], c, b);
    WithoutMiddle(a, x, c + b);
    WithoutMiddle(a + c, x, b);
  }

  /** Splicing out a node with a spare child removes just that node from the order. */
  lemma SpliceOrder(t: Tree, child: Tree, ctx: Ctx)
    requires SpareChild(t, child)
    requires t.p !in Before(ctx) && t.p !in InOrder(child) && t.p !in After(ctx)
    ensures InOrder(Plug(child, ctx)) == Without(InOrder(Plug(t, ctx)), t.p)
  {
    InOrderPlug(t, ctx);
    InOrderPlug(child, ctx);
    SpliceSeq(Before(ctx), t.p, InOrder(child), After(ctx));
  }

  lemma LeftEdge(s: Tree, inner: Ctx)
    requires s.Node? && s.l.Leaf? && Before(inner) == []
    ensures InOrder(Plug(s, inner)) == [s.p] + InOrder(Plug(s.r, inner))
  {
    InOrderPlug(s, inner);
    InOrderPlug(s.r, inner);
    assert [] + ([] + [s.p] + InOrder(s.r)) + After(inner) == [s.p] + ([] + InOrder(s.r) + After(inner));
  }

  lemma SuccessorRegroup(a: seq<Ptr>, l: seq<Ptr>, x: seq<Ptr>, r: seq<Ptr>, b: seq<Ptr>)
    ensures a + (l + x + r) + b == (a + l) + x + (r + b)
    ensures (a + l) + (r + b) == a + (l + r) + b
    ensures l + (x + r) == l + x + r
  {
  }

  lemma SuccessorSeq(a: seq<Ptr>, l: seq<Ptr>, x: Ptr, r: seq<Ptr>, b: seq<Ptr>)
    requires x !in a && x !in l && x !in r && x !in b
    ensures Without(a + (l + [x] + r) + b, x) == a + (l + r) + b
  {
    SuccessorRegroup(a, l, [x], r, b);
    WithoutMiddle(a + l, x, r + b);
  }

  /** Moving the successor into the node's place removes just that node from the order. */
  lemma SuccessorOrder(t: Tree, ctx: Ctx, s: Tree, inner: Ctx)
    requires t.Node? && s.Node? && s.l.Leaf? && t.r == Plug(s, inner) && Before(inner) == []
    requires t.p !in Before(ctx) && t.p !in InOrder(t.l) && t.p !in InOrder(t.r) && t.p !in After(ctx)
    ensures InOrder(Plug(Node(t.l, s.p, t.c, Plug(s.r, inner)), ctx)) == Without(InOrder(Plug(t, ctx)), t.p)
  {
    LeftEdge(s, inner);
    var q := InOrder(Plug(s.r, inner));
    InOrderPlug(t, ctx);
    InOrderPlug(Node(t.l, s.p, t.c, Plug(s.r, inner)), ctx);
    SuccessorSeq(Before(ctx), InOrder(t.l), t.p, [s.p] + q, After(ctx));
    SuccessorRegroup([], InOrder(t.l), [s.p], q, []);
  }

  /** The balance at a subtree that sits inside a balanced tree. */
  lemma {:induction false} BalanceInside(s: Tree, inner: Ctx, outer: Ctx, h: int) returns (k: int)
    requires Balanced(Plug(s, inner), h) && BalancedCtx(outer, h)
    requires IsRed(Plug(s, inner)) ==> !outer.Top? && !UnderRed(outer)
    ensures Balanced(s, k) && BalancedCtx(Append(inner, outer), k)
    ensures IsRed(s) ==> !Append(inner, outer).Top? && !UnderRed(Append(inner, outer))
    decreases inner
  {
    if inner.Top? {
      k := h;
    } else {
      k := BalanceInside(Outer(s, inner), inner.up, outer, h);
      k := if inner.c.Red? then k else k - 1;
    }
  }

  // ---------- The in-order successor ----------

  function Following(s: seq<Ptr>, x: Ptr): seq<Ptr> {
    if s == [] then [] else if s[0] == x then s[1..] else Following(s[1..], x)
  }

  lemma {:induction false} FollowingMiddle(a: seq<Ptr>, x: Ptr, b: seq<Ptr>)
    requires x !in a
    ensures Following(a + [x] + b, x) == b
  {
    if a == [] {
      assert a + [x] + b == [x] + b;
    } else {
      assert (a + [x] + b)[1..] == a[1..] + [x] + b;
      FollowingMiddle(a[1..], x, b);
    }
  }

  lemma FollowingFocus(t: Tree, ctx: Ctx)
    requires t.Node? && t.p !in Before(ctx) && t.p !in InOrder(t.l)
    ensures Following(InOrder(Plug(t, ctx)), t.p) == InOrder(t.r) + After(ctx)
  {
    InOrderPlug(t, ctx);
    SuccessorRegroup(Before(ctx), InOrder(t.l), [t.p], InOrder(t.r), After(ctx));
    FollowingMiddle(Before(ctx) + InOrder(t.l), t.p, InOrder(t.r) + After(ctx));
  }

  // ---------- What the balance is for ----------

  function Depth(t: Tree): nat {
    if t.Leaf? then 0 else 1 + if Depth(t.l) > Depth(t.r) then Depth(t.l) else Depth(t.r)
  }

  function Pow2(n: nat): nat { if n == 0 then 1 else 2 * Pow2(n - 1) }

  lemma {:induction false} BlackHeightBounds(t: Tree, h: int)
    requires Balanced(t, h)
    ensures 0 <= h && Pow2(h) <= |InOrder(t)| + 1
    ensures Depth(t) <= 2 * h + if IsRed(t) then 1 else 0
  {
    if t.Node? {
      var k := if t.c.Red? then h else h - 1;
      BlackHeightBounds(t.l, k);
      BlackHeightBounds(t.r, k);
    }
  }

  lemma {:induction false} Pow2Double(h: nat)
    ensures Pow2(2 * h) == Pow2(h) * Pow2(h)
  {
    if h > 0 {
      Pow2Double(h - 1);
      assert Pow2(2 * h) == 4 * Pow2(2 * (h - 1));
      var q := Pow2(h - 1);
      assert (2 * q) * (2 * q) == 4 * (q * q);
    }
  }

  lemma {:induction false} Pow2Monotone(a: nat, b: nat)
    requires a <= b
    ensures Pow2(a) <= Pow2(b)
  {
    if a < b {
      Pow2Monotone(a, b - 1);
    }
  }

  lemma SquareMonotone(a: nat, b: nat)
    requires a <= b
    ensures a * a <= b * b
  {
    assert a * a <= a * b;
    assert a * b <= b * b;
  }

  /** A path in a tree of n nodes visits at most 2 log2(n + 1) of them. */
  lemma DepthBound(t: Tree)
    requires RedBlack(t)
    ensures Pow2(Depth(t)) <= (|InOrder(t)| + 1) * (|InOrder(t)| + 1)
  {
    var h :| Balanced(t, h);
    BlackHeightBounds(t, h);
    Pow2Monotone(Depth(t), 2 * h);
    Pow2Double(h);
    SquareMonotone(Pow2(h), |InOrder(t)| + 1);
  }
}
