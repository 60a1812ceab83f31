/** Static single assignment: its check, the renaming that restores it, and unrolling followed by renaming (src/pass/ssa.cc, src/pass/unroll_loop.cc). */
module SSA {
  import opened LoopIR
  import Unroll

  class IRVerifySSA {
    var isSsa: bool
    var defined: set<Name>

    constructor ()
      ensures isSsa && defined == {}
    {
      isSsa, defined := true, {};
    }

    method MarkDef(n: Name)
      modifies this
      ensures isSsa == (old(isSsa) && n !in old(defined)) && (isSsa ==> defined == old(defined) + {n})
    {
      if n in defined {
        isSsa := false;
        return;
      }
      defined := defined + {n};
    }

    /** Finds out whether s binds any variable twice, or one that is defined before. */
    method Visit(s: Stmt)
      modifies this
      ensures isSsa == (old(isSsa) && Unique(s) && Binds(s) !! old(defined))
      ensures isSsa ==> defined == old(defined) + Binds(s)
      decreases s
    {
      if !isSsa {
        return;
      }
      match s
      case Block(first, rest) =>
        Visit(first);
        Visit(rest);
      case IfThenElse(_, thenCase, elseCase) =>
        Visit(thenCase);
        Visit(elseCase);
      case LetStmt(x, _, body) =>
        MarkDef(Scalar(x));
        Visit(body);
      case For(x, _, _, _, body) =>
        MarkDef(Scalar(x));
        Visit(body);
      case Allocate(b, _, body) =>
        MarkDef(Handle(b));
        Visit(body);
      case _ =>
    }
  }

  method VerifySSA(s: Stmt) returns (isSsa: bool)
    ensures isSsa <==> Unique(s)
  {
    var v := new IRVerifySSA();
    v.Visit(s);
    return v.isSsa;
  }

  // ----- the renaming, as a function -----

  /** The current names of the variables, the variables that were bound so far, and the next new name. */
  datatype Conv = Conv(scope: map<Name, seq<nat>>, defined: set<Name>, next: nat)

  /** The current name of a variable. */
  function Look(c: Conv, n: Name): nat {
    if n in c.scope && c.scope[n] != [] then c.scope[n][|c.scope[n]| - 1] else n.id
  }

  function SameKind(n: Name, id: nat): Name {
    if n.Scalar? then Scalar(id) else Handle(id)
  }

  /** The name for a binder: its own the first time, a new one after that. */
  function Bind(c: Conv, n: Name): (nat, Conv) {
    if n in c.defined then
      (c.next, Conv(c.scope[n := (if n in c.scope then c.scope[n] else []) + [c.next]], c.defined, c.next + 1))
    else (n.id, c.(defined := c.defined + {n}))
  }

  /** Leaves the scope of a binder; renamed says whether it got a new name. */
  function Leave(c: Conv, n: Name, renamed: bool): Conv {
    if renamed && n in c.scope && c.scope[n] != [] then c.(scope := c.scope[n := c.scope[n][..|c.scope[n]| - 1]]) else c
  }

  function ConvExpr(e: Expr, c: Conv): Expr {
    match e
    case IntImm(_) => e
    case Var(x) => Var(Look(c, Scalar(x)))
    case Load(b, index) => Load(Look(c, Handle(b)), ConvExpr(index, c))
    case Bin(op, a, b) => Bin(op, ConvExpr(a, c), ConvExpr(b, c))
  }

  function ConvStmt(s: Stmt, c: Conv): (Stmt, Conv) {
    match s
    case Store(b, value, index) => (Store(Look(c, Handle(b)), ConvExpr(value, c), ConvExpr(index, c)), c)
    case Evaluate(e) => (Evaluate(ConvExpr(e, c)), c)
    case Block(first, rest) =>
      var (r1, c1) := ConvStmt(first, c);
      var (r2, c2) := ConvStmt(rest, c1);
      (Block(r1, r2), c2)
    case IfThenElse(cond, thenCase, elseCase) =>
      var (r1, c1) := ConvStmt(thenCase, c);
      var (r2, c2) := ConvStmt(elseCase, c1);
      (IfThenElse(ConvExpr(cond, c), r1, r2), c2)
    case LetStmt(x, value, body) =>
      var (y, c1) := Bind(c, Scalar(x));
      var (r, c2) := ConvStmt(body, c1);
      (LetStmt(y, ConvExpr(value, c), r), Leave(c2, Scalar(x), Scalar(x) in c.defined))
    case For(x, min, extent, t, body) =>
      var (y, c1) := Bind(c, Scalar(x));
      var (r, c2) := ConvStmt(body, c1);
      (For(y, ConvExpr(min, c1), ConvExpr(extent, c1), t, r), Leave(c2, Scalar(x), Scalar(x) in c.defined))
    case Allocate(b, size, body) =>
      var (y, c1) := Bind(c, Handle(b));
      var (r, c2) := ConvStmt(body, c1);
      (Allocate(y, ConvExpr(size, c1), r), Leave(c2, Handle(b), Handle(b) in c.defined))
  }

  // ----- the result is in SSA form -----

  /** Every name that is bound is below limit. */
  predicate Below(ns: set<Name>, limit: nat) {
    forall n <- ns :: n.id < limit
  }

  ghost predicate NewNames(ns: set<Name>, c: Conv, c1: Conv) {
    forall n <- ns :: (n in c1.defined && n !in c.defined) || c.next <= n.id < c1.next
  }

  ghost predicate Ordered(c: Conv, limit: nat) {
    Below(c.defined, limit) && limit <= c.next
  }

  lemma {:induction false} NewNamesMore(ns: set<Name>, c: Conv, c1: Conv, c2: Conv)
    requires NewNames(ns, c, c1) && c1.defined <= c2.defined && c1.next <= c2.next
    ensures NewNames(ns, c, c2)
  {
  }

  lemma {:induction false} NewNamesLater(ns: set<Name>, c: Conv, c1: Conv, c2: Conv)
    requires NewNames(ns, c1, c2) && c.defined <= c1.defined && c.next <= c1.next
    ensures NewNames(ns, c, c2)
  {
  }

  /** Names from different stretches of the conversion are different. */
  lemma {:induction false} NewNamesApart(ms: set<Name>, ns: set<Name>, c: Conv, c1: Conv, c2: Conv, limit: nat)
    requires NewNames(ms, c, c1) && NewNames(ns, c1, c2) && Ordered(c, limit) && Ordered(c1, limit) && Ordered(c2, limit) && c.next <= c1.next
    ensures ms !! ns
  {
  }

  /** The binder of a scope and the binders inside. */
  lemma {:induction false} BinderNew(c: Conv, n: Name, c2: Conv, limit: nat, ns: set<Name>)
    requires Ordered(c, limit) && n.id < limit
    requires var (y, c1) := Bind(c, n); NewNames(ns, c1, c2) && c1.defined <= c2.defined && c1.next <= c2.next && Ordered(c2, limit)
    ensures var (y, c1) := Bind(c, n); SameKind(n, y) !in ns && NewNames({SameKind(n, y)} + ns, c, c2)
  {
  }

  /** No variable is bound twice in the result, whatever the input. */
  lemma {:induction false} ConvUnique(s: Stmt, c: Conv, limit: nat)
    requires Ordered(c, limit) && Below(Binds(s), limit)
    ensures var (r, c1) := ConvStmt(s, c);
      Unique(r) && NewNames(Binds(r), c, c1) && c.defined <= c1.defined && c.next <= c1.next && Ordered(c1, limit)
  {
    hide NewNames;
    match s
    case Store(_, _, _) => NoNames(c);
    case Evaluate(_) => NoNames(c);
    case Block(first, rest) =>
      var c1 := ConvStmt(first, c).1;
      ConvUnique(first, c, limit);
      ConvUnique(rest, c1, limit);
      TwoParts(Binds(ConvStmt(first, c).0), Binds(ConvStmt(rest, c1).0), c, c1, ConvStmt(rest, c1).1, limit);
    case IfThenElse(_, thenCase, elseCase) =>
      var c1 := ConvStmt(thenCase, c).1;
      ConvUnique(thenCase, c, limit);
      ConvUnique(elseCase, c1, limit);
      TwoParts(Binds(ConvStmt(thenCase, c).0), Binds(ConvStmt(elseCase, c1).0), c, c1, ConvStmt(elseCase, c1).1, limit);
    case LetStmt(x, _, body) =>
      ConvUnique(body, Bind(c, Scalar(x)).1, limit);
      BinderNew(c, Scalar(x), ConvStmt(body, Bind(c, Scalar(x)).1).1, limit, Binds(ConvStmt(body, Bind(c, Scalar(x)).1).0));
      LeaveNames(c, ConvStmt(body, Bind(c, Scalar(x)).1).1, Scalar(x), Scalar(x) in c.defined, Binds(ConvStmt(s, c).0));
    case For(x, _, _, _, body) =>
      ConvUnique(body, Bind(c, Scalar(x)).1, limit);
      BinderNew(c, Scalar(x), ConvStmt(body, Bind(c, Scalar(x)).1).1, limit, Binds(ConvStmt(body, Bind(c, Scalar(x)).1).0));
      LeaveNames(c, ConvStmt(body, Bind(c, Scalar(x)).1).1, Scalar(x), Scalar(x) in c.defined, Binds(ConvStmt(s, c).0));
    case Allocate(b, _, body) =>
      ConvUnique(body, Bind(c, Handle(b)).1, limit);
      BinderNew(c, Handle(b), ConvStmt(body, Bind(c, Handle(b)).1).1, limit, Binds(ConvStmt(body, Bind(c, Handle(b)).1).0));
      LeaveNames(c, ConvStmt(body, Bind(c, Handle(b)).1).1, Handle(b), Handle(b) in c.defined, Binds(ConvStmt(s, c).0));
  }

  lemma {:induction false} TwoParts(ms: set<Name>, ns: set<Name>, c: Conv, c1: Conv, c2: Conv, limit: nat)
    requires NewNames(ms, c, c1) && NewNames(ns, c1, c2) && Ordered(c, limit) && Ordered(c1, limit) && Ordered(c2, limit)
    requires c.defined <= c1.defined <= c2.defined && c.next <= c1.next <= c2.next
    ensures ms !! ns && NewNames(ms + ns, c, c2)
  {
    hide NewNames;
    NewNamesApart(ms, ns, c, c1, c2, limit);
    NewNamesMore(ms, c, c1, c2);
    NewNamesLater(ns, c, c1, c2);
    NewNamesUnion(ms, ns, c, c2);
  }

  lemma {:induction false} NewNamesUnion(ms: set<Name>, ns: set<Name>, c: Conv, c1: Conv)
    requires NewNames(ms, c, c1) && NewNames(ns, c, c1)
    ensures NewNames(ms + ns, c, c1)
  {
  }

  lemma {:induction false} NoNames(c: Conv)
    ensures NewNames({}, c, c)
  {
  }

  lemma {:induction false} LeaveNames(c: Conv, c1: Conv, n: Name, renamed: bool, ns: set<Name>)
    ensures NewNames(ns, c, c1) ==> NewNames(ns, c, Leave(c1, n, renamed))
  {
  }

  // ----- programs in SSA form stay as they are -----

  lemma {:induction false} ConvExprSelf(e: Expr, c: Conv)
    requires c.scope == map[]
    ensures ConvExpr(e, c) == e
  {
    match e
    case Load(_, index) => ConvExprSelf(index, c);
    case Bin(_, a, b) =>
      ConvExprSelf(a, c);
      ConvExprSelf(b, c);
    case _ =>
  }

  /** Where no variable is bound for the second time, none is renamed. */
  lemma {:induction false} ConvSelf(s: Stmt, c: Conv)
    requires c.scope == map[] && Unique(s) && Binds(s) !! c.defined
    ensures ConvStmt(s, c).0 == s && ConvStmt(s, c).1 == c.(defined := c.defined + Binds(s))
    decreases s
  {
    forall e: Expr, c1: Conv | c1.scope == map[] ensures ConvExpr(e, c1) == e {
      ConvExprSelf(e, c1);
    }
    match s
    case Block(first, rest) =>
      ConvSelf(first, c);
      ConvSelf(rest, c.(defined := c.defined + Binds(first)));
      assert c.defined + Binds(first) + Binds(rest) == c.defined + Binds(s);
    case IfThenElse(_, thenCase, elseCase) =>
      ConvSelf(thenCase, c);
      ConvSelf(elseCase, c.(defined := c.defined + Binds(thenCase)));
      assert c.defined + Binds(thenCase) + Binds(elseCase) == c.defined + Binds(s);
    case LetStmt(x, _, body) =>
      ConvSelf(body, c.(defined := c.defined + {Scalar(x)}));
      assert c.defined + {Scalar(x)} + Binds(body) == c.defined + Binds(s);
    case For(x, _, _, _, body) =>
      ConvSelf(body, c.(defined := c.defined + {Scalar(x)}));
      assert c.defined + {Scalar(x)} + Binds(body) == c.defined + Binds(s);
    case Allocate(b, _, body) =>
      ConvSelf(body, c.(defined := c.defined + {Handle(b)}));
      assert c.defined + {Handle(b)} + Binds(body) == c.defined + Binds(s);
    case _ => assert c.defined + {} == c.defined;
  }

  // ----- the result is the same up to names -----

  /** What holds between the visits: only variables of bound are renamed, to new names; variables in scope have a current
      name, the others none. */
  ghost predicate Idle(c: Conv, bound: set<Name>, inScope: set<Name>, limit: nat) {
    && c.scope.Keys <= c.defined <= bound && Ordered(c, limit)
    && (forall n <- c.scope :: StackFits(c.scope[n], n in inScope, limit, c.next))
  }

  predicate StackFits(stack: seq<nat>, inScope: bool, limit: nat, next: nat) {
    (stack != [] <==> inScope) && forall k | 0 <= k < |stack| :: limit <= stack[k] < next
  }

  /** Every variable of the original corresponds to its current name. */
  ghost predicate Named(c: Conv, bound: set<Name>, inScope: set<Name>, limit: nat, p: Pairing) {
    forall n: Name | n.id < limit && (n in bound ==> n in inScope) :: Paired(n, SameKind(n, Look(c, n)), p)
  }

  lemma {:induction false} ConvExprAlpha(e: Expr, c: Conv, bound: set<Name>, inScope: set<Name>, limit: nat, p: Pairing)
    requires Named(c, bound, inScope, limit, p) && Visible(e, bound, inScope) && Below(Uses(e), limit)
    ensures AlphaExpr(e, ConvExpr(e, c), p)
  {
    hide Paired;
    match e
    case Var(x) => assert Scalar(x) in Uses(e);
    case Load(b, index) =>
      assert Handle(b) in Uses(e);
      ConvExprAlpha(index, c, bound, inScope, limit, p);
    case Bin(_, a, b) =>
      ConvExprAlpha(a, c, bound, inScope, limit, p);
      ConvExprAlpha(b, c, bound, inScope, limit, p);
    case _ =>
  }

  /** Entering a scope. */
  lemma {:induction false} BindIdle(c: Conv, n: Name, bound: set<Name>, inScope: set<Name>, limit: nat)
    requires Idle(c, bound, inScope, limit) && n in bound && n !in inScope && n.id < limit
    ensures var (y, c1) := Bind(c, n); Idle(c1, bound, inScope + {n}, limit) && Look(c1, n) == y
    ensures forall m: Name | m != n :: Look(Bind(c, n).1, m) == Look(c, m)
  {
    var (y, c1) := Bind(c, n);
    forall m <- c1.scope ensures StackFits(c1.scope[m], m in inScope + {n}, limit, c1.next) {
      if m in c.scope {
        assert StackFits(c.scope[m], m in inScope, limit, c.next);
      }
    }
  }

  /** Other names differ from the one that a binder gets. */
  lemma {:induction false} OtherName(c: Conv, n: Name, m: Name, bound: set<Name>, inScope: set<Name>, limit: nat)
    requires Idle(c, bound, inScope, limit) && n != m && n.id < limit && m.id < limit
    ensures SameKind(m, Look(c, m)) != SameKind(n, Bind(c, n).0)
  {
    if m in c.scope {
      assert StackFits(c.scope[m], m in inScope, limit, c.next);
    }
  }

  lemma {:induction false} BindNamed(c: Conv, n: Name, bound: set<Name>, inScope: set<Name>, limit: nat, p: Pairing)
    requires Idle(c, bound, inScope, limit) && n in bound && n !in inScope && n.id < limit && Named(c, bound, inScope, limit, p)
    ensures var (y, c1) := Bind(c, n); Named(c1, bound, inScope + {n}, limit, p + [(n, SameKind(n, y))])
  {
    hide Idle, Bind, Paired;
    var (y, c1) := Bind(c, n);
    BindIdle(c, n, bound, inScope, limit);
    var pair := (n, SameKind(n, y));
    forall m: Name | m.id < limit && (m in bound ==> m in inScope + {n}) ensures Paired(m, SameKind(m, Look(c1, m)), p + [pair]) {
      PairedInside(m, SameKind(m, Look(c1, m)), p, pair);
      if m != n {
        OtherName(c, n, m, bound, inScope, limit);
        assert Paired(m, SameKind(m, Look(c, m)), p);
      }
    }
  }

  /** Binding leaves the values of the other variables alone, so the bounds of a loop may be converted after it. */
  lemma {:induction false} BindVisible(e: Expr, c: Conv, n: Name, bound: set<Name>, inScope: set<Name>, limit: nat)
    requires Idle(c, bound, inScope, limit) && n in bound && n !in inScope && n.id < limit && Visible(e, bound, inScope)
    ensures ConvExpr(e, Bind(c, n).1) == ConvExpr(e, c)
  {
    BindIdle(c, n, bound, inScope, limit);
    SameLook(e, c, Bind(c, n).1);
  }

  lemma {:induction false} SameLook(e: Expr, c: Conv, c1: Conv)
    requires forall m <- Uses(e) :: Look(c1, m) == Look(c, m)
    ensures ConvExpr(e, c1) == ConvExpr(e, c)
  {
    match e
    case Load(_, index) => SameLook(index, c, c1);
    case Bin(_, a, b) =>
      SameLook(a, c, c1);
      SameLook(b, c, c1);
    case _ =>
  }

  /** All names in s are below limit. */
  predicate NamesBelow(s: Stmt, limit: nat) {
    match s
    case Store(b, value, index) => b < limit && Below(Uses(value), limit) && Below(Uses(index), limit)
    case Evaluate(e) => Below(Uses(e), limit)
    case Block(first, rest) => NamesBelow(first, limit) && NamesBelow(rest, limit)
    case IfThenElse(cond, thenCase, elseCase) => Below(Uses(cond), limit) && NamesBelow(thenCase, limit) && NamesBelow(elseCase, limit)
    case LetStmt(x, value, body) => x < limit && Below(Uses(value), limit) && NamesBelow(body, limit)
    case For(x, min, extent, _, body) => x < limit && Below(Uses(min), limit) && Below(Uses(extent), limit) && NamesBelow(body, limit)
    case Allocate(b, size, body) => b < limit && Below(Uses(size), limit) && NamesBelow(body, limit)
  }

  /** After a visit, the variables around it have the names that they had before. */
  ghost predicate Restored(c: Conv, c1: Conv, inScope: set<Name>, bound: set<Name>) {
    forall n: Name | n in bound ==> n in inScope :: SameStack(c, c1, n)
  }

  predicate SameStack(c: Conv, c1: Conv, n: Name) {
    (n in c1.scope <==> n in c.scope) && (n in c.scope ==> c1.scope[n] == c.scope[n])
  }

  lemma {:induction false} LeaveIdle(c: Conv, n: Name, c2: Conv, bound: set<Name>, inScope: set<Name>, limit: nat)
    requires Idle(c, bound, inScope, limit) && n in bound && n !in inScope && n.id < limit
    requires Idle(c2, bound, inScope + {n}, limit) && Restored(Bind(c, n).1, c2, inScope + {n}, bound)
    ensures SameStack(Bind(c, n).1, c2, n)
    ensures var c3 := Leave(c2, n, n in c.defined); Idle(c3, bound, inScope, limit) && Restored(c, c3, inScope, bound)
  {
    LeaveRestored(c, n, c2, bound, inScope, limit);
  }

  lemma {:induction false} LeaveRestored(c: Conv, n: Name, c2: Conv, bound: set<Name>, inScope: set<Name>, limit: nat)
    requires Idle(c, bound, inScope, limit) && n in bound && n !in inScope
    requires Restored(Bind(c, n).1, c2, inScope + {n}, bound)
    ensures Restored(c, Leave(c2, n, n in c.defined), inScope, bound)
  {
    var c3 := Leave(c2, n, n in c.defined);
    forall m: Name | m in bound ==> m in inScope ensures SameStack(c, c3, m) {
      assert SameStack(Bind(c, n).1, c2, m);
    }
  }

  lemma {:induction false} RestoredTrans(c: Conv, c1: Conv, c2: Conv, inScope: set<Name>, bound: set<Name>)
    requires Restored(c, c1, inScope, bound) && Restored(c1, c2, inScope, bound)
    ensures Restored(c, c2, inScope, bound)
  {
    forall n: Name | n in bound ==> n in inScope ensures SameStack(c, c2, n) {
      assert SameStack(c, c1, n) && SameStack(c1, c2, n);
    }
  }

  lemma {:induction false} RestoredSelf(c: Conv, inScope: set<Name>, bound: set<Name>)
    ensures Restored(c, c, inScope, bound)
  {
  }

  lemma {:induction false} ConvIdle(s: Stmt, c: Conv, bound: set<Name>, inScope: set<Name>, limit: nat)
    requires Idle(c, bound, inScope, limit) && Scoped(s, bound, inScope) && NamesBelow(s, limit)
    ensures Idle(ConvStmt(s, c).1, bound, inScope, limit) && Restored(c, ConvStmt(s, c).1, inScope, bound)
    decreases s
  {
    hide Idle, Restored, Visible, Bind, Leave;
    match s
    case Block(first, rest) =>
      ConvIdle(first, c, bound, inScope, limit);
      ConvIdle(rest, ConvStmt(first, c).1, bound, inScope, limit);
      RestoredTrans(c, ConvStmt(first, c).1, ConvStmt(s, c).1, inScope, bound);
    case IfThenElse(_, thenCase, elseCase) =>
      ConvIdle(thenCase, c, bound, inScope, limit);
      ConvIdle(elseCase, ConvStmt(thenCase, c).1, bound, inScope, limit);
      RestoredTrans(c, ConvStmt(thenCase, c).1, ConvStmt(s, c).1, inScope, bound);
    case LetStmt(x, _, body) =>
      BindIdle(c, Scalar(x), bound, inScope, limit);
      ConvIdle(body, Bind(c, Scalar(x)).1, bound, inScope + {Scalar(x)}, limit);
      LeaveIdle(c, Scalar(x), ConvStmt(body, Bind(c, Scalar(x)).1).1, bound, inScope, limit);
    case For(x, _, _, _, body) =>
      BindIdle(c, Scalar(x), bound, inScope, limit);
      ConvIdle(body, Bind(c, Scalar(x)).1, bound, inScope + {Scalar(x)}, limit);
      LeaveIdle(c, Scalar(x), ConvStmt(body, Bind(c, Scalar(x)).1).1, bound, inScope, limit);
    case Allocate(b, _, body) =>
      BindIdle(c, Handle(b), bound, inScope, limit);
      ConvIdle(body, Bind(c, Handle(b)).1, bound, inScope + {Handle(b)}, limit);
      LeaveIdle(c, Handle(b), ConvStmt(body, Bind(c, Handle(b)).1).1, bound, inScope, limit);
    case _ => RestoredSelf(c, inScope, bound);
  }

  lemma {:induction false} RestoredNamed(c: Conv, c1: Conv, bound: set<Name>, inScope: set<Name>, limit: nat, p: Pairing)
    requires Restored(c, c1, inScope, bound) && Named(c, bound, inScope, limit, p)
    ensures Named(c1, bound, inScope, limit, p)
  {
    hide Paired;
    forall n: Name | n.id < limit && (n in bound ==> n in inScope) ensures Paired(n, SameKind(n, Look(c1, n)), p) {
      assert SameStack(c, c1, n);
    }
  }

  /** The renamed program is the same up to names. */
  lemma {:induction false} ConvAlpha(s: Stmt, c: Conv, bound: set<Name>, inScope: set<Name>, limit: nat, p: Pairing)
    requires Idle(c, bound, inScope, limit) && Scoped(s, bound, inScope) && NamesBelow(s, limit) && Named(c, bound, inScope, limit, p)
    ensures Alpha(s, ConvStmt(s, c).0, p)
    decreases s, 0
  {
    hide Idle, Named, Visible, Bind, Leave, Look, Below, Uses, Paired;
    match s
    case Store(b, value, index) =>
      ConvExprAlpha(value, c, bound, inScope, limit, p);
      ConvExprAlpha(index, c, bound, inScope, limit, p);
      HandleNamed(c, b, bound, inScope, limit, p);
    case Evaluate(e) => ConvExprAlpha(e, c, bound, inScope, limit, p);
    case Block(first, rest) =>
      ConvAlpha(first, c, bound, inScope, limit, p);
      ConvIdle(first, c, bound, inScope, limit);
      RestoredNamed(c, ConvStmt(first, c).1, bound, inScope, limit, p);
      ConvAlpha(rest, ConvStmt(first, c).1, bound, inScope, limit, p);
    case IfThenElse(cond, thenCase, elseCase) =>
      ConvExprAlpha(cond, c, bound, inScope, limit, p);
      ConvAlpha(thenCase, c, bound, inScope, limit, p);
      ConvIdle(thenCase, c, bound, inScope, limit);
      RestoredNamed(c, ConvStmt(thenCase, c).1, bound, inScope, limit, p);
      ConvAlpha(elseCase, ConvStmt(thenCase, c).1, bound, inScope, limit, p);
    case LetStmt(x, value, body) =>
      ConvExprAlpha(value, c, bound, inScope, limit, p);
      ConvBody(Scalar(x), body, c, bound, inScope, limit, p);
    case For(x, min, extent, _, body) =>
      BindVisible(min, c, Scalar(x), bound, inScope, limit);
      BindVisible(extent, c, Scalar(x), bound, inScope, limit);
      ConvExprAlpha(min, c, bound, inScope, limit, p);
      ConvExprAlpha(extent, c, bound, inScope, limit, p);
      ConvBody(Scalar(x), body, c, bound, inScope, limit, p);
    case Allocate(b, size, body) =>
      BindVisible(size, c, Handle(b), bound, inScope, limit);
      ConvExprAlpha(size, c, bound, inScope, limit, p);
      ConvBody(Handle(b), body, c, bound, inScope, limit, p);
  }

  lemma {:induction false} ConvBody(n: Name, body: Stmt, c: Conv, bound: set<Name>, inScope: set<Name>, limit: nat, p: Pairing)
    requires Idle(c, bound, inScope, limit) && n in bound && n !in inScope && n.id < limit && Named(c, bound, inScope, limit, p)
    requires Scoped(body, bound, inScope + {n}) && NamesBelow(body, limit)
    ensures var (y, c1) := Bind(c, n); Alpha(body, ConvStmt(body, c1).0, p + [(n, SameKind(n, y))])
    decreases body, 1
  {
    hide Idle, Named, Bind;
    var (y, c1) := Bind(c, n);
    BindIdle(c, n, bound, inScope, limit);
    BindNamed(c, n, bound, inScope, limit, p);
    ConvAlpha(body, c1, bound, inScope + {n}, limit, p + [(n, SameKind(n, y))]);
  }

  lemma {:induction false} HandleNamed(c: Conv, b: nat, bound: set<Name>, inScope: set<Name>, limit: nat, p: Pairing)
    requires Named(c, bound, inScope, limit, p) && b < limit && (Handle(b) in bound ==> Handle(b) in inScope)
    ensures Paired(Handle(b), Handle(Look(c, Handle(b))), p)
  {
    assert SameKind(Handle(b), Look(c, Handle(b))) == Handle(Look(c, Handle(b)));
  }

  // ----- the renaming, as it is done -----

  /** Every current name that e looks up is there. */
  predicate Readable(e: Expr, scope: map<Name, seq<nat>>) {
    forall n <- Uses(e) | n in scope :: scope[n] != []
  }

  lemma {:induction false} IdleReadable(e: Expr, c: Conv, bound: set<Name>, inScope: set<Name>, limit: nat)
    requires Idle(c, bound, inScope, limit) && Visible(e, bound, inScope)
    ensures Readable(e, c.scope)
  {
    forall n <- Uses(e) | n in c.scope ensures c.scope[n] != [] {
      assert n in Uses(e) * bound;
      assert StackFits(c.scope[n], n in inScope, limit, c.next);
    }
  }

  class IRConvertSSA {
    var scope: map<Name, seq<nat>>
    var defined: set<Name>
    /** New variables get names from here on. */
    var next: nat

    constructor (unused: nat)
      ensures scope == map[] && defined == {} && next == unused
    {
      scope, defined, next := map[], {}, unused;
    }

    function Current(): Conv
      reads this
    {
      Conv(scope, defined, next)
    }

    method MutateExpr(e: Expr) returns (r: Expr)
      requires Readable(e, scope)
      ensures r == ConvExpr(e, Current())
      decreases e
    {
      match e
      case IntImm(_) => return e;
      case Var(x) =>
        assert Scalar(x) in Uses(e);
        if Scalar(x) in scope {
          return Var(scope[Scalar(x)][|scope[Scalar(x)]| - 1]);
        }
        return e;
      case Load(b, index) =>
        var i := MutateExpr(index);
        assert Handle(b) in Uses(e);
        if Handle(b) in scope {
          return Load(scope[Handle(b)][|scope[Handle(b)]| - 1], i);
        }
        return Load(b, i);
      case Bin(op, a, b) =>
        var x := MutateExpr(a);
        var y := MutateExpr(b);
        return Bin(op, x, y);
    }

    /** A binder: defines it, or gives it a new name. */
    method Enter(n: Name) returns (y: nat)
      modifies this
      ensures (y, Current()) == Bind(old(Current()), n)
    {
      if n in defined {
        y := next;
        next := next + 1;
        scope := scope[n := (if n in scope then scope[n] else []) + [y]];
      } else {
        y := n.id;
        defined := defined + {n};
      }
    }

    /** The end of a scope whose binder was renamed. */
    method Pop(n: Name)
      requires n in scope && scope[n] != []
      modifies this
      ensures Current() == Leave(old(Current()), n, true)
    {
      scope := scope[n := scope[n][..|scope[n]| - 1]];
    }

    method Mutate(s: Stmt, ghost bound: set<Name>, ghost inScope: set<Name>, ghost limit: nat) returns (r: Stmt)
      requires Idle(Current(), bound, inScope, limit) && Scoped(s, bound, inScope) && NamesBelow(s, limit)
      modifies this
      ensures (r, Current()) == ConvStmt(s, old(Current()))
      decreases s, 1
    {
      hide Idle, Bind, Leave, Readable;
      ConvIdle(s, Current(), bound, inScope, limit);
      match s
      case Store(b, value, index) =>
        IdleReadable(value, Current(), bound, inScope, limit);
        IdleReadable(index, Current(), bound, inScope, limit);
        HandleReadable(Current(), b, bound, inScope, limit);
        var v := MutateExpr(value);
        var i := MutateExpr(index);
        r := Store(if Handle(b) in scope then scope[Handle(b)][|scope[Handle(b)]| - 1] else b, v, i);
      case Evaluate(e) =>
        IdleReadable(e, Current(), bound, inScope, limit);
        var x := MutateExpr(e);
        r := Evaluate(x);
      case Block(first, rest) =>
        ConvIdle(first, Current(), bound, inScope, limit);
        var r1 := Mutate(first, bound, inScope, limit);
        var r2 := Mutate(rest, bound, inScope, limit);
        r := Block(r1, r2);
      case IfThenElse(cond, thenCase, elseCase) =>
        IdleReadable(cond, Current(), bound, inScope, limit);
        ConvIdle(thenCase, Current(), bound, inScope, limit);
        var c := MutateExpr(cond);
        var r1 := Mutate(thenCase, bound, inScope, limit);
        var r2 := Mutate(elseCase, bound, inScope, limit);
        r := IfThenElse(c, r1, r2);
      case LetStmt(x, value, body) =>
        IdleReadable(value, Current(), bound, inScope, limit);
        var v := MutateExpr(value);
        var y, r1 := MutateBody(Scalar(x), body, bound, inScope, limit);
        r := LetStmt(y, v, r1);
      case For(x, min, extent, t, body) =>
        var y, r1, lo, n := MutateScope(Scalar(x), min, extent, body, bound, inScope, limit);
        r := For(y, lo, n, t, r1);
      case Allocate(b, size, body) =>
        var y, r1, n, n1 := MutateScope(Handle(b), size, size, body, bound, inScope, limit);
        r := Allocate(y, n, r1);
    }

    method MutateBody(n: Name, body: Stmt, ghost bound: set<Name>, ghost inScope: set<Name>, ghost limit: nat) returns (y: nat, r: Stmt)
      requires Idle(Current(), bound, inScope, limit) && n in bound && n !in inScope && n.id < limit
      requires Scoped(body, bound, inScope + {n}) && NamesBelow(body, limit)
      modifies this
      ensures var c := old(Current()); var c1 := Bind(c, n).1;
        y == Bind(c, n).0 && r == ConvStmt(body, c1).0 && Current() == Leave(ConvStmt(body, c1).1, n, n in c.defined)
      decreases body, 2
    {
      hide Idle, Bind, ConvStmt;
      var renamed := n in defined;
      BindIdle(Current(), n, bound, inScope, limit);
      y := Enter(n);
      ConvIdle(body, Current(), bound, inScope + {n}, limit);
      RenamedThere(old(Current()), n, ConvStmt(body, Current()).1, bound, inScope);
      r := Mutate(body, bound, inScope + {n}, limit);
      if renamed {
        Pop(n);
      }
    }

    /** A scope whose operands are visited after its binder. */
    method MutateScope(n: Name, e: Expr, f: Expr, body: Stmt, ghost bound: set<Name>, ghost inScope: set<Name>, ghost limit: nat)
      returns (y: nat, r: Stmt, e1: Expr, f1: Expr)
      requires Idle(Current(), bound, inScope, limit) && n in bound && n !in inScope && n.id < limit
      requires Visible(e, bound, inScope) && Visible(f, bound, inScope) && Scoped(body, bound, inScope + {n}) && NamesBelow(body, limit)
      modifies this
      ensures var c := old(Current()); var c1 := Bind(c, n).1;
        && y == Bind(c, n).0 && r == ConvStmt(body, c1).0 && Current() == Leave(ConvStmt(body, c1).1, n, n in c.defined)
        && e1 == ConvExpr(e, c1) && f1 == ConvExpr(f, c1)
      decreases body, 2
    {
      hide Idle, Bind, ConvStmt, Visible, Readable;
      var renamed := n in defined;
      BindIdle(Current(), n, bound, inScope, limit);
      MoreVisible(e, bound, inScope, n);
      MoreVisible(f, bound, inScope, n);
      y := Enter(n);
      IdleReadable(e, Current(), bound, inScope + {n}, limit);
      IdleReadable(f, Current(), bound, inScope + {n}, limit);
      e1 := MutateExpr(e);
      f1 := MutateExpr(f);
      ConvIdle(body, Current(), bound, inScope + {n}, limit);
      RenamedThere(old(Current()), n, ConvStmt(body, Current()).1, bound, inScope);
      r := Mutate(body, bound, inScope + {n}, limit);
      if renamed {
        Pop(n);
      }
    }
  }

  lemma {:induction false} HandleReadable(c: Conv, b: nat, bound: set<Name>, inScope: set<Name>, limit: nat)
    requires Idle(c, bound, inScope, limit) && (Handle(b) in bound ==> Handle(b) in inScope)
    ensures Handle(b) in c.scope ==> c.scope[Handle(b)] != []
  {
    if Handle(b) in c.scope {
      assert StackFits(c.scope[Handle(b)], Handle(b) in inScope, limit, c.next);
    }
  }

  /** The new name of a renamed binder is on top when its scope ends. */
  lemma {:induction false} RenamedThere(c: Conv, n: Name, c2: Conv, bound: set<Name>, inScope: set<Name>)
    requires Restored(Bind(c, n).1, c2, inScope + {n}, bound)
    ensures n in c.defined ==> n in c2.scope && c2.scope[n] != []
    ensures n !in c.defined ==> forall renamed: bool | !renamed :: Leave(c2, n, renamed) == c2
  {
    assert SameStack(Bind(c, n).1, c2, n);
  }

  // ----- the passes -----

  /** Renames so that the program is in SSA form: up to names the program is the same, and so it runs the same. */
  method ConvertSSA(s: Stmt, unused: nat) returns (r: Stmt)
    requires Scoped(s, Binds(s), {}) && NamesBelow(s, unused)
    ensures Unique(r) && Alpha(s, r, []) && SameRuns(s, r)
    ensures Unique(s) ==> r == s
  {
    var converter := new IRConvertSSA(unused);
    var start := Conv(map[], {}, unused);
    NamesBelowBinds(s, unused);
    ConvUnique(s, start, unused);
    r := converter.Mutate(s, Binds(s), {}, unused);
    ConvAlpha(s, start, Binds(s), {}, unused, []);
    AlphaSameRuns(s, r);
    if Unique(s) {
      ConvSelf(s, start);
    }
  }

  lemma {:induction false} NamesBelowBinds(s: Stmt, limit: nat)
    requires NamesBelow(s, limit)
    ensures Below(Binds(s), limit)
  {
    match s
    case Block(first, rest) =>
      NamesBelowBinds(first, limit);
      NamesBelowBinds(rest, limit);
    case IfThenElse(_, thenCase, elseCase) =>
      NamesBelowBinds(thenCase, limit);
      NamesBelowBinds(elseCase, limit);
    case LetStmt(_, _, body) => NamesBelowBinds(body, limit);
    case For(_, _, _, _, body) => NamesBelowBinds(body, limit);
    case Allocate(_, _, body) => NamesBelowBinds(body, limit);
    case _ =>
  }

  function Larger(a: nat, b: nat): nat {
    if a >= b then a else b
  }

  function ExprLimit(e: Expr): nat {
    match e
    case IntImm(_) => 0
    case Var(x) => x + 1
    case Load(b, index) => Larger(b + 1, ExprLimit(index))
    case Bin(_, a, b) => Larger(ExprLimit(a), ExprLimit(b))
  }

  /** A name from which on all names are new for s. */
  function Limit(s: Stmt): nat {
    match s
    case Store(b, value, index) => Larger(b + 1, Larger(ExprLimit(value), ExprLimit(index)))
    case Evaluate(e) => ExprLimit(e)
    case Block(first, rest) => Larger(Limit(first), Limit(rest))
    case IfThenElse(cond, thenCase, elseCase) => Larger(ExprLimit(cond), Larger(Limit(thenCase), Limit(elseCase)))
    case LetStmt(x, value, body) => Larger(x + 1, Larger(ExprLimit(value), Limit(body)))
    case For(x, min, extent, _, body) => Larger(x + 1, Larger(Larger(ExprLimit(min), ExprLimit(extent)), Limit(body)))
    case Allocate(b, size, body) => Larger(b + 1, Larger(ExprLimit(size), Limit(body)))
  }

  lemma {:induction false} ExprBelow(e: Expr, limit: nat)
    requires limit >= ExprLimit(e)
    ensures Below(Uses(e), limit)
  {
    match e
    case Load(_, index) => ExprBelow(index, limit);
    case Bin(_, a, b) =>
      ExprBelow(a, limit);
      ExprBelow(b, limit);
    case _ =>
  }

  lemma {:induction false} LimitBelow(s: Stmt, limit: nat)
    requires limit >= Limit(s)
    ensures NamesBelow(s, limit)
  {
    hide Below, ExprLimit;
    match s
    case Store(_, value, index) =>
      ExprBelow(value, limit);
      ExprBelow(index, limit);
    case Evaluate(e) => ExprBelow(e, limit);
    case Block(first, rest) =>
      LimitBelow(first, limit);
      LimitBelow(rest, limit);
    case IfThenElse(cond, thenCase, elseCase) =>
      ExprBelow(cond, limit);
      LimitBelow(thenCase, limit);
      LimitBelow(elseCase, limit);
    case LetStmt(_, value, body) =>
      ExprBelow(value, limit);
      LimitBelow(body, limit);
    case For(_, min, extent, _, body) =>
      ExprBelow(min, limit);
      ExprBelow(extent, limit);
      LimitBelow(body, limit);
    case Allocate(_, size, body) =>
      ExprBelow(size, limit);
      LimitBelow(body, limit);
  }

  lemma {:induction false} ScopedFewer(s: Stmt, bound: set<Name>, bound1: set<Name>, inScope: set<Name>)
    requires Scoped(s, bound, inScope) && Binds(s) <= bound1 <= bound
    ensures Scoped(s, bound1, inScope)
  {
    hide Uses;
    match s
    case Block(first, rest) =>
      ScopedFewer(first, bound, bound1, inScope);
      ScopedFewer(rest, bound, bound1, inScope);
    case IfThenElse(_, thenCase, elseCase) =>
      ScopedFewer(thenCase, bound, bound1, inScope);
      ScopedFewer(elseCase, bound, bound1, inScope);
    case LetStmt(x, _, body) => ScopedFewer(body, bound, bound1, inScope + {Scalar(x)});
    case For(x, _, _, _, body) => ScopedFewer(body, bound, bound1, inScope + {Scalar(x)});
    case Allocate(b, _, body) => ScopedFewer(body, bound, bound1, inScope + {Handle(b)});
    case _ =>
  }

  /** Unrolls the loops of a program in SSA form, and restores that form: the result runs the same. */
  method UnrollLoop(s: Stmt, autoMaxStep: int, autoMinDepth: int, explicitUnroll: bool, simplify: Expr -> Expr) returns (ok: bool, r: Stmt)
    requires Unique(s) && Scoped(s, Binds(s), {}) && LoadFreeBounds(s) && Unroll.Sound(simplify)
    ensures ok ==> SameRuns(s, r) && Unique(r)
    ensures Unroll.Untouched(s, 0, Unroll.Settings(autoMaxStep, autoMinDepth, explicitUnroll, simplify)) ==> ok && r == s
    ensures ok <==> Unroll.Unrolling(s, 0, Unroll.Settings(autoMaxStep, autoMinDepth, explicitUnroll, simplify)).Some?
    ensures Unroll.NoneMarked(s) || (Unroll.MarkedLiteral(s) && Unroll.LiteralsKept(simplify)) ==> ok
    ensures Unroll.FixedExtents(s, {}) ==>
      (ok <==> Unroll.MarkedConstant(s, 0, Unroll.Settings(autoMaxStep, autoMinDepth, explicitUnroll, simplify)))
  {
    hide SameRuns, Scoped, NamesBelow, Unroll.Untouched, Unroll.NoneMarked, Unroll.MarkedLiteral, Unroll.FixedExtents, Unroll.MarkedConstant, Unroll.Unrolling;
    ghost var c := Unroll.Settings(autoMaxStep, autoMinDepth, explicitUnroll, simplify);
    Unroll.UntouchedIff(s, 0, c);
    if Unroll.NoneMarked(s) {
      Unroll.UnmarkedGives(s, 0, c);
    }
    if Unroll.MarkedLiteral(s) && Unroll.LiteralsKept(simplify) {
      Unroll.LiteralGives(s, 0, c);
    }
    if Unroll.FixedExtents(s, {}) {
      Unroll.FixedGivesIff(s, 0, c, {});
    }
    var unroller := new Unroll.LoopUnroller(autoMaxStep, autoMinDepth, explicitUnroll, simplify);
    var ret;
    ok, ret := unroller.Mutate(s, Binds(s), {});
    if !ok || ret == s {
      Unroll.SameRunsSelf(s);
      return ok, s;
    }
    ScopedFewer(ret, Binds(s), Binds(ret), {});
    LimitBelow(ret, Limit(ret));
    r := ConvertSSA(ret, Limit(ret));
    Unroll.SameRunsTrans(s, ret, r);
  }
}
