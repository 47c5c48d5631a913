/** Which filters survive printing: exactly the well-sorted ones. The words of a reading, apart from
    parentheses, are fixed by the tree that is read, so a reading of the printed tokens splits where
    the printer joined, and has parentheses only where the printer put them. */
module FilterSorts {
  import opened Models
  import opened FilterPrinter
  import opened FilterParser
  import opened FilterGrammar
  import opened FilterRoundTrip

  // ----------------------------------------------------------------- weights

  /** Parentheses weigh nothing; `IS NULL` is two words. */
  function WeightOf(t: Token): nat {
    if t.TOpen? || t.TClose? then 0 else if t.TIsNull? then 2 else 1
  }

  function Weight(ts: seq<Token>): nat {
    if ts == [] then 0 else WeightOf(ts[0]) + Weight(ts[1..])
  }

  lemma {:induction false} WeightJoin(a: seq<Token>, b: seq<Token>)
    ensures Weight(a + b) == Weight(a) + Weight(b)
  {
    if a == [] {
      assert a + b == b;
    } else {
      WeightJoin(a[1..], b);
      assert (a + b)[1..] == a[1..] + b;
    }
  }

  /** The weight of what a tree is read from. */
  function Size(v: Expr): nat
    decreases v, 1
  {
    match v
    case Arith(_, l, r) => Size(l) + 1 + Size(r)
    case Concat(l, r) => Size(l) + 1 + Size(r)
    case Call(_, args) => 1 + SizeAll(args)
    case Compare(_, l, r) => Size(l) + 1 + Size(r)
    case In(_, l, r) => Size(l) + 1 + Size(r)
    case List(elts) => SizeAll(elts)
    case Like(_, l, _) => Size(l) + 2
    case And(vs) => SizeAll(vs)
    case Or(vs) => SizeAll(vs)
    case Not(x) => 1 + Size(x)
    case _ => 1
  }

  function SizeAll(vs: seq<Expr>): nat
    decreases vs, 0
  {
    if vs == [] then 0 else if |vs| == 1 then Size(vs[0]) else Size(vs[0]) + 1 + SizeAll(vs[1..])
  }

  // ------------------------------------------------------------------- depth

  function DepthOf(t: Token): int {
    if t.TOpen? then 1 else if t.TClose? then -1 else 0
  }

  function Depth(ts: seq<Token>): int {
    if ts == [] then 0 else DepthOf(ts[0]) + Depth(ts[1..])
  }

  lemma {:induction false} DepthJoin(a: seq<Token>, b: seq<Token>)
    ensures Depth(a + b) == Depth(a) + Depth(b)
  {
    if a == [] {
      assert a + b == b;
    } else {
      DepthJoin(a[1..], b);
      assert (a + b)[1..] == a[1..] + b;
    }
  }

  ghost predicate Balanced(ts: seq<Token>) {
    Depth(ts) == 0 && forall k :: 0 <= k <= |ts| ==> Depth(ts[..k]) >= 0
  }

  lemma BalancedJoin(a: seq<Token>, b: seq<Token>)
    requires Balanced(a) && Balanced(b)
    ensures Balanced(a + b)
  {
    DepthJoin(a, b);
    forall k | 0 <= k <= |a + b| ensures Depth((a + b)[..k]) >= 0 {
      if k <= |a| {
        assert (a + b)[..k] == a[..k];
      } else {
        assert (a + b)[..k] == a + b[..k - |a|];
        DepthJoin(a, b[..k - |a|]);
      }
    }
  }

  lemma BalancedOne(t: Token)
    requires DepthOf(t) == 0
    ensures Balanced([t])
  {
    assert [t][1..] == [] && [t][..0] == [] && [t][..1] == [t];
    assert Depth([t]) == 0;
  }

  lemma BalancedWrap(ts: seq<Token>)
    requires Balanced(ts)
    ensures Balanced(Wrap(ts)) && Weight(Wrap(ts)) == Weight(ts)
    ensures forall k :: 0 < k < |Wrap(ts)| ==> Depth(Wrap(ts)[..k]) > 0
  {
    var w := Wrap(ts);
    OneToken(TOpen);
    OneToken(TClose);
    DepthJoin([TOpen], ts);
    DepthJoin([TOpen] + ts, [TClose]);
    WeightJoin([TOpen], ts);
    WeightJoin([TOpen] + ts, [TClose]);
    forall k | 0 < k < |w| ensures Depth(w[..k]) > 0 {
      assert w[..k] == [TOpen] + ts[..k - 1];
      DepthJoin([TOpen], ts[..k - 1]);
    }
    assert w[..0] == [] && w[..|w|] == w;
  }

  lemma OneToken(t: Token)
    ensures Weight([t]) == WeightOf(t) && Depth([t]) == DepthOf(t)
  {
    assert [t][1..] == [];
  }

  /** Tokens that hold together and weigh this much. */
  ghost predicate Fits(ts: seq<Token>, w: nat) {
    ts != [] && Balanced(ts) && Weight(ts) == w
  }

  lemma FitsOne(t: Token)
    requires DepthOf(t) == 0
    ensures Fits([t], WeightOf(t))
  {
    BalancedOne(t);
    OneToken(t);
  }

  lemma FitsJoin(a: seq<Token>, b: seq<Token>, v: nat, w: nat)
    requires Fits(a, v) && Fits(b, w)
    ensures Fits(a + b, v + w)
  {
    BalancedJoin(a, b);
    WeightJoin(a, b);
  }

  lemma FitsAround(a: seq<Token>, t: Token, b: seq<Token>, v: nat, w: nat)
    requires Fits(a, v) && Fits(b, w) && DepthOf(t) == 0
    ensures Fits(a + [t] + b, v + WeightOf(t) + w)
  {
    FitsOne(t);
    FitsJoin(a, [t], v, WeightOf(t));
    FitsJoin(a + [t], b, v + WeightOf(t), w);
  }

  lemma FitsSplit(ts: seq<Token>, i: nat, v: nat, w: nat)
    requires i < |ts| && Fits(ts[..i], v) && Fits(ts[i + 1..], w) && DepthOf(ts[i]) == 0
    ensures Fits(ts, v + WeightOf(ts[i]) + w)
  {
    FitsAround(ts[..i], ts[i], ts[i + 1..], v, w);
    assert ts == ts[..i] + [ts[i]] + ts[i + 1..];
  }

  // --------------------------------------------------------- readings fit

  lemma {:induction false} ReadsFits(level: nat, v: Expr, ts: seq<Token>)
    requires Reads(level, v, ts)
    ensures Fits(ts, Size(v))
    decreases |ts|, 3 * level + 3
  {
    if Rule(level, v, ts) { RuleFits(level, v, ts); } else { ReadsFits(level - 1, v, ts); }
  }

  lemma {:induction false} RuleFits(level: nat, v: Expr, ts: seq<Token>)
    requires Rule(level, v, ts)
    ensures Fits(ts, Size(v))
    decreases |ts|, 3 * level + 2
  {
    if level == ATOM && Bracketed(v, ts) {
      BracketsFit(v, ts);
    } else {
      match v
      case Arith(_, _, _) => ArithFits(level, v, ts);
      case Compare(cmp, l, r) => CompareFits(cmp, l, r, ts);
      case In(_, _, _) => InFits(v, ts);
      case Like(_, _, _) => LikeFits(v, ts);
      case Not(_) => NotFits(v, ts);
      case And(vs) => ListFits(NOT, TAnd, vs, ts);
      case Or(vs) => ListFits(AND, TOr, vs, ts);
      case Call(fn, args) => CallFits(v, ts);
      case Num(t) => FitsOne(ts[0]);
      case Str(s) => FitsOne(ts[0]);
      case Null => FitsOne(ts[0]);
      case Name(p) => FitsOne(ts[0]);
    }
  }

  lemma {:induction false} ArithFits(level: nat, v: Expr, ts: seq<Token>)
    requires v.Arith? && Rule(level, v, ts) && !(level == ATOM && Bracketed(v, ts))
    ensures Fits(ts, Size(v))
    decreases |ts|, 1
  {
    var Arith(op, l, r) := v;
    var i: nat :| Has(ts, i, TArith(op)) && Reads(LeftLevel(op), l, ts[..i])
      && Reads(RightLevel(op), r, ts[i + 1..]);
    ReadsFits(LeftLevel(op), l, ts[..i]);
    ReadsFits(RightLevel(op), r, ts[i + 1..]);
    FitsSplit(ts, i, Size(l), Size(r));
  }

  lemma {:induction false} LikeFits(v: Expr, ts: seq<Token>)
    requires v.Like? && |ts| >= 2 && ts[|ts| - 2] == TLike(v.negated) && ts[|ts| - 1] == TStr(v.pattern)
    requires Reads(3, v.left, ts[..|ts| - 2])
    ensures Fits(ts, Size(v))
    decreases |ts|, 1
  {
    var n := |ts| - 2;
    ReadsFits(3, v.left, ts[..n]);
    FitsOne(ts[n + 1]);
    assert ts[n + 1..] == [ts[n + 1]];
    FitsSplit(ts, n, Size(v.left), 1);
  }

  lemma {:induction false} NotFits(v: Expr, ts: seq<Token>)
    requires v.Not? && ts != [] && ts[0].TNot? && Reads(NOT, v.inner, ts[1..])
    ensures Fits(ts, Size(v))
    decreases |ts|, 1
  {
    ReadsFits(NOT, v.inner, ts[1..]);
    FitsOne(ts[0]);
    FitsJoin([ts[0]], ts[1..], 1, Size(v.inner));
    assert ts == [ts[0]] + ts[1..];
  }

  lemma {:induction false} BracketsFit(v: Expr, ts: seq<Token>)
    requires Bracketed(v, ts)
    ensures Fits(ts, Size(v))
    decreases |ts|, 0
  {
    ReadsFits(OR, v, Inside(ts));
    BalancedWrap(Inside(ts));
    assert ts == Wrap(Inside(ts));
  }

  lemma {:induction false} CompareFits(cmp: CmpOp, l: Expr, r: Expr, ts: seq<Token>)
    requires IsComparison(cmp, l, r, ts)
    ensures Fits(ts, Size(l) + 1 + Size(r))
    decreases |ts|, 0
  {
    if i: nat :| Has(ts, i, TCompare(cmp)) && Reads(3, l, ts[..i]) && Reads(3, r, ts[i + 1..]) {
      ReadsFits(3, l, ts[..i]);
      ReadsFits(3, r, ts[i + 1..]);
      FitsSplit(ts, i, Size(l), Size(r));
    } else {
      var n := |ts| - 1;
      ReadsFits(3, l, ts[..n]);
      FitsOne(ts[n]);
      FitsJoin(ts[..n], [ts[n]], Size(l), 2);
      assert ts == ts[..n] + [ts[n]];
    }
  }

  lemma {:induction false} InFits(v: Expr, ts: seq<Token>)
    requires v.In? && Rule(PREDICATE, v, ts)
    ensures Fits(ts, Size(v))
    decreases |ts|, 1
  {
    var i: nat :| Has(ts, i, TIn(v.negated)) && Reads(3, v.left, ts[..i]) && InBrackets(ts[i + 1..])
      && AreItems(v.right.elts, Inside(ts[i + 1..]));
    ReadsFits(3, v.left, ts[..i]);
    ItemsFit(v.right.elts, ts[i + 1..]);
    FitsSplit(ts, i, Size(v.left), SizeAll(v.right.elts));
  }

  lemma {:induction false} CallFits(v: Expr, ts: seq<Token>)
    requires v.Call? && |ts| >= 3 && ts[0] == TFunc(v.fn) && InBrackets(ts[1..]) && AreItems(v.args, Inside(ts[1..]))
    ensures Fits(ts, Size(v))
    decreases |ts|, 1
  {
    ItemsFit(v.args, ts[1..]);
    FitsOne(ts[0]);
    FitsJoin([ts[0]], ts[1..], 1, SizeAll(v.args));
    assert ts == [ts[0]] + ts[1..];
  }

  lemma {:induction false} ItemsFit(vs: seq<Expr>, ts: seq<Token>)
    requires InBrackets(ts) && AreItems(vs, Inside(ts))
    ensures Fits(ts, SizeAll(vs))
    decreases |ts|, 0
  {
    if vs != [] { ListFits(OR, TComma, vs, Inside(ts)); }
    BalancedWrap(Inside(ts));
    assert ts == Wrap(Inside(ts));
  }

  lemma {:induction false} ListFits(level: nat, separator: Token, vs: seq<Expr>, ts: seq<Token>)
    requires AreListed(level, separator, vs, ts) && DepthOf(separator) == 0 && WeightOf(separator) == 1
    ensures Fits(ts, SizeAll(vs))
    decreases |ts|, 3 * level + 4
  {
    if |vs| == 1 {
      ReadsFits(level, vs[0], ts);
    } else {
      var i: nat :| Has(ts, i, separator) && Reads(level, vs[0], ts[..i])
        && AreListed(level, separator, vs[1..], ts[i + 1..]);
      ReadsFits(level, vs[0], ts[..i]);
      ListFits(level, separator, vs[1..], ts[i + 1..]);
      FitsSplit(ts, i, Size(vs[0]), SizeAll(vs[1..]));
    }
  }

  // ------------------------------------------------------------ printing fits

  /** The operands of a `||` chain. */
  function Operands(e: Expr): seq<Expr> {
    if e.Concat? then Operands(e.left) + Operands(e.right) else [e]
  }

  lemma {:induction false} OperandsAre(e: Expr)
    requires Supported(e)
    ensures Operands(e) != [] && forall x :: x in Operands(e) ==> Supported(x) && !x.Concat? && (x == e || x < e)
    ensures PrintChain(e) == PrintSeparated(Operands(e), TComma) && NormChain(e) == NormAll(Operands(e))
    decreases e
  {
    if e.Concat? {
      OperandsAre(e.left);
      OperandsAre(e.right);
      SeparatedJoin(Operands(e.left), Operands(e.right), TComma);
      NormAllJoin(Operands(e.left), Operands(e.right));
    } else {
      NormOne([e]);
    }
  }

  lemma {:induction false} SeparatedJoin(a: seq<Expr>, b: seq<Expr>, separator: Token)
    requires a != [] && b != [] && (forall e :: e in a + b ==> Supported(e))
    ensures forall e :: e in a || e in b ==> Supported(e)
    ensures PrintSeparated(a + b, separator) ==
      PrintSeparated(a, separator) + [separator] + PrintSeparated(b, separator)
  {
    forall e | e in a || e in b ensures e in a + b {}
    if |a| == 1 {
      assert (a + b)[1..] == b;
    } else {
      assert (a + b)[1..] == a[1..] + b;
      SeparatedJoin(a[1..], b, separator);
      Regroup(Print(a[0]), separator, PrintSeparated(a[1..], separator), [separator] + PrintSeparated(b, separator));
    }
  }

  lemma {:induction false} NormAllJoin(a: seq<Expr>, b: seq<Expr>)
    ensures NormAll(a + b) == NormAll(a) + NormAll(b)
  {
    if a == [] {
      assert a + b == b;
    } else {
      assert (a + b)[1..] == a[1..] + b;
      NormAllJoin(a[1..], b);
    }
  }

  lemma {:induction false} SizeOfNorms(es: seq<Expr>)
    requires es != []
    ensures SizeAll(NormAll(es)) ==
      if |es| == 1 then Size(Norm(es[0])) else Size(Norm(es[0])) + 1 + SizeAll(NormAll(es[1..]))
  {
    assert NormAll(es)[0] == Norm(es[0]) && NormAll(es)[1..] == NormAll(es[1..]);
  }

  /** Whatever its sorts, what is printed for a tree holds together and weighs what the tree does. */
  lemma {:induction false} PrintFits(e: Expr)
    requires Supported(e)
    ensures Fits(Print(e), Size(Norm(e)))
    decreases e, 1
  {
    match e
    case Num(t) => FitsOne(TNum(t));
    case Str(v) => FitsOne(TStr(v));
    case Null => FitsOne(TNull);
    case Name(p) => FitsOne(TName(p));
    case Neg(x) => FitsOne(TNum("-" + x.text));
    case Arith(op, l, r) =>
      PrintFits(l);
      PrintFits(r);
      ArithPrintFits(e);
    case Concat(_, _) =>
      OperandsAre(e);
      SeparatedFits(Operands(e), TComma, e);
      CallPrintFits("concat", PrintChain(e), SizeAll(NormAll(Operands(e))));
    case Call(fn, args) =>
      if args != [] { SeparatedFits(args, TComma, e); }
      CallPrintFits(fn, PrintSeparated(args, TComma), SizeAll(NormAll(args)));
    case Compare(cmp, l, r) =>
      PrintFits(l);
      PrintFits(r);
      ComparePrintFits(e);
    case In(negated, l, r) =>
      PrintFits(l);
      PrintFits(r);
      InPrintFits(e);
    case List(elts) =>
      if elts != [] { SeparatedFits(elts, TComma, e); }
      BalancedWrap(PrintSeparated(elts, TComma));
    case Like(negated, l, pattern) =>
      PrintFits(l);
      LikePrintFits(e);
    case And(vs) =>
      SeparatedFits(vs, TAnd, e);
      BalancedWrap(PrintSeparated(vs, TAnd));
    case Or(vs) =>
      SeparatedFits(vs, TOr, e);
      BalancedWrap(PrintSeparated(vs, TOr));
    case Not(x) =>
      PrintFits(x);
      NotPrintFits(e);
  }

  lemma ArithPrintFits(e: Expr)
    requires Supported(e) && e.Arith? && Fits(Print(e.left), Size(Norm(e.left)))
      && Fits(Print(e.right), Size(Norm(e.right)))
    ensures Fits(Print(e), Size(Norm(e)))
  {
    var Arith(op, l, r) := e;
    OperandFits(l, op, false);
    OperandFits(r, op, true);
    FitsAround(PrintOperand(l, op, false), TArith(op), PrintOperand(r, op, true), Size(Norm(l)), Size(Norm(r)));
  }

  lemma InPrintFits(e: Expr)
    requires Supported(e) && e.In? && Fits(Print(e.left), Size(Norm(e.left)))
      && Fits(Print(e.right), Size(Norm(e.right)))
    ensures Fits(Print(e), Size(Norm(e)))
  {
    var In(negated, l, r) := e;
    SideFits(l);
    SideFits(r);
    FitsAround(PrintSide(l), TIn(negated), PrintSide(r), Size(Norm(l)), Size(Norm(r)));
  }

  lemma ComparePrintFits(e: Expr)
    requires Supported(e) && e.Compare? && Fits(Print(e.left), Size(Norm(e.left)))
      && Fits(Print(e.right), Size(Norm(e.right)))
    ensures Fits(Print(e), Size(Norm(e)))
  {
    var Compare(cmp, l, r) := e;
    SideFits(l);
    SideFits(r);
    FitsOne(TIsNull(cmp.IsNot?));
    FitsJoin(PrintSide(l), [TIsNull(cmp.IsNot?)], Size(Norm(l)), 2);
    FitsAround(PrintSide(l), TCompare(cmp), PrintSide(r), Size(Norm(l)), Size(Norm(r)));
  }

  lemma LikePrintFits(e: Expr)
    requires Supported(e) && e.Like? && Fits(Print(e.left), Size(Norm(e.left)))
    ensures Fits(Print(e), Size(Norm(e)))
  {
    var Like(negated, l, pattern) := e;
    FitsOne(TStr(pattern));
    FitsAround(Print(l), TLike(negated), [TStr(pattern)], Size(Norm(l)), 1);
    assert Print(l) + [TLike(negated), TStr(pattern)] == Print(l) + [TLike(negated)] + [TStr(pattern)];
  }

  lemma NotPrintFits(e: Expr)
    requires Supported(e) && e.Not? && Fits(Print(e.inner), Size(Norm(e.inner)))
    ensures Fits(Print(e), Size(Norm(e)))
  {
    BalancedWrap(Print(e.inner));
    FitsOne(TNot);
    FitsJoin([TNot], Wrap(Print(e.inner)), 1, Size(Norm(e.inner)));
  }

  lemma OperandFits(e: Expr, parent: ArithOp, isRight: bool)
    requires Supported(e) && Fits(Print(e), Size(Norm(e)))
    ensures Fits(PrintOperand(e, parent, isRight), Size(Norm(e)))
  {
    BalancedWrap(Print(e));
  }

  lemma SideFits(e: Expr)
    requires Supported(e) && Fits(Print(e), Size(Norm(e)))
    ensures Fits(PrintSide(e), Size(Norm(e)))
  {
    BalancedWrap(Print(e));
  }

  lemma CallPrintFits(fn: string, inside: seq<Token>, w: nat)
    requires Balanced(inside) && Weight(inside) == w
    ensures Fits([TFunc(fn), TOpen] + inside + [TClose], 1 + w)
  {
    BalancedWrap(inside);
    FitsOne(TFunc(fn));
    FitsJoin([TFunc(fn)], Wrap(inside), 1, w);
    assert [TFunc(fn), TOpen] + inside + [TClose] == [TFunc(fn)] + Wrap(inside);
  }

  lemma {:induction false} SeparatedFits(es: seq<Expr>, separator: Token, whole: Expr)
    requires es != [] && (forall e :: e in es ==> Supported(e) && e < whole)
    requires DepthOf(separator) == 0 && WeightOf(separator) == 1
    ensures Fits(PrintSeparated(es, separator), SizeAll(NormAll(es)))
    decreases whole, 0, |es|
  {
    SizeOfNorms(es);
    assert es[0] in es && es[0] < whole;
    PrintFits(es[0]);
    if |es| > 1 {
      SeparatedFits(es[1..], separator, whole);
      FitsAround(
        Print(es[0]), separator, PrintSeparated(es[1..], separator), Size(Norm(es[0])), SizeAll(NormAll(es[1..])));
    }
  }

  // --------------------------------------------------------------- splitting

  /** Two cuts with the same weight before them are the same. */
  lemma CutIsUnique(ts: seq<Token>, i: nat, j: nat)
    requires i < |ts| && j < |ts| && WeightOf(ts[i]) > 0 && WeightOf(ts[j]) > 0 && Weight(ts[..i]) == Weight(ts[..j])
    ensures i == j
  {
    if i < j { HeavierLater(ts, i, j); } else if j < i { HeavierLater(ts, j, i); }
  }

  lemma HeavierLater(ts: seq<Token>, i: nat, j: nat)
    requires i < j <= |ts|
    ensures Weight(ts[..j]) >= Weight(ts[..i]) + WeightOf(ts[i])
  {
    var mid := [ts[i]] + ts[i + 1..j];
    assert ts[..j] == ts[..i] + mid;
    WeightJoin(ts[..i], mid);
    assert mid[1..] == ts[i + 1..j];
  }

  /** A cut in what was printed around a token, with a reading of the left part, is at that token. */
  lemma CutWherePrinted(a: seq<Token>, t: Token, b: seq<Token>, level: nat, v: Expr, i: nat)
    requires Fits(a, Size(v)) && WeightOf(t) > 0
    requires i < |a + [t] + b| && Reads(level, v, (a + [t] + b)[..i]) && WeightOf((a + [t] + b)[i]) > 0
    ensures i == |a| && (a + [t] + b)[i] == t && (a + [t] + b)[..i] == a && (a + [t] + b)[i + 1..] == b
  {
    var ts := a + [t] + b;
    ReadsFits(level, v, ts[..i]);
    assert ts[..|a|] == a && ts[|a|] == t && ts[|a| + 1..] == b;
    CutIsUnique(ts, i, |a|);
  }

  // ------------------------------------------------------------- parentheses

  /** One pair of parentheses around it all. */
  ghost predicate Enclosed(ts: seq<Token>) {
    InBrackets(ts) && Balanced(Inside(ts))
  }

  lemma WrapIsEnclosed(ts: seq<Token>)
    requires Balanced(ts)
    ensures Enclosed(Wrap(ts)) && Inside(Wrap(ts)) == ts
  {
    assert Inside(Wrap(ts)) == ts;
  }

  lemma EnclosedAllThrough(ts: seq<Token>, k: nat)
    requires Enclosed(ts) && 0 < k < |ts|
    ensures Depth(ts[..k]) > 0
  {
    BalancedWrap(Inside(ts));
    assert ts == Wrap(Inside(ts));
  }

  /** What starts with something whole and goes on is not enclosed. */
  lemma NotEnclosed(a: seq<Token>, b: seq<Token>)
    requires a != [] && b != [] && Balanced(a)
    ensures !Enclosed(a + b)
  {
    assert (a + b)[..|a|] == a;
    if Enclosed(a + b) { EnclosedAllThrough(a + b, |a|); }
  }

  /** A reading of enclosed tokens is one of what is inside. */
  lemma {:induction false} Unwrap(level: nat, v: Expr, ts: seq<Token>)
    requires Balanced(ts) && Reads(level, v, Wrap(ts))
    ensures Reads(OR, v, ts)
    decreases level
  {
    var w := Wrap(ts);
    WrapIsEnclosed(ts);
    if !Rule(level, v, w) {
      Unwrap(level - 1, v, ts);
    } else {
      OnlyBrackets(level, v, ts);
    }
  }

  lemma SplitsNowhere(level: nat, v: Expr, ts: seq<Token>, i: nat)
    requires Balanced(ts) && i < |Wrap(ts)|
    ensures !Reads(level, v, Wrap(ts)[..i])
  {
    BalancedWrap(ts);
    if Reads(level, v, Wrap(ts)[..i]) { ReadsFits(level, v, Wrap(ts)[..i]); }
  }

  lemma NoComparison(cmp: CmpOp, l: Expr, r: Expr, ts: seq<Token>)
    requires Balanced(ts)
    ensures !IsComparison(cmp, l, r, Wrap(ts))
  {
    var w := Wrap(ts);
    forall i: nat | i < |w| ensures !Reads(3, l, w[..i]) { SplitsNowhere(3, l, ts, i); }
  }

  lemma NoListing(level: nat, separator: Token, vs: seq<Expr>, ts: seq<Token>)
    requires Balanced(ts) && |vs| >= 2
    ensures !AreListed(level, separator, vs, Wrap(ts))
  {
    var w := Wrap(ts);
    forall i: nat | i < |w| ensures !Reads(level, vs[0], w[..i]) { SplitsNowhere(level, vs[0], ts, i); }
  }

  lemma OnlyBrackets(level: nat, v: Expr, ts: seq<Token>)
    requires Balanced(ts) && Rule(level, v, Wrap(ts))
    ensures level == ATOM && Bracketed(v, Wrap(ts))
  {
    var w := Wrap(ts);
    match v
    case Arith(op, l, r) =>
      forall i: nat | i < |w| ensures !Reads(LeftLevel(op), l, w[..i]) { SplitsNowhere(LeftLevel(op), l, ts, i); }
    case Compare(cmp, l, r) => NoComparison(cmp, l, r, ts);
    case In(_, l, _) =>
      forall i: nat | i < |w| ensures !Reads(3, l, w[..i]) { SplitsNowhere(3, l, ts, i); }
    case And(vs) => if |vs| >= 2 { NoListing(NOT, TAnd, vs, ts); }
    case Or(vs) => if |vs| >= 2 { NoListing(AND, TOr, vs, ts); }
    case _ =>
  }

  /** The level whose rule reads a tree that has no parentheses around it. */
  function RuleLevel(v: Expr): nat {
    match v
    case Arith(op, _, _) => OpLevel(op)
    case Compare(_, _, _) => PREDICATE
    case In(_, _, _) => PREDICATE
    case Like(_, _, _) => PREDICATE
    case Not(_) => NOT
    case And(_) => AND
    case Or(_) => OR
    case _ => ATOM
  }

  lemma {:induction false} TopRule(level: nat, v: Expr, ts: seq<Token>)
    requires Reads(level, v, ts) && !Enclosed(ts)
    ensures level >= RuleLevel(v) && Rule(RuleLevel(v), v, ts) && !Bracketed(v, ts)
    decreases level
  {
    if Bracketed(v, ts) { ReadsFits(OR, v, Inside(ts)); }
    if !Rule(level, v, ts) { TopRule(level - 1, v, ts); }
  }

  /** Nothing is ever read as a list. */
  lemma {:induction false} NoList(level: nat, v: Expr, ts: seq<Token>)
    requires Reads(level, v, ts)
    ensures !v.List?
    decreases |ts|, level
  {
    if v.List? {
      if Rule(level, v, ts) {
        assert Bracketed(v, ts);
        NoList(OR, v, Inside(ts));
      } else { NoList(level - 1, v, ts); }
    }
  }

  // ------------------------------------------------------- readings are sorted

  /** An operand of an operator, read where the printer put it, is well-sorted and is an operand. */
  lemma {:induction false} OperandSorted(e: Expr, ts: seq<Token>, level: nat, wrapped: bool)
    requires Supported(e) && level <= 3 && ts == (if wrapped then Wrap(Print(e)) else Print(e))
    requires wrapped ==> e.Arith?
    requires Reads(level, Norm(e), ts)
    ensures IsOperand(e) && WellSorted(e)
    decreases e, 2
  {
    PrintFits(e);
    NoList(level, Norm(e), ts);
    if wrapped {
      Unwrap(level, Norm(e), Print(e));
    } else {
      Climbs(level, OR, Norm(e), ts);
      if e.Compare? || e.In? || e.Like? || e.Not? {
        PrintIsOpen(e);
        TopRule(level, Norm(e), ts);
      }
    }
    ReadIsSorted(e);
  }

  /** Only AND, OR and lists bring parentheses of their own around everything. */
  lemma PrintIsOpen(e: Expr)
    requires Supported(e) && !e.And? && !e.Or? && !e.List?
    ensures !Enclosed(Print(e))
  {
    match e
    case Arith(op, l, r) =>
      PrintFits(l);
      OperandFits(l, op, false);
      NotEnclosed(PrintOperand(l, op, false), [TArith(op)] + PrintOperand(r, op, true));
      RegroupOne(PrintOperand(l, op, false), TArith(op), PrintOperand(r, op, true));
    case Compare(cmp, l, r) =>
      PrintFits(l);
      SideFits(l);
      if (cmp.Is? || cmp.IsNot?) && r.Null? {
        NotEnclosed(PrintSide(l), [TIsNull(cmp.IsNot?)]);
      } else {
        NotEnclosed(PrintSide(l), [TCompare(cmp)] + PrintSide(r));
        RegroupOne(PrintSide(l), TCompare(cmp), PrintSide(r));
      }
    case In(negated, l, r) =>
      PrintFits(l);
      SideFits(l);
      NotEnclosed(PrintSide(l), [TIn(negated)] + PrintSide(r));
      RegroupOne(PrintSide(l), TIn(negated), PrintSide(r));
    case Like(_, _, pattern) => assert Print(e)[|Print(e)| - 1] == TStr(pattern);
    case _ =>
  }

  // -------------------------------------------- readings of what was printed

  lemma ArithRead(op: ArithOp, v: Expr, w: Expr, a: seq<Token>, b: seq<Token>)
    requires Rule(OpLevel(op), Arith(op, v, w), a + [TArith(op)] + b) && Fits(a, Size(v))
    requires !Bracketed(Arith(op, v, w), a + [TArith(op)] + b)
    ensures Reads(LeftLevel(op), v, a) && Reads(RightLevel(op), w, b)
  {
    var ts := a + [TArith(op)] + b;
    var i: nat :| Has(ts, i, TArith(op)) && Reads(LeftLevel(op), v, ts[..i]) && Reads(RightLevel(op), w, ts[i + 1..]);
    CutWherePrinted(a, TArith(op), b, LeftLevel(op), v, i);
  }

  lemma CompareRead(cmp: CmpOp, v: Expr, w: Expr, a: seq<Token>, b: seq<Token>)
    requires Rule(PREDICATE, Compare(cmp, v, w), a + [TCompare(cmp)] + b) && Fits(a, Size(v))
    requires w.Null? ==> b == [TNull]
    ensures Reads(3, v, a) && Reads(3, w, b)
  {
    var ts := a + [TCompare(cmp)] + b;
    assert IsComparison(cmp, v, w, ts);
    assert w.Null? ==> ts[|ts| - 1] == TNull;
    var i: nat :| Has(ts, i, TCompare(cmp)) && Reads(3, v, ts[..i]) && Reads(3, w, ts[i + 1..]);
    CutWherePrinted(a, TCompare(cmp), b, 3, v, i);
  }

  lemma NullTestRead(cmp: CmpOp, v: Expr, a: seq<Token>)
    requires Rule(PREDICATE, Compare(cmp, v, Null), a + [TIsNull(cmp.IsNot?)]) && Fits(a, Size(v))
    ensures Reads(3, v, a)
  {
    var t := TIsNull(cmp.IsNot?);
    var ts := a + [t];
    assert IsComparison(cmp, v, Null, ts);
    assert ts[..|ts| - 1] == a && a + [t] + [] == ts;
    forall i: nat | Has(ts, i, TCompare(cmp)) ensures !Reads(3, v, ts[..i]) {
      if Reads(3, v, ts[..i]) { CutWherePrinted(a, t, [], 3, v, i); }
    }
  }

  lemma InRead(negated: bool, v: Expr, w: Expr, a: seq<Token>, b: seq<Token>)
    requires Rule(PREDICATE, In(negated, v, w), a + [TIn(negated)] + b) && Fits(a, Size(v))
    ensures Reads(3, v, a) && w.List? && InBrackets(b) && AreItems(w.elts, Inside(b))
  {
    var ts := a + [TIn(negated)] + b;
    var i: nat :| Has(ts, i, TIn(negated)) && Reads(3, v, ts[..i]) && InBrackets(ts[i + 1..])
      && AreItems(w.elts, Inside(ts[i + 1..]));
    CutWherePrinted(a, TIn(negated), b, 3, v, i);
  }

  lemma LikeRead(negated: bool, v: Expr, pattern: string, a: seq<Token>)
    requires Rule(PREDICATE, Like(negated, v, pattern), a + [TLike(negated), TStr(pattern)])
    ensures Reads(3, v, a)
  {
    var ts := a + [TLike(negated), TStr(pattern)];
    assert ts[..|ts| - 2] == a;
  }

  /** The arguments are read from what is printed between the parentheses. */
  lemma CallRead(fn: string, args: seq<Expr>, inside: seq<Token>)
    requires Rule(ATOM, Call(fn, args), [TFunc(fn), TOpen] + inside + [TClose])
    ensures AreItems(args, inside)
  {
    var ts := [TFunc(fn), TOpen] + inside + [TClose];
    assert ts[0] == TFunc(fn) && ts[1..] == Wrap(inside);
    InsideWrap(inside);
  }

  lemma InsideWrap(ts: seq<Token>)
    ensures Inside(Wrap(ts)) == ts
  {
  }

  lemma NotRead(v: Expr, ts: seq<Token>)
    requires Rule(NOT, Not(v), [TNot] + Wrap(ts)) && Balanced(ts)
    ensures Reads(OR, v, ts)
  {
    assert ([TNot] + Wrap(ts))[1..] == Wrap(ts);
    Unwrap(NOT, v, ts);
  }

  /** A list is read one by one where it was printed. */
  lemma ListRead(level: nat, separator: Token, vs: seq<Expr>, a: seq<Token>, b: seq<Token>)
    requires |vs| > 1 && AreListed(level, separator, vs, a + [separator] + b) && Fits(a, Size(vs[0]))
    requires WeightOf(separator) == 1
    ensures Reads(level, vs[0], a) && AreListed(level, separator, vs[1..], b)
  {
    var ts := a + [separator] + b;
    var i: nat :| Has(ts, i, separator) && Reads(level, vs[0], ts[..i])
      && AreListed(level, separator, vs[1..], ts[i + 1..]);
    CutWherePrinted(a, separator, b, level, vs[0], i);
  }

  /** The operands of AND or OR are read from what is printed between its parentheses. */
  lemma JunctionRead(v: Expr, separator: Token, level: nat, ts: seq<Token>)
    requires (v.And? && separator == TAnd && level == NOT) || (v.Or? && separator == TOr && level == AND)
    requires Reads(OR, v, Wrap(ts)) && Balanced(ts) && !Enclosed(ts)
    ensures AreListed(level, separator, v.values, ts)
  {
    Unwrap(OR, v, ts);
    TopRule(OR, v, ts);
  }

  // --------------------------------------------------------- what is read is sorted

  /** A tree that can be read back from what is printed for it is well-sorted. */
  lemma {:induction false} ReadIsSorted(e: Expr)
    requires Supported(e) && Reads(OR, Norm(e), Print(e))
    ensures WellSorted(e) && !e.List?
    decreases e, 1
  {
    NoList(OR, Norm(e), Print(e));
    match e
    case Arith(_, _, _) => ArithSorted(e);
    case Concat(_, _) => ConcatSorted(e);
    case Call(_, _) => CallSorted(e);
    case Compare(_, _, _) => CompareSorted(e);
    case In(_, _, _) => InSorted(e);
    case Like(_, _, _) => LikeSorted(e);
    case Not(_) => NotSorted(e);
    case And(_) => JunctionSorted(e, TAnd, NOT);
    case Or(_) => JunctionSorted(e, TOr, AND);
    case _ =>
  }

  lemma {:induction false} ArithSorted(e: Expr)
    requires Supported(e) && e.Arith? && Reads(OR, Norm(e), Print(e))
    ensures WellSorted(e)
    decreases e, 0
  {
    var Arith(op, l, r) := e;
    PrintIsOpen(e);
    TopRule(OR, Arith(op, Norm(l), Norm(r)), Print(e));
    PrintFits(l);
    OperandFits(l, op, false);
    ArithRead(op, Norm(l), Norm(r), PrintOperand(l, op, false), PrintOperand(r, op, true));
    OperandSorted(l, PrintOperand(l, op, false), LeftLevel(op), WrapsOperand(l, op, false));
    OperandSorted(r, PrintOperand(r, op, true), RightLevel(op), WrapsOperand(r, op, true));
  }

  lemma {:induction false} CompareSorted(e: Expr)
    requires Supported(e) && e.Compare? && Reads(OR, Norm(e), Print(e))
    ensures WellSorted(e)
    decreases e, 0
  {
    var Compare(cmp, l, r) := e;
    PrintIsOpen(e);
    TopRule(OR, Compare(cmp, Norm(l), Norm(r)), Print(e));
    PrintFits(l);
    SideFits(l);
    if (cmp.Is? || cmp.IsNot?) && r.Null? {
      NullTestRead(cmp, Norm(l), PrintSide(l));
    } else {
      CompareRead(cmp, Norm(l), Norm(r), PrintSide(l), PrintSide(r));
      OperandSorted(r, PrintSide(r), 3, r.Arith?);
    }
    OperandSorted(l, PrintSide(l), 3, l.Arith?);
  }

  lemma {:induction false} InSorted(e: Expr)
    requires Supported(e) && e.In? && Reads(OR, Norm(e), Print(e))
    ensures WellSorted(e)
    decreases e, 0
  {
    var In(negated, l, r) := e;
    PrintIsOpen(e);
    TopRule(OR, In(negated, Norm(l), Norm(r)), Print(e));
    PrintFits(l);
    SideFits(l);
    InRead(negated, Norm(l), Norm(r), PrintSide(l), PrintSide(r));
    OperandSorted(l, PrintSide(l), 3, l.Arith?);
    ListIsList(r);
    var inside := PrintSeparated(r.elts, TComma);
    assert PrintSide(r) == Wrap(inside);
    InsideWrap(inside);
    assert AreItems(NormAll(r.elts), inside);
    forall x | x in r.elts ensures x < e { assert x < r; }
    ItemsSorted(r.elts, e);
  }

  lemma ListIsList(e: Expr)
    requires Norm(e).List?
    ensures e.List? && Norm(e).elts == NormAll(e.elts)
  {
  }

  lemma {:induction false} LikeSorted(e: Expr)
    requires Supported(e) && e.Like? && Reads(OR, Norm(e), Print(e))
    ensures WellSorted(e)
    decreases e, 0
  {
    var Like(negated, l, pattern) := e;
    PrintIsOpen(e);
    TopRule(OR, Like(negated, Norm(l), pattern), Print(e));
    LikeRead(negated, Norm(l), pattern, Print(l));
    OperandSorted(l, Print(l), 3, false);
  }

  lemma {:induction false} NotSorted(e: Expr)
    requires Supported(e) && e.Not? && Reads(OR, Norm(e), Print(e))
    ensures WellSorted(e)
    decreases e, 0
  {
    PrintIsOpen(e);
    TopRule(OR, Not(Norm(e.inner)), Print(e));
    PrintFits(e.inner);
    NotRead(Norm(e.inner), Print(e.inner));
    ReadIsSorted(e.inner);
  }

  lemma {:induction false} ConcatSorted(e: Expr)
    requires Supported(e) && e.Concat? && Reads(OR, Norm(e), Print(e))
    ensures WellSorted(e)
    decreases e, 0
  {
    PrintIsOpen(e);
    TopRule(OR, Call("concat", NormChain(e)), Print(e));
    OperandsAre(e);
    CallRead("concat", NormChain(e), PrintChain(e));
    ItemsSorted(Operands(e), e);
    OperandsSorted(e);
  }

  lemma {:induction false} CallSorted(e: Expr)
    requires Supported(e) && e.Call? && Reads(OR, Norm(e), Print(e))
    ensures WellSorted(e)
    decreases e, 0
  {
    PrintIsOpen(e);
    TopRule(OR, Call(e.fn, NormAll(e.args)), Print(e));
    CallRead(e.fn, NormAll(e.args), PrintSeparated(e.args, TComma));
    ItemsSorted(e.args, e);
  }

  lemma {:induction false} JunctionSorted(e: Expr, separator: Token, level: nat)
    requires Supported(e) && Reads(OR, Norm(e), Print(e))
    requires (e.And? && separator == TAnd && level == NOT) || (e.Or? && separator == TOr && level == AND)
    ensures WellSorted(e)
    decreases e, 0
  {
    var vs := e.values;
    var ts := PrintSeparated(vs, separator);
    SeparatedFits(vs, separator, e);
    PrintFits(vs[0]);
    NotEnclosed(Print(vs[0]), [separator] + PrintSeparated(vs[1..], separator));
    RegroupOne(Print(vs[0]), separator, PrintSeparated(vs[1..], separator));
    JunctionRead(Norm(e), separator, level, ts);
    ListSorted(level, separator, vs, e);
  }

  lemma {:induction false} ItemsSorted(es: seq<Expr>, whole: Expr)
    requires forall e :: e in es ==> Supported(e) && e < whole
    requires AreItems(NormAll(es), PrintSeparated(es, TComma))
    ensures forall e :: e in es ==> WellSorted(e) && !e.List?
    decreases whole, 0, |es| + 1
  {
    if es != [] { ListSorted(OR, TComma, es, whole); }
  }

  lemma {:induction false} ListSorted(level: nat, separator: Token, es: seq<Expr>, whole: Expr)
    requires es != [] && level <= OR && (forall e :: e in es ==> Supported(e) && e < whole)
    requires DepthOf(separator) == 0 && WeightOf(separator) == 1
    requires AreListed(level, separator, NormAll(es), PrintSeparated(es, separator))
    ensures forall e :: e in es ==> WellSorted(e) && !e.List?
    decreases whole, 0, |es|
  {
    assert es[0] in es && es[0] < whole;
    var norms := NormAll(es);
    assert norms[0] == Norm(es[0]) && norms[1..] == NormAll(es[1..]);
    if |es| > 1 {
      PrintFits(es[0]);
      ListRead(level, separator, norms, Print(es[0]), PrintSeparated(es[1..], separator));
      ListSorted(level, separator, es[1..], whole);
    }
    Climbs(level, OR, norms[0], Print(es[0]));
    ReadIsSorted(es[0]);
    assert es == [es[0]] + es[1..];
  }

  /** A chain is well-sorted if its operands are. */
  lemma {:induction false} OperandsSorted(e: Expr)
    requires forall x :: x in Operands(e) ==> WellSorted(x) && !x.List?
    ensures WellSorted(e) && !e.List?
  {
    if e.Concat? {
      OperandsSorted(e.left);
      OperandsSorted(e.right);
    } else {
      assert e in Operands(e);
    }
  }

  // --------------------------------------------------------------- the result

  /** A filter is printed, and read back from what is printed, exactly if it is supported and
      well-sorted (and no bare list). */
  lemma RoundTripIffWellSorted(e: Expr)
    ensures FilterSql(e).Ok? && Parse(FilterSql(e).value) == Some(Norm(e)) <==>
      Supported(e) && WellSorted(e) && !e.List?
  {
    if Good(e) {
      RoundTrip(e);
    } else if Supported(e) && Parse(Print(e)) == Some(Norm(e)) {
      TakesOr(Print(e), Norm(e), []);
      assert FilterGrammar.Taken(Print(e), []) == Print(e);
      ReadIsSorted(e);
    }
  }
}
