/** Printing loses no grouping: reading the printed tokens gives the tree back, up to folding
    `||` chains into one `concat` call and a minus sign into its literal. */
module FilterRoundTrip {
  import opened Models
  import opened FilterPrinter
  import opened FilterParser

  /** What can stand beside an operator without parentheses of its own: anything but a
      comparison, membership test, LIKE, NOT or list. AND and OR bring their own. */
  predicate IsOperand(e: Expr) {
    !e.Compare? && !e.Chain? && !e.In? && !e.Like? && !e.Not? && !e.List?
  }

  /** Operands under arithmetic and comparisons, lists only after IN. */
  predicate WellSorted(e: Expr) {
    match e
    case Arith(_, l, r) => IsOperand(l) && IsOperand(r) && WellSorted(l) && WellSorted(r)
    case Concat(l, r) => !l.List? && !r.List? && WellSorted(l) && WellSorted(r)
    case Call(_, args) => forall a :: a in args ==> !a.List? && WellSorted(a)
    case Compare(_, l, r) => IsOperand(l) && IsOperand(r) && WellSorted(l) && WellSorted(r)
    case Chain(_, _) => false
    case In(_, l, r) => IsOperand(l) && WellSorted(l) && r.List? && WellSorted(r)
    case List(elts) => forall a :: a in elts ==> !a.List? && WellSorted(a)
    case Like(_, l, _) => IsOperand(l) && WellSorted(l)
    case And(vs) => forall v :: v in vs ==> !v.List? && WellSorted(v)
    case Or(vs) => forall v :: v in vs ==> !v.List? && WellSorted(v)
    case Not(x) => !x.List? && WellSorted(x)
    case _ => true
  }

  /** The same tree with each `||` chain as one call and each negated literal as a literal. */
  function Norm(e: Expr): Expr
    decreases e, 0
  {
    match e
    case Neg(Num(t)) => Num("-" + t)
    case Arith(op, l, r) => Arith(op, Norm(l), Norm(r))
    case Concat(l, r) => Call("concat", NormChain(l) + NormChain(r))
    case Call(fn, args) => Call(fn, NormAll(args))
    case Compare(cmp, l, r) => Compare(cmp, Norm(l), Norm(r))
    case In(negated, l, r) => In(negated, Norm(l), Norm(r))
    case List(elts) => List(NormAll(elts))
    case Like(negated, l, p) => Like(negated, Norm(l), p)
    case And(vs) => And(NormAll(vs))
    case Or(vs) => Or(NormAll(vs))
    case Not(x) => Not(Norm(x))
    case _ => e
  }

  function NormAll(es: seq<Expr>): (ns: seq<Expr>)
    ensures |ns| == |es|
    decreases es, 0
  {
    if es == [] then [] else [Norm(es[0])] + NormAll(es[1..])
  }

  lemma NormOne(es: seq<Expr>)
    requires |es| == 1
    ensures NormAll(es) == [Norm(es[0])]
  {
    assert NormAll(es[1..]) == [];
  }

  /** The operands of a chain, from left to right. */
  function NormChain(e: Expr): seq<Expr>
    decreases e, 1
  {
    if e.Concat? then NormChain(e.left) + NormChain(e.right) else [Norm(e)]
  }

  /** How tightly the first token binds to what stands before it; 0 ends any expression. */
  function Bind(ts: seq<Token>): nat {
    if ts == [] then 0 else
      match ts[0]
      case TClose => 0
      case TComma => 0
      case TOr => 1
      case TAnd => 2
      case TCompare(_) => 3
      case TIsNull(_) => 3
      case TIn(_) => 3
      case TLike(_) => 3
      case TArith(op) => if IsSum(op) then 4 else if IsProduct(op) then 5 else 6
      case _ => 7
  }

  predicate IsAtom(e: Expr) {
    IsOperand(e) && !e.Arith?
  }

  // ------------------------------------------------------------ first tokens

  /** A printed tree starts with a token that continues nothing, and with NOT only if it is one. */
  lemma {:induction false} Starts(e: Expr)
    requires Supported(e) && WellSorted(e)
    ensures Print(e) != [] && Bind(Print(e)) == 7
    ensures !e.Not? ==> !Print(e)[0].TNot?
    decreases e
  {
    if e.Arith? {
      Starts(e.left);
      assert Print(e)[0] == PrintOperand(e.left, e.op, false)[0];
    } else if e.Compare? || e.In? {
      Starts(e.left);
      assert Print(e)[0] == PrintSide(e.left)[0];
    } else if e.Like? {
      Starts(e.left);
      assert Print(e)[0] == Print(e.left)[0];
    }
  }

  // -------------------------------------------------------------- regrouping

  /** What is left to read after `a`, and after the token that follows it. */
  lemma Regroup(a: seq<Token>, t: Token, b: seq<Token>, rest: seq<Token>)
    ensures (a + [t] + b) + rest == a + ([t] + (b + rest))
    ensures ([t] + (b + rest))[1..] == b + rest
  {
  }

  lemma RegroupOne(a: seq<Token>, t: Token, b: seq<Token>)
    ensures a + [t] + b == a + ([t] + b)
  {
  }

  lemma RegroupWrapped(a: seq<Token>, rest: seq<Token>)
    ensures Wrap(a) + rest == [TOpen] + (a + ([TClose] + rest))
    ensures ([TOpen] + (a + ([TClose] + rest)))[1..] == a + ([TClose] + rest)
    ensures ([TClose] + rest)[1..] == rest
  {
  }

  lemma RegroupCall(fn: string, a: seq<Token>, rest: seq<Token>)
    ensures ([TFunc(fn), TOpen] + a + [TClose]) + rest == [TFunc(fn), TOpen] + (a + ([TClose] + rest))
    ensures ([TFunc(fn), TOpen] + (a + ([TClose] + rest)))[2..] == a + ([TClose] + rest)
  {
  }

  // ---------------------------------------------- from atoms to whole trees

  /** An atom followed by a looser token is read as far as that token at every level. */
  lemma AtomIsPower(ts: seq<Token>, v: Expr, rest: seq<Token>)
    requires ParseAtom(ts) == Done(v, rest) && Bind(rest) < 6
    ensures ParsePower(ts) == Done(v, rest)
  {
  }

  lemma PowerIsProduct(ts: seq<Token>, v: Expr, rest: seq<Token>)
    requires ParsePower(ts) == Done(v, rest)
    ensures ParseProduct(ts) == ProductTail(v, rest)
  {
  }

  lemma AtomIsProduct(ts: seq<Token>, v: Expr, rest: seq<Token>)
    requires ParseAtom(ts) == Done(v, rest) && Bind(rest) < 6
    ensures ParseProduct(ts) == ProductTail(v, rest)
  {
    AtomIsPower(ts, v, rest);
    PowerIsProduct(ts, v, rest);
  }

  lemma ProductIsSum(ts: seq<Token>, v: Expr, rest: seq<Token>)
    requires ParseProduct(ts) == ProductTail(v, rest) && Bind(rest) < 5
    ensures ParseSum(ts) == SumTail(v, rest)
  {
  }

  lemma SumEnds(v: Expr, rest: seq<Token>)
    requires Bind(rest) < 4
    ensures SumTail(v, rest) == Done(v, rest)
  {
  }

  lemma SumIsPredicate(ts: seq<Token>, v: Expr, rest: seq<Token>)
    requires ParseSum(ts) == Done(v, rest) && Bind(rest) < 3
    ensures ParsePredicate(ts) == Done(v, rest)
  {
  }

  lemma AtomIsPredicate(ts: seq<Token>, v: Expr, rest: seq<Token>)
    requires ParseAtom(ts) == Done(v, rest) && Bind(rest) < 3
    ensures ParsePredicate(ts) == Done(v, rest)
  {
    AtomIsPower(ts, v, rest);
    PowerIsProduct(ts, v, rest);
    ProductIsSum(ts, v, rest);
    SumEnds(v, rest);
    SumIsPredicate(ts, v, rest);
  }

  lemma NotIsOr(ts: seq<Token>, v: Expr, rest: seq<Token>)
    requires ParseNot(ts) == Done(v, rest) && Bind(rest) < 1
    ensures ParseOr(ts) == Done(v, rest)
  {
    assert ParseAnds(ts) == Done([v], rest);
    assert ParseAnd(ts) == Done(v, rest);
    assert ParseOrs(ts) == Done([v], rest);
  }

  // -------------------------------------------------------- the round trip

  predicate Good(e: Expr) {
    Supported(e) && WellSorted(e) && !e.List?
  }

  predicate AllGood(es: seq<Expr>) {
    forall i :: 0 <= i < |es| ==> Good(es[i])
  }

  lemma GoodElements(e: Expr)
    requires Supported(e) && WellSorted(e) && e.List?
    ensures AllGood(e.elts) && forall x :: x in e.elts ==> Supported(x)
  {
    forall i | 0 <= i < |e.elts| ensures Good(e.elts[i]) { assert e.elts[i] in e.elts; }
  }

  lemma {:induction false} ReadsWrapped(e: Expr, rest: seq<Token>)
    requires Good(e)
    ensures ParseAtom(Wrap(Print(e)) + rest) == Done(Norm(e), rest)
    decreases e, 11
  {
    ReadsOr(e, [TClose] + rest);
    RegroupWrapped(Print(e), rest);
  }

  lemma {:induction false} ReadsOr(e: Expr, rest: seq<Token>)
    requires Good(e) && Bind(rest) < 1
    ensures ParseOr(Print(e) + rest) == Done(Norm(e), rest)
    decreases e, 10
  {
    ReadsNot(e, rest);
    NotIsOr(Print(e) + rest, Norm(e), rest);
  }

  lemma {:induction false} ReadsNot(e: Expr, rest: seq<Token>)
    requires Good(e) && Bind(rest) < 3
    ensures ParseNot(Print(e) + rest) == Done(Norm(e), rest)
    decreases e, 9
  {
    if e.Not? {
      var inner := Wrap(Print(e.inner)) + rest;
      ReadsWrapped(e.inner, rest);
      AtomIsPredicate(inner, Norm(e.inner), rest);
      assert Print(e) + rest == [TNot] + inner;
    } else {
      Starts(e);
      ReadsPredicate(e, rest);
    }
  }

  lemma {:induction false} ReadsPredicate(e: Expr, rest: seq<Token>)
    requires Good(e) && !e.Not? && Bind(rest) < 3
    ensures ParsePredicate(Print(e) + rest) == Done(Norm(e), rest)
    decreases e, 8
  {
    if e.Compare? {
      ReadsCompare(e, rest);
    } else if e.In? {
      ReadsIn(e, rest);
    } else if e.Like? {
      var tail := [TLike(e.negated), TStr(e.pattern)] + rest;
      ReadsSum(e.left, tail);
      SumEnds(Norm(e.left), tail);
      assert Print(e) + rest == Print(e.left) + tail;
      assert tail[2..] == rest;
    } else {
      ReadsSum(e, rest);
      SumEnds(Norm(e), rest);
      SumIsPredicate(Print(e) + rest, Norm(e), rest);
    }
  }

  lemma {:induction false} ReadsIn(e: Expr, rest: seq<Token>)
    requires Good(e) && e.In?
    ensures ParsePredicate(Print(e) + rest) == Done(Norm(e), rest)
    decreases e, 7
  {
    var In(negated, l, r) := e;
    GoodElements(r);
    var items := PrintSeparated(r.elts, TComma);
    ReadsItems(r.elts, rest);
    Regroup(PrintSide(l), TIn(negated), Wrap(items), rest);
    RegroupWrapped(items, rest);
    assert PrintSide(r) == Wrap(items);
    ReadsSide(l, [TIn(negated)] + (Wrap(items) + rest));
    InEnds(PrintSide(l) + ([TIn(negated)] + (Wrap(items) + rest)), negated, Norm(l), items + ([TClose] + rest));
  }

  lemma InEnds(ts: seq<Token>, negated: bool, left: Expr, inside: seq<Token>)
    requires ParseSum(ts) == Done(left, [TIn(negated)] + ([TOpen] + inside)) && ParseItems(inside).Done?
    ensures ParsePredicate(ts) == Done(In(negated, left, List(ParseItems(inside).value)), ParseItems(inside).rest)
  {
    assert ([TIn(negated)] + ([TOpen] + inside))[2..] == inside;
  }

  lemma {:induction false} ReadsCompare(e: Expr, rest: seq<Token>)
    requires Good(e) && e.Compare? && Bind(rest) < 3
    ensures ParsePredicate(Print(e) + rest) == Done(Norm(e), rest)
    decreases e, 7
  {
    var Compare(cmp, l, r) := e;
    if (cmp.Is? || cmp.IsNot?) && r.Null? {
      var test := TIsNull(cmp.IsNot?);
      ReadsSide(l, [test] + rest);
      assert (PrintSide(l) + [test]) + rest == PrintSide(l) + ([test] + rest);
      assert ([test] + rest)[1..] == rest;
    } else {
      Regroup(PrintSide(l), TCompare(cmp), PrintSide(r), rest);
      ReadsSide(l, [TCompare(cmp)] + (PrintSide(r) + rest));
      ReadsSide(r, rest);
    }
  }

  /** A side of a comparison, up to the comparison or what ends it. */
  lemma {:induction false} ReadsSide(e: Expr, rest: seq<Token>)
    requires Good(e) && IsOperand(e) && Bind(rest) < 4
    ensures ParseSum(PrintSide(e) + rest) == Done(Norm(e), rest)
    decreases e, 12
  {
    if e.Arith? {
      ReadsWrapped(e, rest);
      AtomIsProduct(Wrap(Print(e)) + rest, Norm(e), rest);
      ProductIsSum(Wrap(Print(e)) + rest, Norm(e), rest);
    } else {
      ReadsSum(e, rest);
    }
    SumEnds(Norm(e), rest);
  }

  /** A sum: after it, the reader stands before `rest` with the whole of it as left operand. */
  lemma {:induction false} ReadsSum(e: Expr, rest: seq<Token>)
    requires Good(e) && IsOperand(e) && Bind(rest) < 5
    ensures ParseSum(Print(e) + rest) == SumTail(Norm(e), rest)
    decreases e, 6
  {
    if e.Arith? && IsSum(e.op) {
      var Arith(op, l, r) := e;
      var right := PrintOperand(r, op, true);
      var tail := [TArith(op)] + (right + rest);
      Regroup(PrintOperand(l, op, false), TArith(op), right, rest);
      ReadsFirst(l, op, tail);
      ReadsSecond(r, op, rest);
    } else {
      ReadsProduct(e, rest);
      ProductIsSum(Print(e) + rest, Norm(e), rest);
    }
  }

  /** The left operand of a sum. */
  lemma {:induction false} ReadsFirst(e: Expr, op: ArithOp, rest: seq<Token>)
    requires Good(e) && IsOperand(e) && IsSum(op) && Bind(rest) < 5
    ensures ParseSum(PrintOperand(e, op, false) + rest) == SumTail(Norm(e), rest)
    decreases e, 12
  {
    if e.Arith? && e.op == Pow {
      ReadsWrapped(e, rest);
      AtomIsProduct(Wrap(Print(e)) + rest, Norm(e), rest);
      ProductIsSum(Wrap(Print(e)) + rest, Norm(e), rest);
    } else {
      ReadsSum(e, rest);
    }
  }

  /** Its right operand. */
  lemma {:induction false} ReadsSecond(e: Expr, op: ArithOp, rest: seq<Token>)
    requires Good(e) && IsOperand(e) && IsSum(op) && Bind(rest) < 6
    ensures ParseProduct(PrintOperand(e, op, true) + rest) == ProductTail(Norm(e), rest)
    decreases e, 12
  {
    if WrapsOperand(e, op, true) {
      ReadsWrapped(e, rest);
      AtomIsProduct(Wrap(Print(e)) + rest, Norm(e), rest);
    } else {
      ReadsProduct(e, rest);
    }
  }

  /** A product, in the same way. */
  lemma {:induction false} ReadsProduct(e: Expr, rest: seq<Token>)
    requires Good(e) && IsOperand(e) && (e.Arith? ==> !IsSum(e.op)) && Bind(rest) < 6
    ensures ParseProduct(Print(e) + rest) == ProductTail(Norm(e), rest)
    decreases e, 5
  {
    if e.Arith? && IsProduct(e.op) {
      var Arith(op, l, r) := e;
      var right := PrintOperand(r, op, true);
      var tail := [TArith(op)] + (right + rest);
      Regroup(PrintOperand(l, op, false), TArith(op), right, rest);
      if WrapsOperand(l, op, false) {
        ReadsWrapped(l, tail);
        AtomIsProduct(Wrap(Print(l)) + tail, Norm(l), tail);
      } else {
        ReadsProduct(l, tail);
      }
      ReadsFactor(r, op, true, rest);
    } else {
      ReadsPower(e, rest);
      PowerIsProduct(Print(e) + rest, Norm(e), rest);
    }
  }

  /** An operand that is wrapped whenever it is arithmetic. */
  lemma {:induction false} ReadsFactor(e: Expr, op: ArithOp, isRight: bool, rest: seq<Token>)
    requires Good(e) && IsOperand(e) && (e.Arith? ==> WrapsOperand(e, op, isRight)) && Bind(rest) <= 6
    ensures ParseAtom(PrintOperand(e, op, isRight) + rest) == Done(Norm(e), rest)
    ensures Bind(rest) < 6 ==> ParsePower(PrintOperand(e, op, isRight) + rest) == Done(Norm(e), rest)
    decreases e, 12
  {
    if e.Arith? { ReadsWrapped(e, rest); } else { ReadsAtom(e, rest); }
    if Bind(rest) < 6 { AtomIsPower(PrintOperand(e, op, isRight) + rest, Norm(e), rest); }
  }

  lemma {:induction false} ReadsPower(e: Expr, rest: seq<Token>)
    requires Good(e) && IsOperand(e) && (e.Arith? ==> e.op == Pow) && Bind(rest) < 6
    ensures ParsePower(Print(e) + rest) == Done(Norm(e), rest)
    decreases e, 4
  {
    if e.Arith? {
      var right := PrintOperand(e.right, Pow, true);
      var tail := [TArith(Pow)] + (right + rest);
      Regroup(PrintOperand(e.left, Pow, false), TArith(Pow), right, rest);
      ReadsFactor(e.left, Pow, false, tail);
      ReadsFactor(e.right, Pow, true, rest);
    } else {
      ReadsAtom(e, rest);
      AtomIsPower(Print(e) + rest, Norm(e), rest);
    }
  }

  lemma {:induction false} ReadsAtom(e: Expr, rest: seq<Token>)
    requires Good(e) && IsAtom(e)
    ensures ParseAtom(Print(e) + rest) == Done(Norm(e), rest)
    decreases e, 3
  {
    if e.Concat? {
      ReadsConcat(e, rest);
    } else if e.Call? {
      ReadsCall(e, rest);
    } else if e.And? || e.Or? {
      ReadsJunction(e, rest);
    } else {
      assert (Print(e) + rest)[1..] == rest;
    }
  }

  lemma {:induction false} ReadsCall(e: Expr, rest: seq<Token>)
    requires Good(e) && e.Call?
    ensures ParseAtom(Print(e) + rest) == Done(Norm(e), rest)
    decreases e, 2
  {
    ReadsItems(e.args, rest);
    RegroupCall(e.fn, PrintSeparated(e.args, TComma), rest);
  }

  lemma {:induction false} ReadsJunction(e: Expr, rest: seq<Token>)
    requires Good(e) && (e.And? || e.Or?)
    ensures ParseAtom(Print(e) + rest) == Done(Norm(e), rest)
    decreases e, 2
  {
    var tail, inside := [TClose] + rest, PrintSeparated(e.values, if e.And? then TAnd else TOr);
    RegroupWrapped(inside, rest);
    if e.And? {
      ReadsAnds(e.values, tail);
      AndIsOr(inside + tail, NormAll(e.values), tail);
    } else {
      ReadsOrs(e.values, tail);
    }
  }

  lemma AndIsOr(ts: seq<Token>, vs: seq<Expr>, rest: seq<Token>)
    requires ParseAnds(ts) == Done(vs, rest) && |vs| > 1 && Bind(rest) < 1
    ensures ParseOr(ts) == Done(And(vs), rest)
  {
    assert ParseAnd(ts) == Done(And(vs), rest);
    assert ParseOrs(ts) == Done([And(vs)], rest);
  }

  lemma {:induction false} ReadsAnds(vs: seq<Expr>, rest: seq<Token>)
    requires vs != [] && AllGood(vs) && Bind(rest) < 2
    ensures ParseAnds(PrintSeparated(vs, TAnd) + rest) == Done(NormAll(vs), rest)
    decreases vs, 0
  {
    if |vs| == 1 {
      ReadsNot(vs[0], rest);
      NormOne(vs);
    } else {
      var others := PrintSeparated(vs[1..], TAnd);
      ReadsNot(vs[0], [TAnd] + (others + rest));
      ReadsAnds(vs[1..], rest);
      Regroup(Print(vs[0]), TAnd, others, rest);
    }
  }

  lemma {:induction false} ReadsOrs(vs: seq<Expr>, rest: seq<Token>)
    requires vs != [] && AllGood(vs) && Bind(rest) < 1
    ensures ParseOrs(PrintSeparated(vs, TOr) + rest) == Done(NormAll(vs), rest)
    decreases vs, 0
  {
    if |vs| == 1 {
      ReadsOrOperand(vs[0], rest);
      NormOne(vs);
    } else {
      var others := PrintSeparated(vs[1..], TOr);
      ReadsOrOperand(vs[0], [TOr] + (others + rest));
      ReadsOrs(vs[1..], rest);
      Regroup(Print(vs[0]), TOr, others, rest);
    }
  }

  lemma {:induction false} ReadsOrOperand(v: Expr, rest: seq<Token>)
    requires Good(v) && Bind(rest) < 2
    ensures ParseAnd(Print(v) + rest) == Done(Norm(v), rest)
    decreases v, 10
  {
    ReadsNot(v, rest);
    assert ParseAnds(Print(v) + rest) == Done([Norm(v)], rest);
  }

  lemma {:induction false} ReadsItems(es: seq<Expr>, rest: seq<Token>)
    requires AllGood(es)
    ensures ParseItems(PrintSeparated(es, TComma) + ([TClose] + rest)) == Done(NormAll(es), rest)
    decreases es, 0
  {
    if es == [] {
      assert [] + ([TClose] + rest) == [TClose] + rest;
      assert ([TClose] + rest)[1..] == rest;
    } else if |es| == 1 {
      LastItem(es[0], rest);
      NormOne(es);
    } else {
      var first, others, end := Print(es[0]), PrintSeparated(es[1..], TComma), [TClose] + rest;
      ReadsItems(es[1..], rest);
      StartsSeparated(es[1..], TComma);
      OneItem(es[0], others + end, NormAll(es[1..]), rest);
      Regroup(first, TComma, others, end);
    }
  }

  lemma StartsSeparated(es: seq<Expr>, separator: Token)
    requires es != [] && AllGood(es)
    ensures PrintSeparated(es, separator) != [] && Bind(PrintSeparated(es, separator)) == 7
  {
    Starts(es[0]);
  }

  lemma {:induction false} LastItem(e: Expr, rest: seq<Token>)
    requires Good(e)
    ensures ParseItems(Print(e) + ([TClose] + rest)) == Done([Norm(e)], rest)
    decreases e, 11
  {
    ReadsOr(e, [TClose] + rest);
    Starts(e);
    assert ([TClose] + rest)[1..] == rest;
  }

  lemma {:induction false} OneItem(e: Expr, more: seq<Token>, others: seq<Expr>, rest: seq<Token>)
    requires Good(e) && ParseItems(more) == Done(others, rest) && more != [] && Bind(more) == 7
    ensures ParseItems(Print(e) + ([TComma] + more)) == Done([Norm(e)] + others, rest)
    decreases e, 11
  {
    ReadsOr(e, [TComma] + more);
    Starts(e);
    assert ([TComma] + more)[1..] == more;
  }

  // ----------------------------------------------------------- `||` chains

  lemma {:induction false} ReadsConcat(e: Expr, rest: seq<Token>)
    requires Good(e) && e.Concat?
    ensures ParseAtom(Print(e) + rest) == Done(Norm(e), rest)
    decreases e, 2
  {
    var left, right, end := PrintChain(e.left), PrintChain(e.right), [TClose] + rest;
    ChainEnds(e.right, rest);
    StartsChain(e.right);
    ChainItems(e.left, right + end, NormChain(e.right), rest);
    Regroup(left, TComma, right, end);
    RegroupCall("concat", left + [TComma] + right, rest);
  }

  lemma {:induction false} StartsChain(e: Expr)
    requires Good(e)
    ensures PrintChain(e) != [] && Bind(PrintChain(e)) == 7
    decreases e
  {
    if e.Concat? { StartsChain(e.left); } else { Starts(e); }
  }

  /** The operands of a chain followed by more items. */
  lemma {:induction false} ChainItems(e: Expr, more: seq<Token>, others: seq<Expr>, rest: seq<Token>)
    requires Good(e) && ParseItems(more) == Done(others, rest) && more != [] && Bind(more) == 7
    ensures ParseItems(PrintChain(e) + ([TComma] + more)) == Done(NormChain(e) + others, rest)
    decreases e, 12
  {
    if e.Concat? {
      var left, right, items := PrintChain(e.left), PrintChain(e.right), NormChain(e.right) + others;
      ChainItems(e.right, more, others, rest);
      StartsChain(e.right);
      ChainItems(e.left, right + ([TComma] + more), items, rest);
      ChainRegroups(left, right, more, NormChain(e.left), NormChain(e.right), others);
    } else {
      OneItem(e, more, others, rest);
    }
  }

  lemma ChainRegroups(
    left: seq<Token>, right: seq<Token>, more: seq<Token>, vs: seq<Expr>, ws: seq<Expr>, others: seq<Expr>)
    ensures (left + [TComma] + right) + ([TComma] + more) == left + ([TComma] + (right + ([TComma] + more)))
    ensures (vs + ws) + others == vs + (ws + others)
  {
  }

  /** The operands of a chain that ends the list. */
  lemma {:induction false} ChainEnds(e: Expr, rest: seq<Token>)
    requires Good(e)
    ensures ParseItems(PrintChain(e) + ([TClose] + rest)) == Done(NormChain(e), rest)
    decreases e, 12
  {
    if e.Concat? {
      var right, end := PrintChain(e.right), [TClose] + rest;
      ChainEnds(e.right, rest);
      StartsChain(e.right);
      ChainItems(e.left, right + end, NormChain(e.right), rest);
      Regroup(PrintChain(e.left), TComma, right, end);
    } else {
      LastItem(e, rest);
    }
  }

  // ------------------------------------------------------------ the results

  /** Reading a printed filter gives the filter back. */
  lemma RoundTrip(e: Expr)
    requires Good(e)
    ensures Parse(Print(e)) == Some(Norm(e))
  {
    ReadsOr(e, []);
    assert Print(e) + [] == Print(e);
  }

  /** So two filters are printed alike only if they are the same up to `||` chains. */
  lemma PrintInjective(e: Expr, f: Expr)
    requires Good(e) && Good(f) && Print(e) == Print(f)
    ensures Norm(e) == Norm(f)
  {
    RoundTrip(e);
    RoundTrip(f);
  }

  /** A comparison beside an operator is not wrapped, only arithmetic is: whatever operands they
      have, comparisons of comparisons cannot be read back. */
  lemma ComparedComparisonIsLost(inner: CmpOp, outer: CmpOp, a: Expr, b: Expr, c: Expr)
    requires Good(a) && Good(b) && Good(c) && IsOperand(a) && IsOperand(b) && IsOperand(c)
    requires !b.Null? && !c.Null?
    ensures
      var e := Compare(outer, Compare(inner, a, b), c);
      Supported(e) && !WellSorted(e) && Parse(Print(e)) == None
  {
    var e := Compare(outer, Compare(inner, a, b), c);
    var tail := [TCompare(outer)] + PrintSide(c);
    var middle := [TCompare(inner)] + (PrintSide(b) + tail);
    ReadsSide(b, tail);
    ReadsSide(a, middle);
    Regroup(PrintSide(a), TCompare(inner), PrintSide(b), tail);
    assert Print(e.left) == PrintSide(a) + [TCompare(inner)] + PrintSide(b);
    assert Print(e) == Print(e.left) + [TCompare(outer)] + PrintSide(c);
    RegroupOne(Print(e.left), TCompare(outer), PrintSide(c));
    Starts(a);
    assert Print(e)[0] == PrintSide(a)[0];
    LeftoverIsLost(Print(e), Compare(inner, Norm(a), Norm(b)), tail);
  }

  lemma LeftoverIsLost(ts: seq<Token>, v: Expr, rest: seq<Token>)
    requires ParseNot(ts) == Done(v, rest) && Bind(rest) == 3
    ensures Parse(ts) == None
  {
    assert ParseAnds(ts) == Done([v], rest);
    assert ParseAnd(ts) == Done(v, rest);
    assert ParseOrs(ts) == Done([v], rest);
  }
}
