/** A reader of SQL filter tokens with the usual precedence: OR, AND, NOT, predicates, `+ -`,
    `* / %`, `**`; arithmetic associates to the left. */
module FilterParser {
  import opened Models
  import opened FilterPrinter

  datatype Parsed<+T> = Fail | Done(value: T, rest: seq<Token>) {
    predicate IsFailure() { Fail? }

    function PropagateFailure<U>(): Parsed<U>
      requires Fail?
    {
      Fail
    }

    function Extract(): (T, seq<Token>)
      requires Done?
    {
      (value, rest)
    }
  }

  /** The operators that bind loosest, and those that bind tighter; `**` binds tightest. */
  predicate IsSum(op: ArithOp) {
    op.Add? || op.Sub?
  }

  predicate IsProduct(op: ArithOp) {
    op.Mul? || op.Div? || op.Mod?
  }

  function ParseOr(ts: seq<Token>): (p: Parsed<Expr>)
    ensures p.Done? ==> |p.rest| < |ts|
    decreases |ts|, 12
  {
    var (vs, rest) :- ParseOrs(ts);
    Done(if |vs| == 1 then vs[0] else Or(vs), rest)
  }

  function ParseOrs(ts: seq<Token>): (p: Parsed<seq<Expr>>)
    ensures p.Done? ==> |p.rest| < |ts| && |p.value| > 0
    decreases |ts|, 11
  {
    var (v, rest) :- ParseAnd(ts);
    if rest != [] && rest[0].TOr? then
      var (vs, rest') :- ParseOrs(rest[1..]);
      Done([v] + vs, rest')
    else Done([v], rest)
  }

  function ParseAnd(ts: seq<Token>): (p: Parsed<Expr>)
    ensures p.Done? ==> |p.rest| < |ts|
    decreases |ts|, 10
  {
    var (vs, rest) :- ParseAnds(ts);
    Done(if |vs| == 1 then vs[0] else And(vs), rest)
  }

  function ParseAnds(ts: seq<Token>): (p: Parsed<seq<Expr>>)
    ensures p.Done? ==> |p.rest| < |ts| && |p.value| > 0
    decreases |ts|, 9
  {
    var (v, rest) :- ParseNot(ts);
    if rest != [] && rest[0].TAnd? then
      var (vs, rest') :- ParseAnds(rest[1..]);
      Done([v] + vs, rest')
    else Done([v], rest)
  }

  function ParseNot(ts: seq<Token>): (p: Parsed<Expr>)
    ensures p.Done? ==> |p.rest| < |ts|
    decreases |ts|, 8
  {
    if ts != [] && ts[0].TNot? then
      var (e, rest) :- ParseNot(ts[1..]);
      Done(Not(e), rest)
    else ParsePredicate(ts)
  }

  function ParsePredicate(ts: seq<Token>): (p: Parsed<Expr>)
    ensures p.Done? ==> |p.rest| < |ts|
    decreases |ts|, 7
  {
    var (left, rest) :- ParseSum(ts);
    if rest == [] then Done(left, rest) else
      match rest[0]
      case TCompare(cmp) =>
        var (right, rest') :- ParseSum(rest[1..]);
        Done(Compare(cmp, left, right), rest')
      case TIsNull(negated) => Done(Compare(if negated then IsNot else Is, left, Null), rest[1..])
      case TIn(negated) =>
        if |rest| > 1 && rest[1].TOpen? then
          var (elts, rest') :- ParseItems(rest[2..]);
          Done(In(negated, left, List(elts)), rest')
        else Fail
      case TLike(negated) =>
        if |rest| > 1 && rest[1].TStr? then Done(Like(negated, left, rest[1].value), rest[2..]) else Fail
      case _ => Done(left, rest)
  }

  function ParseSum(ts: seq<Token>): (p: Parsed<Expr>)
    ensures p.Done? ==> |p.rest| < |ts|
    decreases |ts|, 6
  {
    var (e, rest) :- ParseProduct(ts);
    SumTail(e, rest)
  }

  function SumTail(left: Expr, ts: seq<Token>): (p: Parsed<Expr>)
    ensures p.Done? ==> |p.rest| <= |ts|
    decreases |ts|, 5
  {
    if ts != [] && ts[0].TArith? && IsSum(ts[0].op) then
      var (right, rest) :- ParseProduct(ts[1..]);
      SumTail(Arith(ts[0].op, left, right), rest)
    else Done(left, ts)
  }

  function ParseProduct(ts: seq<Token>): (p: Parsed<Expr>)
    ensures p.Done? ==> |p.rest| < |ts|
    decreases |ts|, 4
  {
    var (e, rest) :- ParsePower(ts);
    ProductTail(e, rest)
  }

  function ProductTail(left: Expr, ts: seq<Token>): (p: Parsed<Expr>)
    ensures p.Done? ==> |p.rest| <= |ts|
    decreases |ts|, 3
  {
    if ts != [] && ts[0].TArith? && IsProduct(ts[0].op) then
      var (right, rest) :- ParsePower(ts[1..]);
      ProductTail(Arith(ts[0].op, left, right), rest)
    else Done(left, ts)
  }

  function ParsePower(ts: seq<Token>): (p: Parsed<Expr>)
    ensures p.Done? ==> |p.rest| < |ts|
    decreases |ts|, 2
  {
    var (base, rest) :- ParseAtom(ts);
    if rest != [] && rest[0] == TArith(Pow) then
      var (exponent, rest') :- ParsePower(rest[1..]);
      Done(Arith(Pow, base, exponent), rest')
    else Done(base, rest)
  }

  function ParseAtom(ts: seq<Token>): (p: Parsed<Expr>)
    ensures p.Done? ==> |p.rest| < |ts|
    decreases |ts|, 1
  {
    if ts == [] then Fail else
      match ts[0]
      case TNum(t) => Done(Num(t), ts[1..])
      case TStr(v) => Done(Str(v), ts[1..])
      case TNull => Done(Null, ts[1..])
      case TName(p) => Done(Name(p), ts[1..])
      case TFunc(fn) =>
        if |ts| > 1 && ts[1].TOpen? then
          var (args, rest) :- ParseItems(ts[2..]);
          Done(Call(fn, args), rest)
        else Fail
      case TOpen =>
        var (e, rest) :- ParseOr(ts[1..]);
        if rest != [] && rest[0].TClose? then Done(e, rest[1..]) else Fail
      case _ => Fail
  }

  /** Comma-separated expressions up to and including the closing parenthesis. */
  function ParseItems(ts: seq<Token>): (p: Parsed<seq<Expr>>)
    ensures p.Done? ==> |p.rest| < |ts|
    decreases |ts|, 13
  {
    if ts != [] && ts[0].TClose? then Done([], ts[1..]) else
      var (e, rest) :- ParseOr(ts);
      if rest == [] then Fail
      else if rest[0].TClose? then Done([e], rest[1..])
      else if rest[0].TComma? && !(|rest| > 1 && rest[1].TClose?) then
        var (es, rest') :- ParseItems(rest[1..]);
        Done([e] + es, rest')
      else Fail
  }

  /** A whole filter: nothing may be left over. */
  function Parse(ts: seq<Token>): Option<Expr> {
    match ParseOr(ts)
    case Fail => None
    case Done(e, rest) => if rest == [] then Some(e) else None
  }
}
