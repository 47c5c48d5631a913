/** Parsed DSL filters and their rendering as SQL tokens. */
module FilterPrinter {
  import opened Models

  datatype ArithOp = Add | Sub | Mul | Div | Mod | Pow | Unmapped

  datatype CmpOp = Eq | NotEq | Gt | GtE | Lt | LtE | Is | IsNot

  /** A filter's syntax tree. `Num` is a number or boolean constant by its text; `Name` a bare
      or dotted column; `Concat` one `||`; `Chain` a comparison with more than one operator. */
  datatype Expr =
    | Num(text: string)
    | Str(value: string)
    | Null
    | Name(path: string)
    | Neg(operand: Expr)
    | Arith(op: ArithOp, left: Expr, right: Expr)
    | Concat(left: Expr, right: Expr)
    | Call(fn: string, args: seq<Expr>)
    | Compare(cmp: CmpOp, left: Expr, right: Expr)
    | Chain(first: Expr, others: seq<(CmpOp, Expr)>)
    | In(negated: bool, left: Expr, right: Expr)
    | List(elts: seq<Expr>)
    | Like(negated: bool, left: Expr, pattern: string)
    | And(values: seq<Expr>)
    | Or(values: seq<Expr>)
    | Not(inner: Expr)

  datatype Token =
    | TNum(text: string) | TStr(value: string) | TNull | TName(path: string) | TFunc(fn: string)
    | TArith(op: ArithOp) | TCompare(cmp: CmpOp) | TIsNull(negated: bool) | TIn(negated: bool) | TLike(negated: bool)
    | TAnd | TOr | TNot | TOpen | TClose | TComma

  /** The scalar functions a filter may call, whatever their letter case. */
  const SCALARS := {
    "coalesce", "nullif", "ifnull", "round", "abs", "ceil", "ceiling", "floor", "power", "pow", "sqrt", "exp",
    "ln", "log", "log10", "log2", "mod", "sign", "trunc", "greatest", "least", "lower", "upper", "trim", "ltrim",
    "rtrim", "replace", "substr", "substring", "instr", "length", "concat"}

  function Lower(s: string): string {
    seq(|s|, i requires 0 <= i < |s| => if 'A' <= s[i] <= 'Z' then (s[i] as int + 32) as char else s[i])
  }

  /** The trees the printer accepts; on every other one it raises. */
  predicate Supported(e: Expr) {
    match e
    case Neg(x) => x.Num?
    case Arith(op, l, r) => op != Unmapped && Supported(l) && Supported(r)
    case Concat(l, r) => Supported(l) && Supported(r)
    case Call(fn, args) => Lower(fn) in SCALARS && forall a :: a in args ==> Supported(a)
    case Compare(_, l, r) => Supported(l) && Supported(r)
    case Chain(_, _) => false
    case In(_, l, r) => Supported(l) && Supported(r)
    case List(elts) => forall a :: a in elts ==> Supported(a)
    case Like(_, l, _) => Supported(l)
    case And(vs) => |vs| >= 2 && forall v :: v in vs ==> Supported(v)
    case Or(vs) => |vs| >= 2 && forall v :: v in vs ==> Supported(v)
    case Not(x) => Supported(x)
    case _ => true
  }

  /** The tier of an operator; `**` has none, so its operands are always wrapped. */
  function Precedence(op: ArithOp): Option<nat> {
    match op
    case Mul => Some(2)
    case Div => Some(2)
    case Mod => Some(2)
    case Add => Some(1)
    case Sub => Some(1)
    case _ => None
  }

  /** Whether an operand of an arithmetic operator needs parentheses. */
  predicate WrapsOperand(child: Expr, parent: ArithOp, isRight: bool) {
    child.Arith? &&
    var c, p := Precedence(child.op), Precedence(parent);
    c.None? || p.None? || c.value < p.value || (isRight && c.value == p.value)
  }

  function Wrap(tokens: seq<Token>): seq<Token> {
    [TOpen] + tokens + [TClose]
  }

  function Print(e: Expr): seq<Token>
    requires Supported(e)
    decreases e, 1
  {
    match e
    case Num(t) => [TNum(t)]
    case Str(v) => [TStr(v)]
    case Null => [TNull]
    case Name(p) => [TName(p)]
    case Neg(x) => [TNum("-" + x.text)]
    case Arith(op, l, r) => PrintOperand(l, op, false) + [TArith(op)] + PrintOperand(r, op, true)
    case Concat(l, r) => [TFunc("concat"), TOpen] + (PrintChain(l) + [TComma] + PrintChain(r)) + [TClose]
    case Call(fn, args) => [TFunc(fn), TOpen] + PrintSeparated(args, TComma) + [TClose]
    case Compare(cmp, l, r) =>
      if (cmp.Is? || cmp.IsNot?) && r.Null? then PrintSide(l) + [TIsNull(cmp.IsNot?)]
      else PrintSide(l) + [TCompare(cmp)] + PrintSide(r)
    case In(negated, l, r) => PrintSide(l) + [TIn(negated)] + PrintSide(r)
    case List(elts) => Wrap(PrintSeparated(elts, TComma))
    case Like(negated, l, pattern) => Print(l) + [TLike(negated), TStr(pattern)]
    case And(vs) => Wrap(PrintSeparated(vs, TAnd))
    case Or(vs) => Wrap(PrintSeparated(vs, TOr))
    case Not(x) => [TNot] + Wrap(Print(x))
  }

  function PrintOperand(child: Expr, parent: ArithOp, isRight: bool): seq<Token>
    requires Supported(child)
    decreases child, 2
  {
    if WrapsOperand(child, parent, isRight) then Wrap(Print(child)) else Print(child)
  }

  /** A side of a comparison: arithmetic is wrapped, nothing else is. */
  function PrintSide(side: Expr): seq<Token>
    requires Supported(side)
    decreases side, 2
  {
    if side.Arith? then Wrap(Print(side)) else Print(side)
  }

  function PrintSeparated(es: seq<Expr>, separator: Token): seq<Token>
    requires forall e :: e in es ==> Supported(e)
    decreases es, 0
  {
    if es == [] then []
    else if |es| == 1 then Print(es[0])
    else Print(es[0]) + [separator] + PrintSeparated(es[1..], separator)
  }

  /** The operands of a `||` chain from left to right, however it is nested. */
  function PrintChain(e: Expr): seq<Token>
    requires Supported(e)
    decreases e, 2
  {
    if e.Concat? then PrintChain(e.left) + [TComma] + PrintChain(e.right) else Print(e)
  }

  /** The whole filter, or the error raised for a tree with an unsupported node. */
  function FilterSql(e: Expr): Result<seq<Token>, string> {
    if Supported(e) then Ok(Print(e)) else Err("Unsupported filter syntax")
  }
}
