/** String literals in printed filters, and the list of columns a filter reports. */
module FilterText {
  import opened Models
  import opened FilterPrinter

  // --------------------------------------------------------------- literals

  /** `s.replace(c, cc)`. */
  function DoubleEach(s: string, c: char): string {
    if s == "" then "" else (if s[0] == c then [c, c] else [s[0]]) + DoubleEach(s[1..], c)
  }

  /** The text between the quotes of a printed string literal. */
  function Escape(value: string): string {
    DoubleEach(DoubleEach(value, '\\'), '\'')
  }

  /** Reads a literal's text up to its closing quote: `''` is a quote and, if the dialect has
      backslash escapes, a backslash takes the next character as it is. */
  function ReadLiteral(text: string, backslashEscapes: bool): Option<(string, string)> {
    if text == "" then None
    else if text[0] == '\\' && backslashEscapes then
      if |text| == 1 then None else Prepend(text[1], ReadLiteral(text[2..], backslashEscapes))
    else if text[0] != '\'' then Prepend(text[0], ReadLiteral(text[1..], backslashEscapes))
    else if |text| > 1 && text[1] == '\'' then Prepend('\'', ReadLiteral(text[2..], backslashEscapes))
    else Some(("", text[1..]))
  }

  function Prepend(c: char, read: Option<(string, string)>): Option<(string, string)> {
    match read
    case None => None
    case Some((value, rest)) => Some(([c] + value, rest))
  }

  /** How one character of the value is printed. */
  function EscapeChar(c: char): string {
    if c == '\\' then "\\\\" else if c == '\'' then "''" else [c]
  }

  lemma EscapeStep(value: string)
    requires value != ""
    ensures Escape(value) == EscapeChar(value[0]) + Escape(value[1..])
  {
    var tail := DoubleEach(value[1..], '\\');
    var once := DoubleEach(value, '\\');
    if value[0] == '\\' {
      var second := ['\\'] + tail;
      assert once == ['\\'] + second && once[1..] == second && second[1..] == tail;
      assert DoubleEach(second, '\'') == ['\\'] + DoubleEach(tail, '\'');
      assert "\\\\" + DoubleEach(tail, '\'') == ['\\'] + (['\\'] + DoubleEach(tail, '\''));
    } else {
      assert once == [value[0]] + tail;
      assert once[1..] == tail;
    }
  }

  lemma ReadsOneBack(c: char, tail: string)
    ensures ReadLiteral(EscapeChar(c) + tail, true) == Prepend(c, ReadLiteral(tail, true))
  {
    var text := EscapeChar(c) + tail;
    assert text[|EscapeChar(c)|..] == tail;
  }

  lemma ReadsOneDoubled(c: char, tail: string)
    ensures ReadLiteral(EscapeChar(c) + tail, false) ==
      if c == '\\' then Prepend(c, Prepend(c, ReadLiteral(tail, false))) else Prepend(c, ReadLiteral(tail, false))
  {
    var text := EscapeChar(c) + tail;
    assert text[|EscapeChar(c)|..] == tail;
    if c == '\\' { assert text[1..] == [c] + tail && ([c] + tail)[1..] == tail; }
  }

  lemma Regroup(a: string, b: string, c: string)
    ensures (a + b) + c == a + (b + c)
  {
  }

  lemma EmptyReads(rest: string, backslashEscapes: bool)
    requires rest == "" || rest[0] != '\''
    ensures ReadLiteral(Escape("") + ("'" + rest), backslashEscapes) == Some(("", rest))
  {
    assert Escape("") + ("'" + rest) == "'" + rest && ("'" + rest)[1..] == rest;
  }

  /** No value can end its literal early or run past its end, and in dialects with backslash
      escapes it is read back as it was. */
  lemma {:induction false} LiteralReadsBack(value: string, rest: string)
    requires rest == "" || rest[0] != '\''
    ensures ReadLiteral(Escape(value) + ("'" + rest), true) == Some((value, rest))
  {
    if value == "" {
      EmptyReads(rest, true);
    } else {
      EscapeStep(value);
      LiteralReadsBack(value[1..], rest);
      var first, tail := EscapeChar(value[0]), Escape(value[1..]);
      ReadsOneBack(value[0], tail + ("'" + rest));
      Regroup(first, tail, "'" + rest);
      assert value == [value[0]] + value[1..];
    }
  }

  /** Where a backslash is an ordinary character, it arrives doubled. */
  lemma {:induction false} LiteralReadsDoubled(value: string, rest: string)
    requires rest == "" || rest[0] != '\''
    ensures ReadLiteral(Escape(value) + ("'" + rest), false) == Some((DoubleEach(value, '\\'), rest))
  {
    if value == "" {
      EmptyReads(rest, false);
    } else {
      EscapeStep(value);
      LiteralReadsDoubled(value[1..], rest);
      var first, tail := EscapeChar(value[0]), Escape(value[1..]);
      ReadsOneDoubled(value[0], tail + ("'" + rest));
      Regroup(first, tail, "'" + rest);
      Regroup(['\\'], ['\\'], DoubleEach(value[1..], '\\'));
      assert ['\\', '\\'] == ['\\'] + ['\\'];
    }
  }

  lemma {:induction false} DoublingLength(s: string, c: char)
    ensures |DoubleEach(s, c)| >= |s|
    ensures |DoubleEach(s, c)| == |s| <==> c !in s
  {
    if s != "" {
      DoublingLength(s[1..], c);
      assert c in s <==> c == s[0] || c in s[1..];
    }
  }

  /** So such a dialect reads the literal right exactly if it holds no backslash. */
  lemma LiteralIsPortable(value: string, rest: string)
    requires rest == "" || rest[0] != '\''
    ensures ReadLiteral(Escape(value) + ("'" + rest), false) == Some((value, rest)) <==> '\\' !in value
  {
    LiteralReadsDoubled(value, rest);
    DoublingLength(value, '\\');
    if '\\' !in value { NothingDoubled(value, '\\'); }
  }

  lemma {:induction false} NothingDoubled(s: string, c: char)
    requires c !in s
    ensures DoubleEach(s, c) == s
  {
    if s != "" { NothingDoubled(s[1..], c); }
  }

  // ---------------------------------------------------------------- columns

  /** The columns the printer collects on its way through the tree. */
  function Columns(e: Expr): seq<string>
    decreases e, 0
  {
    match e
    case Name(p) => [p]
    case Arith(_, l, r) => Columns(l) + Columns(r)
    case Concat(l, r) => Columns(l) + Columns(r)
    case Call(_, args) => ColumnsOfAll(args)
    case Compare(_, l, r) => Columns(l) + Columns(r)
    case In(_, l, r) => Columns(l) + Columns(r)
    case List(elts) => ColumnsOfAll(elts)
    case Like(_, l, _) => Columns(l)
    case And(vs) => ColumnsOfAll(vs)
    case Or(vs) => ColumnsOfAll(vs)
    case Not(x) => Columns(x)
    case _ => []
  }

  function ColumnsOfAll(es: seq<Expr>): seq<string>
    decreases es, 0
  {
    if es == [] then [] else Columns(es[0]) + ColumnsOfAll(es[1..])
  }

  function NamesIn(ts: seq<Token>): seq<string> {
    if ts == [] then [] else (if ts[0].TName? then [ts[0].path] else []) + NamesIn(ts[1..])
  }

  lemma {:induction false} NamesInAppend(a: seq<Token>, b: seq<Token>)
    ensures NamesIn(a + b) == NamesIn(a) + NamesIn(b)
  {
    if a == [] {
      assert a + b == b;
    } else {
      NamesInAppend(a[1..], b);
      assert (a + b)[1..] == a[1..] + b;
    }
  }

  lemma NamesInOne(t: Token)
    requires !t.TName?
    ensures NamesIn([t]) == []
  {
    assert [t][1..] == [];
  }

  lemma NamesInThree(a: seq<Token>, t: Token, b: seq<Token>)
    requires !t.TName?
    ensures NamesIn(a + [t] + b) == NamesIn(a) + NamesIn(b)
  {
    NamesInAppend(a + [t], b);
    NamesInAppend(a, [t]);
    NamesInOne(t);
  }

  lemma NamesInWrap(a: seq<Token>)
    ensures NamesIn(Wrap(a)) == NamesIn(a)
  {
    NamesInThree([], TOpen, a);
    NamesInThree([TOpen] + a, TClose, []);
    assert [] + [TOpen] + a == [TOpen] + a && Wrap(a) == [TOpen] + a + [TClose] + [];
  }

  /** The reported columns are exactly the column names of the printed SQL, in its order. */
  lemma {:induction false} ColumnsArePrinted(e: Expr)
    requires Supported(e)
    ensures Columns(e) == NamesIn(Print(e))
    decreases e, 1
  {
    match e
    case Arith(op, l, r) =>
      ColumnsArePrinted(l);
      ColumnsArePrinted(r);
      ArithColumns(op, l, r);
    case Compare(cmp, l, r) =>
      SideColumns(l);
      SideColumns(r);
      CompareColumns(cmp, l, r);
    case In(negated, l, r) =>
      SideColumns(l);
      SideColumns(r);
      NamesInThree(PrintSide(l), TIn(negated), PrintSide(r));
    case Like(negated, l, p) =>
      ColumnsArePrinted(l);
      LikeColumns(negated, l, p);
    case Concat(l, r) =>
      ChainColumns(l);
      ChainColumns(r);
      ConcatColumns(l, r);
    case Call(fn, args) =>
      AllColumns(args, TComma);
      NamesInCall(fn, PrintSeparated(args, TComma));
    case List(elts) =>
      AllColumns(elts, TComma);
      NamesInWrap(PrintSeparated(elts, TComma));
    case And(vs) =>
      AllColumns(vs, TAnd);
      NamesInWrap(PrintSeparated(vs, TAnd));
    case Or(vs) =>
      AllColumns(vs, TOr);
      NamesInWrap(PrintSeparated(vs, TOr));
    case Not(x) =>
      ColumnsArePrinted(x);
      NamesInWrap(Print(x));
      NamesInThree([], TNot, Wrap(Print(x)));
      assert [] + [TNot] + Wrap(Print(x)) == Print(e);
    case Name(p) => assert [TName(p)][1..] == [];
    case Neg(x) => NamesInOne(TNum("-" + x.text));
    case Num(t) => NamesInOne(TNum(t));
    case Str(v) => NamesInOne(TStr(v));
    case Null => NamesInOne(TNull);
    case Chain(_, _) =>
  }

  lemma ArithColumns(op: ArithOp, l: Expr, r: Expr)
    requires Supported(Arith(op, l, r)) && Columns(l) == NamesIn(Print(l)) && Columns(r) == NamesIn(Print(r))
    ensures Columns(Arith(op, l, r)) == NamesIn(Print(Arith(op, l, r)))
  {
    NamesInThree(PrintOperand(l, op, false), TArith(op), PrintOperand(r, op, true));
    NamesInWrap(Print(l));
    NamesInWrap(Print(r));
  }

  lemma CompareColumns(cmp: CmpOp, l: Expr, r: Expr)
    requires Supported(l) && Supported(r)
    requires Columns(l) == NamesIn(PrintSide(l)) && Columns(r) == NamesIn(PrintSide(r))
    ensures Columns(Compare(cmp, l, r)) == NamesIn(Print(Compare(cmp, l, r)))
  {
    NamesInThree(PrintSide(l), TIsNull(cmp.IsNot?), []);
    NamesInThree(PrintSide(l), TCompare(cmp), PrintSide(r));
    assert PrintSide(l) + [TIsNull(cmp.IsNot?)] + [] == PrintSide(l) + [TIsNull(cmp.IsNot?)];
  }

  lemma LikeColumns(negated: bool, l: Expr, p: string)
    requires Supported(l) && Columns(l) == NamesIn(Print(l))
    ensures Columns(Like(negated, l, p)) == NamesIn(Print(Like(negated, l, p)))
  {
    NamesInThree(Print(l), TLike(negated), [TStr(p)]);
    NamesInOne(TStr(p));
    assert Print(l) + [TLike(negated)] + [TStr(p)] == Print(Like(negated, l, p));
  }

  lemma ConcatColumns(l: Expr, r: Expr)
    requires Supported(l) && Supported(r)
    requires Columns(l) == NamesIn(PrintChain(l)) && Columns(r) == NamesIn(PrintChain(r))
    ensures Columns(Concat(l, r)) == NamesIn(Print(Concat(l, r)))
  {
    NamesInThree(PrintChain(l), TComma, PrintChain(r));
    NamesInCall("concat", PrintChain(l) + [TComma] + PrintChain(r));
  }

  lemma NamesInCall(fn: string, inside: seq<Token>)
    ensures NamesIn([TFunc(fn), TOpen] + inside + [TClose]) == NamesIn(inside)
  {
    NamesInThree([], TFunc(fn), Wrap(inside));
    NamesInWrap(inside);
    assert [] + [TFunc(fn)] + Wrap(inside) == [TFunc(fn), TOpen] + inside + [TClose];
  }

  lemma {:induction false} SideColumns(e: Expr)
    requires Supported(e)
    ensures Columns(e) == NamesIn(PrintSide(e))
    decreases e, 2
  {
    ColumnsArePrinted(e);
    NamesInWrap(Print(e));
  }

  lemma {:induction false} ChainColumns(e: Expr)
    requires Supported(e)
    ensures Columns(e) == NamesIn(PrintChain(e))
    decreases e, 2
  {
    if e.Concat? {
      ChainColumns(e.left);
      ChainColumns(e.right);
      NamesInThree(PrintChain(e.left), TComma, PrintChain(e.right));
    } else {
      ColumnsArePrinted(e);
    }
  }

  lemma {:induction false} AllColumns(es: seq<Expr>, separator: Token)
    requires (forall e :: e in es ==> Supported(e)) && !separator.TName?
    ensures ColumnsOfAll(es) == NamesIn(PrintSeparated(es, separator))
    decreases es, 0
  {
    if es != [] {
      ColumnsArePrinted(es[0]);
      AllColumns(es[1..], separator);
      if |es| > 1 { NamesInThree(Print(es[0]), separator, PrintSeparated(es[1..], separator)); }
    }
  }

  // ------------------------------------------------------- what is accepted

  /** One letter in either case. */
  predicate SameLetter(a: char, b: char) {
    a == b || ('A' <= a <= 'Z' && b as int == a as int + 32) || ('A' <= b <= 'Z' && a as int == b as int + 32)
  }

  predicate SameIgnoringCase(a: string, b: string) {
    |a| == |b| && forall i :: 0 <= i < |a| ==> SameLetter(a[i], b[i])
  }

  predicate IsLowerCase(s: string) {
    forall i :: 0 <= i < |s| ==> !('A' <= s[i] <= 'Z')
  }

  /** The nodes of a tree, apart from what is negated. */
  function Nodes(e: Expr): seq<Expr>
    decreases e, 1
  {
    [e] +
    match e
    case Arith(_, l, r) => Nodes(l) + Nodes(r)
    case Concat(l, r) => Nodes(l) + Nodes(r)
    case Call(_, args) => NodesOfAll(args)
    case Compare(_, l, r) => Nodes(l) + Nodes(r)
    case In(_, l, r) => Nodes(l) + Nodes(r)
    case List(elts) => NodesOfAll(elts)
    case Like(_, l, _) => Nodes(l)
    case And(vs) => NodesOfAll(vs)
    case Or(vs) => NodesOfAll(vs)
    case Not(x) => Nodes(x)
    case _ => []
  }

  function NodesOfAll(es: seq<Expr>): seq<Expr>
    decreases es, 0
  {
    if es == [] then [] else Nodes(es[0]) + NodesOfAll(es[1..])
  }

  /** What the printer rejects: an operator it has no SQL for, a chained comparison, a minus before
      anything but a number, a call of no known function in whatever letter case, a lone operand of AND
      or OR. */
  ghost predicate IsRejected(x: Expr) {
    || (x.Arith? && x.op == Unmapped) || x.Chain? || (x.Neg? && !x.operand.Num?)
    || (x.Call? && forall s :: s in SCALARS ==> !SameIgnoringCase(x.fn, s))
    || ((x.And? || x.Or?) && |x.values| < 2)
  }

  ghost predicate NoneRejected(xs: seq<Expr>) {
    forall x :: x in xs ==> !IsRejected(x)
  }

  lemma NoneOf(xs: seq<Expr>, ys: seq<Expr>)
    ensures NoneRejected(xs + ys) <==> NoneRejected(xs) && NoneRejected(ys)
  {
    forall x | x in xs || x in ys ensures x in xs + ys {}
  }

  lemma LowerIsSame(s: string)
    ensures IsLowerCase(Lower(s)) && SameIgnoringCase(s, Lower(s))
  {
  }

  lemma SameLowerCase(a: string, b: string)
    requires IsLowerCase(a) && IsLowerCase(b) && SameIgnoringCase(a, b)
    ensures a == b
  {
    forall i | 0 <= i < |a| ensures a[i] == b[i] { assert SameLetter(a[i], b[i]); }
  }

  lemma ScalarsAreLowerCase(s: string)
    requires s in SCALARS
    ensures IsLowerCase(s)
  {
  }

  /** A function is known in any letter case. */
  lemma KnownInAnyCase(fn: string)
    ensures Lower(fn) in SCALARS <==> exists s :: s in SCALARS && SameIgnoringCase(fn, s)
  {
    LowerIsSame(fn);
    forall s | s in SCALARS && SameIgnoringCase(fn, s) ensures s == Lower(fn) {
      ScalarsAreLowerCase(s);
      forall i | 0 <= i < |s| ensures SameLetter(s[i], Lower(fn)[i]) { assert SameLetter(fn[i], s[i]); }
      SameLowerCase(s, Lower(fn));
    }
  }

  /** The printer accepts exactly the trees with no such node. */
  lemma {:induction false} SupportedIffNoneRejected(e: Expr)
    ensures Supported(e) <==> NoneRejected(Nodes(e))
    decreases e, 1
  {
    var none: seq<Expr> := [];
    assert e in [e] && NoneRejected([e]) == !IsRejected(e);
    match e
    case Arith(_, l, r) => BothSupported(e, l, r);
    case Concat(l, r) => BothSupported(e, l, r);
    case Compare(_, l, r) => BothSupported(e, l, r);
    case In(_, l, r) => BothSupported(e, l, r);
    case Call(fn, args) =>
      KnownInAnyCase(fn);
      AllSupported(args);
      NoneOf([e], NodesOfAll(args));
    case List(elts) => AllSupported(elts); NoneOf([e], NodesOfAll(elts));
    case And(vs) => AllSupported(vs); NoneOf([e], NodesOfAll(vs));
    case Or(vs) => AllSupported(vs); NoneOf([e], NodesOfAll(vs));
    case Like(_, l, _) => SupportedIffNoneRejected(l); NoneOf([e], Nodes(l));
    case Not(x) => SupportedIffNoneRejected(x); NoneOf([e], Nodes(x));
    case _ => NoneOf([e], none);
  }

  lemma {:induction false} BothSupported(e: Expr, l: Expr, r: Expr)
    requires l < e && r < e
    ensures NoneRejected([e] + (Nodes(l) + Nodes(r))) <==> !IsRejected(e) && Supported(l) && Supported(r)
    decreases e, 0
  {
    SupportedIffNoneRejected(l);
    SupportedIffNoneRejected(r);
    NoneOf([e], Nodes(l) + Nodes(r));
    NoneOf(Nodes(l), Nodes(r));
  }

  lemma {:induction false} AllSupported(es: seq<Expr>)
    ensures NoneRejected(NodesOfAll(es)) <==> forall e :: e in es ==> Supported(e)
    decreases es, 0
  {
    if es != [] {
      SupportedIffNoneRejected(es[0]);
      AllSupported(es[1..]);
      NoneOf(Nodes(es[0]), NodesOfAll(es[1..]));
      assert es == [es[0]] + es[1..];
    }
  }
}
