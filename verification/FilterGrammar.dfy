/** The grammar behind the filter reader: which tokens are a reading of which tree. */
module FilterGrammar {
  import opened FilterPrinter
  import opened FilterParser

  // ------------------------------------------------------------ derivations

  /** `ts` is `left`, then the token, then `right`. */
  predicate Has(ts: seq<Token>, i: nat, t: Token) {
    i < |ts| && ts[i] == t
  }

  predicate InBrackets(ts: seq<Token>) {
    |ts| >= 2 && ts[0].TOpen? && ts[|ts| - 1].TClose?
  }

  function Inside(ts: seq<Token>): seq<Token>
    requires |ts| >= 2
  {
    ts[1..|ts| - 1]
  }

  /** The levels of the grammar: atoms, powers, products, sums, predicates, NOT, AND and OR. */
  const ATOM := 0
  const PREDICATE := 4
  const NOT := 5
  const AND := 6
  const OR := 7

  function OpLevel(op: ArithOp): nat {
    match op
    case Add => 3
    case Sub => 3
    case Mul => 2
    case Div => 2
    case Mod => 2
    case _ => 1
  }

  /** Powers associate to the right, products and sums to the left. */
  function LeftLevel(op: ArithOp): nat {
    if OpLevel(op) == 1 then 0 else OpLevel(op)
  }

  function RightLevel(op: ArithOp): nat {
    if OpLevel(op) == 1 then 1 else OpLevel(op) - 1
  }

  /** The tokens can be read as the tree at this level. */
  ghost predicate Reads(level: nat, v: Expr, ts: seq<Token>)
    decreases |ts|, 3 * level + 3
  {
    Rule(level, v, ts) || (level > 0 && Reads(level - 1, v, ts))
  }

  /** The same by the rule of just this level. */
  ghost predicate Rule(level: nat, v: Expr, ts: seq<Token>)
    decreases |ts|, 3 * level + 2
  {
    match v
    case Arith(op, l, r) =>
      (level == ATOM && Bracketed(v, ts)) ||
      (level == OpLevel(op) && op != Unmapped &&
       exists i: nat :: Has(ts, i, TArith(op)) && Reads(LeftLevel(op), l, ts[..i])
         && Reads(RightLevel(op), r, ts[i + 1..]))
    case Compare(cmp, l, r) =>
      (level == ATOM && Bracketed(v, ts)) || (level == PREDICATE && IsComparison(cmp, l, r, ts))
    case In(negated, l, r) =>
      (level == ATOM && Bracketed(v, ts)) ||
      (level == PREDICATE && r.List? &&
       exists i: nat :: Has(ts, i, TIn(negated)) && Reads(3, l, ts[..i]) && InBrackets(ts[i + 1..])
         && AreItems(r.elts, Inside(ts[i + 1..])))
    case Like(negated, l, pattern) =>
      (level == ATOM && Bracketed(v, ts)) ||
      (level == PREDICATE && |ts| >= 2 && ts[|ts| - 2] == TLike(negated) && ts[|ts| - 1] == TStr(pattern)
       && Reads(3, l, ts[..|ts| - 2]))
    case Not(x) =>
      (level == ATOM && Bracketed(v, ts)) ||
      (level == NOT && ts != [] && ts[0].TNot? && Reads(NOT, x, ts[1..]))
    case And(vs) =>
      (level == ATOM && Bracketed(v, ts)) || (level == AND && |vs| >= 2 && AreListed(NOT, TAnd, vs, ts))
    case Or(vs) =>
      (level == ATOM && Bracketed(v, ts)) || (level == OR && |vs| >= 2 && AreListed(AND, TOr, vs, ts))
    case Call(fn, args) =>
      level == ATOM &&
      (Bracketed(v, ts) ||
       (|ts| >= 3 && ts[0] == TFunc(fn) && InBrackets(ts[1..]) && AreItems(args, Inside(ts[1..]))))
    case Num(t) => level == ATOM && (ts == [TNum(t)] || Bracketed(v, ts))
    case Str(s) => level == ATOM && (ts == [TStr(s)] || Bracketed(v, ts))
    case Null => level == ATOM && (ts == [TNull] || Bracketed(v, ts))
    case Name(p) => level == ATOM && (ts == [TName(p)] || Bracketed(v, ts))
    case _ => level == ATOM && Bracketed(v, ts)
  }

  ghost predicate IsComparison(cmp: CmpOp, l: Expr, r: Expr, ts: seq<Token>)
    decreases |ts|, 0
  {
    || (exists i: nat :: Has(ts, i, TCompare(cmp)) && Reads(3, l, ts[..i]) && Reads(3, r, ts[i + 1..]))
    || (r.Null? && (cmp.Is? || cmp.IsNot?) && ts != [] && ts[|ts| - 1] == TIsNull(cmp.IsNot?)
        && Reads(3, l, ts[..|ts| - 1]))
  }

  ghost predicate Bracketed(v: Expr, ts: seq<Token>)
    decreases |ts|, 0
  {
    InBrackets(ts) && Reads(OR, v, Inside(ts))
  }

  /** A list of trees with a separator between them. */
  ghost predicate AreListed(level: nat, separator: Token, vs: seq<Expr>, ts: seq<Token>)
    decreases |ts|, 3 * level + 4
  {
    vs != [] &&
    if |vs| == 1 then Reads(level, vs[0], ts) else
      exists i: nat :: Has(ts, i, separator) && Reads(level, vs[0], ts[..i])
        && AreListed(level, separator, vs[1..], ts[i + 1..])
  }

  ghost predicate AreItems(vs: seq<Expr>, ts: seq<Token>)
    decreases |ts|, 3 * OR + 5
  {
    if vs == [] then ts == [] else AreListed(OR, TComma, vs, ts)
  }

  lemma {:induction false} Climbs(low: nat, high: nat, v: Expr, ts: seq<Token>)
    requires low <= high && Reads(low, v, ts)
    ensures Reads(high, v, ts)
    decreases high
  {
    if low < high { Climbs(low, high - 1, v, ts); }
  }

  // --------------------------------------------------- what the reader takes in

  /** What was taken off the front. */
  predicate Leaves(ts: seq<Token>, rest: seq<Token>) {
    |rest| <= |ts| && ts[|ts| - |rest|..] == rest
  }

  function Taken(ts: seq<Token>, rest: seq<Token>): seq<Token>
    requires |rest| <= |ts|
  {
    ts[..|ts| - |rest|]
  }

  /** First one part is taken off, then a token, then another part. */
  lemma TakenTwice(ts: seq<Token>, rest: seq<Token>, rest': seq<Token>)
    requires Leaves(ts, rest) && rest != [] && Leaves(rest[1..], rest')
    ensures Leaves(ts, rest')
    ensures var i, used := |ts| - |rest|, Taken(ts, rest');
      i < |used| && used[i] == rest[0] && used[..i] == Taken(ts, rest) && used[i + 1..] == Taken(rest[1..], rest')
  {
  }

  lemma {:induction false} TakesOr(ts: seq<Token>, v: Expr, rest: seq<Token>)
    requires ParseOr(ts) == Done(v, rest)
    ensures Leaves(ts, rest) && Reads(OR, v, Taken(ts, rest))
    decreases |ts|, 12
  {
    var vs := ParseOrs(ts).value;
    TakesOrs(ts, vs, rest);
    if |vs| == 1 { Climbs(AND, OR, v, Taken(ts, rest)); }
  }

  lemma {:induction false} TakesOrs(ts: seq<Token>, vs: seq<Expr>, rest: seq<Token>)
    requires ParseOrs(ts) == Done(vs, rest)
    ensures Leaves(ts, rest) && AreListed(AND, TOr, vs, Taken(ts, rest))
    decreases |ts|, 11
  {
    var first := ParseAnd(ts);
    TakesAnd(ts, first.value, first.rest);
    if first.rest != [] && first.rest[0].TOr? {
      TakesOrs(first.rest[1..], vs[1..], rest);
      ListGoesOn(AND, TOr, ts, first.rest, vs, rest);
    }
  }

  lemma OneMore(level: nat, separator: Token, vs: seq<Expr>, ts: seq<Token>, i: nat)
    requires |vs| > 1 && Has(ts, i, separator) && Reads(level, vs[0], ts[..i])
    requires AreListed(level, separator, vs[1..], ts[i + 1..])
    ensures AreListed(level, separator, vs, ts)
  {
  }

  lemma ListGoesOn(level: nat, separator: Token, ts: seq<Token>, mid: seq<Token>, vs: seq<Expr>, rest: seq<Token>)
    requires |vs| > 1 && Leaves(ts, mid) && Reads(level, vs[0], Taken(ts, mid)) && mid != [] && mid[0] == separator
    requires Leaves(mid[1..], rest) && AreListed(level, separator, vs[1..], Taken(mid[1..], rest))
    ensures Leaves(ts, rest) && AreListed(level, separator, vs, Taken(ts, rest))
  {
    TakenTwice(ts, mid, rest);
    OneMore(level, separator, vs, Taken(ts, rest), |ts| - |mid|);
  }

  lemma {:induction false} TakesAnd(ts: seq<Token>, v: Expr, rest: seq<Token>)
    requires ParseAnd(ts) == Done(v, rest)
    ensures Leaves(ts, rest) && Reads(AND, v, Taken(ts, rest))
    decreases |ts|, 10
  {
    var vs := ParseAnds(ts).value;
    TakesAnds(ts, vs, rest);
    if |vs| == 1 { Climbs(NOT, AND, v, Taken(ts, rest)); }
  }

  lemma {:induction false} TakesAnds(ts: seq<Token>, vs: seq<Expr>, rest: seq<Token>)
    requires ParseAnds(ts) == Done(vs, rest)
    ensures Leaves(ts, rest) && AreListed(NOT, TAnd, vs, Taken(ts, rest))
    decreases |ts|, 9
  {
    var first := ParseNot(ts);
    TakesNot(ts, first.value, first.rest);
    if first.rest != [] && first.rest[0].TAnd? {
      TakesAnds(first.rest[1..], vs[1..], rest);
      ListGoesOn(NOT, TAnd, ts, first.rest, vs, rest);
    }
  }

  lemma {:induction false} TakesNot(ts: seq<Token>, v: Expr, rest: seq<Token>)
    requires ParseNot(ts) == Done(v, rest)
    ensures Leaves(ts, rest) && Reads(NOT, v, Taken(ts, rest))
    decreases |ts|, 8
  {
    if ts != [] && ts[0].TNot? {
      TakesNot(ts[1..], v.inner, rest);
      assert Taken(ts, rest)[1..] == Taken(ts[1..], rest);
    } else {
      TakesPredicate(ts, v, rest);
      Climbs(PREDICATE, NOT, v, Taken(ts, rest));
    }
  }

  lemma {:induction false} TakesPredicate(ts: seq<Token>, v: Expr, rest: seq<Token>)
    requires ParsePredicate(ts) == Done(v, rest)
    ensures Leaves(ts, rest) && Reads(PREDICATE, v, Taken(ts, rest))
    decreases |ts|, 7
  {
    var left := ParseSum(ts);
    TakesSum(ts, left.value, left.rest);
    if left.rest == []
      || !(left.rest[0].TCompare? || left.rest[0].TIsNull? || left.rest[0].TIn? || left.rest[0].TLike?) {
      Climbs(3, PREDICATE, v, Taken(ts, rest));
    } else if left.rest[0].TCompare? {
      TakesSum(left.rest[1..], v.right, rest);
      CompareIsRead(ts, left.rest, left.value, v, rest);
    } else if left.rest[0].TIsNull? {
      NullTestIsRead(ts, left.rest, left.value, v, rest);
    } else if left.rest[0].TLike? {
      LikeIsRead(ts, left.rest, left.value, v, rest);
    } else {
      TakesItems(left.rest[2..], v.right.elts, rest);
      InIsRead(ts, left.rest, left.value, v, rest);
    }
  }

  lemma CompareIsRead(ts: seq<Token>, mid: seq<Token>, left: Expr, v: Expr, rest: seq<Token>)
    requires Leaves(ts, mid) && Reads(3, left, Taken(ts, mid)) && mid != []
    requires v.Compare? && v.left == left && mid[0] == TCompare(v.cmp)
    requires Leaves(mid[1..], rest) && Reads(3, v.right, Taken(mid[1..], rest))
    ensures Leaves(ts, rest) && Reads(PREDICATE, v, Taken(ts, rest))
  {
    TakenTwice(ts, mid, rest);
    assert Has(Taken(ts, rest), |ts| - |mid|, TCompare(v.cmp));
    assert IsComparison(v.cmp, left, v.right, Taken(ts, rest));
    assert Rule(PREDICATE, v, Taken(ts, rest));
  }

  lemma NullTestIsRead(ts: seq<Token>, mid: seq<Token>, left: Expr, v: Expr, rest: seq<Token>)
    requires Leaves(ts, mid) && Reads(3, left, Taken(ts, mid)) && mid != [] && mid[0].TIsNull? && rest == mid[1..]
    requires v == Compare(if mid[0].negated then IsNot else Is, left, Null)
    ensures Leaves(ts, rest) && Reads(PREDICATE, v, Taken(ts, rest))
  {
    var used := Taken(ts, rest);
    assert used[..|used| - 1] == Taken(ts, mid) && used[|used| - 1] == mid[0];
    NullTestReads(if mid[0].negated then IsNot else Is, left, used);
  }

  lemma NullTestReads(cmp: CmpOp, left: Expr, ts: seq<Token>)
    requires (cmp.Is? || cmp.IsNot?) && ts != [] && ts[|ts| - 1] == TIsNull(cmp.IsNot?)
      && Reads(3, left, ts[..|ts| - 1])
    ensures Reads(PREDICATE, Compare(cmp, left, Null), ts)
  {
    assert IsComparison(cmp, left, Null, ts);
    assert Rule(PREDICATE, Compare(cmp, left, Null), ts);
  }

  lemma LikeIsRead(ts: seq<Token>, mid: seq<Token>, left: Expr, v: Expr, rest: seq<Token>)
    requires Leaves(ts, mid) && Reads(3, left, Taken(ts, mid)) && |mid| >= 2 && mid[1].TStr? && rest == mid[2..]
    requires v.Like? && mid[0] == TLike(v.negated) && v.left == left && v.pattern == mid[1].value
    ensures Leaves(ts, rest) && Reads(PREDICATE, v, Taken(ts, rest))
  {
    var used := Taken(ts, rest);
    assert used[..|used| - 2] == Taken(ts, mid) && used[|used| - 2] == mid[0] && used[|used| - 1] == mid[1];
    assert Rule(PREDICATE, v, used);
  }

  lemma InIsRead(ts: seq<Token>, mid: seq<Token>, left: Expr, v: Expr, rest: seq<Token>)
    requires Leaves(ts, mid) && Reads(3, left, Taken(ts, mid)) && |mid| > 1 && mid[1].TOpen?
    requires v.In? && mid[0] == TIn(v.negated) && v.left == left && v.right.List?
    requires Leaves(mid[2..], rest) && |rest| < |mid[2..]|
    requires Taken(mid[2..], rest)[|Taken(mid[2..], rest)| - 1].TClose?
    requires AreItems(v.right.elts, Taken(mid[2..], rest)[..|Taken(mid[2..], rest)| - 1])
    ensures Leaves(ts, rest) && Reads(PREDICATE, v, Taken(ts, rest))
  {
    var used, i := Taken(ts, rest), |ts| - |mid|;
    assert Has(used, i, TIn(v.negated)) && used[..i] == Taken(ts, mid);
    assert used[i + 1..] == [TOpen] + Taken(mid[2..], rest);
    assert Inside(used[i + 1..]) == Taken(mid[2..], rest)[..|Taken(mid[2..], rest)| - 1];
    assert Rule(PREDICATE, v, used);
  }

  lemma {:induction false} TakesSum(ts: seq<Token>, v: Expr, rest: seq<Token>)
    requires ParseSum(ts) == Done(v, rest)
    ensures Leaves(ts, rest) && Reads(3, v, Taken(ts, rest))
    decreases |ts|, 6
  {
    var first := ParseProduct(ts);
    TakesProduct(ts, first.value, first.rest);
    Climbs(2, 3, first.value, Taken(ts, first.rest));
    TakesSumTail(ts, first.value, first.rest, v, rest);
  }

  lemma {:induction false} TakesSumTail(ts: seq<Token>, left: Expr, mid: seq<Token>, v: Expr, rest: seq<Token>)
    requires Leaves(ts, mid) && |mid| < |ts| && Reads(3, left, Taken(ts, mid)) && SumTail(left, mid) == Done(v, rest)
    ensures Leaves(ts, rest) && Reads(3, v, Taken(ts, rest))
    decreases |mid|, 5
  {
    if mid != [] && mid[0].TArith? && IsSum(mid[0].op) {
      var right := ParseProduct(mid[1..]);
      TakesProduct(mid[1..], right.value, right.rest);
      var next := Arith(mid[0].op, left, right.value);
      ArithIsRead(ts, mid, next, right.rest);
      TakesSumTail(ts, next, right.rest, v, rest);
    }
  }

  lemma ArithIsRead(ts: seq<Token>, mid: seq<Token>, v: Expr, rest: seq<Token>)
    requires v.Arith? && v.op != Unmapped && Leaves(ts, mid) && mid != [] && mid[0] == TArith(v.op)
    requires Reads(LeftLevel(v.op), v.left, Taken(ts, mid))
    requires Leaves(mid[1..], rest) && Reads(RightLevel(v.op), v.right, Taken(mid[1..], rest))
    ensures Leaves(ts, rest) && Reads(OpLevel(v.op), v, Taken(ts, rest))
  {
    TakenTwice(ts, mid, rest);
    assert Has(Taken(ts, rest), |ts| - |mid|, TArith(v.op));
  }

  lemma {:induction false} TakesProduct(ts: seq<Token>, v: Expr, rest: seq<Token>)
    requires ParseProduct(ts) == Done(v, rest)
    ensures Leaves(ts, rest) && Reads(2, v, Taken(ts, rest))
    decreases |ts|, 4
  {
    var first := ParsePower(ts);
    TakesPower(ts, first.value, first.rest);
    Climbs(1, 2, first.value, Taken(ts, first.rest));
    TakesProductTail(ts, first.value, first.rest, v, rest);
  }

  lemma {:induction false} TakesProductTail(ts: seq<Token>, left: Expr, mid: seq<Token>, v: Expr, rest: seq<Token>)
    requires Leaves(ts, mid) && |mid| < |ts| && Reads(2, left, Taken(ts, mid))
      && ProductTail(left, mid) == Done(v, rest)
    ensures Leaves(ts, rest) && Reads(2, v, Taken(ts, rest))
    decreases |mid|, 3
  {
    if mid != [] && mid[0].TArith? && IsProduct(mid[0].op) {
      var right := ParsePower(mid[1..]);
      TakesPower(mid[1..], right.value, right.rest);
      var next := Arith(mid[0].op, left, right.value);
      ArithIsRead(ts, mid, next, right.rest);
      TakesProductTail(ts, next, right.rest, v, rest);
    }
  }

  lemma {:induction false} TakesPower(ts: seq<Token>, v: Expr, rest: seq<Token>)
    requires ParsePower(ts) == Done(v, rest)
    ensures Leaves(ts, rest) && Reads(1, v, Taken(ts, rest))
    decreases |ts|, 2
  {
    var base := ParseAtom(ts);
    TakesAtom(ts, base.value, base.rest);
    if base.rest != [] && base.rest[0] == TArith(Pow) {
      TakesPower(base.rest[1..], v.right, rest);
      ArithIsRead(ts, base.rest, v, rest);
    } else {
      Climbs(ATOM, 1, v, Taken(ts, rest));
    }
  }

  lemma {:induction false} TakesAtom(ts: seq<Token>, v: Expr, rest: seq<Token>)
    requires ParseAtom(ts) == Done(v, rest)
    ensures Leaves(ts, rest) && Reads(ATOM, v, Taken(ts, rest))
    decreases |ts|, 1
  {
    if ts[0].TFunc? {
      TakesItems(ts[2..], v.args, rest);
      CallIsRead(ts, v, rest);
    } else if ts[0].TOpen? {
      var inner := ParseOr(ts[1..]);
      TakesOr(ts[1..], v, inner.rest);
      BracketsAreRead(ts, inner.rest, v, rest);
    } else {
      assert Taken(ts, rest) == [ts[0]];
    }
  }

  lemma CallIsRead(ts: seq<Token>, v: Expr, rest: seq<Token>)
    requires |ts| > 1 && v.Call? && ts[0] == TFunc(v.fn) && ts[1].TOpen?
    requires Leaves(ts[2..], rest) && |rest| < |ts[2..]|
    requires Taken(ts[2..], rest)[|Taken(ts[2..], rest)| - 1].TClose?
    requires AreItems(v.args, Taken(ts[2..], rest)[..|Taken(ts[2..], rest)| - 1])
    ensures Leaves(ts, rest) && Reads(ATOM, v, Taken(ts, rest))
  {
    var used := Taken(ts, rest);
    assert used[1..] == [TOpen] + Taken(ts[2..], rest);
    assert Inside(used[1..]) == Taken(ts[2..], rest)[..|Taken(ts[2..], rest)| - 1];
    assert Rule(ATOM, v, used);
  }

  lemma BracketsAreRead(ts: seq<Token>, mid: seq<Token>, v: Expr, rest: seq<Token>)
    requires ts != [] && ts[0].TOpen? && Leaves(ts[1..], mid) && mid != [] && mid[0].TClose? && rest == mid[1..]
    requires Reads(OR, v, Taken(ts[1..], mid))
    ensures Leaves(ts, rest) && Reads(ATOM, v, Taken(ts, rest))
  {
    var used := Taken(ts, rest);
    assert used == [TOpen] + Taken(ts[1..], mid) + [TClose];
    assert Inside(used) == Taken(ts[1..], mid);
    assert Bracketed(v, used);
  }

  lemma {:induction false} TakesItems(ts: seq<Token>, vs: seq<Expr>, rest: seq<Token>)
    requires ParseItems(ts) == Done(vs, rest)
    ensures Leaves(ts, rest) && |rest| < |ts| && Taken(ts, rest)[|Taken(ts, rest)| - 1].TClose?
    ensures AreItems(vs, Taken(ts, rest)[..|Taken(ts, rest)| - 1])
    decreases |ts|, 13
  {
    if !ts[0].TClose? {
      var first := ParseOr(ts);
      TakesOr(ts, first.value, first.rest);
      if first.rest[0].TClose? {
        assert Taken(ts, rest)[..|Taken(ts, rest)| - 1] == Taken(ts, first.rest);
      } else {
        TakesItems(first.rest[1..], vs[1..], rest);
        assert vs[1..] != [];
        ItemsGoOn(ts, first.rest, vs, rest);
      }
    }
  }

  lemma ItemsGoOn(ts: seq<Token>, mid: seq<Token>, vs: seq<Expr>, rest: seq<Token>)
    requires |vs| > 1 && Leaves(ts, mid) && Reads(OR, vs[0], Taken(ts, mid)) && mid != [] && mid[0] == TComma
    requires Leaves(mid[1..], rest) && |rest| < |mid[1..]|
    requires var more := Taken(mid[1..], rest);
      more[|more| - 1].TClose? && AreListed(OR, TComma, vs[1..], more[..|more| - 1])
    ensures Leaves(ts, rest) && |rest| < |ts| && Taken(ts, rest)[|Taken(ts, rest)| - 1].TClose?
    ensures AreListed(OR, TComma, vs, Taken(ts, rest)[..|Taken(ts, rest)| - 1])
  {
    TakenTwice(ts, mid, rest);
    var used, i, more := Taken(ts, rest)[..|Taken(ts, rest)| - 1], |ts| - |mid|, Taken(mid[1..], rest);
    assert used[..i] == Taken(ts, mid) && used[i + 1..] == more[..|more| - 1];
    OneMore(OR, TComma, vs, used, i);
  }
}
