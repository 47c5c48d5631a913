/** SQL as text: writing a tree without adding parentheses, and reading it by operator precedence. */
module SqlText {
  import opened Models

  datatype Token =
    | TText(text: string) | TCol(ref: Ref) | TInfix(op: string) | TCall(op: string) | TOpen | TClose | TComma

  /** How tightly the infix operators bind, up to `top`; all else is written as calls. */
  datatype Table = Table(tiers: map<string, nat>, top: nat)

  ghost predicate WellTiered(t: Table) {
    forall op :: op in t.tiers ==> t.tiers[op] <= t.top
  }

  predicate IsInfix(t: Table, e: Sql) {
    e.App? && |e.args| == 2 && e.op in t.tiers
  }

  function Write(t: Table, e: Sql): seq<Token>
    decreases e, 1
  {
    match e
    case Text(s) => [TText(s)]
    case Col(r) => [TCol(r)]
    case Paren(x) => [TOpen] + (Write(t, x) + [TClose])
    case App(op, args) =>
      if |args| == 2 && op in t.tiers then Write(t, args[0]) + ([TInfix(op)] + Write(t, args[1]))
      else [TCall(op), TOpen] + (WriteAll(t, args) + [TClose])
  }

  function WriteAll(t: Table, args: seq<Sql>): seq<Token>
    decreases args, 0
  {
    if args == [] then []
    else if |args| == 1 then Write(t, args[0])
    else Write(t, args[0]) + ([TComma] + WriteAll(t, args[1..]))
  }

  /** How tightly an expression holds together. */
  function Tier(t: Table, e: Sql): nat {
    if IsInfix(t, e) then t.tiers[e.op] else t.top + 1
  }

  /** Operands of an infix operator that binds tighter stand in parentheses; on the left, operators of
      the same tier need none. */
  predicate Grouped(t: Table, e: Sql) {
    match e
    case Text(_) => true
    case Col(_) => true
    case Paren(x) => Grouped(t, x)
    case App(op, args) =>
      && (forall i :: 0 <= i < |args| ==> Grouped(t, args[i]))
      && (IsInfix(t, e) ==> Tier(t, args[0]) >= t.tiers[op] && Tier(t, args[1]) > t.tiers[op])
  }

  // ----------------------------------------------------------------- reading

  datatype Parsed<+T> = Fail | Done(value: T, rest: seq<Token>) {
    predicate IsFailure() { Fail? }

    function PropagateFailure<U>(): Parsed<U>
      requires Fail?
    {
      Fail
    }

    function Extract(): (T, seq<Token>)
      requires Done?
    {
      (value, rest)
    }
  }

  predicate StartsInfix(t: Table, k: nat, ts: seq<Token>) {
    ts != [] && ts[0].TInfix? && ts[0].op in t.tiers && t.tiers[ts[0].op] == k
  }

  /** Reads operators of tier `k` and up, those of one tier from the left. */
  function ReadTier(t: Table, k: nat, ts: seq<Token>): (p: Parsed<Sql>)
    ensures p.Done? ==> |p.rest| < |ts|
    decreases |ts|, 1, t.top + 1 - k
  {
    if k > t.top then ReadAtom(t, ts) else
      var (left, rest) :- ReadTier(t, k + 1, ts);
      ReadTail(t, k, left, rest)
  }

  function ReadTail(t: Table, k: nat, left: Sql, ts: seq<Token>): (p: Parsed<Sql>)
    ensures p.Done? ==> |p.rest| <= |ts|
    decreases |ts|, 2, 0
  {
    if StartsInfix(t, k, ts) then
      var (right, rest) :- ReadTier(t, k + 1, ts[1..]);
      ReadTail(t, k, App(ts[0].op, [left, right]), rest)
    else Done(left, ts)
  }

  function ReadAtom(t: Table, ts: seq<Token>): (p: Parsed<Sql>)
    ensures p.Done? ==> |p.rest| < |ts|
    decreases |ts|, 0, 0
  {
    if ts == [] then Fail else
      match ts[0]
      case TText(s) => Done(Text(s), ts[1..])
      case TCol(r) => Done(Col(r), ts[1..])
      case TOpen =>
        var (e, rest) :- ReadTier(t, 0, ts[1..]);
        if rest != [] && rest[0].TClose? then Done(Paren(e), rest[1..]) else Fail
      case TCall(op) =>
        if |ts| > 1 && ts[1].TOpen? then
          var (args, rest) :- ReadItems(t, ts[2..]);
          if |args| == 2 && op in t.tiers then Fail else Done(App(op, args), rest)
        else Fail
      case _ => Fail
  }

  /** Comma-separated expressions up to and including the closing parenthesis. */
  function ReadItems(t: Table, ts: seq<Token>): (p: Parsed<seq<Sql>>)
    ensures p.Done? ==> |p.rest| < |ts|
    decreases |ts|, 3, 0
  {
    if ts != [] && ts[0].TClose? then Done([], ts[1..]) else
      var (e, rest) :- ReadTier(t, 0, ts);
      if rest == [] then Fail
      else if rest[0].TClose? then Done([e], rest[1..])
      else if rest[0].TComma? && !(|rest| > 1 && rest[1].TClose?) then
        var (es, rest') :- ReadItems(t, rest[1..]);
        Done([e] + es, rest')
      else Fail
  }

  function Read(t: Table, ts: seq<Token>): Option<Sql> {
    match ReadTier(t, 0, ts)
    case Fail => None
    case Done(e, rest) => if rest == [] then Some(e) else None
  }

  // ---------------------------------------------------- what is written is read

  /** No operator of tier `k` or tighter goes on here. */
  predicate EndsAt(t: Table, k: nat, rest: seq<Token>) {
    rest != [] && rest[0].TInfix? ==> rest[0].op in t.tiers ==> t.tiers[rest[0].op] < k
  }

  /** What is read at a tighter tier, and goes on no tighter than `k`, is what tier `k` goes on from. */
  lemma {:induction false} Descends(t: Table, k: nat, j: nat, ts: seq<Token>, e: Sql, rest: seq<Token>)
    requires k <= j <= t.top + 1 && EndsAt(t, k + 1, rest)
    requires ReadTier(t, j, ts) == Done(e, rest) && (k < j || EndsAt(t, k, rest))
    ensures k < j && k <= t.top ==> ReadTier(t, k, ts) == ReadTail(t, k, e, rest)
    decreases j - k
  {
    if k + 1 < j {
      Descends(t, k + 1, j, ts, e, rest);
      assert ReadTail(t, k + 1, e, rest) == Done(e, rest);
    }
  }

  lemma {:induction false} ReadsWritten(t: Table, e: Sql, k: nat, rest: seq<Token>)
    requires WellTiered(t) && Grouped(t, e) && k <= Tier(t, e) && k <= t.top && EndsAt(t, k + 1, rest)
    ensures ReadTier(t, k, Write(t, e) + rest) == ReadTail(t, k, e, rest)
    decreases e, 3
  {
    if IsInfix(t, e) {
      ReadsInfix(t, e, rest, k);
    } else {
      ReadsAtom(t, e, rest);
      assert ReadTier(t, t.top + 1, Write(t, e) + rest) == Done(e, rest);
      Descends(t, k, t.top + 1, Write(t, e) + rest, e, rest);
    }
  }

  /** At a tighter tier than any operator in front of `rest`, the whole is read. */
  lemma {:induction false} ReadsWhole(t: Table, e: Sql, k: nat, rest: seq<Token>)
    requires WellTiered(t) && Grouped(t, e) && k <= Tier(t, e) && EndsAt(t, k, rest)
    ensures ReadTier(t, k, Write(t, e) + rest) == Done(e, rest)
    decreases e, 4
  {
    if k <= t.top { ReadsWritten(t, e, k, rest); } else { ReadsAtom(t, e, rest); }
  }

  lemma Regroup(a: seq<Token>, x: Token, b: seq<Token>, rest: seq<Token>)
    ensures (a + ([x] + b)) + rest == a + ([x] + (b + rest)) && ([x] + (b + rest))[1..] == b + rest
  {
  }

  lemma {:induction false} ReadsInfix(t: Table, e: Sql, rest: seq<Token>, k: nat)
    requires WellTiered(t) && Grouped(t, e) && IsInfix(t, e) && k <= Tier(t, e) && EndsAt(t, k + 1, rest)
    ensures ReadTier(t, k, Write(t, e) + rest) == ReadTail(t, k, e, rest)
    decreases e, 2
  {
    var j, l, r := t.tiers[e.op], e.args[0], e.args[1];
    var tail := [TInfix(e.op)] + (Write(t, r) + rest);
    Regroup(Write(t, l), TInfix(e.op), Write(t, r), rest);
    ReadsWritten(t, l, j, tail);
    ReadsWhole(t, r, j + 1, rest);
    assert e == App(e.op, [l, r]) by { assert e.args == [l, r]; }
    assert ReadTier(t, j, Write(t, e) + rest) == ReadTail(t, j, e, rest);
    if k < j {
      assert ReadTail(t, j, e, rest) == Done(e, rest);
      Descends(t, k, j, Write(t, e) + rest, e, rest);
    }
  }

  lemma {:induction false} ReadsAtom(t: Table, e: Sql, rest: seq<Token>)
    requires WellTiered(t) && Grouped(t, e) && !IsInfix(t, e)
    ensures ReadAtom(t, Write(t, e) + rest) == Done(e, rest)
    decreases e, 2
  {
    match e
    case Text(_) => assert (Write(t, e) + rest)[1..] == rest;
    case Col(_) => assert (Write(t, e) + rest)[1..] == rest;
    case Paren(x) =>
      ReadsWhole(t, x, 0, [TClose] + rest);
      ReadsParen(t, x, rest);
    case App(op, args) =>
      ReadsItems(t, args, rest);
      ReadsCall(t, op, args, rest);
  }

  lemma ReadsParen(t: Table, x: Sql, rest: seq<Token>)
    requires ReadTier(t, 0, Write(t, x) + ([TClose] + rest)) == Done(x, [TClose] + rest)
    ensures ReadAtom(t, Write(t, Paren(x)) + rest) == Done(Paren(x), rest)
  {
    var ts, end := Write(t, Paren(x)) + rest, [TClose] + rest;
    assert ts[1..] == Write(t, x) + end && end[1..] == rest;
  }

  lemma ReadsCall(t: Table, op: string, args: seq<Sql>, rest: seq<Token>)
    requires !IsInfix(t, App(op, args))
    requires ReadItems(t, WriteAll(t, args) + ([TClose] + rest)) == Done(args, rest)
    ensures ReadAtom(t, Write(t, App(op, args)) + rest) == Done(App(op, args), rest)
  {
    var ts, end := Write(t, App(op, args)) + rest, [TClose] + rest;
    assert ts[2..] == WriteAll(t, args) + end;
  }

  lemma {:induction false} ReadsItems(t: Table, args: seq<Sql>, rest: seq<Token>)
    requires WellTiered(t) && forall i :: 0 <= i < |args| ==> Grouped(t, args[i])
    ensures ReadItems(t, WriteAll(t, args) + ([TClose] + rest)) == Done(args, rest)
    decreases args, 0
  {
    var end := [TClose] + rest;
    assert end[1..] == rest;
    if args == [] {
      assert [] + end == end;
    } else if |args| == 1 {
      ReadsWhole(t, args[0], 0, end);
      Starts(t, args[0]);
      assert args == [args[0]];
    } else {
      var others := WriteAll(t, args[1..]);
      ReadsItems(t, args[1..], rest);
      ReadsWhole(t, args[0], 0, [TComma] + (others + end));
      Regroup(Write(t, args[0]), TComma, others, end);
      Starts(t, args[0]);
      StartsAll(t, args[1..]);
      assert args == [args[0]] + args[1..];
    }
  }

  lemma {:induction false} Starts(t: Table, e: Sql)
    ensures Write(t, e) != [] && !Write(t, e)[0].TClose?
    decreases e
  {
    if IsInfix(t, e) {
      Starts(t, e.args[0]);
      assert Write(t, e)[0] == Write(t, e.args[0])[0];
    }
  }

  lemma StartsAll(t: Table, args: seq<Sql>)
    requires args != []
    ensures WriteAll(t, args) != [] && !WriteAll(t, args)[0].TClose?
  {
    Starts(t, args[0]);
  }

  // --------------------------------------------- what is read was written

  lemma {:induction false} TierWasWritten(t: Table, k: nat, ts: seq<Token>, e: Sql, rest: seq<Token>)
    requires WellTiered(t) && k <= t.top + 1 && ReadTier(t, k, ts) == Done(e, rest)
    ensures ts == Write(t, e) + rest && Grouped(t, e) && Tier(t, e) >= k
    decreases |ts|, 1, t.top + 1 - k
  {
    if k > t.top {
      AtomWasWritten(t, ts, e, rest);
    } else {
      var left := ReadTier(t, k + 1, ts);
      TierWasWritten(t, k + 1, ts, left.value, left.rest);
      TailWasWritten(t, k, left.value, left.rest, e, rest);
    }
  }

  lemma {:induction false} TailWasWritten(t: Table, k: nat, left: Sql, ts: seq<Token>, e: Sql, rest: seq<Token>)
    requires WellTiered(t) && k <= t.top && Grouped(t, left) && Tier(t, left) >= k
    requires ReadTail(t, k, left, ts) == Done(e, rest)
    ensures Write(t, left) + ts == Write(t, e) + rest && Grouped(t, e) && Tier(t, e) >= k
    decreases |ts|, 2, 0
  {
    if StartsInfix(t, k, ts) {
      var op, right := ts[0].op, ReadTier(t, k + 1, ts[1..]);
      var next := App(op, [left, right.value]);
      TierWasWritten(t, k + 1, ts[1..], right.value, right.rest);
      TailWasWritten(t, k, next, right.rest, e, rest);
      assert ts == [TInfix(op)] + (Write(t, right.value) + right.rest);
      Regroup(Write(t, left), TInfix(op), Write(t, right.value), right.rest);
    }
  }

  lemma {:induction false} AtomWasWritten(t: Table, ts: seq<Token>, e: Sql, rest: seq<Token>)
    requires WellTiered(t) && ReadAtom(t, ts) == Done(e, rest)
    ensures ts == Write(t, e) + rest && Grouped(t, e) && !IsInfix(t, e)
    decreases |ts|, 0, 0
  {
    match ts[0]
    case TText(_) => assert ts == [ts[0]] + rest;
    case TCol(_) => assert ts == [ts[0]] + rest;
    case TOpen =>
      var inner := ReadTier(t, 0, ts[1..]);
      TierWasWritten(t, 0, ts[1..], e.inner, inner.rest);
      assert inner.rest == [TClose] + rest && ts == [TOpen] + ts[1..];
      assert ts == [TOpen] + (Write(t, e.inner) + [TClose]) + rest;
    case TCall(op) =>
      ItemsWereWritten(t, ts[2..], e.args, rest);
      assert ts == [TCall(op), TOpen] + ts[2..];
      assert ts == [TCall(op), TOpen] + (WriteAll(t, e.args) + [TClose]) + rest;
  }

  lemma {:induction false} ItemsWereWritten(t: Table, ts: seq<Token>, args: seq<Sql>, rest: seq<Token>)
    requires WellTiered(t) && ReadItems(t, ts) == Done(args, rest)
    ensures ts == WriteAll(t, args) + ([TClose] + rest) && forall i :: 0 <= i < |args| ==> Grouped(t, args[i])
    decreases |ts|, 3, 0
  {
    if ts[0].TClose? {
      assert ts == [] + ([TClose] + rest);
    } else {
      var first := ReadTier(t, 0, ts);
      TierWasWritten(t, 0, ts, first.value, first.rest);
      if first.rest[0].TClose? {
        assert first.rest == [TClose] + rest && args == [first.value];
      } else {
        var more := first.rest[1..];
        ItemsWereWritten(t, more, args[1..], rest);
        assert args == [first.value] + args[1..] && args[1..] != [];
        assert first.rest == [TComma] + more;
        assert ts == Write(t, args[0]) + ([TComma] + WriteAll(t, args[1..])) + ([TClose] + rest);
      }
    }
  }

  /** Text is read as a tree exactly if it is what the tree is written as, and the tree is grouped. */
  lemma ReadIffWritten(t: Table, ts: seq<Token>, e: Sql)
    requires WellTiered(t)
    ensures Read(t, ts) == Some(e) <==> ts == Write(t, e) && Grouped(t, e)
  {
    if Read(t, ts) == Some(e) {
      TierWasWritten(t, 0, ts, e, []);
      assert Write(t, e) + [] == Write(t, e);
    } else if ts == Write(t, e) && Grouped(t, e) {
      GroupedReadsBack(t, e);
    }
  }

  /** A grouped tree is read back from its text. */
  lemma GroupedReadsBack(t: Table, e: Sql)
    requires WellTiered(t) && Grouped(t, e)
    ensures Read(t, Write(t, e)) == Some(e)
  {
    ReadsWhole(t, e, 0, []);
    assert Write(t, e) + [] == Write(t, e);
  }
}
