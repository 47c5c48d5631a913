/** Saved formulas: expanding the ones a formula refers to by name. */
module NamedMeasures {
  import opened Models
  import opened Cycles

  datatype Kind = NAME | OP | OTHER

  /** A token and the blanks before it. Keywords are no names. */
  datatype Token = Token(gap: string, text: string, kind: Kind)

  type Library = map<string, seq<Token>>

  function Written(tokens: seq<Token>): string {
    if tokens == [] then "" else tokens[0].gap + tokens[0].text + Written(tokens[1..])
  }

  // -------------------------------------------------------------- references

  /** After a `.` or `:` a name belongs to what is before it. */
  predicate TakesNext(prev: Option<Token>) {
    prev.Some? && prev.value.kind == OP && prev.value.text in {".", ":"}
  }

  /** Before a `.`, `:`, `(` or `=` a name is something else than a measure. */
  predicate TakesPrevious(next: Option<Token>) {
    next.Some? && next.value.kind == OP && next.value.text in {".", ":", "(", "="}
  }

  predicate IsBare(prev: Option<Token>, t: Token, next: Option<Token>) {
    t.kind == NAME && !TakesNext(prev) && !TakesPrevious(next)
  }

  predicate IsReference(lib: Library, prev: Option<Token>, t: Token, next: Option<Token>) {
    t.text in lib && IsBare(prev, t, next)
  }

  function First(tokens: seq<Token>, otherwise: Option<Token>): Option<Token> {
    if tokens == [] then otherwise else Some(tokens[0])
  }

  /** The saved formulas that the tokens after `prev` refer to, in order. */
  function References(lib: Library, prev: Option<Token>, tokens: seq<Token>): seq<string>
    decreases |tokens|
  {
    if tokens == [] then [] else
      (if IsReference(lib, prev, tokens[0], First(tokens[1..], None)) then [tokens[0].text] else [])
      + References(lib, Some(tokens[0]), tokens[1..])
  }

  function ReferenceGraph(lib: Library): Graph<string> {
    map n | n in lib :: References(lib, None, lib[n])
  }

  predicate IsOneOf(t: Token, texts: set<string>) {
    t.kind == OP && t.text in texts
  }

  /** The token at `i` is a name of the library that neither continues what is before it nor is
      continued by what follows. */
  predicate RefersAt(lib: Library, prev: Option<Token>, tokens: seq<Token>, i: nat)
    requires i < |tokens|
  {
    && tokens[i].kind == NAME && tokens[i].text in lib
    && (i > 0 ==> !IsOneOf(tokens[i - 1], {".", ":"}))
    && (i == 0 && prev.Some? ==> !IsOneOf(prev.value, {".", ":"}))
    && (i + 1 < |tokens| ==> !IsOneOf(tokens[i + 1], {".", ":", "(", "="}))
  }

  /** The references by their positions. */
  lemma {:induction false} ReferencesAreBareNames(lib: Library, prev: Option<Token>, tokens: seq<Token>, n: string)
    ensures n in References(lib, prev, tokens) <==>
      exists i :: 0 <= i < |tokens| && tokens[i].text == n && RefersAt(lib, prev, tokens, i)
    decreases |tokens|
  {
    if tokens != [] {
      var t, rest := tokens[0], tokens[1..];
      ReferencesAreBareNames(lib, Some(t), rest, n);
      assert RefersAt(lib, prev, tokens, 0) <==> IsReference(lib, prev, t, First(rest, None));
      assert forall i :: 0 <= i < |rest| ==> (RefersAt(lib, Some(t), rest, i) <==> RefersAt(lib, prev, tokens, i + 1));
      assert References(lib, prev, tokens) ==
        (if RefersAt(lib, prev, tokens, 0) then [t.text] else []) + References(lib, Some(t), rest);
      if exists i :: 0 <= i < |tokens| && tokens[i].text == n && RefersAt(lib, prev, tokens, i) {
        var i :| 0 <= i < |tokens| && tokens[i].text == n && RefersAt(lib, prev, tokens, i);
        if i > 0 { assert rest[i - 1].text == n && RefersAt(lib, Some(t), rest, i - 1); }
      }
    }
  }

  // --------------------------------------------------------------- expansion

  function Parenthesised(gap: string, inner: seq<Token>): seq<Token> {
    [Token(gap, "(", OP)] + inner + [Token("", ")", OP)]
  }

  /** The tokens with every reference replaced by its own formula, expanded; `visited` are the
      formulas that are being expanded around them. The error names the formula met again. */
  function Expand(lib: Library, prev: Option<Token>, tokens: seq<Token>, visited: set<string>)
    : Result<seq<Token>, string>
    decreases lib.Keys - visited, |tokens|
  {
    if tokens == [] then Ok([]) else
      match Piece(lib, prev, tokens[0], First(tokens[1..], None), visited)
      case Err(e) => Err(e)
      case Ok(piece) =>
        match Expand(lib, Some(tokens[0]), tokens[1..], visited)
        case Err(e) => Err(e)
        case Ok(rest) => Ok(piece + rest)
  }

  function Piece(lib: Library, prev: Option<Token>, t: Token, next: Option<Token>, visited: set<string>)
    : Result<seq<Token>, string>
    decreases lib.Keys - visited, 0
  {
    if !IsReference(lib, prev, t, next) then Ok([t])
    else if t.text in visited then Err(t.text)
    else
      assert t.text in lib.Keys - visited;
      match Expand(lib, None, lib[t.text], visited + {t.text})
      case Err(e) => Err(e)
      case Ok(inner) => Ok(Parenthesised(t.gap, inner))
  }

  // ------------------------------------------------------------------ cycles

  /** An expansion that raises has come back to a formula it is inside of. */
  lemma {:induction false} RaisedIsCyclic(
    lib: Library, prev: Option<Token>, tokens: seq<Token>, chain: seq<string>, visited: set<string>)
    requires chain != [] && IsChain(ReferenceGraph(lib), chain) && (forall n :: n in visited <==> n in chain)
    requires forall n :: n in References(lib, prev, tokens) ==> n in Next(ReferenceGraph(lib), chain[|chain| - 1])
    requires Expand(lib, prev, tokens, visited).Err?
    ensures CyclicFrom(ReferenceGraph(lib), chain[|chain| - 1])
    decreases lib.Keys - visited, |tokens|
  {
    var g, t := ReferenceGraph(lib), tokens[0];
    if IsReference(lib, prev, t, First(tokens[1..], None)) {
      assert References(lib, prev, tokens)[0] == t.text && t.text in References(lib, prev, tokens);
      assert Next(g, t.text) == References(lib, None, lib[t.text]);
      ChainSnoc(g, chain, t.text);
      if t.text in visited {
        ClosesCycle(g, chain, t.text);
        CyclicStep(g, chain[|chain| - 1], t.text);
        return;
      }
      if Expand(lib, None, lib[t.text], visited + {t.text}).Err? {
        assert t.text in lib.Keys - visited;
        var longer := chain + [t.text];
        assert longer[|longer| - 1] == t.text;
        RaisedIsCyclic(lib, None, lib[t.text], longer, visited + {t.text});
        CyclicStep(g, chain[|chain| - 1], t.text);
        return;
      }
    }
    assert forall n :: n in References(lib, Some(t), tokens[1..]) ==> n in References(lib, prev, tokens);
    RaisedIsCyclic(lib, Some(t), tokens[1..], chain, visited);
  }

  lemma {:induction false} ReferenceExpands(
    lib: Library, prev: Option<Token>, tokens: seq<Token>, visited: set<string>, n: string)
    requires Expand(lib, prev, tokens, visited).Ok? && n in References(lib, prev, tokens)
    ensures n in lib && n !in visited && Expand(lib, None, lib[n], visited + {n}).Ok?
    decreases |tokens|
  {
    if !(IsReference(lib, prev, tokens[0], First(tokens[1..], None)) && tokens[0].text == n) {
      ReferenceExpands(lib, Some(tokens[0]), tokens[1..], visited, n);
    }
  }

  /** An expansion that succeeds has followed every chain of references to its end. */
  lemma {:induction false} ExpandedIsShort(
    lib: Library, prev: Option<Token>, tokens: seq<Token>, visited: set<string>, p: seq<string>)
    requires Expand(lib, prev, tokens, visited).Ok? && IsChain(ReferenceGraph(lib), p)
    requires p[0] in References(lib, prev, tokens)
    ensures |p| <= |lib.Keys - visited|
    decreases |p|
  {
    ReferenceExpands(lib, prev, tokens, visited, p[0]);
    var left := lib.Keys - visited;
    assert p[0] in left && lib.Keys - (visited + {p[0]}) == left - {p[0]};
    if |p| > 1 { ExpandedIsShort(lib, None, lib[p[0]], visited + {p[0]}, p[1..]); }
  }

  /** Expanding a formula raises exactly if a reference cycle can be reached from it. */
  lemma ExpansionRaisesIffCyclic(lib: Library, tokens: seq<Token>)
    ensures Expand(lib, None, tokens, {}).Err? <==>
      exists n :: n in References(lib, None, tokens) && CyclicFrom(ReferenceGraph(lib), n)
  {
    if Expand(lib, None, tokens, {}).Err? {
      RaisedAtTop(lib, None, tokens);
    } else {
      assert lib.Keys - {} == lib.Keys;
      forall n | n in References(lib, None, tokens) ensures !CyclicFrom(ReferenceGraph(lib), n) {
        if CyclicFrom(ReferenceGraph(lib), n) {
          var p := LongChain(ReferenceGraph(lib), n, |lib|);
          ExpandedIsShort(lib, None, tokens, {}, p);
        }
      }
    }
  }

  lemma {:induction false} RaisedAtTop(lib: Library, prev: Option<Token>, tokens: seq<Token>)
    requires Expand(lib, prev, tokens, {}).Err?
    ensures exists n :: n in References(lib, prev, tokens) && CyclicFrom(ReferenceGraph(lib), n)
    decreases |tokens|
  {
    var t, g := tokens[0], ReferenceGraph(lib);
    if IsReference(lib, prev, t, First(tokens[1..], None)) && Expand(lib, None, lib[t.text], {t.text}).Err? {
      assert {} + {t.text} == {t.text} && References(lib, prev, tokens)[0] == t.text;
      RaisedIsCyclic(lib, None, lib[t.text], [t.text], {t.text});
    } else {
      assert {} + {t.text} == {t.text};
      RaisedAtTop(lib, Some(t), tokens[1..]);
      var n :| n in References(lib, Some(t), tokens[1..]) && CyclicFrom(g, n);
      assert n in References(lib, prev, tokens);
    }
  }

  // ------------------------------------------------------------- substitution

  /** One pass over the tokens, with the replacements given. */
  function Substitute(lib: Library, prev: Option<Token>, tokens: seq<Token>, table: Library): seq<Token>
    requires forall n :: n in References(lib, prev, tokens) ==> n in table
    decreases |tokens|
  {
    if tokens == [] then [] else
      var t := tokens[0];
      var refs := References(lib, prev, tokens);
      var isRef := IsReference(lib, prev, t, First(tokens[1..], None));
      assert isRef ==> refs[0] == t.text;
      assert forall n :: n in References(lib, Some(t), tokens[1..]) ==> n in refs;
      (if isRef then Parenthesised(t.gap, table[t.text]) else [t]) + Substitute(lib, Some(t), tokens[1..], table)
  }

  /** The table solves the library: each of its formulas is its own with the others put in. */
  ghost predicate Solves(lib: Library, table: Library) {
    forall n :: n in table ==>
      && n in lib && (forall r :: r in References(lib, None, lib[n]) ==> r in table)
      && table[n] == Substitute(lib, None, lib[n], table)
  }

  /** Expansion is simultaneous substitution, by any solution of the library. */
  lemma {:induction false} ExpansionIsSubstitution(
    lib: Library, prev: Option<Token>, tokens: seq<Token>, visited: set<string>, table: Library, r: seq<Token>)
    requires Expand(lib, prev, tokens, visited) == Ok(r) && Solves(lib, table)
    requires forall n :: n in References(lib, prev, tokens) ==> n in table
    ensures r == Substitute(lib, prev, tokens, table)
    decreases lib.Keys - visited, |tokens|
  {
    if tokens != [] {
      var t := tokens[0];
      assert forall n :: n in References(lib, Some(t), tokens[1..]) ==> n in References(lib, prev, tokens);
      ExpansionIsSubstitution(
        lib, Some(t), tokens[1..], visited, table, Expand(lib, Some(t), tokens[1..], visited).value);
      if IsReference(lib, prev, t, First(tokens[1..], None)) {
        assert References(lib, prev, tokens)[0] == t.text && t.text in lib.Keys - visited;
        var inner := Expand(lib, None, lib[t.text], visited + {t.text}).value;
        ExpansionIsSubstitution(lib, None, lib[t.text], visited + {t.text}, table, inner);
      }
    }
  }

  /** What is being expanded around a formula changes nothing but whether it raises. */
  lemma {:induction false} VisitedOnlyGuards(
    lib: Library, prev: Option<Token>, tokens: seq<Token>, visited: set<string>, fewer: set<string>)
    requires fewer <= visited && Expand(lib, prev, tokens, visited).Ok?
    ensures Expand(lib, prev, tokens, fewer) == Expand(lib, prev, tokens, visited)
    decreases lib.Keys - visited, |tokens|
  {
    if tokens != [] {
      var t := tokens[0];
      VisitedOnlyGuards(lib, Some(t), tokens[1..], visited, fewer);
      if IsReference(lib, prev, t, First(tokens[1..], None)) {
        assert t.text in lib.Keys - visited;
        VisitedOnlyGuards(lib, None, lib[t.text], visited + {t.text}, fewer + {t.text});
      }
    }
  }

  /** The formulas that expand, expanded. */
  function Expansions(lib: Library): Library {
    map n | n in lib && Expand(lib, None, lib[n], {n}).Ok? :: Expand(lib, None, lib[n], {n}).value
  }

  lemma {:induction false} ReferencesExpand(
    lib: Library, prev: Option<Token>, tokens: seq<Token>, visited: set<string>, r: seq<Token>)
    requires Expand(lib, prev, tokens, visited) == Ok(r)
    ensures forall n :: n in References(lib, prev, tokens) ==> n in Expansions(lib)
    ensures r == Substitute(lib, prev, tokens, Expansions(lib))
    decreases |tokens|
  {
    if tokens != [] {
      var t := tokens[0];
      ReferencesExpand(lib, Some(t), tokens[1..], visited, Expand(lib, Some(t), tokens[1..], visited).value);
      if IsReference(lib, prev, t, First(tokens[1..], None)) {
        VisitedOnlyGuards(lib, None, lib[t.text], visited + {t.text}, {t.text});
      }
    }
  }

  /** A library has a solution for all its formulas that expand: their expansions. */
  lemma ExpansionsSolve(lib: Library)
    ensures Solves(lib, Expansions(lib))
  {
    forall n | n in Expansions(lib)
      ensures forall r :: r in References(lib, None, lib[n]) ==> r in Expansions(lib)
      ensures Expansions(lib)[n] == Substitute(lib, None, lib[n], Expansions(lib))
    {
      ReferencesExpand(lib, None, lib[n], {n}, Expansions(lib)[n]);
    }
  }

  // -------------------------------------------------------------- idempotence

  /** No reference is left between `prev` and `next`. */
  predicate Settled(lib: Library, prev: Option<Token>, tokens: seq<Token>, next: Option<Token>)
    decreases |tokens|
  {
    tokens == [] ||
    (!IsReference(lib, prev, tokens[0], First(tokens[1..], next)) &&
     Settled(lib, Some(tokens[0]), tokens[1..], next))
  }

  function Last(tokens: seq<Token>, otherwise: Option<Token>): Option<Token> {
    if tokens == [] then otherwise else Some(tokens[|tokens| - 1])
  }

  lemma {:induction false} SettledJoin(
    lib: Library, prev: Option<Token>, a: seq<Token>, b: seq<Token>, next: Option<Token>)
    requires Settled(lib, prev, a, First(b, next)) && Settled(lib, Last(a, prev), b, next)
    ensures Settled(lib, prev, a + b, next)
    decreases |a|
  {
    if a == [] {
      assert a + b == b;
    } else {
      assert (a + b)[1..] == a[1..] + b;
      SettledJoin(lib, Some(a[0]), a[1..], b, next);
    }
  }

  /** What an expansion starts with takes the token before it just as the original did. */
  lemma ExpandedFirst(lib: Library, prev: Option<Token>, tokens: seq<Token>, visited: set<string>, r: seq<Token>)
    requires Expand(lib, prev, tokens, visited) == Ok(r) && TakesPrevious(First(tokens, None))
    ensures r != [] && r[0] == tokens[0]
  {
  }

  lemma {:induction false} ExpandedIsSettled(
    lib: Library, prev: Option<Token>, tokens: seq<Token>, visited: set<string>, r: seq<Token>,
    prev': Option<Token>, next': Option<Token>)
    requires Expand(lib, prev, tokens, visited) == Ok(r)
    requires TakesNext(prev) == TakesNext(prev') && !TakesPrevious(next')
    ensures Settled(lib, prev', r, next')
    decreases lib.Keys - visited, |tokens|
  {
    if tokens != [] {
      var t, rest := tokens[0], Expand(lib, Some(tokens[0]), tokens[1..], visited).value;
      if IsReference(lib, prev, t, First(tokens[1..], None)) {
        assert t.text in lib.Keys - visited;
        var inner := Expand(lib, None, lib[t.text], visited + {t.text}).value;
        var open, close := Token(t.gap, "(", OP), Token("", ")", OP);
        ExpandedIsSettled(lib, None, lib[t.text], visited + {t.text}, inner, Some(open), Some(close));
        ExpandedIsSettled(lib, Some(t), tokens[1..], visited, rest, Some(close), next');
        SettledJoin(lib, Some(open), inner, [close], First(rest, next'));
        assert Parenthesised(t.gap, inner) == [open] + (inner + [close]);
        SettledJoin(lib, prev', [open], inner + [close], First(rest, next'));
        SettledJoin(lib, prev', Parenthesised(t.gap, inner), rest, next');
      } else {
        ExpandedIsSettled(lib, Some(t), tokens[1..], visited, rest, Some(t), next');
        if TakesPrevious(First(tokens[1..], None)) { ExpandedFirst(lib, Some(t), tokens[1..], visited, rest); }
        assert ([t] + rest)[1..] == rest;
      }
    }
  }

  lemma {:induction false} SettledStays(lib: Library, prev: Option<Token>, tokens: seq<Token>, visited: set<string>)
    requires Settled(lib, prev, tokens, None)
    ensures Expand(lib, prev, tokens, visited) == Ok(tokens)
    decreases |tokens|
  {
    if tokens != [] {
      SettledStays(lib, Some(tokens[0]), tokens[1..], visited);
      assert [tokens[0]] + tokens[1..] == tokens;
    }
  }

  /** Expanding twice is expanding once. */
  lemma ExpansionIsIdempotent(lib: Library, tokens: seq<Token>, r: seq<Token>)
    requires Expand(lib, None, tokens, {}) == Ok(r)
    ensures Expand(lib, None, r, {}) == Ok(r)
  {
    ExpandedIsSettled(lib, None, tokens, {}, r, None, None);
    SettledStays(lib, None, r, {});
  }
}
