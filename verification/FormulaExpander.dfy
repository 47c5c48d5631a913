/** Expanding saved formulas in the text itself: the references are found by their columns, and
    replaced from right to left so that the columns to the left stay valid. */
module FormulaExpander {
  import opened Models
  import opened NamedMeasures

  /** What to put in the place of `start..end`. */
  datatype Replacement = Replacement(start: nat, end: nat, text: string)

  lemma {:induction false} TextAppend(a: seq<Token>, b: seq<Token>)
    ensures Written(a + b) == Written(a) + Written(b)
    decreases |a|
  {
    if a == [] {
      assert a + b == b;
    } else {
      TextAppend(a[1..], b);
      assert (a + b)[1..] == a[1..] + b;
    }
  }

  lemma TextOfParenthesised(gap: string, inner: seq<Token>)
    ensures Written(Parenthesised(gap, inner)) == gap + "(" + Written(inner) + ")"
  {
    var open, close := Token(gap, "(", OP), Token("", ")", OP);
    TextAppend([open] + inner, [close]);
    TextAppend([open], inner);
    assert [open][1..] == [] && [close][1..] == [];
    assert Written([open]) == gap + "(" + "" && Written([close]) == "" + ")" + "";
  }

  function PrevAt(tokens: seq<Token>, i: nat): Option<Token>
    requires i <= |tokens|
  {
    if i == 0 then None else Some(tokens[i - 1])
  }

  function NextAt(tokens: seq<Token>, i: nat): Option<Token> {
    if i + 1 < |tokens| then Some(tokens[i + 1]) else None
  }

  function Suffix(lib: Library, tokens: seq<Token>, visited: set<string>, i: nat): Result<seq<Token>, string>
    requires i <= |tokens|
  {
    Expand(lib, PrevAt(tokens, i), tokens[i..], visited)
  }

  function PieceAt(lib: Library, tokens: seq<Token>, visited: set<string>, i: nat): Result<seq<Token>, string>
    requires i < |tokens|
  {
    Piece(lib, PrevAt(tokens, i), tokens[i], NextAt(tokens, i), visited)
  }

  predicate ReferenceAt(lib: Library, tokens: seq<Token>, i: nat)
    requires i < |tokens|
  {
    IsReference(lib, PrevAt(tokens, i), tokens[i], NextAt(tokens, i))
  }

  lemma SuffixStep(lib: Library, tokens: seq<Token>, visited: set<string>, i: nat)
    requires i < |tokens|
    ensures Suffix(lib, tokens, visited, i) ==
      match (PieceAt(lib, tokens, visited, i), Suffix(lib, tokens, visited, i + 1))
      case (Err(e), _) => Err(e)
      case (Ok(piece), Err(e)) => Err(e)
      case (Ok(piece), Ok(rest)) => Ok(piece + rest)
  {
    assert tokens[i..][0] == tokens[i] && tokens[i..][1..] == tokens[i + 1..];
    assert First(tokens[i + 1..], None) == NextAt(tokens, i);
  }

  /** The first `i` pieces are fine, so what the rest does decides. */
  lemma {:induction false} RestDecides(lib: Library, tokens: seq<Token>, visited: set<string>, i: nat)
    requires i <= |tokens| && forall j :: 0 <= j < i ==> PieceAt(lib, tokens, visited, j).Ok?
    ensures Suffix(lib, tokens, visited, 0).Ok? <==> Suffix(lib, tokens, visited, i).Ok?
    ensures Suffix(lib, tokens, visited, i).Err? ==> Suffix(lib, tokens, visited, 0) == Suffix(lib, tokens, visited, i)
  {
    if i > 0 {
      RestDecides(lib, tokens, visited, i - 1);
      SuffixStep(lib, tokens, visited, i - 1);
    }
  }

  /** If every token's piece is fine, so is the whole. */
  lemma AllExpand(lib: Library, tokens: seq<Token>, visited: set<string>)
    requires forall j :: 0 <= j < |tokens| ==> PieceAt(lib, tokens, visited, j).Ok?
    ensures Suffix(lib, tokens, visited, 0).Ok?
  {
    RestDecides(lib, tokens, visited, |tokens|);
    assert tokens[|tokens|..] == [];
  }

  lemma {:induction false} SuffixesFine(lib: Library, tokens: seq<Token>, visited: set<string>, i: nat)
    requires i <= |tokens| && Suffix(lib, tokens, visited, 0).Ok?
    ensures Suffix(lib, tokens, visited, i).Ok?
  {
    if i > 0 {
      SuffixesFine(lib, tokens, visited, i - 1);
      SuffixStep(lib, tokens, visited, i - 1);
    }
  }

  // ---------------------------------------------------------------- replacing

  ghost function Start(tokens: seq<Token>, i: nat): nat
    requires i < |tokens|
  {
    |Written(tokens[..i])| + |tokens[i].gap|
  }

  ghost function ReplacementAt(lib: Library, tokens: seq<Token>, visited: set<string>, i: nat): Replacement
    requires i < |tokens| && ReferenceAt(lib, tokens, i) && PieceAt(lib, tokens, visited, i).Ok?
  {
    var s := Start(tokens, i);
    var inner := Expand(lib, None, lib[tokens[i].text], visited + {tokens[i].text}).value;
    Replacement(s, s + |tokens[i].text|, "(" + Written(inner) + ")")
  }

  /** The replacements for the first `i` tokens. */
  ghost function Replacements(lib: Library, tokens: seq<Token>, visited: set<string>, i: nat): seq<Replacement>
    requires i <= |tokens| && forall j :: 0 <= j < i ==> PieceAt(lib, tokens, visited, j).Ok?
  {
    if i == 0 then [] else
      Replacements(lib, tokens, visited, i - 1) +
      (if ReferenceAt(lib, tokens, i - 1) then [ReplacementAt(lib, tokens, visited, i - 1)] else [])
  }

  /** The text when the tokens from the `j`-th on are expanded. */
  ghost function Spliced(lib: Library, tokens: seq<Token>, visited: set<string>, j: nat): string
    requires j <= |tokens| && Suffix(lib, tokens, visited, j).Ok?
  {
    Written(tokens[..j]) + Written(Suffix(lib, tokens, visited, j).value)
  }

  lemma TextSnoc(tokens: seq<Token>, j: nat)
    requires j < |tokens|
    ensures Written(tokens[..j + 1]) == Written(tokens[..j]) + tokens[j].gap + tokens[j].text
  {
    assert tokens[..j + 1] == tokens[..j] + [tokens[j]];
    TextAppend(tokens[..j], [tokens[j]]);
    assert [tokens[j]][1..] == [] && Written([tokens[j]]) == tokens[j].gap + tokens[j].text + "";
  }

  /** A token that is no reference stays as it is. */
  lemma SkipToken(lib: Library, tokens: seq<Token>, visited: set<string>, j: nat)
    requires j < |tokens| && Suffix(lib, tokens, visited, 0).Ok? && !ReferenceAt(lib, tokens, j)
    ensures Suffix(lib, tokens, visited, j).Ok? && Suffix(lib, tokens, visited, j + 1).Ok?
    ensures Spliced(lib, tokens, visited, j) == Spliced(lib, tokens, visited, j + 1)
  {
    SuffixesFine(lib, tokens, visited, j);
    SuffixesFine(lib, tokens, visited, j + 1);
    SuffixStep(lib, tokens, visited, j);
    TextSnoc(tokens, j);
    var rest := Suffix(lib, tokens, visited, j + 1).value;
    TextAppend([tokens[j]], rest);
    assert [tokens[j]][1..] == [] && Written([tokens[j]]) == tokens[j].gap + tokens[j].text + "";
  }

  /** Cutting out a reference by its columns expands it. */
  lemma ReplaceToken(lib: Library, tokens: seq<Token>, visited: set<string>, j: nat)
    requires j < |tokens| && Suffix(lib, tokens, visited, 0).Ok? && ReferenceAt(lib, tokens, j)
    ensures Suffix(lib, tokens, visited, j).Ok? && Suffix(lib, tokens, visited, j + 1).Ok?
    ensures PieceAt(lib, tokens, visited, j).Ok?
    ensures var r, s := ReplacementAt(lib, tokens, visited, j), Spliced(lib, tokens, visited, j + 1);
      r.start <= r.end <= |s| && s[..r.start] + r.text + s[r.end..] == Spliced(lib, tokens, visited, j)
  {
    SuffixesFine(lib, tokens, visited, j);
    SuffixesFine(lib, tokens, visited, j + 1);
    SuffixStep(lib, tokens, visited, j);
    TextSnoc(tokens, j);
    var t, rest := tokens[j], Suffix(lib, tokens, visited, j + 1).value;
    var inner := Expand(lib, None, lib[t.text], visited + {t.text}).value;
    ParenthesisedText(Written(tokens[..j]), t.gap, inner, rest);
    Cut(Written(tokens[..j]) + t.gap, t.text, Written(rest), "(" + Written(inner) + ")");
  }

  lemma ParenthesisedText(before: string, gap: string, inner: seq<Token>, rest: seq<Token>)
    ensures before + Written(Parenthesised(gap, inner) + rest) ==
      before + gap + ("(" + Written(inner) + ")") + Written(rest)
  {
    TextOfParenthesised(gap, inner);
    TextAppend(Parenthesised(gap, inner), rest);
    FourParts(before, gap, "(" + Written(inner) + ")", Written(rest));
    assert gap + "(" + Written(inner) + ")" == gap + ("(" + Written(inner) + ")");
  }

  lemma FourParts(a: string, b: string, c: string, d: string)
    ensures a + ((b + c) + d) == a + b + c + d
  {
  }

  lemma Cut(before: string, middle: string, after: string, text: string)
    ensures var s, start, end := before + middle + after, |before|, |before| + |middle|;
      s[..start] + text + s[end..] == before + text + after
  {
    var s := before + middle + after;
    assert s[..|before|] == before && s[|before| + |middle|..] == after;
  }

  lemma {:induction false} FewerReplacements(lib: Library, tokens: seq<Token>, visited: set<string>, i: nat, n: nat)
    requires i <= n <= |tokens| && forall j :: 0 <= j < n ==> PieceAt(lib, tokens, visited, j).Ok?
    ensures Replacements(lib, tokens, visited, i) <= Replacements(lib, tokens, visited, n)
    decreases n
  {
    if i < n { FewerReplacements(lib, tokens, visited, i, n - 1); }
  }

  // ------------------------------------------------------------------- method

  /** Expands the saved formulas a formula refers to, in its text. */
  method ExpandNamedMeasures(lib: Library, tokens: seq<Token>, visited: set<string>) returns (r: Result<string, string>)
    ensures match Expand(lib, None, tokens, visited)
      case Err(e) => r == Err(e)
      case Ok(expanded) => r == Ok(Written(expanded))
    decreases lib.Keys - visited
  {
    var replacements: seq<Replacement> := [];
    var offset := 0;
    for i := 0 to |tokens|
      invariant forall j :: 0 <= j < i ==> PieceAt(lib, tokens, visited, j).Ok?
      invariant offset == |Written(tokens[..i])|
      invariant replacements == Replacements(lib, tokens, visited, i)
    {
      var t := tokens[i];
      TextSnoc(tokens, i);
      RestDecides(lib, tokens, visited, i);
      SuffixStep(lib, tokens, visited, i);
      assert tokens[0..] == tokens;
      if IsReference(lib, PrevAt(tokens, i), t, NextAt(tokens, i)) {
        if t.text in visited { return Err(t.text); }
        assert t.text in lib.Keys - visited;
        var inner := ExpandNamedMeasures(lib, lib[t.text], visited + {t.text});
        if inner.Err? { return Err(inner.error); }
        var start := offset + |t.gap|;
        replacements := replacements + [Replacement(start, start + |t.text|, "(" + inner.value + ")")];
      }
      offset := offset + |t.gap| + |t.text|;
    }
    AllExpand(lib, tokens, visited);
    assert tokens[0..] == tokens && tokens[..|tokens|] == tokens;
    var result := SpliceAll(lib, tokens, visited, replacements);
    return Ok(result);
  }

  /** Applies the replacements, the last first. */
  method SpliceAll(lib: Library, tokens: seq<Token>, ghost visited: set<string>, replacements: seq<Replacement>)
    returns (result: string)
    requires forall j :: 0 <= j < |tokens| ==> PieceAt(lib, tokens, visited, j).Ok?
    requires Suffix(lib, tokens, visited, 0).Ok? && replacements == Replacements(lib, tokens, visited, |tokens|)
    ensures result == Written(Suffix(lib, tokens, visited, 0).value)
  {
    result := Written(tokens);
    var k := |replacements|;
    ghost var j := |tokens|;
    assert tokens[..j] == tokens && tokens[j..] == [] && Written(tokens) + Written([]) == Written(tokens);
    while k > 0
      invariant j <= |tokens| && Suffix(lib, tokens, visited, j).Ok? && k <= |replacements|
      invariant result == Spliced(lib, tokens, visited, j)
      invariant k == |Replacements(lib, tokens, visited, j)|
    {
      j := LastReference(lib, tokens, visited, j);
      ReplaceToken(lib, tokens, visited, j - 1);
      FewerReplacements(lib, tokens, visited, j, |tokens|);
      k := k - 1;
      var r := replacements[k];
      assert r == ReplacementAt(lib, tokens, visited, j - 1);
      result := result[..r.start] + r.text + result[r.end..];
      j := j - 1;
    }
    NoReferenceLeft(lib, tokens, visited, j);
  }

  /** Walks back over tokens that stay, to just after the last reference. */
  lemma {:induction false} LastReference(lib: Library, tokens: seq<Token>, visited: set<string>, j: nat)
    returns (i: nat)
    requires j <= |tokens| && Suffix(lib, tokens, visited, 0).Ok?
    requires forall m :: 0 <= m < j ==> PieceAt(lib, tokens, visited, m).Ok?
    requires Suffix(lib, tokens, visited, j).Ok? && Replacements(lib, tokens, visited, j) != []
    ensures 0 < i <= j && ReferenceAt(lib, tokens, i - 1) && Suffix(lib, tokens, visited, i).Ok?
    ensures Spliced(lib, tokens, visited, i) == Spliced(lib, tokens, visited, j)
    ensures Replacements(lib, tokens, visited, i) == Replacements(lib, tokens, visited, j)
    decreases j
  {
    if ReferenceAt(lib, tokens, j - 1) {
      i := j;
    } else {
      SkipToken(lib, tokens, visited, j - 1);
      i := LastReference(lib, tokens, visited, j - 1);
    }
  }

  lemma {:induction false} NoReferenceLeft(lib: Library, tokens: seq<Token>, visited: set<string>, j: nat)
    requires j <= |tokens| && Suffix(lib, tokens, visited, 0).Ok? && Suffix(lib, tokens, visited, j).Ok?
    requires forall m :: 0 <= m < j ==> PieceAt(lib, tokens, visited, m).Ok?
    requires Replacements(lib, tokens, visited, j) == []
    ensures Spliced(lib, tokens, visited, j) == Written(Suffix(lib, tokens, visited, 0).value)
    decreases j
  {
    if j > 0 {
      SkipToken(lib, tokens, visited, j - 1);
      NoReferenceLeft(lib, tokens, visited, j - 1);
    }
  }
}
