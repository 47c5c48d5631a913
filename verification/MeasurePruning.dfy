/** Dropping the imported measures whose formulas refer to something that is not there. */
module MeasurePruning {
  import opened Models
  import opened NamedMeasures

  datatype Measure = Measure(name: string, formula: seq<Token>)

  /** The saved formulas by name; of two of the same name the later counts. */
  function LibraryOf(measures: seq<Measure>): Library {
    if measures == [] then map[] else
      var last := measures[|measures| - 1];
      LibraryOf(measures[..|measures| - 1])[last.name := last.formula]
  }

  /** The last measure of a name is the one that counts. */
  lemma {:induction false} LastOfItsName(measures: seq<Measure>, i: nat)
    requires i < |measures| && forall k :: i < k < |measures| ==> measures[k].name != measures[i].name
    ensures measures[i].name in LibraryOf(measures) && LibraryOf(measures)[measures[i].name] == measures[i].formula
  {
    if i < |measures| - 1 { LastOfItsName(measures[..|measures| - 1], i); }
  }

  /** No bare name is left, so every name has become an aggregation or a call. */
  predicate NoBareNames(prev: Option<Token>, tokens: seq<Token>, next: Option<Token>)
    decreases |tokens|
  {
    tokens == [] ||
    (!IsBare(prev, tokens[0], First(tokens[1..], next)) && NoBareNames(Some(tokens[0]), tokens[1..], next))
  }

  /** Whether a formula parses, as far as the names in it go. */
  predicate Parses(lib: Library, formula: seq<Token>) {
    var r := Expand(lib, None, formula, {});
    r.Ok? && NoBareNames(None, r.value, None)
  }

  /** Every bare name is a saved formula that resolves in turn, and none comes back to itself. */
  predicate Resolves(lib: Library, prev: Option<Token>, tokens: seq<Token>, visited: set<string>)
    decreases lib.Keys - visited, |tokens|
  {
    tokens == [] ||
    ((IsBare(prev, tokens[0], First(tokens[1..], None)) ==> NameResolves(lib, tokens[0].text, visited))
     && Resolves(lib, Some(tokens[0]), tokens[1..], visited))
  }

  predicate NameResolves(lib: Library, n: string, visited: set<string>)
    decreases lib.Keys - visited, 0
  {
    n in lib && n !in visited &&
    (assert n in lib.Keys - visited;
     Resolves(lib, None, lib[n], visited + {n}))
  }

  // ------------------------------------------------- parsing is resolving

  lemma {:induction false} NoBareJoin(prev: Option<Token>, a: seq<Token>, b: seq<Token>, next: Option<Token>)
    ensures NoBareNames(prev, a + b, next) <==>
      NoBareNames(prev, a, First(b, next)) && NoBareNames(Last(a, prev), b, next)
    decreases |a|
  {
    if a == [] {
      assert a + b == b;
    } else {
      assert (a + b)[1..] == a[1..] + b;
      NoBareJoin(Some(a[0]), a[1..], b, next);
    }
  }

  /** No name directly follows another, as in every formula that is an expression. */
  predicate Separated(tokens: seq<Token>)
    decreases |tokens|
  {
    |tokens| <= 1 || (!(tokens[0].kind == NAME && tokens[1].kind == NAME) && Separated(tokens[1..]))
  }

  ghost predicate AllSeparated(lib: Library) {
    forall n :: n in lib ==> Separated(lib[n])
  }

  /** Whether a name is bare does not change when what follows it is expanded. */
  lemma StaysBare(
    lib: Library, prev: Option<Token>, tokens: seq<Token>, visited: set<string>, rest: seq<Token>,
    prev': Option<Token>, next': Option<Token>)
    requires tokens != [] && Separated(tokens) && Expand(lib, Some(tokens[0]), tokens[1..], visited) == Ok(rest)
    requires TakesNext(prev) == TakesNext(prev') && !TakesPrevious(next')
    ensures IsBare(prev', tokens[0], First(rest, next')) <==> IsBare(prev, tokens[0], First(tokens[1..], None))
  {
    if |tokens| > 1 && tokens[1].kind != NAME { assert rest != [] && rest[0] == tokens[1]; }
  }

  lemma {:induction false} ExpandedNames(
    lib: Library, prev: Option<Token>, tokens: seq<Token>, visited: set<string>, prev': Option<Token>,
    next': Option<Token>)
    requires AllSeparated(lib) && Separated(tokens)
    requires TakesNext(prev) == TakesNext(prev') && !TakesPrevious(next')
    ensures var r := Expand(lib, prev, tokens, visited);
      (r.Ok? && NoBareNames(prev', r.value, next')) <==> Resolves(lib, prev, tokens, visited)
    decreases lib.Keys - visited, |tokens|
  {
    if tokens != [] {
      var t := tokens[0];
      if !IsReference(lib, prev, t, First(tokens[1..], None)) {
        var rest := Expand(lib, Some(t), tokens[1..], visited);
        ExpandedNames(lib, Some(t), tokens[1..], visited, Some(t), next');
        if rest.Ok? {
          StaysBare(lib, prev, tokens, visited, rest.value, prev', next');
          assert ([t] + rest.value)[1..] == rest.value;
        }
      } else if t.text !in visited {
        assert t.text in lib.Keys - visited;
        var open, close := Token(t.gap, "(", OP), Token("", ")", OP);
        ExpandedNames(lib, None, lib[t.text], visited + {t.text}, Some(open), Some(close));
        ExpandedNames(lib, Some(t), tokens[1..], visited, Some(close), next');
        var inner, rest :=
          Expand(lib, None, lib[t.text], visited + {t.text}), Expand(lib, Some(t), tokens[1..], visited);
        if inner.Ok? && rest.Ok? { ParenthesisedNames(t.gap, inner.value, rest.value, prev', next'); }
      }
    }
  }

  lemma ParenthesisedNames(
    gap: string, inner: seq<Token>, rest: seq<Token>, prev: Option<Token>, next: Option<Token>)
    ensures var open, close := Token(gap, "(", OP), Token("", ")", OP);
      NoBareNames(prev, Parenthesised(gap, inner) + rest, next) <==>
      NoBareNames(Some(open), inner, Some(close)) && NoBareNames(Some(close), rest, next)
  {
    var open, close := Token(gap, "(", OP), Token("", ")", OP);
    NoBareJoin(prev, Parenthesised(gap, inner), rest, next);
    NoBareJoin(prev, [open] + inner, [close], First(rest, next));
    NoBareJoin(prev, [open], inner, Some(close));
    assert [open][1..] == [] && [close][1..] == [];
  }

  /** A formula parses exactly if all its bare names resolve, each without coming back to itself. */
  lemma ParsingIsResolving(lib: Library, formula: seq<Token>)
    requires AllSeparated(lib) && Separated(formula)
    ensures Parses(lib, formula) <==> Resolves(lib, None, formula, {})
  {
    ExpandedNames(lib, None, formula, {}, None, None);
  }

  /** Without a separator the text that is put in changes what is before it: `cumsum one` is no
      formula, but becomes a call. */
  lemma AdjacentNamesBecomeACall()
    ensures
      var formula := [Token("", "cumsum", NAME), Token(" ", "one", NAME)];
      var lib := map["one" := [Token("", "1", OTHER)]];
      !Resolves(lib, None, formula, {}) && Parses(lib, formula) &&
      Written(Expand(lib, None, formula, {}).value) == "cumsum (1)"
  {
    var cumsum, name, one := Token("", "cumsum", NAME), Token(" ", "one", NAME), Token("", "1", OTHER);
    var open, close, lib := Token(" ", "(", OP), Token("", ")", OP), map["one" := [Token("", "1", OTHER)]];
    assert |"one"| == 3 && |"cumsum"| == 6;
    assert [one][1..] == [] && [one] + [] == [one];
    assert Expand(lib, None, [one], {} + {"one"}) == Ok([one]);
    assert [cumsum, name][1..] == [name] && [name][1..] == [];
    assert Piece(lib, Some(cumsum), name, None, {}) == Ok(Parenthesised(" ", [one]));
    assert Expand(lib, Some(cumsum), [name], {}) == Ok(Parenthesised(" ", [one]) + []);
    var whole := [cumsum, open, one, close];
    assert [cumsum] + (Parenthesised(" ", [one]) + []) == whole;
    assert Expand(lib, None, [cumsum, name], {}) == Ok(whole);
    assert whole[1..] == [open, one, close] && whole[1..][1..] == [one, close] && [one, close][1..] == [close];
    assert [close][1..] == [];
    assert Written([close]) == "" + ")" + "";
    assert Written([one, close]) == "" + "1" + Written([close]);
    assert Written([open, one, close]) == " " + "(" + Written([one, close]);
    assert NoBareNames(Some(one), [close], None) && NoBareNames(Some(open), [one, close], None);
    assert NoBareNames(Some(cumsum), [open, one, close], None);
  }

  // ------------------------------------------------------ other libraries

  predicate SubLibrary(lib: Library, lib': Library) {
    forall n :: n in lib ==> n in lib' && lib'[n] == lib[n]
  }

  lemma {:induction false} ResolvesInMore(
    lib: Library, lib': Library, prev: Option<Token>, tokens: seq<Token>, visited: set<string>)
    requires SubLibrary(lib, lib') && Resolves(lib, prev, tokens, visited)
    ensures Resolves(lib', prev, tokens, visited)
    decreases lib.Keys - visited, |tokens|
  {
    if tokens != [] {
      var n := tokens[0].text;
      if IsBare(prev, tokens[0], First(tokens[1..], None)) {
        assert n in lib.Keys - visited;
        ResolvesInMore(lib, lib', None, lib[n], visited + {n});
      }
      ResolvesInMore(lib, lib', Some(tokens[0]), tokens[1..], visited);
    }
  }

  /** What is not to be met again is not needed. */
  lemma {:induction false} ResolvesWithout(
    lib: Library, prev: Option<Token>, tokens: seq<Token>, visited: set<string>, gone: set<string>)
    requires gone <= visited && Resolves(lib, prev, tokens, visited)
    ensures Resolves(lib - gone, prev, tokens, visited - gone)
    decreases lib.Keys - visited, |tokens|
  {
    if tokens != [] {
      var n := tokens[0].text;
      if IsBare(prev, tokens[0], First(tokens[1..], None)) {
        assert n in lib.Keys - visited;
        ResolvesWithout(lib, None, lib[n], visited + {n}, gone);
        assert visited + {n} - gone == visited - gone + {n};
      }
      ResolvesWithout(lib, Some(tokens[0]), tokens[1..], visited, gone);
    }
  }

  /** The formulas of `lib` that resolve without themselves in `all`. */
  function Resolving(all: Library, lib: Library): Library
    requires lib.Keys <= all.Keys
  {
    map n | n in lib && Resolves(all - {n}, None, all[n], {}) :: lib[n]
  }

  /** A formula that resolves does so by formulas that resolve themselves. */
  lemma {:induction false} ResolvesByResolving(
    all: Library, lib: Library, prev: Option<Token>, tokens: seq<Token>, visited: set<string>)
    requires SubLibrary(lib, all) && lib.Keys <= all.Keys && Resolves(lib, prev, tokens, visited)
    ensures Resolves(Resolving(all, lib), prev, tokens, visited)
    decreases lib.Keys - visited, |tokens|
  {
    if tokens != [] {
      var n := tokens[0].text;
      if IsBare(prev, tokens[0], First(tokens[1..], None)) {
        assert n in lib.Keys - visited;
        var met := visited + {n};
        ResolvesWithout(lib, None, lib[n], met, met);
        assert met - met == {};
        ResolvesInMore(lib - met, all - {n}, None, lib[n], {});
        ResolvesByResolving(all, lib, None, lib[n], met);
      }
      ResolvesByResolving(all, lib, Some(tokens[0]), tokens[1..], visited);
    }
  }

  // ----------------------------------------------------------------- sweeps

  ghost predicate UniqueNames(measures: seq<Measure>) {
    forall i, j :: 0 <= i < j < |measures| ==> measures[i].name != measures[j].name
  }

  ghost predicate WellSpaced(measures: seq<Measure>) {
    forall m :: m in measures ==> Separated(m.formula)
  }

  /** Whether a measure parses with the others as its library. */
  predicate Survives(measures: seq<Measure>, m: Measure) {
    Parses(LibraryOf(measures) - {m.name}, m.formula)
  }

  /** The measures that survive, or those that do not, in order. */
  function Sifted(all: seq<Measure>, measures: seq<Measure>, survive: bool): seq<Measure> {
    if measures == [] then [] else
      var k := |measures| - 1;
      Sifted(all, measures[..k], survive) + (if Survives(all, measures[k]) == survive then [measures[k]] else [])
  }

  /** The sweep splits the measures. */
  lemma {:induction false} SweepSplits(all: seq<Measure>, measures: seq<Measure>, m: Measure)
    ensures m in Sifted(all, measures, true) <==> m in measures && Survives(all, m)
    ensures m in Sifted(all, measures, false) <==> m in measures && !Survives(all, m)
  {
    if measures != [] {
      var k := |measures| - 1;
      SweepSplits(all, measures[..k], m);
      assert measures == measures[..k] + [measures[k]];
    }
  }

  /** One sweep over the measures. */
  function Sweep(measures: seq<Measure>): seq<Measure> {
    Sifted(measures, measures, true)
  }

  /** Every measure parses by the others. */
  ghost predicate SelfSupporting(measures: seq<Measure>) {
    UniqueNames(measures) && forall m :: m in measures ==> Survives(measures, m)
  }

  lemma {:induction false} LibraryHas(measures: seq<Measure>)
    requires UniqueNames(measures)
    ensures forall m :: m in measures ==> m.name in LibraryOf(measures) && LibraryOf(measures)[m.name] == m.formula
    ensures forall n :: n in LibraryOf(measures) ==> exists m :: m in measures && m.name == n
  {
    if measures != [] {
      var k := |measures| - 1;
      LibraryHas(measures[..k]);
      assert measures == measures[..k] + [measures[k]];
      forall n | n in LibraryOf(measures) ensures exists m :: m in measures && m.name == n {
        if n == measures[k].name {
          assert measures[k] in measures;
        } else {
          assert n in LibraryOf(measures[..k]);
          var m :| m in measures[..k] && m.name == n;
          assert m in measures;
        }
      }
    }
  }

  lemma LibraryOfFewer(some: seq<Measure>, all: seq<Measure>)
    requires UniqueNames(some) && UniqueNames(all) && forall m :: m in some ==> m in all
    ensures SubLibrary(LibraryOf(some), LibraryOf(all))
  {
    LibraryHas(some);
    LibraryHas(all);
  }

  lemma SurvivesIsResolving(measures: seq<Measure>, m: Measure)
    requires UniqueNames(measures) && WellSpaced(measures) && Separated(m.formula)
    ensures Survives(measures, m) <==> Resolves(LibraryOf(measures) - {m.name}, None, m.formula, {})
  {
    LibraryHas(measures);
    ParsingIsResolving(LibraryOf(measures) - {m.name}, m.formula);
  }

  lemma {:induction false} KeptIsUnique(all: seq<Measure>, measures: seq<Measure>)
    requires UniqueNames(measures)
    ensures UniqueNames(Sifted(all, measures, true))
  {
    if measures != [] {
      var k := |measures| - 1;
      KeptIsUnique(all, measures[..k]);
      var rest := Sifted(all, measures[..k], true);
      forall j | 0 <= j < |rest| ensures rest[j].name != measures[k].name {
        SweepSplits(all, measures[..k], rest[j]);
        var i :| 0 <= i < k && measures[..k][i] == rest[j];
      }
    }
  }

  /** A set of measures that supports itself survives the sweep of any set around it. */
  lemma SelfSupportingSurvives(some: seq<Measure>, all: seq<Measure>, m: Measure)
    requires UniqueNames(all) && WellSpaced(all) && SelfSupporting(some) && (forall s :: s in some ==> s in all)
    requires m in some
    ensures m in Sweep(all)
  {
    LibraryOfFewer(some, all);
    SurvivesIsResolving(some, m);
    SurvivesIsResolving(all, m);
    ResolvesInMore(LibraryOf(some) - {m.name}, LibraryOf(all) - {m.name}, None, m.formula, {});
    SweepSplits(all, all, m);
  }

  /** What survives one sweep survives the next: it does not need what was dropped. */
  lemma SurvivesAgain(all: seq<Measure>, m: Measure)
    requires UniqueNames(all) && WellSpaced(all) && m in Sweep(all)
    ensures Survives(Sweep(all), m)
  {
    var kept, lib := Sweep(all), LibraryOf(all);
    var others := lib - {m.name};
    KeptIsUnique(all, all);
    forall s: Measure { SweepSplits(all, all, s); }
    LibraryHas(all);
    LibraryHas(kept);
    SurvivesIsResolving(all, m);
    ResolvesByResolving(lib, others, None, m.formula, {});
    var good := Resolving(lib, others);
    forall n | n in good ensures n in LibraryOf(kept) - {m.name} && LibraryOf(kept)[n] == good[n] {
      var s :| s in all && s.name == n;
      SurvivesIsResolving(all, s);
      assert s in kept;
    }
    ResolvesInMore(good, LibraryOf(kept) - {m.name}, None, m.formula, {});
    SurvivesIsResolving(kept, m);
  }

  lemma {:induction false} AllKept(all: seq<Measure>, measures: seq<Measure>)
    requires forall i :: 0 <= i < |measures| ==> Survives(all, measures[i])
    ensures Sifted(all, measures, true) == measures && Sifted(all, measures, false) == []
  {
    if measures != [] {
      var k := |measures| - 1;
      AllKept(all, measures[..k]);
      var last := measures[k];
      assert Survives(all, last);
      assert measures[..k] + [last] == measures;
    }
  }

  /** One sweep reaches the fixpoint. */
  lemma SweepIsFinal(measures: seq<Measure>)
    requires UniqueNames(measures) && WellSpaced(measures)
    ensures Sweep(Sweep(measures)) == Sweep(measures) && SelfSupporting(Sweep(measures))
  {
    forall m | m in Sweep(measures) ensures Survives(Sweep(measures), m) { SurvivesAgain(measures, m); }
    KeptIsUnique(measures, measures);
    AllKept(Sweep(measures), Sweep(measures));
  }

  /** Drops and reports the measures that do not parse, until a sweep drops none. What is left is
      the greatest set that supports itself, in its order; each other is reported once. */
  method PruneModelMeasures(measures: seq<Measure>)
    returns (survivors: seq<Measure>, reported: seq<Measure>, sweeps: nat)
    requires UniqueNames(measures) && WellSpaced(measures)
    ensures survivors == Sweep(measures) && SelfSupporting(survivors)
    ensures forall some, m ::
      SelfSupporting(some) && (forall s :: s in some ==> s in measures) && m in some ==> m in survivors
    ensures reported == Sifted(measures, measures, false)
    ensures sweeps == if reported == [] then 1 else 2
  {
    survivors, reported, sweeps := measures, [], 0;
    var changed := true;
    SweepIsFinal(measures);
    while changed
      invariant sweeps == 0 ==> survivors == measures && reported == [] && changed
      invariant sweeps > 0 ==> survivors == Sweep(measures) && reported == Sifted(measures, measures, false)
      invariant sweeps == 1 ==> (changed <==> reported != [])
      invariant sweeps <= 2 && (sweeps == 2 ==> !changed && reported != [])
      decreases 2 - sweeps, changed
    {
      var kept, dropped := SweepOnce(survivors);
      AllOrSome(survivors);
      changed := dropped != [];
      reported := reported + dropped;
      if changed { survivors := kept; }
      sweeps := sweeps + 1;
    }
    forall some, m | SelfSupporting(some) && (forall s :: s in some ==> s in measures) && m in some
      ensures m in survivors
    {
      SelfSupportingSurvives(some, measures, m);
    }
  }

  lemma AllOrSome(measures: seq<Measure>)
    ensures Sifted(measures, measures, false) == [] <==> Sweep(measures) == measures
  {
    if Sifted(measures, measures, false) == [] {
      forall m | m in measures ensures Survives(measures, m) {
        SweepSplits(measures, measures, m);
      }
      AllKept(measures, measures);
    } else {
      var d := Sifted(measures, measures, false)[0];
      SweepSplits(measures, measures, d);
    }
  }

  /** Parses every measure with the others as its library. */
  method SweepOnce(measures: seq<Measure>) returns (kept: seq<Measure>, dropped: seq<Measure>)
    ensures kept == Sweep(measures) && dropped == Sifted(measures, measures, false)
  {
    kept, dropped := [], [];
    var named := LibraryOf(measures);
    for i := 0 to |measures|
      invariant kept == Sifted(measures, measures[..i], true) && dropped == Sifted(measures, measures[..i], false)
    {
      var m := measures[i];
      assert measures[..i + 1][..i] == measures[..i];
      if Parses(named - {m.name}, m.formula) { kept := kept + [m]; } else { dropped := dropped + [m]; }
    }
    assert measures[..|measures|] == measures;
  }
}
