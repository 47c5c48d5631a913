/** Parsing a formula keeps its meaning. */
module FormulaParsing {
  import opened Models
  import opened Formulas

  ghost predicate IsPlaceholder(n: string) {
    exists k: nat :: n == Placeholder(k)
  }

  /** Aggregations are replaced by names of the form `__agg<n>__`. */
  predicate IsRefs(refs: AggRefs) {
    forall n :: n in refs ==> "__agg" <= n && '.' !in n
  }

  lemma RefIsNoPlaceholder(n: string)
    requires "__agg" <= n
    ensures !IsPlaceholder(n) && !HiddenShape(n)
  {
    assert n[1] == "__agg"[1];
    forall k: nat ensures n != Placeholder(k) { assert Placeholder(k)[1] == 't'; }
  }

  // ------------------------------------------------------ expressions without calls

  lemma {:induction false} TextMeans(g: Grouping, a: Ast, refs: AggRefs, names: seq<string>)
    requires !HasCall(a) && (forall n :: n in NamesOf(a) ==> n in names)
    ensures TermMeaning(ToTerm(a), RefValues(Restrict(refs, names))) == Meaning(g, a, refs)
    decreases a, 1
  {
    if a.Op? { TextsMean(g, a.args, refs, names); }
  }

  lemma {:induction false} TextsMean(g: Grouping, args: seq<Ast>, refs: AggRefs, names: seq<string>)
    requires !AnyHasCall(args) && (forall n :: n in NamesOfAll(args) ==> n in names)
    ensures TermMeaningAll(ToTerms(args), RefValues(Restrict(refs, names))) == MeaningAll(g, args, refs)
    decreases args, 0
  {
    if args != [] {
      TextMeans(g, args[0], refs, names);
      TextsMean(g, args[1..], refs, names);
      assert ToTerms(args)[1..] == ToTerms(args[1..]);
    }
  }

  // --------------------------------------------------- transforms taken out

  /** The placeholders count up from zero. */
  predicate Numbered(subs: seq<Sub>) {
    forall i :: 0 <= i < |subs| ==> subs[i].placeholder == Placeholder(i)
  }

  predicate Extends(h: Hoisted, h': Hoisted) {
    h.subs <= h'.subs && h.names <= h'.names
  }

  lemma {:induction false} HoistExtends(a: Ast, refs: AggRefs, h: Hoisted, t: Term, h': Hoisted)
    requires Hoist(a, refs, h) == Ok((t, h')) && Numbered(h.subs)
    ensures Extends(h, h') && Numbered(h'.subs)
    decreases a, if a.Transform? then 3 else 0
  {
    if a.Op? {
      var r := HoistAll(a.args, refs, h).value;
      HoistAllExtends(a.args, refs, h, r.0, r.1);
    } else if a.Scalar? {
      var r := HoistAll(a.args, refs, h).value;
      HoistAllExtends(a.args, refs, h, r.0, r.1);
    }
  }

  lemma {:induction false} HoistAllExtends(args: seq<Ast>, refs: AggRefs, h: Hoisted, ts: seq<Term>, h': Hoisted)
    requires HoistAll(args, refs, h) == Ok((ts, h')) && Numbered(h.subs)
    ensures Extends(h, h') && Numbered(h'.subs)
    decreases args, 4
  {
    if args != [] {
      var first := Hoist(args[0], refs, h).value;
      HoistExtends(args[0], refs, h, first.0, first.1);
      HoistAllExtends(args[1..], refs, first.1, ts[1..], h');
    }
  }

  predicate Distinct(subs: seq<Sub>) {
    forall i, j :: 0 <= i < j < |subs| ==> subs[i].placeholder != subs[j].placeholder
  }

  lemma NumberedIsDistinct(subs: seq<Sub>)
    requires Numbered(subs)
    ensures Distinct(subs) && forall s :: s in subs ==> IsPlaceholder(s.placeholder)
  {
    forall i, j | 0 <= i < j < |subs| ensures subs[i].placeholder != subs[j].placeholder {
      if subs[i].placeholder == subs[j].placeholder { PlaceholderInjective(i, j); }
    }
  }

  /** Every placeholder has the value of its transform, and nothing else has one. */
  lemma {:induction false} SubMeaningsAt(g: Grouping, subs: seq<Sub>, m: map<string, Value>)
    requires Distinct(subs) && SubMeanings(g, subs) == Some(m)
    ensures forall s :: s in subs ==> s.placeholder in m && SpecMeaning(g, s.spec) == Some(m[s.placeholder])
    ensures forall n :: n in m ==> IsBound(subs, n)
  {
    if subs != [] {
      var rest := SubMeanings(g, subs[1..]).value;
      SubMeaningsAt(g, subs[1..], rest);
      forall s | s in subs ensures s.placeholder in m && SpecMeaning(g, s.spec) == Some(m[s.placeholder]) {
        var i :| 0 <= i < |subs| && subs[i] == s;
        if i > 0 { assert s == subs[1..][i - 1] && subs[0].placeholder != subs[i].placeholder; }
      }
      forall n | n in m ensures IsBound(subs, n) {
        if n == subs[0].placeholder {
        } else {
          var i :| 0 <= i < |subs[1..]| && subs[1..][i].placeholder == n;
          assert subs[i + 1].placeholder == n;
        }
      }
    }
  }

  lemma {:induction false} SubMeaningsDefined(g: Grouping, subs: seq<Sub>)
    ensures SubMeanings(g, subs).Some? <==> forall s :: s in subs ==> SpecMeaning(g, s.spec).Some?
  {
    if subs != [] {
      SubMeaningsDefined(g, subs[1..]);
      assert SubMeanings(g, subs).Some? <==> SpecMeaning(g, subs[0].spec).Some? && SubMeanings(g, subs[1..]).Some?;
      assert subs == [subs[0]] + subs[1..];
    }
  }

  // --------------------------------------------------------- captured names

  /** Which of the first `n` placeholders a name is. */
  function PlaceholderIndex(id: string, n: nat): (r: Option<nat>)
    ensures r.Some? ==> r.value < n && Placeholder(r.value) == id
    ensures r.None? ==> forall k: nat :: k < n ==> Placeholder(k) != id
  {
    if n == 0 then None else if Placeholder(n - 1) == id then Some(n - 1) else PlaceholderIndex(id, n - 1)
  }

  /** The formula that parsing reads: in an expression around transforms, a bare name that is the
      placeholder of one of them is read as that transform. */
  function AsRead(a: Ast): Ast
    decreases a, 1
  {
    match a
    case Transform(fn, x, p) => Transform(fn, AsRead(x), p)
    case Op(_, _, _) => if HasCall(a) then Fill(a, Taken(a)) else a
    case Scalar(_, _) => Fill(a, Taken(a))
    case _ => a
  }

  /** The transforms that are taken out of an expression, in order, as they are read. */
  function Taken(a: Ast): seq<Ast>
    decreases a, 0
  {
    match a
    case Transform(fn, x, p) => [Transform(fn, AsRead(x), p)]
    case Op(_, _, args) => TakenAll(args)
    case Scalar(_, args) => TakenAll(args)
    case _ => []
  }

  function TakenAll(args: seq<Ast>): seq<Ast>
    decreases args, 0
  {
    if args == [] then [] else Taken(args[0]) + TakenAll(args[1..])
  }

  /** The expression with the placeholders' names standing for the transforms. */
  function Fill(a: Ast, taken: seq<Ast>): Ast
    decreases a, 0
  {
    match a
    case Name(id) => var k := PlaceholderIndex(id, |taken|); if k.Some? then taken[k.value] else a
    case Transform(fn, x, p) => Transform(fn, AsRead(x), p)
    case Op(op, isPredicate, args) => Op(op, isPredicate, FillAll(args, taken))
    case Scalar(fn, args) => Scalar(fn, FillAll(args, taken))
    case _ => a
  }

  function FillAll(args: seq<Ast>, taken: seq<Ast>): seq<Ast>
    decreases args, 0
  {
    if args == [] then [] else [Fill(args[0], taken)] + FillAll(args[1..], taken)
  }

  /** How many transforms are taken out of an expression. */
  function Count(a: Ast): nat
    decreases a, 1
  {
    match a
    case Transform(_, _, _) => 1
    case Op(_, _, args) => CountAll(args)
    case Scalar(_, args) => CountAll(args)
    case _ => 0
  }

  function CountAll(args: seq<Ast>): nat
    decreases args, 0
  {
    if args == [] then 0 else Count(args[0]) + CountAll(args[1..])
  }

  lemma {:induction false} TakenCount(a: Ast)
    ensures |Taken(a)| == Count(a)
    decreases a, 1
  {
    match a
    case Op(_, _, args) => TakenAllCount(args);
    case Scalar(_, args) => TakenAllCount(args);
    case _ =>
  }

  lemma {:induction false} TakenAllCount(args: seq<Ast>)
    ensures |TakenAll(args)| == CountAll(args)
    decreases args, 0
  {
    if args != [] {
      TakenCount(args[0]);
      TakenAllCount(args[1..]);
    }
  }

  /** Some expression around transforms holds a bare `_t<k>`, and `k` is less than the number of
      transforms taken out of it. */
  predicate Captures(a: Ast)
    decreases a, 2
  {
    match a
    case Transform(_, x, _) => Captures(x)
    case Op(_, _, _) => HasCall(a) && CapturesIn(a, Count(a))
    case Scalar(_, _) => CapturesIn(a, Count(a))
    case _ => false
  }

  predicate CapturesIn(a: Ast, n: nat)
    decreases a, 1
  {
    match a
    case Name(id) => PlaceholderIndex(id, n).Some?
    case Transform(_, x, _) => Captures(x)
    case Op(_, _, args) => AnyCaptures(args, n)
    case Scalar(_, args) => AnyCaptures(args, n)
    case _ => false
  }

  predicate AnyCaptures(args: seq<Ast>, n: nat)
    decreases args, 0
  {
    args != [] && (CapturesIn(args[0], n) || AnyCaptures(args[1..], n))
  }

  lemma {:induction false} ReadsAsWritten(a: Ast)
    requires !Captures(a)
    ensures AsRead(a) == a
    decreases a, 2
  {
    TakenCount(a);
    match a
    case Transform(_, x, _) => ReadsAsWritten(x);
    case Op(_, _, _) => if HasCall(a) { FillsAsWritten(a, Taken(a)); }
    case Scalar(_, _) => FillsAsWritten(a, Taken(a));
    case _ =>
  }

  lemma {:induction false} FillsAsWritten(a: Ast, taken: seq<Ast>)
    requires !CapturesIn(a, |taken|)
    ensures Fill(a, taken) == a
    decreases a, 1
  {
    match a
    case Transform(_, x, _) => ReadsAsWritten(x);
    case Op(_, _, args) => AllFillAsWritten(args, taken);
    case Scalar(_, args) => AllFillAsWritten(args, taken);
    case _ =>
  }

  lemma {:induction false} AllFillAsWritten(args: seq<Ast>, taken: seq<Ast>)
    requires !AnyCaptures(args, |taken|)
    ensures FillAll(args, taken) == args
    decreases args, 0
  {
    if args != [] {
      FillsAsWritten(args[0], taken);
      AllFillAsWritten(args[1..], taken);
    }
  }

  /** A bare name means nothing, so a formula with a captured one does not. */
  lemma {:induction false} CapturedMeansNothing(g: Grouping, a: Ast, refs: AggRefs)
    requires Captures(a) && IsRefs(refs)
    ensures Meaning(g, a, refs) == None
    decreases a, 2
  {
    match a
    case Transform(_, x, _) => CapturedMeansNothing(g, x, refs);
    case Op(_, _, _) => CapturedInMeansNothing(g, a, refs, Count(a));
    case Scalar(_, _) => CapturedInMeansNothing(g, a, refs, Count(a));
  }

  lemma {:induction false} CapturedInMeansNothing(g: Grouping, a: Ast, refs: AggRefs, n: nat)
    requires CapturesIn(a, n) && IsRefs(refs)
    ensures Meaning(g, a, refs) == None
    decreases a, 1
  {
    match a
    case Name(id) =>
      assert IsPlaceholder(id);
      if id in refs { RefIsNoPlaceholder(id); }
    case Transform(_, x, _) => CapturedMeansNothing(g, x, refs);
    case Op(_, _, args) => AnyCapturedMeansNothing(g, args, refs, n);
    case Scalar(_, args) => AnyCapturedMeansNothing(g, args, refs, n);
  }

  lemma {:induction false} AnyCapturedMeansNothing(g: Grouping, args: seq<Ast>, refs: AggRefs, n: nat)
    requires AnyCaptures(args, n) && IsRefs(refs)
    ensures MeaningAll(g, args, refs) == None
    decreases args, 0
  {
    if CapturesIn(args[0], n) {
      CapturedInMeansNothing(g, args[0], refs, n);
    } else {
      AnyCapturedMeansNothing(g, args[1..], refs, n);
    }
  }

  // --------------------------------------------------------------- parsing

  /** A parsed formula means what the formula that was read means. */
  lemma {:induction false} ParseReads(g: Grouping, a: Ast, refs: AggRefs, spec: Spec)
    requires Parse(a, refs) == Ok(spec) && IsRefs(refs)
    ensures SpecMeaning(g, spec) == Meaning(g, AsRead(a), refs)
    ensures IsPredicateSpec(spec) <==> a.Op? && a.isPredicate
    decreases a, 3
  {
    match a
    case Name(_) =>
    case Const(t) =>
    case Dotted(_) =>
    case Transform(_, operand, _) =>
      ParseReads(g, operand, refs, Parse(operand, refs).value);
      ReadAlike(operand, refs);
    case Scalar(_, _) => MixedReads(g, a, refs, spec);
    case Op(_, _, _) =>
      if HasCall(a) { MixedReads(g, a, refs, spec); } else { TextMeans(g, a, refs, NamesOf(a)); }
  }

  lemma ReadAlike(a: Ast, refs: AggRefs)
    ensures (AsRead(a).Op? && AsRead(a).isPredicate) <==> (a.Op? && a.isPredicate)
  {
  }

  lemma {:induction false} MixedReads(g: Grouping, a: Ast, refs: AggRefs, spec: Spec)
    requires (a.Op? || a.Scalar?) && ParseMixed(a, refs) == Ok(spec) && IsRefs(refs)
    ensures SpecMeaning(g, spec) == Meaning(g, Fill(a, Taken(a)), refs) && spec.Mixed?
    decreases a, 2
  {
    var h0 := Hoisted([], []);
    var r := Hoist(a, refs, h0).value;
    HoistExtends(a, refs, h0, r.0, r.1);
    HoistTakes(g, a, refs, h0, r.0, r.1);
    SubMeaningsDefined(g, r.1.subs);
    if SubMeanings(g, r.1.subs).Some? {
      HoistReads(g, a, refs, h0, r.0, r.1, r.1, SubMeanings(g, r.1.subs).value, Taken(a));
    } else {
      var s :| s in r.1.subs && SpecMeaning(g, s.spec).None?;
      var i :| 0 <= i < |r.1.subs| && r.1.subs[i] == s;
      assert Meaning(g, Taken(a)[i], refs).None?;
      if Meaning(g, Fill(a, Taken(a)), refs).Some? { TakenMeanSomething(g, a, refs, Taken(a)); }
    }
  }

  /** What the transforms taken out are read as. */
  ghost predicate ReadAs(g: Grouping, refs: AggRefs, subs: seq<Sub>, from: nat, taken: seq<Ast>) {
    |subs| == from + |taken| &&
    forall i :: 0 <= i < |taken| ==> SpecMeaning(g, subs[from + i].spec) == Meaning(g, taken[i], refs)
  }

  lemma {:induction false} HoistTakes(g: Grouping, a: Ast, refs: AggRefs, h: Hoisted, t: Term, h': Hoisted)
    requires Hoist(a, refs, h) == Ok((t, h')) && IsRefs(refs) && Numbered(h.subs)
    ensures ReadAs(g, refs, h'.subs, |h.subs|, Taken(a))
    decreases a, if a.Transform? then 4 else 1
  {
    match a
    case Const(_) =>
    case Dotted(_) =>
    case Name(_) =>
    case Transform(_, _, _) => ParseReads(g, a, refs, Parse(a, refs).value);
    case Op(_, _, args) =>
      var r := HoistAll(args, refs, h).value;
      HoistAllTakes(g, args, refs, h, r.0, r.1);
    case Scalar(_, args) =>
      var r := HoistAll(args, refs, h).value;
      HoistAllTakes(g, args, refs, h, r.0, r.1);
  }

  lemma {:induction false} HoistAllTakes(
    g: Grouping, args: seq<Ast>, refs: AggRefs, h: Hoisted, ts: seq<Term>, h': Hoisted)
    requires HoistAll(args, refs, h) == Ok((ts, h')) && IsRefs(refs) && Numbered(h.subs)
    ensures ReadAs(g, refs, h'.subs, |h.subs|, TakenAll(args))
    decreases args, 5
  {
    if args != [] {
      var first := Hoist(args[0], refs, h).value;
      HoistExtends(args[0], refs, h, first.0, first.1);
      HoistAllExtends(args[1..], refs, first.1, ts[1..], h');
      HoistTakes(g, args[0], refs, h, first.0, first.1);
      HoistAllTakes(g, args[1..], refs, first.1, ts[1..], h');
      var k, taken := |Taken(args[0])|, TakenAll(args);
      forall i | 0 <= i < |taken|
        ensures SpecMeaning(g, h'.subs[|h.subs| + i].spec) == Meaning(g, taken[i], refs)
      {
        if i < k {
          assert h'.subs[|h.subs| + i] == first.1.subs[|h.subs| + i] && taken[i] == Taken(args[0])[i];
        } else {
          assert taken[i] == TakenAll(args[1..])[i - k] && |h.subs| + i == |first.1.subs| + (i - k);
        }
      }
    }
  }

  /** Once the placeholders have their values, what is left of an expression means what it is read
      as. `end` is what has been taken out when the walk is over. */
  lemma {:induction false} HoistReads(
    g: Grouping, a: Ast, refs: AggRefs, h: Hoisted, t: Term, h': Hoisted, end: Hoisted, m: map<string, Value>,
    taken: seq<Ast>)
    requires Hoist(a, refs, h) == Ok((t, h')) && IsRefs(refs)
    requires Numbered(h.subs) && Extends(h', end) && Numbered(end.subs) && SubMeanings(g, end.subs) == Some(m)
    requires ReadAs(g, refs, end.subs, 0, taken)
    ensures TermMeaning(t, RefValues(Restrict(refs, end.names)) + m) == Meaning(g, Fill(a, taken), refs)
    decreases a, if a.Transform? then 4 else 1
  {
    match a
    case Const(_) =>
    case Dotted(_) =>
    case Transform(_, _, _) =>
      ParseReads(g, a, refs, Parse(a, refs).value);
      NumberedIsDistinct(end.subs);
      SubMeaningsAt(g, end.subs, m);
      assert end.subs[|h.subs|] == h'.subs[|h.subs|] && end.subs[|h.subs|] in end.subs;
    case Name(id) => NameReads(g, id, refs, h, h', end, m, taken);
    case Op(_, _, args) =>
      var r := HoistAll(args, refs, h).value;
      HoistAllReads(g, args, refs, h, r.0, r.1, end, m, taken);
    case Scalar(_, args) =>
      var r := HoistAll(args, refs, h).value;
      HoistAllReads(g, args, refs, h, r.0, r.1, end, m, taken);
  }

  /** A name has a value among the transforms exactly if it is the placeholder of one. */
  lemma PlaceholderMeans(g: Grouping, id: string, subs: seq<Sub>, m: map<string, Value>)
    requires Numbered(subs) && SubMeanings(g, subs) == Some(m)
    ensures match PlaceholderIndex(id, |subs|)
      case None => id !in m
      case Some(k) => id in m && SpecMeaning(g, subs[k].spec) == Some(m[id])
  {
    NumberedIsDistinct(subs);
    SubMeaningsAt(g, subs, m);
    var k := PlaceholderIndex(id, |subs|);
    if k.Some? {
      assert subs[k.value].placeholder == id && subs[k.value] in subs;
    } else {
      assert !IsBound(subs, id);
    }
  }

  lemma NameReads(
    g: Grouping, id: string, refs: AggRefs, h: Hoisted, h': Hoisted, end: Hoisted, m: map<string, Value>,
    taken: seq<Ast>)
    requires Hoist(Name(id), refs, h) == Ok((Word(id), h')) && IsRefs(refs)
    requires Numbered(h.subs) && Extends(h', end) && Numbered(end.subs) && SubMeanings(g, end.subs) == Some(m)
    requires ReadAs(g, refs, end.subs, 0, taken)
    ensures TermMeaning(Word(id), RefValues(Restrict(refs, end.names)) + m) == Meaning(g, Fill(Name(id), taken), refs)
  {
    var k := PlaceholderIndex(id, |taken|);
    PlaceholderMeans(g, id, end.subs, m);
    if k.None? {
      forall i | 0 <= i < |h.subs| ensures h.subs[i].placeholder != id {
        assert end.subs[i].placeholder == Placeholder(i);
      }
      assert h'.names[|h.names|] == id == end.names[|h.names|];
    }
  }

  lemma {:induction false} HoistAllReads(
    g: Grouping, args: seq<Ast>, refs: AggRefs, h: Hoisted, ts: seq<Term>, h': Hoisted, end: Hoisted,
    m: map<string, Value>, taken: seq<Ast>)
    requires HoistAll(args, refs, h) == Ok((ts, h')) && IsRefs(refs)
    requires Numbered(h.subs) && Extends(h', end) && Numbered(end.subs) && SubMeanings(g, end.subs) == Some(m)
    requires ReadAs(g, refs, end.subs, 0, taken)
    ensures TermMeaningAll(ts, RefValues(Restrict(refs, end.names)) + m) == MeaningAll(g, FillAll(args, taken), refs)
    decreases args, 5
  {
    if args != [] {
      var first := Hoist(args[0], refs, h).value;
      HoistExtends(args[0], refs, h, first.0, first.1);
      HoistAllExtends(args[1..], refs, first.1, ts[1..], h');
      HoistReads(g, args[0], refs, h, first.0, first.1, end, m, taken);
      HoistAllReads(g, args[1..], refs, first.1, ts[1..], h', end, m, taken);
      assert FillAll(args, taken)[1..] == FillAll(args[1..], taken);
    }
  }

  /** An expression that means something has only meaningful transforms in it. */
  lemma {:induction false} TakenMeanSomething(g: Grouping, a: Ast, refs: AggRefs, taken: seq<Ast>)
    requires Meaning(g, Fill(a, taken), refs).Some?
    ensures forall x :: x in Taken(a) ==> Meaning(g, x, refs).Some?
    decreases a, 1
  {
    match a
    case Op(_, _, args) => AllTakenMeanSomething(g, args, refs, taken);
    case Scalar(_, args) => AllTakenMeanSomething(g, args, refs, taken);
    case _ =>
  }

  lemma {:induction false} AllTakenMeanSomething(g: Grouping, args: seq<Ast>, refs: AggRefs, taken: seq<Ast>)
    requires MeaningAll(g, FillAll(args, taken), refs).Some?
    ensures forall x :: x in TakenAll(args) ==> Meaning(g, x, refs).Some?
    decreases args, 0
  {
    if args != [] {
      assert FillAll(args, taken)[1..] == FillAll(args[1..], taken);
      TakenMeanSomething(g, args[0], refs, taken);
      AllTakenMeanSomething(g, args[1..], refs, taken);
    }
  }

  /** A parsed formula means what its syntax tree means exactly if no name in it passes for a
      placeholder, or it means nothing even so. */
  lemma ParseMeans(g: Grouping, a: Ast, refs: AggRefs, spec: Spec)
    requires Parse(a, refs) == Ok(spec) && IsRefs(refs)
    ensures SpecMeaning(g, spec) == Meaning(g, a, refs) <==> !Captures(a) || Meaning(g, AsRead(a), refs) == None
  {
    ParseReads(g, a, refs, spec);
    if Captures(a) { CapturedMeansNothing(g, a, refs); } else { ReadsAsWritten(a); }
  }

  // -------------------------------------------------------- accepted names

  /** Every bare name is an aggregate's, or the placeholder of a transform that was taken out of the
      same expression before it. */
  predicate Accepts(a: Ast, refs: AggRefs)
    decreases a, 2
  {
    match a
    case Transform(_, x, _) => Accepts(x, refs)
    case Op(_, _, _) => HasCall(a) ==> AcceptsIn(a, refs, 0)
    case Scalar(_, _) => AcceptsIn(a, refs, 0)
    case _ => true
  }

  predicate AcceptsIn(a: Ast, refs: AggRefs, before: nat)
    decreases a, 1
  {
    match a
    case Name(id) => id in refs || PlaceholderIndex(id, before).Some?
    case Transform(_, x, _) => Accepts(x, refs)
    case Op(_, _, args) => AcceptsAll(args, refs, before)
    case Scalar(_, args) => AcceptsAll(args, refs, before)
    case _ => true
  }

  predicate AcceptsAll(args: seq<Ast>, refs: AggRefs, before: nat)
    decreases args, 0
  {
    args == [] || (AcceptsIn(args[0], refs, before) && AcceptsAll(args[1..], refs, before + Count(args[0])))
  }

  /** Every name of a spec, at every depth, is an aggregate's. */
  predicate NamesResolve(spec: Spec)
    decreases spec, 1
  {
    match spec
    case AggSpec(_) => true
    case Arithmetic(_, names, refs, _) => forall n :: n in names ==> n in refs
    case Mixed(_, names, subs, refs, _) => (forall n :: n in names ==> n in refs) && AllNamesResolve(subs)
    case TransformSpec(_, inner, _) => NamesResolve(inner)
  }

  predicate AllNamesResolve(subs: seq<Sub>)
    decreases subs, 0
  {
    subs == [] || (NamesResolve(subs[0].spec) && AllNamesResolve(subs[1..]))
  }

  lemma {:induction false} AllNamesResolveSnoc(subs: seq<Sub>, s: Sub)
    ensures AllNamesResolve(subs + [s]) <==> AllNamesResolve(subs) && NamesResolve(s.spec)
  {
    if subs == [] {
      assert (subs + [s])[1..] == [];
    } else {
      AllNamesResolveSnoc(subs[1..], s);
      assert (subs + [s])[1..] == subs[1..] + [s];
    }
  }

  /** What the walk has taken out so far resolves. */
  predicate HoistedResolves(h: Hoisted, refs: AggRefs) {
    (forall n :: n in h.names ==> n in refs) && AllNamesResolve(h.subs)
  }

  lemma {:induction false} AcceptsIsResolved(a: Ast, refs: AggRefs, spec: Spec)
    requires Parse(a, refs) == Ok(spec)
    ensures NamesResolve(spec) <==> Accepts(a, refs)
    decreases a, 3
  {
    match a
    case Name(_) =>
    case Const(_) =>
    case Dotted(_) =>
    case Transform(_, operand, _) => AcceptsIsResolved(operand, refs, Parse(operand, refs).value);
    case Scalar(_, _) => MixedAccepts(a, refs, spec);
    case Op(_, _, _) => if HasCall(a) { MixedAccepts(a, refs, spec); }
  }

  lemma {:induction false} MixedAccepts(a: Ast, refs: AggRefs, spec: Spec)
    requires (a.Op? || a.Scalar?) && ParseMixed(a, refs) == Ok(spec)
    ensures NamesResolve(spec) <==> AcceptsIn(a, refs, 0)
    decreases a, 2
  {
    var h0 := Hoisted([], []);
    var r := Hoist(a, refs, h0).value;
    HoistAccepts(a, refs, h0, r.0, r.1);
    assert forall n :: n in r.1.names ==> (n in refs <==> n in Restrict(refs, r.1.names));
  }

  lemma {:induction false} HoistAccepts(a: Ast, refs: AggRefs, h: Hoisted, t: Term, h': Hoisted)
    requires Hoist(a, refs, h) == Ok((t, h')) && Numbered(h.subs)
    ensures HoistedResolves(h', refs) <==> HoistedResolves(h, refs) && AcceptsIn(a, refs, |h.subs|)
    ensures |h'.subs| == |h.subs| + Count(a)
    decreases a, if a.Transform? then 4 else 1
  {
    match a
    case Const(_) =>
    case Dotted(_) =>
    case Name(id) => NameAccepts(id, refs, h, h');
    case Transform(_, x, _) =>
      AcceptsIsResolved(x, refs, Parse(x, refs).value);
      AllNamesResolveSnoc(h.subs, h'.subs[|h.subs|]);
    case Op(_, _, args) =>
      var r := HoistAll(args, refs, h).value;
      HoistAllAccepts(args, refs, h, r.0, r.1);
    case Scalar(_, args) =>
      var r := HoistAll(args, refs, h).value;
      HoistAllAccepts(args, refs, h, r.0, r.1);
  }

  lemma NameAccepts(id: string, refs: AggRefs, h: Hoisted, h': Hoisted)
    requires Hoist(Name(id), refs, h) == Ok((Word(id), h')) && Numbered(h.subs)
    ensures HoistedResolves(h', refs) <==> HoistedResolves(h, refs) && AcceptsIn(Name(id), refs, |h.subs|)
  {
    var k := PlaceholderIndex(id, |h.subs|);
    if k.Some? {
      assert h.subs[k.value].placeholder == id;
    } else {
      forall i | 0 <= i < |h.subs| ensures h.subs[i].placeholder != id {}
      assert h'.names == h.names + [id];
    }
  }

  lemma {:induction false} HoistAllAccepts(args: seq<Ast>, refs: AggRefs, h: Hoisted, ts: seq<Term>, h': Hoisted)
    requires HoistAll(args, refs, h) == Ok((ts, h')) && Numbered(h.subs)
    ensures HoistedResolves(h', refs) <==> HoistedResolves(h, refs) && AcceptsAll(args, refs, |h.subs|)
    ensures |h'.subs| == |h.subs| + CountAll(args)
    decreases args, 5
  {
    if args != [] {
      var first := Hoist(args[0], refs, h).value;
      HoistExtends(args[0], refs, h, first.0, first.1);
      HoistAccepts(args[0], refs, h, first.0, first.1);
      HoistAllAccepts(args[1..], refs, first.1, ts[1..], h');
    }
  }

  /** A bare name of a placeholder's shape is an error alone, but after a transform it passes for
      that transform's placeholder: `cumsum(x:sum) + _t0` is read as `cumsum(x:sum)` twice. */
  lemma PlaceholderNameIsCaptured(g: Grouping, refs: AggRefs, sum: Ast)
    requires IsRefs(refs) && "__agg0__" in refs && sum == Transform("cumsum", Name("__agg0__"), Params([], [], None))
    ensures
      var a := Op("+", false, [sum, Name("_t0")]);
      && Parse(Name("_t0"), refs) == Err(BareName("_t0"))
      && Meaning(g, a, refs) == None
      && Parse(a, refs).Ok?
      && SpecMeaning(g, Parse(a, refs).value) == Meaning(g, Op("+", false, [sum, sum]), refs)
      && Meaning(g, Op("+", false, [sum, sum]), refs).Some?
  {
    var a := Op("+", false, [sum, Name("_t0")]);
    assert Decimal(0) == "0" && Placeholder(0) == "_t0" && IsPlaceholder("_t0");
    if "_t0" in refs { RefIsNoPlaceholder("_t0"); }
    PairMeans(g, sum, Name("_t0"), refs);
    PairMeans(g, sum, sum, refs);
    SumIsParsed(refs, sum, a);
    SumIsReadTwice(sum, a);
    ParseReads(g, a, refs, Parse(a, refs).value);
  }

  lemma SumIsParsed(refs: AggRefs, sum: Ast, a: Ast)
    requires "__agg0__" in refs && sum == Transform("cumsum", Name("__agg0__"), Params([], [], None))
    requires a == Op("+", false, [sum, Name("_t0")])
    ensures Parse(a, refs).Ok?
  {
    var spec := TransformSpec("cumsum", AggSpec(refs["__agg0__"]), Params([], [], None));
    var h0, h1 := Hoisted([], []), Hoisted([Sub("_t0", spec)], []);
    CumsumTakesNothing();
    assert Parse(Name("__agg0__"), refs) == Ok(AggSpec(refs["__agg0__"]));
    assert Parse(sum, refs) == Ok(spec);
    assert Decimal(0) == "0" && Placeholder(0) == "_t0";
    assert h0.subs + [Sub("_t0", spec)] == h1.subs;
    assert IsBound(h1.subs, "_t0") by { assert h1.subs[0].placeholder == "_t0"; }
    HoistPair(sum, Name("_t0"), refs, h0, Word("_t0"), h1, Word("_t0"), h1);
    assert HasCall(a) by { assert HasCall(sum) && AnyHasCall([sum, Name("_t0")]); }
    assert Hoist(a, refs, h0) == Ok((Apply("+", [Word("_t0"), Word("_t0")]), h1));
  }

  lemma CumsumTakesNothing()
    ensures ParamsOk("cumsum", Params([], [], None))
  {
    assert |"cumsum"| == 6 && |"rank"| == 4 && |"percent_rank"| == 12 && |"dense_rank"| == 10 && |"ntile"| == 5;
  }

  lemma SumIsReadTwice(sum: Ast, a: Ast)
    requires sum == Transform("cumsum", Name("__agg0__"), Params([], [], None))
    requires a == Op("+", false, [sum, Name("_t0")])
    ensures AsRead(a) == Op("+", false, [sum, sum])
  {
    var name, none: seq<Ast> := Name("_t0"), [];
    assert Decimal(0) == "0" && Placeholder(0) == "_t0";
    assert [sum, name][1..] == [name] && [name][1..] == none;
    assert HasCall(a) by { assert HasCall(sum) && AnyHasCall([sum, name]); }
    assert Taken(a) == [sum] by {
      assert TakenAll([name]) == [] && Taken(sum) == [sum];
      assert TakenAll([sum, name]) == [sum] + [];
    }
    assert PlaceholderIndex("_t0", 1) == Some(0);
    assert Fill(name, [sum]) == sum && Fill(sum, [sum]) == sum;
    assert FillAll([name], [sum]) == [sum] + [] == [sum];
    assert FillAll([sum, name], [sum]) == [sum] + [sum] == [sum, sum];
  }

  lemma HoistPair(a: Ast, b: Ast, refs: AggRefs, h: Hoisted, s: Term, h1: Hoisted, t: Term, h2: Hoisted)
    requires Hoist(a, refs, h) == Ok((s, h1)) && Hoist(b, refs, h1) == Ok((t, h2))
    ensures HoistAll([a, b], refs, h) == Ok(([s, t], h2))
  {
    var none: seq<Ast> := [];
    assert [a, b][1..] == [b] && [b][1..] == none;
    assert HoistAll(none, refs, h2) == Ok(([], h2));
    assert HoistAll([b], refs, h1) == Ok(([t] + [], h2)) && [s] + ([t] + []) == [s, t];
  }

  lemma PairMeans(g: Grouping, a: Ast, b: Ast, refs: AggRefs)
    ensures MeaningAll(g, [a, b], refs) == Cons(Meaning(g, a, refs), Cons(Meaning(g, b, refs), Some([])))
  {
    var none: seq<Ast> := [];
    assert [a, b][1..] == [b] && [b][1..] == none && MeaningAll(g, none, refs) == Some([]);
    assert MeaningAll(g, [b], refs) == Cons(Meaning(g, b, refs), Some([]));
  }
}
