/** Where lowering goes wrong without an error. */
module LoweringLimits {
  import opened Models
  import opened Formulas
  import opened FormulaParsing
  import opened Rewriting
  import opened Lowering
  import opened LoweringScopes
  import opened LoweringCorrect

  // ------------------------------------------------------ a change by its name

  /** A word boundary can follow the name, or what is put in front of it. */
  predicate EndsInWord(n: string) {
    n == "" || WordChar(n[|n| - 1])
  }

  lemma ShiftIsBounded(field: string)
    ensures Bounded("_ts_" + field) <==> EndsInWord(field)
  {
    var shifted := "_ts_" + field;
    if field != "" { assert field[|field| - 1] == shifted[|shifted| - 1]; }
  }

  /** A `change` lowered under a name that a word boundary cannot follow, such as the mangled
      formula `change(revenue_sum)` of a measure without a name, leaves its own shift unresolved. */
  lemma UnnamedChangeDangles(c: Config, spec: Spec, field: string, st: State, st': State, a: Alias)
    requires spec.TransformSpec? && spec.fn in CHANGES && !EndsInWord(field)
    requires Flatten(c, spec, field, st) == Ok((st', a))
    ensures Run(st'.steps).None?
  {
    var r := Flatten(c, spec.inner, "_inner_" + field, st).value;
    ShiftIsBounded(field);
    assert AddChange(c, r.0, field, spec.fn, spec.params, r.1) == Ok((st', a));
    ChangeDangles(c, st, spec, field, r.0, r.1, st', a);
    HopelessIsNotRun(st'.steps);
  }

  /** A change is applied directly to the aggregate, somewhere inside. */
  predicate ChangesDirectly(spec: Spec, r: AggRef)
    decreases spec, 1
  {
    match spec
    case TransformSpec(fn, inner, _) => (fn in CHANGES && inner == AggSpec(r)) || ChangesDirectly(inner, r)
    case Mixed(_, _, subs, _, _) => AnyChangesDirectly(subs, r)
    case _ => false
  }

  predicate AnyChangesDirectly(subs: seq<Sub>, r: AggRef)
    decreases subs, 0
  {
    subs != [] && (ChangesDirectly(subs[0].spec, r) || AnyChangesDirectly(subs[1..], r))
  }

  ghost predicate Listed(d: Dict) {
    forall k :: k in d.at ==> k in d.order
  }

  lemma PutListed(d: Dict, k: string, a: Alias)
    requires Listed(d)
    ensures Listed(Put(d, k, a))
  {
  }

  lemma {:induction false} EnsureAllLists(c: Config, st: State, names: seq<string>, refs: AggRefs, st': State)
    requires EnsureAll(c, st, names, refs) == Ok(st') && Listed(st.known)
    ensures Listed(st'.known)
    decreases |names|
  {
    if names != [] {
      EnsureAllLists(c, Ensure(c, st, names[0], refs[names[0]]).value, names[1..], refs, st');
    }
  }

  lemma {:induction false} WithoutLists(order: seq<string>, k: string)
    ensures forall n :: n in Without(order, k) <==> n in order && n != k
  {
    if order != [] {
      assert order == [order[0]] + order[1..];
      WithoutLists(order[1..], k);
    }
  }

  lemma {:induction false} BindAllLists(d: Dict, bindings: seq<Binding>)
    requires Listed(d)
    ensures Listed(BindAll(d, bindings))
    decreases |bindings|
  {
    if bindings != [] { BindAllLists(Put(d, bindings[0].name, bindings[0].alias), bindings[1..]); }
  }

  lemma {:induction false} RestoreAllLists(d: Dict, bindings: seq<Binding>, prior: seq<Option<Alias>>)
    requires Listed(d) && |bindings| == |prior|
    ensures Listed(RestoreAll(d, bindings, prior))
    decreases |bindings|
  {
    if bindings != [] {
      WithoutLists(d.order, bindings[0].name);
      var d' := if prior[0].None? then Remove(d, bindings[0].name) else Put(d, bindings[0].name, prior[0].value);
      RestoreAllLists(d', bindings[1..], prior[1..]);
    }
  }

  lemma {:induction false} FlattenLists(c: Config, spec: Spec, field: string, st: State, st': State, a: Alias)
    requires Flatten(c, spec, field, st) == Ok((st', a)) && Listed(st.known)
    ensures Listed(st'.known)
    decreases spec, 1
  {
    match spec
    case AggSpec(_) =>
    case Arithmetic(_, names, refs, _) => EnsureAllLists(c, st, names, refs, EnsureAll(c, st, names, refs).value);
    case Mixed(_, names, subs, refs, _) =>
      var st1 := EnsureAll(c, st, names, refs).value;
      EnsureAllLists(c, st, names, refs, st1);
      var r := FlattenSubs(c, subs, field, st1).value;
      FlattenSubsLists(c, subs, field, st1, r.0, r.1);
      BindAllLists(r.0.known, r.1);
      RestoreAllLists(BindAll(r.0.known, r.1), r.1, Shadowed(r.0.known, r.1));
    case TransformSpec(_, inner, _) =>
      var r := Flatten(c, inner, "_inner_" + field, st).value;
      FlattenLists(c, inner, "_inner_" + field, st, r.0, r.1);
  }

  lemma {:induction false} FlattenSubsLists(
    c: Config, subs: seq<Sub>, field: string, st: State, st': State, bindings: seq<Binding>)
    requires FlattenSubs(c, subs, field, st) == Ok((st', bindings)) && Listed(st.known)
    ensures Listed(st'.known)
    decreases subs, 0
  {
    if subs != [] {
      var name := Allocate(c, st, subs[0].placeholder + "_" + field);
      var first := Flatten(c, subs[0].spec, name, st.(hidden := st.hidden + {name})).value;
      FlattenLists(c, subs[0].spec, name, st.(hidden := st.hidden + {name}), first.0, first.1);
      FlattenSubsLists(c, subs[1..], field, first.0, st', bindings[1..]);
    }
  }

  /** A change under a name that holds its own aggregate's canonical name at word boundaries is
      rewritten inside the quotes of its shift: it cannot be computed, at whatever depth. */
  lemma {:induction false} ChangeInsideItsName(
    c: Config, spec: Spec, field: string, st: State, st': State, a: Alias, r: AggRef)
    requires Flatten(c, spec, field, st) == Ok((st', a)) && Listed(st.known)
    requires ChangesDirectly(spec, r) && StandsInside(Canonical(r), field)
    ensures Hopeless(st'.steps)
    decreases spec, 1
  {
    match spec
    case Mixed(_, names, subs, refs, _) =>
      var st1 := EnsureAll(c, st, names, refs).value;
      EnsureAllLists(c, st, names, refs, st1);
      var s := FlattenSubs(c, subs, field, st1).value;
      ChangeInsideSomeName(c, subs, field, st1, s.0, s.1, r);
      HopelessOn(s.0.steps, st'.steps);
    case TransformSpec(fn, inner, p) =>
      var s := Flatten(c, inner, "_inner_" + field, st).value;
      if fn in CHANGES && inner == AggSpec(r) {
        ShiftHoldsItsOperand(c, st, field, p, s.0, s.1, r);
        ChangeDangles(c, st, spec, field, s.0, s.1, st', a);
      } else {
        StillInside(Canonical(r), "_inner_", field, "");
        assert "_inner_" + field + "" == "_inner_" + field;
        ChangeInsideItsName(c, inner, "_inner_" + field, st, s.0, s.1, r);
        TransformAppends(c, spec, field, st, s.0, s.1, st', a);
        HopelessOn(s.0.steps, st'.steps);
      }
  }

  lemma {:induction false} ChangeInsideSomeName(
    c: Config, subs: seq<Sub>, field: string, st: State, st': State, bindings: seq<Binding>, r: AggRef)
    requires FlattenSubs(c, subs, field, st) == Ok((st', bindings)) && Listed(st.known)
    requires AnyChangesDirectly(subs, r) && StandsInside(Canonical(r), field)
    ensures Hopeless(st'.steps)
    decreases subs, 0
  {
    var name := Allocate(c, st, subs[0].placeholder + "_" + field);
    var sth := st.(hidden := st.hidden + {name});
    var first := Flatten(c, subs[0].spec, name, sth).value;
    if ChangesDirectly(subs[0].spec, r) {
      CandidateHolds(subs[0].placeholder, field, name, Canonical(r));
      ChangeInsideItsName(c, subs[0].spec, name, sth, first.0, first.1, r);
      FlattenSubsAppends(c, subs[1..], field, first.0, st', bindings[1..]);
      HopelessOn(first.0.steps, st'.steps);
    } else {
      FlattenLists(c, subs[0].spec, name, sth, first.0, first.1);
      ChangeInsideSomeName(c, subs[1..], field, first.0, st', bindings[1..], r);
    }
  }

  lemma CandidateHolds(placeholder: string, field: string, name: string, inside: string)
    requires StandsInside(inside, field) && exists k: nat :: name == Candidate(placeholder + "_" + field, k)
    ensures StandsInside(inside, name)
  {
    var k: nat :| name == Candidate(placeholder + "_" + field, k);
    var before := placeholder + "_";
    StillInside(inside, before, field, "");
    assert before + field + "" == before + field;
    if k > 0 {
      var rest := "_" + Decimal(k + 1);
      RegroupParts(before + field, "_", Decimal(k + 1));
      StillInside(inside, before, field, rest);
    }
  }

  lemma StandsInQuotes(name: string, model: string, before: string, field: string)
    requires StandsInside(name, field)
    ensures Stands(name, InQuotes(Alias(model, before + field))) && |name| < |before + field|
  {
    var mark, dot := "\"", ".";
    RegroupQuotes(mark, model, dot, before, field);
    StillInside(name, mark + model + dot + before, field, mark);
  }

  lemma RegroupQuotes(mark: string, model: string, dot: string, before: string, field: string)
    ensures mark + model + dot + (before + field) + mark == (mark + model + dot + before) + field + mark
  {
  }

  /** No shorter known name may stand inside the quotes. */
  lemma ShorterSpoils(d: Dict, n: string, k: string)
    requires n in d.order && n in d.at && k in d.order && k in d.at && |k| < |n| && Stands(k, InQuotes(d.at[n]))
    ensures !Readable(d, n)
  {
    ByLengthFalls(d.order);
    ShorterComesAfter(ByLength(d.order), n, k);
  }

  lemma ShiftHoldsItsOperand(c: Config, st: State, field: string, p: Params, st1: State, input: Alias, r: AggRef)
    requires Flatten(c, AggSpec(r), "_inner_" + field, st) == Ok((st1, input)) && Listed(st.known)
    requires StandsInside(Canonical(r), field)
    requires AddTransform(c, st1, "_ts_" + field, "time_shift", Params(p.extra, [], None), ShiftOf(c.grouping, p),
      input).Ok?
    ensures !LegibleChange(c, st1, field, p, input)
  {
    var shifted := "_ts_" + field;
    var known := Put(st1.known, shifted, Alias(c.model, shifted));
    FlattenLists(c, AggSpec(r), "_inner_" + field, st, st1, input);
    PutListed(st1.known, shifted, Alias(c.model, shifted));
    StandsInQuotes(Canonical(r), c.model, "_ts_", field);
    assert Canonical(r) in st1.known.at;
    assert Canonical(r) in known.at && known.at[shifted] == Alias(c.model, shifted);
    ShorterSpoils(known, shifted, Canonical(r));
    InputHasAKey(st1.known, Canonical(r), input, shifted, Alias(c.model, shifted));
  }

  /** A name that stands for the operand is still found once the shift is known. */
  lemma InputHasAKey(d: Dict, k: string, input: Alias, shifted: string, a: Alias)
    requires Listed(d) && k in d.at && d.at[k] == input && k != shifted
    ensures FirstKey(Put(d, shifted, a).order, Put(d, shifted, a).at, input).Some?
  {
    var d' := Put(d, shifted, a);
    PutListed(d, shifted, a);
    assert k in d'.order && k in d'.at && d'.at[k] == input;
  }

  // ------------------------------------------------------- names of formulas

  /** The name of a measure without one: its formula's text, with some characters replaced. */
  function Mangle(text: string): string {
    if text == "" then "" else Mangled(text[0]) + Mangle(text[1..])
  }

  function Mangled(ch: char): string {
    match ch
    case ' ' => "_"
    case '/' => "_div_"
    case ':' => "_"
    case '*' => ""
    case _ => [ch]
  }

  lemma {:induction false} MangleParts(s: string, t: string)
    ensures Mangle(s + t) == Mangle(s) + Mangle(t)
  {
    if s == "" {
      assert s + t == t;
    } else {
      MangleParts(s[1..], t);
      assert (s + t)[0] == s[0] && (s + t)[1..] == s[1..] + t;
      RegroupParts(Mangled(s[0]), Mangle(s[1..]), Mangle(t));
    }
  }

  lemma RegroupParts(s: string, t: string, u: string)
    ensures s + (t + u) == s + t + u
  {
  }

  /** `str.replace` of one character. */
  function ReplaceChar(s: string, ch: char, replacement: string): string {
    if s == "" then "" else (if s[0] == ch then replacement else [s[0]]) + ReplaceChar(s[1..], ch, replacement)
  }

  lemma {:induction false} ReplaceCharParts(s: string, t: string, ch: char, replacement: string)
    ensures ReplaceChar(s + t, ch, replacement) == ReplaceChar(s, ch, replacement) + ReplaceChar(t, ch, replacement)
  {
    if s == "" {
      assert s + t == t;
    } else {
      ReplaceCharParts(s[1..], t, ch, replacement);
      assert (s + t)[0] == s[0] && (s + t)[1..] == s[1..] + t;
      var first := if s[0] == ch then replacement else [s[0]];
      RegroupParts(first, ReplaceChar(s[1..], ch, replacement), ReplaceChar(t, ch, replacement));
    }
  }

  lemma {:induction false} NoCharToReplace(s: string, ch: char, replacement: string)
    requires ch !in s
    ensures ReplaceChar(s, ch, replacement) == s
  {
    if s != "" { NoCharToReplace(s[1..], ch, replacement); }
  }

  /** The four replacements of `_mangled_formula`, one after the other. */
  function ReplaceFour(text: string): string {
    ReplaceChar(ReplaceChar(ReplaceChar(ReplaceChar(text, ' ', "_"), '/', "_div_"), ':', "_"), '*', "")
  }

  lemma ReplaceFourParts(s: string, t: string)
    ensures ReplaceFour(s + t) == ReplaceFour(s) + ReplaceFour(t)
  {
    ReplaceCharParts(s, t, ' ', "_");
    var s1, t1 := ReplaceChar(s, ' ', "_"), ReplaceChar(t, ' ', "_");
    ReplaceCharParts(s1, t1, '/', "_div_");
    var s2, t2 := ReplaceChar(s1, '/', "_div_"), ReplaceChar(t1, '/', "_div_");
    ReplaceCharParts(s2, t2, ':', "_");
    ReplaceCharParts(ReplaceChar(s2, ':', "_"), ReplaceChar(t2, ':', "_"), '*', "");
  }

  /** Mangling a text character by character is replacing in the whole of it four times. */
  lemma {:induction false} MangleIsFourReplacements(text: string)
    ensures Mangle(text) == ReplaceFour(text)
  {
    if text != "" {
      MangleIsFourReplacements(text[1..]);
      ReplaceFourParts([text[0]], text[1..]);
      assert [text[0]] + text[1..] == text;
      MangledIsFourReplacements(text[0]);
    }
  }

  lemma ReplaceOne(ch: char, from: char, replacement: string)
    ensures ReplaceChar([ch], from, replacement) == if ch == from then replacement else [ch]
  {
    assert [ch][1..] == "" && [ch] + "" == [ch] && replacement + "" == replacement;
  }

  lemma MangledIsFourReplacements(ch: char)
    ensures Mangled(ch) == ReplaceFour([ch])
  {
    ReplaceOne(ch, ' ', "_");
    if ch == ' ' {
      NoCharToReplace("_", '/', "_div_");
      NoCharToReplace("_", ':', "_");
      NoCharToReplace("_", '*', "");
    } else {
      ReplaceOne(ch, '/', "_div_");
      if ch == '/' {
        NoCharToReplace("_div_", ':', "_");
        NoCharToReplace("_div_", '*', "");
      } else {
        ReplaceOne(ch, ':', "_");
        ReplaceOne(if ch == ':' then '_' else ch, '*', "");
      }
    }
  }

  lemma WordStays(ch: char)
    requires WordChar(ch)
    ensures Mangled(ch) == [ch]
  {
  }

  lemma {:induction false} MangleWord(n: string)
    requires IsWord(n)
    ensures Mangle(n) == n
  {
    if n != "" {
      MangleWord(n[1..]);
      WordStays(n[0]);
      assert n == [n[0]] + n[1..];
    }
  }

  /** A formula's text with `(measure:agg)` in it is mangled into a name that holds the canonical
      name of the aggregate. */
  lemma MangledHolds(before: string, r: AggRef, after: string)
    requires IsIdentifier(r.measure) && IsWord(r.agg) && r.suffix == ""
    ensures StandsInside(Canonical(r), Mangle(before + "(" + r.measure + ":" + r.agg + ")" + after))
  {
    var open, colon, close := "(", ":", ")";
    var s := open + r.measure + colon + r.agg + close;
    RegroupCall(before, open, r.measure, colon, r.agg, close, after);
    MangleParts(before + s, after);
    MangleParts(before, s);
    MangledCall(r);
    CallHolds(r);
    StillInside(Canonical(r), Mangle(before), Mangle(s), Mangle(after));
  }

  lemma RegroupCall(before: string, s: string, t: string, u: string, v: string, w: string, after: string)
    ensures before + s + t + u + v + w + after == before + (s + t + u + v + w) + after
  {
  }

  lemma MangledCall(r: AggRef)
    requires IsIdentifier(r.measure) && IsWord(r.agg) && r.suffix == ""
    ensures Mangle("(" + r.measure + ":" + r.agg + ")") == "(" + Canonical(r) + ")"
  {
    var open, colon, close := "(", ":", ")";
    var m, a := r.measure, r.agg;
    MangleWord(m);
    MangleWord(a);
    MangleParts(open + m + colon + a, close);
    MangleParts(open + m + colon, a);
    MangleParts(open + m, colon);
    MangleParts(open, m);
    MangleChar('(');
    MangleChar(':');
    MangleChar(')');
    CanonicalOfWords(r);
    Regroup(open, m, "_", a, close);
  }

  lemma MangleChar(ch: char)
    ensures Mangle([ch]) == Mangled(ch)
  {
    assert [ch][1..] == "" && Mangle("") == "";
  }

  lemma Regroup(s: string, t: string, u: string, v: string, w: string)
    ensures s + t + u + v + w == s + (t + u + v) + w
  {
  }

  lemma CanonicalOfWords(r: AggRef)
    requires IsIdentifier(r.measure) && r.suffix == ""
    ensures Canonical(r) == r.measure + "_" + r.agg
  {
    assert r.measure != "*" by { assert r.measure[0] in r.measure; }
    assert r.agg + "" == r.agg;
  }

  lemma CallHolds(r: AggRef)
    requires IsIdentifier(r.measure) && IsWord(r.agg) && r.suffix == ""
    ensures StandsInside(Canonical(r), "(" + Canonical(r) + ")")
  {
    var n := Canonical(r);
    var s := "(" + n + ")";
    CanonicalOfWords(r);
    assert WordChar(n[0]);
    assert WordChar(n[|n| - 1]) by { if r.agg != "" { assert n[|n| - 1] == r.agg[|r.agg| - 1]; } }
    assert s[1..1 + |n|] == n && s[1] == n[0] && s[|n|] == n[|n| - 1];
    assert StandsAt(n, s, 1);
  }

  /** Whatever else a formula without a name does, `change(m:a)` in it makes a column that cannot be
      computed. */
  lemma UnnamedNestedChangeDangles(
    c: Config, spec: Spec, before: string, after: string, st: State, st': State, a: Alias, r: AggRef)
    requires ChangesDirectly(spec, r) && IsIdentifier(r.measure) && IsWord(r.agg) && r.suffix == "" && Listed(st.known)
    requires Flatten(c, spec, Mangle(before + "(" + r.measure + ":" + r.agg + ")" + after), st) == Ok((st', a))
    ensures Run(st'.steps).None?
  {
    var field := Mangle(before + "(" + r.measure + ":" + r.agg + ")" + after);
    MangledHolds(before, r, after);
    ChangeInsideItsName(c, spec, field, st, st', a, r);
    HopelessIsNotRun(st'.steps);
  }

  /** What parsing makes of a change in a sum with a number. */
  function ChangePlus(change: Spec, n: string): Spec {
    Mixed(Apply("+", [Word("_t0"), Literal(n)]), [], [Sub("_t0", change)], map[], false)
  }

  lemma ChangePlusIsParsed(n: string, r: AggRef, p: Params, text: string)
    requires ParamsOk("change", p)
    ensures
      var a := Op("+", false, [Transform("change", Name(n), p), Const(text)]);
      Parse(a, map[n := r]) == Ok(ChangePlus(TransformSpec("change", AggSpec(r), p), text))
  {
    var refs, h0 := map[n := r], Hoisted([], []);
    var change, one := Transform("change", Name(n), p), Const(text);
    var spec := TransformSpec("change", AggSpec(r), p);
    assert Parse(Name(n), refs) == Ok(AggSpec(r));
    assert Parse(change, refs) == Ok(spec);
    assert Decimal(0) == "0" && Placeholder(0) == "_t0";
    var h1 := Hoisted([Sub("_t0", spec)], []);
    assert h0.subs + [Sub("_t0", spec)] == h1.subs;
    HoistPair(change, one, refs, h0, Word("_t0"), h1, Literal(text), h1);
    var a := Op("+", false, [change, one]);
    assert HasCall(a) by { assert HasCall(change) && AnyHasCall([change, one]); }
    var none: seq<string> := [];
    assert Restrict(refs, none) == map[];
    assert Hoist(change, refs, h0) == Ok((Word("_t0"), h1)) && Hoist(one, refs, h1) == Ok((Literal(text), h1));
    assert Hoist(a, refs, h0) == Ok((Apply("+", [Word("_t0"), Literal(text)]), h1));
    assert Parse(a, refs) == ParseMixed(a, refs);
  }

  /** Such a sum is lowered without an error, and cannot be computed. */
  lemma ChangePlusDangles(c: Config, r: AggRef, p: Params, n: string, before: string, after: string)
    requires c.hasTime && r in c.measures && IsIdentifier(r.measure) && IsWord(r.agg) && r.suffix == ""
    requires r.measure[0] != '_'
    ensures
      var name := Mangle(before + "(" + r.measure + ":" + r.agg + ")" + after);
      var lowered := Flatten(c, ChangePlus(TransformSpec("change", AggSpec(r), p), n), name, START);
      lowered.Ok? && Run(lowered.value.0.steps).None?
  {
    var change := TransformSpec("change", AggSpec(r), p);
    var name := Mangle(before + "(" + r.measure + ":" + r.agg + ")" + after);
    CanonicalOfWords(r);
    assert Canonical(r)[..1][0] == r.measure[0];
    ChangePlusIsAccepted(c, r, p, n, name);
    var lowered := Flatten(c, ChangePlus(change, n), name, START).value;
    ShiftIsNoRank();
    assert AnyChangesDirectly([Sub("_t0", change)], r);
    UnnamedNestedChangeDangles(c, ChangePlus(change, n), before, after, START, lowered.0, lowered.1, r);
  }

  /** The sum `change(revenue:sum) + 1`, for one. */
  lemma ChangePlusOneDangles(c: Config, r: AggRef, p: Params, text: string)
    requires c.hasTime && r in c.measures && r == AggRef("revenue", "sum", "") && text == "change(revenue:sum) + 1"
    ensures
      var lowered := Flatten(c, ChangePlus(TransformSpec("change", AggSpec(r), p), "1"), Mangle(text), START);
      lowered.Ok? && Run(lowered.value.0.steps).None?
  {
    RevenueIsAWord(r);
    ChangeText(r, text);
    ChangePlusDangles(c, r, p, "1", "change", " + 1");
  }

  lemma RevenueIsAWord(r: AggRef)
    requires r == AggRef("revenue", "sum", "")
    ensures IsIdentifier(r.measure) && IsWord(r.agg) && r.measure[0] != '_'
  {
  }

  lemma ChangeText(r: AggRef, text: string)
    requires r == AggRef("revenue", "sum", "") && text == "change(revenue:sum) + 1"
    ensures text == "change" + "(" + r.measure + ":" + r.agg + ")" + " + 1"
  {
  }

  lemma ChangePlusIsAccepted(c: Config, r: AggRef, p: Params, n: string, field: string)
    requires c.hasTime && r in c.measures && Canonical(r) != "" && Canonical(r)[..1] != "_"
    ensures Flatten(c, ChangePlus(TransformSpec("change", AggSpec(r), p), n), field, START).Ok?
  {
    var change := TransformSpec("change", AggSpec(r), p);
    var subs := [Sub("_t0", change)];
    var name := Allocate(c, START, subs[0].placeholder + "_" + field);
    assert ("_ts_" + name)[..1] == "_";
    ChangeIsAccepted(c, name, START.(hidden := START.hidden + {name}), r, p);
    assert subs[1..] == [];
    assert FlattenSubs(c, subs, field, START).Ok?;
    assert EnsureAll(c, START, [], map[]) == Ok(START);
  }

  lemma ChangeIsAccepted(c: Config, field: string, st: State, r: AggRef, p: Params)
    requires c.hasTime && r in c.measures && Listed(st.known) && Canonical(r) != "_ts_" + field
    ensures Flatten(c, TransformSpec("change", AggSpec(r), p), field, st).Ok?
  {
    var shifted := "_ts_" + field;
    var first := Flatten(c, AggSpec(r), "_inner_" + field, st).value;
    FlattenLists(c, AggSpec(r), "_inner_" + field, st, first.0, first.1);
    ShiftIsNoRank();
    InputHasAKey(first.0.known, Canonical(r), first.1, shifted, Alias(c.model, shifted));
    assert AddChange(c, first.0, field, "change", p, first.1).Ok?;
  }

  lemma ShiftIsNoRank()
    ensures "time_shift" !in RANK_FAMILY && "change" in CHANGES
  {
    assert |"time_shift"| == 10 && |"rank"| == 4 && |"percent_rank"| == 12 && |"ntile"| == 5 && |"dense_rank"| == 10;
    assert "time_shift"[0] == 't' && "dense_rank"[0] == 'd';
  }

  // --------------------------------------------------------- clashing names

  /** Of two different aggregates, the second is answered with the first exactly if their canonical
      names are the same; else each has a column of its own. */
  lemma CanonicalNamesClash(c: Config, first: AggRef, second: AggRef)
    requires first != second && first in c.measures && second in c.measures
    ensures
      var r := Flatten(c, AggSpec(first), "x", START);
      r.Ok? &&
      var s := Flatten(c, AggSpec(second), "y", r.value.0);
      s.Ok? && Run(s.value.0.steps).Some? && s.value.1 in Run(s.value.0.steps).value &&
      var value := Run(s.value.0.steps).value[s.value.1];
      if Canonical(first) == Canonical(second) then s.value.1 == r.value.1 && value == AggValue(first)
      else value == AggValue(second)
  {
    var name := Canonical(first);
    FirstIsComputed(c, first, name);
    var st := Ensure(c, START, name, first).value;
    if name == Canonical(second) {
      SecondIsTaken(c, second, name, st, first);
    } else {
      SecondIsComputed(c, second, Canonical(second), st, first);
    }
  }

  lemma FirstIsComputed(c: Config, r: AggRef, name: string)
    requires r in c.measures && name == Canonical(r)
    ensures Ensure(c, START, name, r).Ok?
    ensures var st := Ensure(c, START, name, r).value; var s := MeasureStep(Alias(c.model, name), r);
      && st.steps == [s] && Run(st.steps) == Some(map[s.alias := AggValue(r)])
      && st.canon == map[r := s.alias] && name in st.known.at && st.known.at[name] == s.alias
  {
    var s := MeasureStep(Alias(c.model, name), r);
    assert [] + [s] == [s];
    RunSnoc([], s);
  }

  lemma SecondIsTaken(c: Config, r: AggRef, name: string, st: State, first: AggRef)
    requires name == Canonical(r) && r != first && st.canon.Keys == {first}
    requires st.steps == [MeasureStep(Alias(c.model, name), first)]
    ensures var s := Ensure(c, st, name, r);
      s.Ok? && s.value.steps == st.steps && name in s.value.known.at && s.value.known.at[name] == Alias(c.model, name)
  {
    assert HasMeasure(st.steps, Alias(c.model, name)) by { assert st.steps[0] in st.steps; }
  }

  lemma SecondIsComputed(c: Config, r: AggRef, name: string, st: State, first: AggRef)
    requires name == Canonical(r) && r != first && st.canon.Keys == {first} && r in c.measures
    requires |st.steps| == 1 && st.steps[0].MeasureStep? && st.steps[0].alias != Alias(c.model, name)
    requires Run(st.steps).Some? && Run(st.steps).value.Keys == {st.steps[0].alias}
    ensures var s := Ensure(c, st, name, r);
      && s.Ok? && name in s.value.known.at && s.value.known.at[name] == Alias(c.model, name)
      && Run(s.value.steps).Some? && Alias(c.model, name) in Run(s.value.steps).value
      && Run(s.value.steps).value[Alias(c.model, name)] == AggValue(r)
  {
    RunSnoc(st.steps, MeasureStep(Alias(c.model, name), r));
  }

  /** Two aggregates whose canonical names are the same. */
  lemma CanonicalNamesCoincide()
    ensures Canonical(AggRef("a", "b_c", "")) == Canonical(AggRef("a_b", "c", ""))
  {
    assert Canonical(AggRef("a", "b_c", "")) == "a_b_c" == Canonical(AggRef("a_b", "c", ""));
  }

  // --------------------------------------------------------- accepted names

  lemma {:induction false} EnsureAllNames(c: Config, st: State, names: seq<string>, refs: AggRefs)
    ensures EnsureAll(c, st, names, refs).Ok? ==> forall n :: n in names ==> n in refs
    ensures (forall n :: n in names ==> n in refs) ==> forall n :: EnsureAll(c, st, names, refs) != Err(BareName(n))
    decreases |names|
  {
    if names != [] && names[0] in refs {
      var r := Ensure(c, st, names[0], refs[names[0]]);
      if r.Ok? { EnsureAllNames(c, r.value, names[1..], refs); }
    }
  }

  lemma {:induction false} FlattenNames(c: Config, spec: Spec, field: string, st: State)
    ensures Flatten(c, spec, field, st).Ok? ==> NamesResolve(spec)
    ensures NamesResolve(spec) ==> forall n :: Flatten(c, spec, field, st) != Err(BareName(n))
    decreases spec, 1
  {
    match spec
    case AggSpec(_) =>
    case Arithmetic(_, names, refs, _) => EnsureAllNames(c, st, names, refs);
    case Mixed(_, names, subs, refs, _) =>
      EnsureAllNames(c, st, names, refs);
      var r := EnsureAll(c, st, names, refs);
      if r.Ok? { FlattenSubsNames(c, subs, field, r.value); }
    case TransformSpec(_, inner, _) => FlattenNames(c, inner, "_inner_" + field, st);
  }

  lemma {:induction false} FlattenSubsNames(c: Config, subs: seq<Sub>, field: string, st: State)
    ensures FlattenSubs(c, subs, field, st).Ok? ==> AllNamesResolve(subs)
    ensures AllNamesResolve(subs) ==> forall n :: FlattenSubs(c, subs, field, st) != Err(BareName(n))
    decreases subs, 0
  {
    if subs != [] {
      var name := Allocate(c, st, subs[0].placeholder + "_" + field);
      var sth := st.(hidden := st.hidden + {name});
      FlattenNames(c, subs[0].spec, name, sth);
      var r := Flatten(c, subs[0].spec, name, sth);
      if r.Ok? { FlattenSubsNames(c, subs[1..], field, r.value.0); }
    }
  }

  /** Lowering reports a bare name unless it is the placeholder of an earlier transform of the same
      expression; then it goes through. */
  lemma NamesAreChecked(c: Config, a: Ast, refs: AggRefs, spec: Spec, field: string, st: State)
    requires Parse(a, refs) == Ok(spec)
    ensures !Accepts(a, refs) ==> Flatten(c, spec, field, st).Err?
    ensures Accepts(a, refs) ==> forall n :: Flatten(c, spec, field, st) != Err(BareName(n))
  {
    AcceptsIsResolved(a, refs, spec);
    FlattenNames(c, spec, field, st);
  }
}
