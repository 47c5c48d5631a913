/** `{variable}` placeholders in filter text. */
module Variables {
  import opened Models

  /** A variable's value: text and numbers are inserted as they print. */
  datatype Value = Scalar(text: string) | NotScalar

  datatype Error = Undefined(name: string) | NotAScalar(name: string) | InvalidName(name: string)

  type Bindings = map<string, Value>

  predicate IsLetter(ch: char) {
    'a' <= ch <= 'z' || 'A' <= ch <= 'Z' || ch == '_'
  }

  predicate IsName(s: string) {
    s != "" && IsLetter(s[0]) && forall i :: 0 <= i < |s| ==> IsLetter(s[i]) || '0' <= s[i] <= '9'
  }

  /** The first closing brace from `i` on. */
  function FirstClose(s: string, i: nat): (r: Option<nat>)
    requires i <= |s|
    ensures r.Some? ==> i <= r.value < |s| && s[r.value] == '}' && forall k :: i <= k < r.value ==> s[k] != '}'
    ensures r.None? ==> forall k :: i <= k < |s| ==> s[k] != '}'
    decreases |s| - i
  {
    if i == |s| then None else if s[i] == '}' then Some(i) else FirstClose(s, i + 1)
  }

  /** What a text consists of: characters that stand for themselves, doubled braces included, and
      placeholders with good and bad names. */
  datatype Piece = Plain(ch: char) | Variable(name: string) | Malformed(name: string)

  /** The piece a text starts with, and how long it is there. */
  function Match(s: string): (r: (Piece, nat))
    requires s != ""
    ensures 1 <= r.1 <= |s|
  {
    if |s| >= 2 && s[0] == s[1] == '{' then (Plain('{'), 2)
    else if |s| >= 2 && s[0] == s[1] == '}' then (Plain('}'), 2)
    else if s[0] == '{' && FirstClose(s, 1).Some? then
      var close := FirstClose(s, 1).value;
      (if IsName(s[1..close]) then Variable(s[1..close]) else Malformed(s[1..close]), close + 1)
    else (Plain(s[0]), 1)
  }

  function PieceText(p: Piece, vars: Bindings): Result<string, Error> {
    match p
    case Plain(ch) => Ok([ch])
    case Malformed(name) => Err(InvalidName(name))
    case Variable(name) =>
      if name !in vars then Err(Undefined(name))
      else if vars[name].NotScalar? then Err(NotAScalar(name))
      else Ok(vars[name].text)
  }

  /** Replaces every placeholder, from left to right; the first that cannot be raises. */
  function Substitute(s: string, vars: Bindings): Result<string, Error> {
    if s == "" then Ok("") else
      var (piece, n) := Match(s);
      match PieceText(piece, vars)
      case Err(e) => Err(e)
      case Ok(text) =>
        match Substitute(s[n..], vars)
        case Err(e) => Err(e)
        case Ok(rest) => Ok(text + rest)
  }

  // -------------------------------------------------------------- pieces

  function PiecesOf(s: string): seq<Piece> {
    if s == "" then [] else [Match(s).0] + PiecesOf(s[Match(s).1..])
  }

  function Render(pieces: seq<Piece>, vars: Bindings): Result<string, Error> {
    if pieces == [] then Ok("") else
      match PieceText(pieces[0], vars)
      case Err(e) => Err(e)
      case Ok(text) =>
        match Render(pieces[1..], vars)
        case Err(e) => Err(e)
        case Ok(rest) => Ok(text + rest)
  }

  /** A text is taken apart before any value is known, and its pieces are rendered one by one: values
      are inserted as they are and never read again. */
  lemma {:induction false} ValuesAreNotRescanned(s: string, vars: Bindings)
    ensures Substitute(s, vars) == Render(PiecesOf(s), vars)
    decreases |s|
  {
    if s != "" {
      ValuesAreNotRescanned(s[Match(s).1..], vars);
      assert PiecesOf(s)[1..] == PiecesOf(s[Match(s).1..]);
    }
  }

  predicate WellFormed(s: string) {
    forall p :: p in PiecesOf(s) ==> !p.Malformed?
  }

  function NamesIn(s: string): set<string> {
    set p | p in PiecesOf(s) && p.Variable? :: p.name
  }

  function NamesInAll(filters: seq<string>): set<string> {
    if filters == [] then {} else NamesInAll(filters[..|filters| - 1]) + NamesIn(filters[|filters| - 1])
  }

  lemma {:induction false} InSome(filters: seq<string>, n: string)
    ensures n in NamesInAll(filters) <==> exists f :: f in filters && n in NamesIn(f)
  {
    if filters != [] {
      var k := |filters| - 1;
      InSome(filters[..k], n);
      assert filters == filters[..k] + [filters[k]];
    }
  }

  lemma NamesFrom(s: string, i: nat)
    requires i < |s|
    ensures var (piece, n) := Match(s[i..]);
      NamesIn(s[i..]) == (if piece.Variable? then {piece.name} else {}) + NamesIn(s[i + n..])
  {
    var (piece, n) := Match(s[i..]);
    assert s[i..][n..] == s[i + n..];
    assert PiecesOf(s[i..]) == [piece] + PiecesOf(s[i + n..]);
    assert piece in PiecesOf(s[i..]);
  }

  /** The placeholders of a list of filters. */
  method ExtractPlaceholderNames(filters: seq<string>) returns (found: set<string>)
    ensures forall n :: n in found <==> exists f :: f in filters && n in NamesIn(f)
  {
    found := {};
    for k := 0 to |filters|
      invariant found == NamesInAll(filters[..k])
    {
      var names := NamesOfFilter(filters[k]);
      found := found + names;
      assert filters[..k + 1][..k] == filters[..k];
    }
    assert filters[..|filters|] == filters;
    forall n ensures n in found <==> exists f :: f in filters && n in NamesIn(f) { InSome(filters, n); }
  }

  /** The matches of one filter, from left to right. */
  method NamesOfFilter(s: string) returns (found: set<string>)
    ensures found == NamesIn(s)
  {
    found := {};
    var i := 0;
    assert s[0..] == s;
    while i < |s|
      invariant i <= |s| && found + NamesIn(s[i..]) == NamesIn(s)
      decreases |s| - i
    {
      var (piece, n) := Match(s[i..]);
      NamesFrom(s, i);
      if piece.Variable? { found := found + {piece.name}; }
      i := i + n;
    }
  }

  // -------------------------------------------------------------- when it works

  predicate Supplied(p: Piece, vars: Bindings) {
    p.Plain? || (p.Variable? && p.name in vars && vars[p.name].Scalar?)
  }

  lemma {:induction false} RendersIffSupplied(pieces: seq<Piece>, vars: Bindings)
    ensures Render(pieces, vars).Ok? <==> forall p :: p in pieces ==> Supplied(p, vars)
  {
    if pieces != [] {
      RendersIffSupplied(pieces[1..], vars);
      assert Render(pieces, vars).Ok? <==> Supplied(pieces[0], vars) && Render(pieces[1..], vars).Ok?;
      assert pieces == [pieces[0]] + pieces[1..];
    }
  }

  /** A text without malformed placeholders can be filled in, from scalar values, exactly if all its
      names are supplied. */
  lemma SubstitutesIffSupplied(s: string, vars: Bindings)
    requires WellFormed(s) && forall n :: n in vars ==> vars[n].Scalar?
    ensures Substitute(s, vars).Ok? <==> NamesIn(s) <= vars.Keys
  {
    ValuesAreNotRescanned(s, vars);
    RendersIffSupplied(PiecesOf(s), vars);
    if NamesIn(s) <= vars.Keys {
      forall p | p in PiecesOf(s) ensures Supplied(p, vars) { if p.Variable? { assert p.name in NamesIn(s); } }
    }
    if Substitute(s, vars).Ok? {
      forall n | n in NamesIn(s) ensures n in vars {
        var p :| p in PiecesOf(s) && p.Variable? && p.name == n;
        assert Supplied(p, vars);
      }
    }
  }

  /** A malformed placeholder always raises. */
  lemma MalformedRaises(s: string, vars: Bindings)
    requires !WellFormed(s)
    ensures Substitute(s, vars).Err?
  {
    ValuesAreNotRescanned(s, vars);
    RendersIffSupplied(PiecesOf(s), vars);
    var p :| p in PiecesOf(s) && p.Malformed?;
    assert !Supplied(p, vars);
  }

  lemma {:induction false} RenderDependsOn(pieces: seq<Piece>, vars: Bindings, other: Bindings)
    requires forall p :: p in pieces && p.Variable? ==>
      (p.name in vars <==> p.name in other) && (p.name in vars ==> vars[p.name] == other[p.name])
    ensures Render(pieces, vars) == Render(pieces, other)
  {
    if pieces != [] {
      assert pieces[0] in pieces && forall p :: p in pieces[1..] ==> p in pieces;
      RenderDependsOn(pieces[1..], vars, other);
    }
  }

  /** The result depends on no other names. */
  lemma OnlyItsNamesMatter(s: string, vars: Bindings, other: Bindings)
    requires forall n :: n in NamesIn(s) ==> (n in vars <==> n in other) && (n in vars ==> vars[n] == other[n])
    ensures Substitute(s, vars) == Substitute(s, other)
  {
    ValuesAreNotRescanned(s, vars);
    ValuesAreNotRescanned(s, other);
    forall p | p in PiecesOf(s) && p.Variable?
      ensures (p.name in vars <==> p.name in other) && (p.name in vars ==> vars[p.name] == other[p.name])
    {
      assert p.name in NamesIn(s);
    }
    RenderDependsOn(PiecesOf(s), vars, other);
  }

  // ----------------------------------------------------------------- escaping

  /** Every brace doubled. */
  function Doubled(s: string): string {
    if s == "" then "" else (if s[0] == '{' || s[0] == '}' then [s[0], s[0]] else [s[0]]) + Doubled(s[1..])
  }

  /** Substitution undoes the doubling of braces, whatever the text and the variables. */
  lemma {:induction false} DoublingIsUndone(s: string, vars: Bindings)
    ensures Substitute(Doubled(s), vars) == Ok(s)
  {
    if s != "" {
      DoublingIsUndone(s[1..], vars);
      var d, n := Doubled(s), Match(Doubled(s)).1;
      assert d[n..] == Doubled(s[1..]);
      assert s == [s[0]] + s[1..];
    }
  }

  // ------------------------------------------------------------------- one by one

  /** The ASCII codes of letters and the underscore, and of digits. */
  predicate IsLetterCode(n: int) { 65 <= n <= 90 || 97 <= n <= 122 || n == 95 }

  predicate IsDigitCode(n: int) { 48 <= n <= 57 }

  predicate IsSpelled(s: string) {
    && s != "" && IsLetterCode(s[0] as int)
    && forall ch :: ch in s ==> IsLetterCode(ch as int) || IsDigitCode(ch as int)
  }

  /** A name starts with a letter or an underscore and goes on with letters, digits and underscores. */
  lemma NamesAreSpelled(s: string)
    ensures IsName(s) <==> IsSpelled(s)
  {
    assert forall i :: 0 <= i < |s| ==> s[i] in s;
  }

  lemma {:induction false} ClosesAt(s: string, i: nat, close: nat)
    requires i <= close < |s| && s[close] == '}' && forall k :: i <= k < close ==> s[k] != '}'
    ensures FirstClose(s, i) == Some(close)
    decreases close - i
  {
    if i < close { ClosesAt(s, i + 1, close); }
  }

  /** What a placeholder in front of a text comes to: its value and then the rest, or an error that
      names it. */
  lemma PlaceholderBecomes(name: string, rest: string, vars: Bindings)
    requires '}' !in name && (name != "" ==> name[0] != '{')
    ensures Substitute("{" + name + "}" + rest, vars) ==
      if !IsSpelled(name) then Err(InvalidName(name))
      else if name !in vars then Err(Undefined(name))
      else if vars[name] == NotScalar then Err(NotAScalar(name))
      else
        match Substitute(rest, vars)
        case Err(e) => Err(e)
        case Ok(text) => Ok(vars[name].text + text)
  {
    var s := "{" + name + "}" + rest;
    var close := |name| + 1;
    assert s[0] == '{' && s[1] != '{';
    assert forall k :: 1 <= k < close ==> s[k] == name[k - 1];
    ClosesAt(s, 1, close);
    assert s[1..close] == name && s[close + 1..] == rest;
    NamesAreSpelled(name);
  }

  /** Every other character stays as it is, a brace too that is neither doubled nor opens a placeholder. */
  lemma OthersStay(ch: char, rest: string, vars: Bindings)
    requires ch == '{' ==> '}' !in rest && (rest != "" ==> rest[0] != '{')
    requires ch == '}' && rest != "" ==> rest[0] != '}'
    ensures Substitute([ch] + rest, vars) ==
      match Substitute(rest, vars)
      case Err(e) => Err(e)
      case Ok(text) => Ok([ch] + text)
  {
    var s := [ch] + rest;
    assert s[1..] == rest;
    assert forall k :: 1 <= k < |s| ==> s[k] == rest[k - 1];
  }
}
