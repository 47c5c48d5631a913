/** Rewriting the known names of an expression into quoted aliases: as text, by regular expression,
    one name at a time, the longest first. */
module Rewriting {
  import opened Models
  import opened Formulas

  // -------------------------------------------------------------- known names

  /** A dictionary that remembers in what order its keys came. */
  datatype Dict = Dict(order: seq<string>, at: map<string, Alias>)

  function Put(d: Dict, k: string, a: Alias): Dict {
    Dict(if k in d.at then d.order else d.order + [k], d.at[k := a])
  }

  function Without(order: seq<string>, k: string): seq<string> {
    if order == [] then [] else (if order[0] == k then [] else [order[0]]) + Without(order[1..], k)
  }

  function Remove(d: Dict, k: string): Dict {
    Dict(Without(d.order, k), d.at - {k})
  }

  function FirstKey(order: seq<string>, at: map<string, Alias>, a: Alias): (r: Option<string>)
    ensures r.Some? ==> r.value in at && at[r.value] == a
    ensures r.None? ==> forall k :: k in order && k in at ==> at[k] != a
  {
    if order == [] then None
    else if order[0] in at && at[order[0]] == a then Some(order[0])
    else FirstKey(order[1..], at, a)
  }

  /** The key found is the one that came first. */
  lemma {:induction false} FirstKeyIsFirst(order: seq<string>, at: map<string, Alias>, a: Alias, i: nat)
    requires i < |order| && order[i] in at && at[order[i]] == a
    requires forall k :: 0 <= k < i && order[k] in at ==> at[order[k]] != a
    ensures FirstKey(order, at, a) == Some(order[i])
  {
    if i > 0 { FirstKeyIsFirst(order[1..], at, a, i - 1); }
  }

  // ------------------------------------------------------------------- text

  predicate WordChar(ch: char) {
    'a' <= ch <= 'z' || 'A' <= ch <= 'Z' || '0' <= ch <= '9' || ch == '_'
  }

  /** Only letters, digits and underscores. */
  predicate IsWord(n: string) {
    forall ch :: ch in n ==> WordChar(ch)
  }

  /** `\b` before position `i`. */
  predicate Boundary(s: string, i: nat)
    requires i <= |s|
  {
    (i > 0 && WordChar(s[i - 1])) != (i < |s| && WordChar(s[i]))
  }

  /** The pattern of a name matches at `i`: the name stands there between word boundaries, and not
      directly after a dot or a quotation mark. */
  predicate StandsAt(name: string, s: string, i: nat) {
    && name != "" && i + |name| <= |s| && s[i..i + |name|] == name
    && Boundary(s, i) && Boundary(s, i + |name|) && (i > 0 ==> s[i - 1] != '.' && s[i - 1] != '\"')
  }

  predicate Stands(name: string, s: string) {
    exists i: nat :: i < |s| && StandsAt(name, s, i)
  }

  /** `re.sub`: every match from `i` on, from left to right, is replaced. */
  function Replace(s: string, name: string, quoted: string, i: nat): string
    requires i <= |s|
    decreases |s| - i
  {
    if StandsAt(name, s, i) then quoted + Replace(s, name, quoted, i + |name|)
    else if i == |s| then ""
    else [s[i]] + Replace(s, name, quoted, i + 1)
  }

  lemma {:induction false} NothingToReplace(s: string, name: string, quoted: string, i: nat)
    requires i <= |s| && forall j: nat :: i <= j < |s| ==> !StandsAt(name, s, j)
    ensures Replace(s, name, quoted, i) == s[i..]
    decreases |s| - i
  {
    if i < |s| { NothingToReplace(s, name, quoted, i + 1); }
  }

  /** Every match counts: the text up to the next one stays, and the search goes on after it. */
  lemma {:induction false} ReplacesNext(s: string, name: string, quoted: string, i: nat, j: nat)
    requires i <= j <= |s| && StandsAt(name, s, j) && forall k: nat :: i <= k < j ==> !StandsAt(name, s, k)
    ensures Replace(s, name, quoted, i) == s[i..j] + (quoted + Replace(s, name, quoted, j + |name|))
    decreases j - i
  {
    if i < j {
      ReplacesNext(s, name, quoted, i + 1, j);
      assert s[i..j] == [s[i]] + s[i + 1..j];
    }
  }

  predicate IsIdentifier(n: string) {
    n != "" && IsWord(n)
  }

  /** A name that word boundaries on both sides can delimit. */
  predicate Bounded(n: string) {
    n != "" && WordChar(n[0]) && WordChar(n[|n| - 1])
  }

  /** A name stands in itself exactly if it can be delimited, and then there is nothing else in it. */
  lemma StandsInItself(n: string, quoted: string)
    ensures Stands(n, n) <==> Bounded(n)
    ensures Bounded(n) ==> Replace(n, n, quoted, 0) == quoted
  {
    assert n[0..|n|] == n;
    if Bounded(n) {
      assert StandsAt(n, n, 0);
      assert quoted + "" == quoted && Replace(n, n, quoted, |n|) == "";
    }
  }

  lemma TooLongToStand(name: string, s: string)
    requires |name| >= |s| && name != s
    ensures !Stands(name, s)
  {
    assert s[0..|s|] == s;
    forall i: nat | i < |s| ensures !StandsAt(name, s, i) {}
  }

  /** What stands well inside a text still does when the text is continued at both ends. */
  predicate StandsInside(name: string, s: string) {
    exists i: nat :: 0 < i && i + |name| < |s| && StandsAt(name, s, i)
  }

  lemma StillInside(name: string, before: string, s: string, after: string)
    requires StandsInside(name, s)
    ensures StandsInside(name, before + s + after) && Stands(name, before + s + after)
    ensures |name| < |s|
  {
    var i: nat :| 0 < i && i + |name| < |s| && StandsAt(name, s, i);
    var t, k := before + s + after, |before| + i;
    assert t[k..k + |name|] == s[i..i + |name|];
    assert t[k - 1] == s[i - 1] && t[k] == s[i];
    assert t[k + |name| - 1] == s[i + |name| - 1] && t[k + |name|] == s[i + |name|];
    assert StandsAt(name, t, k);
  }

  // -------------------------------------------------------------- one name

  /** `"<model>.<name>"` */
  function InQuotes(a: Alias): string {
    "\"" + a.model + "." + a.name + "\""
  }

  /** Rewrites one name wherever its pattern matches: in a whole identifier, which becomes the
      quoted alias, or inside a piece of text, of which no identifier is left. */
  function Substitute(t: Term, name: string, a: Alias): Term
    decreases t, 1
  {
    match t
    case Word(n) =>
      if !Stands(name, n) then t else if n == name then Quoted(a) else Mangled(Replace(n, name, InQuotes(a), 0))
    case Quoted(b) =>
      if !Stands(name, InQuotes(b)) then t else Mangled(Replace(InQuotes(b), name, InQuotes(a), 0))
    case Mangled(s) => Mangled(Replace(s, name, InQuotes(a), 0))
    case Apply(op, args) => Apply(op, SubstituteAll(args, name, a))
    case _ => t
  }

  function SubstituteAll(args: seq<Term>, name: string, a: Alias): (r: seq<Term>)
    ensures |r| == |args|
    decreases args, 0
  {
    if args == [] then [] else [Substitute(args[0], name, a)] + SubstituteAll(args[1..], name, a)
  }

  /** The text of an identifier, a quoted alias, or what is left of one. */
  function Spelling(t: Term): string
    requires t.Word? || t.Quoted? || t.Mangled?
  {
    match t
    case Word(n) => n
    case Quoted(a) => InQuotes(a)
    case Mangled(s) => s
  }

  /** On text, rewriting a name is `re.sub`. */
  lemma SubstituteIsReplace(t: Term, name: string, a: Alias)
    requires t.Word? || t.Quoted? || t.Mangled?
    ensures var r := Substitute(t, name, a);
      (r.Word? || r.Quoted? || r.Mangled?) && Spelling(r) == Replace(Spelling(t), name, InQuotes(a), 0)
  {
    var s := Spelling(t);
    assert s[0..] == s;
    if !Stands(name, s) {
      forall j: nat | j < |s| ensures !StandsAt(name, s, j) {}
      NothingToReplace(s, name, InQuotes(a), 0);
    }
    StandsInItself(name, InQuotes(a));
  }

  // -------------------------------------------------------------- all names

  function Insert(n: string, names: seq<string>): seq<string> {
    if names == [] || |n| >= |names[0]| then [n] + names else [names[0]] + Insert(n, names[1..])
  }

  /** The names by falling length; equally long ones stay in order. */
  function ByLength(names: seq<string>): seq<string> {
    if names == [] then [] else Insert(names[0], ByLength(names[1..]))
  }

  /** Rewrites one name after the other. */
  function RewriteEach(t: Term, names: seq<string>, at: map<string, Alias>): Term
    decreases |names|
  {
    if names == [] then t else
      RewriteEach(if names[0] in at then Substitute(t, names[0], at[names[0]]) else t, names[1..], at)
  }

  /** Rewrites every known name, the longest first. */
  function Resolve(t: Term, d: Dict): Term {
    RewriteEach(t, ByLength(d.order), d.at)
  }

  /** The names whose turn comes after that of `n`. */
  function After(names: seq<string>, n: string): seq<string> {
    if names == [] then [] else if names[0] == n then names[1..] else After(names[1..], n)
  }

  /** No name whose turn comes later stands inside the quoted alias. */
  predicate Whole(d: Dict, n: string)
    requires n in d.at
  {
    forall k :: k in After(ByLength(d.order), n) && k in d.at ==> !Stands(k, InQuotes(d.at[n]))
  }

  /** The name can be delimited, and what it is rewritten into survives the names after it. */
  predicate Readable(d: Dict, n: string) {
    n in d.order && n in d.at && Bounded(n) && Whole(d, n)
  }

  // ------------------------------------------------------------------ order

  predicate Falling(names: seq<string>) {
    forall i, j :: 0 <= i < j < |names| ==> |names[i]| >= |names[j]|
  }

  lemma {:induction false} InsertFalls(n: string, names: seq<string>)
    requires Falling(names)
    ensures Falling(Insert(n, names)) && forall k :: k in Insert(n, names) <==> k == n || k in names
    ensures |Insert(n, names)| == |names| + 1
  {
    if names != [] && |n| < |names[0]| {
      InsertFalls(n, names[1..]);
      var r := Insert(n, names);
      forall k ensures k in r <==> k == n || k in names {
        assert k in r <==> k == names[0] || k in Insert(n, names[1..]);
        assert k in names <==> k == names[0] || k in names[1..] by { assert names == [names[0]] + names[1..]; }
      }
      forall i, j | 0 <= i < j < |r| ensures |r[i]| >= |r[j]| {
        if i == 0 { assert r[j] in Insert(n, names[1..]); InFalling(names); }
      }
    }
  }

  lemma InFalling(names: seq<string>)
    requires Falling(names) && names != []
    ensures forall k :: k in names ==> |k| <= |names[0]|
  {
    forall k | k in names ensures |k| <= |names[0]| {
      var i :| 0 <= i < |names| && names[i] == k;
      assert i == 0 || |names[0]| >= |names[i]|;
    }
  }

  lemma {:induction false} ByLengthFalls(names: seq<string>)
    ensures Falling(ByLength(names)) && forall k :: k in ByLength(names) <==> k in names
  {
    if names != [] {
      ByLengthFalls(names[1..]);
      InsertFalls(names[0], ByLength(names[1..]));
      assert names == [names[0]] + names[1..];
    }
  }

  lemma {:induction false} ShorterComesAfter(names: seq<string>, n: string, k: string)
    requires Falling(names) && n in names && k in names && |k| < |n|
    ensures k in After(names, n)
  {
    if names[0] != n {
      InFalling(names);
      assert names == [names[0]] + names[1..];
      ShorterComesAfter(names[1..], n, k);
    }
  }

  lemma {:induction false} AfterIsIn(names: seq<string>, n: string)
    ensures forall k :: k in After(names, n) ==> k in names
  {
    if names != [] { AfterIsIn(names[1..], n); }
  }

  lemma {:induction false} InsertAfter(m: string, names: seq<string>, n: string)
    requires m != n && n in names
    ensures forall k :: k in After(Insert(m, names), n) ==> k in After(names, n) || (k == m && |m| < |n|)
  {
    if names != [] && |m| < |names[0]| && names[0] != n {
      assert names == [names[0]] + names[1..];
      InsertAfter(m, names[1..], n);
    } else if names != [] && |m| < |names[0]| {
      InsertHolds(m, names[1..]);
    }
  }

  lemma {:induction false} InsertHolds(m: string, names: seq<string>)
    ensures forall k :: k in Insert(m, names) <==> k == m || k in names
  {
    if names != [] && |m| < |names[0]| {
      InsertHolds(m, names[1..]);
      assert names == [names[0]] + names[1..];
    }
  }

  /** What comes after the newest name is shorter. */
  lemma {:induction false} AfterTheNewest(names: seq<string>, n: string)
    requires n !in names
    ensures forall k :: k in After(ByLength(names + [n]), n) ==> |k| < |n|
  {
    if names == [] {
      assert ([] + [n])[1..] == [] && ByLength([n]) == [n];
    } else {
      assert (names + [n])[1..] == names[1..] + [n];
      AfterTheNewest(names[1..], n);
      ByLengthFalls(names[1..] + [n]);
      assert n in names[1..] + [n];
      InsertAfter(names[0], ByLength(names[1..] + [n]), n);
    }
  }

  /** The newest name is whole exactly if no shorter one stands inside its quoted alias. */
  lemma NewestIsWhole(d: Dict, n: string)
    requires d.order != [] && d.order[|d.order| - 1] == n
    requires n !in d.order[..|d.order| - 1] && n in d.at && forall k :: k in d.order ==> k in d.at
    ensures Whole(d, n) <==> forall k :: k in d.order && |k| < |n| ==> !Stands(k, InQuotes(d.at[n]))
  {
    var names := d.order[..|d.order| - 1];
    assert d.order == names + [n];
    AfterTheNewest(names, n);
    ByLengthFalls(d.order);
    AfterIsIn(ByLength(d.order), n);
    forall k | k in d.order && |k| < |n| ensures k in After(ByLength(d.order), n) {
      ShorterComesAfter(ByLength(d.order), n, k);
    }
  }

  // ------------------------------------------------ what becomes of one name

  lemma {:induction false} MangledStays(s: string, names: seq<string>, at: map<string, Alias>)
    ensures RewriteEach(Mangled(s), names, at).Mangled?
    decreases |names|
  {
    if names != [] {
      var t := if names[0] in at then Substitute(Mangled(s), names[0], at[names[0]]) else Mangled(s);
      MangledStays(t.text, names[1..], at);
    }
  }

  lemma {:induction false} QuotedBecomes(a: Alias, names: seq<string>, at: map<string, Alias>)
    ensures var r := RewriteEach(Quoted(a), names, at);
      if forall k :: k in names && k in at ==> !Stands(k, InQuotes(a)) then r == Quoted(a) else r.Mangled?
    decreases |names|
  {
    if names != [] {
      assert names == [names[0]] + names[1..];
      if names[0] in at && Stands(names[0], InQuotes(a)) {
        MangledStays(Substitute(Quoted(a), names[0], at[names[0]]).text, names[1..], at);
      } else {
        QuotedBecomes(a, names[1..], at);
      }
    }
  }

  /** Longer names do not touch an identifier. */
  lemma {:induction false} WordBecomes(n: string, names: seq<string>, at: map<string, Alias>)
    requires Falling(names)
    ensures var r := RewriteEach(Word(n), names, at);
      if n in names && n in at && Bounded(n) then r == RewriteEach(Quoted(at[n]), After(names, n), at)
      else r.Word? || r.Mangled?
    decreases |names|
  {
    if names != [] {
      var first, rest := names[0], names[1..];
      assert names == [first] + rest;
      StandsInItself(n, "");
      if first in at && Stands(first, n) && first != n {
        if n in names { InFalling(names); TooLongToStand(first, n); }
        MangledStays(Substitute(Word(n), first, at[first]).text, rest, at);
      } else if !(first == n && first in at && Stands(first, n)) {
        WordBecomes(n, rest, at);
      }
    }
  }

  /** A readable name becomes its quoted alias; any other is left as it is or in pieces. */
  lemma NameBecomes(n: string, d: Dict)
    ensures var r := Resolve(Word(n), d);
      if Readable(d, n) then r == Quoted(d.at[n]) else r.Word? || r.Mangled?
  {
    ByLengthFalls(d.order);
    WordBecomes(n, ByLength(d.order), d.at);
    if n in d.order && n in d.at && Bounded(n) {
      QuotedBecomes(d.at[n], After(ByLength(d.order), n), d.at);
    }
  }

  // ------------------------------------------------------- whole expressions

  function ResolveAll(args: seq<Term>, d: Dict): (r: seq<Term>)
    ensures |r| == |args|
  {
    if args == [] then [] else [Resolve(args[0], d)] + ResolveAll(args[1..], d)
  }

  ghost function RewriteEachAll(args: seq<Term>, names: seq<string>, at: map<string, Alias>): (r: seq<Term>)
    ensures |r| == |args|
  {
    if args == [] then [] else [RewriteEach(args[0], names, at)] + RewriteEachAll(args[1..], names, at)
  }

  lemma {:induction false} RewriteNothing(args: seq<Term>, at: map<string, Alias>)
    ensures RewriteEachAll(args, [], at) == args
  {
    if args != [] { RewriteNothing(args[1..], at); }
  }

  lemma {:induction false} RewriteOne(args: seq<Term>, names: seq<string>, at: map<string, Alias>)
    requires names != [] && names[0] in at
    ensures RewriteEachAll(SubstituteAll(args, names[0], at[names[0]]), names[1..], at) ==
      RewriteEachAll(args, names, at)
  {
    if args != [] {
      RewriteOne(args[1..], names, at);
      assert SubstituteAll(args, names[0], at[names[0]])[1..] == SubstituteAll(args[1..], names[0], at[names[0]]);
    }
  }

  lemma {:induction false} RewriteNone(args: seq<Term>, names: seq<string>, at: map<string, Alias>)
    requires names != [] && names[0] !in at
    ensures RewriteEachAll(args, names[1..], at) == RewriteEachAll(args, names, at)
  {
    if args != [] { RewriteNone(args[1..], names, at); }
  }

  lemma {:induction false} RewriteApply(op: string, args: seq<Term>, names: seq<string>, at: map<string, Alias>)
    ensures RewriteEach(Apply(op, args), names, at) == Apply(op, RewriteEachAll(args, names, at))
    decreases |names|
  {
    if names == [] {
      RewriteNothing(args, at);
    } else if names[0] in at {
      RewriteApply(op, SubstituteAll(args, names[0], at[names[0]]), names[1..], at);
      RewriteOne(args, names, at);
    } else {
      RewriteApply(op, args, names[1..], at);
      RewriteNone(args, names, at);
    }
  }

  lemma {:induction false} ResolveEach(args: seq<Term>, d: Dict)
    ensures RewriteEachAll(args, ByLength(d.order), d.at) == ResolveAll(args, d)
  {
    if args != [] { ResolveEach(args[1..], d); }
  }

  lemma ResolveApply(op: string, args: seq<Term>, d: Dict)
    ensures Resolve(Apply(op, args), d) == Apply(op, ResolveAll(args, d))
  {
    RewriteApply(op, args, ByLength(d.order), d.at);
    ResolveEach(args, d);
  }

  lemma {:induction false} NotToBeRewritten(t: Term, names: seq<string>, at: map<string, Alias>)
    requires t.Literal? || t.Path?
    ensures RewriteEach(t, names, at) == t
    decreases |names|
  {
    if names != [] { NotToBeRewritten(t, names[1..], at); }
  }

  // -------------------------------------------------------- plain identifiers

  /** Inside quotes, plain words have boundaries only at the dot and at the quotation marks. */
  lemma BoundariesInQuotes(a: Alias, i: nat)
    requires IsWord(a.model) && IsWord(a.name) && i < |InQuotes(a)|
    ensures var s := InQuotes(a);
      || !Boundary(s, i) || s[i] == '.' || i == |s| - 1
      || (i > 0 && (s[i - 1] == '.' || s[i - 1] == '\"'))
    ensures !Boundary(InQuotes(a), |InQuotes(a)|)
  {
    var s := InQuotes(a);
    var dot := |a.model| + 1;
    assert s == "\"" + a.model + "." + a.name + "\"";
    if 1 < i < dot {
      assert s[i] == a.model[i - 1] && s[i - 1] == a.model[i - 2];
      assert WordChar(a.model[i - 1]) && WordChar(a.model[i - 2]);
    } else if dot + 1 < i < |s| - 1 {
      assert s[i] == a.name[i - dot - 1] && s[i - 1] == a.name[i - dot - 2];
      assert WordChar(a.name[i - dot - 1]) && WordChar(a.name[i - dot - 2]);
    }
  }

  lemma FirstOfName(name: string, s: string, i: nat)
    requires StandsAt(name, s, i)
    ensures name[0] == s[i]
  {
    assert s[i..i + |name|][0] == s[i];
  }

  /** An alias of plain words survives every name that does not start with a dot. */
  lemma WordsAreWhole(a: Alias, k: string)
    requires IsWord(a.model) && IsWord(a.name) && (k != "" ==> k[0] != '.')
    ensures !Stands(k, InQuotes(a))
  {
    if Stands(k, InQuotes(a)) {
      var i: nat :| i < |InQuotes(a)| && StandsAt(k, InQuotes(a), i);
      BoundariesInQuotes(a, i);
      FirstOfName(k, InQuotes(a), i);
      assert false;
    }
  }
}
