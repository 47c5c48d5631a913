/** `__`-delimited path aliases: joining hop names into one and splitting one into hops. */
module Aliases {

  /** `"__".join(parts)`. */
  function Join(parts: seq<string>): string {
    if parts == [] then ""
    else if |parts| == 1 then parts[0]
    else parts[0] + "__" + Join(parts[1..])
  }

  /** `s.split("__")`: cut at every `__`, from the left and without overlap. */
  function Split(s: string): (parts: seq<string>)
    ensures |parts| > 0
  {
    if s == "" then [""]
    else if |s| >= 2 && s[0] == '_' && s[1] == '_' then [""] + Split(s[2..])
    else var parts := Split(s[1..]); [[s[0]] + parts[0]] + parts[1..]
  }

  /** No `__` inside and no `_` at the end: joining cannot move such a name's boundary. */
  predicate Clean(name: string) {
    && (forall i :: 0 <= i < |name| - 1 ==> name[i] != '_' || name[i + 1] != '_')
    && (name != "" ==> name[|name| - 1] != '_')
  }

  ghost predicate AllClean(parts: seq<string>) {
    forall i :: 0 <= i < |parts| ==> Clean(parts[i])
  }

  lemma JoinPrepend(c: char, parts: seq<string>)
    requires parts != []
    ensures Join([[c] + parts[0]] + parts[1..]) == [c] + Join(parts)
  {
    var longer := [[c] + parts[0]] + parts[1..];
    assert longer[1..] == parts[1..];
    if |parts| > 1 {
      var rest := Join(parts[1..]);
      assert [c] + parts[0] + "__" + rest == [c] + (parts[0] + "__" + rest);
    }
  }

  lemma JoinEmptyFirst(parts: seq<string>)
    requires parts != []
    ensures Join([""] + parts) == "__" + Join(parts)
  {
    assert ([""] + parts)[1..] == parts;
    assert "" + "__" + Join(parts) == "__" + Join(parts);
  }

  lemma {:induction false} JoinOfSplit(s: string)
    ensures Join(Split(s)) == s
  {
    if s == "" {
    } else if |s| >= 2 && s[0] == '_' && s[1] == '_' {
      JoinOfSplit(s[2..]);
      JoinEmptyFirst(Split(s[2..]));
      assert s == "__" + s[2..];
    } else {
      JoinOfSplit(s[1..]);
      JoinPrepend(s[0], Split(s[1..]));
      assert s == [s[0]] + s[1..];
    }
  }

  lemma {:induction false} SplitName(name: string)
    requires Clean(name)
    ensures Split(name) == [name]
  {
    if name != "" {
      CleanTail(name);
      SplitName(name[1..]);
      assert name == [name[0]] + name[1..];
    }
  }

  lemma CleanTail(name: string)
    requires Clean(name) && name != ""
    ensures Clean(name[1..])
  {
    var tail := name[1..];
    forall i | 0 <= i < |tail| - 1 ensures tail[i] != '_' || tail[i + 1] != '_' {
      assert tail[i] == name[i + 1] && tail[i + 1] == name[i + 2];
    }
  }

  lemma {:induction false} SplitFirst(name: string, rest: string)
    requires Clean(name)
    ensures Split(name + "__" + rest) == [name] + Split(rest)
  {
    var s := name + "__" + rest;
    if name == "" {
      assert s == "__" + rest;
      assert s[2..] == rest;
    } else {
      CleanTail(name);
      SplitFirst(name[1..], rest);
      assert s[0] == name[0] && s[1..] == name[1..] + "__" + rest;
      assert |name| > 1 ==> s[1] == name[1];
      assert name == [name[0]] + name[1..];
    }
  }

  lemma {:induction false} SplitOfJoin(parts: seq<string>)
    requires parts != [] && AllClean(parts)
    ensures Split(Join(parts)) == parts
  {
    assert Clean(parts[0]);
    if |parts| == 1 {
      SplitName(parts[0]);
    } else {
      assert AllClean(parts[1..]) by {
        forall i | 0 <= i < |parts[1..]| ensures Clean(parts[1..][i]) { assert Clean(parts[i + 1]); }
      }
      SplitOfJoin(parts[1..]);
      SplitFirst(parts[0], Join(parts[1..]));
    }
  }

  /** Distinct paths of clean names have distinct aliases. */
  lemma JoinInjective(p: seq<string>, q: seq<string>)
    requires p != [] && q != [] && AllClean(p) && AllClean(q)
    requires Join(p) == Join(q)
    ensures p == q
  {
    SplitOfJoin(p);
    SplitOfJoin(q);
  }

  /** Names that end in `_` do clash: `a_` then `b`, and `a` then `_b`. */
  lemma JoinClashes()
    ensures Join(["a_", "b"]) == Join(["a", "_b"]) == "a___b"
  {
    assert Join(["a_", "b"][1..]) == "b" && Join(["a", "_b"][1..]) == "_b";
  }

  lemma {:induction false} JoinAppend(p: seq<string>, q: seq<string>)
    requires p != [] && q != []
    ensures Join(p + q) == Join(p) + "__" + Join(q)
  {
    if |p| > 1 {
      JoinAppend(p[1..], q);
      assert (p + q)[1..] == p[1..] + q;
      assert p[0] + "__" + (Join(p[1..]) + "__" + Join(q)) == p[0] + "__" + Join(p[1..]) + "__" + Join(q);
    } else {
      assert (p + q)[1..] == q;
    }
  }
}
