/** The orders Python compares names and hop lists by, and sorting a set of names.
    Strings compare by code point, lists by their first differing element. */
module Names {

  /** `a < b` for Python strings. */
  predicate StrLt(a: string, b: string) {
    |b| > 0 && (|a| == 0 || a[0] < b[0] || (a[0] == b[0] && StrLt(a[1..], b[1..])))
  }

  /** `p < q` for Python lists of strings. */
  predicate PathLt(p: seq<string>, q: seq<string>) {
    |q| > 0 && (|p| == 0 || StrLt(p[0], q[0]) || (p[0] == q[0] && PathLt(p[1..], q[1..])))
  }

  lemma {:induction false} StrIrreflexive(a: string)
    ensures !StrLt(a, a)
  {
    if |a| > 0 { StrIrreflexive(a[1..]); }
  }

  lemma {:induction false} StrTransitive(a: string, b: string, c: string)
    requires StrLt(a, b) && StrLt(b, c)
    ensures StrLt(a, c)
  {
    if |a| > 0 && a[0] == b[0] == c[0] { StrTransitive(a[1..], b[1..], c[1..]); }
  }

  lemma {:induction false} StrTotal(a: string, b: string)
    ensures StrLt(a, b) || a == b || StrLt(b, a)
  {
    if |a| > 0 && |b| > 0 && a[0] == b[0] {
      StrTotal(a[1..], b[1..]);
      assert a == [a[0]] + a[1..] && b == [b[0]] + b[1..];
    }
  }

  lemma {:induction false} PathIrreflexive(p: seq<string>)
    ensures !PathLt(p, p)
  {
    if |p| > 0 { StrIrreflexive(p[0]); PathIrreflexive(p[1..]); }
  }

  lemma {:induction false} PathTransitive(p: seq<string>, q: seq<string>, r: seq<string>)
    requires PathLt(p, q) && PathLt(q, r)
    ensures PathLt(p, r)
  {
    if |p| > 0 {
      if StrLt(p[0], q[0]) && StrLt(q[0], r[0]) {
        StrTransitive(p[0], q[0], r[0]);
      } else if p[0] == q[0] == r[0] {
        PathTransitive(p[1..], q[1..], r[1..]);
      }
    }
  }

  lemma {:induction false} PathTotal(p: seq<string>, q: seq<string>)
    ensures PathLt(p, q) || p == q || PathLt(q, p)
  {
    if |p| > 0 && |q| > 0 {
      StrTotal(p[0], q[0]);
      if p[0] == q[0] {
        PathTotal(p[1..], q[1..]);
        assert p == [p[0]] + p[1..] && q == [q[0]] + q[1..];
      }
    }
  }

  /** One is smaller if it ends where the other goes on, or has the smaller character where they first
      differ. */
  ghost predicate SmallerAt(a: string, b: string, i: nat) {
    i <= |a| && i <= |b| && a[..i] == b[..i] && i < |b| && (i == |a| || a[i] < b[i])
  }

  lemma {:induction false} StrLtIsFirstDifference(a: string, b: string)
    ensures StrLt(a, b) <==> exists i: nat :: SmallerAt(a, b, i)
  {
    if a != "" && b != "" && a[0] == b[0] {
      StrLtIsFirstDifference(a[1..], b[1..]);
      forall i: nat ensures SmallerAt(a[1..], b[1..], i) ==> SmallerAt(a, b, i + 1) {
        if SmallerAt(a[1..], b[1..], i) {
          assert a[..i + 1] == [a[0]] + a[1..][..i] && b[..i + 1] == [b[0]] + b[1..][..i];
        }
      }
      forall i: nat | i > 0 ensures SmallerAt(a, b, i) ==> SmallerAt(a[1..], b[1..], i - 1) {
        if SmallerAt(a, b, i) { assert a[1..][..i - 1] == a[..i][1..] && b[1..][..i - 1] == b[..i][1..]; }
      }
    } else {
      forall i: nat | i > 0 ensures !SmallerAt(a, b, i) {
        if i <= |a| && i <= |b| { assert a[..i][0] == a[0] && b[..i][0] == b[0]; }
      }
      assert StrLt(a, b) <==> SmallerAt(a, b, 0);
    }
  }

  ghost predicate SmallerPathAt(p: seq<string>, q: seq<string>, i: nat) {
    i <= |p| && i <= |q| && p[..i] == q[..i] && i < |q| && (i == |p| || StrLt(p[i], q[i]))
  }

  lemma {:induction false} PathLtIsFirstDifference(p: seq<string>, q: seq<string>)
    ensures PathLt(p, q) <==> exists i: nat :: SmallerPathAt(p, q, i)
  {
    if p != [] && q != [] && p[0] == q[0] {
      StrIrreflexive(p[0]);
      PathLtIsFirstDifference(p[1..], q[1..]);
      forall i: nat ensures SmallerPathAt(p[1..], q[1..], i) ==> SmallerPathAt(p, q, i + 1) {
        if SmallerPathAt(p[1..], q[1..], i) {
          assert p[..i + 1] == [p[0]] + p[1..][..i] && q[..i + 1] == [q[0]] + q[1..][..i];
        }
      }
      forall i: nat | i > 0 ensures SmallerPathAt(p, q, i) ==> SmallerPathAt(p[1..], q[1..], i - 1) {
        if SmallerPathAt(p, q, i) { assert p[1..][..i - 1] == p[..i][1..] && q[1..][..i - 1] == q[..i][1..]; }
      }
    } else {
      forall i: nat | i > 0 ensures !SmallerPathAt(p, q, i) {
        if i <= |p| && i <= |q| { assert p[..i][0] == p[0] && q[..i][0] == q[0]; }
      }
      assert PathLt(p, q) <==> SmallerPathAt(p, q, 0);
    }
  }

  /** Appending to the smaller of two equally long hop lists keeps it smaller, whatever
      is appended to either. */
  lemma {:induction false} PathLtExtends(p: seq<string>, q: seq<string>, s: seq<string>, t: seq<string>)
    requires |p| == |q| && PathLt(p, q)
    ensures PathLt(p + s, q + t)
  {
    StrIrreflexive(q[0]);
    assert |p| > 0 && (p + s)[0] == p[0] && (q + t)[0] == q[0];
    if p[0] == q[0] {
      PathLtExtends(p[1..], q[1..], s, t);
      assert (p + s)[1..] == p[1..] + s && (q + t)[1..] == q[1..] + t;
    }
  }

  ghost predicate Sorted(names: seq<string>) {
    forall i, j :: 0 <= i < j < |names| ==> StrLt(names[i], names[j])
  }

  /** `sorted(names)` for a set: every name once, in increasing order. */
  method SortNames(names: set<string>) returns (sorted: seq<string>)
    ensures Sorted(sorted)
    ensures forall n :: n in sorted <==> n in names
  {
    sorted := [];
    var rest := names;
    while rest != {}
      invariant rest <= names && (forall n :: n in sorted <==> n in names - rest)
      invariant Sorted(sorted)
      invariant forall i, n :: 0 <= i < |sorted| && n in rest ==> StrLt(sorted[i], n)
    {
      var least := Least(rest);
      forall n | n in rest - {least} ensures StrLt(least, n) { }
      sorted, rest := sorted + [least], rest - {least};
    }
  }

  /** `min(names)`. */
  method Least(names: set<string>) returns (least: string)
    requires names != {}
    ensures least in names
    ensures forall n :: n in names && n != least ==> StrLt(least, n)
  {
    least :| least in names;
    var rest := names - {least};
    while rest != {}
      invariant rest <= names && least in names - rest
      invariant forall n :: n in names - rest && n != least ==> StrLt(least, n)
    {
      var n :| n in rest;
      StrTotal(n, least);
      if StrLt(n, least) {
        forall m | m in names - rest && m != n ensures StrLt(n, m) {
          if m != least { StrTransitive(n, least, m); }
        }
        least := n;
      }
      rest := rest - {n};
    }
  }
}
