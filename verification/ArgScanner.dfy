/** Scanning argument text: closing parentheses and separating commas, both outside of quotes. */
module ArgScanner {
  import opened Models

  // --------------------------------------------------------------- automaton

  /** The quote a scan is inside of, if any, and whether a backslash has just been read there. */
  datatype Scan = Scan(quote: Option<char>, escaped: bool)

  const OUTSIDE := Scan(None, false)

  function Next(s: Scan, ch: char): Scan {
    match s.quote
    case None => if ch == '\'' || ch == '"' then Scan(Some(ch), false) else s
    case Some(q) =>
      if s.escaped then Scan(s.quote, false)
      else if ch == '\\' then Scan(s.quote, true)
      else if ch == q then OUTSIDE
      else s
  }

  /** The scan before the `i`-th character. */
  function ScanAt(text: string, i: nat): Scan
    requires i <= |text|
  {
    if i == 0 then OUTSIDE else Next(ScanAt(text, i - 1), text[i - 1])
  }

  /** The character is no part of a quoted string. */
  predicate IsOutside(text: string, i: nat)
    requires i < |text|
  {
    ScanAt(text, i).quote.None?
  }

  /** Opened minus closed parentheses among the first `i` characters, quotes aside. */
  function Depth(text: string, i: nat): int
    requires i <= |text|
  {
    if i == 0 then 0
    else if !IsOutside(text, i - 1) then Depth(text, i - 1)
    else if text[i - 1] == '(' then Depth(text, i - 1) + 1
    else if text[i - 1] == ')' then Depth(text, i - 1) - 1
    else Depth(text, i - 1)
  }

  lemma {:induction false} PrefixScans(text: string, n: nat, i: nat)
    requires i <= n <= |text|
    ensures ScanAt(text[..n], i) == ScanAt(text, i) && Depth(text[..n], i) == Depth(text, i)
    decreases i
  {
    if i > 0 { PrefixScans(text, n, i - 1); }
  }

  // ------------------------------------------------------------------ closing

  /** The parenthesis opened before the text is closed by its `k`-th character. */
  predicate ClosesAt(text: string, k: nat)
    requires k < |text|
  {
    1 + Depth(text, k + 1) == 0
  }

  /** A backslash and what follows it stay inside the string. */
  lemma EscapeIsInside(text: string, k: nat)
    requires k + 1 < |text| && text[k] == '\\' && ScanAt(text, k).quote.Some? && !ScanAt(text, k).escaped
    ensures ScanAt(text, k + 1) == Scan(ScanAt(text, k).quote, true) && ScanAt(text, k + 2) == ScanAt(text, k)
    ensures Depth(text, k + 1) == Depth(text, k) && Depth(text, k + 2) == Depth(text, k)
  {
  }

  /** The index of the parenthesis that closes the one at `start`, or -1. */
  method FindBalancedClose(s: string, start: nat) returns (r: int)
    requires start < |s|
    ensures var text := s[start + 1..];
      if r == -1 then forall k :: 0 <= k < |text| ==> !ClosesAt(text, k)
      else start < r < |s| && s[r] == ')' && ClosesAt(text, r - start - 1) && IsOutside(text, r - start - 1)
           && forall k :: 0 <= k < r - start - 1 ==> !ClosesAt(text, k)
  {
    ghost var text := s[start + 1..];
    var depth, i, inString, stringChar := 1, start + 1, false, ' ';
    while i < |s|
      invariant start + 1 <= i <= |s|
      invariant depth == 1 + Depth(text, i - start - 1) && depth > 0
      invariant i < |s| ==> ScanAt(text, i - start - 1) == Scan(if inString then Some(stringChar) else None, false)
      invariant forall k :: 0 <= k < i - start - 1 ==> !ClosesAt(text, k)
    {
      var ch := s[i];
      ghost var k := i - start - 1;
      assert text[k] == ch;
      if inString {
        if ch == '\\' && i + 1 < |s| {
          EscapeIsInside(text, k);
          i := i + 2;
          continue;
        }
        if ch == stringChar { inString := false; }
      } else if ch == '\'' || ch == '"' {
        inString := true;
        stringChar := ch;
      } else if ch == '(' {
        depth := depth + 1;
      } else if ch == ')' {
        depth := depth - 1;
        if depth == 0 { return i; }
      }
      i := i + 1;
    }
    return -1;
  }

  // --------------------------------------------------------------- splitting

  /** A comma outside of quotes and parentheses. */
  predicate CutsAt(text: string, i: nat)
    requires i < |text|
  {
    text[i] == ',' && IsOutside(text, i) && Depth(text, i) == 0
  }

  /** The finished pieces of the first `i` characters, and the one begun. */
  function Pieces(text: string, i: nat): (seq<string>, string)
    requires i <= |text|
  {
    if i == 0 then ([], "") else
      var (parts, current) := Pieces(text, i - 1);
      if CutsAt(text, i - 1) then (parts + [current], "") else (parts, current + [text[i - 1]])
  }

  function JoinCommas(parts: seq<string>): string {
    if parts == [] then ""
    else if |parts| == 1 then parts[0]
    else JoinCommas(parts[..|parts| - 1]) + "," + parts[|parts| - 1]
  }

  /** Nothing is lost: the pieces joined by commas are the text. */
  lemma {:induction false} PiecesJoin(text: string, i: nat)
    requires i <= |text|
    ensures var (parts, current) := Pieces(text, i); JoinCommas(parts + [current]) == text[..i]
  {
    if i > 0 {
      PiecesJoin(text, i - 1);
      var (parts, current) := Pieces(text, i - 1);
      var ch := text[i - 1];
      assert text[..i] == text[..i - 1] + [ch];
      assert (parts + [current])[..|parts|] == parts;
      if CutsAt(text, i - 1) {
        var more := parts + [current] + [""];
        assert more[..|more| - 1] == parts + [current];
        assert JoinCommas(more) == text[..i - 1] + "," + "";
      } else {
        var more := parts + [current + [ch]];
        assert more[..|parts|] == parts;
        if parts != [] {
          assert JoinCommas(parts) + "," + (current + [ch]) == (JoinCommas(parts) + "," + current) + [ch];
        }
      }
    }
  }

  /** Splits at the separating commas. Joined by commas the parts give the text back, up to one comma
      at its end. */
  method SplitArgs(s: string) returns (parts: seq<string>)
    ensures var (done, current) := Pieces(s, |s|); parts == if current == "" then done else done + [current]
    ensures JoinCommas(parts) == s ||
      (s != "" && CutsAt(s, |s| - 1) && parts != [] && JoinCommas(parts) + "," == s)
  {
    parts := [];
    var depth, current, inString, stringChar, i := 0, "", false, ' ', 0;
    while i < |s|
      invariant i <= |s| && Pieces(s, i) == (parts, current)
      invariant depth == Depth(s, i)
      invariant i < |s| ==> ScanAt(s, i) == Scan(if inString then Some(stringChar) else None, false)
    {
      var ch := s[i];
      if inString {
        if ch == '\\' && i + 1 < |s| {
          EscapeIsInside(s, i);
          TwoMore(s, i);
          current := current + [ch] + [s[i + 1]];
          i := i + 2;
          continue;
        }
        current := current + [ch];
        if ch == stringChar { inString := false; }
      } else if ch == '\'' || ch == '"' {
        current := current + [ch];
        inString := true;
        stringChar := ch;
      } else if ch == '(' {
        depth := depth + 1;
        current := current + [ch];
      } else if ch == ')' {
        depth := depth - 1;
        current := current + [ch];
      } else if ch == ',' && depth == 0 {
        parts := parts + [current];
        current := "";
      } else {
        current := current + [ch];
      }
      i := i + 1;
    }
    PiecesJoin(s, |s|);
    assert s[..|s|] == s;
    if current != "" {
      parts := parts + [current];
    } else if parts != [] {
      LastPieceIsCut(s, |s|);
      assert (parts + [""])[..|parts|] == parts;
      assert JoinCommas(parts) + "," + "" == JoinCommas(parts) + ",";
    }
  }

  lemma TwoMore(text: string, i: nat)
    requires i + 1 < |text| && !IsOutside(text, i) && !IsOutside(text, i + 1)
    ensures Pieces(text, i + 2) == (Pieces(text, i).0, Pieces(text, i).1 + [text[i]] + [text[i + 1]])
  {
    assert Pieces(text, i + 1) == (Pieces(text, i).0, Pieces(text, i).1 + [text[i]]);
  }

  lemma LastPieceIsCut(text: string, i: nat)
    requires 0 < i <= |text| && Pieces(text, i).1 == ""
    ensures CutsAt(text, i - 1)
  {
  }

  /** Inside a balanced pair of parentheses both scans see the same: the text up to the closing one is
      cut exactly at the commas directly between the two, and never leaves a quote open. */
  lemma InsideParentheses(text: string, k: nat, i: nat)
    requires k < |text| && ClosesAt(text, k) && IsOutside(text, k) && text[k] == ')' && i < k
    ensures CutsAt(text[..k], i) <==> text[i] == ',' && IsOutside(text, i) && Depth(text, i) == 0
    ensures ScanAt(text[..k], k) == OUTSIDE && Depth(text[..k], k) == 0
  {
    PrefixScans(text, k, i);
    PrefixScans(text, k, k);
    OutsideIsNotEscaped(text, k);
  }

  lemma {:induction false} OutsideIsNotEscaped(text: string, i: nat)
    requires i <= |text| && ScanAt(text, i).quote.None?
    ensures ScanAt(text, i) == OUTSIDE
  {
    if i > 0 && ScanAt(text, i - 1).quote.None? { OutsideIsNotEscaped(text, i - 1); }
  }
}
