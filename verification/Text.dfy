/** Trimming of strings, with the two sets of blank characters the repository's languages use. */
module Text {
  /** `unicode.IsSpace` of Go, which `strings.TrimSpace` removes. */
  const GO_SPACE: set<char> := {
    '\t', '\n', '\U{0B}', '\U{0C}', '\r', ' ', '\U{85}', '\U{A0}', '\U{1680}',
    '\U{2000}', '\U{2001}', '\U{2002}', '\U{2003}', '\U{2004}', '\U{2005}', '\U{2006}', '\U{2007}', '\U{2008}',
    '\U{2009}', '\U{200A}', '\U{2028}', '\U{2029}', '\U{202F}', '\U{205F}', '\U{3000}'
  }

  /** What `String.prototype.trim` of JavaScript removes. */
  const JS_SPACE: set<char> := (GO_SPACE - {'\U{85}'}) + {'\U{FEFF}'}

  /** The string without the blanks at both of its ends. */
  function Trim(s: string, space: set<char>): (r: string)
    ensures IsTrimmed(r, space)
    decreases |s|
  {
    if s == "" then ""
    else if s[0] in space then Trim(s[1..], space)
    else if s[|s| - 1] in space then Trim(s[..|s| - 1], space)
    else s
  }

  /** `strings.TrimSpace` of Go. */
  function TrimSpace(s: string): string {
    Trim(s, GO_SPACE)
  }

  predicate IsTrimmed(s: string, space: set<char>) {
    s != "" ==> s[0] !in space && s[|s| - 1] !in space
  }

  lemma TrimmedStays(s: string, space: set<char>)
    requires IsTrimmed(s, space)
    ensures Trim(s, space) == s
  {
  }

  predicate AllBlank(s: string, space: set<char>) {
    forall i :: 0 <= i < |s| ==> s[i] in space
  }

  lemma Surround(s: string, c: char, before: string, t: string, after: string)
    requires s != "" && s[0] == c && s[1..] == before + t + after
    ensures s == ([c] + before) + t + after
  {
    assert s == [c] + s[1..];
  }

  /** What is trimmed away is blank, on either side. */
  lemma {:induction false} TrimmedAway(s: string, space: set<char>) returns (before: string, after: string)
    ensures s == before + Trim(s, space) + after && AllBlank(before, space) && AllBlank(after, space)
    decreases |s|
  {
    before, after := "", "";
    if s != "" && s[0] in space {
      before, after := TrimmedAway(s[1..], space);
      Surround(s, s[0], before, Trim(s, space), after);
      before := [s[0]] + before;
    } else if s != "" && s[|s| - 1] in space {
      var last := |s| - 1;
      before, after := TrimmedAway(s[..last], space);
      assert s == s[..last] + [s[last]];
      after := after + [s[last]];
    }
  }

  lemma {:induction false} BlankBefore(before: string, t: string, space: set<char>)
    requires AllBlank(before, space)
    ensures Trim(before + t, space) == Trim(t, space)
  {
    if before == "" {
      assert before + t == t;
    } else {
      assert (before + t)[0] == before[0] && (before + t)[1..] == before[1..] + t;
      BlankBefore(before[1..], t, space);
    }
  }

  lemma {:induction false} BlankAfter(t: string, after: string, space: set<char>)
    requires AllBlank(after, space)
    ensures Trim(t + after, space) == Trim(t, space)
    decreases |t|, |after|
  {
    if after == "" {
      assert t + after == t;
    } else if t == "" {
      assert t + after == after + "";
      BlankBefore(after, "", space);
    } else if t[0] in space {
      assert (t + after)[1..] == t[1..] + after;
      BlankAfter(t[1..], after, space);
    } else {
      var all, last := t + after, |after| - 1;
      assert all[..|all| - 1] == t + after[..last] && all[|all| - 1] == after[last];
      BlankAfter(t, after[..last], space);
    }
  }

  /** Blanks around a text make no difference to what it is trimmed to. */
  lemma TrimIgnoresBlanks(before: string, t: string, after: string, space: set<char>)
    requires AllBlank(before, space) && AllBlank(after, space)
    ensures Trim(before + t + after, space) == Trim(t, space)
  {
    BlankAfter(before + t, after, space);
    BlankBefore(before, t, space);
  }

  /** Lower case, of the letters A to Z. */
  function Lower(s: string): string {
    if s == "" then "" else [LowerChar(s[0])] + Lower(s[1..])
  }

  function LowerChar(c: char): char {
    if 'A' <= c <= 'Z' then (c as int + 32) as char else c
  }

  lemma {:induction false} LowerAt(s: string, i: nat)
    ensures |Lower(s)| == |s|
    ensures i < |s| ==> Lower(s)[i] == LowerChar(s[i])
  {
    if s != "" {
      LowerAt(s[1..], if i > 0 then i - 1 else 0);
    }
  }

  /** A natural number in decimal digits. */
  function Decimal(n: nat): (s: string)
    ensures s != ""
  {
    if n < 10 then [Digit(n)] else Decimal(n / 10) + [Digit(n % 10)]
  }

  function Digit(d: nat): char
    requires d < 10
  {
    ('0' as int + d) as char
  }

  lemma {:induction false} DecimalIsInjective(m: nat, n: nat)
    requires Decimal(m) == Decimal(n)
    ensures m == n
    decreases m
  {
    var s, t := Decimal(m), Decimal(n);
    assert s[|s| - 1] == Digit(m % 10) && t[|t| - 1] == Digit(n % 10);
    if m >= 10 && n >= 10 {
      assert Decimal(m / 10) == s[..|s| - 1] == t[..|t| - 1] == Decimal(n / 10);
      DecimalIsInjective(m / 10, n / 10);
    }
  }
}
