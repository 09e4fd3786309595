/**
 * String helpers the timesheet relies on: `trim`, `toLowerCase`, the
 * `localeCompare` ordering of project names, `Array.join` and the HTML
 * escaping of app.js:645-647.
 */
module Text {
  import opened Base

  // ---------------------------------------------------------------------------
  // trim and toLowerCase
  // ---------------------------------------------------------------------------

  /** The characters `String.prototype.trim` removes: white space and line terminators. */
  predicate IsJsSpace(c: char)
  {
    || c == '\t' || c == '\n' || c == '\U{000B}' || c == '\U{000C}' || c == '\r' || c == ' '
    || c == '\U{00A0}' || c == '\U{1680}' || ('\U{2000}' <= c <= '\U{200A}')
    || c == '\U{2028}' || c == '\U{2029}' || c == '\U{202F}' || c == '\U{205F}'
    || c == '\U{3000}' || c == '\U{FEFF}'
  }

  /** `s.trimStart()`: `s` without its leading white space. */
  function TrimStart(s: string): (r: string)
    ensures |r| <= |s| && (|r| > 0 ==> !IsJsSpace(r[0]))
  {
    if |s| > 0 && IsJsSpace(s[0]) then TrimStart(s[1..]) else s
  }

  /** `s.trimEnd()`: `s` without its trailing white space. */
  function TrimEnd(s: string): (r: string)
    ensures |r| <= |s| && (|r| > 0 ==> !IsJsSpace(r[|r| - 1]))
  {
    if |s| > 0 && IsJsSpace(s[|s| - 1]) then TrimEnd(s[..|s| - 1]) else s
  }

  /** TrimStart drops a run of white space from the front and keeps the rest. */
  lemma {:induction false} TrimStartDrops(s: string)
    ensures var r := TrimStart(s);
            r == s[|s| - |r|..] && forall i :: 0 <= i < |s| - |r| ==> IsJsSpace(s[i])
  {
    if |s| > 0 && IsJsSpace(s[0]) {
      TrimStartDrops(s[1..]);
    }
  }

  /** TrimEnd drops a run of white space from the back and keeps the rest. */
  lemma {:induction false} TrimEndDrops(s: string)
    ensures var r := TrimEnd(s);
            r == s[..|r|] && forall i :: |r| <= i < |s| ==> IsJsSpace(s[i])
  {
    if |s| > 0 && IsJsSpace(s[|s| - 1]) {
      TrimEndDrops(s[..|s| - 1]);
    }
  }

  /** `s.trim()`: the text without leading and trailing white space. */
  function Trim(s: string): (r: string)
    ensures |r| > 0 ==> !IsJsSpace(r[0]) && !IsJsSpace(r[|r| - 1])
  {
    var t := TrimStart(s);
    TrimEndDrops(t);
    TrimEnd(t)
  }

  /** The trim is empty exactly when the text is all white space. */
  lemma TrimEmptyIff(s: string)
    ensures (forall i :: 0 <= i < |s| ==> IsJsSpace(s[i])) <==> Trim(s) == ""
  {
    var t := TrimStart(s);
    TrimStartDrops(s);
    TrimEndDrops(t);
  }

  /** A text that neither starts nor ends with white space is its own trim. */
  lemma TrimKeeps(s: string)
    requires |s| > 0 && !IsJsSpace(s[0]) && !IsJsSpace(s[|s| - 1])
    ensures Trim(s) == s
  {
  }

  /** Trimming twice is trimming once. */
  lemma TrimIdempotent(s: string)
    ensures Trim(Trim(s)) == Trim(s)
  {
    if Trim(s) != "" {
      TrimKeeps(Trim(s));
    }
  }

  /** `s.toLowerCase()` restricted to ASCII letters. */
  function AsciiLower(s: string): (r: string)
    ensures |r| == |s|
  {
    if |s| == 0 then "" else [if 'A' <= s[0] <= 'Z' then (s[0] as int + 32) as char else s[0]] + AsciiLower(s[1..])
  }

  // ---------------------------------------------------------------------------
  // The order of project names
  // ---------------------------------------------------------------------------

  /** Lexicographic order by character code: the total order standing in for `localeCompare`. */
  predicate LexLess(a: string, b: string)
  {
    if |a| == 0 then |b| > 0
    else if |b| == 0 then false
    else if a[0] != b[0] then a[0] < b[0]
    else LexLess(a[1..], b[1..])
  }

  lemma {:induction false} LexIrreflexive(a: string)
    ensures !LexLess(a, a)
  {
    if |a| > 0 { LexIrreflexive(a[1..]); }
  }

  lemma {:induction false} LexTransitive(a: string, b: string, c: string)
    requires LexLess(a, b) && LexLess(b, c)
    ensures LexLess(a, c)
  {
    if |a| > 0 && |b| > 0 && |c| > 0 && a[0] == b[0] && b[0] == c[0] {
      LexTransitive(a[1..], b[1..], c[1..]);
    }
  }

  lemma {:induction false} LexTotal(a: string, b: string)
    requires a != b
    ensures LexLess(a, b) || LexLess(b, a)
  {
    if |a| > 0 && |b| > 0 && a[0] == b[0] {
      assert a == [a[0]] + a[1..] && b == [b[0]] + b[1..];
      LexTotal(a[1..], b[1..]);
    }
  }

  /** Ascending by LexLess, equal names allowed side by side. */
  predicate SortedNames(s: seq<string>)
  {
    forall i, j :: 0 <= i < j < |s| ==> !LexLess(s[j], s[i])
  }

  /** Each name at most once. */
  ghost predicate NoDuplicates<T>(s: seq<T>)
  {
    forall i, j :: 0 <= i < j < |s| ==> s[i] != s[j]
  }

  function InsertName(x: string, t: seq<string>): (r: seq<string>)
    ensures multiset(r) == multiset(t) + multiset{x}
  {
    if |t| == 0 then [x]
    else if LexLess(x, t[0]) then [x] + t
    else
      assert t == [t[0]] + t[1..];
      [t[0]] + InsertName(x, t[1..])
  }

  /** `names.sort((a, b) => a.localeCompare(b))`, with LexLess as the order. */
  function SortNames(s: seq<string>): (r: seq<string>)
    ensures multiset(r) == multiset(s)
  {
    if |s| == 0 then []
    else
      assert s == s[..|s| - 1] + [s[|s| - 1]];
      InsertName(s[|s| - 1], SortNames(s[..|s| - 1]))
  }

  lemma {:induction false} InsertNameSorted(x: string, t: seq<string>)
    requires SortedNames(t)
    ensures SortedNames(InsertName(x, t))
  {
    if |t| > 0 {
      if LexLess(x, t[0]) {
        forall j | 0 <= j < |t| ensures !LexLess(t[j], x) {
          if LexLess(t[j], x) { LexTransitive(t[j], x, t[0]); LexIrreflexive(t[0]); }
        }
      } else {
        InsertNameSorted(x, t[1..]);
        var r := InsertName(x, t[1..]);
        forall k | 0 <= k < |r| ensures !LexLess(r[k], t[0]) {
          assert r[k] in multiset(t[1..]) + multiset{x};
          if r[k] != x {
            assert r[k] in t[1..];
          }
        }
      }
    }
  }

  /** The sorted names are a permutation of the input in ascending order. */
  lemma {:induction false} SortNamesSorted(s: seq<string>)
    ensures SortedNames(SortNames(s))
  {
    if |s| > 0 {
      SortNamesSorted(s[..|s| - 1]);
      InsertNameSorted(s[|s| - 1], SortNames(s[..|s| - 1]));
    }
  }

  /** Names that differ from each other come out strictly ascending. */
  lemma SortNamesStrict(s: seq<string>)
    requires NoDuplicates(s)
    ensures forall i, j :: 0 <= i < j < |SortNames(s)| ==> LexLess(SortNames(s)[i], SortNames(s)[j])
  {
    var r := SortNames(s);
    SortNamesSorted(s);
    forall i, j | 0 <= i < j < |r| ensures LexLess(r[i], r[j]) {
      PermutationKeepsNoDuplicates(s, r);
      LexTotal(r[i], r[j]);
    }
  }

  /** Rearranging a sequence without repeated elements gives one without repeated elements. */
  lemma PermutationKeepsNoDuplicates<T>(s: seq<T>, r: seq<T>)
    requires NoDuplicates(s) && multiset(r) == multiset(s)
    ensures NoDuplicates(r)
  {
    forall i, j | 0 <= i < j < |r| ensures r[i] != r[j] {
      if r[i] == r[j] {
        var x := r[i];
        TwiceCounted(r, i, j);
        assert multiset(s)[x] >= 2;
        OnceCounted(s, x);
      }
    }
  }

  lemma TwiceCounted<T>(r: seq<T>, i: nat, j: nat)
    requires i < j < |r| && r[i] == r[j]
    ensures multiset(r)[r[i]] >= 2
  {
    assert r == r[..i] + [r[i]] + r[i + 1..j] + [r[j]] + r[j + 1..];
  }

  lemma {:induction false} OnceCounted<T>(s: seq<T>, x: T)
    requires NoDuplicates(s)
    ensures multiset(s)[x] <= 1
  {
    if |s| > 0 {
      var t := s[..|s| - 1];
      assert s == t + [s[|s| - 1]];
      assert NoDuplicates(t);
      OnceCounted(t, x);
      if s[|s| - 1] == x {
        assert x !in t;
      }
    }
  }

  // ---------------------------------------------------------------------------
  // Array.prototype.join
  // ---------------------------------------------------------------------------

  /** `parts.join(sep)`. */
  function Join(parts: seq<string>, sep: string): string
  {
    if |parts| == 0 then ""
    else if |parts| == 1 then parts[0]
    else parts[0] + sep + Join(parts[1..], sep)
  }

  // ---------------------------------------------------------------------------
  // HTML escaping
  // ---------------------------------------------------------------------------

  predicate IsHtmlSpecial(c: char) { c == '&' || c == '<' || c == '>' || c == '"' }

  /** The lookup table of app.js:646 for a single character. */
  function EscapeChar(c: char): string
  {
    if c == '&' then "&amp;"
    else if c == '<' then "&lt;"
    else if c == '>' then "&gt;"
    else if c == '"' then "&quot;"
    else [c]
  }

  /** escapeHtml as evidently intended: every special character replaced by its entity. */
  function EscapeHtml(s: string): (r: string)
    ensures forall i :: 0 <= i < |r| ==> r[i] != '<' && r[i] != '>' && r[i] != '"'
  {
    if |s| == 0 then "" else EscapeChar(s[0]) + EscapeHtml(s[1..])
  }

  /** Decoding the four entities escapeHtml writes; every other character stands for itself. */
  function UnescapeHtml(t: string): string
  {
    if |t| == 0 then ""
    else if |t| >= 5 && t[..5] == "&amp;" then "&" + UnescapeHtml(t[5..])
    else if |t| >= 4 && t[..4] == "&lt;" then "<" + UnescapeHtml(t[4..])
    else if |t| >= 4 && t[..4] == "&gt;" then ">" + UnescapeHtml(t[4..])
    else if |t| >= 6 && t[..6] == "&quot;" then "\"" + UnescapeHtml(t[6..])
    else [t[0]] + UnescapeHtml(t[1..])
  }

  lemma UnescapeStep(c: char, rest: string)
    ensures UnescapeHtml(EscapeChar(c) + rest) == [c] + UnescapeHtml(rest)
  {
    if c == '&' {
      UnescapeAmp(rest);
    } else if c == '<' {
      UnescapeLt(rest);
    } else if c == '>' {
      UnescapeGt(rest);
    } else if c == '"' {
      UnescapeQuot(rest);
    } else {
      UnescapeOther(c, rest);
    }
  }

  lemma UnescapeAmp(rest: string)
    ensures UnescapeHtml("&amp;" + rest) == "&" + UnescapeHtml(rest)
  {
    var t := "&amp;" + rest;
    assert t[..5] == "&amp;" && t[5..] == rest;
  }

  lemma UnescapeLt(rest: string)
    ensures UnescapeHtml("&lt;" + rest) == "<" + UnescapeHtml(rest)
  {
    var t := "&lt;" + rest;
    assert t[..4] == "&lt;" && t[4..] == rest;
    assert t[1] == 'l';
    assert !(|t| >= 5 && t[..5] == "&amp;") by { if |t| >= 5 { assert t[..5][1] == 'l'; } }
  }

  lemma UnescapeGt(rest: string)
    ensures UnescapeHtml("&gt;" + rest) == ">" + UnescapeHtml(rest)
  {
    var t := "&gt;" + rest;
    assert t[..4] == "&gt;" && t[4..] == rest;
    assert !(|t| >= 5 && t[..5] == "&amp;") by { if |t| >= 5 { assert t[..5][1] == 'g'; } }
    assert t[..4] != "&lt;" by { assert t[..4][1] == 'g'; }
  }

  lemma UnescapeQuot(rest: string)
    ensures UnescapeHtml("&quot;" + rest) == "\"" + UnescapeHtml(rest)
  {
    var t := "&quot;" + rest;
    assert t[..6] == "&quot;" && t[6..] == rest;
    assert t[..5] != "&amp;" by { assert t[..5][1] == 'q'; }
    assert t[..4] != "&lt;" by { assert t[..4][1] == 'q'; }
    assert t[..4] != "&gt;" by { assert t[..4][1] == 'q'; }
  }

  lemma UnescapeOther(c: char, rest: string)
    requires !IsHtmlSpecial(c)
    ensures UnescapeHtml([c] + rest) == [c] + UnescapeHtml(rest)
  {
    var t := [c] + rest;
    assert t[0] == c && t[1..] == rest;
    assert !(|t| >= 5 && t[..5] == "&amp;") by { if |t| >= 5 { assert t[..5][0] == c; } }
    assert !(|t| >= 4 && t[..4] == "&lt;") by { if |t| >= 4 { assert t[..4][0] == c; } }
    assert !(|t| >= 4 && t[..4] == "&gt;") by { if |t| >= 4 { assert t[..4][0] == c; } }
    assert !(|t| >= 6 && t[..6] == "&quot;") by { if |t| >= 6 { assert t[..6][0] == c; } }
  }

  /** Round trip: unescaping the escaped text gives the text back. */
  lemma {:induction false} EscapeHtmlRoundTrip(s: string)
    ensures UnescapeHtml(EscapeHtml(s)) == s
  {
    if |s| > 0 {
      EscapeHtmlRoundTrip(s[1..]);
      UnescapeStep(s[0], EscapeHtml(s[1..]));
      assert s == [s[0]] + s[1..];
    }
  }

  /** The length of the run of special characters that `s` starts with. */
  function SpecialRun(s: string): (n: nat)
    ensures n <= |s|
    ensures forall i :: 0 <= i < n ==> IsHtmlSpecial(s[i])
    ensures n < |s| ==> !IsHtmlSpecial(s[n])
  {
    if |s| > 0 && IsHtmlSpecial(s[0]) then 1 + SpecialRun(s[1..]) else 0
  }

  /**
   * escapeHtml as written (app.js:645-647). The pattern `[&<>"]+` matches a whole
   * run of special characters and the run is looked up in a table keyed by single
   * characters, so a run of two or more becomes the text `undefined`.
   */
  function EscapeHtmlAsWritten(s: string): string
    decreases |s|
  {
    if |s| == 0 then ""
    else if !IsHtmlSpecial(s[0]) then [s[0]] + EscapeHtmlAsWritten(s[1..])
    else
      var n := SpecialRun(s);
      (if n == 1 then EscapeChar(s[0]) else "undefined") + EscapeHtmlAsWritten(s[n..])
  }

  /** The input `a<>b`: as written both characters turn into the word `undefined`. */
  lemma EscapeHtmlAdjacentSpecials()
    ensures EscapeHtmlAsWritten("a<>b") == "aundefinedb"
    ensures UnescapeHtml(EscapeHtmlAsWritten("a<>b")) != "a<>b"
  {
    var s := "a<>b";
    assert s[1..] == "<>b";
    AdjacentRun();
    var u := "aundefinedb";
    assert u == [s[0]] + "undefinedb";
    assert forall i :: 0 <= i < |u| ==> u[i] != '&';
    UnescapePlain(u);
  }

  /** The run `<>` in front of `b` is looked up as a whole and comes out as `undefined`. */
  lemma AdjacentRun()
    ensures EscapeHtmlAsWritten("<>b") == "undefinedb"
  {
    var t := "<>b";
    assert t[1..] == ">b" && t[1..][1..] == "b";
    assert SpecialRun("b") == 0;
    assert SpecialRun(t) == 2;
    assert t[2..] == "b" && "b"[1..] == "";
    assert EscapeHtmlAsWritten("b") == "b";
  }

  /** The same input escaped as intended. */
  lemma EscapeHtmlAdjacentSpecialsIntended()
    ensures EscapeHtml("a<>b") == "a&lt;&gt;b"
  {
    var s := "a<>b";
    assert s[1..] == "<>b" && s[1..][1..] == ">b" && s[1..][1..][1..] == "b" && "b"[1..] == "";
  }

  lemma {:induction false} UnescapePlain(t: string)
    requires forall i :: 0 <= i < |t| ==> t[i] != '&'
    ensures UnescapeHtml(t) == t
  {
    if |t| > 0 {
      UnescapePlain(t[1..]);
      assert !(|t| >= 5 && t[..5] == "&amp;") by { if |t| >= 5 { assert t[..5][0] == t[0]; } }
      assert !(|t| >= 4 && t[..4] == "&lt;") by { if |t| >= 4 { assert t[..4][0] == t[0]; } }
      assert !(|t| >= 4 && t[..4] == "&gt;") by { if |t| >= 4 { assert t[..4][0] == t[0]; } }
      assert !(|t| >= 6 && t[..6] == "&quot;") by { if |t| >= 6 { assert t[..6][0] == t[0]; } }
    }
  }

  /** Where no two special characters are adjacent, the code as written escapes correctly. */
  lemma {:induction false} EscapeHtmlAsWrittenIsolated(s: string)
    requires forall i :: 0 <= i < |s| - 1 ==> !(IsHtmlSpecial(s[i]) && IsHtmlSpecial(s[i + 1]))
    ensures EscapeHtmlAsWritten(s) == EscapeHtml(s)
  {
    if |s| > 0 {
      if IsHtmlSpecial(s[0]) {
        assert SpecialRun(s) == 1 by {
          if |s| > 1 { assert !IsHtmlSpecial(s[1]); assert s[1..][0] == s[1]; }
        }
      }
      EscapeHtmlAsWrittenIsolated(s[1..]);
    }
  }
}
