/**
 * Strings as sequences of characters, and the handful of System.String and
 * System.Char operations the generators use. Character classes are the ASCII
 * subset of the .NET ones (see README).
 */
module Text {

  // ---------------------------------------------------------------- characters

  predicate IsLetter(c: char) { 'A' <= c <= 'Z' || 'a' <= c <= 'z' }

  predicate IsDigit(c: char) { '0' <= c <= '9' }

  predicate IsLetterOrDigit(c: char) { IsLetter(c) || IsDigit(c) }

  /** char.IsWhiteSpace restricted to ASCII: space, tab, LF, VT, FF, CR. */
  predicate IsWhiteSpace(c: char) {
    c == ' ' || c == '\t' || c == '\n' || c == '\U{000B}' || c == '\U{000C}' || c == '\r'
  }

  /** char.ToUpperInvariant on ASCII letters; every other character is unchanged. */
  function ToUpper(c: char): char {
    if 'a' <= c <= 'z' then (c as int - 32) as char else c
  }

  // ---------------------------------------------------------------- blank and trim

  /** string.IsNullOrWhiteSpace for a non-null string. */
  predicate IsBlank(s: string) {
    forall i :: 0 <= i < |s| ==> IsWhiteSpace(s[i])
  }

  /** Neither end of `s` is white space. */
  predicate IsTrimmed(s: string) {
    s == [] || (!IsWhiteSpace(s[0]) && !IsWhiteSpace(s[|s| - 1]))
  }

  function TrimStart(s: string): (r: string)
    ensures |r| <= |s|
    ensures r == [] || !IsWhiteSpace(r[0])
  {
    if s != [] && IsWhiteSpace(s[0]) then TrimStart(s[1..]) else s
  }

  lemma TrimStartNoop(s: string)
    requires s == [] || !IsWhiteSpace(s[0])
    ensures TrimStart(s) == s
  {
  }

  /** TrimStart removes a blank prefix and nothing else. */
  lemma {:induction false} TrimStartSpec(s: string)
    ensures var r := TrimStart(s);
      r == s[|s| - |r|..] && IsBlank(s[..|s| - |r|])
  {
    if s != [] && IsWhiteSpace(s[0]) {
      TrimStartSpec(s[1..]);
      var r := TrimStart(s);
      assert s[..|s| - |r|] == [s[0]] + s[1..][..|s| - 1 - |r|];
    }
  }

  function TrimEnd(s: string): (r: string)
    ensures |r| <= |s|
    ensures r == [] || !IsWhiteSpace(r[|r| - 1])
  {
    if s != [] && IsWhiteSpace(s[|s| - 1]) then TrimEnd(s[..|s| - 1]) else s
  }

  /** TrimEnd removes a blank suffix and nothing else. */
  lemma {:induction false} TrimEndSpec(s: string)
    ensures var r := TrimEnd(s);
      r == s[..|r|] && IsBlank(s[|r|..])
  {
    if s != [] && IsWhiteSpace(s[|s| - 1]) {
      TrimEndSpec(s[..|s| - 1]);
      var r := TrimEnd(s);
      assert s[|r|..] == s[..|s| - 1][|r|..] + [s[|s| - 1]];
    }
  }

  /** string.Trim: the longest infix of `s` that neither starts nor ends with white space. */
  function Trim(s: string): (r: string)
    ensures IsTrimmed(r)
    ensures r == [] <==> IsBlank(s)
    ensures |r| <= |s|
  {
    var t := TrimStart(s);
    var r := TrimEnd(t);
    TrimStartSpec(s);
    TrimEndSpec(t);
    assert r == [] ==> IsBlank(s) by {
      if r == [] {
        assert t[|r|..] == t;
        assert s[..|s| - |t|] == s;
      }
    }
    assert r != [] ==> r[0] == t[0];
    assert r != [] ==> !IsBlank(s) by {
      if r != [] {
        assert s[|s| - |t|] == t[0];
      }
    }
    r
  }

  lemma TrimOfTrimmed(s: string)
    requires IsTrimmed(s)
    ensures Trim(s) == s
  {
  }

  // ---------------------------------------------------------------- case

  /** string.Equals(a, b, StringComparison.OrdinalIgnoreCase) on the ASCII model. */
  predicate EqualsIgnoreCase(a: string, b: string) {
    |a| == |b| && forall i :: 0 <= i < |a| ==> ToUpper(a[i]) == ToUpper(b[i])
  }

  function UpperCase(s: string): (r: string)
    ensures |r| == |s| && forall i :: 0 <= i < |s| ==> r[i] == ToUpper(s[i])
  {
    if s == [] then [] else [ToUpper(s[0])] + UpperCase(s[1..])
  }

  // ---------------------------------------------------------------- prefixes

  predicate StartsWith(s: string, p: string) { |p| <= |s| && s[..|p|] == p }

  /** A string that differs from `p` at a position of `p` does not start with `p`. */
  lemma NotPrefixAt(s: string, p: string, i: nat)
    requires i < |p| && i < |s| && s[i] != p[i]
    ensures !StartsWith(s, p)
  {
    if |p| <= |s| {
      assert s[..|p|][i] == s[i];
    }
  }

  predicate EndsWith(s: string, p: string) { |p| <= |s| && s[|s| - |p|..] == p }

  /** string.IndexOf(char): the first position of `c`, or -1. */
  function IndexOf(s: string, c: char): (r: int)
    ensures -1 <= r < |s|
    ensures r == -1 <==> c !in s
    ensures r >= 0 ==> s[r] == c && c !in s[..r]
  {
    if s == [] then -1
    else if s[0] == c then 0
    else
      var k := IndexOf(s[1..], c);
      if k == -1 then -1
      else
        assert s[..k + 1] == [s[0]] + s[1..][..k];
        k + 1
  }

  // ---------------------------------------------------------------- building text

  /** new string(' ', n) */
  function Spaces(n: nat): (r: string)
    ensures |r| == n && forall i :: 0 <= i < n ==> r[i] == ' '
  {
    seq(n, _ => ' ')
  }

  /** Four spaces per indentation level. */
  function Pad(level: nat): string { Spaces(4 * level) }

  /** One `using` directive per namespace, in order. */
  function UsingLines(usings: seq<string>): (r: seq<string>)
    ensures |r| == |usings| && forall k :: 0 <= k < |usings| ==> r[k] == "using " + usings[k] + ";"
  {
    if usings == [] then [] else UsingLines(usings[..|usings| - 1]) + ["using " + usings[|usings| - 1] + ";"]
  }

  /** A using line determines its namespace. */
  lemma UsingLineInjective(a: string, b: string)
    requires "using " + a + ";" == "using " + b + ";"
    ensures a == b
  {
    var l := "using " + a + ";";
    assert |a| == |b|;
    assert l[6..6 + |a|] == a;
    assert ("using " + b + ";")[6..6 + |b|] == b;
  }

  /** Distinct namespaces give distinct using lines, and a namespace's line is there exactly when it is. */
  lemma UsingLinesDistinct(usings: seq<string>)
    requires forall i, j :: 0 <= i < j < |usings| ==> usings[i] != usings[j]
    ensures forall i, j :: 0 <= i < j < |usings| ==> UsingLines(usings)[i] != UsingLines(usings)[j]
    ensures forall u :: "using " + u + ";" in UsingLines(usings) <==> u in usings
  {
    var r := UsingLines(usings);
    forall i, j | 0 <= i < j < |usings| ensures r[i] != r[j] {
      if r[i] == r[j] {
        UsingLineInjective(usings[i], usings[j]);
      }
    }
    forall u | "using " + u + ";" in r ensures u in usings {
      var k :| 0 <= k < |r| && r[k] == "using " + u + ";";
      UsingLineInjective(u, usings[k]);
    }
  }

  /** One `[attribute]` line per attribute at `level`, in order. */
  function BracketedLines(attrs: seq<string>, level: nat): (r: seq<string>)
    ensures |r| == |attrs| && forall k :: 0 <= k < |attrs| ==> r[k] == Pad(level) + "[" + attrs[k] + "]"
  {
    if attrs == [] then [] else BracketedLines(attrs[..|attrs| - 1], level) + [Pad(level) + "[" + attrs[|attrs| - 1] + "]"]
  }

  /** Writes one `using` line per namespace. */
  method EmitUsings(usings: seq<string>) returns (lines: seq<string>)
    ensures lines == UsingLines(usings)
  {
    lines := [];
    for k := 0 to |usings|
      invariant lines == UsingLines(usings[..k])
    {
      assert usings[..k + 1][..k] == usings[..k];
      lines := lines + ["using " + usings[k] + ";"];
    }
    assert usings[..|usings|] == usings;
  }

  /** Writes one `[attribute]` line per attribute at `level`. */
  method EmitBracketed(attrs: seq<string>, level: nat) returns (lines: seq<string>)
    ensures lines == BracketedLines(attrs, level)
  {
    lines := [];
    for k := 0 to |attrs|
      invariant lines == BracketedLines(attrs[..k], level)
    {
      assert attrs[..k + 1][..k] == attrs[..k];
      lines := lines + [Pad(level) + "[" + attrs[k] + "]"];
    }
    assert attrs[..|attrs|] == attrs;
  }

  /** Member lines at `level`, a comma after every member but the last. */
  function MemberLines(members: seq<string>, level: nat): (r: seq<string>)
    ensures |r| == |members|
  {
    seq(|members|, i requires 0 <= i < |members| => Pad(level) + members[i] + (if i < |members| - 1 then "," else ""))
  }

  /** The text a StringBuilder holds after one AppendLine per element of `lines`. */
  function Unlines(lines: seq<string>): string {
    if lines == [] then "" else lines[0] + "\n" + Unlines(lines[1..])
  }

  lemma {:induction false} UnlinesAppend(a: seq<string>, b: seq<string>)
    ensures Unlines(a + b) == Unlines(a) + Unlines(b)
  {
    if a != [] {
      assert (a + b)[1..] == a[1..] + b;
      UnlinesAppend(a[1..], b);
    } else {
      assert a + b == b;
    }
  }

  /** One more AppendLine appends the line and a line feed. */
  lemma UnlinesSnoc(lines: seq<string>, k: nat)
    requires k < |lines|
    ensures Unlines(lines[..k + 1]) == Unlines(lines[..k]) + lines[k] + "\n"
  {
    assert lines[..k + 1] == lines[..k] + [lines[k]];
    UnlinesAppend(lines[..k], [lines[k]]);
    assert Unlines([lines[k]]) == lines[k] + "\n" + Unlines([]);
  }

  /** A line of text: no line feed and no carriage return in it. */
  predicate IsLine(s: string) {
    forall i :: 0 <= i < |s| ==> s[i] != '\n' && s[i] != '\r'
  }

  /** s.Replace("\r\n", "\n"), scanning left to right. */
  function NormalizeNewlines(s: string): (r: string)
    ensures |r| <= |s|
  {
    if s == [] then []
    else if |s| >= 2 && s[0] == '\r' && s[1] == '\n' then "\n" + NormalizeNewlines(s[2..])
    else [s[0]] + NormalizeNewlines(s[1..])
  }

  /** Text without carriage returns is left as it is. */
  lemma {:induction false} NormalizeNewlinesPlain(s: string)
    requires forall i :: 0 <= i < |s| ==> s[i] != '\r'
    ensures NormalizeNewlines(s) == s
  {
    if s != [] {
      NormalizeNewlinesPlain(s[1..]);
      assert [s[0]] + s[1..] == s;
    }
  }

  /** Lines joined by AppendLine hold no carriage return, and splitting them at line feeds gives them back followed by one empty piece. */
  lemma {:induction false} UnlinesSplit(lines: seq<string>)
    requires forall k :: 0 <= k < |lines| ==> IsLine(lines[k])
    ensures forall i :: 0 <= i < |Unlines(lines)| ==> Unlines(lines)[i] != '\r'
    ensures Fields(Unlines(lines), {'\n'}) == lines + [""]
  {
    if lines != [] {
      var rest := Unlines(lines[1..]);
      UnlinesSplit(lines[1..]);
      FieldsOfPlain(lines[0], {'\n'});
      FieldsAppend(lines[0], '\n', rest, {'\n'});
      assert Unlines(lines) == lines[0] + ['\n'] + rest;
      assert lines == [lines[0]] + lines[1..];
    }
  }

  /** string.Join(sep, parts) */
  function Join(parts: seq<string>, sep: string): string {
    if parts == [] then ""
    else if |parts| == 1 then parts[0]
    else parts[0] + sep + Join(parts[1..], sep)
  }

  /** A join starts with its first part. */
  lemma JoinStartsWith(parts: seq<string>, sep: string)
    requires parts != []
    ensures |parts[0]| <= |Join(parts, sep)| && Join(parts, sep)[..|parts[0]|] == parts[0]
  {
    if |parts| > 1 {
      assert Join(parts, sep) == parts[0] + (sep + Join(parts[1..], sep));
    }
  }

  /** Joining one more part appends the separator and that part. */
  lemma {:induction false} JoinSnoc(parts: seq<string>, p: string, sep: string)
    requires parts != []
    ensures Join(parts + [p], sep) == Join(parts, sep) + sep + p
  {
    if |parts| > 1 {
      assert (parts + [p])[1..] == parts[1..] + [p];
      JoinSnoc(parts[1..], p, sep);
    }
  }

  /** A prefix of a blank string is blank. */
  lemma BlankPrefix(s: string, n: nat)
    requires IsBlank(s) && n <= |s|
    ensures IsBlank(s[..n])
  {
  }

  /** s.Replace(c, rep): every occurrence of `c` becomes `rep`. */
  function ReplaceChar(s: string, c: char, rep: string): (r: string)
    ensures c !in s ==> r == s
  {
    if s == [] then [] else (if s[0] == c then rep else [s[0]]) + ReplaceChar(s[1..], c, rep)
  }

  lemma {:induction false} ReplaceCharAppend(a: string, b: string, c: char, rep: string)
    ensures ReplaceChar(a + b, c, rep) == ReplaceChar(a, c, rep) + ReplaceChar(b, c, rep)
  {
    if a != [] {
      assert (a + b)[1..] == a[1..] + b;
      ReplaceCharAppend(a[1..], b, c, rep);
    } else {
      assert a + b == b;
    }
  }

  // ---------------------------------------------------------------- splitting

  /**
   * s.Split(separators): the pieces between separator characters, empty
   * pieces included, so there is always one more piece than separators.
   */
  function Fields(s: string, seps: set<char>): (r: seq<string>)
    ensures |r| >= 1
  {
    if s == [] then [""]
    else
      var rest := Fields(s[1..], seps);
      if s[0] in seps then [""] + rest else [[s[0]] + rest[0]] + rest[1..]
  }

  /** One level of Fields, with the pieces of the tail given. */
  lemma FieldsCons(s: string, seps: set<char>, rest: seq<string>)
    requires s != [] && rest == Fields(s[1..], seps)
    ensures Fields(s, seps) == FieldsPrepend(s[0], seps, rest)
  {
  }

  /** The pieces of `[c] + t`, given the pieces `rest` of `t`. */
  function FieldsPrepend(c: char, seps: set<char>, rest: seq<string>): seq<string>
    requires |rest| >= 1
  {
    if c in seps then [""] + rest else [[c] + rest[0]] + rest[1..]
  }

  /** Prepending a character only touches the first piece. */
  lemma FieldsPrependAppend(c: char, seps: set<char>, head: seq<string>, tail: seq<string>)
    requires |head| >= 1
    ensures FieldsPrepend(c, seps, head + tail) == FieldsPrepend(c, seps, head) + tail
  {
    assert (head + tail)[0] == head[0];
    assert (head + tail)[1..] == head[1..] + tail;
  }

  /** The first character and the rest of a non-empty text followed by more. */
  lemma ConsTail(a: string, sep: char, b: string)
    requires a != []
    ensures (a + [sep] + b)[0] == a[0] && (a + [sep] + b)[1..] == a[1..] + [sep] + b
  {
  }

  /** Splitting a concatenation at a separator splits each side. */
  lemma {:induction false} FieldsAppend(a: string, sep: char, b: string, seps: set<char>)
    requires sep in seps
    ensures Fields(a + [sep] + b, seps) == Fields(a, seps) + Fields(b, seps)
  {
    var whole := a + [sep] + b;
    if a == [] {
      assert whole[0] == sep && whole[1..] == b;
      FieldsCons(whole, seps, Fields(b, seps));
    } else {
      ConsTail(a, sep, b);
      FieldsAppend(a[1..], sep, b, seps);
      var head, tail := Fields(a[1..], seps), Fields(b, seps);
      FieldsCons(whole, seps, head + tail);
      FieldsCons(a, seps, head);
      FieldsPrependAppend(a[0], seps, head, tail);
    }
  }

  /** A text without separators is one field. */
  lemma {:induction false} FieldsOfPlain(s: string, seps: set<char>)
    requires forall i :: 0 <= i < |s| ==> s[i] !in seps
    ensures Fields(s, seps) == [s]
  {
    if s != [] {
      FieldsOfPlain(s[1..], seps);
      assert [s[0]] + s[1..] == s;
    }
  }

  /** StringSplitOptions.RemoveEmptyEntries */
  function NonEmpty(xs: seq<string>): (r: seq<string>)
    ensures forall i :: 0 <= i < |r| ==> r[i] != []
  {
    if xs == [] then []
    else if xs[0] == [] then NonEmpty(xs[1..])
    else [xs[0]] + NonEmpty(xs[1..])
  }

  lemma {:induction false} NonEmptyAppend(a: seq<string>, b: seq<string>)
    ensures NonEmpty(a + b) == NonEmpty(a) + NonEmpty(b)
  {
    if a == [] {
      assert a + b == b;
    } else {
      assert (a + b)[1..] == a[1..] + b;
      NonEmptyAppend(a[1..], b);
    }
  }

  // ---------------------------------------------------------------- header rows

  /** The positions at or after `from` whose string is not blank, in increasing order. */
  function NonBlankFrom(s: seq<string>, from: nat): (r: seq<nat>)
    decreases |s| - from
    ensures forall k :: 0 <= k < |r| ==> from <= r[k] < |s| && !IsBlank(s[r[k]])
    ensures forall k, l :: 0 <= k < l < |r| ==> r[k] < r[l]
  {
    if from >= |s| then []
    else if IsBlank(s[from]) then NonBlankFrom(s, from + 1)
    else [from] + NonBlankFrom(s, from + 1)
  }

  /** Where the k-th column group ends: at the next non-blank header, or at the row's end. */
  function GroupEnd(starts: seq<nat>, k: nat, width: nat): nat
    requires k < |starts|
  {
    if k + 1 < |starts| then starts[k + 1] else width
  }

  /** No non-blank position at or after `from` is missed. */
  lemma {:induction false} NonBlankComplete(s: seq<string>, from: nat, j: nat)
    requires from <= j < |s| && !IsBlank(s[j])
    ensures j in NonBlankFrom(s, from)
    decreases j - from
  {
    if from < j {
      NonBlankComplete(s, from + 1, j);
    }
  }

  /** A blank position is skipped. */
  lemma NonBlankFromBlank(s: seq<string>, from: nat, next: nat)
    requires from < |s| && IsBlank(s[from]) && next == from + 1
    ensures NonBlankFrom(s, from) == NonBlankFrom(s, next)
  {
  }

  /** Blank positions can be skipped without changing the non-blank positions that follow. */
  lemma {:induction false} NonBlankSkip(s: seq<string>, from: nat, to: nat)
    requires from <= to <= |s|
    requires forall j :: from <= j < to ==> IsBlank(s[j])
    ensures NonBlankFrom(s, from) == NonBlankFrom(s, to)
  {
    if from < to {
      NonBlankSkip(s, from, to - 1);
    }
  }

  /**
   * One step of a left-to-right header scan: a non-blank header at `start`
   * followed by blank headers up to `end` opens the n-th group, which ends at `end`.
   */
  lemma GroupScanStep(headers: seq<string>, n: nat, start: nat, end: nat)
    requires start < end <= |headers|
    requires n <= |NonBlankFrom(headers, 0)|
    requires NonBlankFrom(headers, start) == NonBlankFrom(headers, 0)[n..]
    requires !IsBlank(headers[start])
    requires forall j :: start < j < end ==> IsBlank(headers[j])
    requires end == |headers| || !IsBlank(headers[end])
    ensures var starts := NonBlankFrom(headers, 0);
      && n < |starts| && starts[n] == start
      && GroupEnd(starts, n, |headers|) == end
      && NonBlankFrom(headers, end) == starts[n + 1..]
  {
    var starts := NonBlankFrom(headers, 0);
    var after := NonBlankFrom(headers, end);
    NonBlankSkip(headers, start + 1, end);
    NonBlankAtStart(headers, start, after);
    SuffixCons(starts, n, start, after);
    if end < |headers| {
      NonBlankAtStart(headers, end, NonBlankFrom(headers, end + 1));
    }
  }

  /** A non-blank position opens the list of non-blank positions from it. */
  lemma NonBlankAtStart(s: seq<string>, from: nat, rest: seq<nat>)
    requires from < |s| && !IsBlank(s[from])
    requires rest == NonBlankFrom(s, from + 1)
    ensures NonBlankFrom(s, from) == [from] + rest
  {
  }

  /** A suffix that starts with `x` pins the element at its start. */
  lemma SuffixCons<T>(xs: seq<T>, n: nat, x: T, ys: seq<T>)
    requires n <= |xs| && xs[n..] == [x] + ys
    ensures n < |xs| && xs[n] == x && xs[n + 1..] == ys
  {
    assert xs[n..][0] == x;
    assert xs[n + 1..] == xs[n..][1..];
  }

  /** Every position strictly between two consecutive non-blank positions, or after the last, is blank. */
  lemma NonBlankGaps(s: seq<string>, from: nat, k: nat, j: nat)
    requires k < |NonBlankFrom(s, from)|
    requires NonBlankFrom(s, from)[k] < j < |s|
    requires k + 1 < |NonBlankFrom(s, from)| ==> j < NonBlankFrom(s, from)[k + 1]
    ensures IsBlank(s[j])
  {
    var r := NonBlankFrom(s, from);
    if !IsBlank(s[j]) {
      NonBlankComplete(s, from, j);
    }
    assert forall l :: 0 <= l < |r| ==> r[l] != j by {
      forall l | 0 <= l < |r| ensures r[l] != j {
        if l > k + 1 {
          assert r[k + 1] < r[l];
        }
      }
    }
  }

  // ---------------------------------------------------------------- ordinal order

  /** StringComparer.Ordinal: lexicographic by character code, a proper prefix first. */
  predicate OrdinalLess(a: string, b: string) {
    if a == [] then b != []
    else if b == [] then false
    else if a[0] != b[0] then a[0] < b[0]
    else OrdinalLess(a[1..], b[1..])
  }

  lemma {:induction false} OrdinalLessIrreflexive(a: string)
    ensures !OrdinalLess(a, a)
  {
    if a != [] { OrdinalLessIrreflexive(a[1..]); }
  }

  lemma {:induction false} OrdinalLessTransitive(a: string, b: string, c: string)
    requires OrdinalLess(a, b) && OrdinalLess(b, c)
    ensures OrdinalLess(a, c)
  {
    if a != [] && b != [] && c != [] && a[0] == b[0] && b[0] == c[0] {
      OrdinalLessTransitive(a[1..], b[1..], c[1..]);
    }
  }

  lemma {:induction false} OrdinalLessTotal(a: string, b: string)
    ensures a == b || OrdinalLess(a, b) || OrdinalLess(b, a)
  {
    if a != [] && b != [] && a[0] == b[0] {
      OrdinalLessTotal(a[1..], b[1..]);
      if a[1..] == b[1..] {
        assert a == [a[0]] + a[1..] && b == [b[0]] + b[1..];
      }
    }
  }

  lemma {:induction false} OrdinalLessAsymmetric(a: string, b: string)
    requires OrdinalLess(a, b)
    ensures !OrdinalLess(b, a)
  {
    if a != [] && b != [] && a[0] == b[0] {
      OrdinalLessAsymmetric(a[1..], b[1..]);
    }
  }
}
