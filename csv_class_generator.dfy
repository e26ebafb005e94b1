/**
 * CsvClassGenerator.Parse (CsvToSource): reads a header row of property
 * names and a row of type tokens from a rectangular grid, groups each
 * non-blank header with the blank-header columns after it, infers enums from
 * the data rows of a group, and hands the result to MasterClassGenerator.
 */
module CsvClassGenerator {
  import opened Text
  import opened Collections
  import opened Outcomes
  import opened Grid
  import MasterClassGenerator
  import EnumSourceGenerator

  type PropertyDefinition = MasterClassGenerator.PropertyDefinition
  type EnumDefinition = EnumSourceGenerator.EnumDefinition

  // ---------------------------------------------------------------- cells

  /** GetCell: the trimmed cell, with null read as "". */
  function GetCell(g: Grid, r: nat, c: nat): string
    requires r < g.height && c < g.width
  {
    if At(g, r, c).None? then "" else Trim(At(g, r, c).value)
  }

  /** A cell reads as trimmed text, empty exactly when it is null or blank. */
  lemma GetCellTrimmed(g: Grid, r: nat, c: nat)
    requires r < g.height && c < g.width
    ensures IsTrimmed(GetCell(g, r, c))
    ensures GetCell(g, r, c) == "" <==> At(g, r, c).None? || IsBlank(At(g, r, c).value)
  {
  }

  /** The trimmed cells of row `r`. */
  function Row(g: Grid, r: nat): (cells: seq<string>)
    requires r < g.height
    ensures |cells| == g.width
  {
    RowPrefix(g, r, g.width)
  }

  /** The first `n` trimmed cells of row `r`. */
  function RowPrefix(g: Grid, r: nat, n: nat): (cells: seq<string>)
    requires r < g.height && n <= g.width
    ensures |cells| == n
  {
    if n == 0 then [] else RowPrefix(g, r, n - 1) + [GetCell(g, r, n - 1)]
  }

  lemma {:induction false} RowPrefixAt(g: Grid, r: nat, n: nat, c: nat)
    requires r < g.height && c < n <= g.width
    ensures RowPrefix(g, r, n)[c] == GetCell(g, r, c)
    decreases n
  {
    if c < n - 1 {
      RowPrefixAt(g, r, n - 1, c);
    }
  }

  /** Cell `c` of row `r` is what GetCell reads there. */
  lemma RowAt(g: Grid, r: nat, c: nat)
    requires r < g.height && c < g.width
    ensures Row(g, r)[c] == GetCell(g, r, c)
  {
    RowPrefixAt(g, r, g.width, c);
  }

  /** The columns that start a property: those with a non-blank header. */
  function Starts(g: Grid): seq<nat>
    requires 1 <= g.height
  {
    NonBlankFrom(Row(g, 0), 0)
  }

  // ---------------------------------------------------------------- identifiers

  predicate IsIdentifierStart(ch: char) { IsLetter(ch) || ch == '_' }

  predicate IsIdentifierPart(ch: char) { IsLetterOrDigit(ch) || ch == '_' }

  /** A C# identifier in the ASCII model: a letter or `_`, then letters, digits and `_`. */
  predicate IsIdentifier(s: string) {
    s != [] && IsIdentifierStart(s[0]) && forall i :: 0 <= i < |s| ==> IsIdentifierPart(s[i])
  }

  /** Every character that cannot be part of an identifier becomes `_`. */
  function Sanitized(s: string): (r: string)
    ensures |r| == |s|
    ensures forall i :: 0 <= i < |s| ==> IsIdentifierPart(r[i]) && (IsIdentifierPart(s[i]) ==> r[i] == s[i])
    ensures forall i :: 0 <= i < |s| && !IsIdentifierPart(s[i]) ==> r[i] == '_'
  {
    seq(|s|, i requires 0 <= i < |s| => if IsIdentifierPart(s[i]) then s[i] else '_')
  }

  predicate AllLettersOrDigits(s: string) {
    forall i :: 0 <= i < |s| ==> IsLetterOrDigit(s[i])
  }

  /** The letters and digits of `s`, in order. */
  function LettersAndDigits(s: string): (r: string)
    ensures AllLettersOrDigits(r)
  {
    if s == [] then []
    else LettersAndDigits(s[..|s| - 1]) + (if IsLetterOrDigit(s[|s| - 1]) then [s[|s| - 1]] else [])
  }

  /**
   * The state of the ToPascalIdentifier scan after reading `s`: the runs
   * completed so far and the run in progress.
   */
  function RunScan(s: string): (st: (seq<string>, string))
    ensures forall k :: 0 <= k < |st.0| ==> st.0[k] != [] && AllLettersOrDigits(st.0[k])
    ensures AllLettersOrDigits(st.1)
  {
    if s == [] then ([], [])
    else
      var prev := RunScan(s[..|s| - 1]);
      var ch := s[|s| - 1];
      if IsLetterOrDigit(ch) then (prev.0, prev.1 + [ch])
      else if prev.1 != [] then (prev.0 + [prev.1], [])
      else (prev.0, [])
  }

  /** The maximal runs of letters and digits of `s`, left to right. */
  function Runs(s: string): (r: seq<string>)
    ensures forall k :: 0 <= k < |r| ==> r[k] != [] && AllLettersOrDigits(r[k])
  {
    var st := RunScan(s);
    if st.1 != [] then st.0 + [st.1] else st.0
  }

  lemma {:induction false} RunScanCover(s: string)
    ensures Flatten(RunScan(s).0) + RunScan(s).1 == LettersAndDigits(s)
  {
    if s != [] {
      var init := s[..|s| - 1];
      var ch := s[|s| - 1];
      RunScanCover(init);
      var prev := RunScan(init);
      if !IsLetterOrDigit(ch) && prev.1 != [] {
        FlattenAppend(prev.0, [prev.1]);
        assert Flatten([prev.1]) == prev.1 + Flatten([]);
      }
    }
  }

  /** Concatenated, the runs are exactly the letters and digits of the input. */
  lemma RunsCover(s: string)
    ensures Flatten(Runs(s)) == LettersAndDigits(s)
    ensures Runs(s) == [] <==> LettersAndDigits(s) == []
  {
    var st := RunScan(s);
    RunScanCover(s);
    if st.1 != [] {
      FlattenAppend(st.0, [st.1]);
      assert Flatten([st.1]) == st.1 + Flatten([]);
    }
    if Runs(s) != [] {
      var r := Runs(s);
      assert Flatten(r) == r[0] + Flatten(r[1..]);
    }
  }

  /** The first character upper-cased, the rest unchanged. */
  function Capitalize(p: string): string {
    if p == [] then [] else [ToUpper(p[0])] + p[1..]
  }

  lemma CapitalizedLettersOrDigits(parts: seq<string>)
    requires forall k :: 0 <= k < |parts| ==> AllLettersOrDigits(parts[k])
    ensures AllLettersOrDigits(Flatten(Map(Capitalize, parts)))
    ensures parts != [] && parts[0] != [] ==>
              Flatten(Map(Capitalize, parts)) != [] && Flatten(Map(Capitalize, parts))[0] == ToUpper(parts[0][0])
    decreases |parts|
  {
    if parts != [] {
      assert Map(Capitalize, parts)[1..] == Map(Capitalize, parts[1..]);
      CapitalizedLettersOrDigits(parts[1..]);
    }
  }

  /** ToPascalIdentifier */
  function PascalIdentifier(input: string): (r: string)
    ensures IsIdentifier(r)
  {
    if IsBlank(input) then "Field"
    else
      var parts := if Runs(input) == [] then ["Field"] else Runs(input);
      var joined := Flatten(Map(Capitalize, parts));
      var result := if joined == [] then "Field" else joined;
      var prefixed := if IsIdentifierStart(result[0]) then result else "_" + result;
      Sanitized(prefixed)
  }

  lemma SanitizedIdentity(s: string)
    requires forall i :: 0 <= i < |s| ==> IsIdentifierPart(s[i])
    ensures Sanitized(s) == s
  {
  }

  /** Input without a letter or digit becomes "Field". */
  lemma PascalIdentifierWithoutRuns(input: string)
    requires LettersAndDigits(input) == []
    ensures PascalIdentifier(input) == "Field"
  {
    if !IsBlank(input) {
      RunsCover(input);
      assert Capitalize("Field") == "Field" by {
        assert ToUpper('F') == 'F';
      }
      assert Map(Capitalize, ["Field"]) == ["Field"];
      assert Flatten(Map(Capitalize, ["Field"])) == "Field" + Flatten([]);
      SanitizedIdentity("Field");
    }
  }

  lemma UpperLetterOrDigit(c: char)
    requires IsLetterOrDigit(c)
    ensures IsLetterOrDigit(ToUpper(c)) && (IsLetter(ToUpper(c)) <==> IsLetter(c))
  {
  }

  /**
   * Otherwise the identifier is the runs, each with its first character
   * upper-cased, concatenated, behind a `_` when the first starts with a digit.
   */
  lemma PascalIdentifierOfRuns(input: string)
    requires LettersAndDigits(input) != []
    ensures PascalIdentifier(input)
            == (if IsDigit(LettersAndDigits(input)[0]) then "_" else "") + Flatten(Map(Capitalize, Runs(input)))
  {
    LettersAndDigitsWitness(input);
    RunsCover(input);
    var r := Runs(input);
    var joined := Flatten(Map(Capitalize, r));
    PascalIdentifierOfJoined(input, joined);
    FirstRunStart(r, LettersAndDigits(input));
    CapitalizedLettersOrDigits(r);
    PrefixedIdentifier(joined, r[0][0]);
  }

  /** The first character of the concatenated runs is the first character of the first run. */
  lemma FirstRunStart(r: seq<string>, flat: string)
    requires r != [] && r[0] != [] && Flatten(r) == flat
    ensures flat != [] && flat[0] == r[0][0]
  {
    assert Flatten(r) == r[0] + Flatten(r[1..]);
  }

  /** Letters and digits behind a `_` when they start with a digit are already an identifier. */
  lemma PrefixedIdentifier(joined: string, c: char)
    requires joined != [] && AllLettersOrDigits(joined)
    requires IsLetterOrDigit(c) && joined[0] == ToUpper(c)
    ensures var p := if IsIdentifierStart(joined[0]) then joined else "_" + joined;
      p == (if IsDigit(c) then "_" else "") + joined && Sanitized(p) == p
  {
    UpperLetterOrDigit(c);
    var p := if IsIdentifierStart(joined[0]) then joined else "_" + joined;
    assert forall i :: 0 <= i < |p| ==> IsIdentifierPart(p[i]);
    SanitizedIdentity(p);
  }

  /** A string with a letter or digit is not blank. */
  lemma {:induction false} LettersAndDigitsWitness(s: string)
    ensures LettersAndDigits(s) != [] ==> !IsBlank(s)
  {
    if s != [] {
      LettersAndDigitsWitness(s[..|s| - 1]);
      if !IsLetterOrDigit(s[|s| - 1]) && LettersAndDigits(s[..|s| - 1]) != [] {
        assert forall i :: 0 <= i < |s| - 1 ==> s[..|s| - 1][i] == s[i];
      }
    }
  }

  /** ToValidIdentifier */
  function ValidIdentifier(input: string): (r: string)
    ensures IsIdentifier(r)
  {
    if IsBlank(input) then "Member"
    else
      var t := Trim(input);
      var s := (if IsIdentifierStart(t[0]) then "" else "_") + Sanitized(t);
      assert !IsWhiteSpace(s[0]);
      if IsBlank(s) then "Member" else s
  }

  /**
   * `r` is `t` with every character that cannot be in an identifier replaced by
   * `_`, behind one `_` when the first character of `t` cannot start one.
   */
  predicate Underscored(t: string, r: string)
    requires t != []
  {
    var off := if IsIdentifierStart(t[0]) then 0 else 1;
    && |r| == |t| + off
    && (off == 1 ==> r[0] == '_')
    && (forall i :: 0 <= i < |t| && IsIdentifierPart(t[i]) ==> r[i + off] == t[i])
    && (forall i :: 0 <= i < |t| && !IsIdentifierPart(t[i]) ==> r[i + off] == '_')
  }

  /**
   * Blank input gives "Member"; otherwise each character of the trimmed input
   * keeps its place, `_` replacing those that cannot be in an identifier,
   * behind one `_` when the first cannot start one.
   */
  lemma ValidIdentifierChars(input: string)
    ensures IsBlank(input) ==> ValidIdentifier(input) == "Member"
    ensures !IsBlank(input) ==> Underscored(Trim(input), ValidIdentifier(input))
  {
    if !IsBlank(input) {
      var t := Trim(input);
      var s := ValidIdentifier(input);
      ValidIdentifierNotBlank(input);
      if IsIdentifierStart(t[0]) {
        assert s == Sanitized(t);
      } else {
        assert forall i :: 0 <= i < |t| ==> s[i + 1] == Sanitized(t)[i];
      }
    }
  }

  /** For non-blank input the "Member" fallback is never taken. */
  lemma ValidIdentifierNotBlank(input: string)
    requires !IsBlank(input)
    ensures ValidIdentifier(input) == (if IsIdentifierStart(Trim(input)[0]) then "" else "_") + Sanitized(Trim(input))
  {
    var t := Trim(input);
    var s := (if IsIdentifierStart(t[0]) then "" else "_") + Sanitized(t);
    assert !IsWhiteSpace(s[0]);
  }

  /** An identifier that is already valid is returned unchanged. */
  lemma ValidIdentifierFixes(s: string)
    requires IsIdentifier(s)
    ensures ValidIdentifier(s) == s
  {
    assert !IsBlank(s) by {
      assert !IsWhiteSpace(s[0]);
    }
    assert IsTrimmed(s);
    TrimOfTrimmed(s);
    SanitizedIdentity(s);
    assert "" + Sanitized(s) == s;
    assert !IsWhiteSpace(s[0]);
  }

  lemma ValidIdentifierIdempotent(input: string)
    ensures ValidIdentifier(ValidIdentifier(input)) == ValidIdentifier(input)
  {
    ValidIdentifierFixes(ValidIdentifier(input));
  }

  // ---------------------------------------------------------------- attributes in the type token

  /**
   * The attribute loop on a trimmed token: while it starts with `[` and has a
   * `]` after that, the trimmed text between is an attribute (kept when not
   * blank) and scanning goes on after the `]`, leading white space skipped.
   * Yields the attributes and what is left of the token.
   */
  function PeelAttributes(token: string): (seq<string>, string)
    decreases |token|
  {
    if !StartsWith(token, "[") then ([], token)
    else
      var close := IndexOf(token, ']');
      if close <= 0 then ([], token)
      else
        var content := Trim(token[1..close]);
        var rest := PeelAttributes(TrimStart(token[close + 1..]));
        ((if IsBlank(content) then [] else [content]) + rest.0, rest.1)
  }

  /**
   * Every attribute peeled off is trimmed and not blank, and peeling stops only
   * at a type that does not open a bracketed attribute.
   */
  lemma {:induction false} PeelAttributesShape(token: string)
    ensures PeeledShape(PeelAttributes(token))
    decreases |token|
  {
    var close := IndexOf(token, ']');
    if StartsWith(token, "[") && close > 0 {
      var content := Trim(token[1..close]);
      var next := TrimStart(token[close + 1..]);
      PeelUnfold(token, close, content, next);
      PeelAttributesShape(next);
      PeeledShapeStep(content, PeelAttributes(token), PeelAttributes(next));
    } else {
      PeelAttributesStop(token);
      if StartsWith(token, "[") {
        assert token[..1][0] == token[0];
      }
    }
  }

  predicate PeeledShape(r: (seq<string>, string)) {
    && (forall k :: 0 <= k < |r.0| ==> IsTrimmed(r.0[k]) && !IsBlank(r.0[k]))
    && (!StartsWith(r.1, "[") || ']' !in r.1)
  }

  lemma PeeledShapeStep(content: string, whole: (seq<string>, string), rest: (seq<string>, string))
    requires IsTrimmed(content) && PeeledShape(rest)
    requires whole == ((if IsBlank(content) then [] else [content]) + rest.0, rest.1)
    ensures PeeledShape(whole)
  {
    if IsBlank(content) {
      assert [] + rest.0 == rest.0;
    } else {
      assert forall k :: 1 <= k < |whole.0| ==> whole.0[k] == rest.0[k - 1];
    }
  }

  /** The attributes and the type of a type-row cell; a blank cell is left as it is. */
  function TypeToken(raw: string): (seq<string>, string) {
    if IsBlank(raw) then ([], raw) else PeelAttributes(Trim(raw))
  }

  /** The text `[a1][a2]...` that writes the attributes in front of a type. */
  function AttributePrefix(attrs: seq<string>): string {
    if attrs == [] then "" else "[" + attrs[0] + "]" + AttributePrefix(attrs[1..])
  }

  /**
   * Peeling undoes writing: trimmed, non-blank attributes without `]`, written
   * in brackets in front of a type that does not itself start with `[` or
   * white space, are read back exactly, and so is the type.
   */
  lemma {:induction false} PeelAttributePrefix(attrs: seq<string>, typ: string)
    requires forall k :: 0 <= k < |attrs| ==> IsTrimmed(attrs[k]) && !IsBlank(attrs[k]) && ']' !in attrs[k]
    requires typ == [] || (typ[0] != '[' && !IsWhiteSpace(typ[0]))
    ensures PeelAttributes(AttributePrefix(attrs) + typ) == (attrs, typ)
  {
    if attrs == [] {
      assert AttributePrefix(attrs) + typ == typ;
      assert !StartsWith(typ, "[");
    } else {
      PeelAttributePrefix(attrs[1..], typ);
      PeelStep(attrs[0], attrs[1..], typ);
      assert [attrs[0]] + attrs[1..] == attrs;
    }
  }

  lemma PeelStep(a: string, tail: seq<string>, typ: string)
    requires IsTrimmed(a) && !IsBlank(a) && ']' !in a
    requires typ == [] || (typ[0] != '[' && !IsWhiteSpace(typ[0]))
    requires PeelAttributes(AttributePrefix(tail) + typ) == (tail, typ)
    ensures PeelAttributes(AttributePrefix([a] + tail) + typ) == ([a] + tail, typ)
  {
    var rest := AttributePrefix(tail) + typ;
    PrefixCons(a, tail, typ);
    TrimStartNoop(rest);
    PeelOne(a, rest);
  }

  /** Writing one more attribute in front puts `[a]` before the rest of the text. */
  lemma PrefixCons(a: string, tail: seq<string>, typ: string)
    requires typ == [] || (typ[0] != '[' && !IsWhiteSpace(typ[0]))
    ensures AttributePrefix([a] + tail) + typ == "[" + a + "]" + (AttributePrefix(tail) + typ)
    ensures AttributePrefix(tail) + typ == [] || !IsWhiteSpace((AttributePrefix(tail) + typ)[0])
  {
    assert ([a] + tail)[1..] == tail;
    if tail != [] {
      assert (AttributePrefix(tail) + typ)[0] == '[';
    }
  }

  /** One bracketed attribute in front of `rest` is read back and scanning resumes at `rest`. */
  lemma PeelOne(a: string, rest: string)
    requires IsTrimmed(a) && !IsBlank(a) && ']' !in a && TrimStart(rest) == rest
    ensures PeelAttributes("[" + a + "]" + rest) == ([a] + PeelAttributes(rest).0, PeelAttributes(rest).1)
  {
    var token := "[" + a + "]" + rest;
    assert StartsWith(token, "[");
    var close := |a| + 1;
    assert token[close] == ']';
    assert ']' !in token[..close] by {
      assert token[..close] == "[" + a;
    }
    assert IndexOf(token, ']') == close;
    assert token[1..close] == a;
    TrimOfTrimmed(a);
    assert token[close + 1..] == rest;
  }

  // ---------------------------------------------------------------- enum members

  /** The members a run of cells contributes: each non-blank cell made an identifier, in order. */
  function CellMembers(cells: seq<string>): (ms: seq<string>) {
    if cells == [] then []
    else
      var last := cells[|cells| - 1];
      CellMembers(cells[..|cells| - 1]) + (if IsBlank(last) then [] else [ValidIdentifier(last)])
  }

  /** The members observed in columns [start, end) of `rows`, row by row. */
  function ObservedMembers(rows: seq<seq<string>>, start: nat, end: nat): (ms: seq<string>)
    requires start <= end && forall i :: 0 <= i < |rows| ==> end <= |rows[i]|
  {
    if rows == [] then []
    else ObservedMembers(rows[..|rows| - 1], start, end) + CellMembers(rows[|rows| - 1][start..end])
  }

  /** The trimmed data rows: every row after the header and type rows. */
  function DataRows(g: Grid): (rows: seq<seq<string>>)
    requires 2 <= g.height
    ensures |rows| == g.height - 2 && forall i :: 0 <= i < |rows| ==> rows[i] == Row(g, i + 2)
  {
    seq(g.height - 2, i requires 0 <= i < g.height - 2 => Row(g, i + 2))
  }

  /** The enum members of a group: every distinct observed member, in order of first appearance. */
  function EnumMembers(g: Grid, start: nat, end: nat): seq<string>
    requires 2 <= g.height && start <= end <= g.width
  {
    Distinct(ObservedMembers(DataRows(g), start, end))
  }

  /** Member `m` is made from the non-blank cell `cell`. */
  predicate MadeFrom(cell: string, m: string) {
    !IsBlank(cell) && ValidIdentifier(cell) == m
  }

  /** Every member of a run of cells comes from one of its non-blank cells. */
  lemma {:induction false} CellMemberSource(cells: seq<string>, m: string) returns (c: nat)
    requires m in CellMembers(cells)
    ensures c < |cells| && MadeFrom(cells[c], m)
  {
    var init := cells[..|cells| - 1];
    if m in CellMembers(init) {
      c := CellMemberSource(init, m);
      assert init[c] == cells[c];
    } else {
      c := |cells| - 1;
    }
  }

  /** Every non-blank cell contributes its identifier. */
  lemma {:induction false} CellMemberComplete(cells: seq<string>, c: nat)
    requires c < |cells| && !IsBlank(cells[c])
    ensures ValidIdentifier(cells[c]) in CellMembers(cells)
  {
    var init := cells[..|cells| - 1];
    if c < |cells| - 1 {
      CellMemberComplete(init, c);
      assert init[c] == cells[c];
    }
  }

  lemma {:induction false} ObservedMemberSource(rows: seq<seq<string>>, start: nat, end: nat, m: string)
    returns (i: nat, c: nat)
    requires start <= end && forall k :: 0 <= k < |rows| ==> end <= |rows[k]|
    requires m in ObservedMembers(rows, start, end)
    ensures i < |rows| && start <= c < end && MadeFrom(rows[i][c], m)
  {
    var init := rows[..|rows| - 1];
    var last := rows[|rows| - 1];
    if m in ObservedMembers(init, start, end) {
      i, c := ObservedMemberSource(init, start, end, m);
      assert init[i] == rows[i];
    } else {
      i := |rows| - 1;
      var k := CellMemberSource(last[start..end], m);
      SliceIndex(last, start, end, k);
      c := start + k;
    }
  }

  lemma {:induction false} ObservedMemberComplete(rows: seq<seq<string>>, start: nat, end: nat, i: nat, c: nat)
    requires start <= end && forall k :: 0 <= k < |rows| ==> end <= |rows[k]|
    requires i < |rows| && start <= c < end && !IsBlank(rows[i][c])
    ensures ValidIdentifier(rows[i][c]) in ObservedMembers(rows, start, end)
  {
    var init := rows[..|rows| - 1];
    var last := rows[|rows| - 1];
    assert ObservedMembers(rows, start, end) == ObservedMembers(init, start, end) + CellMembers(last[start..end]);
    if i < |rows| - 1 {
      ObservedMemberComplete(init, start, end, i, c);
      assert init[i] == rows[i];
    } else {
      assert rows[i] == last;
      SliceAt(last, start, end, c);
      CellMemberComplete(last[start..end], c - start);
    }
  }

  /** The members of an inferred enum are valid identifiers, none twice. */
  lemma EnumMembersDistinct(g: Grid, start: nat, end: nat)
    requires 2 <= g.height && start <= end <= g.width
    ensures NoDuplicates(EnumMembers(g, start, end))
    ensures forall m :: m in EnumMembers(g, start, end) ==> IsIdentifier(m)
  {
    var obs := ObservedMembers(DataRows(g), start, end);
    forall m | m in EnumMembers(g, start, end)
      ensures IsIdentifier(m)
    {
      assert m in Elems(obs);
      var i, c := ObservedMemberSource(DataRows(g), start, end, m);
    }
  }

  /** Every member of an inferred enum is made from a non-blank data cell of the group's columns. */
  lemma EnumMembersSound(g: Grid, start: nat, end: nat, m: string) returns (r: nat, c: nat)
    requires 2 <= g.height && start <= end <= g.width
    requires m in EnumMembers(g, start, end)
    ensures 2 <= r < g.height && start <= c < end && MadeFrom(GetCell(g, r, c), m)
  {
    var rows := DataRows(g);
    assert m in Elems(ObservedMembers(rows, start, end));
    var i;
    i, c := ObservedMemberSource(rows, start, end, m);
    r := i + 2;
    RowAt(g, r, c);
  }

  /** Every non-blank data cell of the group's columns yields a member. */
  lemma EnumMembersComplete(g: Grid, start: nat, end: nat, r: nat, c: nat)
    requires 2 <= r < g.height && start <= c < end <= g.width
    requires !IsBlank(GetCell(g, r, c))
    ensures ValidIdentifier(GetCell(g, r, c)) in EnumMembers(g, start, end)
  {
    var rows := DataRows(g);
    RowAt(g, r, c);
    ObservedMemberComplete(rows, start, end, r - 2, c);
    assert ValidIdentifier(GetCell(g, r, c)) in Elems(ObservedMembers(rows, start, end));
  }

  // ---------------------------------------------------------------- columns

  /** A type token asks for an enum when it reads "enum", ignoring case. */
  predicate IsEnumToken(token: string) {
    EqualsIgnoreCase(token, "enum")
  }

  /** The property a group of columns [start, end) yields, and the enum it infers, if any. */
  datatype Column = Column(property: PropertyDefinition, enumDef: Option<EnumDefinition>)

  function ColumnAt(g: Grid, ns: string, start: nat, end: nat): Column
    requires 2 <= g.height && start < end <= g.width
  {
    var (attrs, token) := TypeToken(GetCell(g, 1, start));
    var name := PascalIdentifier(GetCell(g, 0, start));
    var attributes := if attrs == [] then None else Some(attrs);
    if IsEnumToken(token) then
      Column(MasterClassGenerator.PropertyDefinition(attributes, name, name),
             Some(EnumSourceGenerator.EnumDefinition(ns, name, Some(EnumMembers(g, start, end)))))
    else
      Column(MasterClassGenerator.PropertyDefinition(attributes, name, Trim(token)), None)
  }

  /** Group k: from the k-th non-blank header up to the next one, or to the last column. */
  function GroupColumn(g: Grid, ns: string, k: nat): Column
    requires 2 <= g.height && k < |Starts(g)|
  {
    ColumnAt(g, ns, Starts(g)[k], GroupEnd(Starts(g), k, g.width))
  }

  /** The groups of the grid, left to right. */
  function Columns(g: Grid, ns: string): (cols: seq<Column>)
    requires 2 <= g.height
    ensures |cols| == |Starts(g)| && forall k :: 0 <= k < |cols| ==> cols[k] == GroupColumn(g, ns, k)
  {
    seq(|Starts(g)|, k requires 0 <= k < |Starts(g)| => GroupColumn(g, ns, k))
  }

  /** One property per group, in column order. */
  function Properties(cols: seq<Column>): (ps: seq<PropertyDefinition>)
    ensures |ps| == |cols| && forall k :: 0 <= k < |cols| ==> ps[k] == cols[k].property
  {
    seq(|cols|, k requires 0 <= k < |cols| => cols[k].property)
  }

  /** The inferred enums, in column order. */
  function Enums(cols: seq<Column>): seq<EnumDefinition> {
    if cols == [] then []
    else
      var last := cols[|cols| - 1];
      Enums(cols[..|cols| - 1]) + (if last.enumDef.Some? then [last.enumDef.value] else [])
  }

  /**
   * A group's property is named by its header as a PascalCase identifier and
   * carries the attributes of its type cell (None when there are none); it
   * infers an enum exactly when its type reads "enum", and then the property's
   * type is the enum, named like the property, in the given namespace;
   * otherwise the type is the trimmed rest of the type cell.
   */
  lemma ColumnFacts(g: Grid, ns: string, start: nat, end: nat)
    requires 2 <= g.height && start < end <= g.width
    ensures var col := ColumnAt(g, ns, start, end);
      var token := TypeToken(GetCell(g, 1, start));
      && col.property.name == PascalIdentifier(GetCell(g, 0, start))
      && IsIdentifier(col.property.name)
      && col.property.attributes.GetOr([]) == token.0
      && col.property.attributes != Some([])
      && (col.enumDef.Some? <==> IsEnumToken(token.1))
      && (col.enumDef.Some? ==>
            && col.property.typeName == col.enumDef.value.name == col.property.name
            && col.enumDef.value.namespace == ns
            && col.enumDef.value.members == Some(EnumMembers(g, start, end)))
      && (col.enumDef.None? ==> col.property.typeName == Trim(token.1))
  {
  }

  /** Every inferred enum comes from an enum column. */
  lemma {:induction false} EnumSource(cols: seq<Column>, e: EnumDefinition) returns (k: nat)
    requires e in Enums(cols)
    ensures k < |cols| && cols[k].enumDef == Some(e)
  {
    var init := cols[..|cols| - 1];
    if e in Enums(init) {
      k := EnumSource(init, e);
      assert init[k] == cols[k];
    } else {
      k := |cols| - 1;
    }
  }

  /** Every enum column contributes its enum. */
  lemma {:induction false} EnumComplete(cols: seq<Column>, k: nat)
    requires k < |cols| && cols[k].enumDef.Some?
    ensures cols[k].enumDef.value in Enums(cols)
  {
    var init := cols[..|cols| - 1];
    if k < |cols| - 1 {
      EnumComplete(init, k);
      assert init[k] == cols[k];
    }
  }

  // ---------------------------------------------------------------- the generator

  lemma RunScanStep(s: string, i: nat)
    requires i < |s|
    ensures var prev := RunScan(s[..i]);
      RunScan(s[..i + 1])
      == if IsLetterOrDigit(s[i]) then (prev.0, prev.1 + [s[i]])
         else if prev.1 != [] then (prev.0 + [prev.1], [])
         else (prev.0, [])
  {
    assert s[..i + 1][..i] == s[..i];
  }

  lemma SanitizedStep(s: string, i: nat)
    requires i < |s|
    ensures Sanitized(s)[..i + 1] == Sanitized(s)[..i] + [if IsIdentifierPart(s[i]) then s[i] else '_']
  {
  }

  /** One more character of the identifier loop: the underscore in front comes with the first one. */
  lemma SanitizedNext(t: string, prefix: string, k: nat, n: nat, before: string, after: string)
    requires k < |t| && n == k + 1
    requires prefix == if IsIdentifierStart(t[0]) then "" else "_"
    requires before == (if k == 0 then "" else prefix) + Sanitized(t)[..k]
    requires after == before + (if k == 0 && !IsIdentifierStart(t[k]) then "_" else "")
                     + [if IsIdentifierPart(t[k]) then t[k] else '_']
    ensures after == prefix + Sanitized(t)[..n]
  {
    assert Sanitized(t)[..k + 1] == Sanitized(t)[..k] + [if IsIdentifierPart(t[k]) then t[k] else '_'];
  }

  /** PascalIdentifier of a non-blank input, from its parts joined after capitalisation. */
  lemma PascalIdentifierOfJoined(input: string, joined: string)
    requires !IsBlank(input)
    requires joined == Flatten(Map(Capitalize, if Runs(input) == [] then ["Field"] else Runs(input)))
    ensures var result := if joined == [] then "Field" else joined;
      PascalIdentifier(input) == Sanitized(if IsIdentifierStart(result[0]) then result else "_" + result)
  {
  }

  /** The first loop of ToPascalIdentifier, with the run left open at the end. */
  method ScanRuns(input: string) returns (parts: seq<string>)
    ensures parts == Runs(input)
  {
    parts := [];
    var sb: string := [];
    for i := 0 to |input|
      invariant (parts, sb) == RunScan(input[..i])
    {
      RunScanStep(input, i);
      var ch := input[i];
      if IsLetterOrDigit(ch) {
        sb := sb + [ch];
      } else if |sb| > 0 {
        parts := parts + [sb];
        sb := [];
      }
    }
    assert input[..|input|] == input;
    if |sb| > 0 {
      parts := parts + [sb];
    }
  }

  /** The last loop of ToPascalIdentifier: `_` for every character that cannot be in an identifier. */
  method ReplaceNonIdentifierChars(result: string) returns (final: string)
    ensures final == Sanitized(result)
  {
    final := [];
    for i := 0 to |result|
      invariant final == Sanitized(result)[..i]
    {
      SanitizedStep(result, i);
      final := final + [if IsIdentifierPart(result[i]) then result[i] else '_'];
    }
    assert Sanitized(result)[..|result|] == Sanitized(result);
  }

  /** ToPascalIdentifier: the run scan, the capitalised concatenation, then the character filter. */
  method ToPascalIdentifier(input: string) returns (r: string)
    ensures r == PascalIdentifier(input)
  {
    if IsBlank(input) {
      return "Field";
    }
    var parts := ScanRuns(input);
    if |parts| == 0 {
      parts := ["Field"];
    }
    var result := Flatten(Map(Capitalize, parts));
    PascalIdentifierOfJoined(input, result);
    if |result| == 0 {
      result := "Field";
    }
    if !IsIdentifierStart(result[0]) {
      result := "_" + result;
    }
    r := ReplaceNonIdentifierChars(result);
  }

  /** ToValidIdentifier: the trimmed input character by character, a `_` in front when needed. */
  method ToValidIdentifier(input: string) returns (r: string)
    ensures r == ValidIdentifier(input)
  {
    if IsBlank(input) {
      return "Member";
    }
    var trimmed := Trim(input);
    ghost var prefix := if IsIdentifierStart(trimmed[0]) then "" else "_";
    var sb: string := [];
    var i := 0;
    while i != |trimmed|
      invariant 0 <= i <= |trimmed|
      invariant sb == (if i == 0 then "" else prefix) + Sanitized(trimmed)[..i]
      decreases |trimmed| - i
    {
      ghost var before := sb;
      var ch := trimmed[i];
      if i == 0 {
        if !IsIdentifierStart(ch) {
          sb := sb + "_";
        }
      }
      sb := sb + [if IsIdentifierPart(ch) then ch else '_'];
      ghost var read := i;
      i := i + 1;
      SanitizedNext(trimmed, prefix, read, i, before, sb);
    }
    assert Sanitized(trimmed)[..|trimmed|] == Sanitized(trimmed);
    ValidIdentifierNotBlank(input);
    if IsBlank(sb) {
      sb := "Member";
    }
    return sb;
  }

  /** One turn of the attribute loop moves one attribute from the token to the list. */
  lemma PeelUnfold(token: string, close: int, content: string, next: string)
    requires StartsWith(token, "[") && close == IndexOf(token, ']') && close > 0
    requires content == Trim(token[1..close]) && next == TrimStart(token[close + 1..])
    ensures PeelAttributes(token)
      == ((if IsBlank(content) then [] else [content]) + PeelAttributes(next).0, PeelAttributes(next).1)
  {
  }

  /** One bracketed attribute peeled off: what is kept plus what remains to peel is what the whole token gives. */
  lemma PeelNext(content: string, acc: seq<string>, acc': seq<string>, whole: (seq<string>, string), rest: (seq<string>, string))
    requires acc' == if IsBlank(content) then acc else acc + [content]
    requires whole == ((if IsBlank(content) then [] else [content]) + rest.0, rest.1)
    ensures acc' + rest.0 == acc + whole.0 && rest.1 == whole.1
  {
    if IsBlank(content) {
      assert [] + rest.0 == rest.0;
    } else {
      assert acc + ([content] + rest.0) == acc' + rest.0;
    }
  }

  lemma PeelAttributesStop(token: string)
    requires !StartsWith(token, "[") || IndexOf(token, ']') <= 0
    ensures PeelAttributes(token) == ([], token)
  {
  }

  /** One pass of the attribute loop: the bracketed text up to `close` is kept when not blank. */
  method PeelNextAttribute(token: string, close: int, acc: seq<string>) returns (acc': seq<string>, next: string)
    requires StartsWith(token, "[") && close == IndexOf(token, ']') && close > 0
    ensures acc' + PeelAttributes(next).0 == acc + PeelAttributes(token).0
    ensures PeelAttributes(next).1 == PeelAttributes(token).1
    ensures |next| < |token|
  {
    var attrContent := Trim(token[1..close]);
    acc' := acc;
    if !IsBlank(attrContent) {
      acc' := acc + [attrContent];
    }
    next := TrimStart(token[close + 1..]);
    PeelUnfold(token, close, attrContent, next);
    PeelNext(attrContent, acc, acc', PeelAttributes(token), PeelAttributes(next));
  }

  /** The attribute loop over the type cell. */
  method ParseTypeToken(raw: string) returns (attrList: seq<string>, typeToken: string)
    ensures (attrList, typeToken) == TypeToken(raw)
  {
    attrList := [];
    typeToken := raw;
    if !IsBlank(typeToken) {
      typeToken := Trim(typeToken);
      ghost var whole := PeelAttributes(typeToken);
      assert [] + whole.0 == whole.0;
      while StartsWith(typeToken, "[")
        invariant attrList + PeelAttributes(typeToken).0 == whole.0
        invariant PeelAttributes(typeToken).1 == whole.1
        decreases |typeToken|
      {
        var close := IndexOf(typeToken, ']');
        if close <= 0 {
          break;
        }
        attrList, typeToken := PeelNextAttribute(typeToken, close, attrList);
      }
      PeelAttributesStop(typeToken);
      assert attrList + [] == attrList;
    }
  }

  lemma ObservedMembersSnoc(rows: seq<seq<string>>, start: nat, end: nat, i: nat, n: nat)
    requires start <= end && i < |rows| && n == i + 1 && forall k :: 0 <= k < |rows| ==> end <= |rows[k]|
    ensures ObservedMembers(rows[..n], start, end) == ObservedMembers(rows[..i], start, end) + CellMembers(rows[i][start..end])
  {
    assert rows[..i + 1][..i] == rows[..i];
  }

  lemma CellMembersSnoc(cells: seq<string>, start: nat, k: nat)
    requires start <= k < |cells|
    ensures CellMembers(cells[start..k + 1])
            == CellMembers(cells[start..k]) + (if IsBlank(cells[k]) then [] else [ValidIdentifier(cells[k])])
  {
    assert cells[start..k + 1][..k - start] == cells[start..k];
  }

  /** Reading one more cell adds its member, unless the cell is blank or the member already seen. */
  lemma MembersNext(seen: seq<string>, cells: seq<string>, start: nat, k: nat, n: nat, before: seq<string>, after: seq<string>)
    requires start <= k < |cells| && n == k + 1
    requires before == Distinct(seen + CellMembers(cells[start..k]))
    requires after == if IsBlank(cells[k]) then before else AddUnique(before, ValidIdentifier(cells[k]))
    ensures after == Distinct(seen + CellMembers(cells[start..n]))
  {
    CellMembersSnoc(cells, start, k);
    var prev := CellMembers(cells[start..k]);
    if IsBlank(cells[k]) {
      assert seen + CellMembers(cells[start..k + 1]) == seen + prev;
    } else {
      var m := ValidIdentifier(cells[k]);
      assert seen + CellMembers(cells[start..k + 1]) == (seen + prev) + [m];
      DistinctSnoc(seen + prev, m);
    }
  }

  /** One cell of the enum member scan: a non-blank cell's member is appended unless already present. */
  method AddCellMember(members: seq<string>, raw: string) returns (ms: seq<string>)
    ensures ms == if IsBlank(raw) then members else AddUnique(members, ValidIdentifier(raw))
  {
    ms := members;
    if !IsBlank(raw) {
      var mem := ToValidIdentifier(raw);
      if mem !in ms {
        ms := ms + [mem];
      }
    }
  }

  /** The inner loop of the enum member scan: the group's cells of row `r`, left to right. */
  method AddRowMembers(g: Grid, r: nat, start: nat, end: nat, members: seq<string>, ghost seen: seq<string>)
    returns (ms: seq<string>)
    requires r < g.height && start <= end <= g.width
    requires members == Distinct(seen)
    ensures ms == Distinct(seen + CellMembers(Row(g, r)[start..end]))
  {
    ghost var cells := Row(g, r);
    ms := members;
    assert seen + CellMembers(cells[start..start]) == seen;
    var gc := start;
    while gc != end
      invariant start <= gc <= end
      invariant ms == Distinct(seen + CellMembers(cells[start..gc]))
      decreases end - gc
    {
      ghost var before := ms;
      var raw := GetCell(g, r, gc);
      RowAt(g, r, gc);
      ms := AddCellMember(ms, raw);
      ghost var read := gc;
      gc := gc + 1;
      MembersNext(seen, cells, start, read, gc, before, ms);
    }
  }

  /** The enum member scan: data rows top to bottom, the group's columns left to right, each member once. */
  method CollectEnumMembers(g: Grid, start: nat, end: nat) returns (members: seq<string>)
    requires 2 <= g.height && start <= end <= g.width
    ensures members == EnumMembers(g, start, end)
  {
    ghost var rows := DataRows(g);
    members := [];
    ghost var done := 0;
    var r := 2;
    while r != g.height
      invariant 2 <= r <= g.height && done == r - 2
      invariant members == Distinct(ObservedMembers(rows[..done], start, end))
      decreases g.height - r
    {
      members := AddRowMembers(g, r, start, end, members, ObservedMembers(rows[..done], start, end));
      ObservedMembersSnoc(rows, start, end, done, done + 1);
      r := r + 1;
      done := done + 1;
    }
    assert rows[..done] == rows;
  }

  lemma ColumnOfGroup(g: Grid, ns: string, n: nat, start: nat, end: nat)
    requires 2 <= g.height && n < |Starts(g)|
    requires Starts(g)[n] == start && GroupEnd(Starts(g), n, g.width) == end && start < end <= g.width
    ensures Columns(g, ns)[n] == ColumnAt(g, ns, start, end)
  {
  }

  /**
   * The body of the Parse loop for the n-th group, columns [start, end): its
   * property and, when the type cell says "enum", its enum.
   */
  method ReadColumn(g: Grid, ns: string, header: string, rawTypeToken: string, start: nat, end: nat, ghost n: nat)
    returns (column: Column)
    requires 2 <= g.height && start < end <= g.width
    requires n < |Starts(g)| && Starts(g)[n] == start && GroupEnd(Starts(g), n, g.width) == end
    requires header == GetCell(g, 0, start) && rawTypeToken == GetCell(g, 1, start)
    ensures column == Columns(g, ns)[n]
  {
    var attrList, typeToken := ParseTypeToken(rawTypeToken);
    var propName := ToPascalIdentifier(header);
    var attributes := if |attrList| > 0 then Some(attrList) else None;
    if EqualsIgnoreCase(typeToken, "enum") {
      var membersOrdered := CollectEnumMembers(g, start, end);
      var enumDef := EnumSourceGenerator.EnumDefinition(ns, propName, Some(membersOrdered));
      column := Column(MasterClassGenerator.PropertyDefinition(attributes, propName, propName), Some(enumDef));
    } else {
      column := Column(MasterClassGenerator.PropertyDefinition(attributes, propName, Trim(typeToken)), None);
    }
    ColumnOfGroup(g, ns, n, start, end);
  }

  lemma PrefixColumns(cols: seq<Column>, n: nat)
    requires n < |cols|
    ensures Properties(cols[..n + 1]) == Properties(cols[..n]) + [cols[n].property]
    ensures Enums(cols[..n + 1])
            == Enums(cols[..n]) + (if cols[n].enumDef.Some? then [cols[n].enumDef.value] else [])
  {
    assert cols[..n + 1][..n] == cols[..n];
  }

  /** The header-row and type-row loops of Parse: the trimmed cells of row `r` in a new array. */
  method ReadRow(g: Grid, r: nat) returns (cells: array<string>)
    requires r < g.height
    ensures fresh(cells) && cells[..] == Row(g, r)
  {
    cells := new string[g.width];
    for c := 0 to g.width
      invariant forall j :: 0 <= j < c ==> cells[j] == Row(g, r)[j]
    {
      RowAt(g, r, c);
      cells[c] := GetCell(g, r, c);
    }
  }

  /**
   * The look-ahead loop of Parse: the group opened by the non-blank header
   * at `c` runs over the blank headers after it; `groupEnd` is its last column.
   */
  method ScanGroup(headers: array<string>, c: nat, ghost n: nat) returns (groupEnd: nat)
    requires c < headers.Length && !IsBlank(headers[c])
    requires n <= |NonBlankFrom(headers[..], 0)| && NonBlankFrom(headers[..], c) == NonBlankFrom(headers[..], 0)[n..]
    ensures var starts := NonBlankFrom(headers[..], 0);
      && c <= groupEnd < headers.Length
      && n < |starts| && starts[n] == c && GroupEnd(starts, n, headers.Length) == groupEnd + 1
      && NonBlankFrom(headers[..], groupEnd + 1) == starts[n + 1..]
  {
    groupEnd := c;
    var look := c + 1;
    while look < headers.Length && IsBlank(headers[look])
      invariant c < look <= headers.Length && groupEnd == look - 1
      invariant forall j :: c < j < look ==> IsBlank(headers[..][j])
    {
      groupEnd := look;
      look := look + 1;
    }
    GroupScanStep(headers[..], n, c, groupEnd + 1);
  }

  /**
   * One turn of the column loop of Parse at a non-blank header: the group it
   * opens, the column that group yields, and where the scan resumes.
   */
  method ReadGroup(g: Grid, ns: string, headers: array<string>, types: array<string>, c: nat, ghost n: nat)
    returns (column: Column, groupEnd: nat)
    requires 2 <= g.height
    requires headers[..] == Row(g, 0) && types[..] == Row(g, 1)
    requires c < g.width && !IsBlank(headers[c])
    requires n <= |Starts(g)| && NonBlankFrom(headers[..], c) == Starts(g)[n..]
    ensures c <= groupEnd < g.width
    ensures n < |Starts(g)| && column == Columns(g, ns)[n]
    ensures NonBlankFrom(headers[..], groupEnd + 1) == Starts(g)[n + 1..]
  {
    groupEnd := ScanGroup(headers, c, n);
    RowAt(g, 0, c);
    RowAt(g, 1, c);
    column := ReadColumn(g, ns, headers[c], types[c], c, groupEnd + 1, n);
  }

  /**
   * The column loop of Parse: each non-blank header opens a group that runs
   * over the blank headers after it; the group yields one property and,
   * for an "enum" type, one enum; the scan resumes after the group.
   */
  method ReadColumns(g: Grid, ns: string, headers: array<string>, types: array<string>)
    returns (properties: seq<PropertyDefinition>, enumDefs: seq<EnumDefinition>)
    requires 2 <= g.height
    requires headers[..] == Row(g, 0) && types[..] == Row(g, 1)
    ensures properties == Properties(Columns(g, ns))
    ensures enumDefs == Enums(Columns(g, ns))
  {
    ghost var hs := headers[..];
    ghost var starts := Starts(g);
    ghost var all := Columns(g, ns);
    var cols := headers.Length;
    properties := [];
    enumDefs := [];
    ghost var n := 0;
    var c := 0;
    while c != cols
      invariant 0 <= c <= cols
      invariant n <= |starts|
      invariant NonBlankFrom(hs, c) == starts[n..]
      invariant properties == Properties(all[..n])
      invariant enumDefs == Enums(all[..n])
      decreases cols - c
    {
      if IsBlank(headers[c]) {
        ghost var at := c;
        c := c + 1;
        NonBlankFromBlank(hs, at, c);
        continue;
      }
      var column, groupEnd := ReadGroup(g, ns, headers, types, c, n);
      ghost var k, propertiesBefore, enumDefsBefore := n, properties, enumDefs;
      properties := properties + [column.property];
      if column.enumDef.Some? {
        enumDefs := enumDefs + [column.enumDef.value];
      }
      c := groupEnd + 1;
      n := n + 1;
      ColumnsNext(hs, starts, all, c, k, n, propertiesBefore, properties, enumDefsBefore, enumDefs);
    }
    assert all[..|all|] == all;
  }

  /** One group read: the property and enum lists grow by the group's column, and the scan resumes after it. */
  lemma ColumnsNext(hs: seq<string>, starts: seq<nat>, all: seq<Column>, c: nat, k: nat, n: nat,
                    properties: seq<PropertyDefinition>, properties': seq<PropertyDefinition>,
                    enumDefs: seq<EnumDefinition>, enumDefs': seq<EnumDefinition>)
    requires k < |all| && |all| == |starts| && n == k + 1
    requires properties == Properties(all[..k]) && enumDefs == Enums(all[..k])
    requires properties' == properties + [all[k].property]
    requires enumDefs' == enumDefs + (if all[k].enumDef.Some? then [all[k].enumDef.value] else [])
    requires NonBlankFrom(hs, c) == starts[k + 1..]
    ensures n <= |starts| && NonBlankFrom(hs, c) == starts[n..]
    ensures properties' == Properties(all[..n]) && enumDefs' == Enums(all[..n])
  {
    PrefixColumns(all, k);
  }

  /** CsvClassGenerator.Parse */
  method Parse(usingNamespaces: Option<seq<string>>, namespace: string, className: string, csv: Option<Grid>)
    returns (result: Result<string>)
    ensures csv.None? ==> result == Err(ArgumentNull("csv"))
    ensures csv.Some? && (csv.value.height < 2 || csv.value.width == 0) ==> result == Err(Argument("csv"))
    ensures csv.Some? && 2 <= csv.value.height && 0 < csv.value.width && IsBlank(className) ==>
              result == Err(Argument("classDefinition"))
    ensures csv.Some? && 2 <= csv.value.height && 0 < csv.value.width && !IsBlank(className) ==>
              var cols := Columns(csv.value, namespace);
              var cd := MasterClassGenerator.ClassDefinition(namespace, className, Some(Properties(cols)));
              result == Ok(Unlines(MasterClassGenerator.GenerateLines(usingNamespaces, cd, Some(Enums(cols)))))
  {
    if csv.None? {
      return Err(ArgumentNull("csv"));
    }
    var g := csv.value;
    var rows := g.height;
    var cols := g.width;
    if rows < 2 || cols == 0 {
      return Err(Argument("csv"));
    }
    var headers := ReadRow(g, 0);
    var types := ReadRow(g, 1);
    var properties, enumDefs := ReadColumns(g, namespace, headers, types);
    var classDef := MasterClassGenerator.ClassDefinition(namespace, className, Some(properties));
    result := MasterClassGenerator.Generate(usingNamespaces, Some(classDef), Some(enumDefs));
  }
}
