/**
 * SourceBuilder: C# source text generated from a spreadsheet selection given
 * as a jagged grid. Row 0 holds the column headers, row 1 the type hints and
 * every further row one data record. A non-blank header starts a column
 * group that also owns the blank-header columns after it.
 *
 * Rows are sequences of strings: a null cell behaves like "" everywhere in
 * the builder, and the selection itself may be null (`None`).
 */
module SourceBuilder {
  import opened Text
  import opened Outcomes
  import opened Collections
  import opened Numbers

  /** One generated property and the columns it reads. */
  datatype ColumnGroup = ColumnGroup(
    propertyName: string,
    typeName: string,
    attribute: string,
    indices: seq<nat>,
    isEnum: bool)

  // ---------------------------------------------------------------- identifiers

  /** The characters SanitizeIdentifier turns into '_'. */
  predicate IsReplaced(c: char) {
    c == ' ' || c == '-' || c == '.' || c == ':' || c == ';' || c == '/' || c == '\\'
  }

  /**
   * The seven successive Replace(ch, '_') calls. '_' is not itself replaced,
   * so their combined effect is one character-wise substitution.
   */
  function Underscored(s: string): (r: string)
    ensures |r| == |s|
    ensures forall i :: 0 <= i < |s| ==> r[i] == (if IsReplaced(s[i]) then '_' else s[i])
  {
    seq(|s|, i requires 0 <= i < |s| => if IsReplaced(s[i]) then '_' else s[i])
  }

  function SanitizeIdentifier(name: string): (r: string)
    ensures r != [] && (IsLetter(r[0]) || r[0] == '_')
    ensures forall i :: 0 <= i < |r| ==> !IsReplaced(r[i])
    ensures IsBlank(name) ==> r == "Field"
    ensures !IsBlank(name) ==>
      r == Underscored(Trim(name)) || r == "_" + Underscored(Trim(name))
  {
    if IsBlank(name) then "Field"
    else
      var id := Underscored(Trim(name));
      if IsLetter(id[0]) || id[0] == '_' then id else "_" + id
  }

  /** A sanitized name is left as it is by a second sanitization. */
  lemma SanitizeIdempotent(name: string)
    ensures SanitizeIdentifier(SanitizeIdentifier(name)) == SanitizeIdentifier(name)
  {
    var r := SanitizeIdentifier(name);
    SanitizedIsTrimmed(name);
    TrimOfTrimmed(r);
    UnderscoredFixed(r);
    assert !IsWhiteSpace(r[0]);
  }

  lemma SanitizedIsTrimmed(name: string)
    ensures IsTrimmed(SanitizeIdentifier(name))
  {
    var r := SanitizeIdentifier(name);
    if !IsBlank(name) {
      var t := Trim(name);
      assert t != [] && !IsWhiteSpace(t[|t| - 1]);
      var u := Underscored(t);
      assert u[|u| - 1] == '_' || u[|u| - 1] == t[|t| - 1];
      assert r[|r| - 1] == u[|u| - 1];
    }
  }

  lemma UnderscoredFixed(s: string)
    requires forall i :: 0 <= i < |s| ==> !IsReplaced(s[i])
    ensures Underscored(s) == s
  {
  }

  // ---------------------------------------------------------------- string literals

  /** The escape sequence Escape writes for one character. */
  function EscapeChar(c: char): string {
    if c == '\\' then "\\\\" else if c == '"' then "\\\"" else [c]
  }

  /** Backslashes doubled first, then quotes backslash-escaped. */
  function Escape(s: string): string {
    ReplaceChar(ReplaceChar(s, '\\', "\\\\"), '"', "\\\"")
  }

  /**
   * The characters a C# regular string literal body denotes, for the two
   * escape sequences Escape writes; any other character stands for itself.
   */
  function Unescape(s: string): string {
    if s == [] then []
    else if s[0] == '\\' && |s| >= 2 && (s[1] == '\\' || s[1] == '"') then [s[1]] + Unescape(s[2..])
    else [s[0]] + Unescape(s[1..])
  }

  lemma EscapeCons(c: char, s: string)
    ensures Escape([c] + s) == EscapeChar(c) + Escape(s)
  {
    ReplaceCharAppend([c], s, '\\', "\\\\");
    var once := ReplaceChar([c], '\\', "\\\\");
    ReplaceCharAppend(once, ReplaceChar(s, '\\', "\\\\"), '"', "\\\"");
    if c == '\\' {
      assert ReplaceChar("\\\\", '"', "\\\"") == "\\\\";
    }
  }

  /** The literal body Escape writes denotes exactly the original text. */
  lemma {:induction false} EscapeRoundTrip(s: string)
    ensures Unescape(Escape(s)) == s
  {
    if s != [] {
      EscapeCons(s[0], s[1..]);
      assert [s[0]] + s[1..] == s;
      EscapeRoundTrip(s[1..]);
      var e := EscapeChar(s[0]) + Escape(s[1..]);
      if s[0] == '\\' || s[0] == '"' {
        assert e[2..] == Escape(s[1..]);
      } else {
        assert e[1..] == Escape(s[1..]);
      }
    }
  }

  /** The quoted C# string literal for `s`. */
  function StringLiteral(s: string): string {
    "\"" + Escape(s) + "\""
  }

  // ---------------------------------------------------------------- type hints

  /**
   * The (attribute, type) pair of the hint in column `index`. A hint of the
   * form "[A]T" with a non-empty T gives attribute A; any other hint is all
   * type. A missing hint and a blank type both mean "string".
   */
  function ParseType(hints: seq<string>, index: nat): (r: (string, string))
    ensures !IsBlank(r.1)
    ensures index >= |hints| ==> r == ("", "string")
    ensures ']' !in r.0
  {
    assert !IsWhiteSpace("string"[0]);
    if index >= |hints| then ("", "string")
    else
      var hint := hints[index];
      var close := IndexOf(hint, ']');
      var split := StartsWith(hint, "[") && 0 < close < |hint| - 1;
      var attr := if split then hint[1..close] else "";
      var typ := if split then hint[close + 1..] else hint;
      assert split ==> hint[..close] == "[" + attr;
      (attr, if IsBlank(typ) then "string" else typ)
  }

  /** "[A]T" with no ']' in A and a non-empty T splits into A and T. */
  lemma ParseTypeAttribute(a: string, t: string)
    requires ']' !in a && t != []
    ensures ParseType(["[" + a + "]" + t], 0) == (a, if IsBlank(t) then "string" else t)
  {
    var hint := "[" + a + "]" + t;
    assert hint[..|a| + 1] == "[" + a;
    assert hint[|a| + 1] == ']';
    assert IndexOf(hint, ']') == |a| + 1;
    assert hint[1..|a| + 1] == a && hint[|a| + 2..] == t;
  }

  /** A hint that does not start with '[' is all type and carries no attribute. */
  lemma ParseTypePlain(hint: string)
    requires hint == [] || hint[0] != '['
    ensures ParseType([hint], 0) == ("", if IsBlank(hint) then "string" else hint)
  {
    assert !StartsWith(hint, "[");
  }

  // ---------------------------------------------------------------- column groups

  /** The column positions lo, lo + 1, ..., hi - 1. */
  function Range(lo: nat, hi: nat): (r: seq<nat>)
    requires lo <= hi
    ensures |r| == hi - lo && forall k :: 0 <= k < |r| ==> r[k] == lo + k
  {
    seq(hi - lo, k requires 0 <= k < hi - lo => lo + k)
  }

  lemma RangeSnoc(lo: nat, hi: nat)
    requires lo <= hi
    ensures Range(lo, hi + 1) == Range(lo, hi) + [hi]
  {
  }

  lemma RangeAppend(a: nat, b: nat, c: nat)
    requires a <= b <= c
    ensures Range(a, b) + Range(b, c) == Range(a, c)
  {
  }

  /** The group whose header is column `start` and whose last column is `end - 1`. */
  function MakeGroup(headers: seq<string>, hints: seq<string>, start: nat, end: nat): ColumnGroup
    requires start < end <= |headers|
  {
    var name := SanitizeIdentifier(headers[start]);
    var (attr, typ) := ParseType(hints, start);
    var isEnum := EqualsIgnoreCase(typ, "enum");
    ColumnGroup(name, if isEnum then name else typ, attr, Range(start, end), isEnum)
  }

  /** The groups of a header row: one per non-blank header, left to right. */
  function Groups(headers: seq<string>, hints: seq<string>): (r: seq<ColumnGroup>)
    ensures |r| == |NonBlankFrom(headers, 0)|
  {
    var starts := NonBlankFrom(headers, 0);
    seq(|starts|, k requires 0 <= k < |starts| =>
      MakeGroup(headers, hints, starts[k], GroupEnd(starts, k, |headers|)))
  }

  /**
   * Each group starts at a non-blank header, owns only blank-header columns
   * after it, and the column after its last one is either the next group's
   * header or the end of the row.
   */
  lemma GroupShape(headers: seq<string>, hints: seq<string>, k: nat)
    requires k < |Groups(headers, hints)|
    ensures var g := Groups(headers, hints)[k];
      && g.indices != []
      && g.indices[0] < |headers| && !IsBlank(headers[g.indices[0]])
      && g.propertyName == SanitizeIdentifier(headers[g.indices[0]])
      && (forall j :: 0 < j < |g.indices| ==> g.indices[j] < |headers| && IsBlank(headers[g.indices[j]]))
      && var next := g.indices[|g.indices| - 1] + 1;
         next == |headers| || (next < |headers| && !IsBlank(headers[next]))
  {
    GroupAt(headers, hints, k);
    GroupSpan(headers, hints, k);
    SpanBlank(headers, k);
    SpanEnd(headers, k);
  }

  /** The k-th group is the one between the k-th non-blank header and the next. */
  lemma GroupAt(headers: seq<string>, hints: seq<string>, k: nat)
    requires k < |NonBlankFrom(headers, 0)|
    ensures var starts := NonBlankFrom(headers, 0);
      && starts[k] < GroupEnd(starts, k, |headers|) <= |headers|
      && Groups(headers, hints)[k] == MakeGroup(headers, hints, starts[k], GroupEnd(starts, k, |headers|))
  {
  }

  lemma GroupSpan(headers: seq<string>, hints: seq<string>, k: nat)
    requires k < |NonBlankFrom(headers, 0)|
    ensures var starts := NonBlankFrom(headers, 0);
      starts[k] < GroupEnd(starts, k, |headers|) <= |headers| &&
      Groups(headers, hints)[k].indices == Range(starts[k], GroupEnd(starts, k, |headers|))
  {
    GroupAt(headers, hints, k);
  }

  /** The columns strictly inside the k-th span have blank headers. */
  lemma SpanBlank(headers: seq<string>, k: nat)
    requires k < |NonBlankFrom(headers, 0)|
    ensures var starts := NonBlankFrom(headers, 0);
      forall j :: starts[k] < j < GroupEnd(starts, k, |headers|) ==> j < |headers| && IsBlank(headers[j])
  {
    var starts := NonBlankFrom(headers, 0);
    assert GroupEnd(starts, k, |headers|) <= |headers|;
    forall j | starts[k] < j < GroupEnd(starts, k, |headers|)
      ensures j < |headers| && IsBlank(headers[j])
    {
      NonBlankGaps(headers, 0, k, j);
    }
  }

  /** The k-th span ends at the row's end or at a non-blank header. */
  lemma SpanEnd(headers: seq<string>, k: nat)
    requires k < |NonBlankFrom(headers, 0)|
    ensures var e := GroupEnd(NonBlankFrom(headers, 0), k, |headers|);
      e == |headers| || (e < |headers| && !IsBlank(headers[e]))
  {
  }

  /**
   * Taken together, the groups own every column from the first non-blank
   * header to the end of the row, in order; the columns before it belong to
   * no group.
   */
  lemma GroupsCover(headers: seq<string>, hints: seq<string>)
    ensures var starts := NonBlankFrom(headers, 0);
      && Flatten(IndicesOf(Groups(headers, hints))) == (if starts == [] then [] else Range(starts[0], |headers|))
      && forall j :: 0 <= j < (if starts == [] then |headers| else starts[0]) ==> IsBlank(headers[j])
  {
    var starts := NonBlankFrom(headers, 0);
    var gs := Groups(headers, hints);
    forall j | 0 <= j < (if starts == [] then |headers| else starts[0])
      ensures IsBlank(headers[j])
    {
      if !IsBlank(headers[j]) {
        NonBlankComplete(headers, 0, j);
      }
      assert forall l :: 0 <= l < |starts| ==> starts[l] != j by {
        forall l | 0 <= l < |starts| ensures starts[l] != j {
          if l > 0 { assert starts[0] < starts[l]; }
        }
      }
    }
    if starts != [] {
      IndicesFrom(headers, hints, 0);
      assert gs[0..] == gs;
    }
  }

  /** The column lists of a sequence of groups. */
  function IndicesOf(gs: seq<ColumnGroup>): (r: seq<seq<nat>>)
    ensures |r| == |gs| && forall k :: 0 <= k < |gs| ==> r[k] == gs[k].indices
  {
    if gs == [] then [] else [gs[0].indices] + IndicesOf(gs[1..])
  }

  lemma {:induction false} IndicesFrom(headers: seq<string>, hints: seq<string>, k: nat)
    requires k < |Groups(headers, hints)|
    ensures Flatten(IndicesOf(Groups(headers, hints)[k..])) == Range(NonBlankFrom(headers, 0)[k], |headers|)
    decreases |Groups(headers, hints)| - k
  {
    var starts := NonBlankFrom(headers, 0);
    var gs := Groups(headers, hints);
    assert IndicesOf(gs[k..]) == [gs[k].indices] + IndicesOf(gs[k + 1..]);
    if k + 1 < |gs| {
      IndicesFrom(headers, hints, k + 1);
      assert gs[k + 1..] == gs[k + 1..];
      RangeAppend(starts[k], starts[k + 1], |headers|);
    } else {
      assert gs[k + 1..] == [];
      assert Range(starts[k], |headers|) + [] == Range(starts[k], |headers|);
    }
  }

  /** BuildGroups: a left-to-right scan of the header row. */
  method BuildGroups(headers: seq<string>, typeHints: seq<string>) returns (groups: seq<ColumnGroup>)
    ensures groups == Groups(headers, typeHints)
  {
    ghost var starts := NonBlankFrom(headers, 0);
    ghost var all := Groups(headers, typeHints);
    groups := [];
    var i := 0;
    while i != |headers|
      invariant 0 <= i <= |headers|
      invariant |groups| <= |starts|
      invariant NonBlankFrom(headers, i) == starts[|groups|..]
      invariant groups == all[..|groups|]
      decreases |headers| - i
    {
      if IsBlank(headers[i]) {
        ghost var at := i;
        i := i + 1;
        NonBlankFromBlank(headers, at, i);
      } else {
        var g, end := ScanGroup(headers, typeHints, i);
        ScanStep(headers, typeHints, |groups|, i, end);
        ghost var before := groups;
        groups := groups + [g];
        GroupsNext(all, |before|, |groups|, before, groups);
        i := end;
      }
    }
    assert all[..|all|] == all;
  }

  /** One group of the scan: the header at `start` and the blank-header columns after it. */
  method ScanGroup(headers: seq<string>, typeHints: seq<string>, start: nat) returns (g: ColumnGroup, end: nat)
    requires start < |headers|
    ensures start < end <= |headers|
    ensures forall j :: start < j < end ==> IsBlank(headers[j])
    ensures end == |headers| || !IsBlank(headers[end])
    ensures g == MakeGroup(headers, typeHints, start, end)
  {
    var indices := [start];
    end := start + 1;
    while end < |headers| && IsBlank(headers[end])
      invariant start < end <= |headers|
      invariant indices == Range(start, end)
      invariant forall j :: start < j < end ==> IsBlank(headers[j])
    {
      RangeSnoc(start, end);
      indices := indices + [end];
      end := end + 1;
    }
    var name := SanitizeIdentifier(headers[start]);
    var (attr, typ) := ParseType(typeHints, start);
    var isEnum := false;
    if EqualsIgnoreCase(typ, "enum") {
      typ := name;
      isEnum := true;
    }
    g := ColumnGroup(name, typ, attr, indices, isEnum);
  }

  /** Appending the n-th group to the first n gives the first n + 1. */
  lemma GroupsNext(all: seq<ColumnGroup>, n: nat, m: nat, before: seq<ColumnGroup>, after: seq<ColumnGroup>)
    requires m == n + 1 && n < |all|
    requires before == all[..n] && after == before + [all[n]]
    ensures after == all[..m]
  {
  }

  /**
   * One step of the BuildGroups scan: a non-blank header at `start` followed
   * by blank headers up to `end` is the next group.
   */
  lemma ScanStep(headers: seq<string>, hints: seq<string>, n: nat, start: nat, end: nat)
    requires start < end <= |headers|
    requires n <= |NonBlankFrom(headers, 0)|
    requires NonBlankFrom(headers, start) == NonBlankFrom(headers, 0)[n..]
    requires !IsBlank(headers[start])
    requires forall j :: start < j < end ==> IsBlank(headers[j])
    requires end == |headers| || !IsBlank(headers[end])
    ensures var starts := NonBlankFrom(headers, 0);
      && n < |starts| && starts[n] == start
      && GroupEnd(starts, n, |headers|) == end
      && NonBlankFrom(headers, end) == starts[n + 1..]
      && Groups(headers, hints)[n] == MakeGroup(headers, hints, start, end)
  {
    GroupScanStep(headers, n, start, end);
    GroupAt(headers, hints, n);
  }

  // ---------------------------------------------------------------- cell values

  /** The usable cell at column `idx`: present in the row and not blank. */
  predicate Usable(row: seq<string>, idx: nat) {
    idx < |row| && !IsBlank(row[idx])
  }

  /** GetFirstNonEmpty: the first usable cell among the group's columns, or null. */
  function FirstNonEmpty(row: seq<string>, indices: seq<nat>): (r: Option<string>)
    ensures r.Some? ==> !IsBlank(r.value)
  {
    if indices == [] then None
    else if Usable(row, indices[0]) then Some(row[indices[0]])
    else FirstNonEmpty(row, indices[1..])
  }

  /** The usable cells of the group, in column order (what CollectValues returns). */
  function CollectedValues(row: seq<string>, indices: seq<nat>): (r: seq<string>)
    ensures |r| <= |indices|
    ensures forall k :: 0 <= k < |r| ==> !IsBlank(r[k])
  {
    if indices == [] then []
    else
      var last := indices[|indices| - 1];
      CollectedValues(row, indices[..|indices| - 1]) + (if Usable(row, last) then [row[last]] else [])
  }

  lemma {:induction false} CollectedAppend(row: seq<string>, a: seq<nat>, b: seq<nat>)
    ensures CollectedValues(row, a + b) == CollectedValues(row, a) + CollectedValues(row, b)
    decreases |b|
  {
    if b == [] {
      assert a + b == a;
    } else {
      assert (a + b)[..|a + b| - 1] == a + b[..|b| - 1];
      CollectedAppend(row, a, b[..|b| - 1]);
    }
  }

  /** The first non-empty cell is the first of the collected cells; there is none exactly when none is collected. */
  lemma {:induction false} FirstIsFirstCollected(row: seq<string>, indices: seq<nat>)
    ensures FirstNonEmpty(row, indices) ==
      (if CollectedValues(row, indices) == [] then None else Some(CollectedValues(row, indices)[0]))
  {
    if indices != [] {
      assert indices == [indices[0]] + indices[1..];
      CollectedAppend(row, [indices[0]], indices[1..]);
      assert CollectedValues(row, [indices[0]]) == (if Usable(row, indices[0]) then [row[indices[0]]] else []);
      FirstIsFirstCollected(row, indices[1..]);
    }
  }

  /** CollectValues: one pass over the group's columns, keeping the usable cells. */
  method CollectValues(row: seq<string>, indices: seq<nat>) returns (result: seq<string>)
    ensures result == CollectedValues(row, indices)
  {
    result := [];
    for k := 0 to |indices|
      invariant result == CollectedValues(row, indices[..k])
    {
      var idx := indices[k];
      assert indices[..k + 1][..k] == indices[..k];
      if idx < |row| {
        var v := row[idx];
        if !IsBlank(v) {
          result := result + [v];
        }
      }
    }
    assert indices[..|indices|] == indices;
  }

  /** raw.Split(new[] { ';', ',' }, StringSplitOptions.RemoveEmptyEntries) */
  function Pieces(raw: string): (r: seq<string>)
    ensures forall k :: 0 <= k < |r| ==> r[k] != []
  {
    NonEmpty(Fields(raw, {';', ','}))
  }

  /** Joining cells with ',' and splitting again yields the pieces of each cell in turn. */
  lemma {:induction false} PiecesOfJoin(items: seq<string>)
    ensures Pieces(Join(items, ",")) == Flatten(PiecesOfEach(items))
  {
    if items == [] {
      assert Fields("", {';', ','}) == [""];
    } else if |items| == 1 {
      assert Flatten(PiecesOfEach(items)) == Pieces(items[0]) + Flatten([]);
    } else {
      var rest := Join(items[1..], ",");
      assert Join(items, ",") == items[0] + [','] + rest;
      FieldsAppend(items[0], ',', rest, {';', ','});
      NonEmptyAppend(Fields(items[0], {';', ','}), Fields(rest, {';', ','}));
      PiecesOfJoin(items[1..]);
    }
  }

  /** The pieces of each cell. */
  function PiecesOfEach(items: seq<string>): (r: seq<seq<string>>)
    ensures |r| == |items| && forall k :: 0 <= k < |items| ==> r[k] == Pieces(items[k])
  {
    if items == [] then [] else [Pieces(items[0])] + PiecesOfEach(items[1..])
  }

  /** A join of non-blank cells is blank only when there are no cells. */
  lemma JoinBlank(items: seq<string>)
    requires forall k :: 0 <= k < |items| ==> !IsBlank(items[k])
    ensures IsBlank(Join(items, ",")) <==> items == []
  {
    if items != [] {
      JoinStartsWith(items, ",");
      if IsBlank(Join(items, ",")) {
        BlankPrefix(Join(items, ","), |items[0]|);
      }
    }
  }

  /** int.TryParse(p, out v) ? v.ToString() : "0" */
  function IntLiteral(p: string): string {
    match TryParseInt32(p)
    case Some(v) => IntToString(v)
    case None => "0"
  }

  /** An int literal reads back as the parsed value, or as 0 when the cell does not parse. */
  lemma IntLiteralMeaning(p: string)
    ensures TryParseInt32(IntLiteral(p)) == Some(TryParseInt32(p).GetOr(0))
  {
    match TryParseInt32(p)
    case Some(v) => IntToStringRoundTrip(v);
    case None => IntToStringRoundTrip(0);
  }

  /** JoinInts, JoinFloats and JoinStrings: the literals of the pieces of `raw`, separated by ", ". */
  function LiteralList(raw: string, literal: string -> string): string {
    if IsBlank(raw) then "" else Join(Map(literal, Pieces(raw)), ", ")
  }

  /**
   * JoinInts, JoinFloats and JoinStrings share one loop and differ only in
   * the literal written for each piece.
   */
  method JoinLiterals(raw: string, literal: string -> string) returns (text: string)
    ensures text == LiteralList(raw, literal)
  {
    if IsBlank(raw) {
      return "";
    }
    var parts := Pieces(raw);
    var list: seq<string> := [];
    for k := 0 to |parts|
      invariant list == Map(literal, parts[..k])
    {
      list := list + [literal(parts[k])];
    }
    assert parts[..|parts|] == parts;
    text := Join(list, ", ");
  }

  method JoinInts(raw: string) returns (text: string)
    ensures text == LiteralList(raw, IntLiteral)
  {
    text := JoinLiterals(raw, IntLiteral);
  }

  method JoinStrings(raw: string) returns (text: string)
    ensures text == LiteralList(raw, StringLiteral)
  {
    text := JoinLiterals(raw, StringLiteral);
  }

  /**
   * FormatGroupValue: the C# expression for one group's value in one row.
   * `floatLiteral` stands for float.TryParse followed by the "0.0###f"
   * formatting (or "0f"), which is not modelled.
   */
  function FormatGroupValue(g: ColumnGroup, row: seq<string>, floatLiteral: string -> string): string {
    if g.isEnum then
      var raw := FirstNonEmpty(row, g.indices).GetOr("");
      if IsBlank(raw) then "(" + g.typeName + ")0" else g.typeName + "." + SanitizeIdentifier(raw)
    else if g.typeName == "int[]" then
      "new int[] { " + LiteralList(Join(CollectedValues(row, g.indices), ","), IntLiteral) + " }"
    else if g.typeName == "float[]" then
      "new float[] { " + LiteralList(Join(CollectedValues(row, g.indices), ","), floatLiteral) + " }"
    else if g.typeName == "string[]" then
      "new string[] { " + LiteralList(Join(CollectedValues(row, g.indices), ","), StringLiteral) + " }"
    else
      var first := FirstNonEmpty(row, g.indices).GetOr("");
      if g.typeName == "int" then IntLiteral(first)
      else if g.typeName == "float" then floatLiteral(first)
      else StringLiteral(first)
  }

  /** The element literals of an array field: each piece of each usable cell, in column order. */
  function ArrayElements(row: seq<string>, indices: seq<nat>, literal: string -> string): seq<string> {
    Map(literal, Flatten(PiecesOfEach(CollectedValues(row, indices))))
  }

  /** The list written between the braces of an array field, for any element literal. */
  lemma ArrayList(row: seq<string>, indices: seq<nat>, literal: string -> string)
    ensures LiteralList(Join(CollectedValues(row, indices), ","), literal) ==
      Join(ArrayElements(row, indices, literal), ", ")
  {
    var items := CollectedValues(row, indices);
    PiecesOfJoin(items);
    JoinBlank(items);
    if items == [] {
      assert Flatten(PiecesOfEach(items)) == [];
    }
  }

  /**
   * An array field lists one literal per piece of its usable cells, in
   * column order, joined by ", "; with no pieces the braces are empty.
   */
  lemma ArrayValue(g: ColumnGroup, row: seq<string>, floatLiteral: string -> string)
    requires !g.isEnum
    ensures g.typeName == "int[]" ==>
              FormatGroupValue(g, row, floatLiteral) ==
              "new int[] { " + Join(ArrayElements(row, g.indices, IntLiteral), ", ") + " }"
    ensures g.typeName == "float[]" ==>
              FormatGroupValue(g, row, floatLiteral) ==
              "new float[] { " + Join(ArrayElements(row, g.indices, floatLiteral), ", ") + " }"
    ensures g.typeName == "string[]" ==>
              FormatGroupValue(g, row, floatLiteral) ==
              "new string[] { " + Join(ArrayElements(row, g.indices, StringLiteral), ", ") + " }"
  {
    ArrayList(row, g.indices, IntLiteral);
    ArrayList(row, g.indices, floatLiteral);
    ArrayList(row, g.indices, StringLiteral);
  }

  /**
   * A scalar int field renders the value of its first usable cell, or 0 when
   * there is none or it does not parse as an Int32.
   */
  lemma IntValue(g: ColumnGroup, row: seq<string>, floatLiteral: string -> string)
    requires !g.isEnum && g.typeName == "int"
    ensures var first := FirstNonEmpty(row, g.indices);
      TryParseInt32(FormatGroupValue(g, row, floatLiteral)) ==
        Some(if first.Some? then TryParseInt32(first.value).GetOr(0) else 0)
  {
    var first := FirstNonEmpty(row, g.indices).GetOr("");
    IntLiteralMeaning(first);
    assert TryParseInt32("") == None;
  }

  /**
   * A string field, and a field of any type the builder does not know,
   * renders a quoted literal denoting its first usable cell, or "" when
   * there is none.
   */
  lemma StringValue(g: ColumnGroup, row: seq<string>, floatLiteral: string -> string)
    requires !g.isEnum && g.typeName !in {"int[]", "float[]", "string[]", "int", "float"}
    ensures var v := FormatGroupValue(g, row, floatLiteral);
      && |v| >= 2 && v[0] == '"' && v[|v| - 1] == '"'
      && Unescape(v[1..|v| - 1]) == FirstNonEmpty(row, g.indices).GetOr("")
  {
    var first := FirstNonEmpty(row, g.indices).GetOr("");
    EscapeRoundTrip(first);
    var v := FormatGroupValue(g, row, floatLiteral);
    assert v[1..|v| - 1] == Escape(first);
  }

  // ---------------------------------------------------------------- enum members

  /** What one group contributes to the enum tables for one row: its sanitized first usable cell, if it is an enum. */
  function GroupObservation(g: ColumnGroup, row: seq<string>): seq<(string, string)> {
    if !g.isEnum then []
    else
      var raw := FirstNonEmpty(row, g.indices).GetOr("");
      if IsBlank(raw) then [] else [(g.typeName, SanitizeIdentifier(raw))]
  }

  /** The (enum type, member) pairs of one row, in group order. */
  function RowObservations(groups: seq<ColumnGroup>, row: seq<string>): seq<(string, string)> {
    if groups == [] then []
    else RowObservations(groups[..|groups| - 1], row) + GroupObservation(groups[|groups| - 1], row)
  }

  /** The (enum type, member) pairs of all data rows, row by row. */
  function Observations(groups: seq<ColumnGroup>, rows: seq<seq<string>>): seq<(string, string)> {
    if rows == [] then []
    else Observations(groups, rows[..|rows| - 1]) + RowObservations(groups, rows[|rows| - 1])
  }

  /** The members observed for enum type `t`, in order, repeats included. */
  function MembersFor(t: string, obs: seq<(string, string)>): seq<string> {
    if obs == [] then []
    else MembersFor(t, obs[..|obs| - 1]) + (if obs[|obs| - 1].0 == t then [obs[|obs| - 1].1] else [])
  }

  /** The members Build declares for enum type `t`: each observed one once, in first-seen order. */
  function EnumMembers(t: string, obs: seq<(string, string)>): (r: seq<string>)
    ensures NoDuplicates(r)
  {
    Distinct(MembersFor(t, obs))
  }

  /** The type names of the enum groups, in group order, repeats included. */
  function EnumTypeList(groups: seq<ColumnGroup>): seq<string> {
    if groups == [] then []
    else
      var g := groups[|groups| - 1];
      EnumTypeList(groups[..|groups| - 1]) + (if g.isEnum then [g.typeName] else [])
  }

  lemma {:induction false} MembersForAppend(t: string, a: seq<(string, string)>, b: seq<(string, string)>)
    ensures MembersFor(t, a + b) == MembersFor(t, a) + MembersFor(t, b)
    decreases |b|
  {
    if b == [] {
      assert a + b == a;
    } else {
      assert (a + b)[..|a + b| - 1] == a + b[..|b| - 1];
      MembersForAppend(t, a, b[..|b| - 1]);
    }
  }

  lemma {:induction false} MembersForContains(t: string, obs: seq<(string, string)>, m: string)
    requires (t, m) in obs
    ensures m in MembersFor(t, obs)
  {
    var last := obs[|obs| - 1];
    if last != (t, m) {
      assert (t, m) in obs[..|obs| - 1];
      MembersForContains(t, obs[..|obs| - 1], m);
    }
  }

  lemma {:induction false} RowObservationsContain(groups: seq<ColumnGroup>, row: seq<string>, k: nat, o: (string, string))
    requires k < |groups| && o in GroupObservation(groups[k], row)
    ensures o in RowObservations(groups, row)
  {
    if k < |groups| - 1 {
      RowObservationsContain(groups[..|groups| - 1], row, k, o);
    }
  }

  lemma {:induction false} ObservationsContain(groups: seq<ColumnGroup>, rows: seq<seq<string>>, r: nat, o: (string, string))
    requires r < |rows| && o in RowObservations(groups, rows[r])
    ensures o in Observations(groups, rows)
  {
    if r < |rows| - 1 {
      ObservationsContain(groups, rows[..|rows| - 1], r, o);
    }
  }

  lemma {:induction false} EnumTypeListContains(groups: seq<ColumnGroup>, k: nat)
    requires k < |groups| && groups[k].isEnum
    ensures groups[k].typeName in EnumTypeList(groups)
  {
    if k < |groups| - 1 {
      EnumTypeListContains(groups[..|groups| - 1], k);
    }
  }

  /**
   * Every enum value the data section writes names the enum's zero value or
   * one of the members Build declares for that enum, and the enum itself is
   * declared.
   */
  lemma EnumValueDeclared(groups: seq<ColumnGroup>, rows: seq<seq<string>>, r: nat, k: nat, floatLiteral: string -> string)
    requires r < |rows| && k < |groups| && groups[k].isEnum
    ensures var g := groups[k];
      var first := FirstNonEmpty(rows[r], g.indices);
      && g.typeName in Distinct(EnumTypeList(groups))
      && (first.None? ==> FormatGroupValue(g, rows[r], floatLiteral) == "(" + g.typeName + ")0")
      && (first.Some? ==>
            && SanitizeIdentifier(first.value) in EnumMembers(g.typeName, Observations(groups, rows))
            && FormatGroupValue(g, rows[r], floatLiteral) == g.typeName + "." + SanitizeIdentifier(first.value))
  {
    var g := groups[k];
    EnumTypeListContains(groups, k);
    assert g.typeName in Elems(EnumTypeList(groups));
    var first := FirstNonEmpty(rows[r], g.indices);
    if first.None? {
      assert IsBlank("");
    } else {
      var o := (g.typeName, SanitizeIdentifier(first.value));
      assert GroupObservation(g, rows[r]) == [o];
      RowObservationsContain(groups, rows[r], k, o);
      ObservationsContain(groups, rows, r, o);
      MembersForContains(g.typeName, Observations(groups, rows), o.1);
      assert o.1 in Elems(MembersFor(g.typeName, Observations(groups, rows)));
    }
  }

  /** An enum that no data row gives a value is declared with the single member None. */
  lemma EmptyEnumPlaceholder(t: string)
    ensures EnumBlock(t, []) == ["", Pad(1) + "public enum " + t, Pad(1) + "{", Pad(2) + "None", Pad(1) + "}"]
  {
    var lines := MemberLines(["None"], 2);
    assert lines[0] == Pad(2) + "None" + "";
    assert Pad(2) + "None" + "" == Pad(2) + "None";
  }

  /** The member table holds, for every key, the distinct members observed in `obs`. */
  ghost predicate TablesMatch(keys: seq<string>, members: map<string, seq<string>>, obs: seq<(string, string)>) {
    forall t :: t in keys ==> t in members && members[t] == EnumMembers(t, obs)
  }

  /** Recording a newly observed member keeps the table in step with the observations. */
  lemma TablesStep(keys: seq<string>, members: map<string, seq<string>>, seen: seq<(string, string)>, t0: string, m: string)
    requires TablesMatch(keys, members, seen) && t0 in keys
    ensures TablesMatch(keys, members[t0 := AddUnique(members[t0], m)], seen + [(t0, m)])
  {
    forall t | t in keys
      ensures (if t == t0 then AddUnique(members[t], m) else members[t]) == EnumMembers(t, seen + [(t0, m)])
    {
      MembersForAppend(t, seen, [(t0, m)]);
      assert MembersFor(t, [(t0, m)]) == MembersFor(t, []) + (if t0 == t then [m] else []);
      if t == t0 {
        assert (MembersFor(t, seen) + [m])[..|MembersFor(t, seen)|] == MembersFor(t, seen);
      } else {
        assert MembersFor(t, seen) + [] == MembersFor(t, seen);
      }
    }
  }

  /** One more group adds its type to the distinct enum types when it is an enum. */
  lemma EnumTypesStep(groups: seq<ColumnGroup>, k: nat)
    requires k < |groups|
    ensures Distinct(EnumTypeList(groups[..k + 1])) ==
      if groups[k].isEnum then AddUnique(Distinct(EnumTypeList(groups[..k])), groups[k].typeName)
      else Distinct(EnumTypeList(groups[..k]))
  {
    assert groups[..k + 1][..k] == groups[..k];
    if groups[k].isEnum {
      assert EnumTypeList(groups[..k + 1]) == EnumTypeList(groups[..k]) + [groups[k].typeName];
      DistinctSnoc(EnumTypeList(groups[..k]), groups[k].typeName);
    } else {
      assert EnumTypeList(groups[..k + 1]) == EnumTypeList(groups[..k]) + [];
      assert EnumTypeList(groups[..k]) + [] == EnumTypeList(groups[..k]);
    }
  }

  /** The enum types of the groups, each with an empty member list. */
  method EnumKeys(groups: seq<ColumnGroup>) returns (keys: seq<string>, members: map<string, seq<string>>)
    ensures keys == Distinct(EnumTypeList(groups))
    ensures TablesMatch(keys, members, [])
  {
    keys := [];
    members := map[];
    for k := 0 to |groups|
      invariant keys == Distinct(EnumTypeList(groups[..k]))
      invariant forall t :: t in keys ==> t in members && members[t] == []
    {
      EnumTypesStep(groups, k);
      if groups[k].isEnum {
        keys := AddUnique(keys, groups[k].typeName);
        members := members[groups[k].typeName := []];
      }
    }
    assert groups[..|groups|] == groups;
  }

  /** Adds the enum values of one data row to the member table. */
  method AddRowMembers(groups: seq<ColumnGroup>, row: seq<string>, keys: seq<string>,
                       members0: map<string, seq<string>>, ghost before: seq<(string, string)>)
    returns (members: map<string, seq<string>>)
    requires keys == Distinct(EnumTypeList(groups))
    requires TablesMatch(keys, members0, before)
    ensures TablesMatch(keys, members, before + RowObservations(groups, row))
  {
    members := members0;
    assert before + RowObservations(groups[..0], row) == before;
    var gi := 0;
    while gi != |groups|
      invariant 0 <= gi <= |groups|
      invariant TablesMatch(keys, members, before + RowObservations(groups[..gi], row))
      decreases |groups| - gi
    {
      ghost var seen := before + RowObservations(groups[..gi], row);
      members := AddGroupMember(groups, gi, row, keys, members, seen);
      ghost var read := gi;
      gi := gi + 1;
      RowObservationsNext(groups, row, before, read, gi);
    }
    assert groups[..|groups|] == groups;
  }

  /** One group of a row: its enum member, if it has one, recorded under its enum type. */
  method AddGroupMember(groups: seq<ColumnGroup>, gi: nat, row: seq<string>, keys: seq<string>,
                        members0: map<string, seq<string>>, ghost seen: seq<(string, string)>)
    returns (members: map<string, seq<string>>)
    requires gi < |groups|
    requires keys == Distinct(EnumTypeList(groups))
    requires TablesMatch(keys, members0, seen)
    ensures TablesMatch(keys, members, seen + GroupObservation(groups[gi], row))
  {
    var g := groups[gi];
    var raw := FirstNonEmpty(row, g.indices).GetOr("");
    members := members0;
    if g.isEnum && !IsBlank(raw) {
      var m := SanitizeIdentifier(raw);
      EnumTypeListContains(groups, gi);
      assert g.typeName in Elems(EnumTypeList(groups));
      TablesStep(keys, members, seen, g.typeName, m);
      members := members[g.typeName := AddUnique(members[g.typeName], m)];
    } else {
      assert seen + GroupObservation(g, row) == seen;
    }
  }

  /** The observations of one more group follow those of the groups before it. */
  lemma RowObservationsNext(groups: seq<ColumnGroup>, row: seq<string>, before: seq<(string, string)>, k: nat, n: nat)
    requires k < |groups| && n == k + 1
    ensures before + RowObservations(groups[..n], row)
            == before + RowObservations(groups[..k], row) + GroupObservation(groups[k], row)
  {
    var gs := groups[..n];
    assert |gs| - 1 == k;
    assert gs[..k] == groups[..k] && gs[k] == groups[k];
    RowObservationsSnoc(gs, row, RowObservations(groups[..k], row), GroupObservation(groups[k], row));
    AppendAssoc(before, RowObservations(groups[..k], row), GroupObservation(groups[k], row));
  }

  /** One level of RowObservations, with its two parts given. */
  lemma RowObservationsSnoc(gs: seq<ColumnGroup>, row: seq<string>, prior: seq<(string, string)>, next: seq<(string, string)>)
    requires gs != []
    requires prior == RowObservations(gs[..|gs| - 1], row) && next == GroupObservation(gs[|gs| - 1], row)
    ensures RowObservations(gs, row) == prior + next
  {
  }

  /**
   * The enum tables of Build: the enum types in order of first declaration,
   * and for each the members observed in the data rows.
   */
  method CollectEnumMembers(groups: seq<ColumnGroup>, rows: seq<seq<string>>)
    returns (keys: seq<string>, members: map<string, seq<string>>)
    ensures keys == Distinct(EnumTypeList(groups))
    ensures forall t :: t in keys ==> t in members && members[t] == EnumMembers(t, Observations(groups, rows))
  {
    keys, members := EnumKeys(groups);
    for r := 0 to |rows|
      invariant TablesMatch(keys, members, Observations(groups, rows[..r]))
    {
      assert rows[..r + 1][..r] == rows[..r];
      members := AddRowMembers(groups, rows[r], keys, members, Observations(groups, rows[..r]));
    }
    assert rows[..|rows|] == rows;
  }

  // ---------------------------------------------------------------- class and enum file

  /** The usings of the class file: the given ones and the three it needs, each once, in first-seen order. */
  function RequiredUsings(given: seq<string>): (r: seq<string>)
    ensures NoDuplicates(r)
    ensures Elems(r) == Elems(given) + {"MasterMemory", "MessagePack", "System.Collections.Generic"}
  {
    Distinct(given + ["MasterMemory", "MessagePack", "System.Collections.Generic"])
  }

  /** The MemoryTable name: the class name without a trailing "Data" in any letter case. */
  function TableName(className: string): (r: string)
    ensures r == className || (|className| >= 4 && |r| == |className| - 4 && className == r + className[|r|..] && EqualsIgnoreCase(className[|r|..], "Data"))
  {
    if |className| >= 4 && EqualsIgnoreCase(className[|className| - 4..], "Data") then className[..|className| - 4]
    else className
  }

  /** The attribute line, if any, the declaration and the blank line of one property. */
  function PropertyLines(g: ColumnGroup): seq<string> {
    (if g.attribute != "" then [Pad(2) + "[" + g.attribute + "]"] else [])
    + [Pad(2) + "public " + g.typeName + " " + g.propertyName + " { get; set; }", ""]
  }

  function PropertiesLines(groups: seq<ColumnGroup>): seq<string> {
    if groups == [] then []
    else PropertiesLines(groups[..|groups| - 1]) + PropertyLines(groups[|groups| - 1])
  }

  /** The declaration of one enum; an enum without members gets the member None. */
  function EnumBlock(t: string, members: seq<string>): seq<string> {
    var ms := if members == [] then ["None"] else members;
    ["", Pad(1) + "public enum " + t, Pad(1) + "{"] + MemberLines(ms, 2) + [Pad(1) + "}"]
  }

  function EnumBlocks(types: seq<string>, obs: seq<(string, string)>): seq<string> {
    if types == [] then []
    else
      var t := types[|types| - 1];
      EnumBlocks(types[..|types| - 1], obs) + EnumBlock(t, EnumMembers(t, obs))
  }

  /** The rows after the header and type rows. */
  function DataRows(selection: seq<seq<string>>): seq<seq<string>> {
    if |selection| < 2 then [] else selection[2..]
  }

  /** The using lines, the blank line and the opening of the namespace. */
  function ClassFilePreamble(ns: string, usings: seq<string>): seq<string> {
    UsingLines(RequiredUsings(usings)) + ["", "namespace " + ns, "{"]
  }

  /** The MemoryTable class: its attributes, its declaration and one property per group. */
  function TableClassLines(className: string, groups: seq<ColumnGroup>): seq<string> {
    [Pad(1) + "[MemoryTable(\"" + TableName(className) + "\"), MessagePackObject(true)]",
     Pad(1) + "public sealed partial class " + className,
     Pad(1) + "{"]
    + PropertiesLines(groups)
    + [Pad(1) + "}"]
  }

  /** The lines of the class-and-enums file Build writes for a selection of at least three rows. */
  function ClassFileLines(ns: string, usings: seq<string>, className: string, selection: seq<seq<string>>): seq<string>
    requires |selection| >= 3
  {
    var groups := Groups(selection[0], selection[1]);
    ClassFilePreamble(ns, usings)
    + TableClassLines(className, groups)
    + EnumBlocks(Distinct(EnumTypeList(groups)), Observations(groups, DataRows(selection)))
    + ["}"]
  }

  /** Writes the property declarations, one per group, at indentation level 2. */
  method EmitProperties(groups: seq<ColumnGroup>) returns (lines: seq<string>)
    ensures lines == PropertiesLines(groups)
  {
    lines := [];
    for gi := 0 to |groups|
      invariant lines == PropertiesLines(groups[..gi])
    {
      var g := groups[gi];
      assert groups[..gi + 1][..gi] == groups[..gi];
      ghost var before := lines;
      if g.attribute != "" {
        lines := lines + [Pad(2) + "[" + g.attribute + "]"];
      }
      lines := lines + [Pad(2) + "public " + g.typeName + " " + g.propertyName + " { get; set; }"];
      lines := lines + [""];
      assert lines == before + PropertyLines(g);
    }
    assert groups[..|groups|] == groups;
  }

  /** Writes one enum declaration; an empty member list becomes the single member None. */
  method EmitEnum(t: string, members: seq<string>) returns (lines: seq<string>)
    ensures lines == EnumBlock(t, members)
  {
    var ms := members;
    if |ms| == 0 {
      ms := ["None"];
    }
    lines := ["", Pad(1) + "public enum " + t, Pad(1) + "{"];
    ghost var head := lines;
    for i := 0 to |ms|
      invariant lines == head + MemberLines(ms, 2)[..i]
    {
      var comma := if i < |ms| - 1 then "," else "";
      PrefixSnoc(MemberLines(ms, 2), i);
      lines := lines + [Pad(2) + ms[i] + comma];
    }
    assert MemberLines(ms, 2)[..|ms|] == MemberLines(ms, 2);
    lines := lines + [Pad(1) + "}"];
  }

  lemma PadZero()
    ensures Pad(0) == ""
  {
  }

  /** `new HashSet<string>(given)` followed by one Add per required namespace. */
  method UsingSet(given: seq<string>, required: seq<string>) returns (usings: seq<string>)
    ensures usings == Distinct(given + required)
  {
    usings := Distinct(given);
    assert given + required[..0] == given;
    for k := 0 to |required|
      invariant usings == Distinct(given + required[..k])
    {
      PrefixSnoc(required, k);
      ghost var done := given + required[..k];
      assert done + [required[k]] == given + (required[..k] + [required[k]]);
      DistinctSnoc(done, required[k]);
      usings := AddUnique(usings, required[k]);
    }
    assert required[..|required|] == required;
  }

  /** Writes one enum declaration per key of the member table, in key order. */
  method EmitEnums(keys: seq<string>, members: map<string, seq<string>>, ghost obs: seq<(string, string)>)
    returns (lines: seq<string>)
    requires forall t :: t in keys ==> t in members && members[t] == EnumMembers(t, obs)
    ensures lines == EnumBlocks(keys, obs)
  {
    lines := [];
    for k := 0 to |keys|
      invariant lines == EnumBlocks(keys[..k], obs)
    {
      assert keys[..k + 1][..k] == keys[..k];
      var block := EmitEnum(keys[k], members[keys[k]]);
      lines := lines + block;
    }
    assert keys[..|keys|] == keys;
  }

  /**
   * Build: the class file for a selection whose first row names the columns,
   * whose second row holds the type hints and whose remaining rows are data.
   * Fewer than three rows, or no selection at all, is an ArgumentException.
   */
  method Build(ns: string, usingNamespaces: seq<string>, className: string, selection: Option<seq<seq<string>>>)
    returns (result: Result<string>)
    ensures selection.None? || |selection.value| < 3 <==> result == Err(Argument(""))
    ensures selection.Some? && |selection.value| >= 3 ==>
              result == Ok(Unlines(ClassFileLines(ns, usingNamespaces, className, selection.value)))
  {
    if selection.None? || |selection.value| < 3 {
      return Err(Argument(""));
    }
    var sel := selection.value;
    var preamble := EmitPreamble(ns, usingNamespaces);
    var groups := BuildGroups(sel[0], sel[1]);
    var enums := EmitEnumSection(groups, DataRows(sel));
    var table := EmitTableClass(className, groups);
    var lines := preamble + table + enums + ["}"];
    return Ok(Unlines(lines));
  }

  /** The usings (the given ones and the three Build needs, each once) and the opening of the namespace. */
  method EmitPreamble(ns: string, usingNamespaces: seq<string>) returns (lines: seq<string>)
    ensures lines == ClassFilePreamble(ns, usingNamespaces)
  {
    var usings := UsingSet(usingNamespaces, ["MasterMemory", "MessagePack", "System.Collections.Generic"]);
    var usingLines := EmitUsings(usings);
    var indent := 0;
    PadZero();
    assert Pad(0) + "namespace " + ns == "namespace " + ns;
    assert Pad(0) + "{" == "{";
    lines := usingLines + ["", Pad(indent) + "namespace " + ns, Pad(indent) + "{"];
  }

  /** The table class at indentation level 1, its properties at level 2. */
  method EmitTableClass(className: string, groups: seq<ColumnGroup>) returns (lines: seq<string>)
    ensures lines == TableClassLines(className, groups)
  {
    var indent := 1;
    var tableName := if |className| >= 4 && EqualsIgnoreCase(className[|className| - 4..], "Data")
      then className[..|className| - 4] else className;
    var classOpen := [Pad(indent) + "[MemoryTable(\"" + tableName + "\"), MessagePackObject(true)]",
                      Pad(indent) + "public sealed partial class " + className,
                      Pad(indent) + "{"];
    var properties := EmitProperties(groups);
    lines := classOpen + properties + [Pad(indent) + "}"];
  }

  /** The enum members the data rows show, then one enum declaration per enum type. */
  method EmitEnumSection(groups: seq<ColumnGroup>, rows: seq<seq<string>>) returns (lines: seq<string>)
    ensures lines == EnumBlocks(Distinct(EnumTypeList(groups)), Observations(groups, rows))
  {
    var keys, members := CollectEnumMembers(groups, rows);
    lines := EmitEnums(keys, members, Observations(groups, rows));
  }

  // ---------------------------------------------------------------- data section

  /** The values FormatGroupValue gives for one data row, one per group. */
  function RowValues(groups: seq<ColumnGroup>, row: seq<string>, floatLiteral: string -> string): (r: seq<string>)
    ensures |r| == |groups|
  {
    seq(|groups|, gi requires 0 <= gi < |groups| => FormatGroupValue(groups[gi], row, floatLiteral))
  }

  /** One property assignment; a comma follows unless it is the last one. */
  function FieldLine(name: string, value: string, level: nat, last: bool): string {
    Pad(level) + name + " = " + value + (if last then "" else ",")
  }

  /** The property assignments of one data row. */
  function FieldLines(groups: seq<ColumnGroup>, values: seq<string>, level: nat): (r: seq<string>)
    requires |values| == |groups|
    ensures |r| == |groups|
  {
    seq(|groups|, gi requires 0 <= gi < |groups| =>
      FieldLine(groups[gi].propertyName, values[gi], level, gi == |groups| - 1))
  }

  /** The object initializer of one data row; `more` says whether another row follows. */
  function RowBlock(className: string, groups: seq<ColumnGroup>, values: seq<string>, level: nat, more: bool): (r: seq<string>)
    requires |values| == |groups|
    ensures |r| == |groups| + 3
  {
    [Pad(level) + "new " + className, Pad(level) + "{"]
    + FieldLines(groups, values, level + 1)
    + [Pad(level) + "}" + (if more then "," else "")]
  }

  function RowBlocks(className: string, groups: seq<ColumnGroup>, rows: seq<seq<string>>, level: nat,
                     floatLiteral: string -> string): (r: seq<seq<string>>)
    ensures |r| == |rows|
    ensures forall i :: 0 <= i < |r| ==> |r[i]| == |groups| + 3
  {
    seq(|rows|, i requires 0 <= i < |rows| =>
      RowBlock(className, groups, RowValues(groups, rows[i], floatLiteral), level, i < |rows| - 1))
  }

  function DataDeclaration(className: string): string {
    "public readonly static List<" + className + "> Data = new List<" + className + ">()"
  }

  /** The `Data` list initializer for the data rows, starting at indentation level `base`. */
  function DataSectionLines(className: string, groups: seq<ColumnGroup>, rows: seq<seq<string>>, base: nat,
                            floatLiteral: string -> string): seq<string>
  {
    [Pad(base) + DataDeclaration(className), Pad(base) + "{"]
    + Flatten(RowBlocks(className, groups, rows, base + 1, floatLiteral))
    + [Pad(base) + "};"]
  }

  lemma DataSectionLength(className: string, groups: seq<ColumnGroup>, rows: seq<seq<string>>, base: nat,
                          floatLiteral: string -> string)
    ensures |DataSectionLines(className, groups, rows, base, floatLiteral)| == 3 + |rows| * (|groups| + 3)
  {
    FlattenUniformLength(RowBlocks(className, groups, rows, base + 1, floatLiteral), |groups| + 3);
  }

  /** Line `j` of the block of data row `r` sits at 2 + r * (|groups| + 3) + j. */
  lemma DataSectionRowAt(className: string, groups: seq<ColumnGroup>, rows: seq<seq<string>>, base: nat,
                         floatLiteral: string -> string, r: nat, j: nat)
    requires r < |rows| && j < |groups| + 3
    ensures var lines := DataSectionLines(className, groups, rows, base, floatLiteral);
      && 2 + r * (|groups| + 3) + j < |lines|
      && lines[2 + r * (|groups| + 3) + j]
         == RowBlock(className, groups, RowValues(groups, rows[r], floatLiteral), base + 1, r < |rows| - 1)[j]
  {
    var blocks := RowBlocks(className, groups, rows, base + 1, floatLiteral);
    var w := |groups| + 3;
    FlattenUniformAt(blocks, w, r, j);
    ghost var lines := DataSectionLines(className, groups, rows, base, floatLiteral);
    var head := [Pad(base) + DataDeclaration(className), Pad(base) + "{"];
    assert lines == head + Flatten(blocks) + [Pad(base) + "};"];
    assert lines[2 + r * w + j] == Flatten(blocks)[r * w + j];
  }

  /**
   * The assignment of group `gi` in data row `r` sits at
   * 2 + r * (|groups| + 3) + 2 + gi and carries the value FormatGroupValue
   * gives for that row; a comma follows unless it is the last group.
   */
  lemma DataSectionField(className: string, groups: seq<ColumnGroup>, rows: seq<seq<string>>, base: nat,
                         floatLiteral: string -> string, r: nat, gi: nat)
    requires r < |rows| && gi < |groups|
    ensures var lines := DataSectionLines(className, groups, rows, base, floatLiteral);
      var at := 2 + r * (|groups| + 3) + 2 + gi;
      && at < |lines|
      && lines[at] == Pad(base + 2) + groups[gi].propertyName + " = "
           + FormatGroupValue(groups[gi], rows[r], floatLiteral) + (if gi < |groups| - 1 then "," else "")
  {
    DataSectionRowAt(className, groups, rows, base, floatLiteral, r, 2 + gi);
    var values := RowValues(groups, rows[r], floatLiteral);
    assert RowBlock(className, groups, values, base + 1, r < |rows| - 1)[2 + gi]
      == FieldLines(groups, values, base + 2)[gi];
  }

  /** Each row block closes with a comma exactly when another row follows. */
  lemma DataSectionRowClose(className: string, groups: seq<ColumnGroup>, rows: seq<seq<string>>, base: nat,
                            floatLiteral: string -> string, r: nat)
    requires r < |rows|
    ensures var lines := DataSectionLines(className, groups, rows, base, floatLiteral);
      var at := 2 + r * (|groups| + 3) + |groups| + 2;
      && at < |lines|
      && lines[at] == Pad(base + 1) + "}" + (if r < |rows| - 1 then "," else "")
  {
    DataSectionRowAt(className, groups, rows, base, floatLiteral, r, |groups| + 2);
  }

  /** Writes the `Data` list initializer for the rows after the header and type rows. */
  method EmitDataSection(className: string, groups: seq<ColumnGroup>, selection: seq<seq<string>>, baseIndent: nat,
                         floatLiteral: string -> string)
    returns (lines: seq<string>)
    ensures lines == DataSectionLines(className, groups, DataRows(selection), baseIndent, floatLiteral)
  {
    var indent := baseIndent;
    lines := [Pad(indent) + DataDeclaration(className),
              Pad(indent) + "{"];
    indent := indent + 1;
    var rows := EmitRows(className, groups, DataRows(selection), indent, floatLiteral);
    lines := lines + rows;
    indent := indent - 1;
    lines := lines + [Pad(indent) + "};"];
  }

  /** Writes the object initializers of the data rows (selection rows 2, 3, ...). */
  method EmitRows(className: string, groups: seq<ColumnGroup>, rows: seq<seq<string>>, indent: nat,
                  floatLiteral: string -> string)
    returns (lines: seq<string>)
    ensures lines == Flatten(RowBlocks(className, groups, rows, indent, floatLiteral))
  {
    lines := [];
    ghost var blocks := RowBlocks(className, groups, rows, indent, floatLiteral);
    for i := 0 to |rows|
      invariant lines == Flatten(blocks[..i])
    {
      var block := EmitRow(className, groups, rows[i], indent, i < |rows| - 1, floatLiteral);
      FlattenSnoc(blocks, i);
      lines := lines + block;
    }
    assert blocks[..|rows|] == blocks;
  }

  /** Writes the object initializer of one data row. */
  method EmitRow(className: string, groups: seq<ColumnGroup>, row: seq<string>, indent: nat, more: bool,
                 floatLiteral: string -> string)
    returns (lines: seq<string>)
    ensures lines == RowBlock(className, groups, RowValues(groups, row, floatLiteral), indent, more)
  {
    lines := [Pad(indent) + "new " + className, Pad(indent) + "{"];
    ghost var head := lines;
    ghost var fields := FieldLines(groups, RowValues(groups, row, floatLiteral), indent + 1);
    for gi := 0 to |groups|
      invariant lines == head + fields[..gi]
    {
      var g := groups[gi];
      var value := FormatGroupValue(g, row, floatLiteral);
      var comma := if gi < |groups| - 1 then "," else "";
      PrefixSnoc(fields, gi);
      lines := lines + [Pad(indent + 1) + g.propertyName + " = " + value + comma];
    }
    assert fields[..|groups|] == fields;
    var trailingComma := if more then "," else "";
    lines := lines + [Pad(indent) + "}" + trailingComma];
  }

  /** BuildDataOnly: the data section alone, at indentation level 0. */
  method BuildDataOnly(className: string, selection: Option<seq<seq<string>>>, floatLiteral: string -> string)
    returns (result: Result<string>)
    ensures selection.None? || |selection.value| < 3 <==> result == Err(Argument(""))
    ensures selection.Some? && |selection.value| >= 3 ==>
              result == Ok(Unlines(DataSectionLines(className, Groups(selection.value[0], selection.value[1]),
                                                    DataRows(selection.value), 0, floatLiteral)))
  {
    if selection.None? || |selection.value| < 3 {
      return Err(Argument(""));
    }
    var sel := selection.value;
    var groups := BuildGroups(sel[0], sel[1]);
    var lines := EmitDataSection(className, groups, sel, 0, floatLiteral);
    return Ok(Unlines(lines));
  }

  // ---------------------------------------------------------------- indentation

  /** One line of Indent: empty lines stay empty, others get the padding. */
  function IndentLine(line: string, level: nat): string {
    if line == "" then "" else Pad(level) + line
  }

  function IndentLines(lines: seq<string>, level: nat): (r: seq<string>)
    ensures |r| == |lines|
  {
    seq(|lines|, i requires 0 <= i < |lines| => IndentLine(lines[i], level))
  }

  /** Indent(text, level): line endings normalized to "\n", then every piece of the split re-emitted with AppendLine. */
  function IndentText(text: string, level: nat): string {
    Unlines(IndentLines(Fields(NormalizeNewlines(text), {'\n'}), level))
  }

  method Indent(text: string, level: nat) returns (r: string)
    ensures r == IndentText(text, level)
  {
    var pad := Pad(level);
    var lines := Fields(NormalizeNewlines(text), {'\n'});
    ghost var indented := IndentLines(lines, level);
    r := "";
    for k := 0 to |lines|
      invariant r == Unlines(indented[..k])
    {
      ghost var before := r;
      if |lines[k]| == 0 {
        r := r + "\n";
      } else {
        r := r + pad + lines[k] + "\n";
      }
      assert r == before + indented[k] + "\n";
      UnlinesSnoc(indented, k);
    }
    assert indented[..|lines|] == indented;
  }

  /**
   * Indenting text written line by line pads every non-empty line and keeps
   * the empty ones; the empty piece after the last line break becomes one
   * extra blank line.
   */
  lemma IndentOfUnlines(lines: seq<string>, level: nat)
    requires forall k :: 0 <= k < |lines| ==> IsLine(lines[k])
    ensures IndentText(Unlines(lines), level) == Unlines(IndentLines(lines, level)) + "\n"
  {
    var text := Unlines(lines);
    UnlinesSplit(lines);
    NormalizeNewlinesPlain(text);
    assert IndentText(text, level) == Unlines(IndentLines(lines + [""], level));
    IndentTrailingEmpty(lines, level);
  }

  lemma IndentTrailingEmpty(lines: seq<string>, level: nat)
    ensures Unlines(IndentLines(lines + [""], level)) == Unlines(IndentLines(lines, level)) + "\n"
  {
    assert IndentLines(lines + [""], level) == IndentLines(lines, level) + [""];
    UnlinesAppend(IndentLines(lines, level), [""]);
    assert Unlines([""]) == "\n";
  }

  /** A padded non-empty line indented by `k` levels is the line padded `k` levels more. */
  lemma IndentPadded(level: nat, k: nat, tail: string)
    requires tail != ""
    ensures IndentLine(Pad(level) + tail, k) == Pad(level + k) + tail
  {
    PadAdd(k, level);
    assert Pad(level) + tail != "" by {
      assert |Pad(level) + tail| >= 1;
    }
    assert Pad(k) + (Pad(level) + tail) == (Pad(k) + Pad(level)) + tail;
  }

  lemma PadAdd(a: nat, b: nat)
    ensures Pad(a) + Pad(b) == Pad(a + b)
  {
    assert |Pad(a) + Pad(b)| == |Pad(a + b)|;
  }

  lemma IndentLinesAppend(a: seq<string>, b: seq<string>, level: nat)
    ensures IndentLines(a + b, level) == IndentLines(a, level) + IndentLines(b, level)
  {
  }

  /** Indenting a row block by `k` levels is the row block `k` levels deeper. */
  /** Indenting a row block by `k` levels is the row block `k` levels deeper. */
  lemma IndentRowBlock(className: string, groups: seq<ColumnGroup>, values: seq<string>, level: nat, more: bool, k: nat)
    requires |values| == |groups|
    ensures IndentLines(RowBlock(className, groups, values, level, more), k)
      == RowBlock(className, groups, values, level + k, more)
  {
    var a := RowBlock(className, groups, values, level, more);
    forall i | 0 <= i < |a|
      ensures IndentLine(a[i], k) == RowBlock(className, groups, values, level + k, more)[i]
    {
      IndentRowBlockLine(className, groups, values, level, more, k, i);
    }
  }

  lemma IndentRowBlockLine(className: string, groups: seq<ColumnGroup>, values: seq<string>, level: nat, more: bool,
                           k: nat, i: nat)
    requires |values| == |groups| && i < |groups| + 3
    ensures IndentLine(RowBlock(className, groups, values, level, more)[i], k)
      == RowBlock(className, groups, values, level + k, more)[i]
  {
    RowBlockAt(className, groups, values, level, more, i);
    RowBlockAt(className, groups, values, level + k, more, i);
    var tail := if i == 0 then "new " + className
      else if i == 1 then "{"
      else if i == |groups| + 2 then "}" + (if more then "," else "")
      else "";
    if i < 2 || i == |groups| + 2 {
      IndentPadded(level, k, tail);
    } else {
      IndentFieldLine(groups[i - 2].propertyName, values[i - 2], level + 1, k, i - 2 == |groups| - 1);
    }
  }

  /** Line i of a row block: the constructor, the open brace, a field line, or the closing brace. */
  lemma RowBlockAt(className: string, groups: seq<ColumnGroup>, values: seq<string>, level: nat, more: bool, i: nat)
    requires |values| == |groups| && i < |groups| + 3
    ensures RowBlock(className, groups, values, level, more)[i]
      == if i == 0 then Pad(level) + ("new " + className)
         else if i == 1 then Pad(level) + "{"
         else if i == |groups| + 2 then Pad(level) + ("}" + (if more then "," else ""))
         else FieldLine(groups[i - 2].propertyName, values[i - 2], level + 1, i - 2 == |groups| - 1)
  {
    var a := RowBlock(className, groups, values, level, more);
    if 2 <= i < |groups| + 2 {
      assert a[i] == FieldLines(groups, values, level + 1)[i - 2];
    }
  }

  lemma IndentFieldLine(name: string, value: string, level: nat, k: nat, last: bool)
    ensures IndentLine(FieldLine(name, value, level, last), k) == FieldLine(name, value, level + k, last)
  {
    var tail := name + " = " + value + (if last then "" else ",");
    assert |tail| >= 3;
    IndentPadded(level, k, tail);
    assert FieldLine(name, value, level, last) == Pad(level) + tail;
    assert FieldLine(name, value, level + k, last) == Pad(level + k) + tail;
  }

  /** Every block indented by `k` levels. */
  function IndentEach(xss: seq<seq<string>>, k: nat): (r: seq<seq<string>>)
    ensures |r| == |xss| && forall i :: 0 <= i < |xss| ==> r[i] == IndentLines(xss[i], k)
  {
    if xss == [] then [] else [IndentLines(xss[0], k)] + IndentEach(xss[1..], k)
  }

  lemma {:induction false} IndentFlatten(xss: seq<seq<string>>, k: nat)
    ensures IndentLines(Flatten(xss), k) == Flatten(IndentEach(xss, k))
  {
    if xss != [] {
      IndentFlatten(xss[1..], k);
      IndentLinesAppend(xss[0], Flatten(xss[1..]), k);
    }
  }

  /** Indenting the data section by `k` levels is the data section written `k` levels deeper. */
  lemma IndentDataSection(className: string, groups: seq<ColumnGroup>, rows: seq<seq<string>>, base: nat,
                          floatLiteral: string -> string, k: nat)
    ensures IndentLines(DataSectionLines(className, groups, rows, base, floatLiteral), k)
      == DataSectionLines(className, groups, rows, base + k, floatLiteral)
  {
    var blocks := RowBlocks(className, groups, rows, base + 1, floatLiteral);
    var deeper := RowBlocks(className, groups, rows, base + k + 1, floatLiteral);
    var decl := DataDeclaration(className);
    var head := [Pad(base) + decl, Pad(base) + "{"];
    var tail := [Pad(base) + "};"];
    assert DataSectionLines(className, groups, rows, base, floatLiteral) == head + Flatten(blocks) + tail;
    assert DataSectionLines(className, groups, rows, base + k, floatLiteral)
      == [Pad(base + k) + decl, Pad(base + k) + "{"] + Flatten(deeper) + [Pad(base + k) + "};"];
    IndentLinesAppend(head, Flatten(blocks), k);
    IndentLinesAppend(head + Flatten(blocks), tail, k);
    IndentPadded(base, k, decl);
    IndentPadded(base, k, "{");
    IndentPadded(base, k, "};");
    assert IndentLines(head, k) == [Pad(base + k) + decl, Pad(base + k) + "{"];
    assert IndentLines(tail, k) == [Pad(base + k) + "};"];
    IndentBlocks(className, groups, rows, base, floatLiteral, k);
  }

  lemma IndentBlocks(className: string, groups: seq<ColumnGroup>, rows: seq<seq<string>>, base: nat,
                     floatLiteral: string -> string, k: nat)
    ensures IndentLines(Flatten(RowBlocks(className, groups, rows, base + 1, floatLiteral)), k)
      == Flatten(RowBlocks(className, groups, rows, base + k + 1, floatLiteral))
  {
    var blocks := RowBlocks(className, groups, rows, base + 1, floatLiteral);
    var deeper := RowBlocks(className, groups, rows, base + k + 1, floatLiteral);
    IndentFlatten(blocks, k);
    forall i | 0 <= i < |rows| ensures IndentLines(blocks[i], k) == deeper[i] {
      IndentRowBlockAt(className, groups, rows, base, floatLiteral, k, i);
    }
    IndentEachIs(blocks, deeper, k);
  }

  lemma IndentRowBlockAt(className: string, groups: seq<ColumnGroup>, rows: seq<seq<string>>, base: nat,
                         floatLiteral: string -> string, k: nat, i: nat)
    requires i < |rows|
    ensures IndentLines(RowBlocks(className, groups, rows, base + 1, floatLiteral)[i], k)
      == RowBlocks(className, groups, rows, base + k + 1, floatLiteral)[i]
  {
    IndentRowBlock(className, groups, RowValues(groups, rows[i], floatLiteral), base + 1, i < |rows| - 1, k);
  }

  lemma IndentEachIs(xss: seq<seq<string>>, yss: seq<seq<string>>, k: nat)
    requires |xss| == |yss| && forall i :: 0 <= i < |xss| ==> IndentLines(xss[i], k) == yss[i]
    ensures IndentEach(xss, k) == yss
  {
  }

  // ---------------------------------------------------------------- data file

  /** The usings of the data file: the given ones and System.Collections.Generic, each once. */
  function DataFileUsings(given: seq<string>): (r: seq<string>)
    ensures NoDuplicates(r) && "System.Collections.Generic" in Elems(r)
  {
    Distinct(given + ["System.Collections.Generic"])
  }

  /** The lines before the indented data section: usings, namespace and partial class openings. */
  function DataFileHead(ns: string, usings: seq<string>, className: string): seq<string> {
    UsingLines(DataFileUsings(usings))
    + ["", "namespace " + ns, "{", Pad(1) + "public sealed partial class " + className, Pad(1) + "{"]
  }

  /** The closing lines of the partial class and the namespace. */
  function DataFileTail(): seq<string> {
    [Pad(1) + "}", "}"]
  }

  /** The text BuildDataFile writes: the data section indented by two levels inside the partial class. */
  function DataFileText(ns: string, usings: seq<string>, className: string, selection: seq<seq<string>>,
                        floatLiteral: string -> string): string
    requires |selection| >= 3
  {
    var groups := Groups(selection[0], selection[1]);
    Unlines(DataFileHead(ns, usings, className))
    + IndentText(Unlines(DataSectionLines(className, groups, DataRows(selection), 0, floatLiteral)), 2)
    + Unlines(DataFileTail())
  }

  /** BuildDataFile: the data section wrapped in the partial class, for a file of its own. */
  method BuildDataFile(ns: string, usingNamespaces: seq<string>, className: string, selection: Option<seq<seq<string>>>,
                       floatLiteral: string -> string)
    returns (result: Result<string>)
    ensures selection.None? || |selection.value| < 3 <==> result == Err(Argument(""))
    ensures selection.Some? && |selection.value| >= 3 ==>
              result == Ok(DataFileText(ns, usingNamespaces, className, selection.value, floatLiteral))
  {
    if selection.None? || |selection.value| < 3 {
      return Err(Argument(""));
    }
    var sel := selection.value;
    var groups := BuildGroups(sel[0], sel[1]);
    var usings := UsingSet(usingNamespaces, ["System.Collections.Generic"]);
    var usingLines := EmitUsings(usings);
    var head := usingLines + ["", "namespace " + ns, "{", Pad(1) + "public sealed partial class " + className, Pad(1) + "{"];
    var section := EmitDataSection(className, groups, sel, 0, floatLiteral);
    var body := Indent(Unlines(section), 2);
    return Ok(Unlines(head) + body + Unlines([Pad(1) + "}", "}"]));
  }

  /**
   * When no line of the data section holds a line break, the data file is
   * the head, the data section written two levels deep, one blank line left
   * by Indent, and the closing braces.
   */
  lemma DataFileLayout(ns: string, usings: seq<string>, className: string, selection: seq<seq<string>>,
                       floatLiteral: string -> string)
    requires |selection| >= 3
    requires var section := DataSectionLines(className, Groups(selection[0], selection[1]), DataRows(selection), 0, floatLiteral);
      forall k :: 0 <= k < |section| ==> IsLine(section[k])
    ensures DataFileText(ns, usings, className, selection, floatLiteral)
      == Unlines(DataFileHead(ns, usings, className)
                 + DataSectionLines(className, Groups(selection[0], selection[1]), DataRows(selection), 2, floatLiteral)
                 + [""] + DataFileTail())
  {
    var groups := Groups(selection[0], selection[1]);
    var section := DataSectionLines(className, groups, DataRows(selection), 0, floatLiteral);
    var deep := DataSectionLines(className, groups, DataRows(selection), 2, floatLiteral);
    var head := DataFileHead(ns, usings, className);
    var tail := DataFileTail();
    IndentOfUnlines(section, 2);
    IndentDataSection(className, groups, DataRows(selection), 0, floatLiteral, 2);
    assert Unlines([""]) == "\n";
    UnlinesAppend(head, deep);
    UnlinesAppend(head + deep, [""]);
    UnlinesAppend(head + deep + [""], tail);
    AppendAssoc(Unlines(head), Unlines(deep), "\n");
  }

  // ---------------------------------------------------------------- binary builder file

  /** The namespaces the binary builder file always imports, in the order they are added. */
  const BinaryBuilderRequired: seq<string> :=
    ["System", "System.IO", "System.Collections.Generic", "MasterMemory", "MessagePack", "MessagePack.Resolvers"]

  /** The usings of the binary builder file: the given ones and the six it needs, each once. */
  function BinaryBuilderUsings(given: seq<string>): (r: seq<string>)
    ensures NoDuplicates(r)
  {
    Distinct(given + BinaryBuilderRequired)
  }

  /** The literal the generated BuildBinary falls back to when it gets no output path. */
  function OutputPathLiteral(className: string, defaultOutputPath: Option<string>): string {
    match defaultOutputPath
    case None => "\"Assets/Generated/" + className + ".bytes\""
    case Some(path) => StringLiteral(path)
  }

  /** The statement of the generated BuildBinary that supplies the fallback output path. */
  function OutputPathLine(className: string, defaultOutputPath: Option<string>): string {
    Pad(3) + "outputPath ??= " + OutputPathLiteral(className, defaultOutputPath) + ";"
  }

  /** The lines from the blank line after the usings down to the null check of `masters`. */
  function BinaryBuilderPreamble(ns: string, className: string): (r: seq<string>)
    ensures |r| == 14
  {
    [ "",
      "namespace " + ns,
      "{",
      Pad(1) + "public sealed partial class " + className,
      Pad(1) + "{",
      Pad(2) + "/// <summary>",
      Pad(2) + "/// " + className + " 配列から MasterMemory バイナリを生成し保存します。",
      Pad(2) + "/// </summary>",
      Pad(2) + "/// <param name=\"masters\">" + className + " 配列</param>",
      Pad(2) + "/// <param name=\"outputPath\">出力パス。未指定時はデフォルトパスが使用されます。</param>",
      Pad(2) + "/// <returns>生成されたバイナリ</returns>",
      Pad(2) + "public static byte[] BuildBinary(IEnumerable<" + className + "> masters, string outputPath = null)",
      Pad(2) + "{",
      Pad(3) + "if (masters == null) throw new ArgumentNullException(nameof(masters));" ]
  }

  /** The lines after the fallback path: serializer set-up, build, directory creation, write, return. */
  function BinaryBuilderEpilogue(): seq<string> {
    [ "",
      Pad(3) + "var messagePackResolvers = CompositeResolver.Create(",
      Pad(4) + "MasterMemoryResolver.Instance,",
      Pad(4) + "StandardResolver.Instance",
      Pad(3) + ");",
      Pad(3) + "var options = MessagePackSerializerOptions.Standard.WithResolver(messagePackResolvers);",
      Pad(3) + "MessagePackSerializer.DefaultOptions = options;",
      "",
      Pad(3) + "var builder = new DatabaseBuilder();",
      Pad(3) + "builder.Append(masters);",
      Pad(3) + "var binary = builder.Build();",
      "",
      Pad(3) + "var dir = Path.GetDirectoryName(outputPath);",
      Pad(3) + "if (!string.IsNullOrEmpty(dir)) Directory.CreateDirectory(dir);",
      Pad(3) + "File.WriteAllBytes(outputPath, binary);",
      "",
      Pad(3) + "return binary;",
      Pad(2) + "}",
      Pad(1) + "}",
      "}" ]
  }

  /** The lines after the usings. */
  function BinaryBuilderBody(ns: string, className: string, defaultOutputPath: Option<string>): seq<string> {
    BinaryBuilderPreamble(ns, className) + [OutputPathLine(className, defaultOutputPath)] + BinaryBuilderEpilogue()
  }

  /** BuildBinaryBuilderFile: the partial class whose BuildBinary serializes the masters and saves the binary. */
  method BuildBinaryBuilderFile(ns: string, usingNamespaces: seq<string>, className: string, defaultOutputPath: Option<string>)
    returns (text: string)
    ensures text == Unlines(UsingLines(BinaryBuilderUsings(usingNamespaces)) + BinaryBuilderBody(ns, className, defaultOutputPath))
  {
    var usings := UsingSet(usingNamespaces, BinaryBuilderRequired);
    var usingLines := EmitUsings(usings);
    text := Unlines(usingLines + BinaryBuilderBody(ns, className, defaultOutputPath));
  }

  /**
   * A given fallback path is written as an escaped literal that reads back as
   * that path; without one, the path under Assets/Generated named after the
   * class is written unescaped.
   */
  lemma OutputPathLiteralMeaning(className: string, defaultOutputPath: Option<string>)
    ensures defaultOutputPath.Some? ==>
      var literal := OutputPathLiteral(className, defaultOutputPath);
      && |literal| >= 2 && literal[0] == '"' && literal[|literal| - 1] == '"'
      && Unescape(literal[1..|literal| - 1]) == defaultOutputPath.value
    ensures defaultOutputPath.None? ==>
      OutputPathLiteral(className, defaultOutputPath) == "\"" + "Assets/Generated/" + className + ".bytes" + "\""
  {
    if defaultOutputPath.Some? {
      var literal := OutputPathLiteral(className, defaultOutputPath);
      var escaped := Escape(defaultOutputPath.value);
      assert literal == "\"" + escaped + "\"";
      assert literal[1..|literal| - 1] == escaped;
      EscapeRoundTrip(defaultOutputPath.value);
    }
  }
}
