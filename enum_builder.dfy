/**
 * EnumBuilder.Build: renders an EnumDefinition as C# source. The using
 * lines come first and are followed by a blank line only when there are
 * any; then the namespace, the enum attributes at level 1, the enum, and for
 * every member its attributes at level 2 and `Name = Value`, with a comma
 * after every member but the last.
 */
module EnumBuilder {
  import opened Text
  import opened Collections
  import Definitions

  /** The state of one EnumMemberDefinition as Build reads it. */
  datatype Member = Member(attributes: seq<string>, name: string, value: string)

  /** The state of an EnumDefinition as Build reads it. */
  datatype EnumShape = EnumShape(usings: seq<string>, namespace: string, attributes: seq<string>, name: string, members: seq<Member>)

  function MemberOf(m: Definitions.EnumMemberDefinition): Member
    reads m
  {
    Member(m.attributes, m.name, m.value)
  }

  function MembersOf(ms: seq<Definitions.EnumMemberDefinition>): (r: seq<Member>)
    reads ms
    ensures |r| == |ms| && forall k :: 0 <= k < |ms| ==> r[k] == MemberOf(ms[k])
  {
    if ms == [] then [] else MembersOf(ms[..|ms| - 1]) + [MemberOf(ms[|ms| - 1])]
  }

  function ShapeOf(ed: Definitions.EnumDefinition): EnumShape
    reads ed, ed.members
  {
    EnumShape(ed.usingNamespaces, ed.namespace, ed.attributes, ed.name, MembersOf(ed.members))
  }

  // ---------------------------------------------------------------- the lines

  /** `Name = Value`, followed by a comma unless it is the last member. */
  function MemberLine(m: Member, last: bool): string {
    Pad(2) + m.name + " = " + m.value + (if last then "" else ",")
  }

  /** Member i: its attribute lines, then its line. */
  function MemberBlock(ms: seq<Member>, i: nat): seq<string>
    requires i < |ms|
  {
    BracketedLines(ms[i].attributes, 2) + [MemberLine(ms[i], i == |ms| - 1)]
  }

  /** The blocks of the first n members. */
  function MemberBlocks(ms: seq<Member>, n: nat): seq<string>
    requires n <= |ms|
  {
    if n == 0 then [] else MemberBlocks(ms, n - 1) + MemberBlock(ms, n - 1)
  }

  function UsingSection(usings: seq<string>): seq<string> {
    UsingLines(usings) + (if |usings| > 0 then [""] else [])
  }

  function EnumHead(e: EnumShape): seq<string> {
    UsingSection(e.usings) + ["namespace " + e.namespace, "{"]
      + BracketedLines(e.attributes, 1) + [Pad(1) + "public enum " + e.name, Pad(1) + "{"]
  }

  /**
   * The lines Build appends. The usings open the text, with a blank line
   * after them exactly when there are any; the namespace line and its brace
   * are always written; the text always closes the enum and then the namespace.
   */
  function EnumLines(e: EnumShape): (r: seq<string>)
    ensures var u := |e.usings| + (if |e.usings| > 0 then 1 else 0);
      |r| >= u + 4
      && r[..|e.usings|] == UsingLines(e.usings)
      && (|e.usings| > 0 ==> r[|e.usings|] == "")
      && r[u] == "namespace " + e.namespace && r[u + 1] == "{"
      && r[|r| - 2..] == [Pad(1) + "}", "}"]
  {
    EnumHead(e) + MemberBlocks(e.members, |e.members|) + [Pad(1) + "}", "}"]
  }

  // ---------------------------------------------------------------- reading the members back

  /** A line at member indentation that is not an attribute. */
  predicate IsMemberLine(line: string) {
    StartsWith(line, Pad(2)) && !StartsWith(line, Pad(2) + "[")
  }

  lemma NotMemberLine(line: string, i: nat)
    requires i < |line| && i < 8 && line[i] != ' '
    ensures !IsMemberLine(line)
  {
    assert Pad(2)[i] == ' ';
  }

  lemma AttributesNotMembers(attrs: seq<string>, level: nat)
    requires 1 <= level <= 2
    ensures Filter(BracketedLines(attrs, level), IsMemberLine) == []
  {
    var lines := BracketedLines(attrs, level);
    forall k | 0 <= k < |lines| ensures !IsMemberLine(lines[k]) {
      if level == 1 {
        assert lines[k][4] == '[';
        NotMemberLine(lines[k], 4);
      } else {
        var p := Pad(2) + "[";
        assert lines[k] == p + (attrs[k] + "]");
        assert lines[k][..|p|] == p;
      }
    }
    FilterNone(lines, IsMemberLine);
  }

  lemma HeadNotMembers(e: EnumShape)
    ensures Filter(EnumHead(e), IsMemberLine) == []
  {
    var u := UsingSection(e.usings);
    forall k | 0 <= k < |u| ensures !IsMemberLine(u[k]) {
      if u[k] != "" {
        NotMemberLine(u[k], 0);
      }
    }
    FilterNone(u, IsMemberLine);
    var mid := ["namespace " + e.namespace, "{"];
    NotMemberLine(mid[0], 0);
    NotMemberLine(mid[1], 0);
    FilterNone(mid, IsMemberLine);
    AttributesNotMembers(e.attributes, 1);
    var tail := [Pad(1) + "public enum " + e.name, Pad(1) + "{"];
    NotMemberLine(tail[0], 4);
    NotMemberLine(tail[1], 4);
    FilterNone(tail, IsMemberLine);
    FilterAppend(u, mid, IsMemberLine);
    FilterAppend(u + mid, BracketedLines(e.attributes, 1), IsMemberLine);
    FilterAppend(u + mid + BracketedLines(e.attributes, 1), tail, IsMemberLine);
  }

  lemma MemberLineIs(m: Member, last: bool)
    requires !StartsWith(m.name, "[")
    ensures IsMemberLine(MemberLine(m, last))
  {
    var line := MemberLine(m, last);
    var rest := m.name + " = " + m.value + (if last then "" else ",");
    assert line == Pad(2) + rest;
    assert line[..8] == Pad(2);
    assert line[8] == if m.name == [] then ' ' else m.name[0];
    if m.name != [] {
      assert m.name[..1] == [m.name[0]];
    }
    NotPrefixAt(line, Pad(2) + "[", 8);
  }

  lemma MemberBlockLine(ms: seq<Member>, i: nat)
    requires i < |ms| && !StartsWith(ms[i].name, "[")
    ensures Filter(MemberBlock(ms, i), IsMemberLine) == [MemberLine(ms[i], i == |ms| - 1)]
  {
    var line := MemberLine(ms[i], i == |ms| - 1);
    AttributesNotMembers(ms[i].attributes, 2);
    MemberLineIs(ms[i], i == |ms| - 1);
    FilterAppend(BracketedLines(ms[i].attributes, 2), [line], IsMemberLine);
    assert Filter([line], IsMemberLine) == Filter([], IsMemberLine) + [line];
  }

  /** The member lines in order, the comma rule applied by position. */
  function Commas(ms: seq<Member>, n: nat): seq<string>
    requires n <= |ms|
  {
    if n == 0 then [] else Commas(ms, n - 1) + [MemberLine(ms[n - 1], n - 1 == |ms| - 1)]
  }

  lemma {:induction false} CommasAt(ms: seq<Member>, n: nat)
    requires n <= |ms|
    ensures |Commas(ms, n)| == n && forall i :: 0 <= i < n ==> Commas(ms, n)[i] == MemberLine(ms[i], i == |ms| - 1)
  {
    if n > 0 {
      CommasAt(ms, n - 1);
    }
  }

  lemma {:induction false} BlocksMembers(ms: seq<Member>, n: nat)
    requires n <= |ms| && forall i :: 0 <= i < |ms| ==> !StartsWith(ms[i].name, "[")
    ensures Filter(MemberBlocks(ms, n), IsMemberLine) == Commas(ms, n)
  {
    if n > 0 {
      BlocksMembers(ms, n - 1);
      BlockStep(ms, n);
    }
  }

  lemma BlockStep(ms: seq<Member>, n: nat)
    requires 0 < n <= |ms| && !StartsWith(ms[n - 1].name, "[")
    requires Filter(MemberBlocks(ms, n - 1), IsMemberLine) == Commas(ms, n - 1)
    ensures Filter(MemberBlocks(ms, n), IsMemberLine) == Commas(ms, n)
  {
    MemberBlockLine(ms, n - 1);
    FilterAppend(MemberBlocks(ms, n - 1), MemberBlock(ms, n - 1), IsMemberLine);
  }

  /**
   * The member lines of the generated enum are, in order, `Name = Value` of
   * every member with a comma after each but the last (for member names that
   * do not themselves start with an attribute bracket).
   */
  lemma MembersReadBack(e: EnumShape)
    requires forall i :: 0 <= i < |e.members| ==> !StartsWith(e.members[i].name, "[")
    ensures var r := Filter(EnumLines(e), IsMemberLine);
      |r| == |e.members|
      && (forall i :: 0 <= i < |r| - 1 ==> r[i] == Pad(2) + e.members[i].name + " = " + e.members[i].value + ",")
      && (|r| > 0 ==> r[|r| - 1] == Pad(2) + e.members[|r| - 1].name + " = " + e.members[|r| - 1].value)
  {
    MembersFiltered(e);
    CommasAt(e.members, |e.members|);
  }

  lemma MembersFiltered(e: EnumShape)
    requires forall i :: 0 <= i < |e.members| ==> !StartsWith(e.members[i].name, "[")
    ensures Filter(EnumLines(e), IsMemberLine) == Commas(e.members, |e.members|)
  {
    var head, blocks, tail := EnumHead(e), MemberBlocks(e.members, |e.members|), [Pad(1) + "}", "}"];
    assert EnumLines(e) == head + blocks + tail;
    HeadNotMembers(e);
    BlocksMembers(e.members, |e.members|);
    NotMemberLine(tail[0], 4);
    NotMemberLine(tail[1], 0);
    FilterNone(tail, IsMemberLine);
    FilterAppend(head, blocks, IsMemberLine);
    FilterAppend(head + blocks, tail, IsMemberLine);
    assert Filter(head + blocks, IsMemberLine) == Commas(e.members, |e.members|);
  }

  // ---------------------------------------------------------------- Build

  method Build(enumDef: Definitions.EnumDefinition) returns (text: string)
    ensures text == Unlines(EnumLines(ShapeOf(enumDef)))
  {
    ghost var e := ShapeOf(enumDef);
    var usings := EmitUsings(enumDef.usingNamespaces);
    if |enumDef.usingNamespaces| > 0 {
      usings := usings + [""];
    }
    var attributes := EmitBracketed(enumDef.attributes, 1);
    var head := usings + ["namespace " + enumDef.namespace, "{"] + attributes
      + [Pad(1) + "public enum " + enumDef.name, Pad(1) + "{"];
    assert head == EnumHead(e);
    var body := AppendMembers(enumDef.members);
    var sb := head + body + [Pad(1) + "}", "}"];
    text := Unlines(sb);
  }

  /** The for loop over the members. */
  method AppendMembers(members: seq<Definitions.EnumMemberDefinition>) returns (sb: seq<string>)
    ensures sb == MemberBlocks(MembersOf(members), |members|)
  {
    ghost var ms := MembersOf(members);
    sb := [];
    for i := 0 to |members|
      invariant sb == MemberBlocks(ms, i)
    {
      var member := MemberOf(members[i]);
      var attributes := EmitBracketed(member.attributes, 2);
      var comma := if i < |members| - 1 then "," else "";
      sb := sb + (attributes + [Pad(2) + member.name + " = " + member.value + comma]);
    }
  }
}
