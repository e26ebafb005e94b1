/**
 * MasterClassGenerator.Generate (CsvToSource): renders a plain class with
 * auto-properties and the enums it uses. Usings are de-duplicated and sorted
 * ordinally; the namespace wrapper is optional; every line is indented four
 * spaces per nesting level; one blank line separates consecutive properties;
 * each enum is preceded by a blank line.
 */
module MasterClassGenerator {
  import opened Text
  import opened Collections
  import opened Outcomes
  import EnumSourceGenerator

  /** A property as this generator consumes it; `attributes` is None for a null list. */
  datatype PropertyDefinition = PropertyDefinition(attributes: Option<seq<string>>, name: string, typeName: string)

  /** A class as this generator consumes it; `properties` is None for a null list. */
  datatype ClassDefinition = ClassDefinition(namespace: string, className: string, properties: Option<seq<PropertyDefinition>>)

  type EnumDefinition = EnumSourceGenerator.EnumDefinition

  // ---------------------------------------------------------------- indentation

  /** AppendIndentedLine: no padding at level 0, four spaces per level otherwise. */
  function IndentedLine(level: nat, text: string): (r: string)
    ensures r == Pad(level) + text
  {
    if level > 0 then Pad(level) + text
    else
      assert Pad(level) == [];
      text
  }

  /** Every line is empty or indented at least `level` levels. */
  predicate Nested(lines: seq<string>, level: nat) {
    forall k :: 0 <= k < |lines| ==> lines[k] == "" || StartsWith(lines[k], Pad(level))
  }

  /** A header line, then a brace-delimited body, all at `level`. */
  function Braced(header: string, body: seq<string>, level: nat): seq<string> {
    [Pad(level) + header, Pad(level) + "{"] + body + [Pad(level) + "}"]
  }

  /** Lines at lines[i] and lines[j] are a matching brace pair at `level` with everything between indented deeper. */
  predicate BracesMatch(lines: seq<string>, i: nat, j: nat, level: nat) {
    i < j < |lines|
    && lines[i] == Pad(level) + "{" && lines[j] == Pad(level) + "}"
    && forall k :: i < k < j ==> lines[k] == "" || StartsWith(lines[k], Pad(level + 1))
  }

  lemma PadPrefix(s: string, level: nat)
    requires StartsWith(s, Pad(level + 1))
    ensures StartsWith(s, Pad(level))
  {
    assert s[..|Pad(level)|] == s[..|Pad(level + 1)|][..|Pad(level)|];
  }

  lemma PadLine(level: nat, text: string)
    ensures StartsWith(Pad(level) + text, Pad(level))
  {
    assert (Pad(level) + text)[..|Pad(level)|] == Pad(level);
  }

  /** A braced block whose body is nested deeper is itself nested, and its braces match. */
  lemma BracedNested(header: string, body: seq<string>, level: nat)
    requires Nested(body, level + 1)
    ensures Nested(Braced(header, body, level), level)
    ensures BracesMatch(Braced(header, body, level), 1, |body| + 2, level)
  {
    var b := Braced(header, body, level);
    PadLine(level, header);
    PadLine(level, "{");
    PadLine(level, "}");
    forall k | 0 <= k < |b| ensures b[k] == "" || StartsWith(b[k], Pad(level)) {
      if 2 <= k < |body| + 2 {
        assert b[k] == body[k - 2];
        if body[k - 2] != "" {
          PadPrefix(body[k - 2], level);
        }
      }
    }
    forall k | 1 < k < |body| + 2 ensures b[k] == "" || StartsWith(b[k], Pad(level + 1)) {
      assert b[k] == body[k - 2];
    }
  }

  lemma NestedAppend(a: seq<string>, b: seq<string>, level: nat)
    requires Nested(a, level) && Nested(b, level)
    ensures Nested(a + b, level)
  {
    forall k | 0 <= k < |a + b| ensures (a + b)[k] == "" || StartsWith((a + b)[k], Pad(level)) {
      if k >= |a| {
        assert (a + b)[k] == b[k - |a|];
      }
    }
  }

  // ---------------------------------------------------------------- usings

  /** The set of kept usings in ordinal order. */
  function SortedUsings(usings: seq<string>): seq<string> {
    SortedSet(EnumSourceGenerator.NormalizedUsings(usings))
  }

  /** The using lines, then one blank line if there were any; nothing for a null list. */
  function UsingSection(usings: Option<seq<string>>): seq<string> {
    if usings.None? then []
    else
      var sorted := SortedUsings(usings.value);
      UsingLines(sorted) + (if sorted == [] then [] else [""])
  }

  /**
   * The using lines are in strictly increasing ordinal order, and a using line
   * for `u` is written exactly when `u` is one of the kept, normalised entries.
   */
  lemma UsingsSortedOnce(usings: seq<string>)
    ensures var sorted := SortedUsings(usings);
      StrictlySorted(sorted)
      && UsingLines(sorted) <= UsingSection(Some(usings))
      && (forall u :: ("using " + u + ";" in UsingSection(Some(usings)))
                        <==> (u in EnumSourceGenerator.NormalizedUsings(usings)))
  {
    var sorted := SortedUsings(usings);
    var normalized := EnumSourceGenerator.NormalizedUsings(usings);
    forall i, j | 0 <= i < j < |sorted| ensures sorted[i] != sorted[j] {
      OrdinalLessIrreflexive(sorted[i]);
    }
    UsingLinesDistinct(sorted);
    assert Elems(sorted) == Elems(normalized);
    forall u ensures "using " + u + ";" in UsingSection(Some(usings)) <==> u in normalized {
      assert u in sorted <==> u in Elems(sorted);
      assert "using " + u + ";" != "";
    }
  }

  /** The order and repetition of the caller's usings do not matter: only the set of kept entries does. */
  lemma UsingsOrderIndependent(a: seq<string>, b: seq<string>)
    requires Elems(EnumSourceGenerator.NormalizedUsings(a)) == Elems(EnumSourceGenerator.NormalizedUsings(b))
    ensures UsingSection(Some(a)) == UsingSection(Some(b))
  {
    StrictlySortedUnique(SortedUsings(a), SortedUsings(b));
  }

  // ---------------------------------------------------------------- properties

  /** An attribute trimmed, with one surrounding pair of brackets removed if present. */
  function AttributeText(attr: string): (r: string)
    ensures IsTrimmed(r)
  {
    var t := Trim(attr);
    if StartsWith(t, "[") && EndsWith(t, "]") then
      assert |t| >= 2 by {
        assert t[..1] == "[" && t[|t| - 1..] == "]";
        assert t[0] == '[' && t[|t| - 1] == ']';
      }
      Trim(t[1..|t| - 1])
    else t
  }

  /** Callers may write an attribute with or without its brackets: both give the same line. */
  lemma AttributeBracketsOptional(a: string)
    requires IsTrimmed(a) && a != []
    requires !(StartsWith(a, "[") && EndsWith(a, "]"))
    ensures AttributeText(a) == a
    ensures AttributeText("[" + a + "]") == a
  {
    TrimOfTrimmed(a);
    var w := "[" + a + "]";
    assert IsTrimmed(w);
    TrimOfTrimmed(w);
    assert StartsWith(w, "[") && EndsWith(w, "]");
    assert w[1..|w| - 1] == a;
  }

  function Bracketed(text: string): string {
    "[" + text + "]"
  }

  /** The attribute lines of one property: blank attributes skipped, each re-wrapped in brackets. */
  function AttributeLines(attrs: seq<string>, level: nat): (r: seq<string>)
    ensures forall k :: 0 <= k < |r| ==> StartsWith(r[k], Pad(level) + "[")
  {
    if attrs == [] then []
    else
      var a := attrs[|attrs| - 1];
      var line := Pad(level) + Bracketed(AttributeText(a));
      assert line[..|Pad(level) + "["|] == Pad(level) + "[";
      AttributeLines(attrs[..|attrs| - 1], level) + (if IsBlank(a) then [] else [line])
  }

  predicate IsKept(p: PropertyDefinition) {
    !IsBlank(p.name) && !IsBlank(p.typeName)
  }

  /** The properties with a non-blank name and type, in order. */
  function KeptProperties(ps: seq<PropertyDefinition>): (r: seq<PropertyDefinition>)
    ensures forall k :: 0 <= k < |r| ==> IsKept(r[k])
  {
    if ps == [] then []
    else KeptProperties(ps[..|ps| - 1]) + (if IsKept(ps[|ps| - 1]) then [ps[|ps| - 1]] else [])
  }

  function Declaration(p: PropertyDefinition): string {
    "public " + p.typeName + " " + p.name + " { get; set; }"
  }

  /** One property: its attribute lines, then its declaration. */
  function PropertyBlock(p: PropertyDefinition, level: nat): seq<string> {
    AttributeLines(p.attributes.GetOr([]), level) + [Pad(level) + Declaration(p)]
  }

  function PropertyBlocks(ps: seq<PropertyDefinition>, level: nat): (r: seq<seq<string>>)
    ensures |r| == |ps| && forall k :: 0 <= k < |ps| ==> r[k] == PropertyBlock(ps[k], level)
  {
    seq(|ps|, k requires 0 <= k < |ps| => PropertyBlock(ps[k], level))
  }

  /** The property blocks with one blank line between consecutive blocks. */
  function PropertySection(ps: seq<PropertyDefinition>, level: nat): seq<string> {
    JoinWith(PropertyBlocks(ps, level), [""])
  }

  /** The section grows by a blank line and one block per further property. */
  lemma PropertySectionSnoc(ps: seq<PropertyDefinition>, level: nat)
    requires ps != []
    ensures |ps| == 1 ==> PropertySection(ps, level) == PropertyBlock(ps[0], level)
    ensures |ps| > 1 ==> PropertySection(ps, level)
                         == PropertySection(ps[..|ps| - 1], level) + [""] + PropertyBlock(ps[|ps| - 1], level)
  {
    var blocks := PropertyBlocks(ps, level);
    assert blocks[..|ps| - 1] == PropertyBlocks(ps[..|ps| - 1], level);
  }

  /** No line of a property block is blank; its last line is the declaration. */
  lemma PropertyBlockShape(p: PropertyDefinition, level: nat)
    ensures forall k :: 0 <= k < |PropertyBlock(p, level)| ==> PropertyBlock(p, level)[k] != ""
    ensures PropertyBlock(p, level)[|PropertyBlock(p, level)| - 1] == Pad(level) + Declaration(p)
  {
    var attrs := AttributeLines(p.attributes.GetOr([]), level);
    forall k | 0 <= k < |attrs| ensures attrs[k] != "" {
      assert StartsWith(attrs[k], Pad(level) + "[");
    }
  }

  /** Exactly one blank line separates two runs of properties, and none follows the last one. */
  lemma PropertySectionJoin(a: seq<PropertyDefinition>, b: seq<PropertyDefinition>, level: nat)
    requires a != [] && b != []
    ensures PropertySection(a + b, level) == PropertySection(a, level) + [""] + PropertySection(b, level)
  {
    assert PropertyBlocks(a + b, level) == PropertyBlocks(a, level) + PropertyBlocks(b, level);
    JoinWithAppend(PropertyBlocks(a, level), PropertyBlocks(b, level), [""]);
  }

  /** Every line of the property section is empty or indented `level` levels. */
  lemma {:induction false} PropertySectionNested(ps: seq<PropertyDefinition>, level: nat)
    ensures Nested(PropertySection(ps, level), level)
  {
    if ps != [] {
      var p := ps[|ps| - 1];
      var block := PropertyBlock(p, level);
      var attrs := AttributeLines(p.attributes.GetOr([]), level);
      assert Nested(block, level) by {
        forall k | 0 <= k < |block| ensures block[k] == "" || StartsWith(block[k], Pad(level)) {
          if k < |attrs| {
            assert StartsWith(attrs[k], Pad(level) + "[");
            assert attrs[k][..|Pad(level)|] == attrs[k][..|Pad(level) + "["|][..|Pad(level)|];
          } else {
            PadLine(level, Declaration(p));
          }
        }
      }
      PropertySectionSnoc(ps, level);
      if |ps| > 1 {
        PropertySectionNested(ps[..|ps| - 1], level);
        NestedAppend(PropertySection(ps[..|ps| - 1], level), [""], level);
        NestedAppend(PropertySection(ps[..|ps| - 1], level) + [""], block, level);
      }
    }
  }

  // ---------------------------------------------------------------- enums

  /** The enums with a non-blank name, in order. */
  function KeptEnums(es: seq<EnumDefinition>): (r: seq<EnumDefinition>)
    ensures forall k :: 0 <= k < |r| ==> !IsBlank(r[k].name)
  {
    if es == [] then []
    else KeptEnums(es[..|es| - 1]) + (if IsBlank(es[|es| - 1].name) then [] else [es[|es| - 1]])
  }

  /** The non-blank members an enum's enumerator yields, trimmed. */
  function Members(e: EnumDefinition): seq<string> {
    EnumSourceGenerator.KeptMembers(e.members.GetOr([]))
  }

  /** One enum: a blank line, then its declaration with one member per line one level deeper. */
  function EnumBlock(e: EnumDefinition, level: nat): seq<string> {
    [""] + Braced("public enum " + e.name, MemberLines(Members(e), level + 1), level)
  }

  function EnumSection(es: seq<EnumDefinition>, level: nat): seq<string> {
    if es == [] then []
    else EnumSection(es[..|es| - 1], level) + EnumBlock(es[|es| - 1], level)
  }

  lemma MemberLinesNested(members: seq<string>, level: nat)
    ensures Nested(MemberLines(members, level), level)
  {
    var lines := MemberLines(members, level);
    forall k | 0 <= k < |lines| ensures lines[k] == "" || StartsWith(lines[k], Pad(level)) {
      var comma := if k < |members| - 1 then "," else "";
      assert lines[k] == Pad(level) + (members[k] + comma);
      PadLine(level, members[k] + comma);
    }
  }

  /** Each enum's braces match, with its members one level deeper; the enum section is nested at `level`. */
  lemma {:induction false} EnumSectionNested(es: seq<EnumDefinition>, level: nat)
    ensures Nested(EnumSection(es, level), level)
    ensures forall k :: 0 <= k < |es| ==> BracesMatch(EnumBlock(es[k], level), 2, |Members(es[k])| + 3, level)
  {
    forall k | 0 <= k < |es| ensures BracesMatch(EnumBlock(es[k], level), 2, |Members(es[k])| + 3, level) {
      var body := MemberLines(Members(es[k]), level + 1);
      MemberLinesNested(Members(es[k]), level + 1);
      BracedNested("public enum " + es[k].name, body, level);
      var b := Braced("public enum " + es[k].name, body, level);
      assert EnumBlock(es[k], level) == [""] + b;
    }
    if es != [] {
      var e := es[|es| - 1];
      var body := MemberLines(Members(e), level + 1);
      MemberLinesNested(Members(e), level + 1);
      BracedNested("public enum " + e.name, body, level);
      EnumSectionNested(es[..|es| - 1], level);
      NestedAppend([""], Braced("public enum " + e.name, body, level), level);
      NestedAppend(EnumSection(es[..|es| - 1], level), EnumBlock(e, level), level);
    }
  }

  // ---------------------------------------------------------------- the whole file

  /** The class block and the enum section, at the class's nesting level. */
  function ClassAndEnums(cd: ClassDefinition, enums: Option<seq<EnumDefinition>>, level: nat): seq<string> {
    var props := if cd.properties.Some? then KeptProperties(cd.properties.value) else [];
    var es := if enums.Some? then KeptEnums(enums.value) else [];
    Braced("public class " + cd.className, PropertySection(props, level + 1), level) + EnumSection(es, level)
  }

  /** The lines Generate writes for a definition with a non-blank class name. */
  function GenerateLines(usings: Option<seq<string>>, cd: ClassDefinition, enums: Option<seq<EnumDefinition>>): seq<string> {
    if IsBlank(cd.namespace) then UsingSection(usings) + ClassAndEnums(cd, enums, 0)
    else UsingSection(usings) + Braced("namespace " + cd.namespace, ClassAndEnums(cd, enums, 1), 0)
  }

  function KeptOf(cd: ClassDefinition): seq<PropertyDefinition> {
    if cd.properties.Some? then KeptProperties(cd.properties.value) else []
  }

  /** The class's braces match with its properties deeper, and the class and enums are nested at `level`. */
  lemma ClassAndEnumsBraces(cd: ClassDefinition, enums: Option<seq<EnumDefinition>>, level: nat)
    ensures Nested(ClassAndEnums(cd, enums, level), level)
    ensures BracesMatch(ClassAndEnums(cd, enums, level), 1, |PropertySection(KeptOf(cd), level + 1)| + 2, level)
  {
    var es := if enums.Some? then KeptEnums(enums.value) else [];
    var section := PropertySection(KeptOf(cd), level + 1);
    PropertySectionNested(KeptOf(cd), level + 1);
    var classBlock := Braced("public class " + cd.className, section, level);
    BracedNested("public class " + cd.className, section, level);
    EnumSectionNested(es, level);
    NestedAppend(classBlock, EnumSection(es, level), level);
    MatchPrefix(classBlock, EnumSection(es, level), 1, |section| + 2, level);
  }

  /**
   * Braces are balanced: the class braces match at the class's level with the
   * properties deeper, and, when a namespace is written, its braces enclose
   * everything after the usings with all of it indented at least one level.
   */
  lemma GenerateBraces(usings: Option<seq<string>>, cd: ClassDefinition, enums: Option<seq<EnumDefinition>>)
    ensures var lines := GenerateLines(usings, cd, enums);
      var u := |UsingSection(usings)|;
      var p := |PropertySection(KeptOf(cd), 0)|;
      (IsBlank(cd.namespace) ==> BracesMatch(lines, u + 1, u + p + 2, 0))
      && (!IsBlank(cd.namespace) ==> BracesMatch(lines, u + 1, |lines| - 1, 0) && BracesMatch(lines, u + 3, u + p + 4, 1))
  {
    var head := UsingSection(usings);
    var level := if IsBlank(cd.namespace) then 0 else 1;
    var section := PropertySection(KeptOf(cd), level + 1);
    SectionLength(KeptOf(cd), level + 1, 0);
    var inner := ClassAndEnums(cd, enums, level);
    ClassAndEnumsBraces(cd, enums, level);
    if IsBlank(cd.namespace) {
      MatchShift(head, inner, 1, |section| + 2, 0);
    } else {
      NamespaceBraces(head, "namespace " + cd.namespace, inner, |section| + 2);
    }
  }

  lemma NamespaceBraces(head: seq<string>, header: string, inner: seq<string>, j: nat)
    requires Nested(inner, 1) && BracesMatch(inner, 1, j, 1)
    ensures var lines := head + Braced(header, inner, 0);
      BracesMatch(lines, |head| + 1, |lines| - 1, 0) && BracesMatch(lines, |head| + 3, |head| + j + 2, 1)
  {
    BracedNested(header, inner, 0);
    var wrapped := Braced(header, inner, 0);
    MatchShift(head, wrapped, 1, |inner| + 2, 0);
    var open := [Pad(0) + header, Pad(0) + "{"];
    MatchShift(open, inner, 1, j, 1);
    assert wrapped == (open + inner) + [Pad(0) + "}"];
    MatchPrefix(open + inner, [Pad(0) + "}"], 3, j + 2, 1);
    MatchShift(head, wrapped, 3, j + 2, 1);
  }

  /** The property section's length does not depend on its indentation. */
  lemma {:induction false} SectionLength(ps: seq<PropertyDefinition>, l1: nat, l2: nat)
    ensures |PropertySection(ps, l1)| == |PropertySection(ps, l2)|
  {
    if |ps| > 1 {
      SectionLength(ps[..|ps| - 1], l1, l2);
    }
    if ps != [] {
      PropertySectionSnoc(ps, l1);
      PropertySectionSnoc(ps, l2);
      AttributeCount(ps[|ps| - 1].attributes.GetOr([]), l1, l2);
    }
  }

  lemma {:induction false} AttributeCount(attrs: seq<string>, l1: nat, l2: nat)
    ensures |AttributeLines(attrs, l1)| == |AttributeLines(attrs, l2)|
  {
    if attrs != [] {
      AttributeCount(attrs[..|attrs| - 1], l1, l2);
    }
  }

  lemma MatchPrefix(a: seq<string>, b: seq<string>, i: nat, j: nat, level: nat)
    requires BracesMatch(a, i, j, level)
    ensures BracesMatch(a + b, i, j, level)
  {
    forall k | i < k < j ensures (a + b)[k] == "" || StartsWith((a + b)[k], Pad(level + 1)) {
      assert (a + b)[k] == a[k];
    }
  }

  lemma MatchShift(a: seq<string>, b: seq<string>, i: nat, j: nat, level: nat)
    requires BracesMatch(b, i, j, level)
    ensures BracesMatch(a + b, |a| + i, |a| + j, level)
  {
    forall k | |a| + i < k < |a| + j ensures (a + b)[k] == "" || StartsWith((a + b)[k], Pad(level + 1)) {
      assert (a + b)[k] == b[k - |a|];
    }
  }

  // ---------------------------------------------------------------- the generator

  /** The sorted using lines and the blank line after them. */
  method EmitUsingSection(usings: seq<string>) returns (lines: seq<string>)
    ensures lines == UsingSection(Some(usings))
  {
    var seen := EnumSourceGenerator.CollectUsings(usings);
    var sorted := SortedSet(seen);
    assert sorted == SortedUsings(usings) by {
      StrictlySortedUnique(sorted, SortedUsings(usings));
    }
    lines := [];
    for k := 0 to |sorted|
      invariant lines == UsingLines(sorted[..k])
    {
      assert sorted[..k + 1][..k] == sorted[..k];
      lines := lines + [IndentedLine(0, "using " + sorted[k] + ";")];
    }
    assert sorted[..|sorted|] == sorted;
    if |seen| > 0 {
      lines := lines + [""];
    }
  }

  /** One attribute: trimmed, and one outer pair of brackets removed if it has one. */
  method StripBrackets(attr: string) returns (trimmed: string)
    ensures trimmed == AttributeText(attr)
  {
    trimmed := Trim(attr);
    if StartsWith(trimmed, "[") && EndsWith(trimmed, "]") {
      trimmed := Trim(trimmed[1..|trimmed| - 1]);
    }
  }

  /** The attribute loop of one property. */
  method EmitAttributes(attrs: seq<string>, level: nat) returns (lines: seq<string>)
    ensures lines == AttributeLines(attrs, level)
  {
    lines := [];
    for k := 0 to |attrs|
      invariant lines == AttributeLines(attrs[..k], level)
    {
      assert attrs[..k + 1][..k] == attrs[..k];
      var attr := attrs[k];
      if IsBlank(attr) {
        assert AttributeLines(attrs[..k + 1], level) == AttributeLines(attrs[..k], level) + [];
        continue;
      }
      var trimmed := StripBrackets(attr);
      lines := lines + [IndentedLine(level, Bracketed(trimmed))];
    }
    assert attrs[..|attrs|] == attrs;
  }

  /** One property: its attributes, then its declaration. */
  method EmitProperty(prop: PropertyDefinition, level: nat) returns (lines: seq<string>)
    ensures lines == PropertyBlock(prop, level)
  {
    lines := [];
    if prop.attributes.Some? {
      lines := EmitAttributes(prop.attributes.value, level);
    }
    lines := lines + [IndentedLine(level, Declaration(prop))];
  }

  /** The property loop: a blank line after every kept property but the last. */
  method EmitProperties(properties: seq<PropertyDefinition>, level: nat) returns (lines: seq<string>)
    ensures lines == PropertySection(KeptProperties(properties), level)
  {
    var props := KeptProperties(properties);
    lines := [];
    for i := 0 to |props|
      invariant lines == if i == 0 then [] else PropertySection(props[..i], level) + (if i < |props| then [""] else [])
    {
      var prop := props[i];
      assert props[..i + 1][..i] == props[..i];
      var block := EmitProperty(prop, level);
      lines := lines + block;
      assert lines == (if i == 0 then [] else PropertySection(props[..i], level) + [""]) + PropertyBlock(prop, level);
      assert lines == PropertySection(props[..i + 1], level) by {
        PropertySectionSnoc(props[..i + 1], level);
        assert props[..i + 1][i] == prop;
      }
      if i < |props| - 1 {
        lines := lines + [""];
      }
    }
    assert props[..|props|] == props;
  }

  /** The members an enum's enumerator yields, blank ones skipped, the others trimmed. */
  method CollectMembers(members: Option<seq<string>>) returns (kept: seq<string>)
    ensures kept == EnumSourceGenerator.KeptMembers(members.GetOr([]))
  {
    kept := [];
    if members.Some? {
      var ms := members.value;
      for k := 0 to |ms|
        invariant kept == EnumSourceGenerator.KeptMembers(ms[..k])
      {
        EnumSourceGenerator.KeptMembersSnoc(ms, k);
        if !IsBlank(ms[k]) {
          kept := kept + [Trim(ms[k])];
        } else {
          assert EnumSourceGenerator.KeptMembers(ms[..k + 1]) == kept + [];
        }
      }
      assert ms[..|ms|] == ms;
    }
  }

  /** One enum declaration, after its blank line. */
  method EmitEnum(e: EnumDefinition, level: nat) returns (lines: seq<string>)
    ensures lines == EnumBlock(e, level)
  {
    var members := CollectMembers(e.members);
    lines := ["", IndentedLine(level, "public enum " + e.name), IndentedLine(level, "{")];
    ghost var head := lines;
    for mi := 0 to |members|
      invariant lines == head + MemberLines(members, level + 1)[..mi]
    {
      var suffix := if mi < |members| - 1 then "," else "";
      PrefixSnoc(MemberLines(members, level + 1), mi);
      assert MemberLines(members, level + 1)[mi] == Pad(level + 1) + (members[mi] + suffix);
      lines := lines + [IndentedLine(level + 1, members[mi] + suffix)];
    }
    assert MemberLines(members, level + 1)[..|members|] == MemberLines(members, level + 1);
    lines := lines + [IndentedLine(level, "}")];
  }

  /** The enum loop over the enums with a non-blank name. */
  method EmitEnums(enums: seq<EnumDefinition>, level: nat) returns (lines: seq<string>)
    ensures lines == EnumSection(KeptEnums(enums), level)
  {
    var es := KeptEnums(enums);
    lines := [];
    for i := 0 to |es|
      invariant lines == EnumSection(es[..i], level)
    {
      assert es[..i + 1][..i] == es[..i];
      var block := EmitEnum(es[i], level);
      lines := lines + block;
    }
    assert es[..|es|] == es;
  }

  /** The class block, its properties one level deeper, then the enums, all from nesting level `indent`. */
  method EmitClassAndEnums(cd: ClassDefinition, enumDefinitions: Option<seq<EnumDefinition>>, level: nat)
    returns (lines: seq<string>)
    ensures lines == ClassAndEnums(cd, enumDefinitions, level)
  {
    var indent := level;
    var classOpen := [IndentedLine(indent, "public class " + cd.className), IndentedLine(indent, "{")];
    indent := indent + 1;
    var props: seq<string> := [];
    if cd.properties.Some? {
      props := EmitProperties(cd.properties.value, indent);
    }
    indent := indent - 1;
    var classClose := [IndentedLine(indent, "}")];
    var enums: seq<string> := [];
    if enumDefinitions.Some? {
      enums := EmitEnums(enumDefinitions.value, indent);
    }
    lines := classOpen + props + classClose + enums;
  }

  /** MasterClassGenerator.Generate */
  method Generate(usingNamespaces: Option<seq<string>>, classDefinition: Option<ClassDefinition>,
                  enumDefinitions: Option<seq<EnumDefinition>>) returns (result: Result<string>)
    ensures classDefinition.None? ==> result == Err(ArgumentNull("classDefinition"))
    ensures classDefinition.Some? && IsBlank(classDefinition.value.className) ==>
              result == Err(Argument("classDefinition"))
    ensures classDefinition.Some? && !IsBlank(classDefinition.value.className) ==>
              result == Ok(Unlines(GenerateLines(usingNamespaces, classDefinition.value, enumDefinitions)))
  {
    if classDefinition.None? {
      return Err(ArgumentNull("classDefinition"));
    }
    var cd := classDefinition.value;
    if IsBlank(cd.className) {
      return Err(Argument("classDefinition"));
    }
    var indent: nat := 0;
    var head: seq<string> := [];
    if usingNamespaces.Some? {
      head := EmitUsingSection(usingNamespaces.value);
    }
    var hasNamespace := !IsBlank(cd.namespace);
    var open: seq<string> := [];
    if hasNamespace {
      open := [IndentedLine(indent, "namespace " + cd.namespace), IndentedLine(indent, "{")];
      indent := indent + 1;
    }
    var body := EmitClassAndEnums(cd, enumDefinitions, indent);
    if hasNamespace {
      indent := indent - 1;
      body := open + body + [IndentedLine(indent, "}")];
    }
    var lines := head + body;
    return Ok(Unlines(lines));
  }
}
