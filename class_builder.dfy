/**
 * ClassBuilder.Build: renders a ClassDefinition as C# source. The using
 * lines come first, then always one blank line, the namespace, the class
 * attributes at level 1, the class, and for every field its attributes at
 * level 2, its auto-property and a blank line.
 */
module ClassBuilder {
  import opened Text
  import opened Collections
  import Definitions

  /** The state of one PropertyDefinition as Build reads it. */
  datatype Field = Field(attributes: seq<string>, typeName: string, name: string)

  /** The state of a ClassDefinition as Build reads it. */
  datatype ClassShape = ClassShape(usings: seq<string>, namespace: string, attributes: seq<string>, name: string, fields: seq<Field>)

  function FieldOf(p: Definitions.PropertyDefinition): Field
    reads p
  {
    Field(p.attributes, p.typeName, p.name)
  }

  function FieldsOf(ps: seq<Definitions.PropertyDefinition>): (r: seq<Field>)
    reads ps
    ensures |r| == |ps| && forall k :: 0 <= k < |ps| ==> r[k] == FieldOf(ps[k])
  {
    if ps == [] then [] else FieldsOf(ps[..|ps| - 1]) + [FieldOf(ps[|ps| - 1])]
  }

  function ShapeOf(cd: Definitions.ClassDefinition): ClassShape
    reads cd, cd.fields
  {
    ClassShape(cd.usingNamespaces, cd.namespace, cd.attributes, cd.name, FieldsOf(cd.fields))
  }

  // ---------------------------------------------------------------- the lines

  function Declaration(f: Field): string {
    Pad(2) + "public " + f.typeName + " " + f.name + " { get; set; }"
  }

  /** One field: its attribute lines, its declaration, a blank line. */
  function FieldLines(f: Field): seq<string> {
    BracketedLines(f.attributes, 2) + [Declaration(f), ""]
  }

  function FieldsLines(fs: seq<Field>): seq<string> {
    if fs == [] then [] else FieldsLines(fs[..|fs| - 1]) + FieldLines(fs[|fs| - 1])
  }

  function ClassHead(c: ClassShape): seq<string> {
    UsingLines(c.usings) + ["", "namespace " + c.namespace, "{"]
      + BracketedLines(c.attributes, 1) + [Pad(1) + "public class " + c.name, Pad(1) + "{"]
  }

  /**
   * The lines Build appends. The usings open the text and are followed by a
   * blank line even when there are none; the text always closes the class
   * and then the namespace.
   */
  function ClassLines(c: ClassShape): (r: seq<string>)
    ensures |r| >= |c.usings| + 3
    ensures r[..|c.usings|] == UsingLines(c.usings)
    ensures r[|c.usings|] == "" && r[|c.usings| + 1] == "namespace " + c.namespace && r[|c.usings| + 2] == "{"
    ensures r[|r| - 2..] == [Pad(1) + "}", "}"]
  {
    ClassHead(c) + FieldsLines(c.fields) + [Pad(1) + "}", "}"]
  }

  // ---------------------------------------------------------------- reading the declarations back

  predicate IsDeclaration(line: string) {
    StartsWith(line, Pad(2) + "public ")
  }

  /** A line whose character at `i` is not part of the declaration prefix is no declaration. */
  lemma NotDeclaration(line: string, i: nat)
    requires i < |line| && i < |Pad(2) + "public "| && line[i] != (Pad(2) + "public ")[i]
    ensures !IsDeclaration(line)
  {
  }

  lemma DeclarationIs(f: Field)
    ensures IsDeclaration(Declaration(f))
  {
    var p := Pad(2) + "public ";
    assert Declaration(f) == p + (f.typeName + " " + f.name + " { get; set; }");
    assert Declaration(f)[..|p|] == p;
  }

  lemma AttributesNotDeclarations(attrs: seq<string>, level: nat)
    requires level <= 2
    ensures Filter(BracketedLines(attrs, level), IsDeclaration) == []
  {
    var lines := BracketedLines(attrs, level);
    forall k | 0 <= k < |lines| ensures !IsDeclaration(lines[k]) {
      var i := 4 * level;
      assert lines[k][i] == '[';
      NotDeclaration(lines[k], i);
    }
    FilterNone(lines, IsDeclaration);
  }

  lemma HeadNotDeclarations(c: ClassShape)
    ensures Filter(ClassHead(c), IsDeclaration) == []
  {
    var u := UsingLines(c.usings);
    forall k | 0 <= k < |u| ensures !IsDeclaration(u[k]) {
      NotDeclaration(u[k], 0);
    }
    FilterNone(u, IsDeclaration);
    var mid := ["", "namespace " + c.namespace, "{"];
    assert !IsDeclaration(mid[0]);
    NotDeclaration(mid[1], 0);
    NotDeclaration(mid[2], 0);
    FilterNone(mid, IsDeclaration);
    AttributesNotDeclarations(c.attributes, 1);
    var tail := [Pad(1) + "public class " + c.name, Pad(1) + "{"];
    NotDeclaration(tail[0], 4);
    NotDeclaration(tail[1], 4);
    FilterNone(tail, IsDeclaration);
    FilterAppend(u, mid, IsDeclaration);
    FilterAppend(u + mid, BracketedLines(c.attributes, 1), IsDeclaration);
    FilterAppend(u + mid + BracketedLines(c.attributes, 1), tail, IsDeclaration);
  }

  lemma FieldDeclaration(f: Field)
    ensures Filter(FieldLines(f), IsDeclaration) == [Declaration(f)]
  {
    AttributesNotDeclarations(f.attributes, 2);
    DeclarationIs(f);
    assert !IsDeclaration("");
    FilterAppend(BracketedLines(f.attributes, 2), [Declaration(f), ""], IsDeclaration);
    assert [Declaration(f), ""] == [Declaration(f)] + [""];
    FilterAppend([Declaration(f)], [""], IsDeclaration);
    assert Filter([Declaration(f)], IsDeclaration) == Filter([], IsDeclaration) + [Declaration(f)];
    assert Filter([""], IsDeclaration) == Filter([], IsDeclaration) + [];
  }

  lemma {:induction false} FieldsDeclarations(fs: seq<Field>)
    ensures Filter(FieldsLines(fs), IsDeclaration) == Map(Declaration, fs)
  {
    if fs != [] {
      var init, last := fs[..|fs| - 1], fs[|fs| - 1];
      FieldsDeclarations(init);
      FieldDeclaration(last);
      FilterAppend(FieldsLines(init), FieldLines(last), IsDeclaration);
      assert fs == init + [last];
      MapAppend(Declaration, init, [last]);
    }
  }

  /** The property declarations of the generated class are the fields' declarations, one per field, in order. */
  lemma DeclarationsReadBack(c: ClassShape)
    ensures Filter(ClassLines(c), IsDeclaration) == Map(Declaration, c.fields)
  {
    var tail := [Pad(1) + "}", "}"];
    HeadNotDeclarations(c);
    FieldsDeclarations(c.fields);
    NotDeclaration(tail[0], 4);
    NotDeclaration(tail[1], 0);
    FilterNone(tail, IsDeclaration);
    FilterAppend(ClassHead(c), FieldsLines(c.fields), IsDeclaration);
    FilterAppend(ClassHead(c) + FieldsLines(c.fields), tail, IsDeclaration);
  }

  // ---------------------------------------------------------------- Build

  method Build(classDef: Definitions.ClassDefinition) returns (text: string)
    ensures text == Unlines(ClassLines(ShapeOf(classDef)))
  {
    ghost var c := ShapeOf(classDef);
    var usings := EmitUsings(classDef.usingNamespaces);
    var attributes := EmitBracketed(classDef.attributes, 1);
    var head := usings + ["", "namespace " + classDef.namespace, "{"] + attributes
      + [Pad(1) + "public class " + classDef.name, Pad(1) + "{"];
    assert head == ClassHead(c);
    var body := AppendFields(classDef.fields);
    var sb := head + body + [Pad(1) + "}", "}"];
    text := Unlines(sb);
  }

  /** The foreach over the fields. */
  method AppendFields(fields: seq<Definitions.PropertyDefinition>) returns (sb: seq<string>)
    ensures sb == FieldsLines(FieldsOf(fields))
  {
    ghost var fs := FieldsOf(fields);
    sb := [];
    for k := 0 to |fields|
      invariant sb == FieldsLines(fs[..k])
    {
      var field := FieldOf(fields[k]);
      assert fs[..k + 1][..k] == fs[..k];
      var attributes := EmitBracketed(field.attributes, 2);
      sb := sb + (attributes + [Declaration(field), ""]);
    }
    assert fs[..|fields|] == fs;
  }
}
