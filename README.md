# ExcelMaster, modelled in Dafny

ExcelMaster turns spreadsheet selections into C# source for MasterMemory
tables, and moves data between Excel sheets, CSV text and objects. This
project models its core and proves what the code promises:

- **SourceBuilder** (`source_builder.dfy`): a jagged grid becomes C# source.
  Row 0 holds headers, row 1 type hints, and the rest data. A non-blank header
  and the blank-header columns after it form a column group. From these come:
  - the class-and-enums file (`Build`);
  - the `Data` list initializer (`BuildDataOnly`, `EmitDataSection`);
  - the wrapped data file (`BuildDataFile`, `Indent`);
  - the binary-builder template (`BuildBinaryBuilderFile`).
- **CsvClassGenerator** and **MasterClassGenerator** (`csv_class_generator.dfy`,
  `master_class_generator.dfy`): the second generator, over a rectangular
  `string[,]` grid. It does the following:
  - reads trimmed cells;
  - parses several `[A][B]` attributes;
  - builds PascalCase property names and per-character member identifiers;
  - infers enums from every data cell of a group;
  - writes the class through `MasterClassGenerator.Generate`, with sorted usings and optional namespace nesting.
- **EnumSourceGenerator**, **EnumBuilder**, **ClassBuilder** and the
  **Definitions** records (`enum_source_generator.dfy`, `enum_builder.dfy`,
  `class_builder.dfy`, `definitions.dfy`): the definition-driven emitters.
  The definition objects are classes whose constructors copy their lists.
- **CsvConverter** (`csv_converter.dfy`) covers three things:
  - RFC 4180 style field quoting (`EscapeCsv`);
  - the import state machine and the padding of its records to a rectangle (`ImportFromCsv`);
  - the export of a worksheet range, both to a `string[,]` array filled in place and to CSV text (`ExportToCsv`).
- **ExcelUtil** (`excel_util.dfy`): the row window `ReadSheet` reads from one
  sheet, and sheet selection by 1-based index or by name.
- **CsvObjectMapper** (`csv_object_mapper.dfy`): CSV rows become objects
  (`MapCsvToObjects`), with the default-on-blank-or-failure policy of
  `ConvertCell` and `ParseBool`.

Shared modules:
- `text.dfy` holds ASCII character classes, trimming, splitting, joining and
  lines of output.
- `numbers.dfy` holds decimal rendering and `int.TryParse`.
- `collections.dfy` holds sets kept as insertion-ordered or ordinally sorted
  sequences.
- `outcomes.dfy` holds `Option`, `Result` and the .NET exceptions thrown.
- `grid.dfy` holds the rectangular grid.

Generated text is a sequence of lines, and each `AppendLine` adds `"\n"`. A
method that emits text is proved equal to a specification function. The
properties the source promises are proved about that function: ordering,
uniqueness, round trips, error cases, and what every line holds.

Behaviour kept as written, though it may look unintended:
- A `using` entry of only `;` normalises to the empty name, and
  MasterClassGenerator writes `using ;`.
- A CsvClassGenerator type cell that is only attributes (`[A]`) leaves an
  empty type, so `Generate` drops that property.
- Indenting text that ends in a line break adds an empty last line.
  `BuildDataFile` therefore has a blank line after `};`.

## Model

| member | source | states |
|---|---|---|
| SourceBuilder.Underscored | ExcelMaster/ExcelMaster/Builders/SourceBuilder.cs:398 | the seven Replace calls turn each of space, `-`, `.`, `:`, `;`, `/` and `\` into `_` and keep every other character, length unchanged |
| SourceBuilder.SanitizeIdentifier | ExcelMaster/ExcelMaster/Builders/SourceBuilder.cs:394-401 | the result starts with a letter or `_` and holds none of the replaced characters; a blank name gives "Field", any other its trimmed, underscored form, with `_` in front when needed |
| SourceBuilder.SanitizeIdempotent | ExcelMaster/ExcelMaster/Builders/SourceBuilder.cs:394-401 | sanitizing a sanitized identifier changes nothing |
| SourceBuilder.SanitizedIsTrimmed | ExcelMaster/ExcelMaster/Builders/SourceBuilder.cs:394-401 | the identifier has no surrounding white space |
| SourceBuilder.UnderscoredFixed | ExcelMaster/ExcelMaster/Builders/SourceBuilder.cs:398 | text without the replaced characters is left unchanged |
| SourceBuilder.EscapeCons | ExcelMaster/ExcelMaster/Builders/SourceBuilder.cs:403 | the two Replace calls escape character by character: a backslash becomes two, a quote becomes backslash-quote |
| SourceBuilder.EscapeRoundTrip | ExcelMaster/ExcelMaster/Builders/SourceBuilder.cs:403 | reading the escaped text as the body of a C# string literal gives back the original text |
| SourceBuilder.ParseType | ExcelMaster/ExcelMaster/Builders/SourceBuilder.cs:325-356 | the type is never blank, a missing hint is ("", "string"), and the attribute never holds `]` |
| SourceBuilder.ParseTypeAttribute | ExcelMaster/ExcelMaster/Builders/SourceBuilder.cs:333-341 | a hint "[A]T" with T non-empty splits into attribute A and type T, a blank T becoming "string" |
| SourceBuilder.ParseTypePlain | ExcelMaster/ExcelMaster/Builders/SourceBuilder.cs:327-355 | a hint not opening with `[` is all type, a blank one "string" |
| SourceBuilder.Range | ExcelMaster/ExcelMaster/Builders/SourceBuilder.cs:237-243 | the indices lo to hi-1, in order |
| SourceBuilder.RangeSnoc | ExcelMaster/ExcelMaster/Builders/SourceBuilder.cs:241 | adding the next index extends a range by one |
| SourceBuilder.RangeAppend | ExcelMaster/ExcelMaster/Builders/SourceBuilder.cs:237-243 | adjacent ranges concatenate to one range |
| SourceBuilder.Groups | ExcelMaster/ExcelMaster/Builders/SourceBuilder.cs:220-254 | one group per non-blank header |
| SourceBuilder.GroupShape | ExcelMaster/ExcelMaster/Builders/SourceBuilder.cs:220-254 | a group starts at a non-blank header, is named by its sanitized header, covers only blank headers after it, and ends at the next non-blank header or the last column |
| SourceBuilder.GroupAt | ExcelMaster/ExcelMaster/Builders/SourceBuilder.cs:228-251 | the k-th group is built from the k-th non-blank header up to the next |
| SourceBuilder.GroupSpan | ExcelMaster/ExcelMaster/Builders/SourceBuilder.cs:237-243 | the k-th group's indices are exactly the columns from its header to the next non-blank header |
| SourceBuilder.SpanBlank | ExcelMaster/ExcelMaster/Builders/SourceBuilder.cs:239-243 | the columns inside a group after its first have blank headers |
| SourceBuilder.SpanEnd | ExcelMaster/ExcelMaster/Builders/SourceBuilder.cs:239 | a group ends at the last column or before a non-blank header |
| SourceBuilder.GroupsCover | ExcelMaster/ExcelMaster/Builders/SourceBuilder.cs:220-254 | the groups' indices, in order, are every column from the first non-blank header on, each once; the columns before it have blank headers |
| SourceBuilder.IndicesOf | ExcelMaster/ExcelMaster/Builders/SourceBuilder.cs:249 | the index lists of the groups, in order |
| SourceBuilder.IndicesFrom | ExcelMaster/ExcelMaster/Builders/SourceBuilder.cs:220-254 | the groups from the k-th on cover every column from the k-th non-blank header on |
| SourceBuilder.BuildGroups | ExcelMaster/ExcelMaster/Builders/SourceBuilder.cs:220-254 | the header loop computes the groups |
| SourceBuilder.ScanGroup | ExcelMaster/ExcelMaster/Builders/SourceBuilder.cs:228-251 | one group from a non-blank header: it spans the blank headers after it and stops at the next non-blank one or the end |
| SourceBuilder.GroupsNext | ExcelMaster/ExcelMaster/Builders/SourceBuilder.cs:244-251 | adding the next group extends the list built so far by one |
| SourceBuilder.ScanStep | ExcelMaster/ExcelMaster/Builders/SourceBuilder.cs:224-252 | a group scanned from the n-th non-blank header is the n-th group and the scan resumes at the (n+1)-th |
| SourceBuilder.FirstNonEmpty | ExcelMaster/ExcelMaster/Builders/SourceBuilder.cs:256-263 | a value found is never blank |
| SourceBuilder.CollectedValues | ExcelMaster/ExcelMaster/Builders/SourceBuilder.cs:311-323 | at most one value per index, none blank |
| SourceBuilder.CollectedAppend | ExcelMaster/ExcelMaster/Builders/SourceBuilder.cs:311-323 | collecting over two index lists is collecting over each in turn |
| SourceBuilder.FirstIsFirstCollected | ExcelMaster/ExcelMaster/Builders/SourceBuilder.cs:256-263 | the first non-empty value is the first collected value, and none exactly when nothing is collected |
| SourceBuilder.CollectValues | ExcelMaster/ExcelMaster/Builders/SourceBuilder.cs:311-323 | the loop collects the non-blank cells at the group's indices, in index order |
| SourceBuilder.Pieces | ExcelMaster/ExcelMaster/Builders/SourceBuilder.cs:361 | splitting on `;` and `,` with empty entries removed leaves no empty piece |
| SourceBuilder.PiecesOfJoin | ExcelMaster/ExcelMaster/Builders/SourceBuilder.cs:281-291 | splitting the comma-joined values gives each value's pieces in turn |
| SourceBuilder.PiecesOfEach | ExcelMaster/ExcelMaster/Builders/SourceBuilder.cs:361 | the pieces of each value, in order |
| SourceBuilder.JoinBlank | ExcelMaster/ExcelMaster/Builders/SourceBuilder.cs:360 | joined non-blank values are blank exactly when there are none |
| SourceBuilder.IntLiteralMeaning | ExcelMaster/ExcelMaster/Builders/SourceBuilder.cs:365 | an int literal reads back as the parsed value, or 0 when the piece does not parse |
| SourceBuilder.JoinLiterals | ExcelMaster/ExcelMaster/Builders/SourceBuilder.cs:358-392 | blank input gives ""; otherwise each piece's literal, joined by ", " |
| SourceBuilder.JoinInts | ExcelMaster/ExcelMaster/Builders/SourceBuilder.cs:358-368 | the pieces as int literals joined by ", " |
| SourceBuilder.JoinStrings | ExcelMaster/ExcelMaster/Builders/SourceBuilder.cs:382-392 | the pieces as escaped string literals joined by ", " |
| SourceBuilder.ArrayList | ExcelMaster/ExcelMaster/Builders/SourceBuilder.cs:280-291 | the array body is the literal of every piece of every usable cell, in column order |
| SourceBuilder.ArrayValue | ExcelMaster/ExcelMaster/Builders/SourceBuilder.cs:276-293 | an int[], float[] or string[] group becomes a `new T[] { ... }` holding the element literals of its cells |
| SourceBuilder.IntValue | ExcelMaster/ExcelMaster/Builders/SourceBuilder.cs:296-300 | an int group's value reads back as its first non-empty cell parsed, or 0 |
| SourceBuilder.StringValue | ExcelMaster/ExcelMaster/Builders/SourceBuilder.cs:296-307 | a string or unknown-type group's value is a quoted literal that reads back as its first non-empty cell, or "" |
| SourceBuilder.EnumMembers | ExcelMaster/ExcelMaster/Builders/SourceBuilder.cs:40-50 | an enum's members have no duplicates |
| SourceBuilder.MembersForAppend | ExcelMaster/ExcelMaster/Builders/SourceBuilder.cs:42-50 | observations over two row ranges give the members of each in turn |
| SourceBuilder.MembersForContains | ExcelMaster/ExcelMaster/Builders/SourceBuilder.cs:48 | every observed member of a type is among its members |
| SourceBuilder.RowObservationsContain | ExcelMaster/ExcelMaster/Builders/SourceBuilder.cs:45-49 | a group's observation is among its row's observations |
| SourceBuilder.ObservationsContain | ExcelMaster/ExcelMaster/Builders/SourceBuilder.cs:42-50 | a row's observations are among all observations |
| SourceBuilder.EnumTypeListContains | ExcelMaster/ExcelMaster/Builders/SourceBuilder.cs:41 | every enum group's type is a key of the member table |
| SourceBuilder.EnumValueDeclared | ExcelMaster/ExcelMaster/Builders/SourceBuilder.cs:40-50 | every enum value written in the data section names a member the enum declares, or is (T)0 when its cells are blank; the enum type is declared |
| SourceBuilder.EmptyEnumPlaceholder | ExcelMaster/ExcelMaster/Builders/SourceBuilder.cs:74-75 | an enum with no observed member is declared with the single member None |
| SourceBuilder.TablesStep | ExcelMaster/ExcelMaster/Builders/SourceBuilder.cs:48 | adding an observed member keeps the table equal to the members of the observations so far |
| SourceBuilder.EnumTypesStep | ExcelMaster/ExcelMaster/Builders/SourceBuilder.cs:41 | each enum group adds its type to the keys unless already present |
| SourceBuilder.EnumKeys | ExcelMaster/ExcelMaster/Builders/SourceBuilder.cs:40-41 | one key per distinct enum type, in group order, each with no members yet |
| SourceBuilder.AddRowMembers | ExcelMaster/ExcelMaster/Builders/SourceBuilder.cs:44-49 | one row's pass adds the members of the row's observations |
| SourceBuilder.AddGroupMember | ExcelMaster/ExcelMaster/Builders/SourceBuilder.cs:47-48 | one enum group adds its first non-blank cell's sanitized member |
| SourceBuilder.RowObservationsNext | ExcelMaster/ExcelMaster/Builders/SourceBuilder.cs:45-49 | one more group extends the row's observations by that group's |
| SourceBuilder.RowObservationsSnoc | ExcelMaster/ExcelMaster/Builders/SourceBuilder.cs:45-49 | a row's observations are those of its groups in order |
| SourceBuilder.CollectEnumMembers | ExcelMaster/ExcelMaster/Builders/SourceBuilder.cs:40-50 | the loops build, for every enum type, exactly its distinct observed members in first-seen order |
| SourceBuilder.RequiredUsings | ExcelMaster/ExcelMaster/Builders/SourceBuilder.cs:22-25 | the usings are the given ones plus MasterMemory, MessagePack and System.Collections.Generic, each once |
| SourceBuilder.TableName | ExcelMaster/ExcelMaster/Builders/SourceBuilder.cs:34 | the class name, without a trailing "Data" in any letter case |
| SourceBuilder.EmitProperties | ExcelMaster/ExcelMaster/Builders/SourceBuilder.cs:59-64 | per group an optional attribute line, the property line and a blank line |
| SourceBuilder.EmitEnum | ExcelMaster/ExcelMaster/Builders/SourceBuilder.cs:72-85 | one enum declaration, members comma-separated except the last |
| SourceBuilder.PadZero | ExcelMaster/ExcelMaster/Builders/SourceBuilder.cs:19 | indentation level 0 adds no spaces |
| SourceBuilder.UsingSet | ExcelMaster/ExcelMaster/Builders/SourceBuilder.cs:22-25 | the using set holds each namespace once, in first-added order |
| SourceBuilder.EmitEnums | ExcelMaster/ExcelMaster/Builders/SourceBuilder.cs:70-86 | one enum declaration per key, in key order, with the table's members |
| SourceBuilder.Build | ExcelMaster/ExcelMaster/Builders/SourceBuilder.cs:11-91 | a missing selection or fewer than three rows is an ArgumentException without a parameter name; otherwise the usings, the namespace, the table class and the enums |
| SourceBuilder.EmitPreamble | ExcelMaster/ExcelMaster/Builders/SourceBuilder.cs:21-31 | the using lines, a blank line and the namespace opening |
| SourceBuilder.EmitTableClass | ExcelMaster/ExcelMaster/Builders/SourceBuilder.cs:52-67 | the MemoryTable class with one property per group |
| SourceBuilder.EmitEnumSection | ExcelMaster/ExcelMaster/Builders/SourceBuilder.cs:40-86 | one enum per distinct enum type with the members observed in the data rows |
| SourceBuilder.RowValues | ExcelMaster/ExcelMaster/Builders/SourceBuilder.cs:204-210 | one value per group |
| SourceBuilder.FieldLines | ExcelMaster/ExcelMaster/Builders/SourceBuilder.cs:204-210 | one assignment line per group |
| SourceBuilder.RowBlock | ExcelMaster/ExcelMaster/Builders/SourceBuilder.cs:200-213 | a row object takes the group count plus three lines |
| SourceBuilder.RowBlocks | ExcelMaster/ExcelMaster/Builders/SourceBuilder.cs:198-214 | one block per data row, each of the group count plus three lines |
| SourceBuilder.RowBlockAt | ExcelMaster/ExcelMaster/Builders/SourceBuilder.cs:201-213 | a row block is `new C`, `{`, one assignment per group comma-separated except the last, and `}` with a comma unless the row is last |
| SourceBuilder.DataSectionLength | ExcelMaster/ExcelMaster/Builders/SourceBuilder.cs:190-218 | the Data section has three lines plus the group count plus three per data row |
| SourceBuilder.DataSectionRowAt | ExcelMaster/ExcelMaster/Builders/SourceBuilder.cs:198-214 | the r-th row block sits at its computed offset in the section |
| SourceBuilder.DataSectionField | ExcelMaster/ExcelMaster/Builders/SourceBuilder.cs:204-210 | the line for row r and group g assigns the group's formatted value to its property, with a comma unless the group is last |
| SourceBuilder.DataSectionRowClose | ExcelMaster/ExcelMaster/Builders/SourceBuilder.cs:212-213 | every row object closes with a comma except the last |
| SourceBuilder.EmitDataSection | ExcelMaster/ExcelMaster/Builders/SourceBuilder.cs:190-218 | the loops write the Data list initializer for the data rows |
| SourceBuilder.EmitRows | ExcelMaster/ExcelMaster/Builders/SourceBuilder.cs:198-214 | the row loop writes the row blocks in order |
| SourceBuilder.EmitRow | ExcelMaster/ExcelMaster/Builders/SourceBuilder.cs:200-213 | the body of the row loop writes one row block |
| SourceBuilder.BuildDataOnly | ExcelMaster/ExcelMaster/Builders/SourceBuilder.cs:94-101 | a missing selection or fewer than three rows is an ArgumentException without a parameter name; otherwise the Data section at indentation 0 |
| SourceBuilder.IndentLines | ExcelMaster/ExcelMaster/Builders/SourceBuilder.cs:182-186 | one line out per line in |
| SourceBuilder.Indent | ExcelMaster/ExcelMaster/Builders/SourceBuilder.cs:177-188 | the loop pads every non-empty line and keeps empty lines empty |
| SourceBuilder.IndentOfUnlines | ExcelMaster/ExcelMaster/Builders/SourceBuilder.cs:177-188 | indenting a text of whole lines indents each line and adds one empty line for the final line break |
| SourceBuilder.IndentTrailingEmpty | ExcelMaster/ExcelMaster/Builders/SourceBuilder.cs:184 | an empty last line adds only a line break |
| SourceBuilder.IndentPadded | ExcelMaster/ExcelMaster/Builders/SourceBuilder.cs:185 | indenting a padded line adds the levels |
| SourceBuilder.PadAdd | ExcelMaster/ExcelMaster/Builders/SourceBuilder.cs:179 | padding by a and then b levels pads by a+b |
| SourceBuilder.IndentLinesAppend | ExcelMaster/ExcelMaster/Builders/SourceBuilder.cs:182-186 | indentation is line by line |
| SourceBuilder.IndentRowBlock | ExcelMaster/ExcelMaster/Builders/SourceBuilder.cs:120 | indenting a row block by k levels is the block written k levels deeper |
| SourceBuilder.IndentRowBlockLine | ExcelMaster/ExcelMaster/Builders/SourceBuilder.cs:120 | the same, line by line |
| SourceBuilder.IndentFieldLine | ExcelMaster/ExcelMaster/Builders/SourceBuilder.cs:120 | indenting an assignment line is that line written k levels deeper |
| SourceBuilder.IndentEach | ExcelMaster/ExcelMaster/Builders/SourceBuilder.cs:182-186 | each block indented |
| SourceBuilder.IndentFlatten | ExcelMaster/ExcelMaster/Builders/SourceBuilder.cs:182-186 | indenting concatenated blocks is concatenating the indented blocks |
| SourceBuilder.IndentDataSection | ExcelMaster/ExcelMaster/Builders/SourceBuilder.cs:120 | the Data section indented by k levels is the section written at base level plus k |
| SourceBuilder.IndentBlocks | ExcelMaster/ExcelMaster/Builders/SourceBuilder.cs:120 | the row blocks indented by k levels are the blocks written k levels deeper |
| SourceBuilder.IndentRowBlockAt | ExcelMaster/ExcelMaster/Builders/SourceBuilder.cs:120 | the same for the i-th row block |
| SourceBuilder.IndentEachIs | ExcelMaster/ExcelMaster/Builders/SourceBuilder.cs:182-186 | blocks equal to the indented ones are the indented list |
| SourceBuilder.DataFileUsings | ExcelMaster/ExcelMaster/Builders/SourceBuilder.cs:112-113 | the usings hold System.Collections.Generic, each once |
| SourceBuilder.BuildDataFile | ExcelMaster/ExcelMaster/Builders/SourceBuilder.cs:104-124 | a missing selection or fewer than three rows is an ArgumentException without a parameter name; otherwise the data file text |
| SourceBuilder.DataFileLayout | ExcelMaster/ExcelMaster/Builders/SourceBuilder.cs:111-123 | the data file is the usings, the namespace and partial class openings, the Data section written two levels deep, a blank line and the closings |
| SourceBuilder.BinaryBuilderUsings | ExcelMaster/ExcelMaster/Builders/SourceBuilder.cs:130-138 | the usings hold each namespace once |
| SourceBuilder.BinaryBuilderPreamble | ExcelMaster/ExcelMaster/Builders/SourceBuilder.cs:139-152 | fourteen fixed lines from the blank line to the null check of masters |
| SourceBuilder.BuildBinaryBuilderFile | ExcelMaster/ExcelMaster/Builders/SourceBuilder.cs:127-175 | the usings, then the partial class whose BuildBinary falls back to the given output path or Assets/Generated/C.bytes |
| SourceBuilder.OutputPathLiteralMeaning | ExcelMaster/ExcelMaster/Builders/SourceBuilder.cs:153 | a given default path is written as a quoted literal that reads back as the path; otherwise the literal is Assets/Generated/C.bytes |
| CsvClassGenerator.GetCellTrimmed | CsvToSource/modules/CsvClassGenerator.cs:21-25 | a cell reads as trimmed text, empty exactly when it is null or blank |
| CsvClassGenerator.Row | CsvToSource/modules/CsvClassGenerator.cs:28-33 | the header and type rows have one trimmed cell per column |
| CsvClassGenerator.Sanitized | CsvToSource/modules/CsvClassGenerator.cs:164-168 | every character that cannot be part of an identifier becomes `_`, all others are kept, and the length is unchanged |
| CsvClassGenerator.LettersAndDigits | CsvToSource/modules/CsvClassGenerator.cs:144-158 | the letters and digits of the input, in order |
| CsvClassGenerator.Runs | CsvToSource/modules/CsvClassGenerator.cs:142-159 | the maximal runs of letters and digits, none of them empty |
| CsvClassGenerator.RunsCover | CsvToSource/modules/CsvClassGenerator.cs:142-159 | the runs concatenated are exactly the input's letters and digits, and there are none exactly when it has none |
| CsvClassGenerator.PascalIdentifier | CsvToSource/modules/CsvClassGenerator.cs:139-170 | the result is always a valid identifier |
| CsvClassGenerator.PascalIdentifierWithoutRuns | CsvToSource/modules/CsvClassGenerator.cs:141-162 | input without a letter or digit, blank input included, becomes "Field" |
| CsvClassGenerator.PascalIdentifierOfRuns | CsvToSource/modules/CsvClassGenerator.cs:159-168 | otherwise the identifier is the runs with their first character upper-cased, concatenated, behind a `_` exactly when the first is a digit |
| CsvClassGenerator.ValidIdentifier | CsvToSource/modules/CsvClassGenerator.cs:172-189 | the result is always a valid identifier |
| CsvClassGenerator.ValidIdentifierChars | CsvToSource/modules/CsvClassGenerator.cs:174-185 | blank input becomes "Member"; otherwise every identifier character of the trimmed input is kept and every other becomes `_`, behind a `_` when the first cannot start an identifier |
| CsvClassGenerator.ValidIdentifierNotBlank | CsvToSource/modules/CsvClassGenerator.cs:175-185 | a non-blank input becomes its sanitised trimmed form, with a `_` in front exactly when its first character cannot start an identifier |
| CsvClassGenerator.ValidIdentifierFixes | CsvToSource/modules/CsvClassGenerator.cs:172-189 | an identifier that is already valid is returned unchanged |
| CsvClassGenerator.ValidIdentifierIdempotent | CsvToSource/modules/CsvClassGenerator.cs:172-189 | applying it twice is the same as applying it once |
| CsvClassGenerator.PeelAttributesShape | CsvToSource/modules/CsvClassGenerator.cs:63-78 | every attribute peeled off is trimmed and not blank, and peeling stops only where the rest does not open a closed bracket |
| CsvClassGenerator.PeelAttributePrefix | CsvToSource/modules/CsvClassGenerator.cs:63-78 | peeling undoes writing: non-blank trimmed attributes without `]`, written in brackets before a type, are read back exactly, and so is the type |
| CsvClassGenerator.PeelAttributesStop | CsvToSource/modules/CsvClassGenerator.cs:66-69 | a token that does not start with `[`, or whose first `]` is at index 0 or missing, yields no attribute and is kept whole |
| CsvClassGenerator.PeelNextAttribute | CsvToSource/modules/CsvClassGenerator.cs:68-76 | one pass of the attribute loop keeps the bracketed text when not blank and leaves a strictly shorter token with the same final type |
| CsvClassGenerator.ParseTypeToken | CsvToSource/modules/CsvClassGenerator.cs:61-78 | the attribute loop yields the token's attributes and its remaining type |
| CsvClassGenerator.DataRows | CsvToSource/modules/CsvClassGenerator.cs:92 | the data rows are the trimmed rows after the header and type rows |
| CsvClassGenerator.CellMemberSource | CsvToSource/modules/CsvClassGenerator.cs:94-100 | every member found in a run of cells is made from one of its non-blank cells |
| CsvClassGenerator.CellMemberComplete | CsvToSource/modules/CsvClassGenerator.cs:94-100 | every non-blank cell contributes its identifier |
| CsvClassGenerator.ObservedMemberSource | CsvToSource/modules/CsvClassGenerator.cs:92-101 | every observed member comes from a non-blank cell of the group in some data row |
| CsvClassGenerator.ObservedMemberComplete | CsvToSource/modules/CsvClassGenerator.cs:92-101 | every non-blank cell of the group in a data row is observed |
| CsvClassGenerator.EnumMembersDistinct | CsvToSource/modules/CsvClassGenerator.cs:90-101 | the enum members have no duplicates and are all valid identifiers |
| CsvClassGenerator.EnumMembersSound | CsvToSource/modules/CsvClassGenerator.cs:90-101 | every enum member is made from a non-blank data cell of the group's columns |
| CsvClassGenerator.EnumMembersComplete | CsvToSource/modules/CsvClassGenerator.cs:90-101 | every non-blank data cell of the group's columns gives a member |
| CsvClassGenerator.Columns | CsvToSource/modules/CsvClassGenerator.cs:39-125 | one column per non-blank header, left to right, each read from its group |
| CsvClassGenerator.Properties | CsvToSource/modules/CsvClassGenerator.cs:116-121 | one property per group, in column order |
| CsvClassGenerator.ColumnFacts | CsvToSource/modules/CsvClassGenerator.cs:80-121 | a group's property is named by its header in PascalCase and carries its type cell's attributes (null when none); it infers an enum exactly when the type reads "enum", and then the enum is named like the property, in the given namespace, with the group's members; otherwise the type is the trimmed rest of the type cell |
| CsvClassGenerator.EnumSource | CsvToSource/modules/CsvClassGenerator.cs:103-108 | every inferred enum comes from an enum column |
| CsvClassGenerator.EnumComplete | CsvToSource/modules/CsvClassGenerator.cs:103-108 | every enum column's enum is among the inferred enums |
| CsvClassGenerator.ScanRuns | CsvToSource/modules/CsvClassGenerator.cs:142-159 | the character loop collects the runs |
| CsvClassGenerator.ReplaceNonIdentifierChars | CsvToSource/modules/CsvClassGenerator.cs:164-168 | the final loop computes the sanitised identifier |
| CsvClassGenerator.ToPascalIdentifier | CsvToSource/modules/CsvClassGenerator.cs:139-170 | the method computes the PascalCase identifier |
| CsvClassGenerator.ToValidIdentifier | CsvToSource/modules/CsvClassGenerator.cs:172-189 | the method computes the member identifier |
| CsvClassGenerator.MembersNext | CsvToSource/modules/CsvClassGenerator.cs:96-99 | reading one more cell adds its member unless the cell is blank or the member was already seen |
| CsvClassGenerator.AddCellMember | CsvToSource/modules/CsvClassGenerator.cs:96-99 | a blank cell adds nothing; otherwise its identifier is added when not yet seen |
| CsvClassGenerator.AddRowMembers | CsvToSource/modules/CsvClassGenerator.cs:94-100 | the inner loop adds the row's group cells' members, keeping them distinct in first-seen order |
| CsvClassGenerator.CollectEnumMembers | CsvToSource/modules/CsvClassGenerator.cs:90-101 | the nested loops collect exactly the group's enum members |
| CsvClassGenerator.ReadColumn | CsvToSource/modules/CsvClassGenerator.cs:60-121 | the loop body yields the n-th group's property and enum |
| CsvClassGenerator.ReadRow | CsvToSource/modules/CsvClassGenerator.cs:28-33 | the header and type loops fill a new array with the row's trimmed cells |
| CsvClassGenerator.ScanGroup | CsvToSource/modules/CsvClassGenerator.cs:51-58 | the group runs from its header over the blank-header columns after it, up to the next header or the last column |
| CsvClassGenerator.ReadGroup | CsvToSource/modules/CsvClassGenerator.cs:50-124 | one group read: its column, and the scan resumes after its last column |
| CsvClassGenerator.ReadColumns | CsvToSource/modules/CsvClassGenerator.cs:35-125 | the column loop yields one property per group and the enums of the enum groups, in column order |
| CsvClassGenerator.ColumnsNext | CsvToSource/modules/CsvClassGenerator.cs:116-124 | one group read extends the property and enum lists by that group's column |
| CsvClassGenerator.Parse | CsvToSource/modules/CsvClassGenerator.cs:10-137 | a null grid is an ArgumentNullException, fewer than two rows or no column an ArgumentException, a blank class name the generator's ArgumentException; otherwise the master class text for the grid's properties and enums |
| MasterClassGenerator.IndentedLine | CsvToSource/modules/MasterClassGenerator.cs:18-25 | a line at level n is the text after 4·n spaces, and the bare text at level 0 |
| MasterClassGenerator.UsingsSortedOnce | CsvToSource/modules/MasterClassGenerator.cs:30-46 | the using lines are in strictly increasing ordinal order, so each is written once, and a using line for u is written exactly when u is a kept, normalised entry |
| MasterClassGenerator.UsingsOrderIndependent | CsvToSource/modules/MasterClassGenerator.cs:41-45 | only the set of kept entries matters: any two lists with the same kept entries give the same using section |
| MasterClassGenerator.AttributeText | CsvToSource/modules/MasterClassGenerator.cs:79-83 | an attribute is trimmed, one surrounding pair of brackets is removed, and the result is trimmed again |
| MasterClassGenerator.AttributeBracketsOptional | CsvToSource/modules/MasterClassGenerator.cs:79-84 | an attribute written with or without its brackets gives the same line |
| MasterClassGenerator.AttributeLines | CsvToSource/modules/MasterClassGenerator.cs:73-86 | blank attributes are skipped and every written attribute line is bracketed at the property's indentation |
| MasterClassGenerator.KeptProperties | CsvToSource/modules/MasterClassGenerator.cs:64-66 | the properties kept, in order, all have a non-blank name and type |
| MasterClassGenerator.PropertySectionSnoc | CsvToSource/modules/MasterClassGenerator.cs:68-95 | each further property adds one blank line and its block; a single property adds no blank line |
| MasterClassGenerator.PropertyBlockShape | CsvToSource/modules/MasterClassGenerator.cs:72-88 | a property block has no blank line and ends with the declaration |
| MasterClassGenerator.PropertySectionJoin | CsvToSource/modules/MasterClassGenerator.cs:90-94 | exactly one blank line separates two runs of properties, and none follows the last |
| MasterClassGenerator.PropertySectionNested | CsvToSource/modules/MasterClassGenerator.cs:68-95 | every line of the property section is blank or indented at the property level |
| MasterClassGenerator.KeptEnums | CsvToSource/modules/MasterClassGenerator.cs:105-107 | the enums kept, in order, all have a non-blank name |
| MasterClassGenerator.EnumSectionNested | CsvToSource/modules/MasterClassGenerator.cs:109-145 | every enum's braces match with its members one level deeper, and the enum section is nested at the class level |
| MasterClassGenerator.ClassAndEnumsBraces | CsvToSource/modules/MasterClassGenerator.cs:56-99 | the class braces match with the properties one level deeper |
| MasterClassGenerator.GenerateBraces | CsvToSource/modules/MasterClassGenerator.cs:48-152 | the class braces match after the usings; with a namespace, its braces enclose everything after the usings and the class sits one level deeper |
| MasterClassGenerator.SectionLength | CsvToSource/modules/MasterClassGenerator.cs:68-95 | the property section's line count does not depend on its indentation |
| MasterClassGenerator.EmitUsingSection | CsvToSource/modules/MasterClassGenerator.cs:30-46 | the loops write the sorted using lines and a blank line when there are any |
| MasterClassGenerator.StripBrackets | CsvToSource/modules/MasterClassGenerator.cs:79-83 | the bracket removal computes the attribute text |
| MasterClassGenerator.EmitAttributes | CsvToSource/modules/MasterClassGenerator.cs:75-85 | the attribute loop writes the attribute lines |
| MasterClassGenerator.EmitProperty | CsvToSource/modules/MasterClassGenerator.cs:70-88 | one property: its attribute lines then its declaration |
| MasterClassGenerator.EmitProperties | CsvToSource/modules/MasterClassGenerator.cs:61-96 | the property loop writes the kept properties with a blank line only between them |
| MasterClassGenerator.CollectMembers | CsvToSource/modules/MasterClassGenerator.cs:113-126 | the enumerator's non-blank members, trimmed, in order |
| MasterClassGenerator.EmitEnum | CsvToSource/modules/MasterClassGenerator.cs:128-144 | a blank line, the enum header and braces, and one member per line with a comma on all but the last |
| MasterClassGenerator.EmitEnums | CsvToSource/modules/MasterClassGenerator.cs:102-146 | the enum loop writes one block per enum with a non-blank name, in order |
| MasterClassGenerator.EmitClassAndEnums | CsvToSource/modules/MasterClassGenerator.cs:56-146 | the class block followed by the enum section, from the given nesting level |
| MasterClassGenerator.Generate | CsvToSource/modules/MasterClassGenerator.cs:10-155 | a null class definition is an ArgumentNullException and a blank class name an ArgumentException; otherwise the usings, the optional namespace wrapping the class and its enums |
| EnumSourceGenerator.NormalizeUsing | ExcelMaster/modules/EnumSourceGenerator.cs:20-23 | a blank entry is dropped; a kept entry is trimmed, is a prefix of the trimmed input, and differs from it only by one trailing `;` and the blanks before it |
| EnumSourceGenerator.NormalizedUsings | ExcelMaster/modules/EnumSourceGenerator.cs:18-25 | the kept entries in the order given, each trimmed |
| EnumSourceGenerator.UsingsEmittedOnce | ExcelMaster/modules/EnumSourceGenerator.cs:15-31 | a using line is written for an entry exactly when that entry is kept, and no using line is written twice |
| EnumSourceGenerator.KeptMembers | ExcelMaster/modules/EnumSourceGenerator.cs:45-55 | the non-blank members, trimmed, in enumeration order; none of them empty |
| EnumSourceGenerator.IndentEach | ExcelMaster/modules/EnumSourceGenerator.cs:53 | every member is indented by four spaces |
| EnumSourceGenerator.MembersAsLines | ExcelMaster/modules/EnumSourceGenerator.cs:41-57 | the member text is one line per kept member with a comma on every line but the last; one empty line when every member is blank; nothing for a null enumerator |
| EnumSourceGenerator.JoinedMemberLines | ExcelMaster/modules/EnumSourceGenerator.cs:49-56 | writing ",\n" before every member but the first and a final newline gives the comma-ruled member lines |
| EnumSourceGenerator.EndsWithClosingBrace | ExcelMaster/modules/EnumSourceGenerator.cs:58-62 | the output ends with the enum's closing brace line, followed by the namespace's when a namespace is given |
| EnumSourceGenerator.CollectUsings | ExcelMaster/modules/EnumSourceGenerator.cs:17-25 | the set holds each kept entry once, in first-seen order |
| EnumSourceGenerator.AppendMembers | ExcelMaster/modules/EnumSourceGenerator.cs:43-56 | the member loop appends exactly the member text |
| EnumSourceGenerator.Generate | ExcelMaster/modules/EnumSourceGenerator.cs:9-64 | a null definition is an ArgumentNullException and a blank name an ArgumentException; otherwise the usings, the optional namespace, the enum and its members |
| Definitions.PropertyDefinition.Empty | ExcelMaster/ExcelMaster/Definitions/PropertyDefinition.cs:7-11 | a new property definition has empty name, type and attribute list |
| Definitions.PropertyDefinition.constructor | ExcelMaster/ExcelMaster/Definitions/PropertyDefinition.cs:12-17 | name and type are stored; a null attribute list leaves the list empty, otherwise it is copied |
| Definitions.EnumMemberDefinition.Empty | ExcelMaster/ExcelMaster/Definitions/EnumMemberDefinition.cs:7-11 | a new member definition has empty name, value and attribute list |
| Definitions.EnumMemberDefinition.constructor | ExcelMaster/ExcelMaster/Definitions/EnumMemberDefinition.cs:12-17 | name and value are stored; a null attribute list leaves the list empty, otherwise it is copied |
| Definitions.ClassDefinition.Empty | ExcelMaster/ExcelMaster/Definitions/ClassDefinition.cs:9-17 | a new class definition has empty strings and empty lists |
| Definitions.ClassDefinition.constructor | ExcelMaster/ExcelMaster/Definitions/ClassDefinition.cs:19-31 | namespace and name are stored; each null list stays empty and each given list is copied |
| Definitions.EnumDefinition.Empty | ExcelMaster/ExcelMaster/Definitions/EnumDefinition.cs:9-15 | a new enum definition has empty strings and empty lists |
| Definitions.EnumDefinition.constructor | ExcelMaster/ExcelMaster/Definitions/EnumDefinition.cs:16-28 | namespace and name are stored; each null list stays empty and each given list is copied |
| ClassBuilder.FieldsOf | ExcelMaster/ExcelMaster/Builders/ClassBuilder.cs:30-38 | the fields read from the definitions, one per property definition and in order |
| ClassBuilder.ClassLines | ExcelMaster/ExcelMaster/Builders/ClassBuilder.cs:9-42 | the generated class opens with one `using` line per namespace, then a blank line, `namespace`, `{`, and ends with the class and namespace closing braces |
| ClassBuilder.DeclarationsReadBack | ExcelMaster/ExcelMaster/Builders/ClassBuilder.cs:30-38 | the property declarations found in the generated text are exactly the fields' declarations, one per field, in order; attribute and frame lines are never declarations |
| ClassBuilder.FieldDeclaration | ExcelMaster/ExcelMaster/Builders/ClassBuilder.cs:32-37 | one field contributes exactly one declaration line |
| ClassBuilder.FieldsDeclarations | ExcelMaster/ExcelMaster/Builders/ClassBuilder.cs:30-38 | the field section's declarations are the fields' declarations in order |
| ClassBuilder.HeadNotDeclarations | ExcelMaster/ExcelMaster/Builders/ClassBuilder.cs:13-28 | usings, namespace and class attributes contain no property declaration |
| ClassBuilder.AttributesNotDeclarations | ExcelMaster/ExcelMaster/Builders/ClassBuilder.cs:22-25 | bracketed attribute lines are never property declarations |
| ClassBuilder.Build | ExcelMaster/ExcelMaster/Builders/ClassBuilder.cs:9-42 | the string builder's text is the class lines, each followed by a line break |
| ClassBuilder.AppendFields | ExcelMaster/ExcelMaster/Builders/ClassBuilder.cs:30-38 | the loop over the fields appends each field's attributes, declaration and blank line, in order |
| EnumBuilder.MembersOf | ExcelMaster/ExcelMaster/Builders/EnumBuilder.cs:30-39 | the members read from the definitions, one per member definition and in order |
| EnumBuilder.EnumLines | ExcelMaster/ExcelMaster/Builders/EnumBuilder.cs:9-42 | the usings open the text, followed by a blank line only when there is at least one; `namespace` and `{` follow; the text ends with the enum and namespace closing braces |
| EnumBuilder.MembersReadBack | ExcelMaster/ExcelMaster/Builders/EnumBuilder.cs:30-39 | the member lines of the generated enum are `Name = Value` for every member in order, each with a trailing comma except the last |
| EnumBuilder.MembersFiltered | ExcelMaster/ExcelMaster/Builders/EnumBuilder.cs:9-42 | filtering the generated lines for member lines yields the comma-ruled member lines |
| EnumBuilder.BlocksMembers | ExcelMaster/ExcelMaster/Builders/EnumBuilder.cs:30-39 | the member blocks hold exactly the member lines, attributes excluded |
| EnumBuilder.CommasAt | ExcelMaster/ExcelMaster/Builders/EnumBuilder.cs:37-38 | the comma is omitted on exactly the last member's line |
| EnumBuilder.HeadNotMembers | ExcelMaster/ExcelMaster/Builders/EnumBuilder.cs:13-28 | usings, namespace and enum attributes contain no member line |
| EnumBuilder.AttributesNotMembers | ExcelMaster/ExcelMaster/Builders/EnumBuilder.cs:33-36 | member attribute lines are never member lines |
| EnumBuilder.Build | ExcelMaster/ExcelMaster/Builders/EnumBuilder.cs:9-42 | the string builder's text is the enum lines, each followed by a line break |
| EnumBuilder.AppendMembers | ExcelMaster/ExcelMaster/Builders/EnumBuilder.cs:30-39 | the loop over the members appends each member's attributes and its line with the comma rule |
| Text.UsingLines | ExcelMaster/ExcelMaster/Builders/ClassBuilder.cs:13-16 | one `using X;` line per namespace, in order |
| Text.UsingLinesDistinct | ExcelMaster/ExcelMaster/Builders/ClassBuilder.cs:13-16 | distinct namespaces give distinct using lines |
| Text.EmitUsings | ExcelMaster/ExcelMaster/Builders/EnumBuilder.cs:13-16 | the loop emits the using lines |
| Text.BracketedLines | ExcelMaster/ExcelMaster/Builders/ClassBuilder.cs:22-25 | one `[attr]` line per attribute at the given indentation, in order |
| Text.EmitBracketed | ExcelMaster/ExcelMaster/Builders/EnumBuilder.cs:22-25 | the loop emits the bracketed attribute lines |
| CsvConverter.EscapeCsv | ExcelMaster/ExcelMaster/CsvConverter.cs:189-199 | null becomes the empty string; a field without quote, comma, line feed or carriage return is kept; any other field comes back wrapped in quotes |
| CsvConverter.EscapeCsvRoundTrip | ExcelMaster/ExcelMaster/CsvConverter.cs:189-199 | a non-empty field, escaped, is parsed back by the importer as one record holding exactly that field |
| CsvConverter.Step | ExcelMaster/ExcelMaster/CsvConverter.cs:234-282 | one turn of the read loop consumes at least one and at most the remaining characters (two for a doubled quote or a CRLF) |
| CsvConverter.ReadRecords | ExcelMaster/ExcelMaster/CsvConverter.cs:206-284 | the character loop ends with the records of the text as defined by the scanner state machine and its end-of-input flush |
| CsvConverter.RecordsNonEmpty | ExcelMaster/ExcelMaster/CsvConverter.cs:226-230 | every committed record holds at least one field |
| CsvConverter.RunRecordsNonEmpty | ExcelMaster/ExcelMaster/CsvConverter.cs:266-277 | resuming the loop from records that are all non-empty only commits non-empty records |
| CsvConverter.MaxFields | ExcelMaster/ExcelMaster/CsvConverter.cs:286-292 | the column count is at least every record's length and is attained by some record; 0 when there are none |
| CsvConverter.CountColumns | ExcelMaster/ExcelMaster/CsvConverter.cs:286-292 | the loop finds the widest record's field count |
| CsvConverter.Imported | ExcelMaster/ExcelMaster/CsvConverter.cs:294-309 | the imported grid is rows × widest-record, short records padded with "", and 0×0 when there are no rows or no columns |
| CsvConverter.Pad | ExcelMaster/ExcelMaster/CsvConverter.cs:294-309 | the padding loops fill a fresh array with exactly the imported grid |
| CsvConverter.ImportFromCsv | ExcelMaster/ExcelMaster/CsvConverter.cs:201-310 | a blank path is an ArgumentException, a missing file a FileNotFoundException; otherwise the result holds the padded records of the file's text |
| CsvConverter.PlainRun | ExcelMaster/ExcelMaster/CsvConverter.cs:278-281 | outside quotes, characters other than quote, comma and line breaks go into the field buffer unchanged |
| CsvConverter.QuotedRun | ExcelMaster/ExcelMaster/CsvConverter.cs:236-257 | inside quotes, a doubled quote reads as one quote and a single quote ends the quoted section |
| CsvConverter.FieldRun | ExcelMaster/ExcelMaster/CsvConverter.cs:236-282 | an escaped field followed by a comma, a line feed or the end is read back into the buffer as the original field |
| CsvConverter.RowRun | ExcelMaster/ExcelMaster/CsvConverter.cs:264-268 | a row of escaped cells joined by commas puts every cell but the last in the current row and the last in the buffer |
| CsvConverter.RowsRun | ExcelMaster/ExcelMaster/CsvConverter.cs:217-231 | reading the exported text of non-empty rows commits every row, except a last row of one empty cell, which the end-of-input rule drops |
| CsvConverter.ExportRecordsRoundTrip | ExcelMaster/ExcelMaster/CsvConverter.cs:189-284 | parsing the exported text gives back the rows, except a last row consisting of one empty cell |
| CsvConverter.ImportedRectangular | ExcelMaster/ExcelMaster/CsvConverter.cs:294-309 | padding records that are already rectangular and non-empty changes nothing |
| CsvConverter.ExportImportRoundTrip | ExcelMaster/ExcelMaster/CsvConverter.cs:201-310 | importing the export text of a rectangular grid gives back the grid, except that a last row of one empty cell is lost and the one-row grid [[""]] imports as 0×0 |
| CsvConverter.EndBounds | ExcelMaster/ExcelMaster/CsvConverter.cs:26-31 | a negative end becomes the last used row or column (the start when none is used); an end before the start is an ArgumentOutOfRangeException naming endRow or endColumn |
| CsvConverter.RangeRow | ExcelMaster/ExcelMaster/CsvConverter.cs:40-48 | one row of the range holds each cell's formatted text, column by column |
| CsvConverter.RangeText | ExcelMaster/ExcelMaster/CsvConverter.cs:37-50 | the range holds one such row per row, in order |
| CsvConverter.JoinedPrefixAll | ExcelMaster/ExcelMaster/CsvConverter.cs:37-50 | after the last part the separators the loops append are exactly those of the join |
| CsvConverter.WriteCell | ExcelMaster/ExcelMaster/CsvConverter.cs:42-47 | one cell: its text is stored at (rr, cc), no other cell changes, and its escaped text plus a comma unless it is the last column is appended |
| CsvConverter.AppendRow | ExcelMaster/ExcelMaster/CsvConverter.cs:40-48 | the inner loop appends the row's text (escaped cells joined by commas) and fills row rr, keeping earlier rows filled |
| CsvConverter.ExportRange | ExcelMaster/ExcelMaster/CsvConverter.cs:33-50 | the array holds every cell text of the range and the text is the rows joined by line breaks, with no break after the last |
| CsvConverter.StartChecks | ExcelMaster/ExcelMaster/CsvConverter.cs:16-18 | the start checks pass exactly when start row and column are at least 1 and the CSV path is not blank |
| CsvConverter.IndexChecks | ExcelMaster/ExcelMaster/CsvConverter.cs:13-18 | the index overload's checks pass exactly when the workbook path is not blank and exists, the sheet index is at least 1, the starts are at least 1 and the CSV path is not blank |
| CsvConverter.ExportToCsvByIndex | ExcelMaster/ExcelMaster/CsvConverter.cs:11-62 | the first failed check is the error; then a missing sheet or a bad end bound is an error; otherwise the export of the checked range |
| CsvConverter.NameChecks | ExcelMaster/ExcelMaster/CsvConverter.cs:66-71 | the name overload's checks pass exactly when the paths and sheet name are not blank, the workbook exists and the starts are at least 1 |
| CsvConverter.ExportToCsvByName | ExcelMaster/ExcelMaster/CsvConverter.cs:64-115 | as by index, but the sheet is found by case-insensitive name and a missing one is reported on sheetName |
| CsvConverter.ExportThenImport | ExcelMaster/ExcelMaster/CsvConverter.cs:37-50 | the exported text of any range imports back as that range, unless its last row is one empty cell |
| ExcelUtil.CellValue | ExcelMaster/ExcelMaster/ExcelUtil/ExcelUtil.cs:95-97 | a null cell stays null; with trimCells a value is trimmed, and it becomes empty exactly when it was blank; without trimCells it is kept |
| ExcelUtil.TakenRow | ExcelMaster/ExcelMaster/ExcelUtil/ExcelUtil.cs:76-100 | a row with fewer fields than the start column contributes no cell; otherwise every cell from the start column to the last field, in order |
| ExcelUtil.FirstEmpty | ExcelMaster/ExcelMaster/ExcelUtil/ExcelUtil.cs:77-105 | the position of the first row that counts as empty (no usable column, or only null or empty cells), every row before it non-empty |
| ExcelUtil.AtLeastOne | ExcelMaster/ExcelMaster/ExcelUtil/ExcelUtil.cs:53-54 | a start row or column below 1 is raised to 1, any other is kept |
| ExcelUtil.FirstRow | ExcelMaster/ExcelMaster/ExcelUtil/ExcelUtil.cs:62-69 | the first row that can be taken is the start row, or the one after it when skipHeader; with skipHeader a start row of Int32.MaxValue wraps below every row number, so the first row is 1 |
| ExcelUtil.SkipHeaderAtInt32Max | ExcelMaster/ExcelMaster/ExcelUtil/ExcelUtil.cs:65-69 | with skipHeader and start row Int32.MaxValue every row of the sheet can be taken |
| ExcelUtil.Candidates | ExcelMaster/ExcelMaster/ExcelUtil/ExcelUtil.cs:62-69 | the rows considered are those from the first takeable row on; none when the sheet is shorter |
| ExcelUtil.TakenCount | ExcelMaster/ExcelMaster/ExcelUtil/ExcelUtil.cs:71-105 | no more rows than there are candidates and than maxRows; under stopAtEmptyRow no taken row is empty |
| ExcelUtil.TakenCountExact | ExcelMaster/ExcelMaster/ExcelUtil/ExcelUtil.cs:60-109 | a count with no empty row before it that ends at the last candidate, at the limit or at an empty row is exactly the count taken |
| ExcelUtil.SheetWindow | ExcelMaster/ExcelMaster/ExcelUtil/ExcelUtil.cs:51-112 | the window is a prefix of the candidates, each row cut at the start column and trimmed as asked, within maxRows, and with no empty row under stopAtEmptyRow; it stops early only at the limit or at an empty row |
| ExcelUtil.ReadCells | ExcelMaster/ExcelMaster/ExcelUtil/ExcelUtil.cs:89-100 | the cell loop yields the row's cells from the start column and reports the row empty exactly when every cell is null or empty |
| ExcelUtil.ReadRows | ExcelMaster/ExcelMaster/ExcelUtil/ExcelUtil.cs:56-111 | the row loop takes exactly the counted candidate rows, each cut at the start column |
| ExcelUtil.ReadSheet | ExcelMaster/ExcelMaster/ExcelUtil/ExcelUtil.cs:51-112 | the rows returned are the sheet window for the given options |
| ExcelUtil.FindByIndex | ExcelMaster/ExcelMaster/ExcelUtil/ExcelUtil.cs:18-29 | the do-while finds sheet n exactly when n is 1 or at most the sheet count; the first result set is always visited |
| ExcelUtil.ReadByIndex | ExcelMaster/ExcelMaster/ExcelUtil/ExcelUtil.cs:10-30 | an empty path and an index below 1 are rejected in that order, then an unreadable file; a found sheet gives its window, a missing one an ArgumentException |
| ExcelUtil.FindByName | ExcelMaster/ExcelMaster/ExcelUtil/ExcelUtil.cs:40-46 | the do-while finds the first sheet whose name equals the given one ignoring case |
| ExcelUtil.ReadByName | ExcelMaster/ExcelMaster/ExcelUtil/ExcelUtil.cs:32-49 | an empty path and a blank sheet name are rejected in that order, then an unreadable file; the first matching sheet gives its window, none an ArgumentException |
| CsvObjectMapper.DefaultValue | ExcelToCsv/CsvObjectMapper.cs:79 | the default instance of a value type is never null (zero, false, the zero enum value) |
| CsvObjectMapper.Fallback | ExcelToCsv/CsvObjectMapper.cs:75-80 | a blank cell or a failed conversion becomes null exactly for a nullable or reference type, and the type's default for a plain value type |
| CsvObjectMapper.ParseBool | ExcelToCsv/CsvObjectMapper.cs:118-127 | the trimmed text is true exactly when it is "true" or "yes" ignoring case, or "1"; everything else, unknown text included, is false |
| CsvObjectMapper.EnumByName | ExcelToCsv/CsvObjectMapper.cs:91 | a name is found exactly when some member's name equals the trimmed text ignoring case, and the result is such a member's value |
| CsvObjectMapper.ConvertCell | ExcelToCsv/CsvObjectMapper.cs:71-114 | a string property takes the raw text (null as ""); any other type takes the fallback on a blank cell; otherwise the converted value, or the fallback where the conversion throws |
| CsvObjectMapper.ConvertInt32RoundTrip | ExcelToCsv/CsvObjectMapper.cs:93 | an Int32 or Int32? property reads back any Int32 written in decimal |
| CsvObjectMapper.ConvertEnum | ExcelToCsv/CsvObjectMapper.cs:86-92 | an enum cell is first an integer, then a member name ignoring case, and otherwise null or the zero value |
| CsvObjectMapper.ConvertBool | ExcelToCsv/CsvObjectMapper.cs:97 | a bool cell is true exactly for "true", "1" and "yes", ignoring case and surrounding blanks |
| CsvObjectMapper.PropertyMap | ExcelToCsv/CsvObjectMapper.cs:29-38 | the dictionary has a case-insensitive key for every writable property and maps each key to a property of that name |
| CsvObjectMapper.SameUpperCase | ExcelToCsv/CsvObjectMapper.cs:31 | names with equal upper-case forms are equal ignoring case, so one dictionary key serves both |
| CsvObjectMapper.ColumnProperty | ExcelToCsv/CsvObjectMapper.cs:41-49 | a column is mapped exactly when its header is not blank and names a property ignoring case, and then to a property of that name |
| CsvObjectMapper.ObjectKeys | ExcelToCsv/CsvObjectMapper.cs:55-62 | an object gets exactly the properties some mapped column names; blank and unknown headers write nothing |
| CsvObjectMapper.ObjectValue | ExcelToCsv/CsvObjectMapper.cs:55-62 | a property holds the value converted from the last column that names it |
| CsvObjectMapper.ObjectReadsOnlyItsRow | ExcelToCsv/CsvObjectMapper.cs:52-64 | each object depends on nothing but the header row and its own grid row |
| CsvObjectMapper.ReadColumnInfos | ExcelToCsv/CsvObjectMapper.cs:40-49 | the loop records, for every column, the property its header names or none |
| CsvObjectMapper.BuildObject | ExcelToCsv/CsvObjectMapper.cs:54-62 | the inner loop builds the object of grid row r, skipping unmapped columns |
| CsvObjectMapper.MapCsvToObjects | ExcelToCsv/CsvObjectMapper.cs:20-66 | null is an ArgumentNullException; fewer than three rows give no objects; otherwise object i is built from grid row i + 2 |
| Text.TrimStart | CsvToSource/modules/CsvClassGenerator.cs:24 | no longer than the input and does not start with white space |
| Text.TrimStartSpec | CsvToSource/modules/CsvClassGenerator.cs:24 | the result is a suffix of the input and only white space was removed |
| Text.TrimStartNoop | CsvToSource/modules/CsvClassGenerator.cs:24 | text not starting with white space is unchanged |
| Text.TrimEnd | CsvToSource/modules/MasterClassGenerator.cs:38 | no longer than the input and does not end with white space |
| Text.TrimEndSpec | CsvToSource/modules/MasterClassGenerator.cs:38 | the result is a prefix of the input and only white space was removed |
| Text.Trim | CsvToSource/modules/CsvClassGenerator.cs:24 | neither end is white space, and the result is empty exactly when the input is blank |
| Text.TrimOfTrimmed | CsvToSource/modules/CsvClassGenerator.cs:24 | trimming trimmed text changes nothing |
| Text.UpperCase | CsvToSource/modules/CsvClassGenerator.cs:161 | each character upper-cased, length unchanged |
| Text.NotPrefixAt | CsvToSource/modules/CsvClassGenerator.cs:66 | text that differs from a prefix at one of its positions does not start with it |
| Text.IndexOf | ExcelMaster/ExcelMaster/Builders/SourceBuilder.cs:335 | the first position of the character, or -1 exactly when it does not occur |
| Text.Spaces | ExcelMaster/ExcelMaster/Builders/SourceBuilder.cs:19 | n space characters |
| Text.UsingLineInjective | CsvToSource/modules/MasterClassGenerator.cs:41-44 | different namespaces give different using lines |
| Text.MemberLines | ExcelMaster/ExcelMaster/Builders/SourceBuilder.cs:79-83 | one line per member |
| Text.UnlinesAppend | ExcelMaster/ExcelMaster/Builders/SourceBuilder.cs:19 | writing two line lists is writing one after the other |
| Text.UnlinesSnoc | ExcelMaster/ExcelMaster/Builders/SourceBuilder.cs:19 | writing one more line appends it and a line break |
| Text.NormalizeNewlines | ExcelMaster/ExcelMaster/Builders/SourceBuilder.cs:180 | replacing CR LF by LF never lengthens the text |
| Text.NormalizeNewlinesPlain | ExcelMaster/ExcelMaster/Builders/SourceBuilder.cs:180 | text without CR is unchanged |
| Text.UnlinesSplit | ExcelMaster/ExcelMaster/Builders/SourceBuilder.cs:180 | splitting written lines on LF gives the lines back, plus one empty last field |
| Text.JoinStartsWith | ExcelMaster/ExcelMaster/Builders/SourceBuilder.cs:367 | a join starts with its first part |
| Text.JoinSnoc | ExcelMaster/ExcelMaster/Builders/SourceBuilder.cs:367 | joining one more part appends the separator and the part |
| Text.BlankPrefix | ExcelMaster/ExcelMaster/Builders/SourceBuilder.cs:360 | a prefix of blank text is blank |
| Text.ReplaceChar | ExcelMaster/ExcelMaster/Builders/SourceBuilder.cs:403 | text without the character is unchanged |
| Text.ReplaceCharAppend | ExcelMaster/ExcelMaster/Builders/SourceBuilder.cs:403 | replacing in a concatenation replaces in each part |
| Text.Fields | ExcelMaster/ExcelMaster/Builders/SourceBuilder.cs:361 | a split gives at least one field |
| Text.FieldsCons | ExcelMaster/ExcelMaster/Builders/SourceBuilder.cs:361 | splitting works character by character from the left |
| Text.FieldsPrependAppend | ExcelMaster/ExcelMaster/Builders/SourceBuilder.cs:361 | a character added in front only touches the first field |
| Text.ConsTail | ExcelMaster/ExcelMaster/Builders/SourceBuilder.cs:361 | the head and tail of a separated concatenation |
| Text.FieldsAppend | ExcelMaster/ExcelMaster/Builders/SourceBuilder.cs:361 | splitting text joined by a separator gives the fields of each side in turn |
| Text.FieldsOfPlain | ExcelMaster/ExcelMaster/Builders/SourceBuilder.cs:361 | text without a separator is one field |
| Text.NonEmpty | ExcelMaster/ExcelMaster/Builders/SourceBuilder.cs:361 | removing empty entries leaves no empty field |
| Text.NonEmptyAppend | ExcelMaster/ExcelMaster/Builders/SourceBuilder.cs:361 | removing empty entries works field by field |
| Text.NonBlankFrom | ExcelMaster/ExcelMaster/Builders/SourceBuilder.cs:224-227 | the non-blank header positions from a column on, increasing |
| Text.NonBlankComplete | ExcelMaster/ExcelMaster/Builders/SourceBuilder.cs:224-227 | every non-blank header from that column on is listed |
| Text.NonBlankFromBlank | ExcelMaster/ExcelMaster/Builders/SourceBuilder.cs:227 | a blank header is skipped |
| Text.NonBlankSkip | ExcelMaster/ExcelMaster/Builders/SourceBuilder.cs:239-243 | a run of blank headers is skipped |
| Text.NonBlankAtStart | ExcelMaster/ExcelMaster/Builders/SourceBuilder.cs:228 | a non-blank header is the first position listed from it |
| Text.GroupScanStep | ExcelMaster/ExcelMaster/Builders/SourceBuilder.cs:224-252 | a group from the n-th non-blank header ends where the (n+1)-th starts, or at the last column |
| Text.SuffixCons | ExcelMaster/ExcelMaster/Builders/SourceBuilder.cs:224 | the head and tail of a suffix |
| Text.NonBlankGaps | ExcelMaster/ExcelMaster/Builders/SourceBuilder.cs:239-243 | the headers between two consecutive non-blank ones are blank |
| Text.OrdinalLessIrreflexive | CsvToSource/modules/MasterClassGenerator.cs:41 | ordinal order never puts a string before itself |
| Text.OrdinalLessTransitive | CsvToSource/modules/MasterClassGenerator.cs:41 | ordinal order is transitive |
| Text.OrdinalLessTotal | CsvToSource/modules/MasterClassGenerator.cs:41 | any two different strings are ordered one way |
| Text.OrdinalLessAsymmetric | CsvToSource/modules/MasterClassGenerator.cs:41 | never both ways |
| Numbers.DigitChar | ExcelMaster/ExcelMaster/Builders/SourceBuilder.cs:300 | a digit character whose value is the digit |
| Numbers.NatToDigits | ExcelMaster/ExcelMaster/Builders/SourceBuilder.cs:300 | decimal digits without a leading zero |
| Numbers.DigitsRoundTrip | ExcelMaster/ExcelMaster/Builders/SourceBuilder.cs:300 | the digits read back as the number |
| Numbers.ParseInRange | ExcelToCsv/CsvObjectMapper.cs:93-96 | a value is returned exactly when the text is a well-formed integer within the type's range, and then it is that integer |
| Numbers.Int32Wrap | ExcelMaster/ExcelMaster/ExcelUtil/ExcelUtil.cs:65 | unchecked Int32 arithmetic: the result is in the Int32 range, congruent to the exact value modulo 2^32, and equal to it when it is in range |
| Numbers.IntToStringRoundTrip | ExcelMaster/ExcelMaster/Builders/SourceBuilder.cs:300 | an Int32 written out parses back to itself |
| Collections.AddUnique | ExcelMaster/ExcelMaster/Builders/SourceBuilder.cs:23-25 | HashSet.Add: the element set grows by the element, duplicates never appear, and earlier elements keep their order |
| Collections.Distinct | ExcelMaster/ExcelMaster/Builders/SourceBuilder.cs:22 | the same elements, each once |
| Collections.DistinctSnoc | ExcelMaster/ExcelMaster/Builders/SourceBuilder.cs:22-25 | adding to the set one element at a time is the same as the set of the whole list |
| Collections.DistinctOfDistinct | ExcelMaster/ExcelMaster/Builders/SourceBuilder.cs:22 | a duplicate-free list is its own set |
| Collections.InsertSorted | CsvToSource/modules/MasterClassGenerator.cs:32-41 | inserting into an ordinally sorted set keeps it sorted and adds exactly the element |
| Collections.BelowSorted | CsvToSource/modules/MasterClassGenerator.cs:41 | an element below the first goes in front |
| Collections.AboveHead | CsvToSource/modules/MasterClassGenerator.cs:41 | an element above the first goes after it |
| Collections.SortedSet | CsvToSource/modules/MasterClassGenerator.cs:32-41 | the same elements, each once, in strictly increasing ordinal order |
| Collections.StrictlySortedUnique | CsvToSource/modules/MasterClassGenerator.cs:41 | two strictly sorted lists with the same elements are equal, so the order is fully determined |
| Collections.FirstMatch | ExcelMaster/ExcelMaster/CsvConverter.cs:74-76 | the first position satisfying the test, or none exactly when no position does |

## Left out

- Newlines: `Environment.NewLine` is modelled as `"\n"`.
- Character classes: `char.IsLetter`, `char.IsLetterOrDigit`, `char.IsWhiteSpace`, `char.ToUpperInvariant` and ordinal-ignore-case comparison are modelled on ASCII.
- Files and directories:
  - writing, reading and creating them is modelled by returned text (the CSV file's text is a parameter, `None` when it does not exist);
  - the UTF-8 byte order mark is not modelled;
  - the file `ExportToCsv` writes is the returned CSV text.
- Spreadsheet libraries: ClosedXML and ExcelDataReader are replaced by values.
  - A worksheet is a grid of cell texts, with its last used row and column.
  - A workbook read by ExcelUtil is its sequence of named sheets of optional cell texts.
  - A file that cannot be opened is `None`.
- `CsvConverter.ExcelToArray`: both overloads are not part of this model. They repeat the argument checks and array fill of `ExportToCsv`, without the CSV text.
- `CsvConverter.ImportFromCsv`: reads a string rather than a character stream.
- Floating point:
  - the `float` and `float[]` branches of `FormatGroupValue` and `JoinFloats` take the literal written for a cell as a parameter, because `float.TryParse` and `ToString("0.0#…")` are not modelled;
  - CsvObjectMapper's `float`, `double`, `decimal`, `Guid`, `DateTime`, `TimeSpan` and `Convert.ChangeType` conversions are a parser parameter.
- `CsvObjectMapper.EnumByName`: models `Enum.Parse` on a single member name. Comma-separated flag lists and numeric strings outside Int32 are not modelled.
- `CsvObjectMapper.MapCsvToObjects`:
  - reflection is replaced by a given list of writable properties;
  - the per-type property cache is left out because it does not change results;
  - an object is the map of the properties its columns write, so values that `new T()` gives the unwritten properties are not tracked.
- CsvObjectMapper.MapCsvToObjects: only a reference type T is modelled. For a struct T, `SetValue` writes into a boxed copy, so in the source every element stays `new T()`; the model returns the written values whatever T is.
- Hash sets and dictionaries:
  - iteration order is modelled as insertion order;
  - for EnumSourceGenerator only "each once" is claimed;
  - MasterClassGenerator sorts them, so its order is exact.
- Exceptions:
  - an `ArgumentException` thrown without a parameter name is `Argument("")`;
  - exceptions thrown by the spreadsheet libraries themselves are not modelled.
- Definitions: a `List<T>` the definitions receive is copied into a sequence, so later changes to the caller's list (aliasing) are not modelled.
- EnumSourceGenerator.Generate and MasterClassGenerator.CollectMembers: the member lists (and EnumSourceGenerator's usings) are `IEnumerator<string>` objects in the source, which Generate consumes with MoveNext. The model takes the enumerator's remaining items as a sequence. It does not model that the caller's enumerator is exhausted afterwards, so a second Generate on the same definition would write no members.
- ExcelUtil.ReadSheet: the 1-based row counter is unbounded; its Int32 overflow on a sheet of more than Int32.MaxValue rows is not modelled.
- Null elements: null elements inside definition lists are not modelled. Null strings are modelled only where the code treats null differently from `""`.
- The ItemData sample selection and its generated data file are not replayed as a concrete lemma. The general lemmas on groups, values and the Data section layout state what that output shows.
