/**
 * CsvObjectMapper: turns a CSV grid whose row 0 holds property names and
 * row 1 type information into one object per remaining row.
 *
 * Reflection is replaced by a given list of the writable public properties
 * of the target type; an object is the map from property name to the value
 * written into it (a property no column writes keeps whatever `new T()`
 * gave it, which the model does not track).
 */
module CsvObjectMapper {
  import opened Outcomes
  import opened Text
  import opened Collections
  import opened Numbers
  import opened Grid

  // ---------------------------------------------------------------- types and values

  datatype EnumMember = EnumMember(name: string, value: int)

  /** The property types ConvertCell tells apart. `Other` is any other type, with whether it is a value type. */
  datatype Kind =
    | String
    | Int32
    | Int64
    | Int16
    | Byte
    | Bool
    | Enum(members: seq<EnumMember>)
    | Other(typeName: string, isValueType: bool)

  /** A property's declared type: `T` itself or `Nullable<T>`. */
  datatype PropType = Plain(kind: Kind) | NullableOf(kind: Kind)

  /** What ConvertCell hands to PropertyInfo.SetValue. */
  datatype Value =
    | Null
    | Str(text: string)
    | Int(n: int)
    | Boolean(b: bool)
    | EnumOf(ordinal: int)
    | DefaultOf(typeName: string)
    | Parsed(typeName: string, text: string)

  datatype Property = Property(name: string, propType: PropType)

  /**
   * The BCL parsers of the remaining types (float, double, decimal, Guid,
   * DateTime, TimeSpan, Convert.ChangeType): type name and cell text to the
   * parsed value, or None where the parser throws.
   */
  type Parser = (string, string) -> Option<Value>

  predicate IsValueType(k: Kind) {
    match k
    case String => false
    case Other(_, isValueType) => isValueType
    case _ => true
  }

  /** Activator.CreateInstance(t) of a value type: zero, false, the zero enum value. */
  function DefaultValue(k: Kind): (v: Value)
    requires IsValueType(k)
    ensures v != Null
  {
    match k
    case Bool => Boolean(false)
    case Enum(_) => EnumOf(0)
    case Other(name, _) => DefaultOf(name)
    case _ => Int(0)
  }

  /** What a blank cell or a failed conversion becomes. */
  function Fallback(t: PropType): (v: Value)
    ensures v == Null <==> t.NullableOf? || !IsValueType(t.kind)
    ensures t.Plain? && IsValueType(t.kind) ==> v == DefaultValue(t.kind)
  {
    if t.NullableOf? then Null
    else if IsValueType(t.kind) then DefaultValue(t.kind)
    else Null
  }

  // ---------------------------------------------------------------- ParseBool

  /** CsvObjectMapper.ParseBool: bool.TryParse, then "0"/"1", then yes/no ignoring case; false otherwise. */
  function ParseBool(raw: string): (b: bool)
    ensures b <==> EqualsIgnoreCase(Trim(raw), "true") || Trim(raw) == "1" || EqualsIgnoreCase(Trim(raw), "yes")
  {
    var t := Trim(raw);
    if EqualsIgnoreCase(t, "true") then true
    else if EqualsIgnoreCase(t, "false") then false
    else if t == "0" then false
    else if t == "1" then true
    else if EqualsIgnoreCase(t, "yes") then true
    else if EqualsIgnoreCase(t, "no") then false
    else false
  }

  // ---------------------------------------------------------------- ConvertCell

  function MemberNamed(name: string): EnumMember -> bool {
    (m: EnumMember) => EqualsIgnoreCase(m.name, name)
  }

  /** Enum.Parse(type, raw, ignoreCase: true) on a plain name: the first member so named, ignoring case. */
  function EnumByName(members: seq<EnumMember>, raw: string): (r: Option<int>)
    ensures r.Some? <==> exists k :: 0 <= k < |members| && EqualsIgnoreCase(members[k].name, Trim(raw))
    ensures r.Some? ==> exists k :: 0 <= k < |members| && EqualsIgnoreCase(members[k].name, Trim(raw)) && r.value == members[k].value
  {
    match FirstMatch(members, MemberNamed(Trim(raw)))
    case Some(k) => Some(members[k].value)
    case None => None
  }

  function Integer(n: Option<int>): Option<Value> {
    match n
    case Some(v) => Some(Int(v))
    case None => None
  }

  /** The try block of ConvertCell for a non-blank cell: the converted value, or None where it throws. */
  function Attempt(raw: string, k: Kind, parse: Parser): Option<Value> {
    match k
    case Enum(members) =>
      (match TryParseInt32(raw)
       case Some(n) => Some(EnumOf(n))
       case None =>
         (match EnumByName(members, raw)
          case Some(n) => Some(EnumOf(n))
          case None => None))
    case Int32 => Integer(ParseInRange(raw, Int32Min, Int32Max))
    case Int64 => Integer(ParseInRange(raw, Int64Min, Int64Max))
    case Int16 => Integer(ParseInRange(raw, Int16Min, Int16Max))
    case Byte => Integer(ParseInRange(raw, 0, ByteMax))
    case Bool => Some(Boolean(ParseBool(raw)))
    case String => Some(Str(raw))
    case Other(name, _) => parse(name, raw)
  }

  /**
   * ConvertCell(raw, targetType): a string property takes the cell as it is
   * (null as ""); a blank cell, or one the conversion rejects, takes the
   * fallback; otherwise the converted value of the underlying type.
   */
  function ConvertCell(raw: Option<string>, t: PropType, parse: Parser): (v: Value)
    ensures t == Plain(String) ==> v == Str(raw.GetOr(""))
    ensures t != Plain(String) && (raw.None? || IsBlank(raw.value)) ==> v == Fallback(t)
    ensures t != Plain(String) && raw.Some? && !IsBlank(raw.value) ==>
      v == match Attempt(raw.value, t.kind, parse) case Some(x) => x case None => Fallback(t)
  {
    if t == Plain(String) then Str(raw.GetOr(""))
    else if raw.None? || IsBlank(raw.value) then Fallback(t)
    else
      match Attempt(raw.value, t.kind, parse)
      case Some(x) => x
      case None => Fallback(t)
  }

  /** An Int32 property reads back the number that was written into its cell. */
  lemma ConvertInt32RoundTrip(n: int, nullable: bool, parse: Parser)
    requires Int32Min <= n <= Int32Max
    ensures ConvertCell(Some(IntToString(n)), if nullable then NullableOf(Int32) else Plain(Int32), parse) == Int(n)
  {
    IntToStringRoundTrip(n);
  }

  /** An enum cell is an integer, or else a member name ignoring case; anything else takes the fallback. */
  lemma ConvertEnum(raw: string, members: seq<EnumMember>, nullable: bool, parse: Parser)
    requires !IsBlank(raw)
    ensures var t := if nullable then NullableOf(Enum(members)) else Plain(Enum(members));
      var v := ConvertCell(Some(raw), t, parse);
      && (TryParseInt32(raw).Some? ==> v == EnumOf(TryParseInt32(raw).value))
      && (TryParseInt32(raw).None? && EnumByName(members, raw).Some? ==> v == EnumOf(EnumByName(members, raw).value))
      && (TryParseInt32(raw).None? && EnumByName(members, raw).None? ==> v == (if nullable then Null else EnumOf(0)))
  {
  }

  /** A Bool property is true exactly for "true", "1" and "yes" (ignoring case and surrounding blanks). */
  lemma ConvertBool(raw: string, parse: Parser)
    requires !IsBlank(raw)
    ensures ConvertCell(Some(raw), Plain(Bool), parse) == Boolean(ParseBool(raw))
    ensures ConvertCell(Some(raw), Plain(Bool), parse) == Boolean(true) <==>
      EqualsIgnoreCase(Trim(raw), "true") || Trim(raw) == "1" || EqualsIgnoreCase(Trim(raw), "yes")
  {
  }

  // ---------------------------------------------------------------- property lookup

  /**
   * The property dictionary (StringComparer.OrdinalIgnoreCase): keyed by the
   * upper-cased name; a later property replaces an earlier one with the same key.
   */
  function PropertyMap(props: seq<Property>): (m: map<string, Property>)
    ensures forall key :: key in m ==> key == UpperCase(m[key].name) && m[key] in props
    ensures forall i :: 0 <= i < |props| ==> UpperCase(props[i].name) in m
  {
    if props == [] then map[]
    else
      var last := props[|props| - 1];
      PropertyMap(props[..|props| - 1])[UpperCase(last.name) := last]
  }

  lemma SameUpperCase(a: string, b: string)
    requires UpperCase(a) == UpperCase(b)
    ensures EqualsIgnoreCase(a, b)
  {
    assert |a| == |UpperCase(a)|;
    forall i | 0 <= i < |a|
      ensures ToUpper(a[i]) == ToUpper(b[i])
    {
      assert UpperCase(a)[i] == UpperCase(b)[i];
    }
  }

  /** The property the header of column c names, if any: columnInfos[c].prop. */
  function ColumnProperty(g: Grid, m: map<string, Property>, c: nat): (r: Option<Property>)
    requires 1 <= g.height && c < g.width
    requires forall key :: key in m ==> key == UpperCase(m[key].name)
    ensures r.Some? ==> At(g, 0, c).Some? && !IsBlank(At(g, 0, c).value) && EqualsIgnoreCase(r.value.name, At(g, 0, c).value)
    ensures r.Some? <==> At(g, 0, c).Some? && !IsBlank(At(g, 0, c).value) && UpperCase(At(g, 0, c).value) in m
  {
    var header := At(g, 0, c);
    if header.None? || IsBlank(header.value) then None
    else
      var key := UpperCase(header.value);
      if key in m then
        SameUpperCase(m[key].name, header.value);
        Some(m[key])
      else None
  }

  predicate Keyed(m: map<string, Property>) {
    forall key :: key in m ==> key == UpperCase(m[key].name)
  }

  // ---------------------------------------------------------------- objects

  /** The object built from grid row r by the first n columns, later columns overwriting earlier ones. */
  function ObjectPrefix(g: Grid, m: map<string, Property>, parse: Parser, r: nat, n: nat): map<string, Value>
    requires 1 <= g.height && r < g.height && n <= g.width && Keyed(m)
  {
    if n == 0 then map[]
    else
      var obj := ObjectPrefix(g, m, parse, r, n - 1);
      match ColumnProperty(g, m, n - 1)
      case None => obj
      case Some(p) => obj[p.name := ConvertCell(At(g, r, n - 1), p.propType, parse)]
  }

  /** The object MapCsvToObjects builds from grid row r. */
  function RowObject(g: Grid, m: map<string, Property>, parse: Parser, r: nat): map<string, Value>
    requires 1 <= g.height && r < g.height && Keyed(m)
  {
    ObjectPrefix(g, m, parse, r, g.width)
  }

  predicate Writes(g: Grid, m: map<string, Property>, c: nat, name: string)
    requires 1 <= g.height && c < g.width && Keyed(m)
  {
    ColumnProperty(g, m, c).Some? && ColumnProperty(g, m, c).value.name == name
  }

  /** Exactly the properties some mapped column names are written: blank and unknown headers write nothing. */
  lemma {:induction false} ObjectKeys(g: Grid, m: map<string, Property>, parse: Parser, r: nat, n: nat)
    requires 1 <= g.height && r < g.height && n <= g.width && Keyed(m)
    ensures forall name :: name in ObjectPrefix(g, m, parse, r, n) <==> exists c :: 0 <= c < n && Writes(g, m, c, name)
  {
    if n > 0 {
      ObjectKeys(g, m, parse, r, n - 1);
      forall name | name in ObjectPrefix(g, m, parse, r, n)
        ensures exists c :: 0 <= c < n && Writes(g, m, c, name)
      {
        if !Writes(g, m, n - 1, name) {
          assert name in ObjectPrefix(g, m, parse, r, n - 1);
        }
      }
    }
  }

  /** A property takes the value converted from the last column that names it. */
  lemma {:induction false} ObjectValue(g: Grid, m: map<string, Property>, parse: Parser, r: nat, n: nat, c: nat)
    requires 1 <= g.height && r < g.height && n <= g.width && Keyed(m)
    requires c < n && ColumnProperty(g, m, c).Some?
    requires forall c' :: c < c' < n ==> !Writes(g, m, c', ColumnProperty(g, m, c).value.name)
    ensures var p := ColumnProperty(g, m, c).value;
      p.name in ObjectPrefix(g, m, parse, r, n) &&
      ObjectPrefix(g, m, parse, r, n)[p.name] == ConvertCell(At(g, r, c), p.propType, parse)
  {
    if c < n - 1 {
      ObjectValue(g, m, parse, r, n - 1, c);
      assert !Writes(g, m, n - 1, ColumnProperty(g, m, c).value.name);
    }
  }

  /** Object r depends on nothing but the header row and grid row r. */
  lemma {:induction false} ObjectReadsOnlyItsRow(g1: Grid, g2: Grid, m: map<string, Property>, parse: Parser, r1: nat, r2: nat, n: nat)
    requires 1 <= g1.height && 1 <= g2.height && r1 < g1.height && r2 < g2.height && Keyed(m)
    requires g1.width == g2.width && n <= g1.width
    requires g1.cells[0] == g2.cells[0] && g1.cells[r1] == g2.cells[r2]
    ensures ObjectPrefix(g1, m, parse, r1, n) == ObjectPrefix(g2, m, parse, r2, n)
  {
    if n > 0 {
      ObjectReadsOnlyItsRow(g1, g2, m, parse, r1, r2, n - 1);
      assert ColumnProperty(g1, m, n - 1) == ColumnProperty(g2, m, n - 1);
      assert At(g1, r1, n - 1) == At(g2, r2, n - 1);
    }
  }

  // ---------------------------------------------------------------- MapCsvToObjects

  /** The columnInfos loop: the property each column's header names. */
  method ReadColumnInfos(g: Grid, m: map<string, Property>) returns (columnInfos: array<Option<Property>>)
    requires 1 <= g.height && Keyed(m)
    ensures fresh(columnInfos) && columnInfos.Length == g.width
    ensures forall c :: 0 <= c < g.width ==> columnInfos[c] == ColumnProperty(g, m, c)
  {
    columnInfos := new Option<Property>[g.width](_ => None);
    for c := 0 to g.width
      invariant forall c' :: 0 <= c' < c ==> columnInfos[c'] == ColumnProperty(g, m, c')
      invariant forall c' :: c <= c' < g.width ==> columnInfos[c'] == None
    {
      var propName := At(g, 0, c);
      if propName.None? || IsBlank(propName.value) {
        continue;
      }
      var key := UpperCase(propName.value);
      if key in m {
        columnInfos[c] := Some(m[key]);
      }
    }
  }

  /** The inner loop: the object of grid row r. */
  method BuildObject(g: Grid, m: map<string, Property>, parse: Parser, columnInfos: array<Option<Property>>, r: nat)
    returns (obj: map<string, Value>)
    requires 1 <= g.height && r < g.height && Keyed(m)
    requires columnInfos.Length == g.width
    requires forall c :: 0 <= c < g.width ==> columnInfos[c] == ColumnProperty(g, m, c)
    ensures obj == RowObject(g, m, parse, r)
  {
    obj := map[];
    for c := 0 to g.width
      invariant obj == ObjectPrefix(g, m, parse, r, c)
    {
      var info := columnInfos[c];
      if info.None? {
        continue;
      }
      var raw := At(g, r, c);
      var value := ConvertCell(raw, info.value.propType, parse);
      obj := obj[info.value.name := value];
    }
  }

  /**
   * MapCsvToObjects<T>(csv): null is an ArgumentNullException; fewer than
   * three rows give no objects; otherwise object i is built from grid row i + 2.
   */
  method MapCsvToObjects(csv: Option<Grid>, props: seq<Property>, parse: Parser)
    returns (result: Result<array<map<string, Value>>>)
    ensures csv.None? ==> result == Err(ArgumentNull("csv"))
    ensures csv.Some? ==> result.Ok? && fresh(result.value)
    ensures csv.Some? && csv.value.height < 3 ==> result.Ok? && result.value.Length == 0
    ensures csv.Some? && csv.value.height >= 3 ==>
      result.Ok? && result.value.Length == csv.value.height - 2 &&
      forall i :: 0 <= i < result.value.Length ==>
        result.value[i] == RowObject(csv.value, PropertyMap(props), parse, i + 2)
  {
    if csv.None? {
      return Err(ArgumentNull("csv"));
    }
    var g := csv.value;
    if g.height < 3 {
      var empty := new map<string, Value>[0];
      return Ok(empty);
    }
    var propertyMap := PropertyMap(props);
    var columnInfos := ReadColumnInfos(g, propertyMap);
    var objects := new map<string, Value>[g.height - 2](_ => map[]);
    for r := 2 to g.height
      modifies objects
      invariant forall i :: 0 <= i < r - 2 ==> objects[i] == RowObject(g, propertyMap, parse, i + 2)
    {
      var obj := BuildObject(g, propertyMap, parse, columnInfos, r);
      objects[r - 2] := obj;
    }
    return Ok(objects);
  }
}
