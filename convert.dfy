/** The converter of convert.ts: renders the models of a DMMF document as Go source
    files declaring ent schemas. Every member is a pure function, as in the source. */
module Convert {
  import opened Wrappers
  import opened Seqs
  import opened Literals
  import opened Dmmf

  /** A generated file: where it goes and what it holds. */
  datatype Schema = Schema(path: string, source: string)

  /** The one failure of the converter: an enum-kind field names an enum the document
      does not define, and `enumData[0].map` throws. */
  datatype ConvertError = MissingEnum(enumName: string)

  const Indent := "\n    "
  const FieldOpen := "\n        field."
  const EnumBuilder := "Enum"
  const ValuesOpen := ".Values("
  const EdgeOpen := "\n    edge.To(\""
  const OptionalSuffix := ".Optional()"
  const DefaultOpen := ".Default("
  const SchemaDir := "./ent/schema/"

  /** `slice`: every entry followed by a comma, then a line break and indentation. */
  function Slice(l: seq<string>): string
  {
    Join(l + [Indent], ",")
  }

  function Quote(v: string): string
  {
    "\"" + v + "\""
  }

  /** `quotedSlice`: the entries in double quotes, comma-separated. */
  function QuotedSlice(l: seq<string>): string
  {
    Join(Map(Quote, l), ",")
  }

  /** `optional`: a `.Optional()` modifier exactly when the field is not required. */
  function Optional(f: Field): (r: seq<string>)
    ensures |r| == (if f.isRequired then 0 else 1)
    ensures forall m :: m in r ==> m == OptionalSuffix
  {
    if f.isRequired then [] else [OptionalSuffix]
  }

  function DefaultCall(literal: string): string
  {
    DefaultOpen + literal + ")"
  }

  /** The default that `defaultValue` renders: booleans, strings and numbers; any other
      shape, like an absent default, renders nothing. */
  function RenderedDefault(d: Option<Default>): (r: Option<Default>)
    ensures r.Some? ==> d == r && !r.value.DOther?
    ensures d.Some? && !d.value.DOther? ==> r == d
  {
    match d
    case Some(DOther) => None
    case _ => d
  }

  /** `defaultValue`: at most one `.Default(…)` modifier, booleans and numbers bare,
      strings in double quotes. */
  function DefaultValue(f: Field): (r: seq<string>)
    ensures |r| == (if RenderedDefault(f.default).Some? then 1 else 0)
    ensures forall m :: m in r ==> DefaultOpen <= m
  {
    match f.default
    case None => []
    case Some(DBool(b)) => [DefaultCall(BoolText(b))]
    case Some(DStr(s)) => [DefaultCall(Quote(s))]
    case Some(DNum(n)) => [DefaultCall(IntText(n))]
    case Some(DOther) => []
  }

  /** `getFieldType`: the ent field builder for a scalar type. Every type has one. */
  function GetFieldType(f: Field, pascal: string -> string): (r: string)
    ensures f.typeName == "Boolean" ==> r == "Bool"
    ensures f.typeName == "DateTime" ==> r == "Time"
    ensures f.typeName != "Boolean" && f.typeName != "DateTime" ==> r == pascal(f.typeName)
  {
    match f.typeName
    case "Boolean" => "Bool"
    case "DateTime" => "Time"
    case _ => pascal(f.typeName)
  }

  /** The modifier list of `getSuffixes`, before it is joined. */
  function SuffixParts(f: Field): seq<string>
  {
    Optional(f) + DefaultValue(f)
  }

  /** `getSuffixes`: the optional modifier, then the default modifier, joined. */
  function GetSuffixes(f: Field): string
  {
    Join(SuffixParts(f), "")
  }

  /** The filter predicate of `enumToGo`: enums whose name equals `name`. */
  function HasName(name: string): Enum -> bool
  {
    (e: Enum) => e.name == name
  }

  function ValueName(v: EnumValue): string
  {
    v.name
  }

  /** `i` is the position of the first enum named `name`. */
  predicate FirstEnumNamed(enums: seq<Enum>, name: string, i: int)
  {
    0 <= i < |enums| && enums[i].name == name && forall j :: 0 <= j < i ==> enums[j].name != name
  }

  /** The lookup of `enumToGo` selects the first enum with the wanted name. */
  lemma FirstEnumSelected(enums: seq<Enum>, name: string, i: int)
    requires FirstEnumNamed(enums, name, i)
    ensures |Filter(HasName(name), enums)| > 0 && Filter(HasName(name), enums)[0] == enums[i]
  {
    var p := HasName(name);
    assert enums == enums[..i] + [enums[i]] + enums[i + 1..];
    FilterConcat(p, enums[..i] + [enums[i]], enums[i + 1..]);
    FilterConcat(p, enums[..i], [enums[i]]);
    FilterNone(p, enums[..i]);
    assert Filter(p, [enums[i]]) == [enums[i]];
  }

  /** Whether `enumToGo` throws for `f`: no enum in the document has the name `f.type`. */
  predicate EnumMissing(f: Field, d: Document)
  {
    f.kind == EnumKind && |Filter(HasName(f.typeName), d.enums)| == 0
  }

  /** `enumToGo`: an enum field whose values are those of the first enum named `f.type`. */
  function EnumToGo(f: Field, d: Document): (r: Result<string, ConvertError>)
    ensures r.Err? <==> |Filter(HasName(f.typeName), d.enums)| == 0
    ensures r.Err? ==> r.error == MissingEnum(f.typeName)
  {
    var suffixes := GetSuffixes(f);
    var enumData := Filter(HasName(f.typeName), d.enums);
    if |enumData| == 0 then Err(MissingEnum(f.typeName))
    else
      var enumValues := Map(ValueName, enumData[0].values);
      Ok(FieldOpen + EnumBuilder + "(\"" + f.name + "\")" + ValuesOpen + QuotedSlice(enumValues) + ")" + suffixes)
  }

  /** Fields that `fieldToGo` renders: enum fields, and fields whose `relationToFields` is falsy. */
  predicate HasFieldDecl(f: Field)
  {
    f.kind == EnumKind || f.relationToFields.None?
  }

  /** Fields that `modelToGo` renders as edges: `relationToFields !== undefined`. */
  predicate IsRelation(f: Field)
  {
    f.relationToFields.Some?
  }

  /** `fieldToGo`: the field declaration, `undefined` for a relation field that is not an
      enum, or the failure of `enumToGo`. */
  function FieldToGo(f: Field, d: Document, pascal: string -> string): (r: Result<Option<string>, ConvertError>)
    ensures r.Err? <==> EnumMissing(f, d)
    ensures r.Err? ==> r.error == MissingEnum(f.typeName)
    ensures r == Ok(None) <==> !HasFieldDecl(f)
  {
    if f.kind == EnumKind then
      match EnumToGo(f, d)
      case Err(e) => Err(e)
      case Ok(s) => Ok(Some(s))
    else
      var fieldType := GetFieldType(f, pascal);
      var suffixes := GetSuffixes(f);
      if f.relationToFields.Some? then Ok(None)
      else Ok(Some(FieldOpen + fieldType + "(\"" + f.name + "\")" + suffixes))
  }

  /** `edgeToGo`: an edge to the field's type, named after the field. */
  function EdgeToGo(f: Field): string
  {
    EdgeOpen + f.name + "\", " + f.typeName + ".Type)"
  }

  /** The `fieldList` of `modelToGo`: `fieldToGo` over the fields in order, dropping
      `undefined`; the first failure propagates. */
  function FieldList(fields: seq<Field>, d: Document, pascal: string -> string): Result<seq<string>, ConvertError>
  {
    if |fields| == 0 then Ok([])
    else
      match FieldToGo(fields[0], d, pascal)
      case Err(e) => Err(e)
      case Ok(o) =>
        match FieldList(fields[1..], d, pascal)
        case Err(e) => Err(e)
        case Ok(l) => Ok((if o.Some? then [o.value] else []) + l)
  }

  /** The `edgeList` of `modelToGo`. */
  function EdgeList(fields: seq<Field>): seq<string>
  {
    Map(EdgeToGo, Filter(IsRelation, fields))
  }

  const ImportsBeforeEdge := "\npackage schema\n\nimport (\n    \"entgo.io/ent\"\n    \"entgo.io/ent/schema/field\"\n"
  const EdgeImport := "    \"entgo.io/ent/schema/edge\"\n"

  /** The package clause and import block of the template; the `edge` import is always there. */
  const Header := ImportsBeforeEdge + EdgeImport + ")\n\n"

  /** The declarations of the template, filled with the entity name and the two rendered lists. */
  function Declarations(name: string, fieldsString: string, edgesString: string): string
  {
    "// " + name + " holds the schema definition for the " + name + " entity.\n"
    + "type " + name + " struct {\n    ent.Schema\n}\n\n"
    + "// Fields of " + name + ".\n"
    + "func (" + name + ") Fields() []ent.Field {\n    return " + fieldsString + "\n}\n\n"
    + "// Edges of " + name + ".\n"
    + "func (" + name + ") Edges() []ent.Edge {\n    return " + edgesString + "\n}\n"
  }

  /** The template of `modelToGo`. */
  function Source(name: string, fieldsString: string, edgesString: string): string
  {
    Header + Declarations(name, fieldsString, edgesString)
  }

  function FieldsString(fieldList: seq<string>): string
  {
    "[]ent.Field{" + Slice(fieldList) + "}"
  }

  function EdgesString(edgeList: seq<string>): string
  {
    "[]ent.Edge{" + Slice(edgeList) + "}"
  }

  function SchemaPath(name: string, casing: Casing): string
  {
    SchemaDir + casing.snake(name) + ".go"
  }

  /** `modelToGo`: the schema file of one model. */
  function ModelToGo(m: Model, d: Document, casing: Casing): (r: Result<Schema, ConvertError>)
    ensures r.Ok? ==> r.value.path == SchemaDir + casing.snake(m.name) + ".go"
  {
    var path := SchemaPath(m.name, casing);
    var edges := Filter(IsRelation, m.fields);
    var edgeList := Map(EdgeToGo, edges);
    match FieldList(m.fields, d, casing.pascal)
    case Err(e) => Err(e)
    case Ok(fieldList) =>
      Ok(Schema(path, Source(m.name, FieldsString(fieldList), EdgesString(edgeList))))
  }
}
