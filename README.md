# prisment converter in Dafny

prisment turns a Prisma schema into Go schema files for the `ent` entity framework.
Its converter, `convert.ts`, is a pure translator. It takes the DMMF document that
Prisma produces (models, their fields, and enums) and renders one Go source file per
model. Each file has a path under `./ent/schema/` and declares the model as an ent
schema, with a `Fields()` list and an `Edges()` list.

This project models that translator as pure Dafny functions over datatypes and proves
properties about them:

- `wrappers.dfy` holds `Option` and `Result`.
- `seqs.dfy` holds the JavaScript array operations the converter uses (`join`, `map`,
  `filter`) and small string helpers.
- `literals.dfy` shows how a template literal writes a boolean or an integral number,
  and holds a decoder for integers.
- `dmmf.dfy` holds the part of the DMMF document the converter reads. The external
  `pascalCase` and `snakeCase` functions are a `Casing` value: two functions the model
  leaves uninterpreted.
- `convert.dfy` holds the converter itself: `slice`, `quotedSlice`, `optional`,
  `defaultValue`, `getFieldType`, `getSuffixes`, `enumToGo`, `fieldToGo`, `edgeToGo`
  and `modelToGo`.
- `decode.dfy` holds readers for the Go declarations the converter writes. Its
  round-trip lemmas show that each generated field or edge declaration gives back the
  field's name, builder, enum values in order, optionality and default.
- `convert_props.dfy` holds properties that span several functions:
  - which fields become declarations and which become edges, and in what order;
  - when conversion fails;
  - the shape of `slice`;
  - the `edge` import, which is always present.
- `samples.dfy` holds concrete conversions that match lines of the generated files
  under `ent/schema`.

An enum-kind field can name an enum that the document does not define. In that case
`enumToGo` throws on `enumData[0].map`. The model returns `Err(MissingEnum(type))`
instead. A model fails on its first such field, just as `fields.map` stops at the
first throw.

## Model

| member | source | states |
|---|---|---|
| Convert.Optional | convert.ts:17-23 | A required field gets no modifier. Any other field gets exactly one, and it is `.Optional()`. |
| Convert.RenderedDefault | convert.ts:30-50 | Only boolean, string and number defaults are rendered. Any other shape, and an absent default, renders nothing. |
| Convert.DefaultValue | convert.ts:25-51 | There is at most one modifier, present exactly when the default is boolean, string or number, and it starts with `.Default(`. |
| Convert.GetFieldType | convert.ts:53-64 | `Boolean` maps to `Bool` and `DateTime` maps to `Time`. Every other type maps to `pascalCase(type)`. No type is skipped. |
| Convert.FirstEnumSelected | convert.ts:77-80 | The name filter in `enumToGo` puts first the first enum in the document with the wanted name. |
| Convert.EnumToGo | convert.ts:74-84 | Rendering fails exactly when no enum has the field's type name, and the error names that type. |
| Convert.FieldToGo | convert.ts:86-101 | The result is a failure exactly for an enum field whose enum is missing. It is "no declaration" exactly for a non-enum field with `relationToFields` set. The enum test comes before the relation test. |
| Convert.ModelToGo | convert.ts:112 | A converted model is always written to `./ent/schema/` + `snakeCase(name)` + `.go`. |
| Literals.IntText | convert.ts:37-38 | An integral number renders as a minus sign exactly when it is negative, followed by decimal digits only, without leading zeros; zero renders as `0`. |
| Literals.BoolText | convert.ts:31-32 | A boolean renders as `true` exactly when it is true and as `false` exactly when it is false, so its text starts with neither a digit nor a minus sign. |
| Literals.IntTextRoundTrip | convert.ts:37-38 | Reading a rendered integer back gives the same integer. |
| ConvertProps.SliceTerminated | convert.ts:12 | `slice` (`Convert.Slice`) writes every entry followed by a comma, then a line break and indentation. An empty list renders as the line break and indentation alone. |
| ConvertProps.OptionalAtMostOnce | convert.ts:66-72 | The modifier list of a required field has no `.Optional()`. Any other field's list has exactly one. |
| ConvertProps.FieldListFails | convert.ts:118-120 | Converting a field list fails exactly when some enum field names a missing enum. The error comes from the first such field. |
| ConvertProps.FieldListConcat | convert.ts:118-120 | Converting a concatenation of fields concatenates the two results in order, and a failure in the first part wins. |
| ConvertProps.FieldListEntries | convert.ts:118-120 | The field list (`Convert.FieldList`) has one entry per field that is enum-kind or has no `relationToFields`. Each entry is that field's rendering, in field order, so scalar key fields of a relation are kept. |
| ConvertProps.FieldListCount | convert.ts:118-120 | Field declarations plus skipped relation fields add up to all the fields. No other field is dropped. |
| ConvertProps.EdgeListSplit | convert.ts:114-116 | In the edge list (`Convert.EdgeList`), a field contributes exactly one `edge.To` entry, at its place in field order, when its `relationToFields` is set. Otherwise it contributes none. |
| ConvertProps.ModelToGoFails | convert.ts:109-156 | A model converts exactly when none of its enum fields names a missing enum. Otherwise the error names the first missing enum. |
| ConvertProps.ModelToGoContents | convert.ts:118-150 | The source is the template (`Convert.Source`) filled with the model name, the `slice` of the field declarations as `FieldListEntries` describes them, and the `slice` of the edges of all relation fields in order. |
| ConvertProps.EdgeImportAlways | convert.ts:133 | Every generated file imports `entgo.io/ent/schema/edge`, at the same fixed place, whether or not the model has edges. |
| Decode.DefaultCallReads | convert.ts:32 | A `.Default(…)` modifier reads back as the literal inside it. |
| Decode.StringLiteralRoundTrip | convert.ts:35 | A double-quoted string default reads back as that string. |
| Decode.NumberLiteralRoundTrip | convert.ts:38 | A bare number default reads back as that number. |
| Decode.DefaultCallRoundTrip | convert.ts:25-51 | A rendered default modifier reads back as the default it came from. Booleans and numbers are bare, strings are quoted. |
| Decode.SuffixesAreNotValues | convert.ts:66-72 | No modifier string starts with `.Values(`. |
| Decode.SuffixesRoundTrip | convert.ts:66-72 | The modifier string of `getSuffixes` (`Convert.GetSuffixes`) reads back as the field's optionality followed by its default. `.Optional()` always comes first, and nothing else is encoded. |
| Decode.QuotedSliceCons | convert.ts:13 | The `quotedSlice` of two or more values is the first value quoted, a comma, then the `quotedSlice` of the rest. |
| Decode.QuotedRoundTrip | convert.ts:13 | A value without a double quote, once quoted, reads back up to its closing quote. |
| Decode.QuotedItemsCons | convert.ts:13 | A quoted value and a comma in front of a readable list extend that list by one value at the front. |
| Decode.SingleQuotedItem | convert.ts:13 | The `quotedSlice` of one value reads back as that value. |
| Decode.QuotedItemsStep | convert.ts:13 | If the `quotedSlice` of the tail reads back as the tail, the `quotedSlice` of the whole list reads back as the whole list. |
| Decode.QuotedItemsRoundTrip | convert.ts:13 | A non-empty `quotedSlice` reads back as the same values in the same order. |
| Decode.ValueListRoundTrip | convert.ts:13 | A possibly empty `quotedSlice` (`Convert.QuotedSlice`) followed by `)` reads back as the same values in order. |
| Decode.EdgeRoundTrip | convert.ts:103-107 | An `edge.To` declaration written by `edgeToGo` (`Convert.EdgeToGo`) reads back as the field's name and its type. |
| Decode.FieldHeadRoundTrip | convert.ts:99-100 | The head `field.<builder>("<name>")` reads back as its builder and name. |
| Decode.ScalarRestRoundTrip | convert.ts:99-100 | What follows a scalar field's head reads back as no value list, plus the field's optionality and default. |
| Decode.EnumRestRoundTrip | convert.ts:82-83 | What follows an enum field's head reads back as the quoted values in order, plus the optionality and default. |
| Decode.SelectedValuesUnquoted | convert.ts:77-80 | When no enum value name contains a double quote, neither do the values `enumToGo` selects. |
| Decode.EnumDeclRoundTrip | convert.ts:74-84 | An enum field declaration reads back as builder `Enum`, the field name, the selected values in order, the optionality and the default. |
| Decode.ScalarDeclRoundTrip | convert.ts:91-100 | A scalar field declaration reads back as the mapped type, the field name, the optionality and the default. |
| Decode.FieldDeclRoundTrip | convert.ts:86-101 | Every declaration `fieldToGo` writes reads back as its field: builder (`Enum` or the mapped type), name, optionality and default. For an enum field it also gives exactly the value names of the first enum of that name, in definition order, and a scalar field has no value list. |
| Samples.AdminField | ent/schema/user.go:23 | A required boolean `admin` with default `false` renders as `field.Bool("admin").Default(false)`. |
| Samples.UserRelation | ent/schema/git_hub.go:28 | The relation field `user` of type `User` renders as `edge.To("user", User.Type)` and has no field declaration. |
| Samples.MissingStatusEnum | convert.ts:80 | An enum field whose enum is not in the document fails the conversion. |
| Samples.GitHubPath | convert.ts:112 | The model `GitHub` is written to `./ent/schema/git_hub.go` when `snakeCase("GitHub")` is `git_hub`. |

## Left out

- Reading the Prisma schema with `getDMMF` (convert.ts:2, 164): an external service. The `Document` is an input.
- `save`, `mkdir`/`writeFile`, `Promise.all`, the async driver and its `console.log` (convert.ts:158-173): file-system I/O and async orchestration. The driver's `models.map` over all models (convert.ts:166) is left out with it, so each model's conversion is modelled on its own.
- The internals of `pascalCase` and `snakeCase` from `change-case` (convert.ts:3): a foreign library. They are uninterpreted functions passed in as `Casing`.
- The unused `when` helper (convert.ts:15) and the `fstat` import (convert.ts:4): dead code.
- DMMF field properties the converter never reads: they are not in the `Field` datatype.
- Non-integral numbers, and the exponent form JavaScript uses from 1e21 upwards: number defaults are Dafny integers written in plain decimal.
- Literals.IntText: number defaults above 2^53 in magnitude differ. A JavaScript number is a double, and `${n}` prints its shortest round-trip digits padded with zeros, so `2**64` prints as `18446744073709552000`. The model prints the exact digits of an unbounded integer, and it admits integers that no double represents.
- Convert.RenderedDefault: JavaScript's `typeof` cases other than boolean, string and number all collapse into one `DOther` shape, which renders nothing.
- String defaults, field names and enum value names are pasted in without escaping, in the model as in the source. The round-trip lemmas therefore require that names contain no double quote, and that a scalar builder name contains no `(`.
- Decode.FieldDeclRoundTrip: the enum values are stated through the first enum with the field's type name, and hold only when value names contain no double quote.
- The exact whitespace of the template (convert.ts:127-150) is kept literally, but no property is stated about it beyond where the name, the two lists and the `edge` import go.
- Three behaviours of the converter are modelled as written:
  - it keeps scalar key fields of a relation in the field list;
  - it has no "unmapped" type outcome, because every type other than `Boolean` and `DateTime` goes through `pascalCase`;
  - it writes the `edge` import even when a model has no edges.
