/** The part of Prisma's DMMF document (the data-model description handed to the
    converter) that the converter reads. */
module Dmmf {
  import opened Wrappers

  /** `DMMF.FieldKind`. */
  datatype FieldKind = ScalarKind | ObjectKind | EnumKind | UnsupportedKind

  /** The value of `field.default`, by its JavaScript `typeof`: a boolean, a string,
      a number (only integral numbers are modelled), or any other shape (such as the
      object Prisma uses for `now()` or `autoincrement()`). */
  datatype Default = DBool(b: bool) | DStr(s: string) | DNum(n: int) | DOther

  /** `DMMF.Field`, restricted to the properties the converter reads.
      `typeName` is the property `type`; `relationToFields` is `None` when the property is `undefined`. */
  datatype Field = Field(
    name: string,
    kind: FieldKind,
    typeName: string,
    isRequired: bool,
    default: Option<Default>,
    relationToFields: Option<seq<string>>)

  /** `DMMF.EnumValue`, restricted to its `name`. */
  datatype EnumValue = EnumValue(name: string)

  datatype Enum = Enum(name: string, values: seq<EnumValue>)

  /** `DMMF.Model`. */
  datatype Model = Model(name: string, fields: seq<Field>)

  /** `DMMF.Document`, through `datamodel.enums`: the only part the converter reads. */
  datatype Document = Document(enums: seq<Enum>)

  /** The two case conversions imported from the change-case library, taken as given functions. */
  datatype Casing = Casing(pascal: string -> string, snake: string -> string)
}
