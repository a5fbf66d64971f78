/** Concrete conversions, matching declarations that appear in the generated files under
    ent/schema. */
module Samples {
  import opened Wrappers
  import opened Seqs
  import opened Literals
  import opened Dmmf
  import opened Convert

  /** A required boolean with default `false` gets the default modifier and no optional one
      (`field.Bool("admin").Default(false)` in ent/schema/user.go). */
  lemma AdminField(d: Document, pascal: string -> string)
    ensures FieldToGo(Field("admin", ScalarKind, "Boolean", true, Some(DBool(false)), None), d, pascal)
      == Ok(Some(FieldOpen + "Bool(\"admin\")" + ".Default(false)"))
  {
    var f := Field("admin", ScalarKind, "Boolean", true, Some(DBool(false)), None);
    assert DefaultValue(f) == [DefaultCall(BoolText(false))];
    assert DefaultCall(BoolText(false)) == ".Default(false)";
    assert SuffixParts(f) == [] + [".Default(false)"];
    assert GetSuffixes(f) == ".Default(false)";
    assert GetFieldType(f, pascal) == "Bool";
    assert FieldOpen + "Bool" + "(\"" + "admin" + "\")" == FieldOpen + "Bool(\"admin\")";
  }

  /** A relation field becomes an edge (`edge.To("user", User.Type)` in ent/schema/git_hub.go)
      and no field declaration. */
  lemma UserRelation(d: Document, pascal: string -> string)
    ensures var f := Field("user", ObjectKind, "User", true, None, Some(["id"]));
      EdgeToGo(f) == "\n    edge.To(\"user\", User.Type)" && FieldToGo(f, d, pascal) == Ok(None)
  {
  }

  /** An enum field whose enum is not in the document fails the conversion. */
  lemma MissingStatusEnum(pascal: string -> string)
    ensures FieldToGo(Field("status", EnumKind, "Status", true, None, None), Document([]), pascal)
      == Err(MissingEnum("Status"))
  {
  }

  /** The model `GitHub` is written to ent/schema/git_hub.go. */
  lemma GitHubPath(d: Document, casing: Casing)
    requires casing.snake("GitHub") == "git_hub"
    ensures var r := ModelToGo(Model("GitHub", []), d, casing);
      r.Ok? && r.value.path == "./ent/schema/git_hub.go"
  {
  }
}
