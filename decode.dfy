/** Readers for the Go text the converter writes. They are the converter's inverse: the
    round-trip lemmas show that a generated field or edge declaration gives back exactly
    the name, builder, enum values (in order), optionality and default it was made from. */
module Decode {
  import opened Wrappers
  import opened Seqs
  import opened Literals
  import opened Dmmf
  import opened Convert

  /** What a field declaration `field.<builder>("<name>")[.Values(…)][.Optional()][.Default(…)]` says. */
  datatype FieldDecl = FieldDecl(
    builder: string,
    name: string,
    values: Option<seq<string>>,
    optional: bool,
    default: Option<Default>)

  /** What an edge declaration `edge.To("<name>", <target>.Type)` says. */
  datatype EdgeDecl = EdgeDecl(name: string, target: string)

  const TypeSuffix := ".Type)"

  function ParseDefaultLiteral(lit: string): Option<Default>
  {
    if lit == "true" then Some(DBool(true))
    else if lit == "false" then Some(DBool(false))
    else if 2 <= |lit| && lit[0] == '"' && lit[|lit| - 1] == '"' then Some(DStr(lit[1..|lit| - 1]))
    else match ParseInt(lit)
      case Some(n) => Some(DNum(n))
      case None => None
  }

  function ParseDefaultCall(s: string): Option<Default>
  {
    if |DefaultOpen| < |s| && DefaultOpen <= s && s[|s| - 1] == ')' then
      ParseDefaultLiteral(s[|DefaultOpen|..|s| - 1])
    else None
  }

  /** Reads a modifier string: whether it marks the field optional, and its default. */
  function ParseSuffixes(s: string): Option<(bool, Option<Default>)>
  {
    var optional := OptionalSuffix <= s;
    var rest := if optional then s[|OptionalSuffix|..] else s;
    if rest == "" then Some((optional, None))
    else match ParseDefaultCall(rest)
      case None => None
      case Some(d) => Some((optional, Some(d)))
  }

  /** Reads one quoted string; returns it and the text after its closing quote. */
  function ParseQuoted(s: string): (r: Option<(string, string)>)
    ensures r.Some? ==> |r.value.1| < |s|
  {
    if |s| == 0 || s[0] != '"' then None else SplitAt(s[1..], '"')
  }

  /** Reads one or more comma-separated quoted strings; returns them and the text after them. */
  function ParseQuotedItems(s: string): Option<(seq<string>, string)>
    decreases |s|
  {
    match ParseQuoted(s)
    case None => None
    case Some((v, rest)) =>
      if 0 < |rest| && rest[0] == ',' then
        match ParseQuotedItems(rest[1..])
        case None => None
        case Some((vs, t)) => Some(([v] + vs, t))
      else Some(([v], rest))
  }

  /** Reads a possibly empty list of quoted strings. */
  function ParseValueList(s: string): Option<(seq<string>, string)>
  {
    if 0 < |s| && s[0] == '"' then ParseQuotedItems(s) else Some(([], s))
  }

  /** Reads `field.<builder>("<name>")` and returns the builder, the name and the text after it. */
  function ParseFieldHead(s: string): Option<(string, string, string)>
  {
    match StripPrefix(FieldOpen, s)
    case None => None
    case Some(a) =>
      match SplitAt(a, '(')
      case None => None
      case Some((builder, b)) =>
        match StripPrefix("\"", b)
        case None => None
        case Some(c) =>
          match SplitAt(c, '"')
          case None => None
          case Some((name, d)) =>
            match StripPrefix(")", d)
            case None => None
            case Some(e) => Some((builder, name, e))
  }

  /** Reads what follows the head of a field declaration: an optional `.Values(…)` list, then the modifiers. */
  function ParseFieldRest(builder: string, name: string, e: string): Option<FieldDecl>
  {
    match StripPrefix(ValuesOpen, e)
    case Some(list) =>
      (match ParseValueList(list)
       case None => None
       case Some((vs, g)) =>
         match StripPrefix(")", g)
         case None => None
         case Some(h) =>
           match ParseSuffixes(h)
           case None => None
           case Some((opt, def)) => Some(FieldDecl(builder, name, Some(vs), opt, def)))
    case None =>
      match ParseSuffixes(e)
      case None => None
      case Some((opt, def)) => Some(FieldDecl(builder, name, None, opt, def))
  }

  /** Reads a field declaration as written by `FieldToGo`. */
  function ParseFieldDecl(s: string): Option<FieldDecl>
  {
    match ParseFieldHead(s)
    case None => None
    case Some((builder, name, e)) => ParseFieldRest(builder, name, e)
  }

  /** Reads an edge declaration as written by `EdgeToGo`. */
  function ParseEdge(s: string): Option<EdgeDecl>
  {
    match StripPrefix(EdgeOpen, s)
    case None => None
    case Some(a) =>
      match SplitAt(a, '"')
      case None => None
      case Some((name, b)) =>
        match StripPrefix(", ", b)
        case None => None
        case Some(c) =>
          if |TypeSuffix| <= |c| && c[|c| - |TypeSuffix|..] == TypeSuffix then
            Some(EdgeDecl(name, c[..|c| - |TypeSuffix|]))
          else None
  }

  /** A `.Default(…)` modifier reads back as the literal inside it. */
  lemma DefaultCallReads(lit: string)
    ensures ParseDefaultCall(DefaultCall(lit)) == ParseDefaultLiteral(lit)
  {
    var call := DefaultCall(lit);
    assert call == DefaultOpen + lit + ")";
    MiddleSlice(DefaultOpen, lit, ")");
  }

  lemma StringLiteralRoundTrip(s: string)
    ensures ParseDefaultLiteral(Quote(s)) == Some(DStr(s))
  {
    var lit := Quote(s);
    assert lit[0] == '"';
    assert lit[1..|lit| - 1] == s;
  }

  lemma NumberLiteralRoundTrip(n: int)
    ensures ParseDefaultLiteral(IntText(n)) == Some(DNum(n))
  {
    var lit := IntText(n);
    IntTextRoundTrip(n);
    assert lit != "true" && lit != "false" by {
      assert lit[0] != 't' && lit[0] != 'f';
    }
  }

  /** A rendered default reads back as the default it was rendered from. */
  lemma DefaultCallRoundTrip(f: Field)
    ensures |DefaultValue(f)| == 1 ==> ParseDefaultCall(DefaultValue(f)[0]) == RenderedDefault(f.default)
  {
    match f.default
    case Some(DBool(b)) => DefaultCallReads(BoolText(b));
    case Some(DStr(s)) => DefaultCallReads(Quote(s)); StringLiteralRoundTrip(s);
    case Some(DNum(n)) => DefaultCallReads(IntText(n)); NumberLiteralRoundTrip(n);
    case _ =>
  }

  /** No modifier string starts with `.Values(`. */
  lemma SuffixesAreNotValues(f: Field)
    ensures !(ValuesOpen <= GetSuffixes(f))
  {
    var s := GetSuffixes(f);
    var parts := SuffixParts(f);
    if |parts| == 1 {
      assert s == parts[0];
    } else if |parts| == 2 {
      assert Join(parts[1..], "") == parts[1];
      assert s == parts[0] + "" + parts[1];
    }
    if |s| > 1 {
      assert s[1] == 'O' || s[1] == 'D';
    }
  }

  /** The modifier string reads back as the field's optionality followed by its default:
      the optional modifier always comes first, and nothing else is encoded. */
  lemma SuffixesRoundTrip(f: Field)
    ensures ParseSuffixes(GetSuffixes(f)) == Some((!f.isRequired, RenderedDefault(f.default)))
  {
    var s := GetSuffixes(f);
    var dv := DefaultValue(f);
    DefaultCallRoundTrip(f);
    if f.isRequired {
      if |dv| == 1 {
        assert s == dv[0];
        assert s[1] == 'D';
        assert !(OptionalSuffix <= s);
      } else {
        assert s == "";
      }
    } else {
      if |dv| == 1 {
        assert SuffixParts(f) == [OptionalSuffix] + dv;
        assert SuffixParts(f)[1..] == dv;
        assert Join(dv, "") == dv[0];
        assert s == OptionalSuffix + "" + dv[0];
        assert s[|OptionalSuffix|..] == dv[0];
      } else {
        assert s == OptionalSuffix;
      }
    }
  }

  lemma QuotedSliceCons(vs: seq<string>)
    requires |vs| > 1
    ensures QuotedSlice(vs) == Quote(vs[0]) + "," + QuotedSlice(vs[1..])
  {
    assert Map(Quote, vs)[1..] == Map(Quote, vs[1..]);
  }

  /** A quoted string is read up to its closing quote. */
  lemma QuotedRoundTrip(v: string, rest: string)
    requires '"' !in v
    ensures ParseQuoted(Quote(v) + rest) == Some((v, rest))
  {
    var s := Quote(v) + rest;
    assert s[1..] == v + ['"'] + rest;
    SplitAtFirst(v, '"', rest);
  }

  /** A quoted item followed by a comma continues with the list after the comma. */
  lemma QuotedItemsCons(v: string, tail: string, vs: seq<string>, t: string)
    requires '"' !in v
    requires ParseQuotedItems(tail) == Some((vs, t))
    ensures ParseQuotedItems(Quote(v) + ("," + tail)) == Some(([v] + vs, t))
  {
    var rest := "," + tail;
    QuotedRoundTrip(v, rest);
    assert rest[1..] == tail;
  }

  lemma SingleQuotedItem(vs: seq<string>, t: string)
    requires |vs| == 1 && '"' !in vs[0]
    requires |t| == 0 || t[0] != ','
    ensures ParseQuotedItems(QuotedSlice(vs) + t) == Some((vs, t))
  {
    assert QuotedSlice(vs) == Quote(vs[0]);
    QuotedRoundTrip(vs[0], t);
    assert vs == [vs[0]];
  }

  /** A non-empty quoted list, followed by text that does not continue it, reads back in order. */
  lemma {:induction false} QuotedItemsRoundTrip(vs: seq<string>, t: string)
    requires |vs| > 0
    requires forall v :: v in vs ==> '"' !in v
    requires |t| == 0 || t[0] != ','
    ensures ParseQuotedItems(QuotedSlice(vs) + t) == Some((vs, t))
  {
    if |vs| == 1 {
      SingleQuotedItem(vs, t);
    } else {
      QuotedItemsRoundTrip(vs[1..], t);
      QuotedItemsStep(vs, t);
    }
  }

  /** One more leading item: the reading of the rest extends to the whole list. */
  lemma QuotedItemsStep(vs: seq<string>, t: string)
    requires |vs| > 1 && '"' !in vs[0]
    requires ParseQuotedItems(QuotedSlice(vs[1..]) + t) == Some((vs[1..], t))
    ensures ParseQuotedItems(QuotedSlice(vs) + t) == Some((vs, t))
  {
    var q, tail := Quote(vs[0]), QuotedSlice(vs[1..]) + t;
    assert QuotedSlice(vs) + t == q + ("," + tail) by {
      QuotedSliceCons(vs);
      Assoc(q + ",", QuotedSlice(vs[1..]), t);
      Assoc(q, ",", tail);
    }
    QuotedItemsCons(vs[0], tail, vs[1..], t);
    assert [vs[0]] + vs[1..] == vs;
  }

  /** A quoted list, possibly empty, followed by a closing parenthesis reads back in order. */
  lemma ValueListRoundTrip(vs: seq<string>, t: string)
    requires forall v :: v in vs ==> '"' !in v
    requires |t| > 0 && t[0] == ')'
    ensures ParseValueList(QuotedSlice(vs) + t) == Some((vs, t))
  {
    if |vs| == 0 {
      assert QuotedSlice(vs) + t == t;
    } else {
      QuotedItemsRoundTrip(vs, t);
      assert (QuotedSlice(vs) + t)[0] == '"';
    }
  }

  /** An edge declaration reads back as the field's name and type. */
  lemma EdgeRoundTrip(f: Field)
    requires '"' !in f.name
    ensures ParseEdge(EdgeToGo(f)) == Some(EdgeDecl(f.name, f.typeName))
  {
    var c := f.typeName + TypeSuffix;
    var a := f.name + ['"'] + (", " + c);
    assert EdgeToGo(f) == EdgeOpen + a;
    StripPrefixOf(EdgeOpen, a);
    SplitAtFirst(f.name, '"', ", " + c);
    StripPrefixOf(", ", c);
    assert c[|c| - |TypeSuffix|..] == TypeSuffix;
    assert c[..|c| - |TypeSuffix|] == f.typeName;
  }

  /** The head of a field declaration reads back as its builder and name. */
  lemma FieldHeadRoundTrip(builder: string, name: string, e: string)
    requires '(' !in builder && '"' !in name
    ensures ParseFieldHead(FieldOpen + builder + "(\"" + name + "\")" + e) == Some((builder, name, e))
  {
    var d := ")" + e;
    var c := name + ['"'] + d;
    var b := "\"" + c;
    var a := builder + ['('] + b;
    assert FieldOpen + builder + "(\"" + name + "\")" + e == FieldOpen + a;
    StripPrefixOf(FieldOpen, a);
    SplitAtFirst(builder, '(', b);
    StripPrefixOf("\"", c);
    SplitAtFirst(name, '"', d);
    StripPrefixOf(")", e);
  }

  /** The modifiers after a scalar field's head read back as its optionality and default. */
  lemma ScalarRestRoundTrip(builder: string, name: string, f: Field)
    ensures ParseFieldRest(builder, name, GetSuffixes(f))
      == Some(FieldDecl(builder, name, None, !f.isRequired, RenderedDefault(f.default)))
  {
    SuffixesAreNotValues(f);
    SuffixesRoundTrip(f);
  }

  /** The value list and modifiers after an enum field's head read back as the values, in order,
      the optionality and the default. */
  lemma EnumRestRoundTrip(builder: string, name: string, vs: seq<string>, f: Field)
    requires forall v :: v in vs ==> '"' !in v
    ensures ParseFieldRest(builder, name, ValuesOpen + QuotedSlice(vs) + ")" + GetSuffixes(f))
      == Some(FieldDecl(builder, name, Some(vs), !f.isRequired, RenderedDefault(f.default)))
  {
    var h := GetSuffixes(f);
    var g := ")" + h;
    var e := ValuesOpen + QuotedSlice(vs) + ")" + h;
    assert StripPrefix(ValuesOpen, e) == Some(QuotedSlice(vs) + g) by {
      Assoc(ValuesOpen + QuotedSlice(vs), ")", h);
      Assoc(ValuesOpen, QuotedSlice(vs), g);
      StripPrefixOf(ValuesOpen, QuotedSlice(vs) + g);
    }
    assert ParseValueList(QuotedSlice(vs) + g) == Some((vs, g)) by {
      ValueListRoundTrip(vs, g);
    }
    assert StripPrefix(")", g) == Some(h) by {
      StripPrefixOf(")", h);
    }
    assert ParseSuffixes(h) == Some((!f.isRequired, RenderedDefault(f.default))) by {
      SuffixesRoundTrip(f);
    }
  }


  /** No enum value name of the document contains a double quote (Prisma enum values are identifiers). */
  predicate ValuesUnquoted(d: Document)
  {
    forall e, v :: e in d.enums && v in e.values ==> '"' !in v.name
  }

  /** The value names of the enum `enumToGo` selects for `f`. */
  function SelectedValues(f: Field, d: Document): seq<string>
    requires !EnumMissing(f, d) && f.kind == EnumKind
  {
    Map(ValueName, Filter(HasName(f.typeName), d.enums)[0].values)
  }

  lemma SelectedValuesUnquoted(f: Field, d: Document)
    requires !EnumMissing(f, d) && f.kind == EnumKind && ValuesUnquoted(d)
    ensures forall v :: v in SelectedValues(f, d) ==> '"' !in v
  {
    var e := Filter(HasName(f.typeName), d.enums)[0];
    var vs := SelectedValues(f, d);
    assert e in d.enums;
    forall v | v in vs ensures '"' !in v {
      var k :| 0 <= k < |vs| && vs[k] == v;
      assert e.values[k] in e.values;
    }
  }

  /** An enum field declaration reads back as `Enum`, the name, the selected values in
      order, the optionality and the default. */
  lemma EnumDeclRoundTrip(f: Field, d: Document, s: string)
    requires f.kind == EnumKind && EnumToGo(f, d) == Ok(s)
    requires '"' !in f.name && ValuesUnquoted(d)
    ensures ParseFieldDecl(s) ==
      Some(FieldDecl(EnumBuilder, f.name, Some(SelectedValues(f, d)), !f.isRequired, RenderedDefault(f.default)))
  {
    var vs := SelectedValues(f, d);
    SelectedValuesUnquoted(f, d);
    var e := ValuesOpen + QuotedSlice(vs) + ")" + GetSuffixes(f);
    assert s == FieldOpen + EnumBuilder + "(\"" + f.name + "\")" + e;
    assert ParseFieldHead(s) == Some((EnumBuilder, f.name, e)) by {
      assert '(' !in EnumBuilder;
      FieldHeadRoundTrip(EnumBuilder, f.name, e);
    }
    EnumRestRoundTrip(EnumBuilder, f.name, vs, f);
  }

  /** A scalar field declaration reads back as the mapped type, the name, the optionality and
      the default. */
  lemma ScalarDeclRoundTrip(f: Field, d: Document, pascal: string -> string, s: string)
    requires f.kind != EnumKind && FieldToGo(f, d, pascal) == Ok(Some(s))
    requires '"' !in f.name && '(' !in GetFieldType(f, pascal)
    ensures ParseFieldDecl(s) ==
      Some(FieldDecl(GetFieldType(f, pascal), f.name, None, !f.isRequired, RenderedDefault(f.default)))
  {
    var builder := GetFieldType(f, pascal);
    var e := GetSuffixes(f);
    assert s == FieldOpen + builder + "(\"" + f.name + "\")" + e;
    assert ParseFieldHead(s) == Some((builder, f.name, e)) by {
      FieldHeadRoundTrip(builder, f.name, e);
    }
    ScalarRestRoundTrip(builder, f.name, f);
  }

  /** Every field declaration `fieldToGo` produces reads back as the field it came from:
      its builder (`Enum` for an enum field, the mapped type otherwise), its name, for an enum
      field the value names of the first enum of that name in definition order, its
      optionality and its rendered default. */
  lemma FieldDeclRoundTrip(f: Field, d: Document, pascal: string -> string, s: string)
    requires FieldToGo(f, d, pascal) == Ok(Some(s))
    requires '"' !in f.name && ValuesUnquoted(d)
    requires f.kind != EnumKind ==> '(' !in GetFieldType(f, pascal)
    ensures ParseFieldDecl(s).Some?
    ensures ParseFieldDecl(s).value.name == f.name
    ensures ParseFieldDecl(s).value.builder == if f.kind == EnumKind then EnumBuilder else GetFieldType(f, pascal)
    ensures ParseFieldDecl(s).value.optional == !f.isRequired
    ensures ParseFieldDecl(s).value.default == RenderedDefault(f.default)
    ensures ParseFieldDecl(s).value.values.Some? <==> f.kind == EnumKind
    ensures forall i :: f.kind == EnumKind && FirstEnumNamed(d.enums, f.typeName, i) ==>
      ParseFieldDecl(s).value.values == Some(Map(ValueName, d.enums[i].values))
  {
    if f.kind == EnumKind {
      EnumDeclRoundTrip(f, d, s);
      forall i | FirstEnumNamed(d.enums, f.typeName, i)
        ensures SelectedValues(f, d) == Map(ValueName, d.enums[i].values)
      {
        FirstEnumSelected(d.enums, f.typeName, i);
      }
    } else {
      ScalarDeclRoundTrip(f, d, pascal, s);
    }
  }
}
