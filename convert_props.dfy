/** Properties of the converter that relate several of its functions: the shape of the
    rendered lists, which fields become declarations and edges and in what order, when a
    model fails to convert, and the fixed parts of the generated file. */
module ConvertProps {
  import opened Wrappers
  import opened Seqs
  import opened Dmmf
  import opened Convert

  /** Each entry followed by a comma. */
  function Terminated(l: seq<string>): string
  {
    if |l| == 0 then "" else l[0] + "," + Terminated(l[1..])
  }

  lemma {:induction false} JoinWithLast(l: seq<string>, last: string)
    ensures Join(l + [last], ",") == Terminated(l) + last
  {
    if |l| > 0 {
      assert (l + [last])[1..] == l[1..] + [last];
      JoinWithLast(l[1..], last);
    }
  }

  /** `slice` writes every entry followed by a comma and ends with a line break and
      indentation; an empty list is the line break and indentation alone. */
  lemma SliceTerminated(l: seq<string>)
    ensures Slice(l) == Terminated(l) + Indent
    ensures l == [] ==> Slice(l) == Indent
  {
    JoinWithLast(l, Indent);
  }

  /** A required field has no `.Optional()` modifier; any other field has exactly one. */
  lemma OptionalAtMostOnce(f: Field)
    ensures multiset(SuffixParts(f))[OptionalSuffix] == if f.isRequired then 0 else 1
  {
    var dv := DefaultValue(f);
    if |dv| == 1 {
      assert dv[0] in dv;
      assert dv[0][1] == 'D';
      assert dv[0] != OptionalSuffix;
      assert multiset(dv)[OptionalSuffix] == 0;
    }
    assert multiset(SuffixParts(f)) == multiset(Optional(f)) + multiset(dv);
  }

  /** `i` is the first field whose enum is missing. */
  predicate FirstMissing(fields: seq<Field>, d: Document, i: int)
  {
    0 <= i < |fields| && EnumMissing(fields[i], d) && forall j :: 0 <= j < i ==> !EnumMissing(fields[j], d)
  }

  /** Converting a field list fails exactly when some enum-kind field names an enum the
      document lacks, and it fails on the first such field. */
  lemma {:induction false} FieldListFails(fields: seq<Field>, d: Document, pascal: string -> string)
    ensures FieldList(fields, d, pascal).Err? <==> exists i :: 0 <= i < |fields| && EnumMissing(fields[i], d)
    ensures forall i :: FirstMissing(fields, d, i) ==> FieldList(fields, d, pascal) == Err(MissingEnum(fields[i].typeName))
  {
    if |fields| > 0 {
      FieldListFails(fields[1..], d, pascal);
      if !EnumMissing(fields[0], d) {
        forall i | FirstMissing(fields, d, i)
          ensures FirstMissing(fields[1..], d, i - 1)
        {
          assert i != 0;
        }
        if exists i :: 0 <= i < |fields| && EnumMissing(fields[i], d) {
          var i :| 0 <= i < |fields| && EnumMissing(fields[i], d);
          assert EnumMissing(fields[1..][i - 1], d);
        }
      }
    }
  }

  /** Converting a concatenation of field lists concatenates the results, in order. */
  lemma {:induction false} FieldListConcat(a: seq<Field>, b: seq<Field>, d: Document, pascal: string -> string)
    ensures FieldList(a + b, d, pascal) ==
      match FieldList(a, d, pascal)
      case Err(e) => Err(e)
      case Ok(la) =>
        match FieldList(b, d, pascal)
        case Err(e) => Err(e)
        case Ok(lb) => Ok(la + lb)
  {
    if |a| == 0 {
      assert a + b == b;
      match FieldList(b, d, pascal)
      case Err(e) =>
      case Ok(lb) => assert [] + lb == lb;
    } else {
      assert (a + b)[0] == a[0];
      assert (a + b)[1..] == a[1..] + b;
      FieldListConcat(a[1..], b, d, pascal);
      match FieldToGo(a[0], d, pascal)
      case Err(e) =>
      case Ok(o) =>
        match FieldList(a[1..], d, pascal)
        case Err(e) =>
        case Ok(la) =>
          match FieldList(b, d, pascal)
          case Err(e) =>
          case Ok(lb) =>
            var head := if o.Some? then [o.value] else [];
            assert head + (la + lb) == (head + la) + lb;
    }
  }

  /** The field list has one declaration per enum-kind field and per field without
      `relationToFields`, each the rendering of that field, in the fields' order. No other
      field is dropped: scalar key fields of a relation stay in the list. */
  lemma {:induction false} FieldListEntries(fields: seq<Field>, d: Document, pascal: string -> string)
    requires FieldList(fields, d, pascal).Ok?
    ensures |FieldList(fields, d, pascal).value| == |Filter(HasFieldDecl, fields)|
    ensures forall i :: 0 <= i < |Filter(HasFieldDecl, fields)| ==>
      FieldToGo(Filter(HasFieldDecl, fields)[i], d, pascal) == Ok(Some(FieldList(fields, d, pascal).value[i]))
  {
    if |fields| > 0 {
      var f := fields[0];
      FieldListEntries(fields[1..], d, pascal);
      var rest := FieldList(fields[1..], d, pascal).value;
      var emittedRest := Filter(HasFieldDecl, fields[1..]);
      if HasFieldDecl(f) {
        var o := FieldToGo(f, d, pascal).value;
        assert FieldList(fields, d, pascal).value == [o.value] + rest;
        assert Filter(HasFieldDecl, fields) == [f] + emittedRest;
      } else {
        assert FieldList(fields, d, pascal).value == rest;
        assert Filter(HasFieldDecl, fields) == emittedRest;
      }
    }
  }

  /** Fields skipped by `fieldToGo`: relation fields that are not enums. */
  predicate SkippedRelation(f: Field)
  {
    !HasFieldDecl(f)
  }

  /** The field declarations and the skipped relation fields account for every field. */
  lemma FieldListCount(fields: seq<Field>, d: Document, pascal: string -> string)
    requires FieldList(fields, d, pascal).Ok?
    ensures |FieldList(fields, d, pascal).value| + |Filter(SkippedRelation, fields)| == |fields|
  {
    FieldListEntries(fields, d, pascal);
    FilterPartition(HasFieldDecl, SkippedRelation, fields);
  }

  /** Each field with `relationToFields` set contributes exactly one edge, named after it and
      pointing at its type, at its place in the field order; no other field contributes one. */
  lemma EdgeListSplit(a: seq<Field>, f: Field, b: seq<Field>)
    ensures EdgeList(a + [f] + b) == EdgeList(a) + (if IsRelation(f) then [EdgeToGo(f)] else []) + EdgeList(b)
  {
    var fa, fm, fb := Filter(IsRelation, a), Filter(IsRelation, [f]), Filter(IsRelation, b);
    assert Filter(IsRelation, a + [f] + b) == fa + fm + fb by {
      FilterConcat(IsRelation, a + [f], b);
      FilterConcat(IsRelation, a, [f]);
    }
    assert Map(EdgeToGo, fa + fm + fb) == Map(EdgeToGo, fa) + Map(EdgeToGo, fm) + Map(EdgeToGo, fb) by {
      MapConcat(EdgeToGo, fa + fm, fb);
      MapConcat(EdgeToGo, fa, fm);
    }
    assert Map(EdgeToGo, fm) == if IsRelation(f) then [EdgeToGo(f)] else [];
  }

  /** A model converts exactly when none of its enum-kind fields names a missing enum; the
      failure names the enum of the first field that does. */
  lemma ModelToGoFails(m: Model, d: Document, casing: Casing)
    ensures ModelToGo(m, d, casing).Err? <==> exists i :: 0 <= i < |m.fields| && EnumMissing(m.fields[i], d)
    ensures forall i :: FirstMissing(m.fields, d, i) ==> ModelToGo(m, d, casing) == Err(MissingEnum(m.fields[i].typeName))
  {
    FieldListFails(m.fields, d, casing.pascal);
  }

  /** The generated file declares the model's fields, in the order and with the rendering
      of `FieldListEntries`, and its edges, in field order. */
  lemma ModelToGoContents(m: Model, d: Document, casing: Casing)
    requires ModelToGo(m, d, casing).Ok?
    ensures exists l: seq<string> ::
      && |l| == |Filter(HasFieldDecl, m.fields)|
      && (forall i :: 0 <= i < |l| ==> FieldToGo(Filter(HasFieldDecl, m.fields)[i], d, casing.pascal) == Ok(Some(l[i])))
      && ModelToGo(m, d, casing).value.source == Source(m.name, FieldsString(l), EdgesString(EdgeList(m.fields)))
  {
    FieldListEntries(m.fields, d, casing.pascal);
    var l := FieldList(m.fields, d, casing.pascal).value;
    assert ModelToGo(m, d, casing).value.source == Source(m.name, FieldsString(l), EdgesString(EdgeList(m.fields)));
  }

  /** The `edge` import is in every generated file, whether or not the model has edges. */
  lemma EdgeImportAlways(m: Model, d: Document, casing: Casing)
    requires ModelToGo(m, d, casing).Ok?
    ensures var source := ModelToGo(m, d, casing).value.source;
      |ImportsBeforeEdge| + |EdgeImport| <= |source|
      && source[|ImportsBeforeEdge|..|ImportsBeforeEdge| + |EdgeImport|] == EdgeImport
  {
    var fieldList := FieldList(m.fields, d, casing.pascal).value;
    var decls := Declarations(m.name, FieldsString(fieldList), EdgesString(EdgeList(m.fields)));
    SourceHasEdgeImport(ImportsBeforeEdge, EdgeImport, ")\n\n", decls);
  }

  lemma SourceHasEdgeImport(before: string, edge: string, close: string, decls: string)
    ensures |before| + |edge| <= |before + edge + close + decls|
    ensures (before + edge + close + decls)[|before|..|before| + |edge|] == edge
  {
    Assoc(before + edge, close, decls);
    MiddleSlice(before, edge, close + decls);
  }
}
