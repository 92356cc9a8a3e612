/** From row images to document operations. */
module Rows {
  import opened BulkData
  import opened DocumentStore

  datatype Column = Column(name: string, oid: nat)

  /** A relation message: the columns of a table. */
  datatype Relation = Relation(columns: seq<Column>)

  /** One column of a tuple; `kind` is the protocol's type byte. */
  datatype TupleColumn = TupleColumn(kind: char, data: Bytes)

  type Tuple = seq<TupleColumn>

  /** Library code this program calls: column decoding, printing an id and JSON marshalling. Each
      may fail as the library may. */
  datatype Codec = Codec(
    decodeText: (Bytes, nat) -> Option<Value>,
    decodeBinary: (Bytes, nat) -> Option<Value>,
    printId: Value -> string,
    marshal: Option<Doc> -> Option<Bytes>)

  ghost predicate Fits(rel: Relation, tuple: Option<Tuple>) {
    tuple.Some? ==> |tuple.value| <= |rel.columns|
  }

  /** The value a tuple column puts into the document; None when it is left out. */
  function ColumnValue(cx: Codec, rel: Relation, tuple: Tuple, i: nat): Option<Value>
    requires i < |tuple| <= |rel.columns|
  {
    match tuple[i].kind
    case 'n' => Some(Nil)
    case 't' => cx.decodeText(tuple[i].data, rel.columns[i].oid)
    case 'b' => cx.decodeBinary(tuple[i].data, rel.columns[i].oid)
    case _ => None
  }

  /** Column `i` of the tuple carries the value `v`: 'n' stands for null, 't' and 'b' for a value in
      text or binary format. */
  predicate Carries(cx: Codec, rel: Relation, tuple: Tuple, i: nat, v: Value)
    requires i < |tuple| <= |rel.columns|
  {
    var col, oid := tuple[i], rel.columns[i].oid;
    || (col.kind == 'n' && v == Nil)
    || (col.kind == 't' && cx.decodeText(col.data, oid) == Some(v))
    || (col.kind == 'b' && cx.decodeBinary(col.data, oid) == Some(v))
  }

  /** Column `i` carries no value: an unchanged TOAST value, an unknown kind, or one that fails to decode. */
  predicate LeftOut(cx: Codec, rel: Relation, tuple: Tuple, i: nat)
    requires i < |tuple| <= |rel.columns|
  {
    var col, oid := tuple[i], rel.columns[i].oid;
    && col.kind != 'n'
    && (col.kind == 't' ==> cx.decodeText(col.data, oid).None?)
    && (col.kind == 'b' ==> cx.decodeBinary(col.data, oid).None?)
  }

  /** The values of the first `n` columns; a later column of the same name wins. */
  function PrefixValues(cx: Codec, rel: Relation, tuple: Tuple, n: nat): Doc
    requires n <= |tuple| <= |rel.columns|
  {
    if n == 0 then map[]
    else
      var before := PrefixValues(cx, rel, tuple, n - 1);
      var value := ColumnValue(cx, rel, tuple, n - 1);
      if value.None? then before else before[rel.columns[n - 1].name := value.value]
  }

  function Values(cx: Codec, rel: Relation, tuple: Option<Tuple>): Option<Doc>
    requires Fits(rel, tuple)
  {
    if tuple.None? then None else Some(PrefixValues(cx, rel, tuple.value, |tuple.value|))
  }

  /** `tupleToValues` */
  method TupleToValues(cx: Codec, rel: Relation, tuple: Option<Tuple>) returns (values: Option<Doc>)
    requires Fits(rel, tuple)
    ensures values == Values(cx, rel, tuple)
  {
    if tuple.None? {
      return None;
    }
    var columns := tuple.value;
    var doc: Doc := map[];
    for idx := 0 to |columns|
      invariant doc == PrefixValues(cx, rel, columns, idx)
    {
      var col := columns[idx];
      var colName := rel.columns[idx].name;
      match col.kind {
        case 'n' =>
          doc := doc[colName := Nil];
        case 'u' =>
        case 't' =>
          var val := cx.decodeText(col.data, rel.columns[idx].oid);
          if val.None? {
            continue;
          }
          doc := doc[colName := val.value];
        case 'b' =>
          var val := cx.decodeBinary(col.data, rel.columns[idx].oid);
          if val.None? {
            continue;
          }
          doc := doc[colName := val.value];
        case _ =>
      }
    }
    return Some(doc);
  }

  /** `documentID`: an absent or null id column gives none. */
  function DocumentId(cx: Codec, idColumn: string, values: Option<Doc>): Option<string> {
    if values.None? then None
    else if idColumn !in values.value || values.value[idColumn] == Nil then None
    else Some(cx.printId(values.value[idColumn]))
  }

  /** `valuesToData` */
  function ValuesToData(cx: Codec, id: string, action: ActionCode, values: Option<Doc>): Option<Data> {
    var body := cx.marshal(values);
    if body.None? then None else Some(Data(id, action, body.value))
  }

  /** `deleteData` */
  function DeleteData(id: string): Data {
    Data(id, DELETE, "")
  }

  /** Column `i` carries a value, and no later one of the same name does. */
  ghost predicate LastOfName(cx: Codec, rel: Relation, tuple: Tuple, n: nat, i: nat)
    requires i < n <= |tuple| <= |rel.columns|
  {
    && !LeftOut(cx, rel, tuple, i)
    && forall j :: i < j < n && rel.columns[j].name == rel.columns[i].name ==> LeftOut(cx, rel, tuple, j)
  }

  /** The document of the first `n` columns: every name has the value that the last column of that
      name to carry one carries, and no other name is in it. */
  ghost predicate DocumentOf(cx: Codec, rel: Relation, tuple: Tuple, n: nat, doc: Doc)
    requires n <= |tuple| <= |rel.columns|
  {
    && (forall name :: name in doc ==>
          exists i :: 0 <= i < n && rel.columns[i].name == name && !LeftOut(cx, rel, tuple, i))
    && (forall i :: 0 <= i < n && LastOfName(cx, rel, tuple, n, i) ==>
          rel.columns[i].name in doc && Carries(cx, rel, tuple, i, doc[rel.columns[i].name]))
  }

  /** What `tupleToValues` makes of a tuple, in terms of its bytes, for any column names. */
  lemma {:induction false} ValuesAreDocument(cx: Codec, rel: Relation, tuple: Option<Tuple>)
    requires Fits(rel, tuple)
    ensures tuple.None? ==> Values(cx, rel, tuple).None?
    ensures tuple.Some? ==>
              && Values(cx, rel, tuple).Some?
              && DocumentOf(cx, rel, tuple.value, |tuple.value|, Values(cx, rel, tuple).value)
  {
    if tuple.Some? {
      PrefixIsDocument(cx, rel, tuple.value, |tuple.value|);
    }
  }

  lemma {:induction false} PrefixIsDocument(cx: Codec, rel: Relation, tuple: Tuple, n: nat)
    requires n <= |tuple| <= |rel.columns|
    ensures DocumentOf(cx, rel, tuple, n, PrefixValues(cx, rel, tuple, n))
  {
    if n > 0 {
      PrefixIsDocument(cx, rel, tuple, n - 1);
      forall i | 0 <= i < n && LastOfName(cx, rel, tuple, n, i)
        ensures
          var doc := PrefixValues(cx, rel, tuple, n);
          rel.columns[i].name in doc && Carries(cx, rel, tuple, i, doc[rel.columns[i].name])
      {
        LastOfNameIsCarried(cx, rel, tuple, n, i);
      }
    }
  }

  lemma LastOfNameIsCarried(cx: Codec, rel: Relation, tuple: Tuple, n: nat, i: nat)
    requires i < n <= |tuple| <= |rel.columns| && LastOfName(cx, rel, tuple, n, i)
    requires DocumentOf(cx, rel, tuple, n - 1, PrefixValues(cx, rel, tuple, n - 1))
    ensures
      var doc := PrefixValues(cx, rel, tuple, n);
      rel.columns[i].name in doc && Carries(cx, rel, tuple, i, doc[rel.columns[i].name])
  {
    if i < n - 1 {
      assert LastOfName(cx, rel, tuple, n - 1, i);
      if rel.columns[n - 1].name == rel.columns[i].name {
        assert LeftOut(cx, rel, tuple, n - 1);
      }
    }
  }

  predicate DistinctColumns(rel: Relation) {
    forall i, j :: 0 <= i < j < |rel.columns| ==> rel.columns[i].name != rel.columns[j].name
  }

  function Field(doc: Doc, name: string): Option<Value> {
    if name in doc then Some(doc[name]) else None
  }

  /** Every field of the document is a column of the relation. */
  ghost predicate OnlyColumns(rel: Relation, doc: Doc) {
    forall name :: name in doc ==> exists i :: 0 <= i < |rel.columns| && rel.columns[i].name == name
  }

  lemma SameColumnsSameDoc(rel: Relation, a: Doc, b: Doc)
    requires OnlyColumns(rel, a) && OnlyColumns(rel, b)
    requires forall i :: 0 <= i < |rel.columns| ==> Field(a, rel.columns[i].name) == Field(b, rel.columns[i].name)
    ensures a == b
  {
    forall name
      ensures Field(a, name) == Field(b, name)
    {
      if name in a || name in b {
        var i :| 0 <= i < |rel.columns| && rel.columns[i].name == name;
      }
    }
    assert forall name :: name in a <==> Field(a, name).Some?;
    assert forall name :: name in b <==> Field(b, name).Some?;
    assert forall name :: name in a ==> Field(a, name).value == a[name];
    assert forall name :: name in b ==> Field(b, name).value == b[name];
  }

  lemma {:induction false} PrefixByColumn(cx: Codec, rel: Relation, tuple: Tuple, n: nat)
    requires n <= |tuple| <= |rel.columns| && DistinctColumns(rel)
    ensures forall i :: 0 <= i < n ==>
              Field(PrefixValues(cx, rel, tuple, n), rel.columns[i].name) == ColumnValue(cx, rel, tuple, i)
    ensures forall name :: name in PrefixValues(cx, rel, tuple, n) ==>
              exists i :: 0 <= i < n && rel.columns[i].name == name
  {
    if n > 0 {
      PrefixByColumn(cx, rel, tuple, n - 1);
    }
  }

  /** With distinct names a document holds exactly the columns that carry a value, each with its own. */
  lemma {:induction false} ValuesByColumn(cx: Codec, rel: Relation, tuple: Tuple)
    requires |tuple| <= |rel.columns| && DistinctColumns(rel)
    ensures
      var doc := PrefixValues(cx, rel, tuple, |tuple|);
      && (forall i :: 0 <= i < |tuple| ==> (rel.columns[i].name !in doc <==> LeftOut(cx, rel, tuple, i)))
      && (forall i :: 0 <= i < |tuple| && rel.columns[i].name in doc ==>
            Carries(cx, rel, tuple, i, doc[rel.columns[i].name]))
      && (forall name :: name in doc ==> exists i :: 0 <= i < |tuple| && rel.columns[i].name == name)
  {
    PrefixByColumn(cx, rel, tuple, |tuple|);
  }

  lemma ColumnOfValues(cx: Codec, rel: Relation, tuple: Tuple, i: nat)
    requires i < |tuple| == |rel.columns| && DistinctColumns(rel)
    ensures Field(PrefixValues(cx, rel, tuple, |tuple|), rel.columns[i].name) == ColumnValue(cx, rel, tuple, i)
  {
    PrefixByColumn(cx, rel, tuple, |tuple|);
  }

  lemma ValuesOnlyColumns(cx: Codec, rel: Relation, tuple: Tuple)
    requires |tuple| == |rel.columns| && DistinctColumns(rel)
    ensures OnlyColumns(rel, PrefixValues(cx, rel, tuple, |tuple|))
  {
    PrefixByColumn(cx, rel, tuple, |tuple|);
  }

  /** A table row: one value per column of the relation. */
  type Row = seq<Value>

  /** The document of a row: every column under its name. */
  function RowDoc(rel: Relation, row: Row): Doc
    requires |row| == |rel.columns| && DistinctColumns(rel)
  {
    map i | 0 <= i < |row| :: rel.columns[i].name := row[i]
  }

  lemma RowDocByColumn(rel: Relation, row: Row)
    requires |row| == |rel.columns| && DistinctColumns(rel)
    ensures OnlyColumns(rel, RowDoc(rel, row))
    ensures forall i :: 0 <= i < |row| ==> Field(RowDoc(rel, row), rel.columns[i].name) == Some(row[i])
  {
  }

  /** The tuple is an image of `row`: each column carries the row's value or is left out. */
  predicate ImageOf(cx: Codec, rel: Relation, tuple: Tuple, row: Row)
    requires |tuple| == |rel.columns| == |row|
  {
    forall i :: 0 <= i < |row| ==> LeftOut(cx, rel, tuple, i) || Carries(cx, rel, tuple, i, row[i])
  }

  /** Every column the image leaves out has the same value in both rows. */
  predicate LeftOutUnchanged(cx: Codec, rel: Relation, tuple: Tuple, before: Row, after: Row)
    requires |tuple| == |rel.columns| == |before| == |after|
  {
    forall i :: 0 <= i < |tuple| && LeftOut(cx, rel, tuple, i) ==> before[i] == after[i]
  }

  /** The old document with an update's values merged in. */
  function Merged(cx: Codec, rel: Relation, tuple: Tuple, before: Row): (doc: Doc)
    requires DistinctColumns(rel) && |tuple| == |rel.columns| == |before|
  {
    RowDoc(rel, before) + PrefixValues(cx, rel, tuple, |tuple|)
  }

  lemma MergedField(cx: Codec, rel: Relation, tuple: Tuple, before: Row, i: nat)
    requires DistinctColumns(rel) && |tuple| == |rel.columns| == |before| && i < |tuple|
    ensures Field(Merged(cx, rel, tuple, before), rel.columns[i].name) ==
            if LeftOut(cx, rel, tuple, i) then Some(before[i]) else ColumnValue(cx, rel, tuple, i)
  {
    ColumnOfValues(cx, rel, tuple, i);
    RowDocByColumn(rel, before);
    assert Field(RowDoc(rel, before), rel.columns[i].name) == Some(before[i]);
  }

  lemma MergedOnlyColumns(cx: Codec, rel: Relation, tuple: Tuple, before: Row)
    requires DistinctColumns(rel) && |tuple| == |rel.columns| == |before|
    ensures OnlyColumns(rel, Merged(cx, rel, tuple, before))
  {
    RowDocByColumn(rel, before);
    ValuesOnlyColumns(cx, rel, tuple);
  }

  /** Merging an update's new image into the old document gives the new document exactly when every
      column that the image leaves out kept its value. */
  lemma MergeIsExactIff(cx: Codec, rel: Relation, tuple: Tuple, before: Row, after: Row)
    requires DistinctColumns(rel) && |tuple| == |rel.columns| == |before| == |after|
    requires ImageOf(cx, rel, tuple, after)
    ensures Merged(cx, rel, tuple, before) == RowDoc(rel, after)
            <==> LeftOutUnchanged(cx, rel, tuple, before, after)
  {
    var merged, wanted := Merged(cx, rel, tuple, before), RowDoc(rel, after);
    RowDocByColumn(rel, after);
    if LeftOutUnchanged(cx, rel, tuple, before, after) {
      forall i | 0 <= i < |tuple|
        ensures Field(merged, rel.columns[i].name) == Field(wanted, rel.columns[i].name)
      {
        MergedField(cx, rel, tuple, before, i);
      }
      MergedOnlyColumns(cx, rel, tuple, before);
      SameColumnsSameDoc(rel, merged, wanted);
    } else {
      var i :| 0 <= i < |tuple| && LeftOut(cx, rel, tuple, i) && before[i] != after[i];
      MergedField(cx, rel, tuple, before, i);
      assert Field(merged, rel.columns[i].name) != Field(wanted, rel.columns[i].name);
    }
  }

  /** The tuple leaves no column out. */
  predicate Complete(cx: Codec, rel: Relation, tuple: Tuple)
    requires |tuple| == |rel.columns|
  {
    forall i :: 0 <= i < |tuple| ==> !LeftOut(cx, rel, tuple, i)
  }

  /** An image gives the row's document exactly when it carries every column. */
  lemma ImageIsDocumentIff(cx: Codec, rel: Relation, tuple: Tuple, row: Row)
    requires DistinctColumns(rel) && |tuple| == |rel.columns| == |row|
    requires ImageOf(cx, rel, tuple, row)
    ensures PrefixValues(cx, rel, tuple, |tuple|) == RowDoc(rel, row) <==> Complete(cx, rel, tuple)
  {
    var doc := PrefixValues(cx, rel, tuple, |tuple|);
    RowDocByColumn(rel, row);
    if Complete(cx, rel, tuple) {
      forall i | 0 <= i < |tuple|
        ensures Field(doc, rel.columns[i].name) == Field(RowDoc(rel, row), rel.columns[i].name)
      {
        ColumnOfValues(cx, rel, tuple, i);
      }
      ValuesOnlyColumns(cx, rel, tuple);
      SameColumnsSameDoc(rel, doc, RowDoc(rel, row));
    } else {
      var i :| 0 <= i < |tuple| && LeftOut(cx, rel, tuple, i);
      ColumnOfValues(cx, rel, tuple, i);
    }
  }

  /** The tuple is what the server sends for `after`: null for a null, the text or binary value, or 'u'
      for a TOAST value that is still the one in `before`. */
  predicate SentFor(cx: Codec, rel: Relation, tuple: Tuple, before: Row, after: Row)
    requires |tuple| == |rel.columns| == |before| == |after|
  {
    forall i :: 0 <= i < |tuple| ==>
      match tuple[i].kind
      case 'n' => after[i] == Nil
      case 't' => cx.decodeText(tuple[i].data, rel.columns[i].oid) == Some(after[i])
      case 'b' => cx.decodeBinary(tuple[i].data, rel.columns[i].oid) == Some(after[i])
      case 'u' => before[i] == after[i]
      case _ => false
  }

  /** Every tuple sent so merges into the old document as the new one, and is the new document where
      no TOAST value was left out. */
  lemma SentTupleIsExact(cx: Codec, rel: Relation, tuple: Tuple, before: Row, after: Row)
    requires DistinctColumns(rel) && |tuple| == |rel.columns| == |before| == |after|
    requires SentFor(cx, rel, tuple, before, after)
    ensures ImageOf(cx, rel, tuple, after) && LeftOutUnchanged(cx, rel, tuple, before, after)
    ensures RowDoc(rel, before) + PrefixValues(cx, rel, tuple, |tuple|) == RowDoc(rel, after)
    ensures (forall i :: 0 <= i < |tuple| ==> tuple[i].kind != 'u') ==>
              Complete(cx, rel, tuple) && PrefixValues(cx, rel, tuple, |tuple|) == RowDoc(rel, after)
  {
    MergeIsExactIff(cx, rel, tuple, before, after);
    ImageIsDocumentIff(cx, rel, tuple, after);
  }

  /** Different rows have different documents. */
  lemma RowDocIsInjective(rel: Relation, a: Row, b: Row)
    requires DistinctColumns(rel) && |a| == |rel.columns| == |b|
    ensures RowDoc(rel, a) == RowDoc(rel, b) <==> a == b
  {
    RowDocByColumn(rel, a);
    RowDocByColumn(rel, b);
    if RowDoc(rel, a) == RowDoc(rel, b) {
      forall i | 0 <= i < |a|
        ensures a[i] == b[i]
      {
        assert Field(RowDoc(rel, a), rel.columns[i].name) == Some(a[i]);
        assert Field(RowDoc(rel, b), rel.columns[i].name) == Some(b[i]);
      }
    }
  }
}
