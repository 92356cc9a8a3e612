/** The index mirrors the table: what the search engine holds after an acknowledged send is the
    table after exactly the transactions whose Commit has been handled. */
module Mirror {
  import opened BulkData
  import opened BatcherSpec
  import opened DocumentStore
  import opened Rows
  import opened Pipeline
  import opened Replication
  import opened Transactions
  import FlushTiming

  /** One replicated relation, the position of its id column, and how the engine reads documents. */
  datatype World = World(u: Setup, relId: nat, rel: Relation, idx: nat, read: Reader)

  /** Column names are distinct, the configured id column exists, and reading a marshalled document
      gives it back. */
  ghost predicate Proper(w: World) {
    && DistinctColumns(w.rel)
    && w.idx < |w.rel.columns| && w.rel.columns[w.idx].name == w.u.idColumn
    && forall d: Doc :: w.u.cx.marshal(Some(d)).Some? ==> w.read(w.u.cx.marshal(Some(d)).value) == d
  }

  /** A table, keyed by the printed id; two rows never print the same id. */
  type Table = map<string, Row>

  predicate RowHasId(w: World, row: Row, id: string) {
    && w.idx < |row| == |w.rel.columns|
    && row[w.idx] != Nil && w.u.cx.printId(row[w.idx]) == id
  }

  predicate TableOk(w: World, table: Table) {
    forall id :: id in table ==> RowHasId(w, table[id], id)
  }

  /** The index that mirrors a table: one document per row. */
  function Image(w: World, table: Table): Store
    requires DistinctColumns(w.rel) && TableOk(w, table)
  {
    map id | id in table :: RowDoc(w.rel, table[id])
  }

  /** Row changes of the database; an update keeps the row's id. */
  datatype Change = Insert(id: string, row: Row) | Update(id: string, row: Row) | Delete(id: string)

  predicate Applicable(w: World, table: Table, change: Change) {
    match change
    case Insert(id, row) => id !in table && RowHasId(w, row, id)
    case Update(id, row) => id in table && RowHasId(w, row, id)
    case Delete(id) => id in table
  }

  function Execute(table: Table, change: Change): Table {
    match change
    case Insert(id, row) => table[id := row]
    case Update(id, row) => table[id := row]
    case Delete(id) => table - {id}
  }

  // ---- Messages about rows

  /** An old tuple as the server sends it: its id column is left out, null, or shows the id. */
  predicate OldImage(w: World, tuple: Option<Tuple>, before: Row)
    requires w.idx < |w.rel.columns| == |before|
  {
    tuple.Some? ==>
      && |tuple.value| == |w.rel.columns|
      && (|| LeftOut(w.u.cx, w.rel, tuple.value, w.idx)
          || Carries(w.u.cx, w.rel, tuple.value, w.idx, Nil)
          || Carries(w.u.cx, w.rel, tuple.value, w.idx, before[w.idx]))
  }

  predicate InsertImage(w: World, m: Message, row: Row)
    requires w.idx < |w.rel.columns| == |row|
  {
    && m.InsertMsg? && m.relId == w.relId
    && m.tuple.Some? && |m.tuple.value| == |w.rel.columns| && ImageOf(w.u.cx, w.rel, m.tuple.value, row)
  }

  predicate UpdateImages(w: World, m: Message, before: Row, row: Row)
    requires w.idx < |w.rel.columns| == |before| == |row|
  {
    && m.UpdateMsg? && m.relId == w.relId && OldImage(w, m.oldTuple, before)
    && m.newTuple.Some? && |m.newTuple.value| == |w.rel.columns| && ImageOf(w.u.cx, w.rel, m.newTuple.value, row)
  }

  predicate DeleteImage(w: World, m: Message, before: Row)
    requires w.idx < |w.rel.columns| == |before|
  {
    m.DeleteMsg? && m.relId == w.relId && OldImage(w, m.oldTuple, before)
  }

  predicate Marshals(w: World, tuple: Option<Tuple>)
    requires Fits(w.rel, tuple)
  {
    w.u.cx.marshal(Values(w.u.cx, w.rel, tuple)).Some?
  }

  predicate ShowsId(w: World, tuple: Option<Tuple>, before: Row)
    requires w.idx < |w.rel.columns| == |before| && OldImage(w, tuple, before)
  {
    tuple.Some? && Carries(w.u.cx, w.rel, tuple.value, w.idx, before[w.idx])
  }

  /** An update finds its row: an old tuple that carries any value shows the id, and without one the
      new tuple carries the id column. */
  predicate FindsRow(w: World, m: Message, before: Row, row: Row)
    requires w.idx < |w.rel.columns| == |before| == |row| && UpdateImages(w, m, before, row)
  {
    if OldIsEmpty(w, m) then !LeftOut(w.u.cx, w.rel, m.newTuple.value, w.idx)
    else ShowsId(w, m.oldTuple, before)
  }

  predicate OldIsEmpty(w: World, m: Message)
    requires m.UpdateMsg? && Fits(w.rel, m.oldTuple)
  {
    m.oldTuple.None? || forall i :: 0 <= i < |m.oldTuple.value| ==> LeftOut(w.u.cx, w.rel, m.oldTuple.value, i)
  }

  /** The update's values can be sent and, merged into the old row, give the new one. */
  predicate CarriesUpdate(w: World, m: Message, before: Row, row: Row)
    requires w.idx < |w.rel.columns| == |before| == |row| && UpdateImages(w, m, before, row)
  {
    Marshals(w, m.newTuple) && LeftOutUnchanged(w.u.cx, w.rel, m.newTuple.value, before, row)
  }

  /** The message tells the code all of the change: complete images of new rows, except that an update
      may leave out columns that did not change, and the id of the row that is updated or deleted. */
  predicate Describes(w: World, table: Table, change: Change, m: Message)
    requires w.idx < |w.rel.columns| && TableOk(w, table) && Applicable(w, table, change)
  {
    match change
    case Insert(_, row) =>
      InsertImage(w, m, row) && Complete(w.u.cx, w.rel, m.tuple.value) && Marshals(w, m.tuple)
    case Update(id, row) =>
      && UpdateImages(w, m, table[id], row)
      && FindsRow(w, m, table[id], row) && CarriesUpdate(w, m, table[id], row)
    case Delete(id) =>
      DeleteImage(w, m, table[id]) && ShowsId(w, m.oldTuple, table[id])
  }

  /** The server's own rule for a change: new tuples as it sends them, and old tuples that show the id
      or, for an update, none when the new tuple shows it. */
  predicate Sent(w: World, table: Table, change: Change, m: Message)
    requires w.idx < |w.rel.columns| && TableOk(w, table) && Applicable(w, table, change)
  {
    var cx, n := w.u.cx, |w.rel.columns|;
    match change
    case Insert(_, row) =>
      && m.InsertMsg? && m.relId == w.relId && m.tuple.Some? && |m.tuple.value| == n
      && SentFor(cx, w.rel, m.tuple.value, row, row)
      && forall i :: 0 <= i < n ==> m.tuple.value[i].kind != 'u'
    case Update(id, row) =>
      && m.UpdateMsg? && m.relId == w.relId && m.newTuple.Some? && |m.newTuple.value| == n
      && SentFor(cx, w.rel, m.newTuple.value, table[id], row)
      && (if m.oldTuple.None? then m.newTuple.value[w.idx].kind != 'u' else SentId(w, m.oldTuple.value, table[id]))
    case Delete(id) =>
      m.DeleteMsg? && m.relId == w.relId && m.oldTuple.Some? && SentId(w, m.oldTuple.value, table[id])
  }

  predicate SentId(w: World, tuple: Tuple, row: Row)
    requires w.idx < |w.rel.columns| == |row|
  {
    && |tuple| == |w.rel.columns|
    && match tuple[w.idx].kind
       case 't' => w.u.cx.decodeText(tuple[w.idx].data, w.rel.columns[w.idx].oid) == Some(row[w.idx])
       case 'b' => w.u.cx.decodeBinary(tuple[w.idx].data, w.rel.columns[w.idx].oid) == Some(row[w.idx])
       case _ => false
  }

  /** What the server sends by this rule describes the change, if its values can be marshalled. */
  lemma SentIsDescribed(w: World, table: Table, change: Change, m: Message)
    requires Proper(w) && TableOk(w, table) && Applicable(w, table, change) && Sent(w, table, change, m)
    requires change.Insert? ==> Marshals(w, m.tuple)
    requires change.Update? ==> Marshals(w, m.newTuple)
    ensures Describes(w, table, change, m)
  {
    match change
    case Insert(_, row) => SentTupleIsExact(w.u.cx, w.rel, m.tuple.value, row, row);
    case Update(id, row) =>
      SentTupleIsExact(w.u.cx, w.rel, m.newTuple.value, table[id], row);
      assert m.oldTuple.Some? ==> !LeftOut(w.u.cx, w.rel, m.oldTuple.value, w.idx);
    case Delete(_) =>
  }

  /** The id that `documentID` reads out of a tuple's values. */
  function TupleId(w: World, tuple: Tuple): Option<string>
    requires w.idx < |tuple| == |w.rel.columns|
  {
    var shown := ColumnValue(w.u.cx, w.rel, tuple, w.idx);
    if shown.None? || shown.value == Nil then None else Some(w.u.cx.printId(shown.value))
  }

  lemma TupleIdIsDocumentId(w: World, tuple: Tuple)
    requires Proper(w) && |tuple| == |w.rel.columns|
    ensures DocumentId(w.u.cx, w.u.idColumn, Values(w.u.cx, w.rel, Some(tuple))) == TupleId(w, tuple)
    ensures Values(w.u.cx, w.rel, Some(tuple)).value == map[] <==>
            forall i :: 0 <= i < |tuple| ==> LeftOut(w.u.cx, w.rel, tuple, i)
  {
    ColumnOfValues(w.u.cx, w.rel, tuple, w.idx);
    ValuesByColumn(w.u.cx, w.rel, tuple);
    var doc := PrefixValues(w.u.cx, w.rel, tuple, |tuple|);
    if doc != map[] {
      var name :| name in doc;
    }
  }

  /** The operation that a change must become: the whole new document, the merged fields that turn
      the old document into the new one, or a delete. */
  predicate Expresses(w: World, table: Table, change: Change, d: Data)
    requires DistinctColumns(w.rel) && TableOk(w, table) && Applicable(w, table, change)
  {
    match change
    case Insert(id, row) => d.id == id && d.action == INDEX && w.read(d.body) == RowDoc(w.rel, row)
    case Update(id, row) =>
      d.id == id && d.action == UPDATE && RowDoc(w.rel, table[id]) + w.read(d.body) == RowDoc(w.rel, row)
    case Delete(id) => d == Data(id, DELETE, "")
  }

  predicate Knows(w: World, relations: Relations) {
    w.relId in relations && relations[w.relId] == w.rel
  }

  /** The operation of an insert. */
  lemma InsertOperation(w: World, id: string, row: Row, relations: Relations, m: Message)
    requires Proper(w) && RowHasId(w, row, id) && InsertImage(w, m, row) && Knows(w, relations)
    ensures MessageFits(relations, m)
    ensures
      var d := RowData(w.u.cx, w.u.idColumn, relations, m);
      && (Complete(w.u.cx, w.rel, m.tuple.value) && Marshals(w, m.tuple) ==> d.Some?)
      && (d.Some? ==>
            && d.value.id == id && d.value.action == INDEX && Marshals(w, m.tuple)
            && (w.read(d.value.body) == RowDoc(w.rel, row) <==> Complete(w.u.cx, w.rel, m.tuple.value)))
  {
    TupleIdIsDocumentId(w, m.tuple.value);
    ImageIsDocumentIff(w.u.cx, w.rel, m.tuple.value, row);
    var values := Values(w.u.cx, w.rel, m.tuple);
    if Marshals(w, m.tuple) {
      assert w.read(w.u.cx.marshal(Some(values.value)).value) == values.value;
    }
  }

  lemma InsertIsExpressed(w: World, table: Table, change: Change, relations: Relations, m: Message)
    requires Proper(w) && TableOk(w, table) && Applicable(w, table, change) && Describes(w, table, change, m)
    requires Knows(w, relations) && change.Insert?
    ensures MessageFits(relations, m) && RowData(w.u.cx, w.u.idColumn, relations, m).Some?
    ensures Expresses(w, table, change, RowData(w.u.cx, w.u.idColumn, relations, m).value)
  {
    InsertOperation(w, change.id, change.row, relations, m);
  }

  /** Where an update is addressed: at the old tuple's id if that tuple carries any value, else at
      the new tuple's, and nowhere if that id is left out or null. */
  lemma UpdateIsAddressed(w: World, id: string, before: Row, newId: string, row: Row, m: Message)
    requires Proper(w) && RowHasId(w, before, id) && RowHasId(w, row, newId) && UpdateImages(w, m, before, row)
    ensures Fits(w.rel, m.oldTuple) && Fits(w.rel, m.newTuple)
    ensures DocumentId(w.u.cx, w.u.idColumn, KeyValues(w.u.cx, w.rel, m.oldTuple, m.newTuple)) ==
            if !FindsRow(w, m, before, row) then None else Some(if OldIsEmpty(w, m) then newId else id)
  {
    TupleIdIsDocumentId(w, m.newTuple.value);
    if m.oldTuple.Some? {
      TupleIdIsDocumentId(w, m.oldTuple.value);
    }
  }

  /** The operation of an update that keeps its id. */
  lemma UpdateOperation(w: World, id: string, before: Row, row: Row, relations: Relations, m: Message)
    requires Proper(w) && RowHasId(w, before, id) && RowHasId(w, row, id) && UpdateImages(w, m, before, row)
    requires Knows(w, relations)
    ensures MessageFits(relations, m)
    ensures
      var d := RowData(w.u.cx, w.u.idColumn, relations, m);
      && (d.Some? <==> FindsRow(w, m, before, row) && Marshals(w, m.newTuple))
      && (d.Some? ==>
            && d.value.id == id && d.value.action == UPDATE
            && RowDoc(w.rel, before) + w.read(d.value.body) == Merged(w.u.cx, w.rel, m.newTuple.value, before))
  {
    UpdateIsAddressed(w, id, before, id, row, m);
    var values := Values(w.u.cx, w.rel, m.newTuple);
    if Marshals(w, m.newTuple) {
      assert w.read(w.u.cx.marshal(Some(values.value)).value) == values.value;
    }
  }

  lemma UpdateIsExpressed(w: World, table: Table, change: Change, relations: Relations, m: Message)
    requires Proper(w) && TableOk(w, table) && Applicable(w, table, change) && Describes(w, table, change, m)
    requires Knows(w, relations) && change.Update?
    ensures MessageFits(relations, m) && RowData(w.u.cx, w.u.idColumn, relations, m).Some?
    ensures Expresses(w, table, change, RowData(w.u.cx, w.u.idColumn, relations, m).value)
  {
    UpdateOperation(w, change.id, table[change.id], change.row, relations, m);
    MergeIsExactIff(w.u.cx, w.rel, m.newTuple.value, table[change.id], change.row);
  }

  /** The operation of a delete. */
  lemma DeleteOperation(w: World, id: string, before: Row, relations: Relations, m: Message)
    requires Proper(w) && RowHasId(w, before, id) && DeleteImage(w, m, before) && Knows(w, relations)
    ensures MessageFits(relations, m)
    ensures RowData(w.u.cx, w.u.idColumn, relations, m) ==
            if ShowsId(w, m.oldTuple, before) then Some(Data(id, DELETE, "")) else None
  {
    if m.oldTuple.Some? {
      TupleIdIsDocumentId(w, m.oldTuple.value);
    }
  }

  lemma DeleteIsExpressed(w: World, table: Table, change: Change, relations: Relations, m: Message)
    requires Proper(w) && TableOk(w, table) && Applicable(w, table, change) && Describes(w, table, change, m)
    requires Knows(w, relations) && change.Delete?
    ensures MessageFits(relations, m) && RowData(w.u.cx, w.u.idColumn, relations, m).Some?
    ensures Expresses(w, table, change, RowData(w.u.cx, w.u.idColumn, relations, m).value)
  {
    DeleteOperation(w, change.id, table[change.id], relations, m);
  }

  /** `process` turns the message of a change into the operation that expresses it. */
  lemma ChangeIsExpressed(w: World, table: Table, change: Change, relations: Relations, m: Message)
    requires Proper(w) && TableOk(w, table) && Applicable(w, table, change) && Describes(w, table, change, m)
    requires Knows(w, relations)
    ensures MessageFits(relations, m) && RowData(w.u.cx, w.u.idColumn, relations, m).Some?
    ensures Expresses(w, table, change, RowData(w.u.cx, w.u.idColumn, relations, m).value)
  {
    match change
    case Insert(_, _) => InsertIsExpressed(w, table, change, relations, m);
    case Update(_, _) => UpdateIsExpressed(w, table, change, relations, m);
    case Delete(_) => DeleteIsExpressed(w, table, change, relations, m);
  }

  lemma PutIsMirrored(w: World, table: Table, id: string, row: Row)
    requires DistinctColumns(w.rel) && TableOk(w, table) && RowHasId(w, row, id)
    ensures TableOk(w, table[id := row])
    ensures Image(w, table[id := row]) == Image(w, table)[id := RowDoc(w.rel, row)]
  {
  }

  /** An operation that expresses a change takes the old table's image to the new one's. */
  lemma {:induction false} ChangeIsMirrored(w: World, table: Table, change: Change, d: Data)
    requires DistinctColumns(w.rel) && TableOk(w, table) && Applicable(w, table, change)
    requires Expresses(w, table, change, d)
    ensures TableOk(w, Execute(table, change))
    ensures ApplyItem(w.read, Image(w, table), d) == Image(w, Execute(table, change))
  {
    match change
    case Delete(id) => assert Image(w, table) - {id} == Image(w, table - {id});
    case Insert(id, row) => PutIsMirrored(w, table, id, row);
    case Update(id, row) => UpdateIsMirrored(w, table, id, row, d);
  }

  lemma {:induction false} UpdateIsMirrored(w: World, table: Table, id: string, row: Row, d: Data)
    requires DistinctColumns(w.rel) && TableOk(w, table) && id in table && RowHasId(w, row, id)
    requires Expresses(w, table, Update(id, row), d)
    ensures TableOk(w, table[id := row])
    ensures ApplyItem(w.read, Image(w, table), d) == Image(w, table[id := row])
  {
    PutIsMirrored(w, table, id, row);
    var store, fields := Image(w, table), w.read(d.body);
    assert store[id] + fields == RowDoc(w.rel, row);
    assert ApplyItem(w.read, store, d) == store[id := store[id] + fields];
  }

  // ---- Exactly which messages are mirrored

  /** The store after what the connection makes of one message. */
  function StoreAfter(w: World, relations: Relations, store: Store, m: Message): Store
    requires MessageFits(relations, m)
  {
    match Translate(w.u.cx, w.u.idColumn, relations, m)
    case Row(item) => ApplyItem(w.read, store, item)
    case _ => store
  }

  /** The message turns the image of the table before a change into that of the table after it. */
  predicate IndexFollows(w: World, relations: Relations, before: Table, m: Message, after: Table)
    requires DistinctColumns(w.rel) && TableOk(w, before) && TableOk(w, after) && MessageFits(relations, m)
  {
    StoreAfter(w, relations, Image(w, before), m) == Image(w, after)
  }

  /** The index follows an insert exactly when the tuple carries every column and can be sent. */
  lemma InsertIsMirroredIff(w: World, table: Table, id: string, row: Row, relations: Relations, m: Message)
    requires Proper(w) && TableOk(w, table) && Knows(w, relations)
    requires id !in table && RowHasId(w, row, id) && InsertImage(w, m, row)
    ensures MessageFits(relations, m) && TableOk(w, table[id := row])
    ensures IndexFollows(w, relations, table, m, table[id := row])
            <==> Complete(w.u.cx, w.rel, m.tuple.value) && Marshals(w, m.tuple)
  {
    PutIsMirrored(w, table, id, row);
    ImageHasRowIds(w, table, id);
    InsertOperation(w, id, row, relations, m);
    var d := RowData(w.u.cx, w.u.idColumn, relations, m);
    if d.Some? {
      PutIsExactIff(Image(w, table), id, w.read(d.value.body), RowDoc(w.rel, row));
    }
  }

  /** The table after an update that may give the row another id. */
  function Move(table: Table, id: string, newId: string, row: Row): Table {
    (table - {id})[newId := row]
  }

  /** The index follows an update exactly when the id did not change and either the message finds the
      row and carries the update, or the row did not change at all. */
  lemma {:induction false} UpdateIsMirroredIff(w: World, table: Table, id: string, newId: string, row: Row,
                                               relations: Relations, m: Message)
    requires Proper(w) && TableOk(w, table) && Knows(w, relations)
    requires id in table && RowHasId(w, row, newId) && (newId == id || newId !in table)
    requires UpdateImages(w, m, table[id], row)
    ensures MessageFits(relations, m) && TableOk(w, Move(table, id, newId, row))
    ensures
      IndexFollows(w, relations, table, m, Move(table, id, newId, row))
      <==>
      newId == id && (row == table[id] || (FindsRow(w, m, table[id], row) && CarriesUpdate(w, m, table[id], row)))
  {
    MoveKeepsTableOk(w, table, id, newId, row);
    ImageHasRowIds(w, table, id);
    if newId == id {
      assert Move(table, id, id, row) == table[id := row];
      KeptIdIsMirroredIff(w, table, id, row, relations, m);
    } else {
      ImageHasRowIds(w, Move(table, id, newId, row), id);
      assert id in StoreAfter(w, relations, Image(w, table), m);
    }
  }

  /** What an update with an unchanged id does to its row's document. */
  function UpdatedDoc(w: World, m: Message, before: Row, row: Row): Doc
    requires Proper(w) && w.idx < |w.rel.columns| == |before| == |row| && UpdateImages(w, m, before, row)
  {
    if FindsRow(w, m, before, row) && Marshals(w, m.newTuple) then Merged(w.u.cx, w.rel, m.newTuple.value, before)
    else RowDoc(w.rel, before)
  }

  lemma UpdateIsApplied(w: World, store: Store, id: string, before: Row, row: Row, relations: Relations, m: Message)
    requires Proper(w) && RowHasId(w, before, id) && RowHasId(w, row, id) && UpdateImages(w, m, before, row)
    requires Knows(w, relations) && id in store && store[id] == RowDoc(w.rel, before)
    ensures MessageFits(relations, m)
    ensures StoreAfter(w, relations, store, m) == store[id := UpdatedDoc(w, m, before, row)]
  {
    UpdateOperation(w, id, before, row, relations, m);
  }

  lemma UpdatedDocIsExactIff(w: World, m: Message, before: Row, row: Row)
    requires Proper(w) && w.idx < |w.rel.columns| == |before| == |row| && UpdateImages(w, m, before, row)
    ensures
      UpdatedDoc(w, m, before, row) == RowDoc(w.rel, row)
      <==>
      row == before || (FindsRow(w, m, before, row) && CarriesUpdate(w, m, before, row))
  {
    MergeIsExactIff(w.u.cx, w.rel, m.newTuple.value, before, row);
    RowDocIsInjective(w.rel, before, row);
  }

  lemma KeptIdIsMirroredIff(w: World, table: Table, id: string, row: Row, relations: Relations, m: Message)
    requires Proper(w) && TableOk(w, table) && Knows(w, relations)
    requires id in table && RowHasId(w, row, id) && UpdateImages(w, m, table[id], row)
    ensures MessageFits(relations, m) && TableOk(w, table[id := row])
    ensures
      IndexFollows(w, relations, table, m, table[id := row])
      <==>
      row == table[id] || (FindsRow(w, m, table[id], row) && CarriesUpdate(w, m, table[id], row))
  {
    PutIsMirrored(w, table, id, row);
    ImageHasRowIds(w, table, id);
    UpdateIsApplied(w, Image(w, table), id, table[id], row, relations, m);
    PutIsExactIff(Image(w, table), id, UpdatedDoc(w, m, table[id], row), RowDoc(w.rel, row));
    UpdatedDocIsExactIff(w, m, table[id], row);
  }

  /** The index follows a delete exactly when there is an old tuple that shows the id. */
  lemma DeleteIsMirroredIff(w: World, table: Table, id: string, relations: Relations, m: Message)
    requires Proper(w) && TableOk(w, table) && Knows(w, relations)
    requires id in table && DeleteImage(w, m, table[id])
    ensures MessageFits(relations, m) && TableOk(w, table - {id})
    ensures IndexFollows(w, relations, table, m, table - {id})
            <==> ShowsId(w, m.oldTuple, table[id])
  {
    DeleteOperation(w, id, table[id], relations, m);
    RemoveIsMirrored(w, table, id);
  }

  lemma RemoveIsMirrored(w: World, table: Table, id: string)
    requires DistinctColumns(w.rel) && TableOk(w, table) && id in table
    ensures TableOk(w, table - {id})
    ensures Image(w, table) - {id} == Image(w, table - {id}) != Image(w, table)
  {
    ImageHasRowIds(w, table, id);
    ImageHasRowIds(w, table - {id}, id);
  }

  /** A truncate is ignored, so the index follows it exactly when there was nothing to remove. */
  lemma {:induction false} TruncateIsMirroredIff(w: World, table: Table, relations: Relations)
    requires DistinctColumns(w.rel) && TableOk(w, table)
    ensures IndexFollows(w, relations, table, TruncateMsg, map[]) <==> table == map[]
  {
    if table != map[] {
      var id :| id in table;
      ImageHasRowIds(w, table, id);
      ImageHasRowIds(w, map[], id);
    }
  }

  // ---- A relation that changes

  /** The relation after its column `k` was given another name. */
  function Renamed(rel: Relation, k: nat, name: string): Relation
    requires k < |rel.columns|
  {
    rel.(columns := rel.columns[k := rel.columns[k].(name := name)])
  }

  predicate NewName(rel: Relation, name: string) {
    forall i :: 0 <= i < |rel.columns| ==> rel.columns[i].name != name
  }

  lemma RenamedIsDistinct(rel: Relation, k: nat, name: string)
    requires DistinctColumns(rel) && k < |rel.columns|
    requires NewName(rel, name)
    ensures DistinctColumns(Renamed(rel, k, name))
  {
  }

  lemma RenamedDocDiffers(rel: Relation, k: nat, name: string, row: Row)
    requires DistinctColumns(rel) && k < |rel.columns| == |row| && DistinctColumns(Renamed(rel, k, name))
    requires NewName(rel, name)
    ensures RowDoc(Renamed(rel, k, name), row) != RowDoc(rel, row)
  {
    RowDocByColumn(rel, row);
    RowDocByColumn(Renamed(rel, k, name), row);
    assert Renamed(rel, k, name).columns[k].name == name;
    assert Field(RowDoc(Renamed(rel, k, name), row), name).Some?;
    assert name !in RowDoc(rel, row);
  }

  /** When a column gets a new name, the connection uses it from then on, but documents that are already
      in the index keep the old one: the index follows exactly when there are none. */
  lemma {:induction false} RenameIsMirroredIff(w: World, w': World, table: Table, k: nat, name: string,
                                               relations: Relations, m: Message)
    requires DistinctColumns(w.rel) && TableOk(w, table) && k < |w.rel.columns|
    requires NewName(w.rel, name)
    requires w' == w.(rel := Renamed(w.rel, k, name)) && m == RelationMsg(w.relId, w'.rel)
    ensures Knows(w', UpdateRelations(relations, m)) && DistinctColumns(w'.rel) && TableOk(w', table)
    ensures StoreAfter(w, relations, Image(w, table), m) == Image(w', table) <==> table == map[]
  {
    RenamedIsDistinct(w.rel, k, name);
    TableKeepsIds(w, w', table);
    if table == map[] {
      assert Image(w, table) == Image(w', table) == map[];
    } else {
      var id :| id in table;
      RenamedDocDiffers(w.rel, k, name, table[id]);
      ImagesDiffer(w, w', table, id);
    }
  }

  lemma TableKeepsIds(w: World, w': World, table: Table)
    requires TableOk(w, table) && |w'.rel.columns| == |w.rel.columns| && w' == w.(rel := w'.rel)
    ensures TableOk(w', table)
  {
    forall id | id in table
      ensures RowHasId(w', table[id], id)
    {
      assert RowHasId(w, table[id], id);
    }
  }

  lemma ImagesDiffer(w: World, w': World, table: Table, id: string)
    requires DistinctColumns(w.rel) && TableOk(w, table) && DistinctColumns(w'.rel) && TableOk(w', table)
    requires id in table && RowDoc(w'.rel, table[id]) != RowDoc(w.rel, table[id])
    ensures Image(w, table) != Image(w', table)
  {
    ImageHasRowIds(w, table, id);
    ImageHasRowIds(w', table, id);
  }

  lemma PutIsExactIff(store: Store, id: string, a: Doc, b: Doc)
    ensures store[id := a] == store[id := b] <==> a == b
  {
    assert store[id := a][id] == a && store[id := b][id] == b;
  }

  lemma ImageHasRowIds(w: World, table: Table, id: string)
    requires DistinctColumns(w.rel) && TableOk(w, table)
    ensures id in Image(w, table) <==> id in table
    ensures id in table ==> Image(w, table)[id] == RowDoc(w.rel, table[id])
  {
  }

  lemma MoveKeepsTableOk(w: World, table: Table, id: string, newId: string, row: Row)
    requires TableOk(w, table) && RowHasId(w, row, newId)
    ensures TableOk(w, Move(table, id, newId, row))
    ensures newId != id ==> id !in Move(table, id, newId, row)
  {
  }

  // ---- Two updates that the index does not follow

  const CODE_AND_ID := Relation([Column("code", 25), Column("id", 25)])

  /** A table of a code and an id, both text; only the document of `row` can be marshalled. */
  function CodeAndId(row: Row): World
    requires |row| == 2 && DistinctColumns(CODE_AND_ID)
  {
    var doc := RowDoc(CODE_AND_ID, row);
    var cx := Codec((data, _) => Some(Val(data)), (_, _) => None, (v: Value) => if v.Nil? then "" else v.text,
                    d => if d == Some(doc) then Some("{}") else None);
    World(Setup(cx, "id", Config(10, 0)), 1, CODE_AND_ID, 1, _ => doc)
  }

  function Text(data: Bytes): TupleColumn {
    TupleColumn('t', data)
  }

  lemma CodeAndIdIsProper(code: string, id: string) returns (w: World)
    ensures DistinctColumns(CODE_AND_ID) && w == CodeAndId([Val(code), Val(id)]) && Proper(w)
    ensures forall c: string, i: string :: RowHasId(w, [Val(c), Val(i)], i)
    ensures
      var tuple := [Text(code), Text(id)];
      && ImageOf(w.u.cx, w.rel, tuple, [Val(code), Val(id)])
      && Complete(w.u.cx, w.rel, tuple) && Marshals(w, Some(tuple))
  {
    w := CodeAndId([Val(code), Val(id)]);
    ImageIsDocumentIff(w.u.cx, w.rel, [Text(code), Text(id)], [Val(code), Val(id)]);
  }

  /** The id column need not be part of the replica identity. When the identity's column changes, the
      old tuple holds that column and a null id, and the update is dropped. */
  lemma KeyOnlyUpdateIsDropped() returns (w: World, before: Row, row: Row, m: Message)
    ensures before == [Val("a"), Val("7")] && row == [Val("b"), Val("7")]
    ensures m == UpdateMsg(1, Some([Text("a"), TupleColumn('n', "")]), Some([Text("b"), Text("7")]))
    ensures Proper(w) && RowHasId(w, before, "7") && RowHasId(w, row, "7") && UpdateImages(w, m, before, row)
    ensures CarriesUpdate(w, m, before, row) && !FindsRow(w, m, before, row)
    ensures
      var table, relations := map["7" := before], map[1 := w.rel];
      && TableOk(w, table) && TableOk(w, table["7" := row]) && MessageFits(relations, m)
      && !IndexFollows(w, relations, table, m, table["7" := row])
  {
    before, row := [Val("a"), Val("7")], [Val("b"), Val("7")];
    var key := [Text("a"), TupleColumn('n', "")];
    m := UpdateMsg(1, Some(key), Some([Text("b"), Text("7")]));
    w := CodeAndIdIsProper("b", "7");
    assert RowHasId(w, before, "7") && RowHasId(w, row, "7");
    assert ColumnValue(w.u.cx, w.rel, key, 1) == Some(Nil);
    TupleIdIsDocumentId(w, key);
    KeptIdIsMirroredIff(w, map["7" := before], "7", row, map[1 := w.rel], m);
  }

  /** An update that changes the id leaves the old document behind. */
  lemma IdChangeIsNotFollowed() returns (w: World, before: Row, row: Row, m: Message)
    ensures before == [Val("a"), Val("7")] && row == [Val("a"), Val("8")]
    ensures m == UpdateMsg(1, None, Some([Text("a"), Text("8")]))
    ensures Proper(w) && RowHasId(w, before, "7") && RowHasId(w, row, "8") && UpdateImages(w, m, before, row)
    ensures CarriesUpdate(w, m, before, row) && FindsRow(w, m, before, row)
    ensures
      var table, relations := map["7" := before], map[1 := w.rel];
      && TableOk(w, table) && TableOk(w, Move(table, "7", "8", row)) && MessageFits(relations, m)
      && !IndexFollows(w, relations, table, m, Move(table, "7", "8", row))
  {
    before, row := [Val("a"), Val("7")], [Val("a"), Val("8")];
    m := UpdateMsg(1, None, Some([Text("a"), Text("8")]));
    w := CodeAndIdIsProper("a", "8");
    assert RowHasId(w, before, "7") && RowHasId(w, row, "8");
    UpdateIsMirroredIff(w, map["7" := before], "7", "8", row, map[1 := w.rel], m);
  }

  // ---- The stream

  /** The stream of one publication: transactions one after another, and messages that carry no row
      in between. */
  datatype Item = TxBegin | TxChange(change: Change, m: Message) | TxCommit | Aside(m: Message)

  function MessageOf(item: Item): Message {
    match item
    case TxBegin => BeginMsg
    case TxCommit => CommitMsg
    case TxChange(_, m) => m
    case Aside(m) => m
  }

  /** Messages without rows; a relation message may repeat the relation but not alter it. */
  predicate NoRow(w: World, m: Message) {
    || m.TypeMsg? || m.OriginMsg? || m.DecodingMsg? || m.OtherMsg?
    || (m.RelationMsg? && (m.relId == w.relId ==> m.rel == w.rel))
  }

  datatype Db = Db(committed: Table, current: Table, inTxn: bool)

  /** The database behind a stream: the table after the committed transactions, and with the
      changes of the open one. */
  function Database(table: Table, stream: seq<Item>): Db {
    if stream == [] then Db(table, table, false)
    else
      var db := Database(table, Front(stream));
      match Last(stream)
      case TxBegin => db.(inTxn := true)
      case TxChange(change, _) => db.(current := Execute(db.current, change))
      case TxCommit => db.(committed := db.current, inTxn := false)
      case Aside(_) => db
  }

  function Announced(stream: seq<Item>): Relations {
    if stream == [] then map[]
    else UpdateRelations(Announced(Front(stream)), MessageOf(Last(stream)))
  }

  /** Begin, changes, Commit without nesting; every change is possible in the table of its time and
      is described by its message, after the relation was announced. */
  ghost predicate Faithful(w: World, table: Table, stream: seq<Item>)
    requires w.idx < |w.rel.columns| && TableOk(w, table)
    ensures Faithful(w, table, stream) ==>
              TableOk(w, Database(table, stream).current) && TableOk(w, Database(table, stream).committed)
  {
    stream == [] || (
      && Faithful(w, table, Front(stream))
      && var db := Database(table, Front(stream));
         MessageFits(Announced(Front(stream)), MessageOf(Last(stream))) &&
         match Last(stream)
         case TxBegin => !db.inTxn
         case TxCommit => db.inTxn
         case TxChange(change, m) =>
           && db.inTxn && w.relId in Announced(Front(stream))
           && Applicable(w, db.current, change) && Describes(w, db.current, change, m)
         case Aside(m) => NoRow(w, m))
  }

  /** What the connection makes of the stream. */
  ghost function StreamOps(w: World, table: Table, stream: seq<Item>): seq<TxnOp>
    requires w.idx < |w.rel.columns| && TableOk(w, table) && Faithful(w, table, stream)
  {
    if stream == [] then []
    else
      StreamOps(w, table, Front(stream)) +
      [Translate(w.u.cx, w.u.idColumn, Announced(Front(stream)), MessageOf(Last(stream)))]
  }

  /** The operations a run delivers, in order. */
  function Ops(run: seq<Action>): seq<TxnOp> {
    if run == [] then []
    else if Last(run).Deliver? then Ops(Front(run)) + [Last(run).op]
    else Ops(Front(run))
  }

  lemma {:induction false} AnnouncedIsTheRelation(w: World, table: Table, stream: seq<Item>)
    requires w.idx < |w.rel.columns| && TableOk(w, table) && Faithful(w, table, stream)
    ensures w.relId in Announced(stream) ==> Announced(stream)[w.relId] == w.rel
  {
    if stream != [] {
      AnnouncedIsTheRelation(w, table, Front(stream));
    }
  }

  /** The delivered rows, applied to the first table's image, give the later tables' images. */
  ghost predicate RowsMirror(w: World, table: Table, txns: seq<seq<Data>>, open: seq<Data>, db: Db)
    requires Proper(w) && TableOk(w, table) && TableOk(w, db.current) && TableOk(w, db.committed)
  {
    && Apply(w.read, Image(w, table), Flatten(txns)) == Image(w, db.committed)
    && Apply(w.read, Image(w, table), Flatten(txns) + open) == Image(w, db.current)
    && (!db.inTxn ==> open == [])
  }

  lemma {:induction false} StreamIsMirrored(w: World, table: Table, run: seq<Action>, stream: seq<Item>)
    requires Proper(w) && TableOk(w, table) && Faithful(w, table, stream)
    requires Ops(run) == StreamOps(w, table, stream)
    ensures WellFormed(run) && NoCreates(run)
    ensures RowsMirror(w, table, Txns(run), Open(run), Database(table, stream))
  {
    if run != [] {
      var front := Front(run);
      if !Last(run).Deliver? {
        StreamIsMirrored(w, table, front, stream);
      } else {
        LastOpMatches(w, table, run, stream);
        StreamIsMirrored(w, table, front, Front(stream));
        ItemIsMirrored(w, table, Txns(front), Open(front), stream, Last(run).op);
        DeliveryIsRead(run);
      }
    }
  }

  lemma LastOpMatches(w: World, table: Table, run: seq<Action>, stream: seq<Item>)
    requires w.idx < |w.rel.columns| && TableOk(w, table) && Faithful(w, table, stream)
    requires run != [] && Last(run).Deliver? && Ops(run) == StreamOps(w, table, stream)
    ensures stream != [] && Ops(Front(run)) == StreamOps(w, table, Front(stream))
    ensures Last(run).op ==
            Translate(w.u.cx, w.u.idColumn, Announced(Front(stream)), MessageOf(Last(stream)))
  {
    assert Ops(run) != [];
    assert Front(Ops(run)) == Ops(Front(run)) && Last(Ops(run)) == Last(run).op;
    assert Front(StreamOps(w, table, stream)) == StreamOps(w, table, Front(stream));
  }

  /** What a delivered operation adds to the reference readings of a run. */
  lemma DeliveryIsRead(run: seq<Action>)
    requires run != [] && Last(run).Deliver?
    ensures
      var front, op := Front(run), Last(run).op;
      && Txns(run) == (if op.Commit? then Txns(front) + [Open(front)] else Txns(front))
      && Open(run) == (match op
                       case Row(item) => Open(front) + [item]
                       case Commit => []
                       case Rollback => []
                       case _ => Open(front))
      && (WellFormed(front) && (op.Begin? ==> Open(front) == []) ==> WellFormed(run))
      && (NoCreates(front) && (op.Row? ==> op.item.action != CREATE) ==> NoCreates(run))
  {
    assert forall a :: a in run ==> a in Front(run) || a == Last(run);
  }

  /** One more item of the stream, and what it does to the committed and the open rows. */
  lemma {:induction false} ItemIsMirrored(w: World, table: Table, txns: seq<seq<Data>>, open: seq<Data>,
                                          stream: seq<Item>, op: TxnOp)
    requires Proper(w) && TableOk(w, table) && Faithful(w, table, stream) && stream != []
    requires RowsMirror(w, table, txns, open, Database(table, Front(stream)))
    requires op == Translate(w.u.cx, w.u.idColumn, Announced(Front(stream)), MessageOf(Last(stream)))
    ensures !op.Rollback? && (op.Begin? ==> open == [])
    ensures op.Begin? || op.Skip? ==> RowsMirror(w, table, txns, open, Database(table, stream))
    ensures op.Commit? ==> RowsMirror(w, table, txns + [open], [], Database(table, stream))
    ensures op.Row? ==>
              op.item.action != CREATE && RowsMirror(w, table, txns, open + [op.item], Database(table, stream))
  {
    var db := Database(table, Front(stream));
    match Last(stream)
    case TxBegin => assert op == Begin;
    case Aside(m) => AsideIsSkipped(w, Announced(Front(stream)), m);
    case TxCommit => assert op == Commit; CommitIsMirrored(w, table, txns, open, db);
    case TxChange(change, m) =>
      AnnouncedIsTheRelation(w, table, Front(stream));
      RowIsMirrored(w, table, txns, open, db, change, Announced(Front(stream)), m);
  }

  lemma AsideIsSkipped(w: World, relations: Relations, m: Message)
    requires NoRow(w, m) && MessageFits(relations, m)
    ensures Translate(w.u.cx, w.u.idColumn, relations, m) == Skip
  {
  }

  lemma CommitIsMirrored(w: World, table: Table, txns: seq<seq<Data>>, open: seq<Data>, db: Db)
    requires Proper(w) && TableOk(w, table) && TableOk(w, db.current) && TableOk(w, db.committed)
    requires RowsMirror(w, table, txns, open, db)
    ensures RowsMirror(w, table, txns + [open], [], db.(committed := db.current, inTxn := false))
  {
    FlattenAppend(txns, open);
    assert Flatten(txns) + open + [] == Flatten(txns) + open;
  }

  lemma RowIsMirrored(w: World, table: Table, txns: seq<seq<Data>>, open: seq<Data>, db: Db,
                      change: Change, relations: Relations, m: Message)
    requires Proper(w) && TableOk(w, table) && TableOk(w, db.current) && TableOk(w, db.committed)
    requires RowsMirror(w, table, txns, open, db) && db.inTxn && Knows(w, relations)
    requires Applicable(w, db.current, change) && Describes(w, db.current, change, m)
    ensures MessageFits(relations, m) && TableOk(w, Execute(db.current, change))
    ensures Translate(w.u.cx, w.u.idColumn, relations, m).Row?
    ensures Translate(w.u.cx, w.u.idColumn, relations, m).item.action != CREATE
    ensures RowsMirror(w, table, txns, open + [Translate(w.u.cx, w.u.idColumn, relations, m).item],
                       db.(current := Execute(db.current, change)))
  {
    ChangeIsExpressed(w, db.current, change, relations, m);
    AppendedRowIsMirrored(w, table, txns, open, db, change, RowData(w.u.cx, w.u.idColumn, relations, m).value);
  }

  lemma {:induction false} AppendedRowIsMirrored(w: World, table: Table, txns: seq<seq<Data>>, open: seq<Data>, db: Db,
                              change: Change, item: Data)
    requires Proper(w) && TableOk(w, table) && TableOk(w, db.current) && TableOk(w, db.committed)
    requires RowsMirror(w, table, txns, open, db) && db.inTxn
    requires Applicable(w, db.current, change) && Expresses(w, db.current, change, item)
    ensures item.action != CREATE && TableOk(w, Execute(db.current, change))
    ensures RowsMirror(w, table, txns, open + [item], db.(current := Execute(db.current, change)))
  {
    ChangeIsMirrored(w, db.current, change, item);
    ApplyOneMore(w.read, Image(w, table), Flatten(txns), open, item);
  }

  lemma ApplyOneMore(read: Reader, store: Store, a: seq<Data>, b: seq<Data>, item: Data)
    ensures Apply(read, store, a + (b + [item])) == ApplyItem(read, Apply(read, store, a + b), item)
  {
    var rows := a + b;
    assert a + (b + [item]) == rows + [item];
    assert (rows + [item])[..|rows|] == rows;
  }

  /** The main result. For every faithful stream, every interleaving of flushes and ticks with its
      delivery and every pattern of failed, partly applied sends: whenever no committed row is
      waiting, the index is the image of the table after exactly the committed transactions. */
  lemma {:induction false} IndexMirrorsTable(w: World, t0: int, table: Table, run: seq<Action>, stream: seq<Item>)
    requires Proper(w) && TableOk(w, table) && Faithful(w, table, stream)
    requires Legal(w.u.config, t0, run) && Ops(run) == StreamOps(w, table, stream)
    requires Run(w.u.config, t0, run).b.lastCommitted == -1
    ensures Replay(w.read, Image(w, table), Run(w.u.config, t0, run).b.attempts) ==
            Image(w, Database(table, stream).committed)
  {
    StreamIsMirrored(w, table, run, stream);
    SentTransactionsTakeEffectOnce(w.u.config, t0, run, w.read, Image(w, table));
  }

  /** In particular right after every acknowledged send. */
  lemma IndexMirrorsTableAfterAck(w: World, t0: int, table: Table, run: seq<Action>, stream: seq<Item>)
    requires Proper(w) && TableOk(w, table) && Faithful(w, table, stream)
    requires Legal(w.u.config, t0, run) && Ops(run) == StreamOps(w, table, stream)
    requires run != [] && FlushTiming.AckedAt(w.u.config, t0, run, |run| - 1)
    ensures Replay(w.read, Image(w, table), Run(w.u.config, t0, run).b.attempts) ==
            Image(w, Database(table, stream).committed)
  {
    assert run[..|run|] == run;
    IndexMirrorsTable(w, t0, table, run, stream);
  }

  // ---- The receive loop is one such run

  /** The machine steps of the receive loop when no other goroutine runs in between. */
  ghost function Schedule(u: Setup, s: CState, events: seq<Incoming>, outcomes: seq<Outcome>): seq<Action>
    requires |outcomes| == |events|
    requires Ok(s.p.b) && AllFit(s.relations, events)
  {
    if events == [] then []
    else
      var before := HandleAll(u, s, Front(events), Front(outcomes));
      Schedule(u, s, Front(events), Front(outcomes)) + Steps(u, before, Last(events), Last(outcomes))
  }

  ghost function Steps(u: Setup, s: CState, e: Incoming, o: Outcome): seq<Action>
    requires Ok(s.p.b) && (e.XLogData? ==> MessageFits(s.relations, e.msg))
  {
    if !e.XLogData? then []
    else OpSteps(u.config, s.p, Translate(u.cx, u.idColumn, s.relations, e.msg), e.now, o)
  }

  function OpSteps(c: Config, s: PState, op: TxnOp, now: int, o: Outcome): seq<Action>
    requires Ok(s.b)
  {
    [Deliver(op, now, o)] + if Start(s, op, c, now, o).pc.Idle? then [] else [Settle]
  }

  lemma OpIsARun(c: Config, t0: int, run: seq<Action>, op: TxnOp, now: int, o: Outcome)
    requires Legal(c, t0, run) && Run(c, t0, run).pc.Idle? && Possible(Run(c, t0, run).b, o)
    ensures
      var s := Run(c, t0, run);
      var more := run + OpSteps(c, s, op, now, o);
      && Legal(c, t0, more)
      && Run(c, t0, more) == Finish(Start(s, op, c, now, o)) && Run(c, t0, more).pc.Idle?
  {
    var s, a := Run(c, t0, run), Deliver(op, now, o);
    OneMoreStep(c, t0, run, a);
    if Start(s, op, c, now, o).pc.Idle? {
      assert run + OpSteps(c, s, op, now, o) == run + [a];
    } else {
      OneMoreStep(c, t0, run + [a], Settle);
      assert run + OpSteps(c, s, op, now, o) == run + [a] + [Settle];
    }
  }

  lemma OnlyDataReachesTheBatcher(u: Setup, s: CState, e: Incoming, o: Outcome)
    requires Ok(s.p.b) && (e.XLogData? ==> MessageFits(s.relations, e.msg))
    ensures !e.XLogData? ==> Handle(u, s, e, o).p == s.p && Steps(u, s, e, o) == []
    ensures e.XLogData? ==>
              var op := Translate(u.cx, u.idColumn, s.relations, e.msg);
              && Handle(u, s, e, o).p == Finish(Start(s.p, op, u.config, e.now, o))
              && Steps(u, s, e, o) == OpSteps(u.config, s.p, op, e.now, o)
  {
  }

  lemma {:induction false} RoundIsARun(u: Setup, t0: int, run: seq<Action>, s: CState, e: Incoming, o: Outcome)
    requires Legal(u.config, t0, run) && s.p == Run(u.config, t0, run) && s.p.pc.Idle?
    requires Possible(s.p.b, o) && (e.XLogData? ==> MessageFits(s.relations, e.msg))
    ensures Legal(u.config, t0, run + Steps(u, s, e, o))
    ensures Handle(u, s, e, o).p == Run(u.config, t0, run + Steps(u, s, e, o)) && Handle(u, s, e, o).p.pc.Idle?
  {
    OnlyDataReachesTheBatcher(u, s, e, o);
    if e.XLogData? {
      OpIsARun(u.config, t0, run, Translate(u.cx, u.idColumn, s.relations, e.msg), e.now, o);
    } else {
      assert run + Steps(u, s, e, o) == run;
    }
  }

  lemma ScheduleGrows(u: Setup, s: CState, events: seq<Incoming>, outcomes: seq<Outcome>, run: seq<Action>)
    requires events != [] && |outcomes| == |events| && Ok(s.p.b) && AllFit(s.relations, events)
    ensures
      var before := HandleAll(u, s, Front(events), Front(outcomes));
      run + Schedule(u, s, events, outcomes) ==
      (run + Schedule(u, s, Front(events), Front(outcomes))) + Steps(u, before, Last(events), Last(outcomes))
  {
  }

  lemma LastRound(u: Setup, s: CState, events: seq<Incoming>, outcomes: seq<Outcome>, r: CState)
    requires events != [] && |outcomes| == |events| && Ok(s.p.b) && Leads(u, s, events, outcomes, r)
    ensures
      var before := HandleAll(u, s, Front(events), Front(outcomes));
      && Leads(u, s, Front(events), Front(outcomes), before)
      && Possible(before.p.b, Last(outcomes))
      && (Last(events).XLogData? ==> MessageFits(before.relations, Last(events).msg))
      && r == Handle(u, before, Last(events), Last(outcomes))
  {
  }

  /** The receive loop, from any state of a run on, is a run of the machine, so everything proved of
      all runs holds of it. */
  lemma {:induction false} ReceiveLoopIsARun(u: Setup, t0: int, run: seq<Action>, s: CState,
                                             events: seq<Incoming>, outcomes: seq<Outcome>, r: CState)
    requires Legal(u.config, t0, run) && s.p == Run(u.config, t0, run) && s.p.pc.Idle?
    requires |outcomes| == |events| && Leads(u, s, events, outcomes, r)
    ensures Legal(u.config, t0, run + Schedule(u, s, events, outcomes))
    ensures r.p == Run(u.config, t0, run + Schedule(u, s, events, outcomes)) && r.p.pc.Idle?
    decreases |events|
  {
    if events == [] {
      assert run + Schedule(u, s, events, outcomes) == run;
    } else {
      var before := HandleAll(u, s, Front(events), Front(outcomes));
      LastRound(u, s, events, outcomes, r);
      ReceiveLoopIsARun(u, t0, run, s, Front(events), Front(outcomes), before);
      var done := run + Schedule(u, s, Front(events), Front(outcomes));
      RoundIsARun(u, t0, done, before, Last(events), Last(outcomes));
      ScheduleGrows(u, s, events, outcomes, run);
    }
  }

  // ---- The receive loop mirrors the table

  function Messages(stream: seq<Item>): seq<Message> {
    if stream == [] then [] else Messages(Front(stream)) + [MessageOf(Last(stream))]
  }

  lemma OpIsDelivered(c: Config, run: seq<Action>, s: PState, op: TxnOp, now: int, o: Outcome)
    requires Ok(s.b)
    ensures Ops(run + OpSteps(c, s, op, now, o)) == Ops(run) + [op]
  {
    var delivered := run + [Deliver(op, now, o)];
    assert Front(delivered) == run && Ops(delivered) == Ops(run) + [op];
    if Start(s, op, c, now, o).pc.Idle? {
      assert run + OpSteps(c, s, op, now, o) == delivered;
    } else {
      assert run + OpSteps(c, s, op, now, o) == delivered + [Settle];
      assert Front(delivered + [Settle]) == delivered;
    }
  }

  lemma LastMessageMatches(w: World, table: Table, stream: seq<Item>, events: seq<Incoming>)
    requires w.idx < |w.rel.columns| && TableOk(w, table) && Faithful(w, table, stream)
    requires events != [] && Last(events).XLogData? && Received(events) == Messages(stream)
    ensures stream != [] && MessageOf(Last(stream)) == Last(events).msg
    ensures Received(Front(events)) == Messages(Front(stream))
  {
    assert Received(events) != [];
    assert Front(Received(events)) == Received(Front(events)) && Last(Received(events)) == Last(events).msg;
    assert Front(Messages(stream)) == Messages(Front(stream));
  }

  /** From data events with the messages of a stream, the loop learns the stream's relations and
      delivers the stream's operations. */
  lemma {:induction false} LoopDeliversStream(w: World, table: Table, stream: seq<Item>, s: CState,
                                              events: seq<Incoming>, outcomes: seq<Outcome>)
    requires w.idx < |w.rel.columns| && TableOk(w, table) && Faithful(w, table, stream)
    requires |outcomes| == |events| && Ok(s.p.b) && s.relations == map[] && AllFit(map[], events)
    requires Received(events) == Messages(stream)
    ensures RelationsAfter(map[], events) == Announced(stream)
    ensures forall id :: LearnedFrom(map[], Messages(stream), RelationsAfter(map[], events), id)
    ensures Ops(Schedule(w.u, s, events, outcomes)) == StreamOps(w, table, stream)
    decreases |events|
  {
    forall id
      ensures LearnedFrom(map[], Messages(stream), RelationsAfter(map[], events), id)
    {
      RelationsAreLearned(map[], events, id);
    }
    if events != [] {
      var front, e := Front(events), Last(events);
      var before := HandleAll(w.u, s, front, Front(outcomes));
      var steps := Schedule(w.u, s, front, Front(outcomes));
      OnlyDataReachesTheBatcher(w.u, before, e, Last(outcomes));
      if e.XLogData? {
        LastMessageMatches(w, table, stream, events);
        LoopDeliversStream(w, table, Front(stream), s, front, Front(outcomes));
        var op := Translate(w.u.cx, w.u.idColumn, before.relations, e.msg);
        OpIsDelivered(w.u.config, steps, before.p, op, e.now, Last(outcomes));
      } else {
        LoopDeliversStream(w, table, stream, s, front, Front(outcomes));
        assert steps + [] == steps;
      }
    }
  }

  /** End to end: the receive loop of a new connection and batcher, fed with a faithful stream among
      keepalives and other events, leaves the index as the image of the committed table whenever no
      committed row is waiting. */
  lemma {:induction false} ReceiveLoopMirrorsTable(w: World, t0: int, table: Table, stream: seq<Item>, s: CState,
                                                   events: seq<Incoming>, outcomes: seq<Outcome>, r: CState)
    requires Proper(w) && TableOk(w, table) && Faithful(w, table, stream)
    requires s.relations == map[] && s.p == Run(w.u.config, t0, [])
    requires |outcomes| == |events| && Leads(w.u, s, events, outcomes, r)
    requires Received(events) == Messages(stream) && r.p.b.lastCommitted == -1
    ensures Replay(w.read, Image(w, table), r.p.b.attempts) == Image(w, Database(table, stream).committed)
  {
    var run := Schedule(w.u, s, events, outcomes);
    ReceiveLoopIsARun(w.u, t0, [], s, events, outcomes, r);
    assert [] + run == run;
    LoopDeliversStream(w, table, stream, s, events, outcomes);
    IndexMirrorsTable(w, t0, table, run, stream);
  }
}
