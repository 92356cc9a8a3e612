/** What the search engine does with the operations it accepts. A document is a flat map of
    fields; index replaces, update merges fields into an existing document, delete removes. */
module DocumentStore {
  import opened BulkData

  datatype Value = Nil | Val(text: string)

  type Doc = map<string, Value>
  type Store = map<string, Doc>

  /** How the engine reads the document out of an operation's body. */
  type Reader = Bytes -> Doc

  function ApplyItem(read: Reader, store: Store, d: Data): Store {
    if d.action == INDEX then
      store[d.id := read(d.body)]
    else if d.action == CREATE then
      if d.id in store then store else store[d.id := read(d.body)]
    else if d.action == DELETE then
      store - {d.id}
    else if d.action == UPDATE then
      if d.id in store then store[d.id := store[d.id] + read(d.body)] else store
    else
      store
  }

  /** The store after all `items`, in order. */
  function Apply(read: Reader, store: Store, items: seq<Data>): Store {
    if items == [] then store
    else ApplyItem(read, Apply(read, store, items[..|items|-1]), items[|items|-1])
  }

  lemma {:induction false} ApplyConcat(read: Reader, store: Store, a: seq<Data>, b: seq<Data>)
    ensures Apply(read, store, a + b) == Apply(read, Apply(read, store, a), b)
    decreases |b|
  {
    if b == [] {
      assert a + b == a;
    } else {
      var front := b[..|b|-1];
      assert (a + b)[..|a + b|-1] == a + front;
      ApplyConcat(read, store, a, front);
    }
  }

  /** No create action among the items: the pipeline never emits one. */
  ghost predicate ReplaySafe(items: seq<Data>) {
    forall d :: d in items ==> d.action != CREATE
  }

  /** What a list of operations does to one document, whatever the document was: it fixes the result,
      merges fields into a document that exists, or merges them or else creates a document. */
  datatype Effect = Fixed(doc: Option<Doc>) | Merge(fields: Doc) | Upsert(created: Doc, fields: Doc)

  function Lookup(store: Store, id: string): Option<Doc> {
    if id in store then Some(store[id]) else None
  }

  function Perform(e: Effect, doc: Option<Doc>): Option<Doc> {
    match e
    case Fixed(result) => result
    case Merge(fields) => if doc.None? then None else Some(doc.value + fields)
    case Upsert(created, fields) => if doc.None? then Some(created) else Some(doc.value + fields)
  }

  function ThenIndex(doc: Doc): Effect {
    Fixed(Some(doc))
  }

  function ThenCreate(e: Effect, doc: Doc): Effect {
    match e
    case Fixed(None) => Fixed(Some(doc))
    case Merge(fields) => Upsert(doc, fields)
    case _ => e
  }

  function ThenUpdate(e: Effect, update: Doc): Effect {
    match e
    case Fixed(None) => e
    case Fixed(Some(doc)) => Fixed(Some(doc + update))
    case Merge(fields) => Merge(fields + update)
    case Upsert(created, fields) => Upsert(created + update, fields + update)
  }

  function EffectOf(read: Reader, items: seq<Data>, id: string): Effect {
    if items == [] then
      Merge(map[])
    else
      var before, d := EffectOf(read, items[..|items|-1], id), items[|items|-1];
      if d.id != id || !Known(d.action) then before
      else if d.action == INDEX then ThenIndex(read(d.body))
      else if d.action == CREATE then ThenCreate(before, read(d.body))
      else if d.action == DELETE then Fixed(None)
      else ThenUpdate(before, read(d.body))
  }

  lemma {:induction false} EffectIsSound(read: Reader, store: Store, items: seq<Data>, id: string)
    ensures Lookup(Apply(read, store, items), id) == Perform(EffectOf(read, items, id), Lookup(store, id))
  {
    if items == [] {
      if id in store {
        assert store[id] + map[] == store[id];
      }
    } else {
      var front := items[..|items|-1];
      EffectIsSound(read, store, front, id);
      var d := items[|items|-1];
      if d.id == id && d.action == UPDATE {
        UpdateIsSound(EffectOf(read, front, id), read(d.body), Lookup(store, id));
      }
    }
  }

  lemma UpdateIsSound(e: Effect, update: Doc, doc: Option<Doc>)
    ensures Perform(ThenUpdate(e, update), doc) ==
            if Perform(e, doc).None? then None else Some(Perform(e, doc).value + update)
  {
    if !e.Fixed? && doc.Some? {
      assert (doc.value + e.fields) + update == doc.value + (e.fields + update);
    }
  }

  /** The result is fixed exactly when the items index or delete the document. */
  lemma {:induction false} FixedIff(read: Reader, items: seq<Data>, id: string)
    ensures EffectOf(read, items, id).Fixed? <==>
            exists x :: x in items && x.id == id && (x.action == INDEX || x.action == DELETE)
  {
    if items != [] {
      var front, d := items[..|items|-1], items[|items|-1];
      FixedIff(read, front, id);
      assert items == front + [d];
      assert forall x :: x in items <==> x in front || x == d;
    }
  }

  /** Where the result is not fixed, each update's fields are among the merged ones, and a create
      makes the effect one that creates. */
  lemma {:induction false} EffectCoversItem(read: Reader, items: seq<Data>, id: string, x: Data)
    requires x in items && x.id == id && !EffectOf(read, items, id).Fixed?
    ensures x.action != INDEX && x.action != DELETE
    ensures x.action == UPDATE ==> read(x.body).Keys <= EffectOf(read, items, id).fields.Keys
    ensures x.action == CREATE ==> EffectOf(read, items, id).Upsert?
  {
    var front := items[..|items|-1];
    if x in front {
      EffectCoversItem(read, front, id, x);
    } else {
      assert x == items[|items|-1];
    }
  }

  /** The document that `e` creates is the one that `x` creates, up to fields among `fields`. */
  ghost predicate CreatedBy(read: Reader, e: Effect, x: Data, fields: Doc) {
    e.Upsert? && e.created + fields == read(x.body) + fields
  }

  /** Items drawn from a list that does not fix the result merge no other fields than the list, and
      create the document only by one of the list's creates. */
  lemma {:induction false} DrawnEffectIsCovered(read: Reader, w: seq<Data>, items: seq<Data>, id: string)
      returns (x: Data)
    requires DrawnFrom(w, items) && !EffectOf(read, items, id).Fixed?
    ensures !EffectOf(read, w, id).Fixed?
    ensures EffectOf(read, w, id).fields.Keys <= EffectOf(read, items, id).fields.Keys
    ensures EffectOf(read, w, id).Upsert? ==>
              && x in items && x.id == id && x.action == CREATE
              && CreatedBy(read, EffectOf(read, w, id), x, EffectOf(read, items, id).fields)
  {
    x := Data(id, CREATE, "");
    if w != [] {
      var front, d, fields := w[..|w|-1], w[|w|-1], EffectOf(read, items, id).fields;
      x := DrawnEffectIsCovered(read, front, items, id);
      assert d in w;
      if d.id == id {
        EffectCoversItem(read, items, id, d);
        var e := EffectOf(read, front, id);
        if d.action == CREATE && e.Merge? {
          x := d;
        } else if d.action == UPDATE && e.Upsert? {
          assert (e.created + read(d.body)) + fields == e.created + fields;
        }
      }
    }
  }

  /** Applying the payload after `w` gives what applying it alone gives. */
  ghost predicate Converges(read: Reader, store: Store, w: seq<Data>, payload: seq<Data>) {
    Apply(read, Apply(read, store, w), payload) == Apply(read, store, payload)
  }

  /** For each document that the payload neither indexes nor deletes, all creates lead to the same
      result: with the payload's merged fields they give the document that the payload creates. */
  ghost predicate CreatesAgree(read: Reader, payload: seq<Data>) {
    forall x :: x in payload && x.action == CREATE ==> CreateAgrees(read, payload, x)
  }

  ghost predicate CreateAgrees(read: Reader, payload: seq<Data>, x: Data) {
    var e := EffectOf(read, payload, x.id);
    e.Upsert? ==> read(x.body) + e.fields == e.created
  }

  /** `g` leaves nothing behind that `e` does not settle. */
  ghost predicate Absorbs(e: Effect, g: Effect, doc: Option<Doc>) {
    Perform(e, Perform(g, doc)) == Perform(e, doc)
  }

  lemma CoveredIsAbsorbed(e: Effect, g: Effect, doc: Option<Doc>)
    requires !e.Fixed? && !g.Fixed? && g.fields.Keys <= e.fields.Keys
    requires g.Upsert? ==> e.Upsert? && g.created + e.fields == e.created
    ensures Absorbs(e, g, doc)
  {
    if doc.Some? {
      assert (doc.value + g.fields) + e.fields == doc.value + e.fields;
    }
  }

  lemma DrawnIsAbsorbed(read: Reader, w: seq<Data>, payload: seq<Data>, id: string, doc: Option<Doc>)
    requires DrawnFrom(w, payload) && CreatesAgree(read, payload)
    ensures Absorbs(EffectOf(read, payload, id), EffectOf(read, w, id), doc)
  {
    var e, g := EffectOf(read, payload, id), EffectOf(read, w, id);
    if !e.Fixed? {
      var x := DrawnEffectIsCovered(read, w, payload, id);
      if g.Upsert? {
        EffectCoversItem(read, payload, id, x);
        assert CreateAgrees(read, payload, x);
      }
      CoveredIsAbsorbed(e, g, doc);
    }
  }

  lemma ConvergesById(read: Reader, store: Store, w: seq<Data>, payload: seq<Data>, id: string)
    requires DrawnFrom(w, payload) && CreatesAgree(read, payload)
    ensures Lookup(Apply(read, Apply(read, store, w), payload), id) == Lookup(Apply(read, store, payload), id)
  {
    EffectIsSound(read, Apply(read, store, w), payload, id);
    EffectIsSound(read, store, payload, id);
    EffectIsSound(read, store, w, id);
    DrawnIsAbsorbed(read, w, payload, id, Lookup(store, id));
  }

  lemma CreatesThatAgreeConverge(read: Reader, store: Store, w: seq<Data>, payload: seq<Data>)
    requires DrawnFrom(w, payload) && CreatesAgree(read, payload)
    ensures Converges(read, store, w, payload)
  {
    var retried, clean := Apply(read, Apply(read, store, w), payload), Apply(read, store, payload);
    forall id
      ensures Lookup(retried, id) == Lookup(clean, id)
    {
      ConvergesById(read, store, w, payload, id);
    }
    SameLookups(retried, clean);
  }

  /** A failed attempt that left just the create `x` behind shows whether `x` agrees. */
  lemma LoneCreateDecides(read: Reader, payload: seq<Data>, x: Data)
    requires x in payload && x.action == CREATE && Converges(read, map[], [x], payload)
    ensures CreateAgrees(read, payload, x)
  {
    var left := Apply(read, map[], [x]);
    EffectIsSound(read, map[], [x], x.id);
    assert [x][..0] == [] && EffectOf(read, [x], x.id) == Upsert(read(x.body), map[]);
    EffectIsSound(read, left, payload, x.id);
    EffectIsSound(read, map[], payload, x.id);
  }

  /** Retries converge, whatever subset of the payload's operations earlier failed attempts left
      behind in whatever order, exactly when the payload's creates agree. */
  lemma RetryConvergesIff(read: Reader, payload: seq<Data>)
    ensures (forall store, w :: DrawnFrom(w, payload) ==> Converges(read, store, w, payload))
            <==> CreatesAgree(read, payload)
  {
    if CreatesAgree(read, payload) {
      forall store, w | DrawnFrom(w, payload)
        ensures Converges(read, store, w, payload)
      {
        CreatesThatAgreeConverge(read, store, w, payload);
      }
    } else {
      var x :| x in payload && x.action == CREATE && !CreateAgrees(read, payload, x);
      assert DrawnFrom([x], payload);
      if Converges(read, map[], [x], payload) {
        LoneCreateDecides(read, payload, x);
      }
    }
  }

  /** In particular a payload without creates can always be retried. */
  lemma RetryConverges(read: Reader, store: Store, w: seq<Data>, payload: seq<Data>)
    requires ReplaySafe(payload) && DrawnFrom(w, payload)
    ensures Apply(read, Apply(read, store, w), payload) == Apply(read, store, payload)
  {
    CreatesThatAgreeConverge(read, store, w, payload);
  }

  lemma SameLookups(s: Store, t: Store)
    requires forall id :: Lookup(s, id) == Lookup(t, id)
    ensures s == t
  {
    forall id
      ensures id in s <==> id in t
      ensures id in s ==> s[id] == t[id]
    {
      assert Lookup(s, id) == Lookup(t, id);
    }
  }

  /** Two creates of one document that read differently: after a failed attempt that left only the
      second behind, the retry keeps the wrong document. A single create can be retried. */
  lemma CreateIsNotReplaySafe(read: Reader, a: Bytes, b: Bytes)
    requires read(a) != read(b)
    ensures
      var p0, p1 := Data("1", CREATE, a), Data("1", CREATE, b);
      && !Converges(read, map[], [p1], [p0, p1]) && !CreatesAgree(read, [p0, p1])
      && CreatesAgree(read, [p0])
  {
    var p0, p1 := Data("1", CREATE, a), Data("1", CREATE, b);
    assert [p0, p1][..1] == [p0] && [p0][..0] == [];
    assert EffectOf(read, [p0, p1], "1") == EffectOf(read, [p0], "1") == Upsert(read(a), map[]);
    assert p1 in [p0, p1] && !CreateAgrees(read, [p0, p1], p1);
    if Converges(read, map[], [p1], [p0, p1]) {
      LoneCreateDecides(read, [p0, p1], p1);
    }
  }
}
