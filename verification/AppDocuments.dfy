/** The app-document store (src/peat_mesh.rs) over registered document types (src/registry.rs).
    Document types are given from outside; what their documentation demands of them is stated as a
    contract, and the store is proved independent of the order and repetition of full states. */
module AppDocuments {
  import opened Common
  import opened AppOperations

  const FULL_STATE: u8 := 0x00

  // A registered type: how its documents are named, read, merged, and changed by an operation.
  // Merging and applying also say whether they changed anything.
  datatype Handler<!D> = Handler(
    identity: D -> (NodeId, u64),
    decode: seq<u8> -> Option<D>,
    merge: (D, D) -> (D, bool),
    apply: (D, AppOperation) -> (D, bool))

  type Handlers<!D> = map<u8, Handler<D>>

  // A document is stored under its type, its author and its timestamp.
  datatype Key = Key(typeId: u8, source: NodeId, timestamp: u64)

  type Documents<D> = map<Key, D>

  function OperationKey(op: AppOperation): (r: Key) {
    Key(op.typeId, op.sourceNode, DocTimestamp(op.timestamp))
  }

  // ---------- What the two calls do ----------

  // A local or decoded document is merged into the stored one, or stored.
  function Stored<D>(handlers: Handlers<D>, docs: Documents<D>, key: Key, doc: D): (r: (Documents<D>, bool)) {
    if key in docs then
      if key.typeId in handlers then
        var (merged, changed) := handlers[key.typeId].merge(docs[key], doc);
        (docs[key := merged], changed)
      else (docs, false)
    else (docs[key := doc], true)
  }

  // An operation is applied to the stored document; for an unknown one, whatever its code, the
  // payload is tried as a full state.
  function Received<D>(handlers: Handlers<D>, docs: Documents<D>, op: AppOperation): (r: (Documents<D>, bool)) {
    var key := OperationKey(op);
    if op.typeId !in handlers then (docs, false)
    else
      var h := handlers[op.typeId];
      if key in docs then
        var (applied, changed) := h.apply(docs[key], op);
        (docs[key := applied], changed)
      else match h.decode(op.payload)
        case None => (docs, false)
        case Some(doc) => (docs[key := doc], true)
  }

  class AppDocumentStore<D> {
    var handlers: Handlers<D>
    var appDocuments: Documents<D>

    constructor ()
      ensures handlers == map[] && appDocuments == map[]
    {
      handlers := map[];
      appDocuments := map[];
    }

    // Registers a type once, and only in the app range.
    method TryRegister(typeId: u8, handler: Handler<D>) returns (registered: bool)
      modifies `handlers
      ensures registered <==> IsAppType(typeId) && typeId !in old(handlers)
      ensures handlers == if registered then old(handlers)[typeId := handler] else old(handlers)
    {
      if !IsAppType(typeId) || typeId in handlers {
        return false;
      }
      handlers := handlers[typeId := handler];
      registered := true;
    }

    method StoreAppDocument(typeId: u8, source: NodeId, timestamp: u64, doc: D) returns (changed: bool)
      modifies `appDocuments
      ensures (appDocuments, changed) == Stored(handlers, old(appDocuments), Key(typeId, source, timestamp), doc)
    {
      var key := Key(typeId, source, timestamp);
      if key in appDocuments {
        if typeId !in handlers {
          return false;
        }
        var (merged, c) := handlers[typeId].merge(appDocuments[key], doc);
        appDocuments := appDocuments[key := merged];
        changed := c;
      } else {
        appDocuments := appDocuments[key := doc];
        changed := true;
      }
    }

    method ReceiveOperation(op: AppOperation) returns (changed: bool)
      modifies `appDocuments
      ensures (appDocuments, changed) == Received(handlers, old(appDocuments), op)
    {
      var key := Key(op.typeId, op.sourceNode, DocTimestamp(op.timestamp));
      if op.typeId !in handlers {
        return false;
      }
      var h := handlers[op.typeId];
      if key in appDocuments {
        var (applied, c) := h.apply(appDocuments[key], op);
        appDocuments := appDocuments[key := applied];
        changed := c;
      } else {
        var decoded := h.decode(op.payload);
        if decoded.None? {
          return false;
        }
        appDocuments := appDocuments[key := decoded.value];
        changed := true;
      }
    }
  }

  // ---------- The contract of a document type ----------

  // Merging is a join among documents of one name, and a full-state operation merges its payload.
  ghost predicate JoinType<D(!new)>(h: Handler<D>) {
    && (forall a, b :: h.identity(a) == h.identity(b) ==> h.identity(h.merge(a, b).0) == h.identity(a))
    && (forall a, b :: h.identity(a) == h.identity(b) ==> h.merge(a, b).0 == h.merge(b, a).0)
    && (forall a :: h.merge(a, a).0 == a)
    && (forall a, b, c :: h.identity(a) == h.identity(b) == h.identity(c) ==>
          h.merge(h.merge(a, b).0, c).0 == h.merge(a, h.merge(b, c).0).0)
  }

  ghost predicate FullStateMerges<D(!new)>(h: Handler<D>, typeId: u8) {
    forall d, op: AppOperation :: op.typeId == typeId && op.opCode == FULL_STATE ==>
      h.apply(d, op).0 == match h.decode(op.payload) case None => d case Some(o) => h.merge(d, o).0
  }

  ghost predicate AllJoinTypes<D(!new)>(handlers: Handlers<D>) {
    forall t :: t in handlers ==> JoinType(handlers[t]) && FullStateMerges(handlers[t], t)
  }

  // ---------- What a change means ----------

  // A type's flags are honest: they are raised exactly when the document changed.
  ghost predicate HonestFlags<D(!new)>(h: Handler<D>) {
    && (forall a, b :: h.merge(a, b).1 <==> h.merge(a, b).0 != a)
    && (forall a, op :: h.apply(a, op).1 <==> h.apply(a, op).0 != a)
  }

  // With honest types, both calls report a change exactly when the store changed.
  lemma ChangeReported<D(!new)>(handlers: Handlers<D>, docs: Documents<D>, key: Key, doc: D, op: AppOperation)
    requires forall t :: t in handlers ==> HonestFlags(handlers[t])
    ensures Stored(handlers, docs, key, doc).1 <==> Stored(handlers, docs, key, doc).0 != docs
    ensures Received(handlers, docs, op).1 <==> Received(handlers, docs, op).0 != docs
  {
    if key in docs && key.typeId in handlers {
      UpdateTells(docs, key, handlers[key.typeId].merge(docs[key], doc).0);
    }
    var k := OperationKey(op);
    if k in docs && op.typeId in handlers {
      UpdateTells(docs, k, handlers[op.typeId].apply(docs[k], op).0);
    }
  }

  lemma UpdateTells<D>(docs: Documents<D>, key: Key, doc: D)
    requires key in docs
    ensures docs[key := doc] == docs <==> doc == docs[key]
  {
    assert docs[key := doc][key] == doc;
    if doc == docs[key] {
      assert docs[key := doc] == docs;
    }
  }

  // ---------- Runs of the store ----------

  // What reaches the store: a local document, or an operation from the mesh.
  datatype Arrival<D> =
    | FromApp(typeId: u8, doc: D)
    | FromMesh(op: AppOperation)

  // The document an arrival brings, and where.
  function Brings<D>(handlers: Handlers<D>, arrival: Arrival<D>): (r: Option<(Key, D)>) {
    match arrival
    case FromApp(t, doc) =>
      if t !in handlers then None
      else var (source, timestamp) := handlers[t].identity(doc); Some((Key(t, source, timestamp), doc))
    case FromMesh(op) =>
      if op.typeId !in handlers then None
      else match handlers[op.typeId].decode(op.payload)
        case None => None
        case Some(doc) => Some((OperationKey(op), doc))
  }

  // A registered local document, or a full-state operation whose payload is named as it says.
  predicate Proper<D(==)>(handlers: Handlers<D>, arrival: Arrival<D>) {
    match arrival
    case FromApp(t, _) => t in handlers
    case FromMesh(op) =>
      op.opCode == FULL_STATE && match Brings(handlers, arrival)
        case None => true
        case Some((key, doc)) => handlers[op.typeId].identity(doc) == (key.source, key.timestamp)
  }

  function Arrive<D>(handlers: Handlers<D>, docs: Documents<D>, arrival: Arrival<D>): (r: Documents<D>) {
    match arrival
    case FromApp(t, doc) =>
      if t !in handlers then docs
      else var (source, timestamp) := handlers[t].identity(doc); Stored(handlers, docs, Key(t, source, timestamp), doc).0
    case FromMesh(op) => Received(handlers, docs, op).0
  }

  function ArriveAll<D>(handlers: Handlers<D>, docs: Documents<D>, arrivals: seq<Arrival<D>>): (r: Documents<D>) {
    if arrivals == [] then docs
    else Arrive(handlers, ArriveAll(handlers, docs, arrivals[..|arrivals| - 1]), arrivals[|arrivals| - 1])
  }

  // Documents are stored under their own names, and their types are registered.
  ghost predicate Named<D>(handlers: Handlers<D>, docs: Documents<D>) {
    forall k :: k in docs ==>
      k.typeId in handlers && handlers[k.typeId].identity(docs[k]) == (k.source, k.timestamp)
  }

  // The document brought joined into its place.
  function Joined<D>(handlers: Handlers<D>, docs: Documents<D>, brought: Option<(Key, D)>): (joined: Documents<D>)
    requires brought.Some? ==> brought.value.0.typeId in handlers
  {
    match brought
    case None => docs
    case Some((key, doc)) => docs[key := if key in docs then handlers[key.typeId].merge(docs[key], doc).0 else doc]
  }

  // What a proper arrival does: join what it brings into its place.
  lemma ArriveJoins<D(!new)>(handlers: Handlers<D>, docs: Documents<D>, arrival: Arrival<D>)
    requires AllJoinTypes(handlers) && Named(handlers, docs) && Proper(handlers, arrival)
    ensures Arrive(handlers, docs, arrival) == Joined(handlers, docs, Brings(handlers, arrival))
    ensures Named(handlers, Arrive(handlers, docs, arrival))
  {
    if arrival.FromMesh? {
      OperationJoins(handlers, docs, arrival.op);
    }
    JoinedNamed(handlers, docs, Brings(handlers, arrival));
  }

  lemma OperationJoins<D(!new)>(handlers: Handlers<D>, docs: Documents<D>, op: AppOperation)
    requires op.typeId in handlers ==> FullStateMerges(handlers[op.typeId], op.typeId)
    requires op.opCode == FULL_STATE
    ensures Received(handlers, docs, op).0 == Joined(handlers, docs, Brings(handlers, FromMesh(op)))
  {
    var key := OperationKey(op);
    if op.typeId in handlers && key in docs && handlers[op.typeId].decode(op.payload).None? {
      assert docs[key := docs[key]] == docs;
    }
  }

  lemma JoinedNamed<D(!new)>(handlers: Handlers<D>, docs: Documents<D>, brought: Option<(Key, D)>)
    requires AllJoinTypes(handlers) && Named(handlers, docs)
    requires brought.Some? ==>
      && brought.value.0.typeId in handlers
      && handlers[brought.value.0.typeId].identity(brought.value.1) == (brought.value.0.source, brought.value.0.timestamp)
    ensures Named(handlers, Joined(handlers, docs, brought))
  {
    if brought.Some? && brought.value.0 in docs {
      var h, stored, doc := handlers[brought.value.0.typeId], docs[brought.value.0], brought.value.1;
      assert h.identity(h.merge(stored, doc).0) == h.identity(stored);
    }
  }

  // One document below another: merging it in changes nothing.
  ghost predicate Below<D>(h: Handler<D>, a: D, b: D) {
    h.merge(a, b).0 == b
  }

  // What a key has received, from the initial store or an arrival.
  ghost predicate Contributed<D>(handlers: Handlers<D>, docs: Documents<D>, arrivals: seq<Arrival<D>>, key: Key,
                                 doc: D) {
    || (key in docs && docs[key] == doc)
    || (exists i :: 0 <= i < |arrivals| && Brings(handlers, arrivals[i]) == Some((key, doc)))
  }

  ghost predicate AllProper<D>(handlers: Handlers<D>, arrivals: seq<Arrival<D>>) {
    forall i :: 0 <= i < |arrivals| ==> Proper(handlers, arrivals[i])
  }

  lemma {:induction false} ArriveAllNamed<D(!new)>(handlers: Handlers<D>, docs: Documents<D>, arrivals: seq<Arrival<D>>)
    requires AllJoinTypes(handlers) && Named(handlers, docs) && AllProper(handlers, arrivals)
    ensures Named(handlers, ArriveAll(handlers, docs, arrivals))
  {
    if arrivals != [] {
      ArriveAllNamed(handlers, docs, arrivals[..|arrivals| - 1]);
      ArriveJoins(handlers, ArriveAll(handlers, docs, arrivals[..|arrivals| - 1]), arrivals[|arrivals| - 1]);
    }
  }

  // What was held stays held, and what is brought is held.
  lemma HeldNext<D(!new)>(handlers: Handlers<D>, before: Documents<D>, brought: Option<(Key, D)>, key: Key, doc: D)
    requires AllJoinTypes(handlers) && Named(handlers, before)
    requires key.typeId in handlers && handlers[key.typeId].identity(doc) == (key.source, key.timestamp)
    requires brought.Some? ==>
      && brought.value.0.typeId in handlers
      && handlers[brought.value.0.typeId].identity(brought.value.1) == (brought.value.0.source, brought.value.0.timestamp)
    requires (key in before && Below(handlers[key.typeId], doc, before[key])) || brought == Some((key, doc))
    ensures var after := Joined(handlers, before, brought);
      key in after && Below(handlers[key.typeId], doc, after[key])
  {
    var h := handlers[key.typeId];
    assert JoinType(h);
    if key in before && Below(h, doc, before[key]) {
      if brought.Some? && brought.value.0 == key {
        StaysBelow(h, doc, before[key], brought.value.1);
      }
    } else if key in before {
      JoinsIn(h, before[key], doc);
    } else {
      assert h.merge(doc, doc).0 == doc;
    }
  }

  // Everything that arrived for a key is in the document stored there.
  lemma {:induction false} HoldsAll<D(!new)>(handlers: Handlers<D>, docs: Documents<D>, arrivals: seq<Arrival<D>>,
                                             key: Key, doc: D)
    requires AllJoinTypes(handlers) && Named(handlers, docs) && AllProper(handlers, arrivals)
    requires Contributed(handlers, docs, arrivals, key, doc)
    ensures var after := ArriveAll(handlers, docs, arrivals);
      key in after && key.typeId in handlers && Below(handlers[key.typeId], doc, after[key])
    ensures handlers[key.typeId].identity(doc) == (key.source, key.timestamp)
  {
    if arrivals == [] {
      assert JoinType(handlers[key.typeId]);
    } else {
      var init, last := arrivals[..|arrivals| - 1], arrivals[|arrivals| - 1];
      var before := ArriveAll(handlers, docs, init);
      ArriveAllNamed(handlers, docs, init);
      ArriveJoins(handlers, before, last);
      if Contributed(handlers, docs, init, key, doc) {
        HoldsAll(handlers, docs, init, key, doc);
      } else {
        assert forall i :: 0 <= i < |init| ==> init[i] == arrivals[i];
      }
      HeldNext(handlers, before, Brings(handlers, last), key, doc);
    }
  }

  lemma StaysBelow<D(!new)>(h: Handler<D>, a: D, b: D, c: D)
    requires JoinType(h) && h.identity(a) == h.identity(b) == h.identity(c) && Below(h, a, b)
    ensures Below(h, a, h.merge(b, c).0)
  {
    assert h.merge(h.merge(a, b).0, c).0 == h.merge(a, h.merge(b, c).0).0;
  }

  lemma JoinsIn<D(!new)>(h: Handler<D>, b: D, a: D)
    requires JoinType(h) && h.identity(a) == h.identity(b)
    ensures Below(h, a, h.merge(b, a).0)
  {
    assert h.merge(b, a).0 == h.merge(a, b).0;
    assert h.merge(h.merge(a, a).0, b).0 == h.merge(a, h.merge(a, b).0).0;
  }

  // And nothing more: it is below every document that holds all of it.
  lemma {:induction false} HoldsNoMore<D(!new)>(handlers: Handlers<D>, docs: Documents<D>, arrivals: seq<Arrival<D>>,
                                                key: Key, bound: D)
    requires AllJoinTypes(handlers) && Named(handlers, docs) && AllProper(handlers, arrivals)
    requires key.typeId in handlers && handlers[key.typeId].identity(bound) == (key.source, key.timestamp)
    requires forall doc :: Contributed(handlers, docs, arrivals, key, doc) ==> Below(handlers[key.typeId], doc, bound)
    ensures var after := ArriveAll(handlers, docs, arrivals);
      key in after ==> Below(handlers[key.typeId], after[key], bound)
  {
    if arrivals == [] {
      if key in docs {
        assert Contributed(handlers, docs, arrivals, key, docs[key]);
      }
    } else {
      var init, last := arrivals[..|arrivals| - 1], arrivals[|arrivals| - 1];
      var before := ArriveAll(handlers, docs, init);
      forall doc | Contributed(handlers, docs, init, key, doc) ensures Below(handlers[key.typeId], doc, bound) {
        ContributedLater(handlers, docs, arrivals, key, doc);
      }
      HoldsNoMore(handlers, docs, init, key, bound);
      ArriveAllNamed(handlers, docs, init);
      ArriveJoins(handlers, before, last);
      if Brings(handlers, last).Some? && Brings(handlers, last).value.0 == key {
        var doc := Brings(handlers, last).value.1;
        assert Contributed(handlers, docs, arrivals, key, doc);
        if key in before {
          MergeBelow(handlers[key.typeId], before[key], doc, bound);
        }
      }
    }
  }

  lemma ContributedLater<D>(handlers: Handlers<D>, docs: Documents<D>, arrivals: seq<Arrival<D>>, key: Key, doc: D)
    requires arrivals != [] && Contributed(handlers, docs, arrivals[..|arrivals| - 1], key, doc)
    ensures Contributed(handlers, docs, arrivals, key, doc)
  {
    if !(key in docs && docs[key] == doc) {
      var i :| 0 <= i < |arrivals| - 1 && Brings(handlers, arrivals[..|arrivals| - 1][i]) == Some((key, doc));
      assert Brings(handlers, arrivals[i]) == Some((key, doc));
    }
  }

  lemma MergeBelow<D(!new)>(h: Handler<D>, a: D, b: D, bound: D)
    requires JoinType(h) && h.identity(a) == h.identity(b) == h.identity(bound)
    requires Below(h, a, bound) && Below(h, b, bound)
    ensures Below(h, h.merge(a, b).0, bound)
  {
    assert h.merge(h.merge(a, b).0, bound).0 == h.merge(a, h.merge(b, bound).0).0;
  }

  // The same documents for every key, in whatever order and however often.
  ghost predicate SameArrivals<D(!new)>(handlers: Handlers<D>, one: seq<Arrival<D>>, other: seq<Arrival<D>>) {
    forall key, doc ::
      Contributed(handlers, map[], one, key, doc) <==> Contributed(handlers, map[], other, key, doc)
  }

  lemma ContributedElsewhere<D(!new)>(handlers: Handlers<D>, docs: Documents<D>, one: seq<Arrival<D>>,
                                      other: seq<Arrival<D>>, key: Key, doc: D)
    requires SameArrivals(handlers, one, other) && Contributed(handlers, docs, one, key, doc)
    ensures Contributed(handlers, docs, other, key, doc)
  {
    if !(key in docs && docs[key] == doc) {
      assert Contributed(handlers, map[], one, key, doc);
    }
  }

  lemma {:induction false} KeysStored<D(!new)>(handlers: Handlers<D>, docs: Documents<D>, arrivals: seq<Arrival<D>>,
                                               key: Key)
    requires AllJoinTypes(handlers) && Named(handlers, docs) && AllProper(handlers, arrivals)
    requires key in ArriveAll(handlers, docs, arrivals)
    ensures exists doc :: Contributed(handlers, docs, arrivals, key, doc)
  {
    if arrivals == [] {
      assert Contributed(handlers, docs, arrivals, key, docs[key]);
    } else {
      var init, last := arrivals[..|arrivals| - 1], arrivals[|arrivals| - 1];
      ArriveAllNamed(handlers, docs, init);
      ArriveJoins(handlers, ArriveAll(handlers, docs, init), last);
      if key in ArriveAll(handlers, docs, init) {
        KeysStored(handlers, docs, init, key);
        var doc :| Contributed(handlers, docs, init, key, doc);
        ContributedLater(handlers, docs, arrivals, key, doc);
      } else {
        assert Brings(handlers, last) == Some((key, Brings(handlers, last).value.1));
        assert Contributed(handlers, docs, arrivals, key, Brings(handlers, last).value.1);
      }
    }
  }

  lemma AtLeastAsMuch<D(!new)>(handlers: Handlers<D>, docs: Documents<D>, one: seq<Arrival<D>>,
                               other: seq<Arrival<D>>, key: Key)
    requires AllJoinTypes(handlers) && Named(handlers, docs) && AllProper(handlers, one) && AllProper(handlers, other)
    requires SameArrivals(handlers, one, other) && key in ArriveAll(handlers, docs, one)
    ensures key in ArriveAll(handlers, docs, other) && key.typeId in handlers
    ensures Below(handlers[key.typeId], ArriveAll(handlers, docs, one)[key], ArriveAll(handlers, docs, other)[key])
  {
    KeysStored(handlers, docs, one, key);
    var some :| Contributed(handlers, docs, one, key, some);
    ContributedElsewhere(handlers, docs, one, other, key, some);
    HoldsAll(handlers, docs, other, key, some);
    ArriveAllNamed(handlers, docs, other);
    var bound := ArriveAll(handlers, docs, other)[key];
    forall doc | Contributed(handlers, docs, one, key, doc) ensures Below(handlers[key.typeId], doc, bound) {
      ContributedElsewhere(handlers, docs, one, other, key, doc);
      HoldsAll(handlers, docs, other, key, doc);
    }
    HoldsNoMore(handlers, docs, one, key, bound);
  }

  // The store ends up the same whatever the order and repetition of local documents and full-state
  // operations: at each key the join of what arrived for it.
  lemma OrderIrrelevant<D(!new)>(handlers: Handlers<D>, docs: Documents<D>, one: seq<Arrival<D>>,
                                 other: seq<Arrival<D>>)
    requires AllJoinTypes(handlers) && Named(handlers, docs) && AllProper(handlers, one) && AllProper(handlers, other)
    requires SameArrivals(handlers, one, other)
    ensures ArriveAll(handlers, docs, one) == ArriveAll(handlers, docs, other)
  {
    var a, b := ArriveAll(handlers, docs, one), ArriveAll(handlers, docs, other);
    forall key ensures key in a <==> key in b {
      if key in a { AtLeastAsMuch(handlers, docs, one, other, key); }
      if key in b { AtLeastAsMuch(handlers, docs, other, one, key); }
    }
    ArriveAllNamed(handlers, docs, one);
    ArriveAllNamed(handlers, docs, other);
    forall key | key in a ensures a[key] == b[key] {
      AtLeastAsMuch(handlers, docs, one, other, key);
      AtLeastAsMuch(handlers, docs, other, one, key);
      BelowBoth(handlers[key.typeId], a[key], b[key]);
    }
  }

  lemma BelowBoth<D(!new)>(h: Handler<D>, a: D, b: D)
    requires JoinType(h) && h.identity(a) == h.identity(b) && Below(h, a, b) && Below(h, b, a)
    ensures a == b
  {
    assert h.merge(a, b).0 == h.merge(b, a).0;
  }

  // ---------- Where order does matter ----------

  // A full state and another operation for the same document, in both orders. For a document not yet
  // stored they agree exactly when the operation does nothing to the full state, or, should its
  // payload itself read as a document, does what merging into that one would; for a stored document
  // exactly when applying and merging commute on it.
  lemma OvertakingExact<D(!new)>(handlers: Handlers<D>, docs: Documents<D>, f: AppOperation, d: AppOperation)
    requires f.typeId in handlers && FullStateMerges(handlers[f.typeId], f.typeId)
    requires f.opCode == FULL_STATE && handlers[f.typeId].decode(f.payload).Some?
    requires OperationKey(d) == OperationKey(f)
    ensures var h, x, key := handlers[f.typeId], handlers[f.typeId].decode(f.payload).value, OperationKey(f);
      (ArriveAll(handlers, docs, [FromMesh(f), FromMesh(d)]) == ArriveAll(handlers, docs, [FromMesh(d), FromMesh(f)])
       <==> if key in docs then h.apply(h.merge(docs[key], x).0, d).0 == h.merge(h.apply(docs[key], d).0, x).0
            else match h.decode(d.payload)
              case None => h.apply(x, d).0 == x
              case Some(g) => h.apply(x, d).0 == h.merge(g, x).0)
  {
    var h, x, key := handlers[f.typeId], handlers[f.typeId].decode(f.payload).value, OperationKey(f);
    TwoArrivals(handlers, docs, FromMesh(f), FromMesh(d));
    TwoArrivals(handlers, docs, FromMesh(d), FromMesh(f));
    var full := if key in docs then h.merge(docs[key], x).0 else x;
    assert Arrive(handlers, docs, FromMesh(f)) == docs[key := full];
    SetTwice(docs, key, full, h.apply(full, d).0);
    if key in docs {
      var other := h.apply(docs[key], d).0;
      assert Arrive(handlers, docs, FromMesh(d)) == docs[key := other];
      SetTwice(docs, key, other, h.merge(other, x).0);
      SetDiffers(docs, key, h.apply(full, d).0, h.merge(other, x).0);
    } else {
      match h.decode(d.payload)
      case None => SetDiffers(docs, key, h.apply(full, d).0, x);
      case Some(g) =>
        SetTwice(docs, key, g, h.merge(g, x).0);
        SetDiffers(docs, key, h.apply(full, d).0, h.merge(g, x).0);
    }
  }

  lemma SetTwice<D>(docs: Documents<D>, key: Key, a: D, b: D)
    ensures docs[key := a][key := b] == docs[key := b]
  {
  }

  lemma SetDiffers<D>(docs: Documents<D>, key: Key, a: D, b: D)
    ensures docs[key := a] == docs[key := b] <==> a == b
  {
    assert docs[key := a][key] == a && docs[key := b][key] == b;
  }

  lemma TwoArrivals<D>(handlers: Handlers<D>, docs: Documents<D>, a: Arrival<D>, b: Arrival<D>)
    ensures ArriveAll(handlers, docs, [a, b]) == Arrive(handlers, Arrive(handlers, docs, a), b)
  {
    assert [a, b][..1] == [a] && [a][..0] == [];
    assert ArriveAll(handlers, docs, [a]) == Arrive(handlers, ArriveAll(handlers, docs, []), a);
  }

  // ---------- Names from the mesh ----------

  // An operation packed from a document finds the place the document is stored under locally
  // exactly when its timestamp fits 48 bits.
  lemma PackedKeyMatches(typeId: u8, source: NodeId, docTimestamp: u64, ackCount: nat, payload: seq<u8>)
    ensures var op := AppOperation(typeId, FULL_STATE, source, SyncTimestamp(docTimestamp, ackCount), payload);
      OperationKey(op) == Key(typeId, source, docTimestamp) <==> docTimestamp < TWO_48
  {
    TimestampRecovered(docTimestamp, ackCount);
  }
}
