/** The durable record store (src/db/cardsDb.ts): an IndexedDB database whose object stores
    are keyed by `id`. Only the resulting map semantics are modelled; requests, transactions
    and events are not. The `sets` collection is modelled after the `cards` one. */
module CardsDb {
  import opened Types
  import opened Records

  const DbName: string := "kids-flashcards-db"
  const StoreName: string := "cards"
  const DbVersion: nat := 1

  /** An open connection to the database. */
  datatype Connection = Connection(name: string, version: nat)

  /** A write that reached the database, for stating which writes an operation issues. */
  datatype Write =
    | PutCardsCall(cards: seq<Flashcard>)
    | PutCardCall(card: Flashcard)
    | DeleteCardCall(id: string)
    | PutSetsCall(sets: seq<FlashcardSet>)
    | PutSetCall(record: FlashcardSet)

  class Database {
    /** The browser refuses to open the database (storage disabled or blocked). */
    const blocked: bool
    /** The schema version on disk; 0 while the database does not exist. */
    var version: nat
    /** Whether the `cards` object store exists. */
    var hasCardsStore: bool
    var cards: map<string, Flashcard>
    var sets: map<string, FlashcardSet>
    /** The module-level `cachedDb`. */
    var cachedDb: Option<Connection>
    /** Every write that took effect, oldest first. */
    ghost var writes: seq<Write>

    ghost predicate Valid()
      reads this
    {
      && KeyedBy(cards, CardKey)
      && KeyedBy(sets, SetKey)
      && (!hasCardsStore ==> cards == map[])
      && (version >= DbVersion ==> hasCardsStore)
      && (cachedDb.Some? ==> cachedDb == Some(Connection(DbName, DbVersion)) && version == DbVersion && hasCardsStore && !blocked)
    }

    /** Whether `openDb` succeeds from the current state: a cached connection is reused;
        otherwise the browser must allow the open and the database on disk must not be newer. */
    ghost predicate CanOpen()
      reads this
    {
      cachedDb.Some? || (!blocked && version <= DbVersion)
    }

    /** The database as the page finds it when it starts: nothing is cached yet. */
    constructor (blocked: bool, version: nat, hasCardsStore: bool,
                 cards: map<string, Flashcard>, sets: map<string, FlashcardSet>)
      requires KeyedBy(cards, CardKey) && KeyedBy(sets, SetKey)
      requires !hasCardsStore ==> cards == map[]
      requires version >= DbVersion ==> hasCardsStore
      ensures Valid()
      ensures this.blocked == blocked && this.version == version && this.hasCardsStore == hasCardsStore
      ensures this.cards == cards && this.sets == sets
      ensures cachedDb == None && writes == []
    {
      this.blocked := blocked;
      this.version := version;
      this.hasCardsStore := hasCardsStore;
      this.cards := cards;
      this.sets := sets;
      cachedDb := None;
      writes := [];
    }

    /** `openDb`: returns the cached connection when there is one; otherwise opens the
        database, creating the `cards` store only if it is absent, and caches the connection.
        No record is ever dropped. */
    method OpenDb() returns (r: Result<Connection>)
      requires Valid()
      modifies this
      ensures Valid()
      ensures r.Success? <==> old(CanOpen())
      ensures old(cachedDb).Some? ==> r == Success(old(cachedDb).value) && cachedDb == old(cachedDb)
      ensures old(cachedDb).Some? ==> version == old(version) && hasCardsStore == old(hasCardsStore)
      ensures r.Success? ==> cachedDb == Some(r.value) && r.value == Connection(DbName, DbVersion)
      ensures r.Failure? ==> r.error == StoreUnavailable && cachedDb == None
                             && version == old(version) && hasCardsStore == old(hasCardsStore)
      ensures cards == old(cards) && sets == old(sets) && writes == old(writes)
      ensures CanOpen() == old(CanOpen())
    {
      if cachedDb.Some? {
        return Success(cachedDb.value);
      }
      if blocked || version > DbVersion {
        return Failure(StoreUnavailable);
      }
      if version < DbVersion {
        // the upgrade step: create the object store only when it is missing
        if !hasCardsStore {
          hasCardsStore := true;
          cards := map[];
        }
        version := DbVersion;
      }
      cachedDb := Some(Connection(DbName, DbVersion));
      r := Success(cachedDb.value);
    }

    /** `getAllCards`: every stored card exactly once, in an order the model leaves open. */
    method GetAllCards() returns (r: Result<seq<Flashcard>>)
      requires Valid()
      modifies this
      ensures Valid()
      ensures r.Success? <==> old(CanOpen())
      ensures r.Failure? ==> r.error == StoreUnavailable
      ensures r.Success? ==> IsListing(r.value, cards, CardKey)
      ensures cards == old(cards) && sets == old(sets) && writes == old(writes)
      ensures old(cachedDb).Some? ==> cachedDb == old(cachedDb)
      ensures cachedDb.Some? <==> old(CanOpen())
      ensures CanOpen() == old(CanOpen())
    {
      var conn := OpenDb();
      if conn.Failure? {
        return Failure(conn.error);
      }
      var listed: seq<Flashcard> := [];
      var rest := cards.Keys;
      while rest != {}
        modifies {}
        invariant rest <= cards.Keys
        invariant forall i :: 0 <= i < |listed| ==> listed[i].id in cards && cards[listed[i].id] == listed[i]
        invariant forall i :: 0 <= i < |listed| ==> listed[i].id !in rest
        invariant DistinctKeys(listed, CardKey)
        invariant forall k :: k in cards && k !in rest ==> k in KeysOf(listed, CardKey)
        decreases rest
      {
        var k :| k in rest;
        KeysOfSnoc(listed, cards[k], CardKey);
        listed := listed + [cards[k]];
        rest := rest - {k};
      }
      r := Success(listed);
    }

    /** `getAllSets`, the same for the sets collection. */
    method GetAllSets() returns (r: Result<seq<FlashcardSet>>)
      requires Valid()
      modifies this
      ensures Valid()
      ensures r.Success? <==> old(CanOpen())
      ensures r.Failure? ==> r.error == StoreUnavailable
      ensures r.Success? ==> IsListing(r.value, sets, SetKey)
      ensures cards == old(cards) && sets == old(sets) && writes == old(writes)
      ensures old(cachedDb).Some? ==> cachedDb == old(cachedDb)
      ensures cachedDb.Some? <==> old(CanOpen())
      ensures CanOpen() == old(CanOpen())
    {
      var conn := OpenDb();
      if conn.Failure? {
        return Failure(conn.error);
      }
      var listed: seq<FlashcardSet> := [];
      var rest := sets.Keys;
      while rest != {}
        modifies {}
        invariant rest <= sets.Keys
        invariant forall i :: 0 <= i < |listed| ==> listed[i].id in sets && sets[listed[i].id] == listed[i]
        invariant forall i :: 0 <= i < |listed| ==> listed[i].id !in rest
        invariant DistinctKeys(listed, SetKey)
        invariant forall k :: k in sets && k !in rest ==> k in KeysOf(listed, SetKey)
        decreases rest
      {
        var k :| k in rest;
        KeysOfSnoc(listed, sets[k], SetKey);
        listed := listed + [sets[k]];
        rest := rest - {k};
      }
      r := Success(listed);
    }

    /** `putCards`: upserts every card of the batch by id, a later card replacing an earlier
        one with the same id. `rejected` stands for a failed put, which aborts the whole batch;
        an empty batch makes no request, so nothing can reject it. */
    method PutCards(batch: seq<Flashcard>, rejected: bool) returns (r: Result<()>)
      requires Valid()
      modifies this
      ensures Valid()
      ensures r.Success? <==> old(CanOpen()) && (!rejected || batch == [])
      ensures r.Failure? ==> r.error == (if old(CanOpen()) then WriteRejected else StoreUnavailable)
      ensures r.Success? ==> cards == PutAll(old(cards), batch, CardKey) && writes == old(writes) + [PutCardsCall(batch)]
      ensures r.Failure? ==> cards == old(cards) && writes == old(writes)
      ensures sets == old(sets)
      ensures old(cachedDb).Some? ==> cachedDb == old(cachedDb)
      ensures cachedDb.Some? <==> old(CanOpen())
      ensures CanOpen() == old(CanOpen())
    {
      var conn := OpenDb();
      if conn.Failure? {
        return Failure(conn.error);
      }
      if rejected && batch != [] {
        return Failure(WriteRejected);
      }
      ghost var before := cards;
      for i := 0 to |batch|
        modifies this`cards
        invariant cards == PutAll(before, batch[..i], CardKey)
        invariant KeyedBy(cards, CardKey)
      {
        assert batch[..i + 1][..i] == batch[..i];
        cards := cards[batch[i].id := batch[i]];
      }
      assert batch[..|batch|] == batch;
      writes := writes + [PutCardsCall(batch)];
      r := Success(());
    }

    /** `putCard`: upserts one card by id. */
    method PutCard(card: Flashcard, rejected: bool) returns (r: Result<()>)
      requires Valid()
      modifies this
      ensures Valid()
      ensures r.Success? <==> old(CanOpen()) && !rejected
      ensures r.Failure? ==> r.error == (if old(CanOpen()) then WriteRejected else StoreUnavailable)
      ensures r.Success? ==> cards == old(cards)[card.id := card] && writes == old(writes) + [PutCardCall(card)]
      ensures r.Failure? ==> cards == old(cards) && writes == old(writes)
      ensures sets == old(sets)
      ensures old(cachedDb).Some? ==> cachedDb == old(cachedDb)
      ensures cachedDb.Some? <==> old(CanOpen())
      ensures CanOpen() == old(CanOpen())
    {
      var conn := OpenDb();
      if conn.Failure? {
        return Failure(conn.error);
      }
      if rejected {
        return Failure(WriteRejected);
      }
      cards := cards[card.id := card];
      writes := writes + [PutCardCall(card)];
      r := Success(());
    }

    /** `deleteCard`: removes the card with that id; an id that is not stored is no error. */
    method DeleteCard(id: string, rejected: bool) returns (r: Result<()>)
      requires Valid()
      modifies this
      ensures Valid()
      ensures r.Success? <==> old(CanOpen()) && !rejected
      ensures r.Failure? ==> r.error == (if old(CanOpen()) then WriteRejected else StoreUnavailable)
      ensures r.Success? ==> cards == old(cards) - {id} && writes == old(writes) + [DeleteCardCall(id)]
      ensures r.Failure? ==> cards == old(cards) && writes == old(writes)
      ensures sets == old(sets)
      ensures old(cachedDb).Some? ==> cachedDb == old(cachedDb)
      ensures cachedDb.Some? <==> old(CanOpen())
      ensures CanOpen() == old(CanOpen())
    {
      var conn := OpenDb();
      if conn.Failure? {
        return Failure(conn.error);
      }
      if rejected {
        return Failure(WriteRejected);
      }
      cards := cards - {id};
      writes := writes + [DeleteCardCall(id)];
      r := Success(());
    }

    /** `putSets`, by analogy with `putCards`. */
    method PutSets(batch: seq<FlashcardSet>, rejected: bool) returns (r: Result<()>)
      requires Valid()
      modifies this
      ensures Valid()
      ensures r.Success? <==> old(CanOpen()) && (!rejected || batch == [])
      ensures r.Failure? ==> r.error == (if old(CanOpen()) then WriteRejected else StoreUnavailable)
      ensures r.Success? ==> sets == PutAll(old(sets), batch, SetKey) && writes == old(writes) + [PutSetsCall(batch)]
      ensures r.Failure? ==> sets == old(sets) && writes == old(writes)
      ensures cards == old(cards)
      ensures old(cachedDb).Some? ==> cachedDb == old(cachedDb)
      ensures cachedDb.Some? <==> old(CanOpen())
      ensures CanOpen() == old(CanOpen())
    {
      var conn := OpenDb();
      if conn.Failure? {
        return Failure(conn.error);
      }
      if rejected && batch != [] {
        return Failure(WriteRejected);
      }
      ghost var before := sets;
      for i := 0 to |batch|
        modifies this`sets
        invariant sets == PutAll(before, batch[..i], SetKey)
        invariant KeyedBy(sets, SetKey)
      {
        assert batch[..i + 1][..i] == batch[..i];
        sets := sets[batch[i].id := batch[i]];
      }
      assert batch[..|batch|] == batch;
      writes := writes + [PutSetsCall(batch)];
      r := Success(());
    }

    /** `putSet`, by analogy with `putCard`. */
    method PutSet(record: FlashcardSet, rejected: bool) returns (r: Result<()>)
      requires Valid()
      modifies this
      ensures Valid()
      ensures r.Success? <==> old(CanOpen()) && !rejected
      ensures r.Failure? ==> r.error == (if old(CanOpen()) then WriteRejected else StoreUnavailable)
      ensures r.Success? ==> sets == old(sets)[record.id := record] && writes == old(writes) + [PutSetCall(record)]
      ensures r.Failure? ==> sets == old(sets) && writes == old(writes)
      ensures cards == old(cards)
      ensures old(cachedDb).Some? ==> cachedDb == old(cachedDb)
      ensures cachedDb.Some? <==> old(CanOpen())
      ensures CanOpen() == old(CanOpen())
    {
      var conn := OpenDb();
      if conn.Failure? {
        return Failure(conn.error);
      }
      if rejected {
        return Failure(WriteRejected);
      }
      sets := sets[record.id := record];
      writes := writes + [PutSetCall(record)];
      r := Success(());
    }
  }
}
