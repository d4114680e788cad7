/** Load-time reconciliation of the stored cards and sets with the bundled defaults
    (src/flashcards/storage.ts). The pure steps are functions; `LoadCardsAndSets` is the
    method that reads the store, writes the missing defaults back and builds the snapshot. */
module Storage {
  import opened Types
  import opened Records
  import opened DefaultData
  import opened CardsDb

  /** What a load hands to the page. */
  datatype LoadResult = LoadResult(cards: seq<Flashcard>, sets: seq<FlashcardSet>, visibleSetIds: seq<string>)

  /** `normalizeCards`: an absent `setIds` becomes `[]`; nothing else changes. */
  function NormalizeCards(cards: seq<Flashcard>): (r: seq<Flashcard>)
    ensures |r| == |cards|
    ensures forall i :: 0 <= i < |r| ==> r[i].setIds.Some?
    ensures forall i :: 0 <= i < |r| ==> cards[i].setIds.Some? ==> r[i].setIds == cards[i].setIds
    ensures forall i :: 0 <= i < |r| ==> cards[i].setIds.None? ==> r[i].setIds == Some([])
    ensures forall i :: 0 <= i < |r| ==> r[i].(setIds := cards[i].setIds) == cards[i]
  {
    if cards == [] then []
    else [cards[0].(setIds := Some(cards[0].setIds.GetOr([])))] + NormalizeCards(cards[1..])
  }

  /** `hasUncategorized`: some card has an absent or empty `setIds`. */
  function HasUncategorized(cards: seq<Flashcard>): (b: bool)
    ensures b <==> exists i :: 0 <= i < |cards| && IsUncategorized(cards[i])
  {
    if cards == [] then false
    else
      assert forall i :: 1 <= i < |cards| ==> cards[i] == cards[1..][i - 1];
      IsUncategorized(cards[0]) || HasUncategorized(cards[1..])
  }

  /** Normalizing does not change which cards count as uncategorized. */
  lemma NormalizeKeepsUncategorized(cards: seq<Flashcard>)
    ensures HasUncategorized(NormalizeCards(cards)) == HasUncategorized(cards)
  {
    var r := NormalizeCards(cards);
    if HasUncategorized(cards) {
      var i :| 0 <= i < |cards| && IsUncategorized(cards[i]);
      assert IsUncategorized(r[i]);
    }
    if HasUncategorized(r) {
      var i :| 0 <= i < |r| && IsUncategorized(r[i]);
      assert IsUncategorized(cards[i]);
    }
  }

  /** The sets the load writes: all defaults into an empty collection, else the missing ones. */
  function SetsToWrite(stored: seq<FlashcardSet>): (w: seq<FlashcardSet>)
    ensures w == [] <==> stored != [] && KeysOf(DefaultSets, SetKey) <= KeysOf(stored, SetKey)
    ensures forall i :: 0 <= i < |w| ==> w[i] in DefaultSets && SetKey(w[i]) !in KeysOf(stored, SetKey)
    ensures forall j :: 0 <= j < |DefaultSets| && SetKey(DefaultSets[j]) !in KeysOf(stored, SetKey) ==>
      DefaultSets[j] in w
  {
    MissingEmptyIffAllStored(stored, DefaultSets, SetKey);
    MissingFromNothing(DefaultSets, SetKey);
    if stored == [] then DefaultSets else MissingByKey(stored, DefaultSets, SetKey)
  }

  /** The sets the load returns: the stored sets, in their order, then the missing defaults. */
  function ReconciledSets(stored: seq<FlashcardSet>): (r: seq<FlashcardSet>)
    ensures |r| >= |stored| && r[..|stored|] == stored
    ensures r[|stored|..] == MissingByKey(stored, DefaultSets, SetKey)
  {
    TopUp(stored, DefaultSets, SetKey)
  }

  /** The cards the load writes: all defaults into an empty collection; otherwise, when
      some default is missing, the stored cards followed by the missing ones; else nothing. */
  function CardsToWrite(stored: seq<Flashcard>, seed: int): (w: seq<Flashcard>)
    ensures w == [] <==> stored != [] && KeysOf(DefaultCards(seed), CardKey) <= KeysOf(stored, CardKey)
    ensures w != [] ==> w == TopUp(stored, DefaultCards(seed), CardKey)
  {
    MissingEmptyIffAllStored(stored, DefaultCards(seed), CardKey);
    MissingFromNothing(DefaultCards(seed), CardKey);
    if stored == [] then DefaultCards(seed)
    else
      var missing := MissingByKey(stored, DefaultCards(seed), CardKey);
      if missing == [] then [] else stored + missing
  }

  /** The cards the load returns before normalization: the stored cards, in their order,
      then the missing defaults. */
  function ReconciledCards(stored: seq<Flashcard>, seed: int): (r: seq<Flashcard>)
    ensures |r| >= |stored| && r[..|stored|] == stored
    ensures r[|stored|..] == MissingByKey(stored, DefaultCards(seed), CardKey)
  {
    TopUp(stored, DefaultCards(seed), CardKey)
  }

  /** The visible-set selection a load starts with: every set id, in order, then the
      synthetic uncategorized id when some card has no set. */
  function InitialVisibleSetIds(sets: seq<FlashcardSet>, cards: seq<Flashcard>): (ids: seq<string>)
    ensures |ids| == |sets| + (if HasUncategorized(cards) then 1 else 0)
    ensures ids[..|sets|] == SetIdList(sets)
    ensures HasUncategorized(cards) ==> ids[|sets|] == UncategorizedId
  {
    SetIdList(sets) + (if HasUncategorized(cards) then [UncategorizedId] else [])
  }

  /** The snapshot a successful load returns for the given stored records. */
  function Reconcile(storedCards: seq<Flashcard>, storedSets: seq<FlashcardSet>, seed: int): (r: LoadResult)
    ensures r.sets == ReconciledSets(storedSets)
    ensures |r.cards| == |ReconciledCards(storedCards, seed)|
    ensures forall i :: 0 <= i < |r.cards| ==> r.cards[i].setIds.Some?
    ensures |r.visibleSetIds| == |r.sets| + (if HasUncategorized(r.cards) then 1 else 0)
    ensures r.visibleSetIds[..|r.sets|] == SetIdList(r.sets)
  {
    var sets := ReconciledSets(storedSets);
    var cards := NormalizeCards(ReconciledCards(storedCards, seed));
    LoadResult(cards, sets, InitialVisibleSetIds(sets, cards))
  }

  /** A write the load attempts and the store rejects; no write means nothing to reject. */
  predicate SetsWriteFails(storedSets: seq<FlashcardSet>, rejected: bool) {
    rejected && SetsToWrite(storedSets) != []
  }

  predicate CardsWriteFails(storedCards: seq<Flashcard>, seed: int, rejected: bool) {
    rejected && CardsToWrite(storedCards, seed) != []
  }

  /** What an opened store makes of the load: the first rejected write fails it. */
  function LoadOutcome(storedCards: seq<Flashcard>, storedSets: seq<FlashcardSet>, seed: int,
                       rejectSetsWrite: bool, rejectCardsWrite: bool): (r: Result<LoadResult>)
    ensures r.Failure? <==> (rejectSetsWrite && SetsToWrite(storedSets) != [])
                            || (rejectCardsWrite && CardsToWrite(storedCards, seed) != [])
    ensures r.Failure? ==> r.error == WriteRejected
    ensures r.Success? ==> r.value == Reconcile(storedCards, storedSets, seed)
  {
    if SetsWriteFails(storedSets, rejectSetsWrite) || CardsWriteFails(storedCards, seed, rejectCardsWrite)
    then Failure(WriteRejected)
    else Success(Reconcile(storedCards, storedSets, seed))
  }

  /** The sets write a load issues on an open store: none when there is nothing to write,
      and none that takes effect when the store rejects it. */
  function SetsWriteCalls(storedSets: seq<FlashcardSet>, rejected: bool): seq<Write> {
    if SetsWriteFails(storedSets, rejected) || SetsToWrite(storedSets) == [] then []
    else [PutSetsCall(SetsToWrite(storedSets))]
  }

  function CardsWriteCalls(storedCards: seq<Flashcard>, seed: int, rejected: bool): seq<Write> {
    if CardsWriteFails(storedCards, seed, rejected) || CardsToWrite(storedCards, seed) == [] then []
    else [PutCardsCall(CardsToWrite(storedCards, seed))]
  }

  /** The writes a whole load issues: nothing is written after a rejected write. */
  function LoadWrites(storedCards: seq<Flashcard>, storedSets: seq<FlashcardSet>, seed: int,
                      rejectSetsWrite: bool, rejectCardsWrite: bool): (w: seq<Write>)
    ensures |w| <= 2
    ensures PutSetsCall(SetsToWrite(storedSets)) in w <==> SetsToWrite(storedSets) != [] && !rejectSetsWrite
    ensures PutCardsCall(CardsToWrite(storedCards, seed)) in w <==>
      CardsToWrite(storedCards, seed) != [] && !rejectCardsWrite && !SetsWriteFails(storedSets, rejectSetsWrite)
    ensures |w| == 2 ==> w[0].PutSetsCall? && w[1].PutCardsCall?
  {
    if SetsWriteFails(storedSets, rejectSetsWrite) then []
    else SetsWriteCalls(storedSets, rejectSetsWrite) + CardsWriteCalls(storedCards, seed, rejectCardsWrite)
  }

  /** Lines 22-32 of `loadCardsAndSets`, on an open store: seed an empty sets collection
      with the defaults, else write back the missing defaults, if any. */
  method TopUpSets(db: Database, storedSets: seq<FlashcardSet>, rejected: bool) returns (r: Result<seq<FlashcardSet>>)
    requires db.Valid() && db.cachedDb.Some?
    modifies db
    ensures db.Valid() && db.cachedDb == old(db.cachedDb)
    ensures r == if SetsWriteFails(storedSets, rejected) then Failure(WriteRejected) else Success(ReconciledSets(storedSets))
    ensures db.sets == if SetsWriteFails(storedSets, rejected) then old(db.sets)
                       else PutAll(old(db.sets), SetsToWrite(storedSets), SetKey)
    ensures db.cards == old(db.cards)
    ensures db.writes == old(db.writes) + SetsWriteCalls(storedSets, rejected)
  {
    var setsToUse := storedSets;
    if |setsToUse| == 0 {
      var written := db.PutSets(DefaultSets, rejected);
      if written.Failure? {
        return Failure(written.error);
      }
      setsToUse := DefaultSets;
    } else {
      var missingDefaults := MissingByKey(setsToUse, DefaultSets, SetKey);
      if |missingDefaults| > 0 {
        var written := db.PutSets(missingDefaults, rejected);
        if written.Failure? {
          return Failure(written.error);
        }
        setsToUse := setsToUse + missingDefaults;
      } else {
        assert setsToUse == ReconciledSets(storedSets);
      }
    }
    r := Success(setsToUse);
  }

  /** Lines 34-46 of `loadCardsAndSets`, on an open store: seed an empty cards collection
      with the defaults, else, when some default is missing, write the stored cards and the
      missing ones back. */
  method TopUpCards(db: Database, storedCards: seq<Flashcard>, seed: int, rejected: bool) returns (r: Result<seq<Flashcard>>)
    requires db.Valid() && db.cachedDb.Some?
    modifies db
    ensures db.Valid() && db.cachedDb == old(db.cachedDb)
    ensures r == if CardsWriteFails(storedCards, seed, rejected) then Failure(WriteRejected)
                 else Success(ReconciledCards(storedCards, seed))
    ensures db.cards == if CardsWriteFails(storedCards, seed, rejected) then old(db.cards)
                        else PutAll(old(db.cards), CardsToWrite(storedCards, seed), CardKey)
    ensures db.sets == old(db.sets)
    ensures db.writes == old(db.writes) + CardsWriteCalls(storedCards, seed, rejected)
  {
    var cardsToUse := storedCards;
    if |cardsToUse| == 0 {
      var written := db.PutCards(DefaultCards(seed), rejected);
      if written.Failure? {
        return Failure(written.error);
      }
      cardsToUse := DefaultCards(seed);
    } else {
      var missingDefault := MissingByKey(cardsToUse, DefaultCards(seed), CardKey);
      if |missingDefault| > 0 {
        var updated := cardsToUse + missingDefault;
        var written := db.PutCards(updated, rejected);
        if written.Failure? {
          return Failure(written.error);
        }
        cardsToUse := updated;
      } else {
        assert cardsToUse == ReconciledCards(storedCards, seed);
      }
    }
    r := Success(cardsToUse);
  }

  /** Line 20 of `loadCardsAndSets`: reads the cards, then the sets; the pair fails when
      the store cannot be opened. The source starts both reads at once, so on a first load
      each opens its own connection; here they run one after the other and share one. */
  method ReadBoth(db: Database) returns (r: Result<(seq<Flashcard>, seq<FlashcardSet>)>)
    requires db.Valid()
    modifies db
    ensures db.Valid()
    ensures db.CanOpen() == old(db.CanOpen())
    ensures r.Success? <==> old(db.CanOpen())
    ensures r.Failure? ==> r.error == StoreUnavailable
    ensures r.Success? ==> db.cachedDb.Some? && IsListing(r.value.0, db.cards, CardKey) && IsListing(r.value.1, db.sets, SetKey)
    ensures db.cards == old(db.cards) && db.sets == old(db.sets) && db.writes == old(db.writes)
  {
    var cardsRead := db.GetAllCards();
    var setsRead := db.GetAllSets();
    if cardsRead.Failure? || setsRead.Failure? {
      return Failure(StoreUnavailable);
    }
    r := Success((cardsRead.value, setsRead.value));
  }

  /** Regrouping a concatenation: the solver proves it by extensionality, which is costly
      inside a large method, so the methods that need it call this lemma. */
  lemma AppendAssoc<T>(a: seq<T>, b: seq<T>, c: seq<T>)
    ensures a + b + c == a + (b + c)
  {
  }

  /** Lines 22-55 of `loadCardsAndSets`, once both collections have been read from an open
      store: top up the sets, then the cards, then build the result. */
  method ReconcileStore(db: Database, storedCards: seq<Flashcard>, storedSets: seq<FlashcardSet>, seed: int,
                        rejectSetsWrite: bool, rejectCardsWrite: bool) returns (r: Result<LoadResult>)
    requires db.Valid() && db.cachedDb.Some?
    modifies db
    ensures db.Valid() && db.cachedDb == old(db.cachedDb)
    ensures r == LoadOutcome(storedCards, storedSets, seed, rejectSetsWrite, rejectCardsWrite)
    ensures db.sets == if SetsWriteFails(storedSets, rejectSetsWrite) then old(db.sets)
                       else PutAll(old(db.sets), SetsToWrite(storedSets), SetKey)
    ensures db.cards == if SetsWriteFails(storedSets, rejectSetsWrite) || CardsWriteFails(storedCards, seed, rejectCardsWrite)
                        then old(db.cards)
                        else PutAll(old(db.cards), CardsToWrite(storedCards, seed), CardKey)
    ensures db.writes == old(db.writes) + LoadWrites(storedCards, storedSets, seed, rejectSetsWrite, rejectCardsWrite)
  {
    ghost var setsCalls := SetsWriteCalls(storedSets, rejectSetsWrite);
    ghost var cardsCalls := CardsWriteCalls(storedCards, seed, rejectCardsWrite);
    var setsToUse := TopUpSets(db, storedSets, rejectSetsWrite);
    if setsToUse.Failure? {
      assert setsCalls == [] == LoadWrites(storedCards, storedSets, seed, rejectSetsWrite, rejectCardsWrite);
      return Failure(setsToUse.error);
    }
    assert LoadWrites(storedCards, storedSets, seed, rejectSetsWrite, rejectCardsWrite) == setsCalls + cardsCalls;
    var cardsToUse := TopUpCards(db, storedCards, seed, rejectCardsWrite);
    AppendAssoc(old(db.writes), setsCalls, cardsCalls);
    if cardsToUse.Failure? {
      return Failure(cardsToUse.error);
    }
    var normalizedCards := NormalizeCards(cardsToUse.value);
    var uncategorized := HasUncategorized(normalizedCards);
    r := Success(LoadResult(normalizedCards, setsToUse.value,
                            SetIdList(setsToUse.value) + (if uncategorized then [UncategorizedId] else [])));
  }

  /** `loadCardsAndSets`. `seed` is the load-time timestamp of the default dataset;
      `rejectSetsWrite` and `rejectCardsWrite` say whether the store rejects the batch
      write of that collection, should the load issue one. The stored records are returned
      as ghost results, in the order the store listed them. */
  method LoadCardsAndSets(db: Database, seed: int, rejectSetsWrite: bool, rejectCardsWrite: bool)
    returns (r: Result<LoadResult>, ghost storedCards: seq<Flashcard>, ghost storedSets: seq<FlashcardSet>)
    requires db.Valid()
    modifies db
    ensures db.Valid()
    ensures db.CanOpen() == old(db.CanOpen())
    ensures !old(db.CanOpen()) ==>
      r == Failure(StoreUnavailable) && db.cards == old(db.cards) && db.sets == old(db.sets) && db.writes == old(db.writes)
    ensures old(db.CanOpen()) ==> IsListing(storedCards, old(db.cards), CardKey) && IsListing(storedSets, old(db.sets), SetKey)
    ensures old(db.CanOpen()) ==> r == LoadOutcome(storedCards, storedSets, seed, rejectSetsWrite, rejectCardsWrite)
    ensures old(db.CanOpen()) ==>
      db.sets == if SetsWriteFails(storedSets, rejectSetsWrite) then old(db.sets)
                 else PutAll(old(db.sets), SetsToWrite(storedSets), SetKey)
    ensures old(db.CanOpen()) ==>
      db.cards == if SetsWriteFails(storedSets, rejectSetsWrite) || CardsWriteFails(storedCards, seed, rejectCardsWrite)
                  then old(db.cards)
                  else PutAll(old(db.cards), CardsToWrite(storedCards, seed), CardKey)
    ensures old(db.CanOpen()) ==>
      db.writes == old(db.writes) + LoadWrites(storedCards, storedSets, seed, rejectSetsWrite, rejectCardsWrite)
  {
    var read := ReadBoth(db);
    if read.Failure? {
      return Failure(read.error), [], [];
    }
    storedCards, storedSets := read.value.0, read.value.1;
    r := ReconcileStore(db, read.value.0, read.value.1, seed, rejectSetsWrite, rejectCardsWrite);
  }
}
