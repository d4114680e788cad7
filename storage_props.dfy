/** Properties of the load-time reconciliation (src/flashcards/storage.ts): what an empty
    store becomes, that stored records survive, that every default ends up stored, that a
    second load writes nothing, and that a deleted default comes back. */
module StorageProps {
  import opened Types
  import opened Records
  import opened DefaultData
  import opened CardsDb
  import opened Storage

  /** Normalizing is idempotent: a card list with every `setIds` present is left alone. */
  lemma NormalizeIdempotent(cards: seq<Flashcard>)
    ensures NormalizeCards(NormalizeCards(cards)) == NormalizeCards(cards)
  {
    var once := NormalizeCards(cards);
    var twice := NormalizeCards(once);
    forall i | 0 <= i < |once| ensures twice[i] == once[i] {
      assert twice[i].(setIds := once[i].setIds) == once[i];
    }
  }

  /** The default cards already have their `setIds`, so normalizing leaves them alone. */
  lemma NormalizeDefaults(seed: int)
    ensures NormalizeCards(DefaultCards(seed)) == DefaultCards(seed)
    ensures !HasUncategorized(DefaultCards(seed))
  {
    var d := DefaultCards(seed);
    DefaultCardsInOneDefaultSet(seed);
    var r := NormalizeCards(d);
    forall i | 0 <= i < |d| ensures r[i] == d[i] {
      assert r[i].(setIds := d[i].setIds) == d[i];
    }
  }

  /** From an empty store, the load writes exactly the default sets, then exactly the default
      cards. */
  lemma LoadFromEmptyStoreWrites(seed: int)
    ensures SetsToWrite([]) == DefaultSets
    ensures CardsToWrite([], seed) == DefaultCards(seed)
    ensures LoadWrites([], [], seed, false, false) == [PutSetsCall(DefaultSets), PutCardsCall(DefaultCards(seed))]
  {
    assert !SetsWriteFails([], false) && !CardsWriteFails([], seed, false);
  }

  /** Round trip from an empty store: the load returns exactly the default cards and sets,
      with every default set visible and no uncategorized entry. */
  lemma LoadFromEmptyStore(seed: int)
    ensures LoadOutcome([], [], seed, false, false)
         == Success(LoadResult(DefaultCards(seed), DefaultSets, ["numbers", "shapes", "colors"]))
  {
    DefaultSetIds();
    NormalizeDefaults(seed);
    var d := DefaultCards(seed);
    assert ReconciledSets([]) == DefaultSets;
    assert ReconciledCards([], seed) == d;
    var visible := InitialVisibleSetIds(DefaultSets, d);
    assert visible == ["numbers", "shapes", "colors"];
    assert Reconcile([], [], seed) == LoadResult(d, DefaultSets, visible);
    assert !SetsWriteFails([], false) && !CardsWriteFails([], seed, false);
  }

  /** A store the cards write leaves, given that `stored` listed the cards before. */
  function CardsAfterLoad(m: map<string, Flashcard>, stored: seq<Flashcard>, seed: int): map<string, Flashcard> {
    PutAll(m, CardsToWrite(stored, seed), CardKey)
  }

  function SetsAfterLoad(m: map<string, FlashcardSet>, stored: seq<FlashcardSet>): map<string, FlashcardSet> {
    PutAll(m, SetsToWrite(stored), SetKey)
  }

  /** The records the cards write puts are the top-up itself, with distinct ids. */
  lemma CardsWriteIsTopUp(stored: seq<Flashcard>, m: map<string, Flashcard>, seed: int)
    requires IsListing(stored, m, CardKey)
    ensures CardsToWrite(stored, seed) == [] || CardsToWrite(stored, seed) == ReconciledCards(stored, seed)
    ensures DistinctKeys(CardsToWrite(stored, seed), CardKey)
  {
    var d := DefaultCards(seed);
    DefaultCardIdsDistinct(seed);
    TopUpDistinct(stored, d, CardKey);
    if stored != [] {
      var missing := MissingByKey(stored, d, CardKey);
      assert ReconciledCards(stored, seed) == stored + missing;
    }
  }

  /** Non-destructive, for cards in the store: every card stored before the load keeps its
      value, even when its id collides with a default's. */
  lemma LoadKeepsStoredCards(stored: seq<Flashcard>, m: map<string, Flashcard>, seed: int)
    requires IsListing(stored, m, CardKey)
    ensures forall k :: k in m ==> k in CardsAfterLoad(m, stored, seed) && CardsAfterLoad(m, stored, seed)[k] == m[k]
  {
    var w := CardsToWrite(stored, seed);
    CardsWriteIsTopUp(stored, m, seed);
    forall k | k in m ensures CardsAfterLoad(m, stored, seed)[k] == m[k] {
      if w == [] {
        PutAllEmpty(m, CardKey);
      } else {
        assert k in KeysOf(stored, CardKey);
        var i :| 0 <= i < |stored| && CardKey(stored[i]) == k;
        assert w[i] == ReconciledCards(stored, seed)[..|stored|][i];
        PutAllDistinct(m, w, CardKey, i);
      }
    }
  }

  /** Non-destructive, for the returned cards: the stored cards lead the list, in their
      stored order, changed only by normalization. */
  lemma LoadReturnsStoredCards(stored: seq<Flashcard>, storedSets: seq<FlashcardSet>, seed: int)
    ensures forall i :: 0 <= i < |stored| ==>
      Reconcile(stored, storedSets, seed).cards[i] == stored[i].(setIds := Some(stored[i].setIds.GetOr([])))
  {
    var cards := ReconciledCards(stored, seed);
    forall i | 0 <= i < |stored| ensures cards[i] == stored[i] {
      assert cards[i] == cards[..|stored|][i];
    }
  }

  /** Non-destructive, for sets: every set stored before the load keeps its value, and the
      returned sets start with the stored ones, in their stored order. */
  lemma LoadKeepsStoredSets(stored: seq<FlashcardSet>, m: map<string, FlashcardSet>, storedCards: seq<Flashcard>, seed: int)
    requires IsListing(stored, m, SetKey)
    ensures forall k :: k in m ==> k in SetsAfterLoad(m, stored) && SetsAfterLoad(m, stored)[k] == m[k]
    ensures Reconcile(storedCards, stored, seed).sets[..|stored|] == stored
  {
    ListingKeys(stored, m, SetKey);
    if stored != [] {
      assert SetsToWrite(stored) == MissingByKey(stored, DefaultSets, SetKey);
    }
  }

  /** After a load that went through, every default card and every default set is stored. */
  lemma LoadStoresEveryDefault(storedCards: seq<Flashcard>, mc: map<string, Flashcard>,
                               storedSets: seq<FlashcardSet>, ms: map<string, FlashcardSet>, seed: int)
    requires IsListing(storedCards, mc, CardKey) && IsListing(storedSets, ms, SetKey)
    ensures KeysOf(DefaultCards(seed), CardKey) <= CardsAfterLoad(mc, storedCards, seed).Keys
    ensures KeysOf(DefaultSets, SetKey) <= SetsAfterLoad(ms, storedSets).Keys
  {
    LoadStoresEveryDefaultCard(storedCards, mc, seed);
    LoadStoresEveryDefaultSet(storedSets, ms);
  }

  lemma LoadStoresEveryDefaultCard(storedCards: seq<Flashcard>, mc: map<string, Flashcard>, seed: int)
    requires IsListing(storedCards, mc, CardKey)
    ensures KeysOf(DefaultCards(seed), CardKey) <= CardsAfterLoad(mc, storedCards, seed).Keys
  {
    ListingKeys(storedCards, mc, CardKey);
    CardsWriteIsTopUp(storedCards, mc, seed);
    if CardsToWrite(storedCards, seed) == [] {
      MissingEmptyIffAllStored(storedCards, DefaultCards(seed), CardKey);
    }
  }

  lemma LoadStoresEveryDefaultSet(storedSets: seq<FlashcardSet>, ms: map<string, FlashcardSet>)
    requires IsListing(storedSets, ms, SetKey)
    ensures KeysOf(DefaultSets, SetKey) <= SetsAfterLoad(ms, storedSets).Keys
  {
    ListingKeys(storedSets, ms, SetKey);
    var missingSets := MissingByKey(storedSets, DefaultSets, SetKey);
    if storedSets != [] {
      var t := TopUp(storedSets, DefaultSets, SetKey);
      assert t == storedSets + missingSets;
      forall k | k in KeysOf(t, SetKey) ensures k in KeysOf(storedSets, SetKey) + KeysOf(missingSets, SetKey) {
        var i :| 0 <= i < |t| && SetKey(t[i]) == k;
        if i < |storedSets| {
          assert t[i] == storedSets[i];
        } else {
          assert t[i] == missingSets[i - |storedSets|];
        }
      }
    }
  }

  /** The default card ids do not depend on the load time. */
  lemma DefaultCardKeys(seed1: int, seed2: int)
    ensures KeysOf(DefaultCards(seed1), CardKey) == KeysOf(DefaultCards(seed2), CardKey)
  {
    DefaultCardsSeedIndependent(seed1, seed2);
    forall k | k in KeysOf(DefaultCards(seed1), CardKey) ensures k in KeysOf(DefaultCards(seed2), CardKey) {
      var i :| 0 <= i < 31 && CardKey(DefaultCards(seed1)[i]) == k;
      assert CardKey(DefaultCards(seed2)[i]) == k;
    }
    forall k | k in KeysOf(DefaultCards(seed2), CardKey) ensures k in KeysOf(DefaultCards(seed1), CardKey) {
      var i :| 0 <= i < 31 && CardKey(DefaultCards(seed2)[i]) == k;
      assert CardKey(DefaultCards(seed1)[i]) == k;
    }
  }

  /** A listing of a store that holds every default card id gives the load no cards to write. */
  lemma NoCardsToWrite(next: seq<Flashcard>, m: map<string, Flashcard>, seed: int)
    requires IsListing(next, m, CardKey)
    requires KeysOf(DefaultCards(seed), CardKey) <= m.Keys
    ensures CardsToWrite(next, seed) == []
  {
    ListingKeys(next, m, CardKey);
    MissingEmptyIffAllStored(next, DefaultCards(seed), CardKey);
    assert CardKey(DefaultCards(seed)[0]) in KeysOf(next, CardKey);
  }

  /** A listing of a store that holds every default set id gives the load no sets to write. */
  lemma NoSetsToWrite(next: seq<FlashcardSet>, m: map<string, FlashcardSet>)
    requires IsListing(next, m, SetKey)
    requires KeysOf(DefaultSets, SetKey) <= m.Keys
    ensures SetsToWrite(next) == []
  {
    ListingKeys(next, m, SetKey);
    MissingEmptyIffAllStored(next, DefaultSets, SetKey);
    assert SetKey(DefaultSets[0]) in KeysOf(next, SetKey);
  }

  /** The sets a load returns list the sets store it leaves: each is stored as returned,
      once, and every stored set is returned. */
  lemma ReturnedSetsListStore(storedSets: seq<FlashcardSet>, ms: map<string, FlashcardSet>)
    requires IsListing(storedSets, ms, SetKey)
    ensures IsListing(ReconciledSets(storedSets), SetsAfterLoad(ms, storedSets), SetKey)
  {
    DefaultSetIds();
    MissingFromNothing(DefaultSets, SetKey);
    assert SetsToWrite(storedSets) == MissingByKey(storedSets, DefaultSets, SetKey);
    TopUpListsPut(storedSets, ms, DefaultSets, SetKey);
  }

  /** The cards a load returns, before normalization, list the cards store it leaves. */
  lemma ReturnedCardsListStore(storedCards: seq<Flashcard>, mc: map<string, Flashcard>, seed: int)
    requires IsListing(storedCards, mc, CardKey)
    ensures IsListing(ReconciledCards(storedCards, seed), CardsAfterLoad(mc, storedCards, seed), CardKey)
  {
    DefaultCardIdsDistinct(seed);
    CardsWriteIsTopUp(storedCards, mc, seed);
    if CardsToWrite(storedCards, seed) == [] {
      MissingEmptyIffAllStored(storedCards, DefaultCards(seed), CardKey);
      TopUpNothingMissing(storedCards, mc, DefaultCards(seed), CardKey);
    } else {
      TopUpListsItselfPut(storedCards, mc, DefaultCards(seed), CardKey);
    }
  }

  /** Normalizing a card depends on the card alone, not on where it sits in the list. */
  lemma NormalizeSameCard(a: seq<Flashcard>, i: nat, b: seq<Flashcard>, j: nat)
    requires i < |a| && j < |b| && a[i] == b[j]
    ensures NormalizeCards(a)[i] == NormalizeCards(b)[j]
  {
    var na, nb := NormalizeCards(a), NormalizeCards(b);
    assert na[i].(setIds := a[i].setIds) == a[i];
    assert nb[j].(setIds := b[j].setIds) == b[j];
  }

  /** Normalizing keeps ids, so cards with distinct ids stay distinct. */
  lemma NormalizeDistinct(a: seq<Flashcard>)
    requires DistinctKeys(a, CardKey)
    ensures Distinct(NormalizeCards(a))
  {
    var na := NormalizeCards(a);
    forall i, j | 0 <= i < j < |na| ensures na[i].id != na[j].id {
      assert na[i].(setIds := a[i].setIds) == a[i];
      assert na[j].(setIds := a[j].setIds) == a[j];
    }
    DistinctKeysDistinct(na, CardKey);
  }

  /** Normalizing commutes with reordering a card list whose ids are distinct. */
  lemma NormalizePermutes(a: seq<Flashcard>, b: seq<Flashcard>)
    requires DistinctKeys(a, CardKey) && DistinctKeys(b, CardKey)
    requires multiset(a) == multiset(b)
    ensures multiset(NormalizeCards(a)) == multiset(NormalizeCards(b))
  {
    var na, nb := NormalizeCards(a), NormalizeCards(b);
    forall i, j | 0 <= i < |a| && 0 <= j < |b| && a[i] == b[j] ensures na[i] == nb[j] {
      NormalizeSameCard(a, i, b, j);
    }
    NormalizeDistinct(a);
    NormalizeDistinct(b);
    ImagesPermute(a, b, na, nb);
  }

  /** Reordering sets with distinct ids reorders their ids. */
  lemma SetIdsPermute(a: seq<FlashcardSet>, b: seq<FlashcardSet>)
    requires DistinctKeys(a, SetKey) && DistinctKeys(b, SetKey)
    requires multiset(a) == multiset(b)
    ensures multiset(SetIdList(a)) == multiset(SetIdList(b))
  {
    var ia, ib := SetIdList(a), SetIdList(b);
    assert Distinct(ia) && Distinct(ib);
    ImagesPermute(a, b, ia, ib);
  }

  /** Whether some card is uncategorized does not depend on the cards' order. */
  lemma UncategorizedPermutes(a: seq<Flashcard>, b: seq<Flashcard>)
    requires multiset(a) == multiset(b)
    ensures HasUncategorized(a) == HasUncategorized(b)
  {
    if HasUncategorized(a) {
      var i :| 0 <= i < |a| && IsUncategorized(a[i]);
      assert a[i] in multiset(b);
      var j :| 0 <= j < |b| && b[j] == a[i];
    }
    if HasUncategorized(b) {
      var j :| 0 <= j < |b| && IsUncategorized(b[j]);
      assert b[j] in multiset(a);
      var i :| 0 <= i < |a| && a[i] == b[j];
    }
  }

  /** The initial selection of reordered sets and cards is the reordered selection. */
  lemma VisibleIdsPermute(s1: seq<FlashcardSet>, c1: seq<Flashcard>, s2: seq<FlashcardSet>, c2: seq<Flashcard>)
    requires DistinctKeys(s1, SetKey) && DistinctKeys(s2, SetKey)
    requires multiset(s1) == multiset(s2) && multiset(c1) == multiset(c2)
    ensures multiset(InitialVisibleSetIds(s1, c1)) == multiset(InitialVisibleSetIds(s2, c2))
  {
    SetIdsPermute(s1, s2);
    UncategorizedPermutes(c1, c2);
  }

  /** A reload of the sets a load left returns them unchanged, in the order the store lists them. */
  lemma ReloadSets(storedSets: seq<FlashcardSet>, ms: map<string, FlashcardSet>, nextSets: seq<FlashcardSet>)
    requires IsListing(storedSets, ms, SetKey)
    requires IsListing(nextSets, SetsAfterLoad(ms, storedSets), SetKey)
    ensures ReconciledSets(nextSets) == nextSets
    ensures multiset(nextSets) == multiset(ReconciledSets(storedSets))
  {
    LoadStoresEveryDefaultSet(storedSets, ms);
    NoSetsToWrite(nextSets, SetsAfterLoad(ms, storedSets));
    assert nextSets != [];
    var t := ReconciledSets(nextSets);
    assert t == t[..|nextSets|] == nextSets;
    ReturnedSetsListStore(storedSets, ms);
    ListingsPermute(nextSets, ReconciledSets(storedSets), SetsAfterLoad(ms, storedSets), SetKey);
  }

  /** A reload of the cards a load left returns them unchanged, at any later time. */
  lemma ReloadCards(storedCards: seq<Flashcard>, mc: map<string, Flashcard>, seed1: int,
                    nextCards: seq<Flashcard>, seed2: int)
    requires IsListing(storedCards, mc, CardKey)
    requires IsListing(nextCards, CardsAfterLoad(mc, storedCards, seed1), CardKey)
    ensures ReconciledCards(nextCards, seed2) == nextCards
    ensures multiset(NormalizeCards(nextCards)) == multiset(NormalizeCards(ReconciledCards(storedCards, seed1)))
  {
    var after := CardsAfterLoad(mc, storedCards, seed1);
    LoadStoresEveryDefaultCard(storedCards, mc, seed1);
    DefaultCardKeys(seed1, seed2);
    NoCardsToWrite(nextCards, after, seed2);
    assert nextCards != [];
    var t := ReconciledCards(nextCards, seed2);
    assert t == t[..|nextCards|] == nextCards;
    ReturnedCardsListStore(storedCards, mc, seed1);
    var first := ReconciledCards(storedCards, seed1);
    ListingsPermute(nextCards, first, after, CardKey);
    NormalizePermutes(nextCards, first);
  }

  /** A load with nothing to write issues no write and so cannot fail on a rejected one. */
  lemma NothingToWrite(storedCards: seq<Flashcard>, storedSets: seq<FlashcardSet>, seed: int,
                       rejectSetsWrite: bool, rejectCardsWrite: bool)
    requires SetsToWrite(storedSets) == [] && CardsToWrite(storedCards, seed) == []
    ensures LoadWrites(storedCards, storedSets, seed, rejectSetsWrite, rejectCardsWrite) == []
    ensures LoadOutcome(storedCards, storedSets, seed, rejectSetsWrite, rejectCardsWrite).Success?
  {
  }

  /** Idempotence: once a load has gone through, the next load, at any later time and
      whatever order the store lists the records in, writes nothing and cannot fail on a
      rejected write. */
  lemma SecondLoadWritesNothing(storedCards: seq<Flashcard>, mc: map<string, Flashcard>,
                                storedSets: seq<FlashcardSet>, ms: map<string, FlashcardSet>, seed1: int,
                                nextCards: seq<Flashcard>, nextSets: seq<FlashcardSet>, seed2: int,
                                rejectSetsWrite: bool, rejectCardsWrite: bool)
    requires IsListing(storedCards, mc, CardKey) && IsListing(storedSets, ms, SetKey)
    requires IsListing(nextCards, CardsAfterLoad(mc, storedCards, seed1), CardKey)
    requires IsListing(nextSets, SetsAfterLoad(ms, storedSets), SetKey)
    ensures SetsToWrite(nextSets) == [] && CardsToWrite(nextCards, seed2) == []
    ensures LoadWrites(nextCards, nextSets, seed2, rejectSetsWrite, rejectCardsWrite) == []
    ensures LoadOutcome(nextCards, nextSets, seed2, rejectSetsWrite, rejectCardsWrite).Success?
  {
    assert SetsToWrite(nextSets) == [] && CardsToWrite(nextCards, seed2) == [] by {
      LoadStoresEveryDefault(storedCards, mc, storedSets, ms, seed1);
      DefaultCardKeys(seed1, seed2);
      NoCardsToWrite(nextCards, CardsAfterLoad(mc, storedCards, seed1), seed2);
      NoSetsToWrite(nextSets, SetsAfterLoad(ms, storedSets));
    }
    NothingToWrite(nextCards, nextSets, seed2, rejectSetsWrite, rejectCardsWrite);
  }

  /** Idempotence of what a load shows: after a load has gone through, the next load, at
      any later time, returns the same cards, sets and initial selection as the first one,
      up to the order in which the store lists them. */
  lemma SecondLoadReturnsSame(storedCards: seq<Flashcard>, mc: map<string, Flashcard>,
                              storedSets: seq<FlashcardSet>, ms: map<string, FlashcardSet>, seed1: int,
                              nextCards: seq<Flashcard>, nextSets: seq<FlashcardSet>, seed2: int)
    requires IsListing(storedCards, mc, CardKey) && IsListing(storedSets, ms, SetKey)
    requires IsListing(nextCards, CardsAfterLoad(mc, storedCards, seed1), CardKey)
    requires IsListing(nextSets, SetsAfterLoad(ms, storedSets), SetKey)
    ensures multiset(Reconcile(nextCards, nextSets, seed2).cards) == multiset(Reconcile(storedCards, storedSets, seed1).cards)
    ensures multiset(Reconcile(nextCards, nextSets, seed2).sets) == multiset(Reconcile(storedCards, storedSets, seed1).sets)
    ensures multiset(Reconcile(nextCards, nextSets, seed2).visibleSetIds)
         == multiset(Reconcile(storedCards, storedSets, seed1).visibleSetIds)
  {
    var first := Reconcile(storedCards, storedSets, seed1);
    var second := Reconcile(nextCards, nextSets, seed2);
    assert multiset(second.sets) == multiset(first.sets) && DistinctKeys(first.sets, SetKey)
        && ReconciledSets(nextSets) == nextSets by {
      ReloadSets(storedSets, ms, nextSets);
      ReturnedSetsListStore(storedSets, ms);
    }
    assert multiset(second.cards) == multiset(first.cards) by {
      ReloadCards(storedCards, mc, seed1, nextCards, seed2);
    }
    VisibleIdsPermute(second.sets, second.cards, first.sets, first.cards);
  }

  /** A default card missing from the store, deleted or never written, is written back with
      its default value and returned. */
  lemma DeletedDefaultReturns(stored: seq<Flashcard>, m: map<string, Flashcard>, seed: int, i: nat)
    requires IsListing(stored, m, CardKey)
    requires i < 31 && DefaultCards(seed)[i].id !in m
    ensures DefaultCards(seed)[i].id in CardsAfterLoad(m, stored, seed)
    ensures CardsAfterLoad(m, stored, seed)[DefaultCards(seed)[i].id] == DefaultCards(seed)[i]
    ensures DefaultCards(seed)[i] in ReconciledCards(stored, seed)
  {
    var d := DefaultCards(seed);
    var w := CardsToWrite(stored, seed);
    ListingKeys(stored, m, CardKey);
    CardsWriteIsTopUp(stored, m, seed);
    var missing := MissingByKey(stored, d, CardKey);
    assert CardKey(d[i]) !in KeysOf(stored, CardKey);
    assert d[i] in missing;
    var t := ReconciledCards(stored, seed);
    var j :| 0 <= j < |missing| && missing[j] == d[i];
    assert t[|stored| + j] == t[|stored|..][j];
    assert w == t;
    PutAllDistinct(m, w, CardKey, |stored| + j);
  }

  /** The id of every card a successful load returns is a key of the cards store once the
      load is over, and the record under it is that card before normalization: the two
      differ at most in `setIds`, which the store may lack. */
  lemma LoadedCardsAreStored(storedCards: seq<Flashcard>, mc: map<string, Flashcard>,
                             storedSets: seq<FlashcardSet>, ms: map<string, FlashcardSet>, seed: int)
    requires IsListing(storedCards, mc, CardKey) && IsListing(storedSets, ms, SetKey)
    ensures forall i :: 0 <= i < |Reconcile(storedCards, storedSets, seed).cards| ==>
      Reconcile(storedCards, storedSets, seed).cards[i].id in CardsAfterLoad(mc, storedCards, seed)
    ensures forall i :: 0 <= i < |Reconcile(storedCards, storedSets, seed).cards| ==>
      CardsAfterLoad(mc, storedCards, seed)[Reconcile(storedCards, storedSets, seed).cards[i].id]
        == ReconciledCards(storedCards, seed)[i]
  {
    ReturnedCardsListStore(storedCards, mc, seed);
    var t := ReconciledCards(storedCards, seed);
    var cards := Reconcile(storedCards, storedSets, seed).cards;
    forall i | 0 <= i < |cards| ensures cards[i].id == t[i].id {
      assert cards[i].(setIds := t[i].setIds) == t[i];
    }
  }

  /** Every set a successful load returns is stored under its id once the load is over. */
  lemma LoadedSetsAreStored(storedCards: seq<Flashcard>, mc: map<string, Flashcard>,
                            storedSets: seq<FlashcardSet>, ms: map<string, FlashcardSet>, seed: int)
    requires IsListing(storedCards, mc, CardKey) && IsListing(storedSets, ms, SetKey)
    ensures forall i :: 0 <= i < |Reconcile(storedCards, storedSets, seed).sets| ==>
      Reconcile(storedCards, storedSets, seed).sets[i].id in SetsAfterLoad(ms, storedSets)
    ensures forall i :: 0 <= i < |Reconcile(storedCards, storedSets, seed).sets| ==>
      SetsAfterLoad(ms, storedSets)[Reconcile(storedCards, storedSets, seed).sets[i].id]
        == Reconcile(storedCards, storedSets, seed).sets[i]
  {
    ReturnedSetsListStore(storedSets, ms);
  }
}
