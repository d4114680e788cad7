/** The gallery's state and its handlers (src/App.tsx): the loaded cards and sets, the
    visible-set filter, the card form, and the store calls each handler makes. React's state
    updates become assignments to the fields; an awaited store call becomes a call to the
    store object, whose outcome decides which updates follow. */
module App {
  import opened Types
  import opened Records
  import opened DefaultData
  import opened CardsDb
  import opened Storage
  import opened StorageProps
  import opened View
  import opened Filtering
  import opened Form

  const LoadFallbackMessage: string := "Using starter cards; could not read saved cards."
  const SaveFailedMessage: string := "Unable to save card. Storage might be full or blocked."
  const AddSetFailedMessage: string := "Unable to add set right now."
  const DeleteFailedMessage: string := "Unable to delete card. Storage might be blocked."

  /** What a load produced: the snapshot, or the failure that makes the gallery fall back to
      the starter data. An unopenable store fails before anything is read. */
  ghost function LoadOutcomeFor(canOpen: bool, storedCards: seq<Flashcard>, storedSets: seq<FlashcardSet>,
                                seed: int, rejectSetsWrite: bool, rejectCardsWrite: bool): (r: Result<LoadResult>)
    ensures r == Failure(StoreUnavailable) <==> !canOpen
    ensures r.Failure? ==> r.error == (if canOpen then WriteRejected else StoreUnavailable)
    ensures r.Success? ==> canOpen && r.value == Reconcile(storedCards, storedSets, seed)
  {
    if canOpen then LoadOutcome(storedCards, storedSets, seed, rejectSetsWrite, rejectCardsWrite)
    else Failure(StoreUnavailable)
  }

  /** Choosing every filter entry shows every card that has no set or that belongs to a
      known set; only cards whose sets are all unknown stay hidden. */
  lemma SelectAllShowsFiledCards(sets: seq<FlashcardSet>, cards: seq<Flashcard>, c: Flashcard)
    requires c in cards
    requires IsUncategorized(c) || exists k :: 0 <= k < |c.setIds.value| && c.setIds.value[k] in SetIdList(sets)
    ensures c in FilteredCards(cards, SetIdList(AvailableSets(sets, cards)))
  {
    var visible := SetIdList(AvailableSets(sets, cards));
    AvailableSetIdsAreInitialSelection(sets, cards);
    var ids := c.setIds.GetOr([]);
    if |ids| == 0 {
      var i :| 0 <= i < |cards| && cards[i] == c;
      assert IsUncategorized(cards[i]);
      assert visible[|sets|] == UncategorizedId;
    } else {
      var k :| 0 <= k < |ids| && ids[k] in SetIdList(sets);
      assert ids[k] in visible[..|sets|];
      AnySelectedMeans(ids, visible);
    }
    assert IsShown(c, visible);
    assert multiset(cards)[c] > 0;
  }

  /** With the starter data every card has a set, so the filter entries are the starter
      sets and the fallback's selection shows all of them. */
  lemma StarterFilterEntries(seed: int)
    ensures AvailableSets(DefaultSets, DefaultCards(seed)) == DefaultSets
  {
    NormalizeDefaults(seed);
  }

  class AppState {
    /** The store the handlers call. */
    const db: Database
    var cards: seq<Flashcard>
    var sets: seq<FlashcardSet>
    var visibleSetIds: seq<string>
    var editingId: Option<string>
    var name: string
    var imageData: Option<string>
    var selectedSetIds: seq<string>
    var backgroundColor: string
    /** The recorder hook's current sound; its recording machinery is not part of this model. */
    var audioDataUrl: Option<string>
    var newSetName: string
    var uploadError: Option<string>
    var cardFormOpen: bool
    var loading: bool

    ghost predicate Valid()
      reads this, db
    {
      db.Valid()
    }

    /** The id of every card and set the gallery holds is a key of the store. The record
        stored under it may differ from the one on screen: a loaded card shows `setIds: []`
        where the store has none, and a create whose id collides keeps the old card on screen. */
    ghost predicate StoreBacked()
      reads this, db
    {
      && (forall i :: 0 <= i < |cards| ==> cards[i].id in db.cards)
      && (forall i :: 0 <= i < |sets| ==> sets[i].id in db.sets)
    }

    /** The card form's fields. */
    function Form(): FormState
      reads this
    {
      FormState(editingId, name, imageData, selectedSetIds, backgroundColor, audioDataUrl)
    }

    /** The state before the first load: nothing loaded, the form empty and closed. */
    constructor (db: Database)
      requires db.Valid()
      ensures Valid() && this.db == db
      ensures cards == [] && sets == [] && visibleSetIds == []
      ensures Form() == EmptyForm && newSetName == "" && uploadError.None?
      ensures !cardFormOpen && loading
      ensures StoreBacked()
    {
      this.db := db;
      cards, sets, visibleSetIds := [], [], [];
      editingId, name, imageData, selectedSetIds, backgroundColor, audioDataUrl := None, "", None, [], "", None;
      newSetName, uploadError := "", None;
      cardFormOpen, loading := false, true;
    }

    /** The mount effect: load the store, or fall back to the starter data when the load
        fails. `cancelled` says whether the gallery was unmounted before the load finished;
        the store calls happen either way, the gallery's state changes only when it was not. */
    method LoadData(seed: int, cancelled: bool, rejectSetsWrite: bool, rejectCardsWrite: bool)
      returns (ghost storedCards: seq<Flashcard>, ghost storedSets: seq<FlashcardSet>)
      requires Valid()
      modifies this, db
      ensures Valid() && db.CanOpen() == old(db.CanOpen())
      ensures old(db.CanOpen()) ==> IsListing(storedCards, old(db.cards), CardKey) && IsListing(storedSets, old(db.sets), SetKey)
      ensures !old(db.CanOpen()) ==> db.cards == old(db.cards) && db.sets == old(db.sets) && db.writes == old(db.writes)
      ensures old(db.CanOpen()) ==>
        && db.sets == (if SetsWriteFails(storedSets, rejectSetsWrite) then old(db.sets)
                       else SetsAfterLoad(old(db.sets), storedSets))
        && db.cards == (if SetsWriteFails(storedSets, rejectSetsWrite) || CardsWriteFails(storedCards, seed, rejectCardsWrite)
                        then old(db.cards) else CardsAfterLoad(old(db.cards), storedCards, seed))
        && db.writes == old(db.writes) + LoadWrites(storedCards, storedSets, seed, rejectSetsWrite, rejectCardsWrite)
      ensures Form() == old(Form()) && newSetName == old(newSetName) && cardFormOpen == old(cardFormOpen)
      ensures cancelled ==>
        && cards == old(cards) && sets == old(sets) && visibleSetIds == old(visibleSetIds)
        && uploadError == old(uploadError) && loading == old(loading)
      ensures !cancelled ==>
        var outcome := LoadOutcomeFor(old(db.CanOpen()), storedCards, storedSets, seed, rejectSetsWrite, rejectCardsWrite);
        && !loading
        && (outcome.Success? ==>
              && cards == outcome.value.cards && sets == outcome.value.sets
              && visibleSetIds == outcome.value.visibleSetIds && uploadError == old(uploadError)
              && StoreBacked())
        && (outcome.Failure? ==>
              && cards == DefaultCards(seed) && sets == DefaultSets
              && visibleSetIds == SetIdList(DefaultSets) && uploadError == Some(LoadFallbackMessage))
      ensures !cancelled ==> visibleSetIds == SetIdList(AvailableSets(sets, cards))
    {
      var r;
      r, storedCards, storedSets := LoadStore(seed, rejectSetsWrite, rejectCardsWrite);
      if cancelled {
        return;
      }
      if r.Success? {
        ShowSnapshot(r.value);
      } else {
        ShowStarterData(seed);
      }
      loading := false;
    }

    /** The id of every card and set of the snapshot is a key of the store. */
    ghost predicate SnapshotStored(snapshot: LoadResult)
      reads db
    {
      && (forall i :: 0 <= i < |snapshot.cards| ==> snapshot.cards[i].id in db.cards)
      && (forall i :: 0 <= i < |snapshot.sets| ==> snapshot.sets[i].id in db.sets)
    }

    /** The store's part of the load: `loadCardsAndSets`, and what its snapshot is known to be. */
    method LoadStore(seed: int, rejectSetsWrite: bool, rejectCardsWrite: bool)
      returns (r: Result<LoadResult>, ghost storedCards: seq<Flashcard>, ghost storedSets: seq<FlashcardSet>)
      requires Valid()
      modifies db
      ensures Valid() && db.CanOpen() == old(db.CanOpen())
      ensures old(db.CanOpen()) ==> IsListing(storedCards, old(db.cards), CardKey) && IsListing(storedSets, old(db.sets), SetKey)
      ensures !old(db.CanOpen()) ==> db.cards == old(db.cards) && db.sets == old(db.sets) && db.writes == old(db.writes)
      ensures old(db.CanOpen()) ==>
        && db.sets == (if SetsWriteFails(storedSets, rejectSetsWrite) then old(db.sets)
                       else SetsAfterLoad(old(db.sets), storedSets))
        && db.cards == (if SetsWriteFails(storedSets, rejectSetsWrite) || CardsWriteFails(storedCards, seed, rejectCardsWrite)
                        then old(db.cards) else CardsAfterLoad(old(db.cards), storedCards, seed))
        && db.writes == old(db.writes) + LoadWrites(storedCards, storedSets, seed, rejectSetsWrite, rejectCardsWrite)
      ensures r == LoadOutcomeFor(old(db.CanOpen()), storedCards, storedSets, seed, rejectSetsWrite, rejectCardsWrite)
      ensures r.Success? ==> r.value.visibleSetIds == InitialVisibleSetIds(r.value.sets, r.value.cards) && SnapshotStored(r.value)
    {
      r, storedCards, storedSets := LoadCardsAndSets(db, seed, rejectSetsWrite, rejectCardsWrite);
      if r.Success? {
        assert r.value == Reconcile(storedCards, storedSets, seed);
        assert db.cards == CardsAfterLoad(old(db.cards), storedCards, seed);
        assert db.sets == SetsAfterLoad(old(db.sets), storedSets);
        LoadedCardsAreStored(storedCards, old(db.cards), storedSets, old(db.sets), seed);
        LoadedSetsAreStored(storedCards, old(db.cards), storedSets, old(db.sets), seed);
      }
    }

    /** The gallery's updates after a successful load: the snapshot it returned. */
    method ShowSnapshot(snapshot: LoadResult)
      requires snapshot.visibleSetIds == InitialVisibleSetIds(snapshot.sets, snapshot.cards)
      modifies this
      ensures cards == snapshot.cards && sets == snapshot.sets && visibleSetIds == snapshot.visibleSetIds
      ensures visibleSetIds == SetIdList(AvailableSets(sets, cards))
      ensures Form() == old(Form()) && newSetName == old(newSetName) && uploadError == old(uploadError)
      ensures cardFormOpen == old(cardFormOpen) && loading == old(loading)
    {
      cards, sets, visibleSetIds := snapshot.cards, snapshot.sets, snapshot.visibleSetIds;
      AvailableSetIdsAreInitialSelection(sets, cards);
    }

    /** The gallery's updates after a failed load: the starter data, every starter set
        shown, and a message. */
    method ShowStarterData(seed: int)
      modifies this
      ensures cards == DefaultCards(seed) && sets == DefaultSets && visibleSetIds == SetIdList(DefaultSets)
      ensures uploadError == Some(LoadFallbackMessage)
      ensures visibleSetIds == SetIdList(AvailableSets(sets, cards))
      ensures Form() == old(Form()) && newSetName == old(newSetName)
      ensures cardFormOpen == old(cardFormOpen) && loading == old(loading)
    {
      cards, sets, visibleSetIds := DefaultCards(seed), DefaultSets, SetIdList(DefaultSets);
      uploadError := Some(LoadFallbackMessage);
      StarterFilterEntries(seed);
    }

    /** `resetForm`: empties the form, the new-set name and the message, and drops the
        recorded sound. */
    method ResetForm()
      modifies this
      ensures Form() == EmptyForm && newSetName == "" && uploadError.None?
      ensures cards == old(cards) && sets == old(sets) && visibleSetIds == old(visibleSetIds)
      ensures cardFormOpen == old(cardFormOpen) && loading == old(loading)
    {
      editingId, name, imageData, selectedSetIds, backgroundColor, audioDataUrl := None, "", None, [], "", None;
      newSetName, uploadError := "", None;
    }

    /** `handleSubmit`: validates the form, saves the card it describes, and on success puts
        it in the gallery (in place of the edited card, or first when new) and closes the
        form. `generatedId` is the id a new card gets and `now` the clock; `rejected` says
        whether the store rejects the write. */
    method HandleSubmit(generatedId: string, now: int, rejected: bool)
      requires Valid()
      modifies this, db
      ensures Valid() && db.CanOpen() == old(db.CanOpen()) && db.sets == old(db.sets)
      ensures sets == old(sets) && visibleSetIds == old(visibleSetIds) && loading == old(loading)
      ensures SubmitError(old(Form())).Some? ==>
        && uploadError == SubmitError(old(Form()))
        && db.cards == old(db.cards) && db.writes == old(db.writes)
        && cards == old(cards) && Form() == old(Form()) && newSetName == old(newSetName)
        && cardFormOpen == old(cardFormOpen)
      ensures SubmitError(old(Form())).None? ==>
        SavedAs(SubmitPayload(old(cards), old(Form()), generatedId, now), old(db.CanOpen()) && !rejected,
                old(cards), old(Form()), old(newSetName), old(uploadError), old(cardFormOpen),
                old(db.cards), old(db.writes))
      ensures old(StoreBacked()) ==> StoreBacked()
    {
      var form := Form();
      var error := SubmitError(form);
      if error.Some? {
        uploadError := error;
        return;
      }
      var p := SubmitPayload(cards, form, generatedId, now);
      SaveCard(p, rejected);
    }

    /** The state after saving `p` from a form that passed validation: on a stored card, the
        gallery updated, the form reset and closed; on a failed write, only the message. */
    ghost predicate SavedAs(p: Flashcard, stored: bool, cards0: seq<Flashcard>, form0: FormState,
                            newSetName0: string, uploadError0: Option<string>, cardFormOpen0: bool,
                            dbCards0: map<string, Flashcard>, writes0: seq<Write>)
      reads this, db
    {
      if stored then
        && db.cards == dbCards0[p.id := p] && db.writes == writes0 + [PutCardCall(p)]
        && cards == (if Truthy(form0.editingId) then ReplaceById(cards0, form0.editingId.value, p) else [p] + cards0)
        && Form() == EmptyForm && newSetName == "" && uploadError.None? && !cardFormOpen
      else
        && db.cards == dbCards0 && db.writes == writes0
        && cards == cards0 && Form() == form0 && newSetName == newSetName0
        && uploadError == Some(SaveFailedMessage) && cardFormOpen == cardFormOpen0
    }

    /** The part of `handleSubmit` after validation: write the card, then update the gallery. */
    method SaveCard(p: Flashcard, rejected: bool)
      requires Valid()
      modifies this, db
      ensures Valid() && db.CanOpen() == old(db.CanOpen()) && db.sets == old(db.sets)
      ensures sets == old(sets) && visibleSetIds == old(visibleSetIds) && loading == old(loading)
      ensures SavedAs(p, old(db.CanOpen()) && !rejected, old(cards), old(Form()), old(newSetName),
                      old(uploadError), old(cardFormOpen), old(db.cards), old(db.writes))
      ensures old(StoreBacked()) ==> StoreBacked()
    {
      var r := db.PutCard(p, rejected);
      if r.Failure? {
        uploadError := Some(SaveFailedMessage);
        return;
      }
      ghost var before := cards;
      if Truthy(editingId) {
        cards := ReplaceById(cards, editingId.value, p);
      } else {
        cards := [p] + cards;
      }
      ResetForm();
      cardFormOpen := false;
      if old(StoreBacked()) {
        forall i | 0 <= i < |cards| ensures cards[i].id in db.cards {
          if |cards| == |before| {
            assert cards[i] == p || cards[i] == before[i];
          } else if i > 0 {
            assert cards[i] == before[i - 1];
          }
        }
      }
    }

    /** `handleToggleSetForCard`: adds the set to the card's selection or takes it out. */
    method HandleToggleSetForCard(setId: string)
      modifies this
      ensures selectedSetIds == Toggle(old(selectedSetIds), setId)
      ensures Form() == old(Form()).(selectedSetIds := selectedSetIds)
      ensures cards == old(cards) && sets == old(sets) && visibleSetIds == old(visibleSetIds)
      ensures newSetName == old(newSetName) && uploadError == old(uploadError)
      ensures cardFormOpen == old(cardFormOpen) && loading == old(loading)
    {
      selectedSetIds := Toggle(selectedSetIds, setId);
    }

    /** `handleAddSet`: a blank name does nothing; otherwise the trimmed name is added as a
        set under its slug. `slugify` stands for the slug function and `rejected` says
        whether the store rejects the write. */
    method HandleAddSet(slugify: string -> string, rejected: bool)
      requires Valid()
      modifies this, db
      ensures Valid() && db.CanOpen() == old(db.CanOpen()) && db.cards == old(db.cards)
      ensures cards == old(cards) && loading == old(loading) && cardFormOpen == old(cardFormOpen)
      ensures Form().(selectedSetIds := []) == old(Form()).(selectedSetIds := [])
      ensures Text.IsBlank(old(newSetName)) ==>
        && sets == old(sets) && visibleSetIds == old(visibleSetIds) && selectedSetIds == old(selectedSetIds)
        && newSetName == old(newSetName) && uploadError == old(uploadError)
        && db.sets == old(db.sets) && db.writes == old(db.writes)
      ensures !Text.IsBlank(old(newSetName)) ==>
        SetAddedAs(Text.Trim(old(newSetName)), slugify(Text.Trim(old(newSetName))), old(db.CanOpen()) && !rejected,
                   old(sets), old(selectedSetIds), old(visibleSetIds), old(newSetName), old(uploadError),
                   old(db.sets), old(db.writes))
      ensures old(StoreBacked()) ==> StoreBacked()
    {
      Text.TrimEmptyIffBlank(newSetName);
      var trimmed := Text.Trim(newSetName);
      if trimmed == "" {
        return;
      }
      AddNamedSet(trimmed, slugify(trimmed), rejected);
    }

    /** The state after adding the set named `trimmed` under the id `id`: an existing id is
        only selected; a new set, once stored, is listed, selected and shown; a failed write
        leaves only the message. */
    ghost predicate SetAddedAs(trimmed: string, id: string, stored: bool,
                               sets0: seq<FlashcardSet>, selected0: seq<string>, visible0: seq<string>,
                               newSetName0: string, uploadError0: Option<string>,
                               dbSets0: map<string, FlashcardSet>, writes0: seq<Write>)
      reads this, db
    {
      if id in SetIdList(sets0) then
        && selectedSetIds == AddOnce(selected0, id) && newSetName == ""
        && sets == sets0 && visibleSetIds == visible0 && uploadError == uploadError0
        && db.sets == dbSets0 && db.writes == writes0
      else if stored then
        && db.sets == dbSets0[id := FlashcardSet(id, trimmed)]
        && db.writes == writes0 + [PutSetCall(FlashcardSet(id, trimmed))]
        && sets == sets0 + [FlashcardSet(id, trimmed)]
        && selectedSetIds == selected0 + [id] && visibleSetIds == visible0 + [id]
        && newSetName == "" && uploadError == uploadError0
      else
        && db.sets == dbSets0 && db.writes == writes0
        && sets == sets0 && selectedSetIds == selected0 && visibleSetIds == visible0
        && newSetName == newSetName0 && uploadError == Some(AddSetFailedMessage)
    }

    /** The part of `handleAddSet` after the blank check. */
    method AddNamedSet(trimmed: string, id: string, rejected: bool)
      requires Valid()
      modifies this, db
      ensures Valid() && db.CanOpen() == old(db.CanOpen()) && db.cards == old(db.cards)
      ensures cards == old(cards) && loading == old(loading) && cardFormOpen == old(cardFormOpen)
      ensures Form().(selectedSetIds := []) == old(Form()).(selectedSetIds := [])
      ensures SetAddedAs(trimmed, id, old(db.CanOpen()) && !rejected, old(sets), old(selectedSetIds),
                         old(visibleSetIds), old(newSetName), old(uploadError), old(db.sets), old(db.writes))
      ensures old(StoreBacked()) ==> StoreBacked()
    {
      if id in SetIdList(sets) {
        selectedSetIds := AddOnce(selectedSetIds, id);
        newSetName := "";
        return;
      }
      var record := FlashcardSet(id, trimmed);
      var r := db.PutSet(record, rejected);
      if r.Failure? {
        uploadError := Some(AddSetFailedMessage);
        return;
      }
      sets := sets + [record];
      selectedSetIds := selectedSetIds + [id];
      visibleSetIds := visibleSetIds + [id];
      newSetName := "";
    }

    /** `toggleVisibleSet`: shows the set's cards or hides them. */
    method ToggleVisibleSet(setId: string)
      modifies this
      ensures visibleSetIds == Toggle(old(visibleSetIds), setId)
      ensures cards == old(cards) && sets == old(sets) && Form() == old(Form())
      ensures newSetName == old(newSetName) && uploadError == old(uploadError)
      ensures cardFormOpen == old(cardFormOpen) && loading == old(loading)
    {
      visibleSetIds := Toggle(visibleSetIds, setId);
    }

    /** `selectAllVisibleSets`: shows every filter entry. */
    method SelectAllVisibleSets()
      modifies this
      ensures visibleSetIds == SetIdList(AvailableSets(sets, cards))
      ensures forall c :: c in cards && (IsUncategorized(c) || exists k :: 0 <= k < |c.setIds.value| && c.setIds.value[k] in SetIdList(sets)) ==>
        c in FilteredCards(cards, visibleSetIds)
      ensures cards == old(cards) && sets == old(sets) && Form() == old(Form())
      ensures newSetName == old(newSetName) && uploadError == old(uploadError)
      ensures cardFormOpen == old(cardFormOpen) && loading == old(loading)
    {
      visibleSetIds := SetIdList(AvailableSets(sets, cards));
      forall c | c in cards && (IsUncategorized(c) || exists k :: 0 <= k < |c.setIds.value| && c.setIds.value[k] in SetIdList(sets))
        ensures c in FilteredCards(cards, visibleSetIds)
      {
        SelectAllShowsFiledCards(sets, cards, c);
      }
    }

    /** `clearVisibleSets`: hides every card. */
    method ClearVisibleSets()
      modifies this
      ensures visibleSetIds == [] && FilteredCards(cards, visibleSetIds) == []
      ensures cards == old(cards) && sets == old(sets) && Form() == old(Form())
      ensures newSetName == old(newSetName) && uploadError == old(uploadError)
      ensures cardFormOpen == old(cardFormOpen) && loading == old(loading)
    {
      visibleSetIds := [];
    }

    /** `handleEdit`: opens the form filled in from the card and clears the message. */
    method HandleEdit(card: Flashcard)
      modifies this
      ensures Form() == EditForm(card) && cardFormOpen && uploadError.None?
      ensures cards == old(cards) && sets == old(sets) && visibleSetIds == old(visibleSetIds)
      ensures newSetName == old(newSetName) && loading == old(loading)
    {
      cardFormOpen := true;
      editingId := Some(card.id);
      name := card.name;
      imageData := Some(card.imageUrl);
      audioDataUrl := card.audioUrl;
      selectedSetIds := card.setIds.GetOr([]);
      backgroundColor := card.backgroundColor.GetOr("");
      uploadError := None;
    }

    /** `handleDelete`: once confirmed, deletes the card from the store and then from the
        gallery, and resets the form when it was editing that card. `confirmed` is the
        user's answer and `rejected` says whether the store rejects the delete. */
    method HandleDelete(id: string, confirmed: bool, rejected: bool)
      requires Valid()
      modifies this, db
      ensures Valid() && db.CanOpen() == old(db.CanOpen()) && db.sets == old(db.sets)
      ensures sets == old(sets) && visibleSetIds == old(visibleSetIds)
      ensures loading == old(loading) && cardFormOpen == old(cardFormOpen)
      ensures !confirmed ==>
        && db.cards == old(db.cards) && db.writes == old(db.writes) && cards == old(cards)
        && Form() == old(Form()) && newSetName == old(newSetName) && uploadError == old(uploadError)
      ensures confirmed && old(db.CanOpen()) && !rejected ==>
        && db.cards == old(db.cards) - {id} && db.writes == old(db.writes) + [DeleteCardCall(id)]
        && cards == RemoveById(old(cards), id)
        && (if old(editingId) == Some(id) then Form() == EmptyForm && newSetName == "" && uploadError.None?
            else Form() == old(Form()) && newSetName == old(newSetName) && uploadError == old(uploadError))
      ensures confirmed && !(old(db.CanOpen()) && !rejected) ==>
        && db.cards == old(db.cards) && db.writes == old(db.writes) && cards == old(cards)
        && Form() == old(Form()) && newSetName == old(newSetName) && uploadError == Some(DeleteFailedMessage)
      ensures old(StoreBacked()) ==> StoreBacked()
    {
      if !confirmed {
        return;
      }
      var r := db.DeleteCard(id, rejected);
      if r.Failure? {
        uploadError := Some(DeleteFailedMessage);
        return;
      }
      var wasEditing := editingId == Some(id);
      cards := RemoveById(cards, id);
      if wasEditing {
        ResetForm();
      }
    }

    /** `cancelEditing`: resets the form and closes it. */
    method CancelEditing()
      modifies this
      ensures Form() == EmptyForm && newSetName == "" && uploadError.None? && !cardFormOpen
      ensures cards == old(cards) && sets == old(sets) && visibleSetIds == old(visibleSetIds)
      ensures loading == old(loading)
    {
      ResetForm();
      cardFormOpen := false;
    }

    /** `openCreateForm`: resets the form and opens it, so a new card starts empty. */
    method OpenCreateForm()
      modifies this
      ensures Form() == EmptyForm && newSetName == "" && uploadError.None? && cardFormOpen
      ensures cards == old(cards) && sets == old(sets) && visibleSetIds == old(visibleSetIds)
      ensures loading == old(loading)
    {
      ResetForm();
      cardFormOpen := true;
    }
  }
}
