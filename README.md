# kids-flashcards: a verified model of the card store, the starter data and the gallery

kids-flashcards is a small web app that lets a child browse picture flashcards, grouped
into sets, and make their own cards (a name, a picture or a background colour, an optional
sound). This project models its core in Dafny:

- `types.dfy` (`Types`): the two records, a card (`FlashcardData`) and a set, with the
  optional fields as `Option`, and the synthetic `uncategorized` set id.
- `text.dfy` (`Text`): JavaScript's `String.prototype.trim`, over the whitespace and
  line-terminator characters it strips.
- `records.dfy` (`Records`): keyed collections: a store keyed by `id`, what `put` of a
  batch does to it, and "the defaults whose id is not stored yet".
- `cards_db.dfy` (`CardsDb`): the IndexedDB wrapper as a class `Database`. It holds the
  keyed stores of cards and sets, the cached connection, whether the database can be
  opened at all, and a ghost log of the writes made.
- `default_data.dfy` (`DefaultData`): the starter data. There are three sets and 31 cards:
  11 numbers, 10 shapes and 10 colours. Their ids, names, faces, sets and timestamps are
  built from one clock reading.
- `storage.dfy` (`Storage`): `loadCardsAndSets`, as a method over a `Database`. It reads
  both stores, writes back the missing defaults and returns the snapshot, proved against
  the functions `Reconcile`, `LoadOutcome` and `LoadWrites`.
- `storage_props.dfy` (`StorageProps`): what a load promises. The first load from an empty
  store gives exactly the starter data. Stored records are never overwritten. Every default
  is stored afterwards. A second load writes nothing and returns the same records, up to
  order. A deleted default comes back.
- `view.dfy`, `filtering.dfy` (`View`, `Filtering`): the gallery's filter entries
  (`availableSets`) and the shown cards (`filteredCards`). The shown cards are the newest
  first, a stable sort, keeping exactly the cards in a selected set.
- `form.dfy` (`Form`): the card form as a value. It covers validation, the card a submit
  saves, opening a card for editing, and the list helpers the handlers use.
- `app.dfy` (`App`): the `App` component's state as a class `AppState`, with one method
  per handler. Each states the whole new state and the store writes it makes.
  `StoreBacked` says that the id of every card and set on screen is a key of the store; the record stored under it may differ from the one shown. The handlers that
  write to the store (`HandleSubmit`, `SaveCard`, `HandleAddSet`, `AddNamedSet`,
  `HandleDelete`) keep it, and the others leave the cards, the sets and the store as they
  are. `LoadData` establishes it only after a load that succeeds and is not cancelled. Its
  fallback shows the starter data, which need not be in the store.

Nondeterministic inputs are parameters:

- `seed`: the clock reading taken when the starter data is built.
- `now`: the clock reading taken on a save.
- `generatedId`: the `crypto.randomUUID()` value.
- `rejected`: whether the store rejects a write.
- `confirmed`: the user's answer to the delete question.
- `cancelled`: whether the component was unmounted before the load finished.
- `slugify`: the set-name slug function, which lives in `src/flashcards/fileUtils.ts`. That
  file is not part of this model.

The starter data holds 31 cards: 11 numbers, 10 shapes and 10 colours. The alphabet set
and its cards are commented out in `src/flashcards/defaultData.ts`. When some default card
is missing, `loadCardsAndSets` puts the stored cards again together with the missing ones
(`StorageProps.CardsWriteIsTopUp`).

## Model

| member | source | states |
|---|---|---|
| Types.IsUncategorized | src/flashcards/storage.ts:16 | a card is uncategorized exactly when its set list, read as `setIds ?? []`, is empty, which is the gallery's test at src/App.tsx:92-93 |
| Types.SetIdList | src/App.tsx:213 | the id list of a list of sets has one entry per set, in order |
| Text.TrimStart | src/App.tsx:114 | strips a blank prefix; the result is a suffix that starts with a non-whitespace character or is empty |
| Text.TrimEnd | src/App.tsx:118 | strips a blank suffix; the result is a prefix that ends with a non-whitespace character or is empty |
| Text.Trim | src/App.tsx:124 | the result is a middle slice of the input with blank text on both sides, and it neither starts nor ends with whitespace |
| Text.TrimEmptyIffBlank | src/App.tsx:114 | `s.trim()` is empty exactly when `s` is blank, which is the falsy case the handlers test |
| Text.TrimIdempotent | src/App.tsx:127 | trimming a trimmed name changes nothing |
| Records.PutAll | src/db/cardsDb.ts:43-46 | putting a batch adds the batch's keys, leaves every other key as it was, and keeps each record under its own id |
| Records.PutAllLastWins | src/db/cardsDb.ts:45 | after a batch put, a key holds the last record in the batch with that key |
| Records.PutAllDistinct | src/db/cardsDb.ts:45 | in a batch with distinct ids, every record of the batch ends up stored under its id |
| Records.PutAllEmpty | src/db/cardsDb.ts:43-46 | an empty batch leaves the store as it was |
| Records.PutAllOfStored | src/flashcards/storage.ts:42-43 | re-putting records that are already stored as they are changes nothing |
| Records.MissingByKey | src/flashcards/storage.ts:27 | the missing defaults are exactly the defaults whose id is not stored, and keep distinct ids |
| Records.MissingByKeyAppend | src/flashcards/storage.ts:27 | the missing defaults of two lists one after the other are those of the first, then those of the second, so the filter keeps default order |
| Records.MissingOfOne | src/flashcards/storage.ts:27 | a single default is missing exactly when its id is not stored |
| Records.MissingEmptyIffAllStored | src/flashcards/storage.ts:28 | nothing is missing exactly when every default id is already stored |
| Records.MissingFromNothing | src/flashcards/storage.ts:23-25 | against an empty store, every default is missing |
| Records.TopUp | src/flashcards/storage.ts:30 | the topped-up list is the stored list followed by the missing defaults, and covers every default id |
| Records.TopUpDistinct | src/flashcards/storage.ts:42 | topping up keeps ids distinct |
| Records.TopUpListsPut | src/flashcards/storage.ts:26-30 | the stored records followed by the missing defaults list the store after the missing defaults are put: each record once, as stored |
| Records.DistinctKeysDistinct | src/db/cardsDb.ts:23 | records with distinct ids are distinct records |
| Records.DistinctCount | src/db/cardsDb.ts:37-41 | in a list without repeats, each record occurs once or not at all |
| Records.SameElementsPermute | src/db/cardsDb.ts:37-41 | two lists without repeats that hold the same records are reorderings of each other |
| Records.ImagesPermute | src/flashcards/storage.ts:11-13 | mapping two reorderings of a list element by element, with distinct images, gives reorderings of each other |
| Records.ListingsPermute | src/db/cardsDb.ts:37-41 | two full listings of the same store are reorderings of each other |
| Records.ListingKeys | src/db/cardsDb.ts:37-41 | a full listing of a store has exactly its keys, and is empty exactly when the store is |
| Records.ListingAfterPut | src/db/cardsDb.ts:48-51 | after a put, a full listing of the store contains the record put |
| DefaultData.NumberNameInEnglish | src/flashcards/defaultData.ts:21-37 | a name exists exactly for 0 through 10, and it is one of the eleven number words |
| DefaultData.DecimalString | src/flashcards/defaultData.ts:43 | a number prints as a non-empty string of digits, one digit exactly below ten |
| DefaultData.DecimalStringInjective | src/flashcards/defaultData.ts:43 | different numbers print differently, so the number card ids differ |
| DefaultData.Digit | src/flashcards/defaultData.ts:45 | a digit value prints as a decimal digit character |
| DefaultData.BuildSvgCard | src/flashcards/defaultData.ts:121-135 | the picture is an SVG data URL |
| DefaultData.BuildIllustratedCard | src/flashcards/defaultData.ts:137-146 | the picture is an SVG data URL |
| DefaultData.BuildNumberCards | src/flashcards/defaultData.ts:41-49 | there are eleven number cards |
| DefaultData.PaletteColour | src/flashcards/defaultData.ts:60 | the palette colour picked for an index, cycling, is one of the palette's colours |
| DefaultData.ShapeMarkup | src/flashcards/defaultData.ts:61-72 | a shape's markup starts with the shape's own element, carries the given fill, the given stroke and a stroke width of 8, a round line join for the shapes that have one, and ends with ` />` |
| DefaultData.SelfClosingHas | src/flashcards/defaultData.ts:61-72 | every attribute written into a self-closing element occurs in it |
| DefaultData.ShapeCardAt | src/flashcards/defaultData.ts:74-82 | shape card k is in the shapes set, created 400 + k after the clock reading, named after its shape, with a picture on a light background |
| DefaultData.BuildShapeCards | src/flashcards/defaultData.ts:58-82 | there is one card per shape |
| DefaultData.BuildColorCards | src/flashcards/defaultData.ts:90-112 | there is one card per colour |
| DefaultData.DefaultCards | src/flashcards/defaultData.ts:114-119 | the starter deck has 31 cards |
| DefaultData.DefaultSetIds | src/flashcards/defaultData.ts:3-8 | the starter sets are numbers, shapes and colors, with distinct ids |
| DefaultData.DefaultCardsLayout | src/flashcards/defaultData.ts:114-119 | the deck is the number cards, then the shape cards, then the colour cards |
| DefaultData.NumberCard | src/flashcards/defaultData.ts:42-44 | number card n has id `number-n` and the English name of n |
| DefaultData.ShapeCardId | src/flashcards/defaultData.ts:75 | shape card i has id `shape-` followed by the shape's id |
| DefaultData.ColorCardId | src/flashcards/defaultData.ts:105 | colour card i has id `color-` followed by the colour's id |
| DefaultData.ShapeIdsDistinct | src/flashcards/defaultData.ts:61-72 | the shapes have distinct ids |
| DefaultData.ColorIdsDistinct | src/flashcards/defaultData.ts:91-102 | the colours have distinct ids |
| DefaultData.DefaultCardIdHeads | src/flashcards/defaultData.ts:114-119 | each starter card's id follows its group's pattern and starts with its group's letter |
| DefaultData.DefaultCardIdsDistinct | src/flashcards/defaultData.ts:114-119 | the 31 starter ids are pairwise distinct, so putting the deck stores every card |
| DefaultData.DefaultCardsSeedIndependent | src/flashcards/defaultData.ts:39 | a different clock reading moves every timestamp by the same amount and changes nothing else |
| DefaultData.DefaultCardAt | src/flashcards/defaultData.ts:41-112 | each starter card's set, timestamp offset (200, 400 or 600 plus its index), name and face |
| DefaultData.DefaultCardsInOneDefaultSet | src/flashcards/defaultData.ts:47 | every starter card belongs to exactly one starter set |
| DefaultData.DefaultCreatedAtIncreasing | src/flashcards/defaultData.ts:46 | starter timestamps strictly increase along the deck |
| DefaultData.ConfigTextsStartVisibly | src/flashcards/defaultData.ts:21-102 | every number word, shape name and colour name is non-empty and starts with a visible character, and every colour is a `#` hex code |
| DefaultData.DefaultCardsHaveNameAndFace | src/flashcards/defaultData.ts:114-119 | every starter card has a non-blank name and a picture or a background colour |
| CardsDb.Database.constructor | src/db/cardsDb.ts:7 | a database starts with the given stores, no cached connection and no writes |
| CardsDb.Database.OpenDb | src/db/cardsDb.ts:16-29 | opening succeeds exactly when the database can be opened; a cached connection is returned as it is; a new one opens `kids-flashcards-db` at version 1 and is cached; a failure caches nothing; the stores' contents are untouched |
| CardsDb.Database.GetAllCards | src/db/cardsDb.ts:37-41 | on success, returns a full listing of the cards store; on failure, the store is unavailable; nothing is written |
| CardsDb.Database.GetAllSets | src/flashcards/storage.ts:20 | on success, returns a full listing of the sets store; on failure, the store is unavailable; nothing is written |
| CardsDb.Database.PutCards | src/db/cardsDb.ts:43-46 | on success the cards store is the batch put over the old store; on failure nothing changes, with an error naming why; an empty batch makes no request and cannot be rejected |
| CardsDb.Database.PutCard | src/db/cardsDb.ts:48-51 | on success the card is stored under its id, replacing any old one; on failure nothing changes |
| CardsDb.Database.DeleteCard | src/db/cardsDb.ts:53-56 | on success the id is removed from the cards store (deleting a missing id also succeeds); on failure nothing changes |
| CardsDb.Database.PutSets | src/flashcards/storage.ts:24 | on success the sets store is the batch put over the old store; on failure nothing changes; an empty batch makes no request and cannot be rejected |
| CardsDb.Database.PutSet | src/App.tsx:197 | on success the set is stored under its id; on failure nothing changes |
| Storage.NormalizeCards | src/flashcards/storage.ts:11-13 | each card keeps every field, and a missing set list becomes empty while a present one is kept |
| Storage.HasUncategorized | src/flashcards/storage.ts:15-17 | true exactly when some card has no set list or an empty one |
| Storage.NormalizeKeepsUncategorized | src/flashcards/storage.ts:48-49 | normalizing first does not change whether some card is uncategorized |
| Storage.InitialVisibleSetIds | src/flashcards/storage.ts:54 | every set id is visible, plus `uncategorized` exactly when some card has no set |
| Storage.SetsToWrite | src/flashcards/storage.ts:22-32 | the sets step writes nothing exactly when the store has sets and every default set id among them; what it writes are default sets not yet stored, and every such set |
| Storage.CardsToWrite | src/flashcards/storage.ts:34-46 | the cards step writes nothing exactly when the store has cards and every default card id among them; otherwise it writes the list the load returns |
| Storage.TopUpSets | src/flashcards/storage.ts:22-32 | writes all default sets to an empty store, or only the missing ones otherwise, and returns the stored sets followed by them; a rejected write fails the load |
| Storage.TopUpCards | src/flashcards/storage.ts:34-46 | writes all default cards to an empty store, or the stored cards plus the missing ones otherwise, and returns that list; a rejected write fails the load |
| Storage.ReadBoth | src/flashcards/storage.ts:20 | reads full listings of both stores, or fails when the database cannot be opened |
| Storage.ReconcileStore | src/flashcards/storage.ts:22-55 | the sets step, then the cards step, then the normalized snapshot, with the store and write log each step leaves |
| Storage.LoadCardsAndSets | src/flashcards/storage.ts:19-56 | the result, the final contents of both stores and the writes made, all as functions of what was stored; an unopenable database fails with nothing written |
| Storage.ReconciledSets | src/flashcards/storage.ts:22-32 | the sets the load returns are the stored sets, in their order, followed by `MissingByKey` of the default sets: those whose ids are not stored, in default order (see `Records.MissingByKeyAppend`) |
| Storage.ReconciledCards | src/flashcards/storage.ts:34-46 | the cards the load returns, before normalization, are the stored cards, in their order, followed by `MissingByKey` of the default cards: those whose ids are not stored, in default order (see `Records.MissingByKeyAppend`) |
| Storage.Reconcile | src/flashcards/storage.ts:22-55 | the snapshot: the reconciled sets; one card per reconciled card, each with a set list; the visible ids are every set id in set order, plus one more entry exactly when some card is uncategorized |
| Storage.LoadOutcome | src/flashcards/storage.ts:19-56 | the load fails, with `WriteRejected`, exactly when the sets write or the cards write has something to write and is rejected; otherwise it returns the snapshot `Reconcile` describes |
| Storage.LoadWrites | src/flashcards/storage.ts:22-46 | at most two writes, the sets before the cards; the sets write is made exactly when it has something to write and is not rejected, and the cards write exactly when it has something to write, is not rejected and the sets step did not fail |
| StorageProps.NormalizeIdempotent | src/flashcards/storage.ts:11-13 | normalizing twice is normalizing once |
| StorageProps.NormalizeDefaults | src/flashcards/storage.ts:48-49 | the starter cards are already normal and none is uncategorized |
| StorageProps.LoadFromEmptyStoreWrites | src/flashcards/storage.ts:23-37 | an empty store gets exactly two writes, all starter sets and then all starter cards |
| StorageProps.LoadFromEmptyStore | src/flashcards/storage.ts:19-56 | loading an empty store returns exactly the starter cards and sets, with the three starter sets visible |
| StorageProps.CardsWriteIsTopUp | src/flashcards/storage.ts:39-44 | the cards write is either nothing or the whole topped-up list, and its ids are distinct |
| StorageProps.LoadKeepsStoredCards | src/flashcards/storage.ts:38-46 | non-destructive: every stored card keeps its value through a load |
| StorageProps.LoadReturnsStoredCards | src/flashcards/storage.ts:42-52 | the returned cards start with the stored cards, in order, changed only by normalization |
| StorageProps.LoadKeepsStoredSets | src/flashcards/storage.ts:26-31 | non-destructive: every stored set keeps its value, and the returned sets start with the stored ones |
| StorageProps.LoadStoresEveryDefault | src/flashcards/storage.ts:22-46 | after a successful load every default card and set id is stored |
| StorageProps.DefaultCardKeys | src/flashcards/defaultData.ts:39 | the starter card ids do not depend on the clock |
| StorageProps.NoCardsToWrite | src/flashcards/storage.ts:41 | when every default card id is stored, the cards step writes nothing |
| StorageProps.NoSetsToWrite | src/flashcards/storage.ts:28 | when every default set id is stored, the sets step writes nothing |
| StorageProps.ReturnedSetsListStore | src/flashcards/storage.ts:22-32 | the sets a load returns are a full listing of the sets store it leaves |
| StorageProps.ReturnedCardsListStore | src/flashcards/storage.ts:34-46 | the cards a load returns, before normalization, are a full listing of the cards store it leaves |
| StorageProps.NormalizeSameCard | src/flashcards/storage.ts:11-13 | normalizing a card depends on that card alone |
| StorageProps.NormalizeDistinct | src/flashcards/storage.ts:11-13 | normalizing keeps ids, so cards with distinct ids stay distinct |
| StorageProps.NormalizePermutes | src/flashcards/storage.ts:11-13 | normalizing reorderings of a list with distinct ids gives reorderings of each other |
| StorageProps.SetIdsPermute | src/flashcards/storage.ts:54 | reordering sets with distinct ids reorders their id list |
| StorageProps.UncategorizedPermutes | src/flashcards/storage.ts:15-17 | whether some card is uncategorized does not depend on the cards' order |
| StorageProps.VisibleIdsPermute | src/flashcards/storage.ts:54 | reordering the sets and cards reorders the initial selection |
| StorageProps.ReloadSets | src/flashcards/storage.ts:22-32 | reloading the sets a load left returns them unchanged, and they are a reordering of what the first load returned |
| StorageProps.ReloadCards | src/flashcards/storage.ts:34-49 | reloading the cards a load left returns them unchanged, at any clock, and they normalize to a reordering of what the first load returned |
| StorageProps.NothingToWrite | src/flashcards/storage.ts:22-46 | a load with nothing to write issues no write and succeeds whether or not the store would reject one |
| StorageProps.SecondLoadWritesNothing | src/flashcards/storage.ts:19-56 | a load after a successful load writes nothing and cannot fail on a write, whatever the clock |
| StorageProps.SecondLoadReturnsSame | src/flashcards/storage.ts:19-56 | a load after a successful load returns the same cards, sets and initial selection as the first, up to order, whatever the clock |
| StorageProps.DeletedDefaultReturns | src/flashcards/storage.ts:39-44 | a default card missing from the store is written back by the next load and returned by it |
| StorageProps.LoadedCardsAreStored | src/flashcards/storage.ts:42-52 | the id of every card a successful load returns is a key of the cards store afterwards, and the record under it is that card before normalization, so the two differ at most in `setIds` |
| StorageProps.LoadedSetsAreStored | src/flashcards/storage.ts:25-53 | every set a successful load returns is stored afterwards under its id, as the same record |
| View.AvailableSets | src/App.tsx:78-85 | the filter entries are the sets, then "No set" exactly when some card has no set |
| View.AvailableSetIdsAreInitialSelection | src/App.tsx:213 | selecting every filter entry gives the same selection a load starts with |
| Filtering.IsShown | src/App.tsx:91-96 | a card with no set is shown exactly when "No set" is selected, any other card exactly when one of its sets is selected |
| Filtering.AnySelectedMeans | src/App.tsx:96 | a card's set list matches exactly when one of its ids is selected |
| Filtering.InsertByRecency | src/App.tsx:90 | inserting a card adds one element and puts it first when no older card is ahead of it |
| Filtering.InsertCounts | src/App.tsx:90 | inserting adds exactly that card |
| Filtering.InsertKeepsOrder | src/App.tsx:90 | inserting into a newest-first list keeps it newest-first |
| Filtering.SortByRecency | src/App.tsx:90 | the sort is a newest-first permutation of the cards |
| Filtering.InsertStable | src/App.tsx:90 | inserting keeps cards with equal timestamps in their original order |
| Filtering.SortStable | src/App.tsx:90 | the sort is stable: cards with the same timestamp keep their order |
| Filtering.ShownOnly | src/App.tsx:91-97 | the filter keeps only cards shown for the selection |
| Filtering.ShownOnlyCounts | src/App.tsx:91-97 | each shown card is kept as often as it occurs, and no other card is kept |
| Filtering.ShownOnlyFromList | src/App.tsx:91-97 | every kept card comes from the list |
| Filtering.ShownOnlyKeepsOrder | src/App.tsx:91-97 | filtering a newest-first list keeps it newest-first |
| Filtering.ShownOnlySorted | src/App.tsx:90-97 | sorting then filtering is filtering then sorting |
| Filtering.NothingShownWithoutSelection | src/App.tsx:91-97 | with nothing selected, the filter alone already keeps no card |
| Filtering.FilteredCards | src/App.tsx:87-98 | an empty selection shows nothing; otherwise the shown cards are, newest first and stably, exactly the cards in a selected set or uncategorized when `uncategorized` is selected |
| Filtering.SortStableAll | src/App.tsx:90 | the sort is stable for every timestamp at once |
| Form.Without | src/App.tsx:183 | removes every copy of the id, keeps every other id, and keeps ids distinct |
| Form.WithoutAbsent | src/App.tsx:183 | removing an id that is not there changes nothing |
| Form.Toggle | src/App.tsx:183 | flips whether the id is selected, keeps every other selection, and keeps ids distinct |
| Form.ToggleTwice | src/App.tsx:209 | toggling an absent id twice restores the list; toggling a present id twice moves it to the end |
| Form.AddOnce | src/App.tsx:191 | adds the id at the end unless it is already there, and keeps ids distinct |
| Form.FindById | src/App.tsx:123 | finds the first card with the id, or nothing exactly when no card has it |
| Form.ReplaceById | src/App.tsx:138 | replaces every card with the id by the saved card and keeps the rest in place |
| Form.ReplaceThenFind | src/App.tsx:138 | after an edit is saved, looking the id up finds the saved card |
| Form.RemoveById | src/App.tsx:236 | keeps exactly the cards with another id |
| Form.RemoveByIdCounts | src/App.tsx:236 | removing drops every card with the id and keeps every other card as often as it occurred |
| Form.EditForm | src/App.tsx:218-227 | the form edits the card and shows its name, picture and sound; it selects the card's sets, none exactly for an uncategorized card; the colour is blank exactly when the card has no colour or a blank one |
| Form.SubmitError | src/App.tsx:114-121 | a blank name gives the name message; a picture-less card with a blank colour gives the face message; otherwise the form is valid |
| Form.SubmitPayload | src/App.tsx:123-133 | the saved card's id, trimmed name, picture, sound, sets, and colour (absent when blank); an edit keeps the original timestamp, and a new card takes the clock |
| Form.SavedCardIsCanonical | src/App.tsx:123-133 | a saved card has a trimmed name and no blank colour |
| Form.SavedCardReopens | src/App.tsx:218-227 | reopening a card saved from a valid form gives a valid form again |
| Form.EditRoundTrip | src/App.tsx:218-227 | editing a saved card and submitting unchanged saves exactly that card again |
| Form.DefaultCardsPassValidation | src/App.tsx:218-227 | opening any starter card for editing gives a valid form |
| App.SelectAllShowsFiledCards | src/App.tsx:212-214 | after selecting all entries, every uncategorized card and every card in a known set is shown |
| App.StarterFilterEntries | src/App.tsx:61-63 | with the starter data, the filter entries are exactly the starter sets |
| App.AppState.constructor | src/App.tsx:18-30 | the initial state: no cards, no sets, no selection, an empty form, loading |
| App.AppState.LoadData | src/App.tsx:49-76 | after a load, the gallery shows the store's snapshot, with everything visible and backed by the store, or the starter data with the fallback message; a cancelled load changes no screen state |
| App.LoadOutcomeFor | src/App.tsx:50-58 | a load fails with `StoreUnavailable` exactly when the database cannot be opened; otherwise it has the store's outcome, whose success is the `Reconcile` snapshot |
| App.AppState.LoadStore | src/App.tsx:53 | runs the load against the store; a successful snapshot selects every filter entry and is all stored |
| App.AppState.ShowSnapshot | src/App.tsx:56-58 | shows the snapshot, with every filter entry selected |
| App.AppState.ShowStarterData | src/App.tsx:61-64 | shows the starter data with every starter set selected and the fallback message |
| App.AppState.ResetForm | src/App.tsx:100-110 | empties the form, the new-set name and the message, and leaves the gallery alone |
| App.AppState.HandleSubmit | src/App.tsx:112-146 | an invalid form only sets its message; a valid one stores the card, then replaces it in or adds it to the gallery and closes the form, or keeps everything and sets the save-failed message |
| App.AppState.SaveCard | src/App.tsx:135-145 | stores the card and updates the gallery, or sets the save-failed message; what is on screen stays stored |
| App.AppState.HandleToggleSetForCard | src/App.tsx:182-184 | flips one set in the card's selection and changes nothing else |
| App.AppState.HandleAddSet | src/App.tsx:186-206 | a blank name does nothing; a known set is selected once; a new set is stored, then listed, selected and made visible, or the add-failed message is set |
| App.AppState.AddNamedSet | src/App.tsx:190-205 | the known-set and new-set branches with their store write |
| App.AppState.ToggleVisibleSet | src/App.tsx:208-210 | flips one set in the gallery selection and changes nothing else |
| App.AppState.SelectAllVisibleSets | src/App.tsx:212-214 | selects every filter entry, so every filed card is shown |
| App.AppState.ClearVisibleSets | src/App.tsx:216 | selects nothing, so no card is shown |
| App.AppState.HandleEdit | src/App.tsx:218-227 | opens the form filled in from the card and clears the message |
| App.AppState.HandleDelete | src/App.tsx:229-245 | unconfirmed: nothing changes; confirmed: the card leaves the store, then the gallery, and the form resets if it was being edited, or the delete-failed message is set |
| App.AppState.CancelEditing | src/App.tsx:247-250 | resets the form and closes it |
| App.AppState.OpenCreateForm | src/App.tsx:252-255 | resets the form and opens it empty |

## Left out

- Audio recording (`useAudioRecorder`), `resetRecording` and the recorded sound's length limit: browser media APIs. The model keeps only the sound's data URL in the form.
- `handleFileChange` and `handleAudioFileChange` read files through `FileReader` (`fileToDataUrl`), which is I/O. The model takes the resulting data URL as the form's picture or sound.
- `slugifySetName` is passed in as `slugify`; `src/flashcards/fileUtils.ts` is not part of this model.
- PWA install and update prompts (`usePwa`), `showActions`, `formRef.current.reset()` and the rendered JSX: presentation only.
- `console.error` calls: logging only.
- IndexedDB transactions, request callbacks and the upgrade event are reduced to their effect on the keyed stores. A batch `put` either applies in full or not at all. A partial batch that fails after some puts is not modelled.
- The order `getAll` returns is left open. A listing is any sequence with exactly the store's records, one per key; IndexedDB actually returns key order.
- Storage.ReadBoth: reads the cards, then the sets, so the database is opened once and one connection cached. The source starts both reads at once with `Promise.all` (storage.ts:20); on a first load neither read finds a cached connection (cardsDb.ts:16-29), so the database is opened twice, the second connection replaces the first in the cache and the first is never reused or closed.
- The sets store (`getAllSets`, `putSets`, `putSet`) is modelled by analogy with the cards store. The version of `src/db/cardsDb.ts` at hand defines only the cards store, although `storage.ts` and `App.tsx` import these functions.
- React's asynchronous state updates, re-renders and the interleaving of handlers are left out. Each handler runs to completion on the current state, and functional updates (`setCards(current => ...)`) read that state.
- `Date.now()` and `crypto.randomUUID()` become the parameters `seed`, `now` and `generatedId`. Its fallback, the clock as a string when `randomUUID` is missing, is that parameter too.
- `window.confirm` becomes the parameter `confirmed`; the confirmation text is not modelled.
- JavaScript numbers become unbounded integers. Timestamps are far below 2^53, so nothing rounds.
- DefaultData.BuildSvgCard: the SVG markup and `encodeURIComponent` are a stand-in string with the data URL prefix. Only the prefix and the parameters are kept, not the exact bytes.
- DefaultData.BuildIllustratedCard: as for `BuildSvgCard`, a stand-in with the data URL prefix.
- StorageProps.SecondLoadReturnsSame: the second load returns the same records up to order only. A listing here may come in any order, while IndexedDB lists by key. From an empty store, the first load shows the sets as numbers, shapes, colors and the second as colors, numbers, shapes.
- Removing a stored set, or the `cards` store's `keyPath` as a separate setting, are not modelled: the source never removes sets, and keys are always `id`.
