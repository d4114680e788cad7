/** The pure steps of the gallery's handlers in src/App.tsx: the id-list toggles, the card
    list updates after a save or a delete, and the card form's validation and payload. */
module Form {
  import opened Types
  import opened Text
  import opened Records
  import opened DefaultData

  const NameMissingMessage: string := "Please give your card a fun name!"
  const FaceMissingMessage: string := "Add a picture or pick a background color."

  /** JavaScript truthiness of a `string | null`: null and the empty string are falsy. */
  predicate Truthy(s: Option<string>) {
    s.Some? && s.value != ""
  }

  // ---------------------------------------------------------------------------
  // Id lists (selected sets of the form, visible sets of the gallery)
  // ---------------------------------------------------------------------------

  /** `ids.filter((x) => x !== id)`: every occurrence of `id` goes, the rest keep their order. */
  function Without(ids: seq<string>, id: string): (r: seq<string>)
    ensures forall x :: x in r <==> x in ids && x != id
    ensures |r| <= |ids|
    ensures Distinct(ids) ==> Distinct(r)
  {
    if ids == [] then []
    else
      var rest := Without(ids[1..], id);
      assert Distinct(ids) ==> Distinct(ids[1..]) && ids[0] !in ids[1..];
      if ids[0] == id then rest else [ids[0]] + rest
  }

  lemma {:induction false} WithoutAppend(a: seq<string>, b: seq<string>, id: string)
    ensures Without(a + b, id) == Without(a, id) + Without(b, id)
  {
    if a == [] {
      assert a + b == b;
    } else {
      assert (a + b)[1..] == a[1..] + b;
      WithoutAppend(a[1..], b, id);
    }
  }

  lemma {:induction false} WithoutAbsent(ids: seq<string>, id: string)
    requires id !in ids
    ensures Without(ids, id) == ids
  {
    if ids != [] {
      WithoutAbsent(ids[1..], id);
    }
  }

  /** The toggle of `handleToggleSetForCard` and `toggleVisibleSet`: drop the id when it is
      present, append it otherwise. */
  function Toggle(ids: seq<string>, id: string): (r: seq<string>)
    ensures id in r <==> id !in ids
    ensures forall x :: x != id ==> (x in r <==> x in ids)
    ensures Distinct(ids) ==> Distinct(r)
  {
    if id in ids then Without(ids, id) else ids + [id]
  }

  /** Toggling twice restores an id list that lacked the id, and moves a present id to the end. */
  lemma ToggleTwice(ids: seq<string>, id: string)
    ensures id !in ids ==> Toggle(Toggle(ids, id), id) == ids
    ensures id in ids ==> Toggle(Toggle(ids, id), id) == Without(ids, id) + [id]
  {
    if id !in ids {
      WithoutAppend(ids, [id], id);
      WithoutAbsent(ids, id);
      assert Without([id], id) == [];
    }
  }

  /** `current.includes(id) ? current : [...current, id]`, the selection update of
      `handleAddSet` for a set that already exists. */
  function AddOnce(ids: seq<string>, id: string): (r: seq<string>)
    ensures forall x :: x in r <==> x in ids || x == id
    ensures |ids| <= |r| <= |ids| + 1 && r[..|ids|] == ids
    ensures Distinct(ids) ==> Distinct(r)
  {
    if id in ids then ids else ids + [id]
  }

  // ---------------------------------------------------------------------------
  // Card lists
  // ---------------------------------------------------------------------------

  /** `cards.find((card) => card.id === id)`: the first card with that id. */
  function FindById(cards: seq<Flashcard>, id: string): (r: Option<Flashcard>)
    ensures r.None? <==> forall i :: 0 <= i < |cards| ==> cards[i].id != id
    ensures r.Some? ==> exists i :: 0 <= i < |cards| && cards[i] == r.value && r.value.id == id &&
                                    forall j :: 0 <= j < i ==> cards[j].id != id
  {
    if cards == [] then None
    else if cards[0].id == id then Some(cards[0])
    else
      var r := FindById(cards[1..], id);
      assert r.Some? ==> exists i :: 0 <= i < |cards[1..]| && cards[1..][i] == r.value && r.value.id == id &&
                                     forall j :: 0 <= j < i ==> cards[1..][j].id != id;
      assert forall i :: 1 <= i < |cards| ==> cards[i] == cards[1..][i - 1];
      r
  }

  /** `cards.map((card) => (card.id === id ? p : card))`: every card with that id becomes `p`,
      the others stay where they are. */
  function ReplaceById(cards: seq<Flashcard>, id: string, p: Flashcard): (r: seq<Flashcard>)
    ensures |r| == |cards|
    ensures forall i :: 0 <= i < |r| ==> r[i] == if cards[i].id == id then p else cards[i]
  {
    if cards == [] then []
    else [if cards[0].id == id then p else cards[0]] + ReplaceById(cards[1..], id, p)
  }

  /** A lookup of the replacement's own id after the replacement finds the replacement. */
  lemma ReplaceThenFind(cards: seq<Flashcard>, p: Flashcard)
    requires FindById(cards, p.id).Some?
    ensures FindById(ReplaceById(cards, p.id, p), p.id) == Some(p)
  {
    var r := ReplaceById(cards, p.id, p);
    var i :| 0 <= i < |cards| && cards[i].id == p.id;
    assert r[i].id == p.id;
    var found := FindById(r, p.id);
    assert found.Some?;
    var k :| 0 <= k < |r| && r[k] == found.value && found.value.id == p.id;
    assert r[k].id == cards[k].id;
    assert cards[k].id == p.id;
    assert r[k] == p;
    assert found == Some(found.value);
  }

  /** `cards.filter((card) => card.id !== id)`. */
  function RemoveById(cards: seq<Flashcard>, id: string): (r: seq<Flashcard>)
    ensures forall c :: c in r <==> c in cards && c.id != id
    ensures |r| <= |cards|
  {
    if cards == [] then []
    else (if cards[0].id == id then [] else [cards[0]]) + RemoveById(cards[1..], id)
  }

  /** The filter keeps the remaining cards in their order: it distributes over concatenation. */
  lemma {:induction false} RemoveByIdAppend(a: seq<Flashcard>, b: seq<Flashcard>, id: string)
    ensures RemoveById(a + b, id) == RemoveById(a, id) + RemoveById(b, id)
  {
    if a == [] {
      assert a + b == b;
    } else {
      assert (a + b)[1..] == a[1..] + b;
      RemoveByIdAppend(a[1..], b, id);
    }
  }

  /** The filter keeps every other card as often as it occurs and drops every card with that id. */
  lemma {:induction false} RemoveByIdCounts(cards: seq<Flashcard>, id: string)
    ensures forall c :: multiset(RemoveById(cards, id))[c] == if c.id == id then 0 else multiset(cards)[c]
  {
    if cards != [] {
      RemoveByIdCounts(cards[1..], id);
      assert cards == [cards[0]] + cards[1..];
    }
  }

  // ---------------------------------------------------------------------------
  // The card form
  // ---------------------------------------------------------------------------

  /** The card form's fields: the card being edited, its name, picture, sets, background
      colour and recorded sound. */
  datatype FormState = FormState(editingId: Option<string>, name: string, imageData: Option<string>,
                                 selectedSetIds: seq<string>, backgroundColor: string,
                                 audioDataUrl: Option<string>)

  /** The form `resetForm` leaves. */
  const EmptyForm := FormState(None, "", None, [], "", None)

  /** The form `handleEdit` fills in from a card: it edits that card, shows its name, picture
      and sound, selects its sets, none for an uncategorized card, and shows its background
      colour, blank when it has none. */
  function EditForm(card: Flashcard): (f: FormState)
    ensures f.editingId == Some(card.id) && f.name == card.name
    ensures f.imageData == Some(card.imageUrl) && f.audioDataUrl == card.audioUrl
    ensures f.selectedSetIds == [] <==> IsUncategorized(card)
    ensures card.setIds.Some? ==> f.selectedSetIds == card.setIds.value
    ensures IsBlank(f.backgroundColor) <==> card.backgroundColor.None? || IsBlank(card.backgroundColor.value)
  {
    FormState(Some(card.id), card.name, Some(card.imageUrl), card.setIds.GetOr([]),
              card.backgroundColor.GetOr(""), card.audioUrl)
  }

  /** The first check of `handleSubmit` the form fails: a name is needed, then a picture or
      a background colour. */
  function SubmitError(f: FormState): (r: Option<string>)
    ensures r == Some(NameMissingMessage) <==> IsBlank(f.name)
    ensures r == Some(FaceMissingMessage) <==> !IsBlank(f.name) && !Truthy(f.imageData) && IsBlank(f.backgroundColor)
    ensures r.None? <==> !IsBlank(f.name) && (Truthy(f.imageData) || !IsBlank(f.backgroundColor))
  {
    TrimEmptyIffBlank(f.name);
    TrimEmptyIffBlank(f.backgroundColor);
    if Trim(f.name) == [] then Some(NameMissingMessage)
    else if !Truthy(f.imageData) && Trim(f.backgroundColor) == [] then Some(FaceMissingMessage)
    else None
  }

  /** The card `handleSubmit` saves. `generatedId` stands for the fresh id of a new card
      and `now` for the clock. */
  function SubmitPayload(cards: seq<Flashcard>, f: FormState, generatedId: string, now: int): (p: Flashcard)
    ensures p.id == (if f.editingId.Some? then f.editingId.value else generatedId)
    ensures p.name == Trim(f.name) && p.imageUrl == f.imageData.GetOr("")
    ensures Truthy(f.editingId) && FindById(cards, f.editingId.value).Some? ==>
      p.createdAt == FindById(cards, f.editingId.value).value.createdAt
    ensures !(Truthy(f.editingId) && FindById(cards, f.editingId.value).Some?) ==> p.createdAt == now
    ensures p.audioUrl == f.audioDataUrl && p.setIds == Some(f.selectedSetIds)
    ensures p.backgroundColor.None? <==> IsBlank(f.backgroundColor)
    ensures p.backgroundColor.Some? ==> p.backgroundColor.value == Trim(f.backgroundColor)
  {
    TrimEmptyIffBlank(f.backgroundColor);
    var existing := if Truthy(f.editingId) then FindById(cards, f.editingId.value) else None;
    var background := Trim(f.backgroundColor);
    Flashcard(f.editingId.GetOr(generatedId), Trim(f.name), f.imageData.GetOr(""),
              if Truthy(f.editingId) && existing.Some? then existing.value.createdAt else now,
              f.audioDataUrl, Some(f.selectedSetIds),
              if background == "" then None else Some(background))
  }

  /** A card in the form the form saves: a trimmed name, its set list present, and a
      background colour that is absent or trimmed and not blank. */
  predicate Canonical(c: Flashcard) {
    && Trim(c.name) == c.name
    && c.setIds.Some?
    && (c.backgroundColor.Some? ==> !IsBlank(c.backgroundColor.value) && Trim(c.backgroundColor.value) == c.backgroundColor.value)
  }

  /** A card the form saves is canonical. */
  lemma SavedCardIsCanonical(cards: seq<Flashcard>, f: FormState, generatedId: string, now: int)
    ensures Canonical(SubmitPayload(cards, f, generatedId, now))
  {
    var p := SubmitPayload(cards, f, generatedId, now);
    TrimIdempotent(f.name);
    if p.backgroundColor.Some? {
      TrimEmptyIffBlank(f.backgroundColor);
      TrimEmptyIffBlank(Trim(f.backgroundColor));
      TrimIdempotent(f.backgroundColor);
      assert !IsBlank(p.backgroundColor.value);
    }
  }

  /** Opening a card the form saved for editing gives a form that passes validation again. */
  lemma SavedCardReopens(cards: seq<Flashcard>, f: FormState, generatedId: string, now: int)
    requires SubmitError(f).None?
    ensures SubmitError(EditForm(SubmitPayload(cards, f, generatedId, now))).None?
  {
    var p := SubmitPayload(cards, f, generatedId, now);
    var g := EditForm(p);
    TrimEmptyIffBlank(f.name);
    TrimEmptyIffBlank(Trim(f.name));
    assert !IsBlank(g.name);
    if Truthy(f.imageData) {
      assert Truthy(g.imageData);
    } else {
      TrimEmptyIffBlank(f.backgroundColor);
      TrimEmptyIffBlank(Trim(f.backgroundColor));
      assert p.backgroundColor.Some?;
      assert !IsBlank(g.backgroundColor);
    }
  }

  /** Opening a canonical card for editing and saving it unchanged writes back that very
      card, as long as it is the first card with its id and its id is not empty. */
  lemma EditRoundTrip(cards: seq<Flashcard>, c: Flashcard, generatedId: string, now: int)
    requires Canonical(c) && c.id != "" && FindById(cards, c.id) == Some(c)
    ensures SubmitPayload(cards, EditForm(c), generatedId, now) == c
  {
    var f := EditForm(c);
    var p := SubmitPayload(cards, f, generatedId, now);
    assert p.id == c.id;
    assert p.name == c.name;
    assert p.imageUrl == c.imageUrl;
    assert Truthy(f.editingId);
    assert p.createdAt == c.createdAt;
    assert p.audioUrl == c.audioUrl;
    assert p.setIds == c.setIds;
    if c.backgroundColor.None? {
      assert f.backgroundColor == "";
      assert IsBlank(f.backgroundColor);
      assert p.backgroundColor == c.backgroundColor;
    } else {
      assert f.backgroundColor == c.backgroundColor.value;
      assert p.backgroundColor == c.backgroundColor;
    }
  }

  /** Every starter card passes the form's validation when it is opened for editing. */
  lemma DefaultCardsPassValidation(seed: int)
    ensures forall i :: 0 <= i < 31 ==> SubmitError(EditForm(DefaultCards(seed)[i])).None?
  {
    DefaultCardsHaveNameAndFace(seed);
  }
}
