/** The gallery's filter entries (`availableSets` in src/App.tsx). */
module View {
  import opened Types
  import opened Storage

  /** The synthetic filter entry for cards that belong to no set. */
  const NoSet := FlashcardSet(UncategorizedId, "No set")

  /** `availableSets`: the sets, then "No set" exactly when some card has no set. */
  function AvailableSets(sets: seq<FlashcardSet>, cards: seq<Flashcard>): (r: seq<FlashcardSet>)
    ensures |r| == |sets| || |r| == |sets| + 1
    ensures r[..|sets|] == sets
    ensures |r| == |sets| + 1 <==> exists i :: 0 <= i < |cards| && IsUncategorized(cards[i])
    ensures |r| == |sets| + 1 ==> r[|sets|] == NoSet
  {
    sets + if HasUncategorized(cards) then [NoSet] else []
  }

  /** The filter entries' ids are the visible-set selection a load starts with. */
  lemma AvailableSetIdsAreInitialSelection(sets: seq<FlashcardSet>, cards: seq<Flashcard>)
    ensures SetIdList(AvailableSets(sets, cards)) == InitialVisibleSetIds(sets, cards)
  {
    var a := AvailableSets(sets, cards);
    var ids := InitialVisibleSetIds(sets, cards);
    forall i | 0 <= i < |a| ensures SetIdList(a)[i] == ids[i] {
      if i < |sets| {
        assert a[i] == a[..|sets|][i];
        assert ids[i] == ids[..|sets|][i];
      }
    }
  }
}
