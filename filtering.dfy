/** The cards the gallery shows (`filteredCards` in src/App.tsx): the cards of the selected
    sets, newest first, by a stable sort. */
module Filtering {
  import opened Types

  /** `ids.some((id) => visible.includes(id))`. */
  predicate AnySelected(ids: seq<string>, visible: seq<string>) {
    ids != [] && (ids[0] in visible || AnySelected(ids[1..], visible))
  }

  /** `AnySelected` holds exactly when some id of the list is selected. */
  lemma {:induction false} AnySelectedMeans(ids: seq<string>, visible: seq<string>)
    ensures AnySelected(ids, visible) <==> exists i :: 0 <= i < |ids| && ids[i] in visible
  {
    if ids != [] {
      AnySelectedMeans(ids[1..], visible);
      if !(ids[0] in visible) && exists i :: 0 <= i < |ids| && ids[i] in visible {
        var i :| 0 <= i < |ids| && ids[i] in visible;
        assert ids[1..][i - 1] in visible;
      }
    }
  }

  /** The filter predicate of `filteredCards`: a card with no set is shown when "No set" is
      selected, any other card when one of its sets is selected. */
  predicate IsShown(card: Flashcard, visible: seq<string>): (b: bool)
    ensures IsUncategorized(card) ==> (b <==> UncategorizedId in visible)
    ensures !IsUncategorized(card) ==>
      (b <==> exists i :: 0 <= i < |card.setIds.value| && card.setIds.value[i] in visible)
  {
    var cardSets := card.setIds.GetOr([]);
    AnySelectedMeans(cardSets, visible);
    if |cardSets| == 0 then UncategorizedId in visible else AnySelected(cardSets, visible)
  }

  /** Newest first: `createdAt` never increases along the list. */
  predicate SortedByRecency(cards: seq<Flashcard>) {
    forall i, j :: 0 <= i < j < |cards| ==> cards[i].createdAt >= cards[j].createdAt
  }

  /** Places `x` before the first card that is not newer, so that it stays ahead of the
      cards that were after it in the input and share its time. */
  function InsertByRecency(x: Flashcard, s: seq<Flashcard>): (r: seq<Flashcard>)
    ensures |r| == |s| + 1
    ensures r[0] == if s == [] || s[0].createdAt <= x.createdAt then x else s[0]
  {
    if s == [] || s[0].createdAt <= x.createdAt then [x] + s
    else [s[0]] + InsertByRecency(x, s[1..])
  }

  /** Inserting adds exactly `x`. */
  lemma {:induction false} InsertCounts(x: Flashcard, s: seq<Flashcard>)
    ensures multiset(InsertByRecency(x, s)) == multiset(s) + multiset{x}
  {
    if s != [] && s[0].createdAt > x.createdAt {
      InsertCounts(x, s[1..]);
      assert s == [s[0]] + s[1..];
    }
  }

  /** Inserting into a newest-first list leaves a newest-first list. */
  lemma {:induction false} InsertKeepsOrder(x: Flashcard, s: seq<Flashcard>)
    requires SortedByRecency(s)
    ensures SortedByRecency(InsertByRecency(x, s))
  {
    if s != [] && s[0].createdAt > x.createdAt {
      var rest := InsertByRecency(x, s[1..]);
      InsertKeepsOrder(x, s[1..]);
      assert forall j :: 0 <= j < |rest| ==> rest[j].createdAt <= rest[0].createdAt <= s[0].createdAt;
    }
  }

  /** The stable sort `[...cards].sort((a, b) => b.createdAt - a.createdAt)`. */
  function SortByRecency(cards: seq<Flashcard>): (r: seq<Flashcard>)
    ensures |r| == |cards|
    ensures SortedByRecency(r)
    ensures multiset(r) == multiset(cards)
  {
    if cards == [] then []
    else
      assert cards == [cards[0]] + cards[1..];
      InsertKeepsOrder(cards[0], SortByRecency(cards[1..]));
      InsertCounts(cards[0], SortByRecency(cards[1..]));
      InsertByRecency(cards[0], SortByRecency(cards[1..]))
  }

  /** The cards created at time `t`, in list order. */
  function WithCreatedAt(cards: seq<Flashcard>, t: int): seq<Flashcard> {
    if cards == [] then []
    else (if cards[0].createdAt == t then [cards[0]] else []) + WithCreatedAt(cards[1..], t)
  }

  /** Inserting adds `x` in front of the cards that share its time. */
  lemma {:induction false} InsertStable(x: Flashcard, s: seq<Flashcard>, t: int)
    ensures WithCreatedAt(InsertByRecency(x, s), t)
         == (if x.createdAt == t then [x] else []) + WithCreatedAt(s, t)
  {
    var r := InsertByRecency(x, s);
    var xPart := if x.createdAt == t then [x] else [];
    if s == [] || s[0].createdAt <= x.createdAt {
      assert r == [x] + s && r[0] == x && r[1..] == s;
      assert WithCreatedAt(r, t) == xPart + WithCreatedAt(s, t);
    } else {
      var s1 := s[1..];
      var s0Part := if s[0].createdAt == t then [s[0]] else [];
      assert r[0] == s[0] && r[1..] == InsertByRecency(x, s1);
      InsertStable(x, s1, t);
      assert WithCreatedAt(r, t) == s0Part + (xPart + WithCreatedAt(s1, t));
      assert WithCreatedAt(s, t) == s0Part + WithCreatedAt(s1, t);
      if x.createdAt == t {
        assert s0Part == [];
      } else {
        assert xPart == [];
      }
    }
  }

  /** The sort is stable: the cards that share a time keep their input order. */
  lemma {:induction false} SortStable(cards: seq<Flashcard>, t: int)
    ensures WithCreatedAt(SortByRecency(cards), t) == WithCreatedAt(cards, t)
  {
    if cards != [] {
      SortStable(cards[1..], t);
      InsertStable(cards[0], SortByRecency(cards[1..]), t);
    }
  }

  /** The cards that pass `IsShown`, in list order. */
  function ShownOnly(cards: seq<Flashcard>, visible: seq<string>): (r: seq<Flashcard>)
    ensures |r| <= |cards|
    ensures forall i :: 0 <= i < |r| ==> IsShown(r[i], visible)
  {
    if cards == [] then []
    else (if IsShown(cards[0], visible) then [cards[0]] else []) + ShownOnly(cards[1..], visible)
  }

  /** Filtering keeps every shown card as often as it occurs, and no other card. */
  lemma {:induction false} ShownOnlyCounts(cards: seq<Flashcard>, visible: seq<string>)
    ensures forall c :: multiset(ShownOnly(cards, visible))[c] == if IsShown(c, visible) then multiset(cards)[c] else 0
  {
    if cards != [] {
      ShownOnlyCounts(cards[1..], visible);
      assert cards == [cards[0]] + cards[1..];
    }
  }

  /** Filtering keeps only cards of the list. */
  lemma {:induction false} ShownOnlyFromList(cards: seq<Flashcard>, visible: seq<string>)
    ensures forall i :: 0 <= i < |ShownOnly(cards, visible)| ==> ShownOnly(cards, visible)[i] in cards
  {
    if cards != [] {
      ShownOnlyFromList(cards[1..], visible);
      var rest := ShownOnly(cards[1..], visible);
      assert forall i :: 0 <= i < |rest| ==> rest[i] in cards[1..];
    }
  }

  /** Filtering a newest-first list leaves a newest-first list. */
  lemma {:induction false} ShownOnlyKeepsOrder(cards: seq<Flashcard>, visible: seq<string>)
    requires SortedByRecency(cards)
    ensures SortedByRecency(ShownOnly(cards, visible))
  {
    if cards != [] {
      var rest := ShownOnly(cards[1..], visible);
      ShownOnlyKeepsOrder(cards[1..], visible);
      ShownOnlyFromList(cards[1..], visible);
      forall j | 0 <= j < |rest| ensures rest[j].createdAt <= cards[0].createdAt {
        assert rest[j] in cards[1..];
      }
    }
  }

  /** Filtering keeps a newest-first list's first shown card at its head. */
  lemma ShownHeadOfSorted(s: seq<Flashcard>, visible: seq<string>)
    requires SortedByRecency(s) && ShownOnly(s, visible) != []
    ensures s != [] && ShownOnly(s, visible)[0].createdAt <= s[0].createdAt
  {
    ShownOnlyFromList(s, visible);
    assert ShownOnly(s, visible)[0] in s;
  }

  /** `ShownOnlyInsert` when `x` goes to the front. */
  lemma ShownOnlyInsertFront(x: Flashcard, s: seq<Flashcard>, visible: seq<string>)
    requires SortedByRecency(s) && (s == [] || s[0].createdAt <= x.createdAt)
    ensures ShownOnly(InsertByRecency(x, s), visible)
         == if IsShown(x, visible) then InsertByRecency(x, ShownOnly(s, visible)) else ShownOnly(s, visible)
  {
    var r := InsertByRecency(x, s);
    var f := ShownOnly(s, visible);
    var head := if IsShown(x, visible) then [x] else [];
    assert r == [x] + s && r[1..] == s;
    assert ShownOnly(r, visible) == head + f;
    if IsShown(x, visible) {
      if f != [] {
        ShownHeadOfSorted(s, visible);
      }
      assert InsertByRecency(x, f) == [x] + f;
      assert ShownOnly(r, visible) == InsertByRecency(x, f);
    } else {
      assert ShownOnly(r, visible) == f;
    }
  }

  /** Filtering an insertion is inserting into the filtered list, or nothing when the
      inserted card is not shown. */
  lemma {:induction false} ShownOnlyInsert(x: Flashcard, s: seq<Flashcard>, visible: seq<string>)
    requires SortedByRecency(s)
    ensures ShownOnly(InsertByRecency(x, s), visible)
         == if IsShown(x, visible) then InsertByRecency(x, ShownOnly(s, visible)) else ShownOnly(s, visible)
  {
    if s == [] || s[0].createdAt <= x.createdAt {
      ShownOnlyInsertFront(x, s, visible);
    } else {
      assert SortedByRecency(s[1..]);
      ShownOnlyInsert(x, s[1..], visible);
      if IsShown(x, visible) {
        ShownOnlyInsertBehind(x, s, visible);
      } else {
        HiddenInsertBehind(x, s, visible);
      }
    }
  }

  /** `ShownOnlyInsert` for a shown `x` that goes behind the head, given that it holds for
      the tail. */
  lemma ShownOnlyInsertBehind(x: Flashcard, s: seq<Flashcard>, visible: seq<string>)
    requires IsShown(x, visible) && s != [] && s[0].createdAt > x.createdAt
    requires ShownOnly(InsertByRecency(x, s[1..]), visible) == InsertByRecency(x, ShownOnly(s[1..], visible))
    ensures ShownOnly(InsertByRecency(x, s), visible) == InsertByRecency(x, ShownOnly(s, visible))
  {
    var r := InsertByRecency(x, s);
    var f := ShownOnly(s, visible);
    var s1 := s[1..];
    var f1 := ShownOnly(s1, visible);
    var g := InsertByRecency(x, f1);
    assert r[0] == s[0] && r[1..] == InsertByRecency(x, s1);
    if IsShown(s[0], visible) {
      assert ShownOnly(r, visible) == [s[0]] + g;
      assert f[0] == s[0] && f[1..] == f1;
      assert InsertByRecency(x, f) == [s[0]] + g;
    } else {
      assert ShownOnly(r, visible) == g;
      assert f == f1;
    }
  }

  /** `ShownOnlyInsert` for a hidden `x` that goes behind the head, given that it holds for
      the tail. */
  lemma HiddenInsertBehind(x: Flashcard, s: seq<Flashcard>, visible: seq<string>)
    requires !IsShown(x, visible) && s != [] && s[0].createdAt > x.createdAt
    requires ShownOnly(InsertByRecency(x, s[1..]), visible) == ShownOnly(s[1..], visible)
    ensures ShownOnly(InsertByRecency(x, s), visible) == ShownOnly(s, visible)
  {
    var r := InsertByRecency(x, s);
    assert r[0] == s[0] && r[1..] == InsertByRecency(x, s[1..]);
  }

  /** Sorting then filtering is filtering then sorting. */
  lemma {:induction false} ShownOnlySorted(cards: seq<Flashcard>, visible: seq<string>)
    ensures ShownOnly(SortByRecency(cards), visible) == SortByRecency(ShownOnly(cards, visible))
  {
    if cards != [] {
      var rest := cards[1..];
      var sortedRest := SortByRecency(rest);
      ShownOnlySorted(rest, visible);
      ShownOnlyInsert(cards[0], sortedRest, visible);
      assert SortByRecency(cards) == InsertByRecency(cards[0], sortedRest);
      var f := ShownOnly(cards, visible);
      var f1 := ShownOnly(rest, visible);
      if IsShown(cards[0], visible) {
        assert f == [cards[0]] + f1 && f[0] == cards[0] && f[1..] == f1;
        assert SortByRecency(f) == InsertByRecency(cards[0], SortByRecency(f1));
      } else {
        assert f == f1;
      }
    }
  }

  /** Nothing is shown when no set is selected. */
  lemma NothingShownWithoutSelection(cards: seq<Flashcard>)
    ensures ShownOnly(cards, []) == []
  {
    var r := ShownOnly(cards, []);
    if r != [] {
      AnySelectedMeans(r[0].setIds.GetOr([]), []);
    }
  }

  /** `filteredCards`: with no set selected, nothing; otherwise the shown cards, newest first,
      cards of the same time in their input order. */
  function FilteredCards(cards: seq<Flashcard>, visible: seq<string>): (r: seq<Flashcard>)
    ensures |visible| == 0 ==> r == []
    ensures forall c :: multiset(r)[c] == if IsShown(c, visible) then multiset(cards)[c] else 0
    ensures SortedByRecency(r)
    ensures r == SortByRecency(ShownOnly(cards, visible))
    ensures forall t :: WithCreatedAt(r, t) == WithCreatedAt(ShownOnly(cards, visible), t)
  {
    NothingShownWithoutSelection(cards);
    ShownOnlyCounts(cards, visible);
    ShownOnlySorted(cards, visible);
    SortStableAll(ShownOnly(cards, visible));
    if |visible| == 0 then []
    else ShownOnly(SortByRecency(cards), visible)
  }

  lemma SortStableAll(cards: seq<Flashcard>)
    ensures forall t :: WithCreatedAt(SortByRecency(cards), t) == WithCreatedAt(cards, t)
  {
    forall t ensures WithCreatedAt(SortByRecency(cards), t) == WithCreatedAt(cards, t) {
      SortStable(cards, t);
    }
  }
}
