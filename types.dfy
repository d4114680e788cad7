/** Record types of the flashcard data layer (src/flashcards/types.ts) and the
    small wrapper datatypes the rest of the model shares. */
module Types {

  /** An optional value; `None` stands for a property that is absent (`undefined`) or `null`. */
  datatype Option<+T> = None | Some(value: T) {
    /** The `x ?? fallback` of the source. */
    function GetOr(fallback: T): T {
      match this
      case Some(v) => v
      case None => fallback
    }
  }

  /** Why a store operation was refused. */
  datatype StoreError =
    | StoreUnavailable   // the database could not be opened
    | WriteRejected      // a put or delete failed after the database opened

  /** The settled value of a store promise: resolved with a value or rejected with an error. */
  datatype Result<+T> = Success(value: T) | Failure(error: StoreError)

  /** One flashcard (`FlashcardData`). `createdAt` is epoch milliseconds. */
  datatype Flashcard = Flashcard(
    id: string,
    name: string,
    imageUrl: string,
    createdAt: int,
    audioUrl: Option<string>,
    setIds: Option<seq<string>>,
    backgroundColor: Option<string>)

  /** A named group of cards (`FlashcardSet`). */
  datatype FlashcardSet = FlashcardSet(id: string, name: string)

  /** The id of the synthetic set that stands for "cards in no set"; it is never stored. */
  const UncategorizedId: string := "uncategorized"

  /** A card counts as uncategorized when its `setIds` is absent or empty
      (`!card.setIds || card.setIds.length === 0`); the gallery filter asks the same with
      `(card.setIds ?? []).length === 0`. */
  predicate IsUncategorized(card: Flashcard): (b: bool)
    ensures b <==> |card.setIds.GetOr([])| == 0
  {
    card.setIds.None? || |card.setIds.value| == 0
  }

  /** The key path of both object stores is `id`. */
  function CardKey(card: Flashcard): string { card.id }

  function SetKey(s: FlashcardSet): string { s.id }

  /** The ids of a list of sets, in order (`sets.map((set) => set.id)`). */
  function SetIdList(sets: seq<FlashcardSet>): (ids: seq<string>)
    ensures |ids| == |sets|
    ensures forall i :: 0 <= i < |sets| ==> ids[i] == sets[i].id
  {
    if sets == [] then [] else [sets[0].id] + SetIdList(sets[1..])
  }
}
