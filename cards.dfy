/** The card entity: a mutable object whose id the store assigns. */
module Cards {
  import opened Wrappers

  /** Column lengths of the Cards table. */
  const TitleMaxLength: nat := 100
  const ContentMaxLength: nat := 10_000
  const ListMaxLength: nat := 10_000

  /** The editable part of a card, as one value. */
  datatype CardFields = CardFields(title: string, content: string, list: Option<string>)

  /**
   * The bounds the table enforces on a row: Title and Content are required
   * (never null, which `string` already guarantees here) and at most 100 and
   * 10000 characters; List is optional and at most 10000 characters.
   */
  predicate WithinColumnBounds(f: CardFields) {
    && |f.title| <= TitleMaxLength
    && |f.content| <= ContentMaxLength
    && (f.list.Some? ==> |f.list.value| <= ListMaxLength)
  }

  class Card {
    /** Assigned by the store when the card is first committed; 0 before. */
    var id: int
    var title: string
    var content: string
    var list: Option<string>

    /** `Card.Create`: a new card carrying exactly the given values and no id yet. */
    constructor Create(title: string, content: string, list: Option<string>)
      ensures id == 0
      ensures this.title == title && this.content == content && this.list == list
    {
      id := 0;
      this.title := title;
      this.content := content;
      this.list := list;
    }

    /** The editable values; they do not depend on the id. */
    function Fields(): CardFields
      reads this`title, this`content, this`list
    {
      CardFields(title, content, list)
    }
  }
}
