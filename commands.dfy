/** The create and update commands and what they do to a card. */
module Commands {
  import opened Wrappers
  import opened Cards

  /** Body of POST /cards. Title and Content are declared non-nullable. */
  datatype CreateCardCommand = CreateCardCommand(title: string, content: string, list: Option<string>)

  /** Body of PUT /cards/{id}: `None` means "leave this field as it is". */
  datatype UpdateCardCommand = UpdateCardCommand(title: Option<string>, content: Option<string>, list: Option<string>)

  /** `CreateCardCommand.CreateCard`: a fresh card built from the command. */
  method CreateCard(command: CreateCardCommand) returns (card: Card)
    ensures fresh(card)
    ensures card.id == 0
    ensures card.Fields() == CardFields(command.title, command.content, command.list)
  {
    card := new Card.Create(command.title, command.content, command.list);
  }

  /** `x ?? y` of C#. */
  function Coalesce<T>(x: Option<T>, y: T): T {
    if x.Some? then x.value else y
  }

  /** The fields of a card after the partial update has been applied. */
  function Applied(command: UpdateCardCommand, f: CardFields): CardFields {
    CardFields(
      Coalesce(command.title, f.title),
      Coalesce(command.content, f.content),
      if command.list.Some? then command.list else f.list)
  }

  /**
   * `UpdateCardCommand.UpdateCard`: overwrites, in place, each field the
   * command carries, and returns the same card. The id is outside the frame.
   */
  method UpdateCard(command: UpdateCardCommand, card: Card) returns (r: Card)
    modifies card`title, card`content, card`list
    ensures r == card
    ensures card.Fields() == Applied(command, old(card.Fields()))
  {
    card.title := Coalesce(command.title, card.title);
    card.content := Coalesce(command.content, card.content);
    card.list := if command.list.Some? then command.list else card.list;
    r := card;
  }

  /** A present field overwrites, an absent one keeps the card's value. */
  lemma AppliedFieldByField(command: UpdateCardCommand, f: CardFields)
    ensures command.title.Some? ==> Applied(command, f).title == command.title.value
    ensures command.title.None? ==> Applied(command, f).title == f.title
    ensures command.content.Some? ==> Applied(command, f).content == command.content.value
    ensures command.content.None? ==> Applied(command, f).content == f.content
    ensures command.list.Some? ==> Applied(command, f).list == command.list
    ensures command.list.None? ==> Applied(command, f).list == f.list
  {
  }

  /** A command with every field absent changes nothing. */
  lemma EmptyUpdateIsIdentity(f: CardFields)
    ensures Applied(UpdateCardCommand(None, None, None), f) == f
  {
  }

  /** Applying the same command twice gives what applying it once gives. */
  lemma AppliedIdempotent(command: UpdateCardCommand, f: CardFields)
    ensures Applied(command, Applied(command, f)) == Applied(command, f)
  {
  }
}
