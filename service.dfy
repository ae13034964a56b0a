/**
 * `CardService`: the five card operations over the store. Each starts from
 * a clean unit of work (one per request) and, when it returns, leaves it
 * clean again.
 */
module CardService {
  import opened Wrappers
  import opened Cards
  import opened Commands
  import opened Store

  /**
   * `GetAllCardsAsync`: every row of the table as a tracked card, each id
   * once. The query has no ORDER BY; the model reads the rows in ascending
   * id order, the order of a scan of the primary key.
   */
  method GetAllCards(store: CardStore) returns (cards: seq<Card>)
    requires store.Clean()
    modifies store`tracked
    ensures store.Clean()
    ensures Extends(old(store.tracked), store.tracked)
    ensures forall i, j :: 0 <= i < j < |cards| ==> cards[i].id < cards[j].id
    ensures forall i :: 0 <= i < |cards| ==>
      cards[i].id in store.tracked && store.tracked[cards[i].id] == cards[i] && cards[i].Fields() == store.rows[cards[i].id]
    ensures forall id :: id in store.rows ==> exists i :: 0 <= i < |cards| && cards[i].id == id
  {
    cards := [];
    ghost var ids: seq<int> := [];
    for id := 1 to store.nextId
      invariant store.Clean()
      invariant store.rows == old(store.rows) && store.nextId == old(store.nextId)
      invariant Extends(old(store.tracked), store.tracked)
      invariant Listed(store.rows, store.tracked, cards, ids, id)
    {
      cards, ids := ListRow(store, id, cards, ids);
    }
    forall id | id in store.rows
      ensures exists i :: 0 <= i < |cards| && cards[i].id == id
    {
      var i :| 0 <= i < |ids| && ids[i] == id;
      assert cards[i].id == id;
    }
  }

  /** The body of the listing loop: appends the card of row `id`, if there is one. */
  method ListRow(store: CardStore, id: int, cards: seq<Card>, ghost ids: seq<int>)
    returns (cards': seq<Card>, ghost ids': seq<int>)
    requires store.Clean() && Listed(store.rows, store.tracked, cards, ids, id)
    modifies store`tracked
    ensures store.Clean() && Extends(old(store.tracked), store.tracked)
    ensures Listed(store.rows, store.tracked, cards', ids', id + 1)
  {
    cards', ids' := cards, ids;
    if id in store.rows {
      ghost var before := store.tracked;
      var found := store.Find(id);
      ListedExtend(store.rows, before, store.tracked, cards, ids, id, found.value);
      cards', ids' := cards + [found.value], ids + [id];
    }
  }

  /** Every entry of `t` is still in `u`, unchanged. */
  ghost predicate Extends(t: map<int, Card>, u: map<int, Card>) {
    forall k :: k in t ==> k in u && u[k] == t[k]
  }

  /**
   * `cards` are the tracked cards of the rows with ids below `bound`, in
   * ascending order of their ids `ids`.
   */
  ghost predicate Listed(rows: map<int, CardFields>, tracked: map<int, Card>, cards: seq<Card>, ids: seq<int>, bound: int) {
    && |ids| == |cards|
    && (forall i :: 0 <= i < |cards| ==>
          ids[i] < bound && ids[i] in rows && ids[i] in tracked && tracked[ids[i]] == cards[i])
    && (forall i, j :: 0 <= i < j < |cards| ==> ids[i] < ids[j])
    && (forall k :: 1 <= k < bound && k in rows ==> k in ids)
  }

  /** One step of the listing loop: the card of row `id` is appended, or there is no such row. */
  lemma ListedExtend(rows: map<int, CardFields>, t: map<int, Card>, u: map<int, Card>,
                     cards: seq<Card>, ids: seq<int>, id: int, card: Card)
    requires Listed(rows, t, cards, ids, id) && Extends(t, u)
    requires id in rows && id in u && u[id] == card
    ensures Listed(rows, u, cards + [card], ids + [id], id + 1)
  {
  }

  /** `GetCardByIdAsync`: the card with this id, if the table has one. */
  method GetCardById(store: CardStore, id: int) returns (r: Option<Card>)
    requires store.Clean()
    modifies store`tracked
    ensures store.Clean()
    ensures r.Some? <==> id in store.rows
    ensures r.Some? ==> r.value.id == id && id in store.tracked && store.tracked[id] == r.value && r.value.Fields() == store.rows[id]
    ensures id in old(store.tracked) ==> r == Some(old(store.tracked[id])) && store.tracked == old(store.tracked)
    ensures forall k :: k in old(store.tracked) ==> k in store.tracked && store.tracked[k] == old(store.tracked[k])
    ensures fresh(store.tracked.Values - old(store.tracked.Values))
  {
    r := store.Find(id);
  }

  /**
   * `CreateCardAsync`: builds the card, inserts it and returns it with the
   * id the table gave it. A row the table refuses makes it throw.
   */
  method CreateCard(store: CardStore, command: CreateCardCommand) returns (r: Outcome<Card>)
    requires store.Clean()
    modifies store
    ensures store.Valid()
    ensures r.Returned? <==> WithinColumnBounds(CardFields(command.title, command.content, command.list))
    ensures r.Returned? ==>
      && fresh(r.value)
      && r.value.id == old(store.nextId)
      && r.value.Fields() == CardFields(command.title, command.content, command.list)
      && store.Clean()
      && store.nextId == old(store.nextId) + 1
      && store.rows == old(store.rows)[r.value.id := r.value.Fields()]
      && store.tracked == old(store.tracked)[r.value.id := r.value]
    ensures r.Threw? ==> store.rows == old(store.rows) && store.nextId == old(store.nextId)
  {
    var card := Commands.CreateCard(command);
    store.Add(card);
    store.WrittenRowsWhenUnchanged();
    var committed := store.SaveChanges();
    if committed.Rejected? {
      return Threw;
    }
    r := Returned(card);
  }

  /**
   * `UpdateCardAsync`: applies the partial update to the card with this id
   * and writes it; nothing when there is no such card. A row the table
   * refuses makes it throw.
   */
  method UpdateCard(store: CardStore, id: int, command: UpdateCardCommand) returns (r: Outcome<Option<Card>>)
    requires store.Clean()
    modifies store, store.tracked.Values
    ensures store.Valid() && store.nextId == old(store.nextId)
    ensures id !in old(store.rows) ==>
      r == Returned(None) && store.Clean() && store.rows == old(store.rows)
    ensures id in old(store.rows) ==>
      (r.Returned? <==> WithinColumnBounds(Applied(command, old(store.rows[id])))) && (r.Returned? ==> r.value.Some?)
    ensures r.Returned? && r.value.Some? ==>
      && r.value.value.id == id
      && r.value.value.Fields() == Applied(command, old(store.rows[id]))
      && store.Clean()
      && store.nextId == old(store.nextId)
      && store.rows == old(store.rows)[id := Applied(command, old(store.rows[id]))]
    ensures r.Threw? ==> store.rows == old(store.rows) && store.nextId == old(store.nextId)
  {
    var found := store.Find(id);
    if found.None? {
      return Returned(None);
    }
    var item := found.value;
    ghost var before := item.Fields();
    assert forall k :: k in store.tracked && k != id ==> store.tracked[k] != item;
    var updated := Commands.UpdateCard(command, item);
    store.WrittenRowsAfterUpdate(id, Applied(command, before));
    var committed := store.SaveChanges();
    if committed.Rejected? {
      return Threw;
    }
    r := Returned(Some(updated));
  }

  /**
   * `DeleteCardAsync`: removes the card with this id and answers whether a
   * row was deleted; false when there is no such card.
   */
  method DeleteCard(store: CardStore, id: int) returns (r: Outcome<bool>)
    requires store.Clean()
    modifies store
    ensures store.Clean()
    ensures r == Returned(id in old(store.rows))
    ensures store.rows == old(store.rows) - {id}
    ensures store.nextId == old(store.nextId)
  {
    var found := store.Find(id);
    if found.None? {
      return Returned(false);
    }
    store.Remove(found.value);
    store.WrittenRowsAfterRemove(id);
    store.RemovalCommitCount(id);
    var committed := store.SaveChanges();
    if committed.Rejected? {
      return Threw;
    }
    r := Returned(committed.affected > 0);
  }
}
