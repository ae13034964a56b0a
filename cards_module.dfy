/**
 * `CardsModule`: the five `/cards` endpoints. Each handler maps what the
 * service answers to an HTTP result; each route runs its endpoint filters
 * around its handler in the order they are added.
 */
module CardsModule {
  import opened Wrappers
  import opened Text
  import opened Cards
  import opened Commands
  import opened Validators
  import opened Store
  import opened CardService
  import opened Http
  import opened ValidationFilter
  import opened ChangeTracker

  // ---------------------------------------------------------------------
  // Handlers: service answer to HTTP result
  // ---------------------------------------------------------------------

  /** The cards as they are serialized, in order. */
  function Views(cards: seq<Card>): (vs: seq<CardView>)
    reads set i | 0 <= i < |cards| :: cards[i]
    ensures |vs| == |cards|
    ensures forall i :: 0 <= i < |cards| ==> vs[i] == CardView(cards[i].id, cards[i].Fields())
  {
    if cards == [] then []
    else Views(cards[..|cards| - 1]) + [View(cards[|cards| - 1])]
  }

  /** `GetAllCards`: the list when there is any card, otherwise an empty response. */
  function AllCardsResult(views: seq<CardView>): (r: HttpResult)
    ensures views != [] ==> r == Ok(CardsBody(views))
    ensures views == [] ==> r == EmptyResult
    ensures StatusCode(r) == 200
  {
    if |views| > 0 then Ok(CardsBody(views)) else EmptyResult
  }

  /** `GetCardById` and `UpdateCard`: the card, or 404 when the service found none. */
  function FoundResult(card: Option<CardView>): (r: HttpResult)
    ensures card.Some? ==> r == Ok(CardBody(card.value)) && StatusCode(r) == 200
    ensures card.None? ==> r == NotFound && StatusCode(r) == 404
  {
    match card
    case None => NotFound
    case Some(view) => Ok(CardBody(view))
  }

  /** `CreateCard`: always the created card. */
  function CreatedResult(card: CardView): (r: HttpResult)
    ensures r.Ok? && r.body == CardBody(card) && StatusCode(r) == 200
  {
    Ok(CardBody(card))
  }

  /** `DeleteCard`: 200 without a body when a row was deleted, otherwise 404. */
  function DeletedResult(hasChange: bool): (r: HttpResult)
    ensures hasChange <==> r == OkNoBody
    ensures !hasChange <==> r == NotFound
    ensures StatusCode(r) == (if hasChange then 200 else 404)
  {
    if hasChange then OkNoBody else NotFound
  }

  /** The list the client receives is exactly the stored cards, ordered by id. */
  ghost predicate ListsRows(views: seq<CardView>, rows: map<int, CardFields>) {
    && (forall i, j :: 0 <= i < j < |views| ==> views[i].id < views[j].id)
    && (forall i :: 0 <= i < |views| ==> views[i].id in rows && views[i].fields == rows[views[i].id])
    && (forall id :: id in rows ==> exists i :: 0 <= i < |views| && views[i].id == id)
  }

  /** Such a list is empty exactly when the table is. */
  lemma ListsRowsEmpty(views: seq<CardView>, rows: map<int, CardFields>)
    requires ListsRows(views, rows)
    ensures views == [] <==> rows == map[]
  {
    if views != [] {
      assert views[0].id in rows;
    }
    if views == [] {
      assert forall id :: id !in rows;
      assert rows.Keys == {};
    }
  }

  /** Two lists of the same table are the same list. */
  lemma {:induction false} ListsRowsUnique(a: seq<CardView>, b: seq<CardView>, rows: map<int, CardFields>)
    requires ListsRows(a, rows) && ListsRows(b, rows)
    ensures a == b
    decreases |a|
  {
    ListsRowsEmpty(a, rows);
    ListsRowsEmpty(b, rows);
    if a != [] {
      var x, y := a[|a| - 1], b[|b| - 1];
      LastIsGreatest(a, rows);
      LastIsGreatest(b, rows);
      assert x == y;
      ListsRowsInit(a, rows);
      ListsRowsInit(b, rows);
      ListsRowsUnique(a[..|a| - 1], b[..|b| - 1], rows - {x.id});
      assert a == a[..|a| - 1] + [x];
      assert b == b[..|b| - 1] + [y];
    }
  }

  /** The last card of such a list has the greatest id of the table. */
  lemma LastIsGreatest(views: seq<CardView>, rows: map<int, CardFields>)
    requires ListsRows(views, rows) && views != []
    ensures views[|views| - 1].id in rows
    ensures forall id :: id in rows ==> id <= views[|views| - 1].id
  {
    forall id | id in rows
      ensures id <= views[|views| - 1].id
    {
      var i :| 0 <= i < |views| && views[i].id == id;
      if i < |views| - 1 {
        assert views[i].id < views[|views| - 1].id;
      }
    }
  }

  /** Dropping the last card of a list leaves a list of the other rows. */
  lemma ListsRowsInit(views: seq<CardView>, rows: map<int, CardFields>)
    requires ListsRows(views, rows) && views != []
    ensures ListsRows(views[..|views| - 1], rows - {views[|views| - 1].id})
  {
    var last := views[|views| - 1];
    var init := views[..|views| - 1];
    forall id | id in rows - {last.id}
      ensures exists i :: 0 <= i < |init| && init[i].id == id
    {
      var i :| 0 <= i < |views| && views[i].id == id;
      assert i < |views| - 1 && init[i].id == id;
    }
  }

  // ---------------------------------------------------------------------
  // Routes: filters around handlers
  // ---------------------------------------------------------------------

  /** GET /cards: every stored card in id order, or an empty 200 when there is none. */
  method GetAllCardsRoute(store: CardStore) returns (r: HttpResult)
    requires store.Clean()
    modifies store`tracked
    ensures store.Clean()
    ensures store.rows == map[] ==> r == EmptyResult
    ensures store.rows != map[] ==> r.Ok? && r.body.CardsBody? && ListsRows(r.body.cards, store.rows)
    ensures StatusCode(r) == 200
  {
    var cards := GetAllCards(store);
    var views := Views(cards);
    assert ListsRows(views, store.rows);
    ListsRowsEmpty(views, store.rows);
    r := AllCardsResult(views);
  }

  /** GET /cards/{id}: the stored card, or 404. */
  method GetCardByIdRoute(store: CardStore, id: Int32) returns (r: HttpResult)
    requires store.Clean()
    modifies store`tracked
    ensures store.Clean()
    ensures id in store.rows ==> r == Ok(CardBody(CardView(id, store.rows[id])))
    ensures id !in store.rows ==> r == NotFound
  {
    var item := GetCardById(store, id);
    var view := if item.Some? then Some(View(item.value)) else None;
    r := FoundResult(view);
  }

  /** The handler arguments of PUT /cards/{id}, in parameter order. */
  function UpdateArguments(id: int, command: UpdateCardCommand): seq<Argument> {
    [ServiceArgument, RouteArgument(id), UpdateArgument(command), CancellationArgument]
  }

  /** The handler arguments of POST /cards, in parameter order. */
  function CreateArguments(command: CreateCardCommand): seq<Argument> {
    [ServiceArgument, CreateArgument(command), CancellationArgument]
  }

  /** The validation filter finds the command among each route's arguments. */
  lemma RequestsFound(id: int, update: UpdateCardCommand, create: CreateCardCommand)
    ensures ExtractRequest(UpdateArguments(id, update), UpdateRequest) == Some(UpdateArgument(update))
    ensures ExtractRequest(CreateArguments(create), CreateRequest) == Some(CreateArgument(create))
  {
    var u := UpdateArguments(id, update);
    assert u[1..][1..] == u[2..];
    assert ExtractRequest(u[2..], UpdateRequest) == Some(UpdateArgument(update));
    assert ExtractRequest(u[1..], UpdateRequest) == Some(UpdateArgument(update));
    var c := CreateArguments(create);
    assert c[1..][0] == CreateArgument(create);
  }

  /**
   * PUT /cards/{id}: the change tracker runs first, so a missing card is a
   * 404 whatever the body; then the validation filter, then the handler.
   * The audit line carries the title from before the update.
   */
  method UpdateCardRoute(store: CardStore, log: AuditLog, routeValue: string, command: UpdateCardCommand, now: int)
    returns (r: HttpResult)
    requires store.Clean() && ParseInt32(routeValue).Some?
    modifies store, store.tracked.Values, log
    ensures store.Valid() && store.nextId == old(store.nextId)
    ensures var id := ParseInt32(routeValue).value;
      id !in old(store.rows) ==>
        r == NotFound && store.rows == old(store.rows) && log.lines == old(log.lines)
    ensures var id := ParseInt32(routeValue).value;
      id in old(store.rows) ==>
        && log.lines == old(log.lines) + [AuditLine(now, id, old(store.rows[id]).title, UpdateAction)]
        && Updated(old(store.rows), store.rows, id, command, r)
    ensures StatusCode(r) != 500
  {
    var id := ParseInt32(routeValue).value;
    var tracker := ChangeTracker.InvokeAsync(store, log, Put, Some(routeValue), now);
    if tracker.ShortCircuit? {
      return tracker.result;
    }
    r := ValidatedUpdate(store, id, command);
  }

  /**
   * What PUT does to a card that exists: an invalid command is answered
   * with its grouped failures and changes nothing; a valid one is applied
   * and the updated card returned.
   */
  ghost predicate Updated(before: map<int, CardFields>, after: map<int, CardFields>, id: int,
                          command: UpdateCardCommand, r: HttpResult)
    requires id in before
  {
    && (ValidateUpdate(command) != [] ==>
          r == ValidationProblem(Grouped(ValidateUpdate(command))) && after == before)
    && (ValidateUpdate(command) == [] ==>
          r == Ok(CardBody(CardView(id, Applied(command, before[id])))) && after == before[id := Applied(command, before[id])])
  }

  /** The validation filter of PUT on the route's arguments: it judges the body. */
  method UpdateValidation(id: int, command: UpdateCardCommand) returns (step: FilterStep)
    ensures ValidateUpdate(command) == [] ==> step == Next
    ensures ValidateUpdate(command) != [] ==> step == ShortCircuit(ValidationProblem(Grouped(ValidateUpdate(command))))
  {
    RequestsFound(id, command, CreateCardCommand("", "", None));
    step := Gate(UpdateArguments(id, command), UpdateRequest);
  }

  /** The validation filter of POST on the route's arguments: it judges the body. */
  method CreateValidation(command: CreateCardCommand) returns (step: FilterStep)
    ensures ValidateCreate(command) == [] ==> step == Next
    ensures ValidateCreate(command) != [] ==> step == ShortCircuit(ValidationProblem(Grouped(ValidateCreate(command))))
  {
    RequestsFound(0, UpdateCardCommand(None, None, None), command);
    step := Gate(CreateArguments(command), CreateRequest);
  }

  /** The validation filter and the handler of PUT, for a card that exists. */
  method ValidatedUpdate(store: CardStore, id: int, command: UpdateCardCommand) returns (r: HttpResult)
    requires store.Clean() && id in store.rows
    modifies store, store.tracked.Values
    ensures store.Valid() && store.nextId == old(store.nextId)
    ensures Updated(old(store.rows), store.rows, id, command, r)
    ensures StatusCode(r) != 500
  {
    var gate := UpdateValidation(id, command);
    if gate.ShortCircuit? {
      return gate.result;
    }
    ValidUpdateFitsColumns(command, store.rows[id]);
    var handled := UpdateCardHandler(store, id, command);
    r := Finish(handled);
  }

  /**
   * The `UpdateCard` handler: the updated card, 404 when the service finds
   * none; an exception from the service passes through.
   */
  method UpdateCardHandler(store: CardStore, id: int, command: UpdateCardCommand) returns (r: Outcome<HttpResult>)
    requires store.Clean()
    modifies store, store.tracked.Values
    ensures store.Valid() && store.nextId == old(store.nextId)
    ensures id !in old(store.rows) ==> r == Returned(NotFound) && store.rows == old(store.rows)
    ensures id in old(store.rows) && WithinColumnBounds(Applied(command, old(store.rows[id]))) ==>
      && r == Returned(Ok(CardBody(CardView(id, Applied(command, old(store.rows[id]))))))
      && store.rows == old(store.rows)[id := Applied(command, old(store.rows[id]))]
    ensures id in old(store.rows) && !WithinColumnBounds(Applied(command, old(store.rows[id]))) ==>
      r == Threw && store.rows == old(store.rows)
  {
    var card := CardService.UpdateCard(store, id, command);
    r := match card
      case Returned(found) => Returned(FoundResult(if found.Some? then Some(View(found.value)) else None))
      case Threw => Threw;
  }

  /** POST /cards: the validation filter, then the handler. */
  method CreateCardRoute(store: CardStore, command: CreateCardCommand) returns (r: HttpResult)
    requires store.Clean()
    modifies store
    ensures store.Valid()
    ensures ValidateCreate(command) != [] ==>
      && r == ValidationProblem(Grouped(ValidateCreate(command)))
      && store.rows == old(store.rows) && store.nextId == old(store.nextId)
    ensures ValidateCreate(command) == [] ==>
      && r == Ok(CardBody(CardView(old(store.nextId), CardFields(command.title, command.content, command.list))))
      && store.rows == old(store.rows)[old(store.nextId) := CardFields(command.title, command.content, command.list)]
      && store.nextId == old(store.nextId) + 1
    ensures StatusCode(r) != 500
  {
    var gate := CreateValidation(command);
    if gate.ShortCircuit? {
      return gate.result;
    }
    ValidCreateFitsColumns(command);
    var outcome := CardService.CreateCard(store, command);
    var handled := match outcome
      case Returned(card) => Returned(CreatedResult(View(card)))
      case Threw => Threw;
    r := Finish(handled);
  }

  /** DELETE /cards/{id}: the change tracker, then the handler. */
  method DeleteCardRoute(store: CardStore, log: AuditLog, routeValue: string, now: int) returns (r: HttpResult)
    requires store.Clean() && ParseInt32(routeValue).Some?
    modifies store, log
    ensures store.Clean() && store.nextId == old(store.nextId)
    ensures var id := ParseInt32(routeValue).value;
      id !in old(store.rows) ==>
        r == NotFound && store.rows == old(store.rows) && log.lines == old(log.lines)
    ensures var id := ParseInt32(routeValue).value;
      id in old(store.rows) ==>
        && r == OkNoBody
        && store.rows == old(store.rows) - {id}
        && log.lines == old(log.lines) + [AuditLine(now, id, old(store.rows[id]).title, RemoveAction)]
  {
    var id := ParseInt32(routeValue).value;
    var tracker := ChangeTracker.InvokeAsync(store, log, Delete, Some(routeValue), now);
    if tracker.ShortCircuit? {
      return tracker.result;
    }
    var outcome := CardService.DeleteCard(store, id);
    r := match outcome
      case Returned(hasChange) => DeletedResult(hasChange)
      case Threw => UnhandledException;
  }

  /**
   * The create scenario of the integration tests: the first card posted to
   * an empty table comes back with id 1 and status 200.
   */
  method FirstCardCreated() returns (r: HttpResult)
    ensures r == Ok(CardBody(CardView(1, CardFields("Desafio", "Conteudo do desafio", Some("Algum valor")))))
    ensures StatusCode(r) == 200
  {
    var store := new CardStore();
    var command := CreateCardCommand("Desafio", "Conteudo do desafio", Some("Algum valor"));
    assert !IsWhiteSpace(command.title[0]) && !IsWhiteSpace(command.content[0]);
    CreateValidIff(command);
    r := CreateCardRoute(store, command);
  }
}
