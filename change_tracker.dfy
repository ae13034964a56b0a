/**
 * `ChangeTrackerFilter`: before a request on `/cards/{id}` reaches its
 * handler, looks the card up, answers 404 when it does not exist, and
 * writes one audit line for an update or a removal.
 */
module ChangeTracker {
  import opened Wrappers
  import opened Text
  import opened Cards
  import opened Store
  import opened CardService
  import opened Http

  datatype HttpMethod = Get | Post | Put | Delete | OtherMethod(name: string)

  const UpdateAction: string := "Alterar"
  const RemoveAction: string := "Remover"

  /** One audit line: the time it was written, the card's id and title, and the action. */
  datatype AuditLine = AuditLine(execution: int, id: int, title: string, action: string)

  /** The logger the filter writes to: its lines, oldest first. */
  class AuditLog {
    var lines: seq<AuditLine>

    constructor ()
      ensures lines == []
    {
      lines := [];
    }
  }

  /** The id route value as `int.TryParse` reads it; a missing value does not parse. */
  function RouteId(routeValue: Option<string>): Option<Int32> {
    if routeValue.Some? then ParseInt32(routeValue.value) else None
  }

  /** The action logged for a request method: PUT and DELETE only. */
  function ActionOf(m: HttpMethod): Option<string> {
    if m == Put then Some(UpdateAction)
    else if m == Delete then Some(RemoveAction)
    else None
  }

  /** The lines one invocation writes for an existing card. */
  function AuditLines(m: HttpMethod, id: int, title: string, now: int): seq<AuditLine> {
    match ActionOf(m)
    case None => []
    case Some(action) => [AuditLine(now, id, title, action)]
  }

  /** An invocation writes one line for PUT and DELETE and none otherwise. */
  lemma AuditLinesCount(m: HttpMethod, id: int, title: string, now: int)
    ensures |AuditLines(m, id, title, now)| <= 1
    ensures |AuditLines(m, id, title, now)| == 1 <==> m == Put || m == Delete
    ensures m == Put ==> AuditLines(m, id, title, now) == [AuditLine(now, id, title, "Alterar")]
    ensures m == Delete ==> AuditLines(m, id, title, now) == [AuditLine(now, id, title, "Remover")]
  {
  }

  /** `LogAction`: appends the card's id and title with the action. */
  method LogAction(log: AuditLog, card: Card, action: string, now: int)
    modifies log
    ensures log.lines == old(log.lines) + [AuditLine(now, card.id, card.title, action)]
  {
    log.lines := log.lines + [AuditLine(now, card.id, card.title, action)];
  }

  /** The two method checks of `InvokeAsync`: PUT logs an update, DELETE a removal. */
  method Audit(log: AuditLog, card: Card, m: HttpMethod, now: int)
    modifies log
    ensures log.lines == old(log.lines) + AuditLines(m, card.id, card.title, now)
  {
    if m == Put {
      LogAction(log, card, UpdateAction, now);
    }
    if m == Delete {
      LogAction(log, card, RemoveAction, now);
    }
  }

  /**
   * `InvokeAsync`: with a route id that parses, checks the card and logs
   * the request; without one it goes straight on.
   */
  method InvokeAsync(store: CardStore, log: AuditLog, m: HttpMethod, routeValue: Option<string>, now: int)
    returns (step: FilterStep)
    requires store.Clean()
    modifies store`tracked, log
    ensures store.Clean() && Extends(old(store.tracked), store.tracked)
    ensures fresh(store.tracked.Values - old(store.tracked.Values))
    ensures RouteId(routeValue).None? ==>
      step == Next && log.lines == old(log.lines) && store.tracked == old(store.tracked)
    ensures RouteId(routeValue).Some? ==> TrackedOutcome(store.rows, store.tracked, RouteId(routeValue).value, m, now, old(log.lines), log.lines, step)
  {
    var id := RouteId(routeValue);
    if id.Some? {
      step := Track(store, log, m, id.value, now);
    } else {
      step := Next;
    }
  }

  /**
   * What the filter does for a parsed id: a missing card ends the request
   * with 404 and nothing logged; an existing one is logged with the title
   * it has before the handler runs, and tracked with its stored values.
   */
  ghost predicate TrackedOutcome(rows: map<int, CardFields>, tracked: map<int, Card>, id: int, m: HttpMethod, now: int,
                                 before: seq<AuditLine>, after: seq<AuditLine>, step: FilterStep)
    reads tracked.Values
  {
    && (id !in rows ==> step == ShortCircuit(NotFound) && after == before)
    && (id in rows ==>
          && step == Next
          && id in tracked && tracked[id].Fields() == rows[id]
          && after == before + AuditLines(m, id, rows[id].title, now))
  }

  /** The body of `InvokeAsync` once the id has parsed: look the card up, then log. */
  method Track(store: CardStore, log: AuditLog, m: HttpMethod, id: int, now: int) returns (step: FilterStep)
    requires store.Clean()
    modifies store`tracked, log
    ensures store.Clean() && Extends(old(store.tracked), store.tracked)
    ensures fresh(store.tracked.Values - old(store.tracked.Values))
    ensures TrackedOutcome(store.rows, store.tracked, id, m, now, old(log.lines), log.lines, step)
  {
    var card := GetCardById(store, id);
    if card.None? {
      return ShortCircuit(NotFound);
    }
    Audit(log, card.value, m, now);
    step := Next;
  }
}
