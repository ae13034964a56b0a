/** The HTTP results the endpoints produce, and their status codes. */
module Http {
  import opened Cards
  import opened Validators

  /** The JSON form of a card: its id and its fields. */
  datatype CardView = CardView(id: int, fields: CardFields)

  function View(card: Card): CardView
    reads card
  {
    CardView(card.id, card.Fields())
  }

  datatype Body =
    | CardBody(card: CardView)
    | CardsBody(cards: seq<CardView>)
    | TokenBody(username: string, accessToken: string, expiresIn: int)

  datatype HttpResult =
    | Ok(body: Body)                                          // Results.Ok(value)
    | OkNoBody                                                // Results.Ok()
    | EmptyResult                                             // Results.Empty: writes nothing
    | NotFound                                                // Results.NotFound()
    | BadRequest(message: string)                             // Results.BadRequest(text)
    | ValidationProblem(errors: map<string, seq<Failure>>)    // TypedResults.ValidationProblem
    | Problem(title: string, detail: string, status: int)     // TypedResults.Problem

  /** The status code the client sees; `Results.Empty` leaves the default 200. */
  function StatusCode(r: HttpResult): int {
    match r
    case Ok(_) => 200
    case OkNoBody => 200
    case EmptyResult => 200
    case NotFound => 404
    case BadRequest(_) => 400
    case ValidationProblem(_) => 400
    case Problem(_, _, status) => status
  }

  /** What an endpoint filter decides: answer now, or run the rest of the pipeline. */
  datatype FilterStep = ShortCircuit(result: HttpResult) | Next

  /** What the exception handler middleware answers for an exception nobody caught. */
  const UnhandledException: HttpResult :=
    Problem("An error occurred while processing your request.", "", 500)
}
