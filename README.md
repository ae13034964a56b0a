# Cards API — a Dafny model

The service is a small ASP.NET minimal API for "cards" (a title, a content
and an optional list), held in a single table. It serves:

- `POST /login`, which checks one configured pair of credentials and issues
  a JSON Web Token;
- `GET/POST /cards` and `GET/PUT/DELETE /cards/{id}`, which require that
  token.

Two endpoint filters run around the card handlers:

- a validation filter runs the FluentValidation rules of the request body
  and answers with grouped failures;
- a change tracker checks that the card exists and writes an audit line for
  updates and removals.

This project models that core in Dafny and proves what it promises:

- the card entity, the two commands and their validators;
- the card service over a store with a per-request unit of work
  (stage, then commit);
- both filters, including the sorting and grouping algorithm of the
  validation filter;
- the five routes with their filter order and result mapping;
- the login check, the expiry arithmetic and the construction of the token
  descriptor.

Modules, one per file:

| file | module | models |
|---|---|---|
| `wrappers.dfy` | `Wrappers` | `Option` (null) and `Outcome` (return or throw) |
| `text.dfy` | `Text` | `char.IsWhiteSpace`, ordinal string order, `int` range, unchecked wrap, `int.TryParse`/`ToString` |
| `cards.dfy` | `Cards` | `Card` entity (a class: the service updates it in place), column bounds of the table |
| `commands.dfy` | `Commands` | `CreateCardCommand`, `UpdateCardCommand` and their `CreateCard`/`UpdateCard` |
| `validators.dfy` | `Validators` | the two FluentValidation validators as lists of (property, failure) |
| `store.dfy` | `Store` | the Cards table plus the request's unit of work: identity map, staged insert/removals, `SaveChanges` |
| `service.dfy` | `CardService` | `CardService` |
| `http.dfy` | `Http` | the results the endpoints return and their status codes |
| `validation_filter.dfy` | `ValidationFilter` | `ValidationFilter<TRequest>` |
| `change_tracker.dfy` | `ChangeTracker` | `ChangeTrackerFilter` and its log |
| `cards_module.dfy` | `CardsModule` | handlers of `CardsModule` and each route's filter pipeline |
| `login_configuration.dfy` | `LoginOptions` | `LoginConfiguration.IsValid` |
| `jwt_configuration.dfy` | `JwtOptions` | `JwtConfigration`: default, expiry date and milliseconds, key bytes |
| `token_generator.dfy` | `Tokens` | `TokenGenerator.GenerateToken`, bearer validation parameters |
| `login.dfy` | `LoginEndpoint` | the `/login` handler |

Status codes the code actually sends:

- An empty listing answers `Results.Empty`, which sends status 200 with no
  body.
- Creating a card answers 200 with the card.
- Deleting a card answers 200 with no body.

The clock, the GUID of the token id and the JWT handler's creation and
serialization of the token are parameters.

## Model

| member | source | states |
|---|---|---|
| `Cards.WithinColumnBounds` | DesafioBackend.Core.Data/Configurations/CardEntityConfiguration.cs:15-22 | the lengths the Cards columns accept: Title at most 100, Content at most 10000, List absent or at most 10000; used by `Store.CardStore.SaveChanges` and `Validators.ValidCreateFitsColumns` |
| `Cards.Card.Create` | DesafioBackend.Core/Cards/Models/Card.cs:16-21 | `Card.Create` gives a card whose title, content and list are exactly the arguments and whose id is still 0 |
| `Commands.CreateCard` | DesafioBackend.Core/Cards/Commands/CreateCardCommand.cs:19 | a fresh card, id 0, carrying exactly the command's three values |
| `Commands.UpdateCard` | DesafioBackend.Core/Cards/Commands/UpdateCardCommand.cs:21-27 | changes the given card in place (the id is outside its frame) to `Applied(command, old fields)` and returns that same card |
| `Commands.Applied` | DesafioBackend.Core/Cards/Commands/UpdateCardCommand.cs:23-25 | the values a card has after the `??` assignments; no contract of its own, its meaning is stated by `Commands.AppliedFieldByField`, `Commands.EmptyUpdateIsIdentity` and `Commands.AppliedIdempotent` |
| `Commands.AppliedFieldByField` | DesafioBackend.Core/Cards/Commands/UpdateCardCommand.cs:23-25 | each field present in the command overwrites, each absent one keeps the card's value |
| `Commands.EmptyUpdateIsIdentity` | DesafioBackend.Core/Cards/Commands/UpdateCardCommand.cs:23-26 | a command with all three fields null leaves the card's values unchanged |
| `Commands.AppliedIdempotent` | DesafioBackend.Core/Cards/Commands/UpdateCardCommand.cs:23-25 | applying a command twice gives the values of applying it once |
| `Validators.MinimumLengthRule` | DesafioBackend.Core/Cards/Commands/UpdateCardCommand.cs:38 | FluentValidation's `MinimumLength`: a null value passes, a shorter string fails with its length; stated by `Validators.RuleFailureLists` |
| `Validators.MaximumLengthRule` | DesafioBackend.Core/Cards/Commands/UpdateCardCommand.cs:39 | FluentValidation's `MaximumLength`: a null value passes, a longer string fails with its length; stated by `Validators.RuleFailureLists` |
| `Validators.NotEmptyRule` | DesafioBackend.Core/Cards/Commands/UpdateCardCommand.cs:40 | FluentValidation's `NotEmpty`: null, "" and white space fail; stated by `Validators.RuleFailureLists` |
| `Validators.ValidateCreate` | DesafioBackend.Core/Cards/Commands/CreateCardCommand.cs:29-40 | the failures of the create validator, rule by rule in declaration order; no contract of its own, its meaning is stated by `Validators.CreateFailuresByProperty` and `Validators.CreateValidIff` |
| `Validators.ValidateUpdate` | DesafioBackend.Core/Cards/Commands/UpdateCardCommand.cs:37-48 | the same for the update validator; its meaning is stated by `Validators.UpdateFailuresByProperty` and `Validators.UpdateValidIff` |
| `Validators.FailuresOfConcat` | DesafioBackend.Core/Cards/Commands/CreateCardCommand.cs:29-40 | the failures of one property in a concatenation of rule outputs are those of each part, in order |
| `Validators.RuleFailures` | DesafioBackend.Core/Cards/Commands/UpdateCardCommand.cs:37-48 | a rule reports failures only for its own property: none for any other name |
| `Validators.CreateFailuresByProperty` | DesafioBackend.Core/Cards/Commands/CreateCardCommand.cs:29-40 | a property has no create failure iff its rules all pass; other names have none (the lists themselves: `Validators.CreateFailureLists`) |
| `Validators.UpdateFailuresByProperty` | DesafioBackend.Core/Cards/Commands/UpdateCardCommand.cs:37-48 | a property has no update failure iff its rules all pass; other names have none (the lists themselves: `Validators.UpdateFailureLists`) |
| `Validators.RuleFailureLists` | DesafioBackend.Core/Cards/Commands/UpdateCardCommand.cs:37-48 | the exact failure each rule reports under its own property name, and nothing under any other |
| `Validators.CreateFailuresSplit` | DesafioBackend.Core/Cards/Commands/CreateCardCommand.cs:29-40 | one property's create failures are those of each rule in declaration order |
| `Validators.CreateRuleLists` | DesafioBackend.Core/Cards/Commands/CreateCardCommand.cs:29-40 | one property's create failures as the failing checks of that property's rules, in order |
| `Validators.CreateFailureLists` | DesafioBackend.Core/Cards/Commands/CreateCardCommand.cs:29-40 | the failure lists of a create command: Title and Content get MaximumLength then NotEmpty, each only when it fails; List gets MaximumLength when it fails |
| `Validators.UpdateFailuresSplit` | DesafioBackend.Core/Cards/Commands/UpdateCardCommand.cs:37-48 | one property's update failures are those of each rule in declaration order |
| `Validators.UpdateTextFailures` | DesafioBackend.Core/Cards/Commands/UpdateCardCommand.cs:37-45 | the failing checks of a nullable Title or Content in declaration order: MinimumLength(3), MaximumLength, NotEmpty; null fails only NotEmpty |
| `Validators.OtherRulesSilent` | DesafioBackend.Core/Cards/Commands/UpdateCardCommand.cs:37-48 | a rule declared for one property reports nothing under any other property's name |
| `Validators.UpdateOwnRules` | DesafioBackend.Core/Cards/Commands/UpdateCardCommand.cs:37-45 | the three rules of Title or Content report exactly `UpdateTextFailures`, in declaration order |
| `Validators.UpdateTitleFailures` | DesafioBackend.Core/Cards/Commands/UpdateCardCommand.cs:37-40 | the update failures under Title are the failing checks of its three rules, in order |
| `Validators.UpdateContentFailures` | DesafioBackend.Core/Cards/Commands/UpdateCardCommand.cs:42-45 | the same under Content |
| `Validators.UpdateListFailures` | DesafioBackend.Core/Cards/Commands/UpdateCardCommand.cs:47-48 | under List, MaximumLength(10000) exactly when a present List is longer |
| `Validators.UpdateFailureLists` | DesafioBackend.Core/Cards/Commands/UpdateCardCommand.cs:37-48 | the failure lists of an update command per property, in rule order; an empty Title reports `[MinimumLength(3, 0), NotEmpty]` |
| `Validators.CreateValidIff` | DesafioBackend.Core/Cards/Commands/CreateCardCommand.cs:29-40 | a create command has no failure iff Title and Content are non-blank and at most 100 and 10000 long and List is null or at most 10000 long |
| `Validators.UpdateValidIff` | DesafioBackend.Core/Cards/Commands/UpdateCardCommand.cs:37-48 | an update command has no failure iff Title and Content are present, non-blank and 3–100 and 3–10000 long, and List is null or at most 10000 long: null Title or Content fails NotEmpty |
| `Validators.ShortTitleCreateOnly` | DesafioBackend.Core/Cards/Commands/UpdateCardCommand.cs:37-40 | a non-blank 1- or 2-character title passes the create rules and fails the update rules |
| `Validators.ErrorsNameKnownProperties` | DesafioBackend.Core/Cards/Commands/CreateCardCommand.cs:29-40 | every failure of either validator names Title, Content or List |
| `Validators.ValidCreateFitsColumns` | DesafioBackend.Core.Data/Configurations/CardEntityConfiguration.cs:15-22 | a create command that passes validation builds a row the table accepts |
| `Validators.ValidUpdateFitsColumns` | DesafioBackend.Core.Data/Configurations/CardEntityConfiguration.cs:15-22 | a valid update keeps an accepted row accepted, with non-blank Title and Content |
| `Store.CardStore.constructor` | DesafioBackend.Core.Data/Configurations/CardEntityConfiguration.cs:12-14 | an empty table with a clean unit of work whose next id is 1 |
| `Store.CardStore.Find` | DesafioBackend.Application/Services/CardService.cs:25-26 | `FindAsync`: the tracked card when the id is already tracked, otherwise a new tracked card loaded from the row, `None` (and nothing tracked) when there is no row |
| `Store.CardStore.Add` | DesafioBackend.Application/Services/CardService.cs:31 | stages the new card for insertion |
| `Store.CardStore.Remove` | DesafioBackend.Application/Services/CardService.cs:50 | stages a tracked card's id for deletion |
| `Store.CardStore.SaveChanges` | DesafioBackend.Core.Data/Configurations/CardEntityConfiguration.cs:15-22 | rejects the whole commit, changing nothing, iff a row it would write breaks the column bounds; otherwise deletes the staged removals, writes the changed tracked cards, inserts the staged card under the next id, and reports one affected row per removal, changed card and insertion |
| `Store.CardStore.WrittenRowsFrame` | DesafioBackend.Application/Services/CardService.cs:32 | a commit adds no row and deletes exactly the staged removals; rows the unit of work never loaded keep their values, tracked rows take their cards' values, and a row's value changes iff it is counted as modified |
| `Store.CardStore.WrittenRowsWhenUnchanged` | DesafioBackend.Application/Services/CardService.cs:32 | with nothing removed and no tracked card changed, a commit leaves the table as it was |
| `Store.CardStore.WrittenRowsAfterUpdate` | DesafioBackend.Application/Services/CardService.cs:41-42 | committing one changed card replaces exactly that row |
| `Store.CardStore.WrittenRowsAfterRemove` | DesafioBackend.Application/Services/CardService.cs:50-51 | committing one removal deletes exactly that row |
| `Store.CardStore.RemovalCommitCount` | DesafioBackend.Application/Services/CardService.cs:51 | a commit of one removal and nothing else reports exactly one affected row, so `> 0` holds |
| `CardService.GetAllCards` | DesafioBackend.Application/Services/CardService.cs:22-23 | every row once, as its tracked card with the row's values, ascending by id, and nothing else; the table is unchanged |
| `CardService.ListRow` | DesafioBackend.Application/Services/CardService.cs:22-23 | one step of reading the table in id order: the cards listed so far, extended by the tracked card of row `id` when it exists, are still exactly the rows below the next id in ascending order |
| `CardService.GetCardById` | DesafioBackend.Application/Services/CardService.cs:25-26 | a card iff the id has a row, with that id and the row's values; `None` otherwise; the table is unchanged |
| `CardService.CreateCard` | DesafioBackend.Application/Services/CardService.cs:28-34 | returns iff the row fits the columns: then the returned fresh card has the old next id and the command's values, and the table gains exactly that row; a throw leaves the table as it was. The only refusal modelled is a column-bound break |
| `CardService.UpdateCard` | DesafioBackend.Application/Services/CardService.cs:36-44 | null and no change for an absent id; for a present id returns iff the updated row fits (the only refusal modelled is a column-bound break), then that card with `Applied` values and only that row replaced |
| `CardService.DeleteCard` | DesafioBackend.Application/Services/CardService.cs:46-52 | answers whether the id had a row and removes exactly that row, leaving every other row untouched |
| `ValidationFilter.SortByProperty` | DesafioBackend.Application/Middleware/ValidationFilter.cs:109-110 | `OrderBy(e => e.PropertyName)` as an insertion sort; no contract of its own, its meaning is stated by `ValidationFilter.SortByPropertyCorrect` |
| `ValidationFilter.InsertPermutes` | DesafioBackend.Application/Middleware/ValidationFilter.cs:109-110 | inserting an error into the sorted prefix keeps the same multiset of errors |
| `ValidationFilter.InsertSorted` | DesafioBackend.Application/Middleware/ValidationFilter.cs:109-110 | inserting into a sorted sequence keeps it sorted by property name |
| `ValidationFilter.InsertFailures` | DesafioBackend.Application/Middleware/ValidationFilter.cs:109-110 | insertion after all equal names keeps each property's failures in their original order (stability) |
| `ValidationFilter.SortByPropertyCorrect` | DesafioBackend.Application/Middleware/ValidationFilter.cs:109-110 | `OrderBy(PropertyName)` gives a permutation, sorted by name, in which every property's failures keep their original order |
| `ValidationFilter.ArraySize` | DesafioBackend.Application/Middleware/ValidationFilter.cs:126-128 | `Math.Min(Math.Max(4, 16), Count)`, the slots per property; stated by `ValidationFilter.GroupedValues` (at most 16) and `ValidationFilter.GroupedUncut` |
| `ValidationFilter.Grouped` | DesafioBackend.Application/Middleware/ValidationFilter.cs:101-152 | the dictionary the grouping answers, as a reference definition; its meaning is stated by `ValidationFilter.GroupedKeys`, `ValidationFilter.GroupedValues` and `ValidationFilter.GroupedEmptyIff` |
| `ValidationFilter.GroupValidationErrors` | DesafioBackend.Application/Middleware/ValidationFilter.cs:101-152 | the loop over the sorted errors with its current name, array and index returns exactly `Grouped(errors)` |
| `ValidationFilter.GroupedKeys` | DesafioBackend.Application/Middleware/ValidationFilter.cs:104-105 | the keys are exactly the non-empty property names that have errors; errors named "" are dropped |
| `ValidationFilter.GroupedValues` | DesafioBackend.Application/Middleware/ValidationFilter.cs:126-140 | each group is non-empty, is the first `min(16, total)` of that property's failures in original order, and has at most 16 entries |
| `ValidationFilter.GroupedUncut` | DesafioBackend.Application/Middleware/ValidationFilter.cs:126-128 | with at most 16 errors in all, no failure of a non-empty name is lost |
| `ValidationFilter.GroupedEmptyIff` | DesafioBackend.Application/Middleware/ValidationFilter.cs:104-140 | the grouping is empty iff every error is named ""; without such errors, iff there is no error |
| `ValidationFilter.CreateProblemGroups` | DesafioBackend.Application/Middleware/ValidationFilter.cs:92-96 | for a create command, the problem's keys are exactly the failing properties and each holds all of that property's failures |
| `ValidationFilter.UpdateProblemGroups` | DesafioBackend.Application/Middleware/ValidationFilter.cs:92-96 | the same for an update command |
| `ValidationFilter.ExtractRequest` | DesafioBackend.Application/Middleware/ValidationFilter.cs:69-79 | `None` iff no argument has the request type; otherwise the first such argument in argument order |
| `ValidationFilter.RequestNotFound` | DesafioBackend.Application/Middleware/ValidationFilter.cs:157-160 | the 400 "Request of type … not found in the context." answer; stated by `ValidationFilter.Gate` |
| `ValidationFilter.Gate` | DesafioBackend.Application/Middleware/ValidationFilter.cs:44-58 | no request: the "not found" bad request; failures: the grouped validation problem and `next` not run; otherwise `next` runs |
| `ValidationFilter.Finish` | DesafioBackend.Application/Middleware/ValidationFilter.cs:58-63 | what `next` returns is passed on unchanged; an exception becomes the 500 problem "Validation Error" |
| `ChangeTracker.RouteId` | DesafioBackend.Application/Middleware/ChangeTrackerFilter.cs:23-24 | the `id` route value as `int.TryParse` reads it, nothing when it is missing; its meaning is stated by `Text.ParseFormatRoundTrip` |
| `ChangeTracker.ActionOf` | DesafioBackend.Application/Middleware/ChangeTrackerFilter.cs:30-31 | the action a request method is logged with; stated by `ChangeTracker.AuditLinesCount` |
| `ChangeTracker.AuditLines` | DesafioBackend.Application/Middleware/ChangeTrackerFilter.cs:30-31 | the lines one request writes for an existing card; stated by `ChangeTracker.AuditLinesCount` |
| `ChangeTracker.AuditLinesCount` | DesafioBackend.Application/Middleware/ChangeTrackerFilter.cs:30-31 | at most one line per request: "Alterar" for PUT, "Remover" for DELETE, none for other methods |
| `ChangeTracker.LogAction` | DesafioBackend.Application/Middleware/ChangeTrackerFilter.cs:37-39 | appends one line with the time, the card's id, its title and the action |
| `ChangeTracker.Audit` | DesafioBackend.Application/Middleware/ChangeTrackerFilter.cs:30-31 | the log grows by exactly the lines the request method calls for |
| `ChangeTracker.InvokeAsync` | DesafioBackend.Application/Middleware/ChangeTrackerFilter.cs:20-35 | an id that does not parse goes straight on with nothing logged; a parsed id without a row answers 404 with nothing logged; an existing card is logged with its stored title before the handler runs, and the pipeline goes on |
| `ChangeTracker.Track` | DesafioBackend.Application/Middleware/ChangeTrackerFilter.cs:26-31 | the lookup-then-log part for a parsed id, with the same outcome |
| `CardsModule.Views` | DesafioBackend.Application/WebModules/CardsModule.cs:58-61 | the cards as serialized: one view per card, in order, each with the card's id and values |
| `Http.StatusCode` | DesafioBackend.Application/WebModules/CardsModule.cs:29-49 | the status each result sends: Ok, Ok without body and `Results.Empty` 200, NotFound 404, BadRequest and ValidationProblem 400, a problem its own status; used by the status clauses of the route contracts |
| `CardsModule.AllCardsResult` | DesafioBackend.Application/WebModules/CardsModule.cs:59-64 | a non-empty list is answered with Ok(list), an empty one with `Results.Empty`; both have status 200 |
| `CardsModule.FoundResult` | DesafioBackend.Application/WebModules/CardsModule.cs:73-78 | a card is Ok(card), status 200; none is NotFound, status 404 |
| `CardsModule.CreatedResult` | DesafioBackend.Application/WebModules/CardsModule.cs:102 | always Ok with the card, status 200 |
| `CardsModule.DeletedResult` | DesafioBackend.Application/WebModules/CardsModule.cs:111 | true is Ok with no body (200), false is NotFound (404) |
| `CardsModule.ListsRowsEmpty` | DesafioBackend.Application/WebModules/CardsModule.cs:59 | the listing of the table is empty iff the table is |
| `CardsModule.ListsRowsUnique` | DesafioBackend.Application/Services/CardService.cs:22-23 | two listings of the same table in id order are equal: given the id order the model reads in, the answer of GET /cards is determined by the table |
| `CardsModule.GetAllCardsRoute` | DesafioBackend.Application/WebModules/CardsModule.cs:54-65 | GET /cards: every stored card in id order, or `Results.Empty` iff there is none; never anything but 200 |
| `CardsModule.GetCardByIdRoute` | DesafioBackend.Application/WebModules/CardsModule.cs:67-79 | GET /cards/{id}: Ok with the stored card, or NotFound |
| `CardsModule.RequestsFound` | DesafioBackend.Application/WebModules/CardsModule.cs:81-103 | the validation filter finds the body command among the PUT and POST handler arguments, so its "not found" branch is never taken on these routes |
| `CardsModule.UpdateValidation` | DesafioBackend.Application/WebModules/CardsModule.cs:35 | the validation filter on PUT goes on iff the update command has no failures, otherwise answers its grouped failures |
| `CardsModule.CreateValidation` | DesafioBackend.Application/WebModules/CardsModule.cs:42 | the same on POST for the create command |
| `CardsModule.UpdateCardHandler` | DesafioBackend.Application/WebModules/CardsModule.cs:81-94 | NotFound for an absent id; Ok with the updated card and only that row replaced when the row fits; otherwise the service's exception passes through |
| `CardsModule.ValidatedUpdate` | DesafioBackend.Application/WebModules/CardsModule.cs:29-35 | validation then handler for an existing card: invalid commands change nothing and answer their failures, valid ones are applied and answered with the card; never 500 for a column bound, since a valid command always fits |
| `CardsModule.UpdateCardRoute` | DesafioBackend.Application/WebModules/CardsModule.cs:29-35 | PUT /cards/{id}, for an id the `{id:int}` constraint lets through: a missing card is 404 whatever the body and nothing is logged; an existing card gets one "Alterar" line with its title from before the update, then is validated and updated as above |
| `CardsModule.CreateCardRoute` | DesafioBackend.Application/WebModules/CardsModule.cs:37-42 | POST /cards: invalid commands change nothing and answer their grouped failures; valid ones add exactly one row under the old next id and answer it with 200; never 500 for a column bound, since a valid command always fits |
| `CardsModule.DeleteCardRoute` | DesafioBackend.Application/WebModules/CardsModule.cs:44-49 | DELETE /cards/{id}, for an id the `{id:int}` constraint lets through: 404 with nothing logged and nothing removed for a missing card; otherwise one "Remover" line with its title, the row removed, and 200 with no body |
| `CardsModule.FirstCardCreated` | DesafioBackend.Tests.ApiService/IntegrationTest1.cs:66-81 | the first card posted to an empty table comes back with id 1, the posted values and status 200 |
| `LoginOptions.IsValid` | DesafioBackend.ApiService/Configurations/OptionsConfiguration.cs:40-41 | the credential check; its meaning is stated by `LoginOptions.AcceptsOnlyConfiguredPair` |
| `LoginOptions.AcceptsOnlyConfiguredPair` | DesafioBackend.ApiService/Configurations/OptionsConfiguration.cs:40-41 | `IsValid` holds iff the request is exactly the configured login and password; a mismatch in either field alone rejects |
| `LoginEndpoint.Login` | DesafioBackend.ApiService/Program.cs:54-62 | the `/login` handler; its meaning is stated by `LoginEndpoint.LoginAnswers` |
| `LoginEndpoint.LoginAnswers` | DesafioBackend.ApiService/Program.cs:54-62 | a token (200) only for the configured pair, issued in that login's name with the configured lifetime; any other request is 400 "Username or password is incorrect."; 500 only when token generation throws |
| `JwtOptions.Bind` | DesafioBackend.ApiService/Configurations/AuthenticationConfiguration.cs:62 | `ExpirationMinutes` is 60 when the section does not set it, the configured value otherwise |
| `JwtOptions.ExpirationInMilliseconds` | DesafioBackend.ApiService/Configurations/AuthenticationConfiguration.cs:74 | minutes times 60000 in unchecked 32-bit arithmetic; stated by `JwtOptions.ExpirationInMillisecondsExact`, `JwtOptions.ExpirationInMillisecondsWraps` and `Text.WrapInt32` |
| `JwtOptions.ExpirationInMillisecondsExact` | DesafioBackend.ApiService/Configurations/AuthenticationConfiguration.cs:74 | for up to 35791 minutes either way the milliseconds are exactly minutes × 60000, positive iff the minutes are |
| `JwtOptions.ExpirationInMillisecondsWraps` | DesafioBackend.ApiService/Configurations/AuthenticationConfiguration.cs:74 | 35792 minutes wrap to −2147447296 ms in 32-bit arithmetic |
| `JwtOptions.ExpirationInMillisecondsNegative` | DesafioBackend.ApiService/Configurations/AuthenticationConfiguration.cs:74 | from 35792 to 71582 minutes the milliseconds are minutes × 60000 − 2^32: every such positive setting reports a negative lifetime |
| `JwtOptions.DefaultLifetime` | DesafioBackend.ApiService/Configurations/AuthenticationConfiguration.cs:62 | with the default, a token reports 3600000 ms |
| `JwtOptions.ExpirationDate` | DesafioBackend.ApiService/Configurations/AuthenticationConfiguration.cs:70 | now plus the configured minutes, exactly; throws iff that leaves the `DateTime` range |
| `JwtOptions.ExpiryFiguresAgree` | DesafioBackend.ApiService/Configurations/AuthenticationConfiguration.cs:70-74 | where the milliseconds do not wrap, they are exactly the distance from now to the expiry instant |
| `JwtOptions.Utf8` | DesafioBackend.ApiService/Configurations/AuthenticationConfiguration.cs:66 | `Encoding.UTF8.GetBytes` on a string; stated by `JwtOptions.Utf8RoundTrip`, `JwtOptions.KeyBytesInjective` and `JwtOptions.AsciiKeyBytes` |
| `JwtOptions.SecurityKeyBytes` | DesafioBackend.ApiService/Configurations/AuthenticationConfiguration.cs:66 | the UTF-8 bytes of the configured key; stated by the same three lemmas |
| `JwtOptions.Utf8RoundTrip` | DesafioBackend.ApiService/Configurations/AuthenticationConfiguration.cs:66 | the UTF-8 key bytes decode back to the key string |
| `JwtOptions.KeyBytesInjective` | DesafioBackend.ApiService/Configurations/AuthenticationConfiguration.cs:66 | different key strings give different key bytes |
| `JwtOptions.AsciiKeyBytes` | DesafioBackend.ApiService/Configurations/AuthenticationConfiguration.cs:66 | an ASCII key is one byte per character, equal to its code |
| `Tokens.BearerParameters` | DesafioBackend.ApiService/Configurations/AuthenticationConfiguration.cs:28-34 | the bearer scheme's validation parameters; stated by `Tokens.TokenMatchesBearerScheme` |
| `Tokens.Descriptor` | DesafioBackend.ApiService/Authentication/TokenGenerator.cs:38-50 | the token descriptor for a user; stated by `Tokens.TokenMatchesBearerScheme` |
| `Tokens.GenerateToken` | DesafioBackend.ApiService/Authentication/TokenGenerator.cs:32-53 | returns iff the expiry date and the token writer both succeed; then the username is the input, the access token is what the writer made of the descriptor, and the lifetime is the configured milliseconds |
| `Tokens.TokenMatchesBearerScheme` | DesafioBackend.ApiService/Authentication/TokenGenerator.cs:36-50 | the token is signed with the key bytes, issuer and audience that the bearer scheme validates against, carries the user's name claim and expires the configured minutes after now |
| `Tokens.SigningKeyIdentifiesConfiguration` | DesafioBackend.ApiService/Configurations/AuthenticationConfiguration.cs:30 | a token's signing key equals a scheme's validation key only if both come from the same key string |
| `Text.OrdinalLe` | DesafioBackend.Application/Middleware/ValidationFilter.cs:109-110 | the order the errors are sorted by; stated by `Text.OrdinalLeTotal` |
| `Text.IsBlank` | DesafioBackend.Core/Cards/Commands/UpdateCardCommand.cs:40 | `string.IsNullOrWhiteSpace` on a present string, as `NotEmpty` tests it; stated by `Validators.CreateValidIff` and `Validators.UpdateValidIff` |
| `Text.IsWhiteSpace` | DesafioBackend.Core/Cards/Commands/UpdateCardCommand.cs:40 | the white space that makes a value blank for `NotEmpty`; used by `Validators.UpdateValidIff` and `Validators.CreateValidIff` |
| `Text.ParseInt32` | DesafioBackend.Application/Middleware/ChangeTrackerFilter.cs:24 | `int.TryParse`; stated by `Text.ParseFormatRoundTrip` |
| `Text.OrdinalLeTotal` | DesafioBackend.Application/Middleware/ValidationFilter.cs:109-110 | the order the errors are sorted by is total (with reflexivity, antisymmetry and transitivity alongside) |
| `Text.ParseFormatRoundTrip` | DesafioBackend.Application/Middleware/ChangeTrackerFilter.cs:24 | `int.TryParse` reads back every `int` from the decimal text `int.ToString` gives it |
| `Text.WrapInt32` | DesafioBackend.ApiService/Configurations/AuthenticationConfiguration.cs:74 | unchecked `int` arithmetic: the result is in range, congruent to the exact value modulo 2^32, and equal to it when it fits |

## Left out

- Output caching (the base policy in `Program.cs`): no tags or eviction exist, so a cached GET answer is not modelled.
- Authorization on `/cards`: the bearer middleware's 401 comes before every route modelled here; token verification is library code.
- JWT creation and serialization and the HMAC-SHA-256 signature: they are the `write` parameter of `Tokens.GenerateToken`, with all their checks, such as a minimum key length or expiry after not-before.
- The clock and `Guid.NewGuid` are parameters (`now`, `jti`); log lines carry the time as an integer.
- EF Core itself: the SQL and the change-detection snapshot are replaced by the `Store` model.
- Database refusals other than a column bound: a text value holding U+0000, which PostgreSQL text columns reject, and a connection or server failure. In the source, each of these makes `SaveChangesAsync` throw. On POST and PUT the validation filter then answers its 500 "Validation Error" problem; on DELETE the exception handler answers 500. The model's store refuses a commit only for a column-bound break, so the "never 500" of `CardsModule.ValidatedUpdate` and `CardsModule.CreateCardRoute` holds only for the refusals it models.
- CardService.DeleteCard (and CardsModule.DeleteCardRoute): the `false` answer after a removal, and with it the 404 of a delete whose commit affects no row, is never produced. A removed card's row can only be missing when another request deleted it in between, and EF Core then throws `DbUpdateConcurrencyException` instead of reporting 0 rows. The model has no concurrent requests, so such a commit always affects one row (`Store.CardStore.RemovalCommitCount`).
- The `{id:int}` route constraint (CardsModule.cs lines 29 and 44): a PUT or DELETE whose id segment is not an integer never matches the route and gets the routing 404. The routing itself is not modelled. `CardsModule.UpdateCardRoute` and `CardsModule.DeleteCardRoute` require that the route value parses with `Text.ParseInt32`, which is what the constraint guarantees.
- `CardService.GetAllCards`: `ToListAsync` has no ORDER BY, so the database may return rows in any order; the model returns them in ascending id order.
- Concurrency, async and cancellation. Each request is modelled alone with a fresh unit of work. The static `ErrorArrayCache` of the validation filter is shared between threads; the model gives each property a fresh array. Sequentially this yields the same groups, because only the first `currentIndex` entries are ever copied.
- `ValidationFilter.Gate`: its not-found branch is modelled, but `default(TRequest)` of the record-struct commands is never null, and `CardsModule.RequestsFound` shows that the commands are always found on these routes.
- `ValidationFilter.GroupValidationErrors`: it sorts by ordinal code-unit order, not by the culture-sensitive comparer of `OrderBy`. Which failures share a key, and their order, are the same for any total order in which only equal names compare equal. A culture order can rank two different names as equal, interleave their errors, and so let a later run of a property overwrite an earlier one in the dictionary; the model's names Title, Content and List cannot do that. The dictionary is modelled as a map, so the order in which its keys were inserted is not kept.
- `ValidationFilter.GroupedValues`: the bound that all groups together hold no more messages than there were errors is stated per property, as a prefix of that property's failures, not as a sum.
- FluentValidation's message texts: a failure is a constructor carrying the rule and its numbers; FluentValidation's default message texts are not reproduced.
- The `NotNull` rules of the create validator: `CreateCardCommand` declares Title and Content non-nullable, and the model gives them type `string`, so those rules cannot fail here. A JSON body that omits them would bind null in .NET.
- `LoginOptions.IsValid`: a request field that binds to null is likewise not representable; it never equals a configured non-null value.
- String lengths count Unicode scalar values; .NET counts UTF-16 code units, so characters outside the Basic Multilingual Plane count once here and twice there. Lone surrogates are not representable.
- `Text.ParseInt32`: the trailing NUL characters that .NET number parsing also tolerates are not accepted.
- `JwtOptions.ExpirationDate`: minutes are whole numbers; `AddMinutes` rounding of fractions does not arise.
- The logger's message formatting, OpenAPI metadata and process bootstrap.
