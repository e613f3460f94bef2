# Cinema: a verified model of the order, catalog and auth services

The system sells cinema tickets. An HTTP gateway authenticates clients and forwards their requests over TCP to
three services, each with a PostgreSQL database of its own: auth (users, tokens), catalog (movies) and order
(orders). There are no foreign keys between the databases, handlers interleave at every `await`, a caller that
times out leaves its callee running, and prices are IEEE 754 doubles in memory and `NUMERIC` columns on disk. This
project models that system and proves what it keeps over every run.

`dafny verify dfyconfig.toml` checks everything.

## How the model is built

- **The services** (`Entities`, `AuthService`, `CatalogService`, `OrderService`): each handler is a program counter
  and a step function, one step per `await`. Every repository call is one atomic step under the declared constraints. `save`
  is an upsert by primary key: a stale update writes back the columns it had loaded, and a row deleted meanwhile is
  inserted again under its old id.
- **The gateway** (`Gateway`): guards, validation, routes, and the HTTP answers.
- **The system** (`Cinema`): the three databases, all requests and all handlers in flight, and ten kinds of action.
  An action is one step of one handler, or an arrival, a reply, a timeout or a transport error; any request may take
  the next step. A run is any sequence of actions. Ids, clock readings, tokens and the decimal texts that the driver
  writes are inputs of an action. `Observer` keeps a log beside a run, which the system never reads.
- **The same services as objects** (`AuthObjects`, `CatalogObjects`, `OrderObjects`): repositories that own their
  table, entities that are changed in place, and the service methods, each proved against the step functions run
  back to back. `Uninterrupted` shows that this is exactly what the system does when nobody interrupts the handler.
- **Money** (`Binary64`, `Money`): round to nearest, ties to even (section 4.3.1 of IEEE 754-2019), defined on the
  reals, proved against an independent description, and used for `toCents`, `fromCents` and the column round trip.
- **Errors** (`RpcErrors`): the two functions an error alternates between at every hop.
- **Bodies** (`Text`, `Dtos`, `Pipes`): trimming, e-mail normalisation and the validation pipes that run twice.
- **Answers** (`Verdicts`, `Histories`, `Answers`, `AccountAnswers`, `MovieAnswers`, `OrderAnswers`): what each handler says
  about the table it finds, in so many words, and that this is what clients are told, in every run.
- **Passwords** (`Bcrypt`): the 72 bytes of a password's UTF-8 text that key the hash. Which passwords have the same
  hash is part of the model.

## Main results

Over every run of the whole system, started empty:

1. Every order is a snapshot of one movie version that was in the catalog at one instant of the lifetime of the
   handler that made the order, with the exact total, and never changes but in status and time of update.
2. Every order's user is a row of users, and its movie was a row of movies at an earlier instant.
3. One of n concurrent creates of a free movie, or registrations of a free e-mail, wins, and the others get 409,
   whenever each of them arrives. Between two accepted creates of one movie some step has freed its title and year.
4. Deleting all steps of other users' order requests from a run leaves a run, in which every remaining request has
   the answer it had.
5. A POST makes at most one order whatever times out; 201 means one exists, and any other answer means that none
   exists and none ever will for that request, unless it is the gateway's own 502, 503 or 504 for its call of the
   order service. One that names the catalog service is not. (A database call that fails has not committed here; see
   "Left out".)
6. The catalog changes only on behalf of the seeded administrator; issued tokens stay in agreement with their row.
7. An order's status flips at most once; of cancellations that do not overlap exactly the first succeeds.
8. Orders and movies change only on request of their owner or of an administrator, and just the one asked for;
   order routes show a user nothing but the user's own orders.
9. Whoever has registered can log in later, in any interleaving, exactly with the passwords that have the same bcrypt
   key; without NUL characters, these are the ones with the same first 72 bytes. That is the registered password and
   no other if and only if the registered one has fewer than 72 bytes or is 72 ASCII characters, and, when logins may
   hold NUL characters, only in the second case.
10. Order totals are exact to the cent for every price the column can hold, and always fit their column.
11. No two accounts, the administrator's included, have addresses that differ in nothing but ASCII case and surrounding
    white space; whoever was registered had sent two equal passwords.
12. Every answer that comes from a service is the one that the table of some instant of its handler's life calls for,
    with its status, message, label and data, for each of the twelve routes. For example, the answer of a movie or an
    order is 404 exactly if there is none at that instant, `GET /orders` shows the user's orders newest first, and
    `POST /orders` with a valid body is answered 201, 404, or a failure in the catalog's name, and nothing else.
    Where the gateway answers in a service's place, a timeout is a 504, a connection that cannot be used a 503, and
    the rest a 502.
13. Whenever the save of a create or update is accepted, its handler had made sure of just the pair of title and year
    that is written: it had found the pair free, or had loaded the movie with it.

## Where the code and what is said about it differ

- The unit test (`apps/order-service/src/orders.service.spec.ts:74`) says that `12.99 * 3` is 38.970000000000006 in
  floating point. It is the double 38.97 (`Money.QuotedProductDoesNotDrift`). Other products do drift, for example
  `1.10 * 3` (`Money.PlainProductDrifts`), so the cents are needed all the same.
- A PATCH body may hold `null` for a title or a number: `PartialType` makes every property optional, and optional
  properties let null through. The column refuses it and the client gets a 500, not a 400
  (`CatalogSafety.UpdateSaves`).
- A delete that answered success does not keep a movie deleted: an update that had loaded the row before brings it
  back. `CatalogSafety.DeletedStaysDeletedUnless` says exactly when, and
  `Witnesses.DeletedMovieComesBackInARun` gives a run from the start, for every movie and price.
- Two overlapping cancellations of one order can both answer success, though the status flips only once
  (`Cancellation.OverlappingCancelsBothSucceed`; `Witnesses.OrderIsCancelledTwiceInARun` is a run from the start).
- The DTOs limit a password to 72 characters because bcrypt uses 72 bytes
  (`libs/shared/src/dtos/auth/register.dto.ts:17`), but a character may have up to four bytes. An account registered
  with 37 letters é opens with 36 of them (`Accounts.AnotherPasswordGetsIn`). A NUL character has a similar effect
  (`Bcrypt.RepetitionSharesTheKey`). `Accounts.OnlyItsOwnPassword` says for which passwords none of this happens.
- An `RpcException` payload whose message is undefined loses the key on the wire and arrives as a 502
  (`RpcErrors.FixpointOfRpcException`). No handler of the repository throws one.

## Model

| member | source | states |
|---|---|---|
| Binary64.RelativeError | libs/shared/src/database/decimal.transformer.ts:11-12 | rounding a normal real to a double errs by at most 2^-53 of it; proved from the definition of rounding, not assumed |
| Binary64.SubnormalError | libs/shared/src/database/decimal.transformer.ts:11-12 | below the normal range the error is at most half of the smallest double |
| Binary64.RoundIsDouble | libs/shared/src/database/decimal.transformer.ts:11-12 | the rounded value is a double: 53 bits of significand and an exponent in range |
| Binary64.RoundIsNearest | libs/shared/src/database/decimal.transformer.ts:11-12 | no double is nearer than the rounded value, and of two equally near ones it is the even one |
| Binary64.RoundFixesIntegers | libs/shared/src/database/decimal.transformer.ts:11-12 | integers of magnitude below 2^53 are doubles: rounding leaves them as they are |
| Money.ToCentsIsExact | libs/shared/src/database/decimal.transformer.ts:11 | toCents of the double nearest to c/100 is exactly c, for every c from 0 to 2^51 - 1 |
| Money.ReadIsInjective | libs/shared/src/database/decimal.transformer.ts:6-7 | distinct cent amounts below 2^51 read as distinct Numbers |
| Money.StoreUndoesRead | libs/shared/src/database/decimal.transformer.ts:4-8 | whatever decimal text that reads back to the Number is written, the NUMERIC(p, 2) column holds the same cents again |
| Money.NumberIsItsOwnText | libs/shared/src/database/decimal.transformer.ts:4-8 | such a text always exists |
| Money.OrderTotalIsExact | apps/order-service/src/orders.service.ts:36-47 | for every price of numeric(10,2) and quantity 1 to 10 the total is the Number of exactly price times quantity cents, and every intermediate is an integer below 2^53 |
| Money.StoredTotalIsExact | apps/order-service/src/entities/order.entity.ts:44-65 | both price columns hold exact cents whatever texts the driver writes, and numeric(12,2) never overflows |
| Money.PlainProductDrifts | libs/shared/src/database/decimal.transformer.ts:10 | without cents totals are wrong: 1.10 * 3 is not the double 3.30 |
| Money.QuotedProductDoesNotDrift | apps/order-service/src/orders.service.spec.ts:74 | the product quoted as drifting, 12.99 * 3, does not drift |
| RpcErrors.HopKeepsExactlyComplete | libs/shared/src/rpc/rpc-error.ts:24-69 | one hop leaves an error unchanged if and only if its payload has both a message and an error label |
| RpcErrors.RelayKeepsHttpErrors | libs/shared/src/rpc/rpc-client.ts:67-77 | status, message and label of every HttpException are unchanged after any number of hops through any services |
| RpcErrors.FirstHopDecides | libs/shared/src/rpc/rpc-client.ts:67-100 | whatever was thrown, all hops after the first change nothing |
| RpcErrors.FixpointOfRpcException | libs/shared/src/rpc/rpc-error.ts:41-50 | what every RpcException payload becomes, in particular one without a label: same status and message, label HttpException |
| RpcErrors.InternalsStayInside | libs/shared/src/rpc/rpc-error.ts:52-68 | unique violations and unforeseen errors reach the client as one of two fixed payloads |
| RpcErrors.BareExceptionsAreFilledIn | libs/shared/src/rpc/rpc-error.ts:24-50 | what is left out of an exception is filled in with its own message and class name, or with the 500 of an RpcException, and keeps so over any number of hops |
| RpcErrors.FaultsAreClassified | libs/shared/src/rpc/rpc-client.ts:79-99 | 504 exactly for a timeout, 503 exactly for one of the five connection codes, otherwise 502, each with its message and label |
| RpcErrors.ExceptionsAreNamed | libs/shared/src/rpc/rpc-error.ts:24-39 | status, message and label of the exceptions that handlers throw |
| Gateway.FaultsAreAnswered | libs/shared/src/rpc/rpc-client.ts:79-99 | for every route, a client whose request failed on the way is told so in the name of the service behind the route |
| Answers.FailureIsAnswered | libs/shared/src/rpc/rpc-client.ts:48-61 | the same of the step in which the gateway stops waiting |
| Text.TrimStrips | libs/shared/src/dtos/movies/create-movie.dto.ts:13-14 | trim removes white space from both ends, all of it and nothing else |
| Text.TrimIsIdempotent | libs/shared/src/dtos/movies/create-movie.dto.ts:13-14 | trimming twice is trimming once, and never lengthens |
| Text.SpacesAreListed | libs/shared/src/dtos/movies/create-movie.dto.ts:13-14 | the characters that trim removes are the 25 of ECMA-262 |
| Text.NormalizeEmailLowers | libs/shared/src/dtos/auth/normalize-email.ts:3-4 | a normalised address has no capital letter A to Z and no surrounding white space, and is otherwise the address, character by character |
| Text.NormalizeEmailTells | libs/shared/src/dtos/auth/normalize-email.ts:3-4 | two addresses are normalised to one text if and only if they differ in ASCII case and surrounding white space at most |
| Text.NormalizeIsIdempotent | libs/shared/src/dtos/auth/normalize-email.ts:3-4 | normalizing twice is normalizing once, for every lower-casing that is idempotent and creates no white space at the ends |
| Pipes.PipeIsStable | libs/shared/src/rpc/bootstrap-microservice.ts:15-23 | what a pipe hands on, the same pipe accepts and leaves unchanged |
| Pipes.PipeTakesOneMore | apps/api-gateway/src/orders/orders.controller.ts:33-42 | and so does the pipe of a payload to which the gateway has added one valid key |
| Pipes.MovieBodyIsStable | libs/shared/src/dtos/movies/create-movie.dto.ts:16-43 | double validation of a movie body changes nothing |
| Pipes.UpdatePayloads | libs/shared/src/dtos/movies/update-movie.dto.ts:9-14 | the catalog service takes {id, changes}, with the changes validated and transformed as a nested object, if and only if the id is positive and the gateway's pipe takes the changes on their own, and hands on what that pipe does |
| Pipes.ChangesBodyIsStable | apps/api-gateway/src/movies/movies.controller.ts:63-71 | the changes that the gateway accepts pass its pipe again, and, nested beside a positive id, the catalog service's, unchanged |
| Pipes.AcceptedChangesAreValid | libs/shared/src/dtos/movies/update-movie.dto.ts:7 | every accepted PATCH body says a valid record of changes, property by property, missing and null ones included |
| Pipes.ValidChangesAreAccepted | libs/shared/src/dtos/movies/update-movie.dto.ts:7 | every body that says a valid record of changes is accepted as it is |
| Pipes.CredentialsAreStable | libs/shared/src/dtos/auth/register.dto.ts:11-26 | double validation of registrations and logins changes nothing |
| Pipes.OrderBodyIsStable | libs/shared/src/dtos/orders/create-order.dto.ts:6-22 | an accepted order body with the token's user id added passes the order service unchanged |
| Pipes.AcceptedMovieIsValid | libs/shared/src/dtos/movies/create-movie.dto.ts:16-43 | every accepted movie body says exactly one valid movie record |
| Pipes.ValidMovieIsAccepted | libs/shared/src/dtos/movies/create-movie.dto.ts:16-43 | every valid movie record is accepted as it is |
| Pipes.OrderBodies | libs/shared/src/dtos/orders/create-order.dto.ts:6-15 | an order body is accepted, unchanged, if and only if the id is positive and the quantity is 1 to 10 |
| Pipes.AcceptedCredentialsAreNormal | libs/shared/src/dtos/auth/register.dto.ts:11-26 | accepted credentials have an address in normal form and passwords of the lengths the DTOs allow, for every lower-casing and every notion of an address |
| Pipes.AcceptedCredentialsAreValid | libs/shared/src/dtos/auth/login.dto.ts:5-14 | with the lowering of ASCII letters, accepted credentials are the valid records that the services of the model handle, and hold no capital letter A to Z in the address |
| Pipes.ValidCredentialsAreAccepted | libs/shared/src/dtos/auth/login.dto.ts:5-14 | every valid registration or login whose address is one passes as it is |
| Pipes.SpellingMakesNoDifference | libs/shared/src/dtos/auth/normalize-email.ts:3-4 | two spellings of an address that differ in ASCII case and surrounding white space only give the services the same body |
| Cinema.AdmitIdentifies | apps/api-gateway/src/auth/jwt-auth.guard.ts:20-50 | a request let in on a guarded route has an identity |
| Identity.AuthStepKeeps | apps/auth-service/src/auth.service.ts:38-110 | no step of the auth service breaks unique ids and e-mails, seeds another administrator, changes a user or forgets a token |
| Identity.GuardsIdentify | apps/api-gateway/src/auth/roles.guard.ts:22-39 | whoever the guards let in is a row of users as it is now, and an administrator where the route asks for one |
| Identity.IdentityHolds | apps/auth-service/src/auth.service.ts:38-110 | in every reachable state every identity, in tokens, requests, messages and orders, is a row of users, and administrators have the configured address |
| Identity.IssuedTokensStayCurrent | apps/api-gateway/src/auth/jwt-auth.guard.ts:20-50 | in every later state the guard lets an issued token in exactly until it expires and attaches the users row as it is then (sections 4.1.2 and 4.1.4 of RFC 7519) |
| Identity.BearerToken | apps/api-gateway/src/auth/jwt-auth.guard.ts:52-55 | the token of a Bearer header is extracted whole |
| Access.GuardsDecide | apps/api-gateway/src/auth/roles.guard.ts:22-39 | four routes are open to everybody; the others let in exactly the holders of a live token, three of them an administrator's, as whom the token names; otherwise the answer is 401 or 403, with its message |
| Access.AdmissionDecides | apps/api-gateway/src/setup.ts:4-12 | whoever the guards let in is refused with 400 for a body that is not valid, and otherwise admitted |
| Access.GatewayChecksWhatServicesCheck | libs/shared/src/rpc/bootstrap-microservice.ts:15-23 | the gateway lets in exactly the bodies that the service behind the route accepts; only ids in the path are left to the services |
| Access.ArrivalDecides | apps/api-gateway/src/auth/jwt-auth.guard.ts:20-50 | a request is answered on arrival exactly if it is not let in, and otherwise waits for one new handler |
| Access.SplitUndoesJoin | apps/api-gateway/src/auth/jwt-auth.guard.ts:53 | splitting a header loses nothing and yields words without spaces |
| Access.BearerTokenIsSecondWord | apps/api-gateway/src/auth/jwt-auth.guard.ts:52-55 | a token is extracted if and only if the header is "Bearer", a space, the token, and then nothing or a space and anything |
| Accounts.LoginDecides | apps/auth-service/src/auth.service.ts:51-78 | a login succeeds exactly for the address of an account and a password with the same hash, and the token carries that account's claims; every other one gets the same 401 and changes nothing |
| Accounts.RegistrationsHold | apps/auth-service/src/auth.service.ts:99-110 | in every reachable state a registration answered with success has its row, with role USER and the hash of its own password |
| Accounts.OnlyConfirmedRegister | apps/auth-service/src/auth.service.ts:38-41 | in every run, a registration answered with a user had two equal passwords, and a valid one with different passwords is answered 400 "Passwords do not match" |
| Accounts.OneAccountPerAddress | libs/shared/src/dtos/auth/normalize-email.ts:3-4 | in every reachable state, no two accounts have addresses that differ only in ASCII case and surrounding white space |
| Accounts.RegisteredCanLogIn | apps/auth-service/src/auth.service.ts:38-78 | in any interleaving, every login that begins after a registration was answered with success, for its address, is answered with a token for the account if the two passwords have the same bcrypt key, and otherwise with the 401 |
| Accounts.CompareLooksAt72Bytes | libs/shared/src/dtos/auth/register.dto.ts:17-20 | bcrypt takes a password for another, both of any length and without NUL characters, if and only if their first 72 bytes are the same |
| Accounts.OnlyItsOwnPassword | libs/shared/src/dtos/auth/register.dto.ts:17-20 | for every valid registered password without NUL characters: no other valid login without NUL characters opens the account if and only if the password has fewer than 72 bytes or is 72 ASCII characters, and no other valid login at all if and only if it is 72 ASCII characters |
| Accounts.AnotherPasswordGetsIn | libs/shared/src/dtos/auth/register.dto.ts:17-20 | a valid registration with 37 letters é, and a different valid login that bcrypt takes for it |
| Bcrypt.Utf8IsInjective | apps/auth-service/src/auth.service.ts:60 | different passwords have different UTF-8 bytes (section 3 of RFC 3629) |
| Bcrypt.KeysCompareCuts | apps/auth-service/src/auth.service.ts:104 | two passwords without NUL characters have the same key if and only if they agree in their first 72 bytes |
| Bcrypt.OnlyWithoutNul | apps/auth-service/src/auth.service.ts:104 | for passwords of 8 to 72 characters without NUL, the key belongs to one password only if and only if it has fewer than 72 bytes or is 72 ASCII characters |
| Bcrypt.OnlyOfAll | apps/auth-service/src/auth.service.ts:104 | and when the other password may hold NUL characters, if and only if it is 72 ASCII characters |
| Bcrypt.RepetitionSharesTheKey | apps/auth-service/src/auth.service.ts:104 | a password, NUL, and the password again has the key of the password alone |
| Identity.CatalogWritesTraceToAdmin | apps/api-gateway/src/movies/movies.controller.ts:50-82 | every step that changes movies handles a message sent for a users row with role ADMIN and the configured address |
| Identity.OrdersReferToUsers | apps/api-gateway/src/orders/orders.controller.ts:33-42 | every order's user is a row of users |
| Links.StepContinues | libs/shared/src/rpc/rpc-client.ts:48-61 | no step forgets a request or handler, changes a call, or changes a finished handler or an answered request |
| Links.LinksHold | libs/shared/src/rpc/rpc-client.ts:48-61 | in every reachable state each request's handler does its route's call, and each answer is that handler's reply or one of the gateway's own three answers to a timeout, a refused connection or an unexpected failure |
| Replies.AnswerKeepsStatus | libs/shared/src/rpc/rpc-client.ts:67-77 | a failed handler's status, message and label are the HTTP answer's |
| Replies.RelayedReplies | apps/order-service/src/orders.service.ts:30-34 | the order service passes the catalog's error on unchanged |
| Replies.RepliesHold | libs/shared/src/rpc/rpc-exceptions.filter.ts:15-25 | in every reachable state every failure carries a complete payload with a status from 400 to 599 |
| Observer.VersionsAreStates | apps/catalog-service/src/movies.service.ts:29-50 | the recorded movie versions are the movies tables of the run's own prefixes |
| Snapshots.InsertCopies | apps/order-service/src/orders.service.ts:36-47 | inserting an order made from a catalog row succeeds, stores the row's cents and the exact total, and answers the Numbers a later read delivers |
| Snapshots.SnapshotsHold | apps/order-service/src/orders.service.ts:31-47 | in every reachable state each order has a maker, and copies one movie version read between the maker's start and end |
| OrderHistory.LogIsTrue | apps/order-service/src/orders.service.ts:25-79 | the recorded begin and end of a handler are the instants at which the run itself has it begin and end |
| OrderHistory.OrdersAreSnapshots | apps/order-service/src/orders.service.ts:31-47 | each order holds (id, title, year, price) of one single movie version that was in the catalog at an instant inside the lifetime of its own create |
| OrderHistory.OrdersReferToUsersAndMovies | apps/order-service/src/entities/order.entity.ts:13-31 | each order's user is a row of users now, and its movie was a row of movies at an earlier instant |
| OrderHistory.SnapshotsNeverChange | apps/order-service/src/entities/order.entity.ts:33-65 | no later step removes an order or changes any column but status and time of update |
| OrderHistory.InsertsSucceed | apps/order-service/src/entities/order.entity.ts:19-21 | in every reachable state every attempted insert meets both CHECKs and all column bounds |
| OrderHistory.OrdersHaveOneMaker | apps/order-service/src/orders.service.ts:47 | rows and successful creates correspond one to one |
| OrderHistory.AtMostOneOrderPerRequest | libs/shared/src/rpc/rpc-client.ts:48-61 | each POST makes at most one order in any run |
| OrderHistory.AnswersTellTheTruth | libs/shared/src/rpc/rpc-client.ts:48-100 | 201 names the one order made, with the prices any read delivers; any other answer but the gateway's own 502, 503 or 504 for its call of the order service means no order was or ever will be made for the request |
| OrderHistory.BlamingTheCatalogMeansNoOrder | apps/order-service/src/orders.service.ts:30-34 | a 502, 503 or 504 that names the catalog service was relayed, and means the same |
| OrderHistory.AnswersAreFinal | libs/shared/src/rpc/rpc-client.ts:48-61 | a request has one answer; late replies change nothing |
| CatalogSafety.UniquenessHolds | apps/catalog-service/src/entities/movie.entity.ts:12-18 | (title, releaseYear) and email are unique and ids are below their counters in every reachable state |
| CatalogSafety.CheckedPairIsWritten | apps/catalog-service/src/movies.service.ts:35-45 | the pair that the check looks up is the pair written if and only if neither is null, so always when the write is accepted |
| CatalogHistory.AcceptedPairsWereChecked | apps/catalog-service/src/movies.service.ts:29-45 | over every run: when a save is accepted, an earlier step of the same handler had looked up just the pair that is written and found it free of other movies, or had loaded the movie with just this pair |
| CatalogHistory.FreedBetweenCreates | apps/catalog-service/src/entities/movie.entity.ts:12-18 | over every run: between two accepted creates of one pair there is a step that took the pair from its one movie, a DELETE of the movie or an update saved with another pair |
| CatalogSafety.UpdateSaves | apps/catalog-service/src/movies.service.ts:44 | exactly when the save of an update is accepted, and the whole table it leaves, stale or not |
| CatalogSafety.DeletedStaysDeletedUnless | apps/catalog-service/src/movies.service.ts:36-50 | a deleted movie is back exactly when an update that had loaded it is saved and its pair is still free |
| CatalogSafety.DeletedMovieComesBack | apps/catalog-service/src/movies.service.ts:36-50 | on a table with one movie: loaded for an update, deleted with success, saved, the movie is back |
| Witnesses.DeletedMovieComesBackInARun | apps/catalog-service/src/movies.service.ts:35-50 | a run from the start, for every usable configuration, movie and price, in which a DELETE is answered 204 while the movie is gone, and the movie is in the catalog again afterwards |
| Witnesses.MovieCanComeBack | apps/catalog-service/src/movies.service.ts:35-50 | the same, with the 204, from every state with an administrator signed in |
| Race.FinishDecides | apps/catalog-service/src/movies.service.ts:29-33 | in any fair race for a key, when nobody tries any more one has won and all others have lost |
| CreateRace.ContenderStep | apps/catalog-service/src/movies.service.ts:52-68 | a step of a create keeps trying, loses a taken pair by the check or by the constraint, or takes a free one |
| CreateRace.ExactlyOneCreateWins | apps/catalog-service/src/movies.service.ts:29-33 | n creates of one free pair, each arriving at any time, in any interleaving: one success, one row, and 409 for all others |
| CreateRace.ExactlyOneClientWins | libs/shared/src/rpc/rpc-error.ts:52-62 | the clients of that race see one 201 and otherwise 409 |
| RegisterRace.ExactlyOneRegistrationWins | apps/auth-service/src/auth.service.ts:43-48 | n registrations of one free e-mail, each arriving at any time, in any interleaving: one success, one row, and 409 for all others |
| RegisterRace.ExactlyOneClientRegisters | libs/shared/src/rpc/rpc-error.ts:52-62 | the clients of that race see one 201 and otherwise 409 |
| Isolation.OwnBegin | apps/order-service/src/orders.service.ts:50-79 | what a handler reads depends on the user's own rows alone |
| Isolation.ForeignAnswersAsMissing | apps/order-service/src/orders.service.ts:57-66 | another user's order is answered exactly as a missing one |
| Isolation.OthersOrdersDoNotMatter | apps/order-service/src/orders.service.ts:50-79 | without all steps of other users' order requests a run is still a run, every other request has the same answer, and the user's orders are the same |
| Cancellation.OnlyTheOwnersCancelMovesAnOrder | apps/order-service/src/orders.service.ts:68-79 | in every run a step changes an order only by completing its owner's cancellation of it, and then no other order and no other column |
| Cancellation.CancelledStaysCancelled | apps/order-service/src/orders.service.ts:71-78 | a cancelled order is cancelled at every later instant |
| Cancellation.StatusFlipsOnce | apps/order-service/src/orders.service.ts:71-78 | there is one instant before which the order is confirmed and from which on it is cancelled |
| Cancellation.ReadDecidesTheAnswer | apps/order-service/src/orders.service.ts:61-79 | the table at one instant of its lifetime decides a cancellation: 400, 404, 409 or success, which leaves the order cancelled |
| Cancellation.FirstCancelWins | apps/order-service/src/orders.service.ts:68-79 | of the owner's cancellations that do not overlap exactly the first succeeds, and all others get 409 |
| Cancellation.OverlappingCancelsBothSucceed | apps/order-service/src/orders.service.ts:68-79 | from any state in which two cancellations are about to read the order there is a run in which both are told they succeeded |
| Witnesses.OrderIsCancelledTwiceInARun | apps/order-service/src/orders.service.ts:68-79 | a run from the start, for every usable configuration and movie, in which two requests to cancel one order are both answered 200 |
| Witnesses.BothCanBeAnswered | apps/order-service/src/orders.service.ts:68-79 | the same from every state in which the requester has a confirmed order |
| Origins.OrdersComeFromTheirBuyers | apps/api-gateway/src/orders/orders.controller.ts:33-42 | every order is what its own user asked for: a POST of this movie and quantity |
| Origins.OnlyTheOwnersRequestChangesAnOrder | apps/api-gateway/src/orders/orders.controller.ts:63-72 | an order changes only by a cancel request for it by its owner |
| Origins.OnlyAnAdministratorsRequestWritesAMovie | apps/api-gateway/src/movies/movies.controller.ts:50-82 | a movie is written only by an administrator's POST, under a fresh id, or PATCH or DELETE of just that movie |
| Origins.AnswersShowOwnOrders | apps/api-gateway/src/orders/orders.controller.ts:44-72 | in every run, every successful answer of an order route shows orders of the request's own user only |
| RoundTrips.CreatedMovieIsFound | apps/catalog-service/src/movies.service.ts:22-33 | a movie is created with the values sent, is then found as answered, and no other movie is touched |
| RoundTrips.UpdatedMovieIsFound | apps/catalog-service/src/movies.service.ts:35-45 | an accepted update takes each property of the body and keeps the row's others, is then found as answered, and no other movie is touched |
| RoundTrips.UpdateConflicts | apps/catalog-service/src/movies.service.ts:38-42 | an update to a title and year that another movie has gets the 409 with its message and changes nothing; the movie's own pair never conflicts |
| RoundTrips.RemovedMovieIsGone | apps/catalog-service/src/movies.service.ts:47-50 | a removed movie is answered 404 when it is looked up or removed again, and no other movie is touched |
| RoundTrips.CreatedOrderIsFound | apps/order-service/src/orders.service.ts:25-66 | a create made from the catalog's row answers its price and the exact total, the buyer then finds just that, nobody else finds it, and no other order is touched |
| RoundTrips.CancelledOrderIsFound | apps/order-service/src/orders.service.ts:61-79 | a cancelled order is found cancelled and otherwise unchanged, a second cancellation gets 409, and no other order is touched |
| Verdicts.ShownReads | apps/catalog-service/src/movies.service.ts:24 | the id in a message reads back as the id, in decimal digits without leading zeros, and a sign if there is one |
| Verdicts.RegisterDecides | apps/auth-service/src/auth.service.ts:38-49 | two different passwords get the 400 whatever the table holds, a taken address the 409, and otherwise there is one more user, with just what was sent and role USER |
| Verdicts.ProfileDecides | apps/auth-service/src/auth.service.ts:80-85 | a profile is the user's row without the hash, or the 404 |
| Verdicts.SeedingDecides | apps/auth-service/src/auth.service.ts:87-97 | seeding adds the administrator, under the normalised address, unless nothing is configured or the address is taken |
| Verdicts.FindOneDecides | apps/catalog-service/src/movies.service.ts:22-27 | a movie is answered with all its columns, and with the 404 and its message exactly if there is none |
| Verdicts.UpdateDecides | apps/catalog-service/src/movies.service.ts:35-36 | an update of a positive id gets the 404 exactly if there is no such movie when it looks |
| Verdicts.WritersDoNotMiss | apps/catalog-service/src/movies.service.ts:29-45 | no later step of an update, and no step of a create, answers 404 |
| Verdicts.RemoveDecides | apps/catalog-service/src/movies.service.ts:47-50 | a removal takes just this movie away, and gets the 404 and changes nothing exactly if there is none |
| Verdicts.CreateDecides | apps/catalog-service/src/movies.service.ts:29-33 | a valid movie is stored and answered as it was sent, or refused with the 409 and its message exactly if the pair is taken |
| Verdicts.AllMoviesAreReplied | apps/catalog-service/src/movies.service.ts:18-20 | the reply has each movie of the table once, by ascending id, with all its columns |
| Verdicts.InvalidPayloadsAreRefused | libs/shared/src/rpc/bootstrap-microservice.ts:15-23 | a payload that is not valid gets a 400 from every handler and changes nothing |
| Verdicts.UserOrdersAreReplied | apps/order-service/src/orders.service.ts:50-55 | the reply has each order of the user once, by descending time and id, with all its columns |
| Verdicts.FindOrderDecides | apps/order-service/src/orders.service.ts:61-66 | an order of the user is answered with all its columns, anything else with the 404 and its message |
| Verdicts.CancelDecides | apps/order-service/src/orders.service.ts:68-76 | what a cancellation finds decides between the 404, the 409 and going on |
| Verdicts.CatalogFailureDecides | apps/order-service/src/orders.service.ts:30-34 | a call of the catalog that fails on the way is answered 504, 503 or 502 in the catalog's name, and a refusal of the catalog's as it is |
| Histories.CatalogReached | apps/catalog-service/src/movies.service.ts:29-50 | in every run, where a handler of the catalog stands is where a step of its own at an earlier instant brought it |
| Answers.CatalogAnswered | libs/shared/src/rpc/rpc-client.ts:48-61 | in every run, an answer to a movie route that the gateway did not make up is that of the last step of the handler of just this call |
| AccountAnswers.RegisterAnswered | apps/api-gateway/src/auth/auth.controller.ts:25-31 | in every run, POST /auth/register is answered 400, 409 or 201 as the passwords and the users of one instant call for, and 201 adds just this user |
| AccountAnswers.LoginAnswered | apps/api-gateway/src/auth/auth.controller.ts:33-37 | in every run, POST /auth/login is answered 200 with a Bearer token for the account exactly if the address and the hash match when the handler looks, and otherwise with the one 401 |
| AccountAnswers.ProfileAnswered | apps/api-gateway/src/auth/auth.controller.ts:39-46 | in every run, GET /auth/me is answered 200 with the row of the token's user, and with nothing else |
| MovieAnswers.MoviesAnswered | apps/api-gateway/src/movies/movies.controller.ts:34-40 | in every run, GET /movies is answered 200 with the movies of one instant, each once, by ascending id |
| MovieAnswers.MovieAnswered | apps/api-gateway/src/movies/movies.controller.ts:42-48 | in every run, GET /movies/:id shows just this movie as it is at one instant, or is answered 404 exactly if there is none then |
| MovieAnswers.PostMovieAnswered | apps/api-gateway/src/movies/movies.controller.ts:50-58 | in every run, POST /movies is answered 201, with the movie as it was sent under a new id, exactly if the pair is free at the last step, and otherwise 409 |
| MovieAnswers.PatchAnswered | apps/api-gateway/src/movies/movies.controller.ts:60-72 | in every run, PATCH /movies/:id is answered 404 exactly if there is no such movie when the handler looks, and a success shows just this movie |
| MovieAnswers.DeleteAnswered | apps/api-gateway/src/movies/movies.controller.ts:74-82 | in every run, DELETE /movies/:id is answered 204, and takes just this movie away, exactly if there is one at that instant, and otherwise 404 |
| OrderAnswers.PostOrderAnswered | apps/order-service/src/orders.service.ts:25-48 | in every run, POST /orders with a valid body is answered 201 with this user's order of the movie as the catalog had it when it looked, 404 exactly if the catalog had none then, or 504, 503 or 502 in the catalog's name |
| OrderAnswers.OrdersAnswered | apps/api-gateway/src/orders/orders.controller.ts:44-50 | in every run, GET /orders is answered 200 with the user's orders of one instant, each once, newest first, with all their columns |
| OrderAnswers.OrderFound | apps/api-gateway/src/orders/orders.controller.ts:52-61 | in every run, GET /orders/:id shows the user's order as it is at one instant, or is answered 404 exactly if the user has none such |
| OrderAnswers.CancelAnswered | apps/api-gateway/src/orders/orders.controller.ts:63-72 | in every run, the order that the handler finds decides between 404, 409 and 200 with the order, cancelled and otherwise as it was |
| Listing.ListingIsUnique | apps/order-service/src/orders.service.ts:50-55 | a finite set of keys has one strictly descending listing |
| Listings.UserOrdersAreListed | apps/order-service/src/orders.service.ts:50-55 | the listing is exactly the user's rows, strictly descending by (createdAt, id), so each once |
| Listings.ListingIsDetermined | apps/order-service/src/orders.service.ts:50-55 | and no other list is |
| Listings.CancelMovesNothing | apps/order-service/src/orders.service.ts:68-79 | cancelling changes one element of the owner's listing, where it stands, and no other listing |
| Listings.StepKeepsListings | apps/order-service/src/orders.service.ts:50-79 | over every run, a step that changes an order changes listings in that way only |
| Listings.AllMoviesAreListed | apps/catalog-service/src/movies.service.ts:18-20 | every movie once, by ascending id, with the Number of its price |
| CatalogObjects.MovieEntity.Merge | apps/catalog-service/src/movies.service.ts:44 | merging in place makes a loaded entity the merged one |
| CatalogObjects.MovieRepository.ExistsBy | apps/catalog-service/src/movies.service.ts:57-61 | a scan of the table finds a match if and only if some movie other than the excluded one has the pair |
| CatalogObjects.MovieRepository.FindOneBy | apps/catalog-service/src/movies.service.ts:23 | a fresh entity equal to the row, or null exactly when there is none |
| CatalogObjects.MovieRepository.Delete | apps/catalog-service/src/movies.service.ts:48 | removes the row and nothing else, and says whether there was one |
| CatalogObjects.MoviesService.AssertTitleIsFree | apps/catalog-service/src/movies.service.ts:52-68 | throws the 409 exactly when another movie has the pair |
| CatalogObjects.MoviesService.Create | apps/catalog-service/src/movies.service.ts:29-33 | table and reply are those of the handler's steps, back to back |
| CatalogObjects.MoviesService.Update | apps/catalog-service/src/movies.service.ts:35-45 | table and reply are those of the handler's steps, back to back; a missing movie gets the 404 |
| CatalogObjects.MoviesService.Remove | apps/catalog-service/src/movies.service.ts:47-50 | table and reply are those of the handler's steps, back to back; a missing movie gets the 404 |
| OrderObjects.OrderRepository.FindOneBy | apps/order-service/src/orders.service.ts:62 | a fresh entity equal to the row, or null exactly unless the user owns the order |
| OrderObjects.OrderRepository.Save | apps/order-service/src/orders.service.ts:78 | an upsert that leaves the columns declared update: false as they are in the row |
| OrderObjects.OrdersService.Create | apps/order-service/src/orders.service.ts:25-48 | table and reply are those of the handler's steps, for every way the catalog call settles |
| OrderObjects.OrdersService.FindOneForUser | apps/order-service/src/orders.service.ts:61-66 | the user's order, as the row is, or else the 404 with its message |
| OrderObjects.OrdersService.Cancel | apps/order-service/src/orders.service.ts:68-79 | table and reply are those of the handler's steps, back to back |
| AuthObjects.AuthServiceObject.CreateUser | apps/auth-service/src/auth.service.ts:99-110 | table and reply of saving the user with the hashed password |
| AuthObjects.AuthServiceObject.Register | apps/auth-service/src/auth.service.ts:38-49 | table and reply are those of the handler's steps, back to back; two different passwords get the 400 and change nothing |
| AuthObjects.AuthServiceObject.EnsureAdminAccount | apps/auth-service/src/auth.service.ts:87-97 | table and outcome are those of the seeding steps, back to back, and never a refusal |
| AuthObjects.AuthServiceObject.Login | apps/auth-service/src/auth.service.ts:51-78 | issued tokens and the whole reply, with the token's type and lifetime, are those of the handler's steps, back to back |
| AuthObjects.JwtAuthGuard.CanActivate | apps/api-gateway/src/auth/jwt-auth.guard.ts:20-50 | for every outcome of the verification, also a payload whose subject or role is malformed: attaches the identity to the request, or throws the right one of three 401s and leaves the request alone |
| Uninterrupted.CatalogUninterrupted | apps/catalog-service/src/movies.service.ts:29-50 | in the system, a catalog handler that nobody interrupts does what the method does, and nothing else |
| Uninterrupted.CancelUninterrupted | apps/order-service/src/orders.service.ts:68-79 | the same for a cancellation |
| Uninterrupted.CreateUninterrupted | apps/order-service/src/orders.service.ts:25-48 | the same for a create with its remote read: only the orders, its handler, and the catalog's handler for its message change |
| Uninterrupted.AuthUninterrupted | apps/auth-service/src/auth.service.ts:38-97 | the same for registration, login and seeding |

## Left out

- CreateRace.ExactlyOneCreateWins: other requests may interleave freely as long as they neither add nor remove a movie with the contended pair; with deletes in between a second create may rightly succeed, and `CatalogHistory.FreedBetweenCreates` says that nothing else lets it.
- CreateRace.ExactlyOneClientWins: only for clients that were not answered with the gateway's own 502, 503 or 504, which say nothing about the outcome.
- RegisterRace.ExactlyOneRegistrationWins: other requests may interleave freely as long as they do not add the contended e-mail themselves.
- RegisterRace.ExactlyOneClientRegisters: only for clients that were not answered with the gateway's own 502, 503 or 504.
- Text.NormalizeIsIdempotent: takes the lower-casing as a parameter with two assumed laws; full Unicode case mapping is not modelled, and the services use the ASCII one.
- Pipes.CredentialsAreStable: takes `IsEmail` as a parameter; its grammar is not modelled, and the typed bodies of the system ask only that an address is normalised and not empty.
- Pipes.SpellingMakesNoDifference: speaks of ASCII letters and white space; the source lowers all of Unicode.
- Accounts.OneAccountPerAddress: likewise.
- Pipes.AcceptedCredentialsAreValid: for the lowering of ASCII letters only, which is the one the typed bodies of the system use; the source lowers all of Unicode (libs/shared/src/dtos/auth/normalize-email.ts:4), and `Pipes.AcceptedCredentialsAreNormal` holds for every lower-casing.
- Pipes.UpdatePayloads: a `changes` property that is an array, which the nested validation would take element by element, is refused; the gateway's own messages hold an object.
- OrderHistory.AnswersTellTheTruth: a database call of the model that fails has not committed. A connection that is lost after COMMIT answers 500 (libs/shared/src/rpc/rpc-error.ts:64-68) with the row stored, so that outside the model a 500, too, leaves open whether the order exists.
- AuthObjects.AuthServiceObject.EnsureAdminAccount: runs without interruption, where the insert is never refused; when another process seeds the account in between, the system's handler ends with the 409 payload, and the start that then fails is not modelled.
- Request bodies in the system are typed and already transformed; `Pipes` covers what comes before, but not array bodies or the exact texts of validation messages, which are one fixed message.
- A price such as 1e-7, whose decimal text has an exponent, is refused by the model; the library's check for decimal places throws on it.
- Path parameters that are not integers (ParseIntPipe answers 400).
- Infinities, NaN and signed zero: no amount here reaches them.
- Ids are mathematical integers of which a SERIAL column hands out any that is at or above its counter; the int4 limit is not reached.
- The creation and update times of users and movies, and the public user's createdAt.
- The SQL states of refused rows other than unique violations: all of them become the same 500.
- TypeORM's save of a loaded entity (SELECT, then INSERT or UPDATE) is one atomic upsert.
- In the system all tokens are signed by the auth service, whose payloads have the right types; the guard's third 401 (apps/api-gateway/src/auth/jwt-auth.guard.ts:37-42) is reached through `AuthObjects.JwtAuthGuard.CanActivate` only.
- bcrypt and JWT internals: a hash is its 72-byte key, as bcrypt's `$2b$` format repeats the bytes of the password and a closing zero byte; salts, collisions of the cipher and unpaired surrogates in a password are left out. A token verifies if and only if it was issued and has not expired.
- Updates of `order.updatedAt` when nothing changes, and TypeORM's dirty checking.
- Health checks, logging, environment validation, migrations, Docker and NestJS wiring: no property that spans handlers.
