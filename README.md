# Product catalogue API: validation gate and product handlers

This project models the decision logic of a small Express + Sequelize REST API for a product
catalogue: the validator chains each route declares, the `handleInputErrors` gate that turns
their errors into a 400 answer, and the six handlers that list, read, create, update, toggle and
delete rows of the `products` table.

- `Requests` — a field value is `Missing | Str | Num | Bool`; a request is its path parameters
  and its JSON body.
- `ProductModel` — the `products` row (`name` STRING(100), `price` DECIMAL(10, 2) held as whole
  hundredths, `availability` defaulting to true), how a body lands in those columns, and the
  `price` getter.
- `Validator` — the checks `isInt`, `notEmpty`, `isNumeric`, the custom `value > 0` and
  `isBoolean` over field values; a chain is a list of (check, message) rules, and `Validate`
  runs all of them and keeps every failure in declaration order.
- `Http`, `Middleware` — the response shapes and the gate.
- `Handlers` — the table as a class holding a map from id to row and an auto-increment
  counter; one method per handler, each specified against the old and new table.
- `Router` — each route's rules, lemmas pinning the errors the routes report, and `Dispatch`,
  which runs validators, gate and handler in that order.
- `Scenarios` — several handler calls in a row.

Behaviours of the code that the model keeps:

- On PUT `/:id` an invalid id does not stop the body rules: all chains run before the gate, and
  their errors accumulate (`Router.UpdateErrors`).
- The `notEmpty()` on the price chain has no `withMessage` of its own (the `withMessage` after it
  belongs to the custom check), so its error carries the library default "Invalid value".
- PATCH `/:id` validates only the id. The route's API documentation asks for an `availability`
  body field, but no rule reads the body and the handler ignores it (`Router.ToggleIgnoresBody`).
- PATCH `/:id` answers 400 for a non-integer id, like GET and DELETE.

Conventions of the model:

- A numeral (a JSON number or a numeric string, in the body or in the path) is `Num` with its
  value in hundredths. `Str` is text the validator library does not read as a number. A numeral
  is held without its spelling, so a name sent as numeric text is not stored (see "## Left out").
- A JSON `null` reads as an absent field.
- A write the table refuses is answered `500` with nothing changed. This covers a name over 100
  characters whose extra characters are not all spaces, a price outside DECIMAL(10, 2), and a
  value of the wrong kind for its column. A longer name whose extra characters are all spaces is
  cut to its first 100 characters and stored, as PostgreSQL does for VARCHAR(100).
  The BOOLEAN column takes `true`, `false`, `"true"`, `"false"`, `1` and `0`.
- The `products` table lives in PostgreSQL, so its implicit `id` is an INTEGER. Looking up an id
  outside [-2^31, 2^31) is a database error, answered `500`. Once the id sequence has passed
  2^31 - 1, every insert fails the same way.

## Model

| member | source | states |
|---|---|---|
| `ProductModel.ChangesOf` | src/handlers/product.ts:34 | The body's name, price and availability become column values. The body is stored exactly when the name is text VARCHAR(100) stores (at most 100 characters, or spaces only past the 100th), the price fits DECIMAL(10, 2) and the availability is one of the spellings the BOOLEAN column takes, each field being allowed to be absent. A column is supplied exactly when its field is present. The price carries the field's value, the availability the boolean it spells, and the name the field's text cut to at most 100 characters, only spaces being dropped. |
| `ProductModel.ChangesRoundTrip` | src/models/Product.model.ts:7-25 | Every change that fits the columns is read back unchanged from the body that carries it. |
| `ProductModel.Created` | src/models/Product.model.ts:21-25 | A created row takes the supplied columns. Its availability is true when none is supplied, and the supplied value otherwise. |
| `ProductModel.Updated` | src/handlers/product.ts:55-56 | An update overwrites exactly the supplied columns and keeps the id and every other column. |
| `ProductModel.Toggled` | src/handlers/product.ts:76 | The toggle negates availability and changes nothing else. |
| `ProductModel.ToggleTwice` | src/handlers/product.ts:76 | Toggling twice gives back the original row. |
| `ProductModel.ReadPrice` | src/models/Product.model.ts:14-17 | A null price reads as null. A stored price reads as its decimal value, which gives back the stored hundredths exactly and is positive exactly when they are. |
| `Validator.Passes` | src/router.ts:93-223 | An absent field fails every check. `isInt` and `isNumeric` pass numerals only. `notEmpty` passes every number and boolean. `value > 0` passes only numbers and `true`. `isBoolean` passes only booleans, 0, 1, "true" and "false". |
| `Validator.Validate` | src/middleware/index.ts:10 | Running a list of rules yields at most one error per rule. |
| `Validator.ValidateSound` | src/router.ts:206-225 | The collected list is empty exactly when every rule holds. Each error in it is the error of a rule that fails. |
| `Validator.ValidateAppend` | src/router.ts:206-225 | Chains accumulate. Validating two rule lists in a row reports the first list's errors, then the second's. Nothing short-circuits. |
| `Validator.ValidateReadsOnlyRuleFields` | src/router.ts:270-275 | Requests that agree on the fields the rules name get the same errors. |
| `Middleware.HandleInputErrors` | src/middleware/index.ts:10-18 | An empty error list passes the request on. Any error answers 400 with the whole list, in collected order. |
| `Handlers.ListingListsAll` | src/handlers/product.ts:8-11 | Listing the table gives every row, by strictly descending id, each as stored, with as many entries as rows. |
| `Handlers.ListingOrder` | src/handlers/product.ts:9 | Listed ids are strictly descending and below the bound. |
| `Handlers.ListingStored` | src/handlers/product.ts:8-11 | Each listed entry is the row stored under its id. |
| `Handlers.ListingComplete` | src/handlers/product.ts:8-11 | Every row with an id below the bound is listed. |
| `Handlers.ListingLength` | src/handlers/product.ts:8-11 | The listing has exactly one entry per stored id below the bound. |
| `Handlers.ProductTable.FindByPk` | src/handlers/product.ts:18 | The lookup fails exactly when the id does not fit an INTEGER. It finds a row exactly when the id is stored, and returns the row stored under that id. |
| `Handlers.ProductTable.GetProducts` | src/handlers/product.ts:7-13 | Answers 200 with every row, ordered by id descending, as many entries as rows. |
| `Handlers.ProductTable.GetProductById` | src/handlers/product.ts:16-29 | Answers 200 with the stored row when the id is present. An absent id that fits an INTEGER answers 404 "Producto no encontrado", and any other id answers 500. The table is read only. |
| `Handlers.ProductTable.CreateProduct` | src/handlers/product.ts:32-37 | Adds exactly one row, under an id not previously stored, and answers 201 with it. Other rows are unchanged. A refused write, or an id sequence past the INTEGER range, answers 500 and changes nothing. |
| `Handlers.ProductTable.UpdateProduct` | src/handlers/product.ts:41-59 | An id outside the INTEGER range answers 500, and an absent id answers 404, both with the table unchanged. A body the table refuses answers 500 with the table unchanged. Otherwise the row becomes its update by the body and the answer is 200 with the updated row. No other row changes. |
| `Handlers.ProductTable.UpdateAvailability` | src/handlers/product.ts:62-80 | An id outside the INTEGER range answers 500, and an absent id answers 404, both with the table unchanged. Otherwise only that row's availability is negated, and the answer is 200 with the row. |
| `Handlers.ProductTable.DeleteProduct` | src/handlers/product.ts:83-98 | An id outside the INTEGER range answers 500, and an absent id answers 404, both with the table unchanged. Otherwise exactly that row is removed and the answer is 200 "Producto Eliminado". |
| `Router.Chain` | src/router.ts:60-305 | GET / runs no rule. Exactly GET, PUT, PATCH and DELETE on /:id check the path id. Only PUT checks availability. |
| `Router.ChainFields` | src/router.ts:91-305 | The path is read only by the id rule. Only POST and PUT read the body, and both run every create rule. |
| `Router.CreateErrors` | src/router.ts:141-150 | POST / reports the failing rules among name not-empty, price numeric, price not-empty and price > 0, in that order. |
| `Router.UpdateErrors` | src/router.ts:209-223 | PUT /:id reports the id error, then the create rules' errors, then the availability error. |
| `Router.IdRouteErrors` | src/router.ts:91-99 | GET, PATCH and DELETE on /:id report nothing for an integer id. Otherwise they report exactly one error, "ID no valido". |
| `Router.CreateEmptyBody` | src/router.ts:141-150 | POST / with an empty body reports exactly 4 errors: the name message, "valor no valido", "Invalid value" and "Precio no valido". |
| `Router.CreatePriceZero` | src/router.ts:149-150 | POST / with a name and price 0 reports exactly one error, "Precio no valido". |
| `Router.CreatePriceText` | src/router.ts:146-150 | POST / with a name and a text price such as "hola" reports exactly 2 errors, "valor no valido" and "Precio no valido". |
| `Router.CreateAccepts` | src/router.ts:141-150 | POST / passes exactly when the name is non-empty and the price is a number above zero. |
| `Router.UpdateEmptyBody` | src/router.ts:209-223 | PUT /:id with a valid id and an empty body reports exactly 5 errors, in declaration order. |
| `Router.UpdatePriceZero` | src/router.ts:214-219 | PUT /:id with price 0 and every other field valid reports exactly one error, "Precio no valido". |
| `Router.UpdateInvalidId` | src/router.ts:206-225 | PUT /:id with a non-integer id and a valid body reports exactly one error, "ID no valido". |
| `Router.UpdateAccepts` | src/router.ts:206-225 | PUT /:id passes exactly when the id, every create rule and the availability rule pass. |
| `Router.ValidatedCreateIsWritten` | src/router.ts:137-154 | A body that passes POST's rules is stored exactly when the name is text VARCHAR(100) stores, the price fits DECIMAL(10, 2) and the availability, if any, is a boolean spelling. |
| `Router.ValidatedUpdateIsWritten` | src/router.ts:206-225 | A body that passes PUT's rules is stored exactly when the name is text VARCHAR(100) stores and the price fits DECIMAL(10, 2). Every availability that passes `isBoolean` is one the column stores. |
| `Router.ToggleIgnoresBody` | src/router.ts:270-275 | PATCH /:id has rules on the path only, so the body never changes its errors. |
| `Router.Dispatch` | src/router.ts:60-305 | A request answers 400 exactly when validation finds errors. The answer then carries the whole list and the table is unchanged. An id route answers 500 for an id outside the INTEGER range and 404 for an absent id, both with the table unchanged. A validated create of a body the table stores, while the id sequence fits an INTEGER, answers 201 with the row it writes. A validated update of a present row with such a body answers 200 with the row it writes. In both cases the new table is the old one with that row under its id. A validated body the table refuses answers 500 with the table unchanged. For prices with at most two decimals, every row keeps a non-empty name and a price above zero. |
| `Scenarios.ToggleTwice` | src/handlers/product.ts:76-79 | The first toggle answers the row with availability negated. The second answers the original row, and the table is as before. |
| `Scenarios.DeleteThenGet` | src/handlers/product.ts:96-97 | After a delete answers "Producto Eliminado", a lookup of that id answers 404. |
| `Scenarios.CreateThenGet` | src/handlers/product.ts:34-36 | A created row is found under its new id. Without a supplied availability, it is available. Past the INTEGER id range the create answers 500 and nothing changes. |

## Left out

- Server bootstrap, CORS, body parsing, logging, the API documentation mount, the database
  connection and port listening (src/server.ts, src/config/db.ts, src/index.ts): I/O and plumbing.
- The API documentation comments in src/router.ts: documentation, not behaviour.
- The validator library's text parsing. `isInt` and `isNumeric` decide on the kind of value, not
  on its spelling. A numeral whose spelling changes the library's answer is not told apart from
  its value. For example, isInt("1.0") is false in the library but true here.
- JSON numbers with more than two decimals: a value is held in hundredths. Rounding by the
  storage engine is not modelled; the `Router.Dispatch` line below says which proved property
  this hides.
- JSON `null` is read as an absent field. So POST with `"availability": null` stores true here,
  while the column would receive null.
- Arrays and objects as field values: only the four kinds of `Value` are modelled.
- ProductModel.ChangesOf: a name that is not `Str` is refused, so the answer is 500. This
  includes numeric text such as "2024" or "42", which the model reads as `Num` and so holds
  without its spelling. The code stores such a name as text and answers 201; the same holds
  for PUT. For such names `Router.ValidatedCreateIsWritten` and
  `Router.ValidatedUpdateIsWritten` say "refused" where the code stores the body. A JSON number
  or boolean sent as a name is refused here too; the text the database would store for it is
  not modelled.
- An availability other than `true`, `false`, `"true"`, `"false"`, `1` and `0` is treated as
  refused by the BOOLEAN column. The database's other casts are not modelled.
- A refused write is answered 500 with the table unchanged. The repository has no code for
  storage failures, and whether the refused insert consumes an id is not modelled.
- Body fields other than `name`, `price` and `availability` (an `id` or timestamps in the body) are
  ignored by the create and update models.
- `createdAt`/`updatedAt` timestamps and the JSON content-type header.
- The `parseFloat` in the price getter: floating point. `ProductModel.ReadPrice` yields the exact
  decimal value instead.
- The race between the lookup and the write under concurrent requests on the same id: concurrency.
- Validator.Passes: text is taken to fail `value > 0`. JavaScript's own conversion reads some
  text that `isNumeric` rejects as a positive number (" 5", "1e3", "0x10", "Infinity").
- Router.CreatePriceText: because of the `Validator.Passes` gap above, for such a price the code
  reports one error, "valor no valido", where the lemma states two.
- Router.Dispatch: the price half of the row invariant holds only for prices with at most two
  decimals, the only ones the model represents. The code lets a price such as 0.001 through
  every rule (it is numeric and above zero), and DECIMAL(10, 2) then rounds it to 0.00, so the
  program can store a row whose price is zero.
- Router.Dispatch: states the gate, the 500 and 404 answers on ids, the success of a validated
  create or update, and the row invariant. The handler methods it calls state the remaining
  routes' outcomes.
