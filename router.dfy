/**
 * The routes of src/router.ts: each route's validator chains, flattened into one ordered list
 * of rules, then `handleInputErrors`, then the handler. The lemmas pin the errors each route
 * reports for the inputs the repository's tests send.
 */
module Router {
  import opened Requests
  import opened ProductModel
  import opened Validator
  import opened Http
  import opened Middleware
  import opened Handlers

  datatype Route =
    | ListProducts  // GET /
    | GetById       // GET /:id
    | Create        // POST /
    | Update        // PUT /:id
    | Toggle        // PATCH /:id
    | Delete        // DELETE /:id

  const IdMessage := "ID no valido"
  const NameMessage := "El nombre de producto no puede ir vacio"
  const NumericMessage := "valor no valido"
  const PriceMessage := "Precio no valido"
  const AvailabilityMessage := "Valor para disponibilidad no valido"

  const IdRule := Rule(Params, "id", IsInt, IdMessage)
  const NameRule := Rule(Body, "name", NotEmpty, NameMessage)
  const PriceNumericRule := Rule(Body, "price", IsNumeric, NumericMessage)
  /** `notEmpty()` on the price chain has no `withMessage` after it: the library default applies. */
  const PriceNotEmptyRule := Rule(Body, "price", NotEmpty, DefaultMessage)
  const PricePositiveRule := Rule(Body, "price", Positive, PriceMessage)
  const AvailabilityRule := Rule(Body, "availability", IsBoolean, AvailabilityMessage)

  /** The body rules of POST /, in declaration order. */
  const CreateRules := [NameRule, PriceNumericRule, PriceNotEmptyRule, PricePositiveRule]

  /**
   * Every rule a route runs before its handler, in declaration order. GET / runs none; the
   * routes on /:id check the path id; only PUT requires an availability.
   */
  function Chain(route: Route): (rules: seq<Rule>)
    ensures rules == [] <==> route == ListProducts
    ensures IdRule in rules <==> route == GetById || route == Update || route == Toggle || route == Delete
    ensures AvailabilityRule in rules <==> route == Update
  {
    match route
    case ListProducts => []
    case GetById => [IdRule]
    case Create => CreateRules
    case Update => [IdRule] + CreateRules + [AvailabilityRule]
    case Toggle => [IdRule]
    case Delete => [IdRule]
  }

  /**
   * The path is read only for its id, and the body only by POST and PUT, both of which run
   * every create rule.
   */
  lemma ChainFields(route: Route)
    ensures forall rule :: rule in Chain(route) && rule.location == Params ==> rule == IdRule
    ensures (exists rule :: rule in Chain(route) && rule.location == Body) <==> route == Create || route == Update
    ensures route == Create || route == Update ==> forall rule :: rule in CreateRules ==> rule in Chain(route)
  {
    if route == Create || route == Update {
      assert NameRule in Chain(route);
    }
  }

  /** The errors of a route on a request. */
  function RouteErrors(route: Route, req: Request): seq<ValidationError> {
    Validate(Chain(route), req)
  }

  /** The messages of an error list, in order. */
  function Messages(errors: seq<ValidationError>): (ms: seq<string>)
    ensures |ms| == |errors|
    ensures forall i :: 0 <= i < |errors| ==> ms[i] == errors[i].msg
  {
    seq(|errors|, i requires 0 <= i < |errors| => errors[i].msg)
  }

  function PathId(req: Request): Value {
    Read(req, Params, "id")
  }

  function BodyField(req: Request, field: string): Value {
    Read(req, Body, field)
  }

  /** The id a handler looks up, once the id rule has passed. */
  function IdOf(v: Value): (id: int)
    requires Passes(IsInt, v)
    ensures id * 100 == v.hundredths
  {
    v.hundredths / 100
  }

  /** The create chain reports each failing body rule, in declaration order. */
  lemma CreateErrors(req: Request)
    ensures RouteErrors(Create, req) ==
              Report(NameRule, req) + Report(PriceNumericRule, req)
              + Report(PriceNotEmptyRule, req) + Report(PricePositiveRule, req)
  {
    var tail2 := [PricePositiveRule];
    var tail1 := [PriceNotEmptyRule] + tail2;
    var tail0 := [PriceNumericRule] + tail1;
    assert CreateRules == [NameRule] + tail0;
    ValidateCons(NameRule, tail0, req);
    ValidateCons(PriceNumericRule, tail1, req);
    ValidateCons(PriceNotEmptyRule, tail2, req);
    ValidateOne(PricePositiveRule, req);
    var a, b, c, d := Report(NameRule, req), Report(PriceNumericRule, req),
                      Report(PriceNotEmptyRule, req), Report(PricePositiveRule, req);
    assert RouteErrors(Create, req) == a + (b + (c + d));
    assert a + (b + (c + d)) == a + b + c + d;
  }

  /**
   * The full update reports the id rule's error, then the create chain's errors, then the
   * availability rule's: an invalid id does not stop the body rules from running.
   */
  lemma UpdateErrors(req: Request)
    ensures RouteErrors(Update, req) ==
              Report(IdRule, req) + RouteErrors(Create, req) + Report(AvailabilityRule, req)
  {
    var body := CreateRules + [AvailabilityRule];
    assert Chain(Update) == [IdRule] + body;
    ValidateCons(IdRule, body, req);
    ValidateAppend(CreateRules, [AvailabilityRule], req);
    ValidateOne(AvailabilityRule, req);
    var i, c, v := Report(IdRule, req), RouteErrors(Create, req), Report(AvailabilityRule, req);
    assert i + (c + v) == i + c + v;
  }

  /** GET, PATCH and DELETE on /:id report one "ID no valido" error for a non-integer id, else none. */
  lemma IdRouteErrors(route: Route, req: Request)
    requires route == GetById || route == Toggle || route == Delete
    ensures Passes(IsInt, PathId(req)) ==> RouteErrors(route, req) == []
    ensures !Passes(IsInt, PathId(req)) ==>
              RouteErrors(route, req) == [ErrorFor(IdRule, req)] && Messages(RouteErrors(route, req)) == [IdMessage]
  {
    ValidateOne(IdRule, req);
  }

  /** POST / with an empty body: four errors, name, numeric, not-empty and positivity. */
  lemma CreateEmptyBody(req: Request)
    requires req.body == map[]
    ensures |RouteErrors(Create, req)| == 4
    ensures Messages(RouteErrors(Create, req)) == [NameMessage, NumericMessage, DefaultMessage, PriceMessage]
  {
    CreateErrors(req);
  }

  /** POST / with a name and price 0: only the positivity check fails. */
  lemma CreatePriceZero(req: Request)
    requires Passes(NotEmpty, BodyField(req, "name"))
    requires BodyField(req, "price") == Num(0)
    ensures RouteErrors(Create, req) == [ErrorFor(PricePositiveRule, req)]
    ensures Messages(RouteErrors(Create, req)) == [PriceMessage]
  {
    CreateErrors(req);
  }

  /**
   * POST / with a name and a non-numeric text price such as "hola": two errors, because the
   * numeric check and the positivity check are independent.
   */
  lemma CreatePriceText(req: Request, text: string)
    requires Passes(NotEmpty, BodyField(req, "name"))
    requires BodyField(req, "price") == Str(text) && text != ""
    ensures RouteErrors(Create, req) == [ErrorFor(PriceNumericRule, req), ErrorFor(PricePositiveRule, req)]
    ensures Messages(RouteErrors(Create, req)) == [NumericMessage, PriceMessage]
  {
    CreateErrors(req);
  }

  /** POST / passes exactly when the name is non-empty and the price is a number above zero. */
  lemma CreateAccepts(req: Request)
    ensures RouteErrors(Create, req) == [] <==>
              Passes(NotEmpty, BodyField(req, "name"))
              && BodyField(req, "price").Num? && BodyField(req, "price").hundredths > 0
  {
    CreateErrors(req);
  }

  /** PUT /:id with a valid id and an empty body: five errors. */
  lemma UpdateEmptyBody(req: Request)
    requires Passes(IsInt, PathId(req))
    requires req.body == map[]
    ensures |RouteErrors(Update, req)| == 5
    ensures Messages(RouteErrors(Update, req)) ==
              [NameMessage, NumericMessage, DefaultMessage, PriceMessage, AvailabilityMessage]
  {
    UpdateErrors(req);
    CreateEmptyBody(req);
  }

  /** PUT /:id with price 0 and every other field valid: one error, "Precio no valido". */
  lemma UpdatePriceZero(req: Request)
    requires Passes(IsInt, PathId(req))
    requires Passes(NotEmpty, BodyField(req, "name"))
    requires BodyField(req, "price") == Num(0)
    requires Passes(IsBoolean, BodyField(req, "availability"))
    ensures RouteErrors(Update, req) == [ErrorFor(PricePositiveRule, req)]
    ensures Messages(RouteErrors(Update, req)) == [PriceMessage]
  {
    UpdateErrors(req);
    CreatePriceZero(req);
  }

  /** PUT /:id with a non-integer id and a valid body: one error, "ID no valido". */
  lemma UpdateInvalidId(req: Request)
    requires !Passes(IsInt, PathId(req))
    requires RouteErrors(Create, req) == []
    requires Passes(IsBoolean, BodyField(req, "availability"))
    ensures RouteErrors(Update, req) == [ErrorFor(IdRule, req)]
    ensures Messages(RouteErrors(Update, req)) == [IdMessage]
  {
    UpdateErrors(req);
  }

  /** PUT /:id passes exactly when the id, the create rules and the availability rule all pass. */
  lemma UpdateAccepts(req: Request)
    ensures RouteErrors(Update, req) == [] <==>
              Passes(IsInt, PathId(req)) && RouteErrors(Create, req) == []
              && Passes(IsBoolean, BodyField(req, "availability"))
  {
    UpdateErrors(req);
  }

  /** PATCH /:id checks the id only: no rule reads the body, so the body never changes its errors. */
  lemma ToggleIgnoresBody(req: Request, req': Request)
    requires req.params == req'.params
    ensures forall rule :: rule in Chain(Toggle) ==> rule.location == Params
    ensures RouteErrors(Toggle, req) == RouteErrors(Toggle, req')
  {
    ValidateReadsOnlyRuleFields(Chain(Toggle), req, req');
  }

  /**
   * A body that passed POST's rules is written exactly when its name is text the STRING(100)
   * column stores, its price fits DECIMAL(10, 2), and its availability, if any, is a boolean
   * spelling: validation does not check the columns' widths or the availability on POST.
   */
  lemma ValidatedCreateIsWritten(req: Request)
    requires RouteErrors(Create, req) == []
    ensures ChangesOf(req.body).Some? <==>
              BodyField(req, "name").Str? && NameStorable(BodyField(req, "name").s)
              && BodyField(req, "price").Num? && BodyField(req, "price").hundredths < PriceLimit
              && AvailabilityAccepted(BodyField(req, "availability"))
  {
    CreateAccepts(req);
  }

  /**
   * A body that passed PUT's rules is written exactly when its name is text the STRING(100)
   * column stores and its price fits DECIMAL(10, 2): its availability has passed `isBoolean`,
   * and every spelling `isBoolean` accepts is one the BOOLEAN column stores.
   */
  lemma ValidatedUpdateIsWritten(req: Request)
    requires RouteErrors(Update, req) == []
    ensures ChangesOf(req.body).Some? <==>
              BodyField(req, "name").Str? && NameStorable(BodyField(req, "name").s)
              && BodyField(req, "price").Num? && BodyField(req, "price").hundredths < PriceLimit
  {
    UpdateAccepts(req);
    CreateAccepts(req);
    assert AvailabilityAccepted(BodyField(req, "availability"));
  }

  /** The invariant the validated API keeps: every row has a non-empty name and a price above zero. */
  ghost predicate AllAdmissible(rows: map<int, Product>) {
    forall id :: id in rows ==> Admissible(rows[id])
  }

  /**
   * One request through its route: the validators, then `handleInputErrors`, then the handler.
   * The answer is 400 exactly when validation finds an error, and then it carries the whole
   * list and the table is untouched. A handler that names an id answers the database's error
   * when the id does not fit an INTEGER, and 404 when it has no row, in both cases with the
   * table untouched. A validated create or update answers with the row it writes when the
   * table stores the body, and the database's error, with the table untouched, when it does
   * not. Every row keeps a non-empty name and a price above zero (prices here have at most
   * two decimals).
   */
  method Dispatch(table: ProductTable, route: Route, req: Request) returns (r: Response)
    requires table.Valid() && AllAdmissible(table.rows)
    modifies table
    ensures table.Valid() && AllAdmissible(table.rows)
    ensures r.status == 400 <==> RouteErrors(route, req) != []
    ensures r.status == 400 ==>
              r.payload == Errors(RouteErrors(route, req)) && table.rows == old(table.rows) && table.nextId == old(table.nextId)
    ensures route != ListProducts && route != Create && RouteErrors(route, req) == [] &&
            Passes(IsInt, PathId(req)) && !IdFits(IdOf(PathId(req))) ==>
              r == Fault && table.rows == old(table.rows)
    ensures route != ListProducts && route != Create && RouteErrors(route, req) == [] &&
            Passes(IsInt, PathId(req)) && IdFits(IdOf(PathId(req))) && IdOf(PathId(req)) !in old(table.rows) ==>
              r == NotFound && table.rows == old(table.rows)
    ensures route == Create && RouteErrors(route, req) == [] && ChangesOf(req.body).None? ==>
              r == Fault && table.rows == old(table.rows)
    ensures route == Update && RouteErrors(route, req) == [] && ChangesOf(req.body).None? &&
            Passes(IsInt, PathId(req)) && IdOf(PathId(req)) in old(table.rows) ==>
              r == Fault && table.rows == old(table.rows)
    ensures route == Create && RouteErrors(route, req) == [] && ChangesOf(req.body).Some? && IdFits(old(table.nextId)) ==>
              var created := Created(old(table.nextId), ChangesOf(req.body).value);
              r == Response(201, Record(created)) && table.rows == old(table.rows)[created.id := created]
    ensures route == Update && RouteErrors(route, req) == [] && ChangesOf(req.body).Some? &&
            Passes(IsInt, PathId(req)) && IdOf(PathId(req)) in old(table.rows) ==>
              var updated := Updated(old(table.rows)[IdOf(PathId(req))], ChangesOf(req.body).value);
              r == Response(200, Record(updated)) && table.rows == old(table.rows)[updated.id := updated]
  {
    if route == ListProducts {
      r := table.GetProducts();
      return;
    }
    var errors := RouteErrors(route, req);
    var gate := HandleInputErrors(errors);
    if gate.Reject? {
      return gate.response;
    }
    match route {
      case Create =>
        CreateAccepts(req);
        r := table.CreateProduct(req.body);
      case Update =>
        UpdateAccepts(req);
        CreateAccepts(req);
        r := table.UpdateProduct(IdOf(PathId(req)), req.body);
      case GetById =>
        IdRouteErrors(route, req);
        r := table.GetProductById(IdOf(PathId(req)));
      case Toggle =>
        IdRouteErrors(route, req);
        r := table.UpdateAvailability(IdOf(PathId(req)));
      case Delete =>
        IdRouteErrors(route, req);
        r := table.DeleteProduct(IdOf(PathId(req)));
    }
  }
}
