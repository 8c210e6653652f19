/**
 * The `products` table row (src/models/Product.model.ts) in PostgreSQL: the implicit `id`
 * primary key (an auto-increment INTEGER), a name of type STRING(100), a price of type
 * DECIMAL(10, 2) kept here as whole hundredths, and an availability flag that defaults to true.
 * Every column is nullable in the table definition; `availability` never becomes null in this
 * model because a JSON null is read as an absent field.
 */
module ProductModel {
  import opened Options
  import opened Requests

  /** STRING(100): at most this many characters in a name. */
  const NameMaxLength: nat := 100

  /** DECIMAL(10, 2): ten digits in all, two of them after the point. */
  const PriceDigits: nat := 10
  const PriceScale: nat := 2

  /** 10^PriceDigits: a stored price in hundredths lies strictly between -PriceLimit and PriceLimit. */
  const PriceLimit: int := 10_000_000_000

  /** The `id` column is a 32-bit INTEGER: ids lie in [IdMin, IdMax]. */
  const IdMin: int := -2_147_483_648
  const IdMax: int := 2_147_483_647

  /** An id the `id` column can be compared with; any other makes the database raise an error. */
  predicate IdFits(id: int) {
    IdMin <= id <= IdMax
  }

  /** The value `availability` takes when a create does not supply one. */
  const DefaultAvailability := true

  /** One row; `price` is in hundredths (199.99 is 19999). */
  datatype Product = Product(id: int, name: Option<string>, price: Option<int>, availability: bool)

  predicate NameFits(name: Option<string>) {
    name.Some? ==> |name.value| <= NameMaxLength
  }

  predicate PriceFits(price: Option<int>) {
    price.Some? ==> -PriceLimit < price.value < PriceLimit
  }

  /** The row respects the column types. */
  predicate FitsColumns(p: Product) {
    NameFits(p.name) && PriceFits(p.price)
  }

  /** A row as the validated API produces it: a non-empty name and a price above zero. */
  predicate Admissible(p: Product) {
    && p.name.Some? && p.name.value != ""
    && p.price.Some? && p.price.value > 0
  }

  /** The column values a create or an update writes; `None` for a column the body does not supply. */
  datatype Changes = Changes(name: Option<string>, price: Option<int>, availability: Option<bool>)

  predicate ChangesFit(c: Changes) {
    NameFits(c.name) && PriceFits(c.price)
  }

  /** How one body value lands in a column: not supplied, stored as `value`, or refused by the table. */
  datatype Column<T> = Unsupplied | Supplied(value: T) | Refused

  /** Text made of spaces only. */
  predicate AllSpaces(t: string) {
    forall i :: 0 <= i < |t| ==> t[i] == ' '
  }

  /**
   * Text the STRING(100) column, a PostgreSQL VARCHAR(100), stores: at most 100 characters,
   * or longer text whose characters past the 100th are all spaces.
   */
  predicate NameStorable(s: string) {
    |s| <= NameMaxLength || AllSpaces(s[NameMaxLength..])
  }

  /** A storable name is kept whole when it fits, and otherwise cut to its first 100 characters. */
  function NameColumn(v: Value): Column<string> {
    match v
    case Missing => Unsupplied
    case Str(s) =>
      if |s| <= NameMaxLength then Supplied(s)
      else if AllSpaces(s[NameMaxLength..]) then Supplied(s[..NameMaxLength])
      else Refused
    case _ => Refused
  }

  function PriceColumn(v: Value): Column<int> {
    match v
    case Missing => Unsupplied
    case Num(h) => if -PriceLimit < h < PriceLimit then Supplied(h) else Refused
    case _ => Refused
  }

  /** The BOOLEAN column stores a boolean, the text "true" or "false", or the number 1 or 0. */
  function AvailabilityColumn(v: Value): Column<bool> {
    match v
    case Missing => Unsupplied
    case Bool(b) => Supplied(b)
    case Str(s) => if s == "true" then Supplied(true) else if s == "false" then Supplied(false) else Refused
    case Num(h) => if h == 100 then Supplied(true) else if h == 0 then Supplied(false) else Refused
  }

  /** `v` is one of the spellings the BOOLEAN column reads as `b`. */
  predicate SpellsBool(v: Value, b: bool) {
    v == Bool(b) || v == Str(if b then "true" else "false") || v == Num(if b then 100 else 0)
  }

  /** A name the table takes: absent, or storable text. */
  predicate NameAccepted(v: Value) {
    v.Missing? || (v.Str? && NameStorable(v.s))
  }

  /** A price the table takes: absent, or a number with at most ten digits. */
  predicate PriceAccepted(v: Value) {
    v.Missing? || (v.Num? && -PriceLimit < v.hundredths < PriceLimit)
  }

  /** An availability the table takes: absent, or a spelling of true or false. */
  predicate AvailabilityAccepted(v: Value) {
    v.Missing? || SpellsBool(v, true) || SpellsBool(v, false)
  }

  function ColumnOption<T>(c: Column<T>): Option<T>
    requires !c.Refused?
  {
    if c.Supplied? then Some(c.value) else None
  }

  /**
   * The changes a request body makes to a row (`Product.create(req.body)`,
   * `product.update(req.body)`); `None` when the table refuses one of the values.
   * Body fields other than the three columns are ignored.
   */
  function ChangesOf(body: map<string, Value>): (c: Option<Changes>)
    ensures c.Some? <==>
              && NameAccepted(Lookup(body, "name"))
              && PriceAccepted(Lookup(body, "price"))
              && AvailabilityAccepted(Lookup(body, "availability"))
    ensures c.Some? ==> ChangesFit(c.value)
    ensures c.Some? ==> (c.value.name.None? <==> Lookup(body, "name") == Missing)
    ensures c.Some? ==> (c.value.price.None? <==> Lookup(body, "price") == Missing)
    ensures c.Some? ==> (c.value.availability.None? <==> Lookup(body, "availability") == Missing)
    ensures c.Some? && c.value.name.Some? ==>
              var text := Lookup(body, "name");
              && text.Str? && c.value.name.value <= text.s
              && |c.value.name.value| == (if |text.s| <= NameMaxLength then |text.s| else NameMaxLength)
              && AllSpaces(text.s[|c.value.name.value|..])
    ensures c.Some? && c.value.price.Some? ==> Lookup(body, "price") == Num(c.value.price.value)
    ensures c.Some? && c.value.availability.Some? ==> SpellsBool(Lookup(body, "availability"), c.value.availability.value)
  {
    var name := NameColumn(Lookup(body, "name"));
    var price := PriceColumn(Lookup(body, "price"));
    var availability := AvailabilityColumn(Lookup(body, "availability"));
    if name.Refused? || price.Refused? || availability.Refused? then None
    else Some(Changes(ColumnOption(name), ColumnOption(price), ColumnOption(availability)))
  }

  /** The body that supplies exactly the columns of `c`. */
  function BodyOf(c: Changes): map<string, Value> {
    var withName := if c.name.Some? then map["name" := Str(c.name.value)] else map[];
    var withPrice := if c.price.Some? then withName["price" := Num(c.price.value)] else withName;
    if c.availability.Some? then withPrice["availability" := Bool(c.availability.value)] else withPrice
  }

  /** Every change the table accepts is read back from the body that carries it. */
  lemma ChangesRoundTrip(c: Changes)
    requires ChangesFit(c)
    ensures ChangesOf(BodyOf(c)) == Some(c)
  {
  }

  /** The row that `Product.create` stores under `id`: the supplied columns, availability true by default. */
  function Created(id: int, c: Changes): (p: Product)
    ensures p.id == id && p.name == c.name && p.price == c.price
    ensures c.availability.None? ==> p.availability == DefaultAvailability
    ensures c.availability.Some? ==> p.availability == c.availability.value
  {
    Product(id, c.name, c.price, c.availability.GetOr(DefaultAvailability))
  }

  /** The row after `product.update(req.body)`: supplied columns overwritten, the others and the id kept. */
  function Updated(p: Product, c: Changes): (q: Product)
    ensures q.id == p.id
    ensures q.name == (if c.name.Some? then c.name else p.name)
    ensures q.price == (if c.price.Some? then c.price else p.price)
    ensures q.availability == c.availability.GetOr(p.availability)
  {
    Product(p.id,
            if c.name.Some? then c.name else p.name,
            if c.price.Some? then c.price else p.price,
            c.availability.GetOr(p.availability))
  }

  /** The row after the availability toggle: only `availability` changes, to its negation. */
  function Toggled(p: Product): (q: Product)
    ensures q.availability == !p.availability
    ensures q.(availability := p.availability) == p
  {
    p.(availability := !p.availability)
  }

  /** Two toggles give back the original row. */
  lemma ToggleTwice(p: Product)
    ensures Toggled(Toggled(p)) == p
  {
  }

  /**
   * The `price` getter: a null column reads as null, a stored amount as its decimal value,
   * from which the stored hundredths are recovered exactly. Rows in responses carry the stored
   * hundredths; this getter is how their JSON shows the price.
   */
  function ReadPrice(raw: Option<int>): (r: Option<real>)
    ensures r.None? <==> raw.None?
    ensures raw.Some? ==> r.value * 100.0 == raw.value as real
    ensures raw.Some? ==> (r.value * 100.0).Floor == raw.value
    ensures raw.Some? ==> (r.value > 0.0 <==> raw.value > 0)
  {
    match raw
    case None => None
    case Some(h) => Some(h as real / 100.0)
  }
}
