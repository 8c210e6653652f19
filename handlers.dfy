/**
 * The product handlers (src/handlers/product.ts) over the `products` table, which is held in
 * memory as a map from id to row. Every handler that names an id looks the row up first and
 * answers 404 without touching anything when there is none.
 */
module Handlers {
  import opened Options
  import opened Requests
  import opened ProductModel
  import opened Http

  /** The rows whose ids lie in [1, k), largest id first. */
  function Listing(rows: map<int, Product>, k: int): seq<Product>
    decreases k
  {
    if k <= 1 then []
    else (if k - 1 in rows then [rows[k - 1]] else []) + Listing(rows, k - 1)
  }

  /** Every row is stored under its own id. */
  ghost predicate KeyedById(rows: map<int, Product>) {
    forall id :: id in rows ==> rows[id].id == id
  }

  /** The ids of the rows in [1, k). */
  ghost function IdsBelow(rows: map<int, Product>, k: int): set<int> {
    set id | id in rows && 1 <= id < k
  }

  /**
   * `ps` is the whole table ordered by id descending: ids strictly decrease, each entry is the
   * row stored under its id, every row appears, and there are as many entries as rows.
   */
  ghost predicate ListsAll(ps: seq<Product>, rows: map<int, Product>) {
    && (forall i, j :: 0 <= i < j < |ps| ==> ps[i].id > ps[j].id)
    && (forall i :: 0 <= i < |ps| ==> ps[i].id in rows && rows[ps[i].id] == ps[i])
    && (forall id :: id in rows ==> rows[id] in ps)
    && |ps| == |rows|
  }

  lemma {:induction false} ListingOrder(rows: map<int, Product>, k: int)
    requires KeyedById(rows)
    ensures forall i :: 0 <= i < |Listing(rows, k)| ==> 1 <= Listing(rows, k)[i].id < k
    ensures forall i, j :: 0 <= i < j < |Listing(rows, k)| ==> Listing(rows, k)[i].id > Listing(rows, k)[j].id
  {
    if k > 1 {
      ListingOrder(rows, k - 1);
    }
  }

  /** Each listed entry is the row stored under its id. */
  lemma {:induction false} ListingStored(rows: map<int, Product>, k: int)
    requires KeyedById(rows)
    ensures forall i :: 0 <= i < |Listing(rows, k)| ==>
              Listing(rows, k)[i].id in rows && rows[Listing(rows, k)[i].id] == Listing(rows, k)[i]
  {
    if k > 1 {
      ListingStored(rows, k - 1);
    }
  }

  /** Every row with an id in [1, k) is listed. */
  lemma {:induction false} ListingComplete(rows: map<int, Product>, k: int)
    ensures forall id :: id in rows && 1 <= id < k ==> rows[id] in Listing(rows, k)
  {
    if k > 1 {
      ListingComplete(rows, k - 1);
      var head := if k - 1 in rows then [rows[k - 1]] else [];
      assert Listing(rows, k) == head + Listing(rows, k - 1);
    }
  }

  /** The listing has one entry per id in [1, k). */
  lemma {:induction false} ListingLength(rows: map<int, Product>, k: int)
    ensures |Listing(rows, k)| == |IdsBelow(rows, k)|
  {
    if k > 1 {
      ListingLength(rows, k - 1);
      if k - 1 in rows {
        assert IdsBelow(rows, k) == IdsBelow(rows, k - 1) + {k - 1};
        assert k - 1 !in IdsBelow(rows, k - 1);
      } else {
        assert IdsBelow(rows, k) == IdsBelow(rows, k - 1);
      }
    } else {
      assert IdsBelow(rows, k) == {};
    }
  }

  /** Listing up to a bound above every id gives the whole table, ordered by id descending. */
  lemma ListingListsAll(rows: map<int, Product>, k: int)
    requires KeyedById(rows)
    requires forall id :: id in rows ==> 1 <= id < k
    ensures ListsAll(Listing(rows, k), rows)
  {
    ListingOrder(rows, k);
    ListingStored(rows, k);
    ListingComplete(rows, k);
    ListingLength(rows, k);
    assert IdsBelow(rows, k) == rows.Keys;
  }

  /** What `Product.findByPk(id)` gives: the row, no row, or a database error for an id the INTEGER column cannot hold. */
  datatype Fetched = Row(product: Product) | NoRow | OutOfRange

  /** The `products` table with its auto-increment counter for ids. */
  class ProductTable {
    var rows: map<int, Product>
    /** The id the next create assigns; ids are never handed out twice. */
    var nextId: int

    ghost predicate Valid()
      reads this
    {
      && 1 <= nextId <= IdMax + 1
      && (forall id :: id in rows ==> 1 <= id < nextId)
      && KeyedById(rows)
      && (forall id :: id in rows ==> FitsColumns(rows[id]))
    }

    constructor ()
      ensures Valid()
      ensures rows == map[] && nextId == 1
    {
      rows := map[];
      nextId := 1;
    }

    /**
     * `Product.findByPk(id)`: an id outside the INTEGER range makes the database raise an
     * error; otherwise the row stored under `id`, if any.
     */
    method FindByPk(id: int) returns (found: Fetched)
      requires Valid()
      ensures found.OutOfRange? <==> !IdFits(id)
      ensures found.Row? <==> id in rows
      ensures found.Row? ==> found.product == rows[id] && found.product.id == id
    {
      if !IdFits(id) {
        return OutOfRange;
      }
      found := if id in rows then Row(rows[id]) else NoRow;
    }

    /** `getProduct`: 200 with every row, ordered by id descending. */
    method GetProducts() returns (r: Response)
      requires Valid()
      ensures r.status == 200 && r.payload.Records?
      ensures ListsAll(r.payload.products, rows)
    {
      ListingListsAll(rows, nextId);
      r := Response(200, Records(Listing(rows, nextId)));
    }

    /**
     * `getProductById`: 200 with the row stored under `id`, 404 when there is none, and the
     * database's error when `id` does not fit the INTEGER column.
     */
    method GetProductById(id: int) returns (r: Response)
      requires Valid()
      ensures id in rows ==> r.status == 200 && r.payload == Record(rows[id]) && r.payload.product.id == id
      ensures id !in rows && IdFits(id) ==> r == NotFound
      ensures !IdFits(id) ==> r == Fault
    {
      var product := FindByPk(id);
      if product.OutOfRange? {
        return Fault;
      }
      if product.NoRow? {
        return NotFound;
      }
      r := Response(200, Record(product.product));
    }

    /**
     * `createProduct`: stores the body's columns under a fresh id, availability true unless
     * supplied, and answers 201 with the new row; every other row stays as it was. Once the
     * id sequence has passed the INTEGER range, every insert fails.
     */
    method CreateProduct(body: map<string, Value>) returns (r: Response)
      requires Valid()
      modifies this
      ensures Valid()
      ensures ChangesOf(body).None? || !IdFits(old(nextId)) ==>
                r == Fault && rows == old(rows) && nextId == old(nextId)
      ensures ChangesOf(body).Some? && IdFits(old(nextId)) ==>
                && old(nextId) !in old(rows)
                && rows == old(rows)[old(nextId) := Created(old(nextId), ChangesOf(body).value)]
                && r == Response(201, Record(Created(old(nextId), ChangesOf(body).value)))
                && nextId == old(nextId) + 1
    {
      var changes := ChangesOf(body);
      if changes.None? || !IdFits(nextId) {
        return Fault;
      }
      var product := Created(nextId, changes.value);
      rows := rows[nextId := product];
      nextId := nextId + 1;
      r := Response(201, Record(product));
    }

    /**
     * `updateProduct`: 404 when `id` has no row (the database's error when it does not fit the
     * INTEGER column, as for every handler that looks an id up); the database's error, with the
     * row unchanged, when the table refuses the body; otherwise overwrites the columns the body
     * supplies, keeps the id and the other columns, and answers 200 with the updated row.
     */
    method UpdateProduct(id: int, body: map<string, Value>) returns (r: Response)
      requires Valid()
      modifies this
      ensures Valid() && nextId == old(nextId)
      ensures !IdFits(id) ==> r == Fault && rows == old(rows)
      ensures id !in old(rows) && IdFits(id) ==> r == NotFound && rows == old(rows)
      ensures id in old(rows) && ChangesOf(body).None? ==> r == Fault && rows == old(rows)
      ensures id in old(rows) && ChangesOf(body).Some? ==>
                && rows == old(rows)[id := Updated(old(rows)[id], ChangesOf(body).value)]
                && r == Response(200, Record(rows[id]))
    {
      var product := FindByPk(id);
      if product.OutOfRange? {
        return Fault;
      }
      if product.NoRow? {
        return NotFound;
      }
      var changes := ChangesOf(body);
      if changes.None? {
        return Fault;
      }
      var updated := Updated(product.product, changes.value);
      rows := rows[id := updated];
      r := Response(200, Record(updated));
    }

    /**
     * `updateAvailability`: 404 when `id` has no row; otherwise sets its availability to the
     * negation of the stored value and answers 200 with the row.
     */
    method UpdateAvailability(id: int) returns (r: Response)
      requires Valid()
      modifies this
      ensures Valid() && nextId == old(nextId)
      ensures !IdFits(id) ==> r == Fault && rows == old(rows)
      ensures id !in old(rows) && IdFits(id) ==> r == NotFound && rows == old(rows)
      ensures id in old(rows) ==>
                && rows == old(rows)[id := Toggled(old(rows)[id])]
                && r == Response(200, Record(rows[id]))
    {
      var product := FindByPk(id);
      if product.OutOfRange? {
        return Fault;
      }
      if product.NoRow? {
        return NotFound;
      }
      var toggled := Toggled(product.product);
      rows := rows[id := toggled];
      r := Response(200, Record(toggled));
    }

    /**
     * `deleteProduct`: 404 when `id` has no row; otherwise removes exactly that row and answers
     * 200 with the fixed confirmation text.
     */
    method DeleteProduct(id: int) returns (r: Response)
      requires Valid()
      modifies this
      ensures Valid() && nextId == old(nextId)
      ensures !IdFits(id) ==> r == Fault && rows == old(rows)
      ensures id !in old(rows) && IdFits(id) ==> r == NotFound && rows == old(rows)
      ensures id in old(rows) ==>
                && rows == old(rows) - {id}
                && r == Response(200, Confirmation(DeletedMessage))
    {
      var product := FindByPk(id);
      if product.OutOfRange? {
        return Fault;
      }
      if product.NoRow? {
        return NotFound;
      }
      rows := rows - {id};
      r := Response(200, Confirmation(DeletedMessage));
    }
  }
}
