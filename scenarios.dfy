/** Sequences of handler calls on one table, as the repository's tests run them one after another. */
module Scenarios {
  import opened Options
  import opened Requests
  import opened ProductModel
  import opened Http
  import opened Handlers

  /** Two availability toggles on a stored row answer the negated row, then the original, and leave the table as it was. */
  method ToggleTwice(table: ProductTable, id: int) returns (first: Response, second: Response)
    requires table.Valid() && id in table.rows
    modifies table
    ensures table.Valid()
    ensures first.status == 200 && first.payload.Record?
    ensures first.payload.product.availability == !old(table.rows[id].availability)
    ensures second == Response(200, Record(old(table.rows[id])))
    ensures table.rows == old(table.rows) && table.nextId == old(table.nextId)
  {
    first := table.UpdateAvailability(id);
    second := table.UpdateAvailability(id);
    ProductModel.ToggleTwice(old(table.rows[id]));
    assert table.rows == old(table.rows)[id := old(table.rows[id])];
  }

  /** Deleting a stored row answers "Producto Eliminado"; looking it up afterwards answers 404. */
  method DeleteThenGet(table: ProductTable, id: int) returns (deleted: Response, lookup: Response)
    requires table.Valid() && id in table.rows
    modifies table
    ensures table.Valid()
    ensures deleted == Response(200, Confirmation(DeletedMessage))
    ensures lookup == NotFound
    ensures id !in table.rows && table.rows == old(table.rows) - {id}
  {
    deleted := table.DeleteProduct(id);
    lookup := table.GetProductById(id);
  }

  /**
   * A created row is found under the id the create answered with; without an availability in
   * the body it is available. Once the ids have run past the INTEGER range, the create fails
   * and the table is left as it was.
   */
  method CreateThenGet(table: ProductTable, body: map<string, Value>) returns (created: Response, lookup: Option<Response>)
    requires table.Valid() && ChangesOf(body).Some?
    modifies table
    ensures table.Valid()
    ensures !IdFits(old(table.nextId)) ==> created == Fault && lookup.None? && table.rows == old(table.rows)
    ensures IdFits(old(table.nextId)) ==>
              && created.status == 201 && created.payload.Record?
              && created.payload.product.id !in old(table.rows)
              && lookup == Some(Response(200, Record(created.payload.product)))
              && (Lookup(body, "availability") == Missing ==> created.payload.product.availability)
  {
    created := table.CreateProduct(body);
    if created.status != 201 {
      return created, None;
    }
    var found := table.GetProductById(created.payload.product.id);
    lookup := Some(found);
  }
}
