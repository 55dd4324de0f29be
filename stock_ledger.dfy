/** The stock ledger: the quantity of each product held in each stock.
    StockModel's `removeProducts` and `appendProducts` are not part of this
    model's source; RemoveProducts and AppendProducts below are ASSUMED
    contracts for them: a batch debit that fails as a whole when any line would
    take a quantity below zero, and a batch credit that creates missing rows. */
module StockLedger {
  import opened Common

  /** One line item: a product and the amount moved. */
  datatype ProductAmount = ProductAmount(productId: int, amount: nat)

  /** (stockId, productId) to quantity; a missing row holds nothing. */
  type Ledger = map<(int, int), nat>

  /** The StockModel table. */
  class StockModel {
    var ledger: Ledger

    constructor (initial: Ledger)
      ensures ledger == initial
    {
      ledger := initial;
    }
  }

  /** Quantity of `product` held in `stock`. */
  function Qty(l: Ledger, stock: int, product: int): nat
  {
    if (stock, product) in l then l[(stock, product)] else 0
  }

  /** Total amount of `product` that the items ask for. */
  function Demand(items: seq<ProductAmount>, product: int): nat
    decreases |items|
  {
    if items == [] then 0
    else (if items[0].productId == product then items[0].amount else 0) + Demand(items[1..], product)
  }

  /** Two ledgers hold the same quantity of every product in every stock. */
  ghost predicate SameQuantities(l1: Ledger, l2: Ledger)
  {
    forall s, p :: Qty(l1, s, p) == Qty(l2, s, p)
  }

  /** ASSUMED `StockModel.removeProducts`: debit each line in turn; a line that
      would go below zero fails the whole batch with InsufficientStock. */
  function RemoveProducts(l: Ledger, stock: int, items: seq<ProductAmount>): (r: Result<Ledger>)
    ensures r.Err? ==> r.error == InsufficientStock
    decreases |items|
  {
    if items == [] then Ok(l)
    else
      var p, a := items[0].productId, items[0].amount;
      if Qty(l, stock, p) < a then Err(InsufficientStock)
      else RemoveProducts(l[(stock, p) := Qty(l, stock, p) - a], stock, items[1..])
  }

  /** ASSUMED `StockModel.appendProducts`: credit each line in turn. */
  function AppendProducts(l: Ledger, stock: int, items: seq<ProductAmount>): (r: Ledger)
    ensures forall s, p :: s != stock ==> Qty(r, s, p) == Qty(l, s, p)
    ensures forall p :: Qty(l, stock, p) <= Qty(r, stock, p)
    decreases |items|
  {
    if items == [] then l
    else
      var p, a := items[0].productId, items[0].amount;
      AppendProducts(l[(stock, p) := Qty(l, stock, p) + a], stock, items[1..])
  }

  /** A credit adds exactly the demanded amounts to the target stock and touches no other stock. */
  lemma {:induction false} AppendProductsAdds(l: Ledger, stock: int, items: seq<ProductAmount>, s: int, p: int)
    ensures Qty(AppendProducts(l, stock, items), s, p) == Qty(l, s, p) + (if s == stock then Demand(items, p) else 0)
    decreases |items|
  {
    if items != [] {
      var q, a := items[0].productId, items[0].amount;
      AppendProductsAdds(l[(stock, q) := Qty(l, stock, q) + a], stock, items[1..], s, p);
    }
  }

  /** A successful debit removes exactly the demanded amounts from the target stock and touches no other stock. */
  lemma {:induction false} RemoveProductsSubtracts(l: Ledger, stock: int, items: seq<ProductAmount>, s: int, p: int)
    requires RemoveProducts(l, stock, items).Ok?
    ensures Qty(RemoveProducts(l, stock, items).value, s, p) + (if s == stock then Demand(items, p) else 0) == Qty(l, s, p)
    decreases |items|
  {
    if items != [] {
      var q, a := items[0].productId, items[0].amount;
      RemoveProductsSubtracts(l[(stock, q) := Qty(l, stock, q) - a], stock, items[1..], s, p);
    }
  }

  /** The debit succeeds exactly when the stock holds, for every product, at least the total demanded. */
  lemma {:induction false} RemoveProductsSucceedsIff(l: Ledger, stock: int, items: seq<ProductAmount>)
    ensures RemoveProducts(l, stock, items).Ok? <==> forall p :: Demand(items, p) <= Qty(l, stock, p)
    decreases |items|
  {
    if RemoveProducts(l, stock, items).Ok? {
      forall p ensures Demand(items, p) <= Qty(l, stock, p) {
        RemoveProductsSubtracts(l, stock, items, stock, p);
      }
    }
    if items != [] && forall p :: Demand(items, p) <= Qty(l, stock, p) {
      var q, a := items[0].productId, items[0].amount;
      assert Demand(items, q) <= Qty(l, stock, q);
      var l' := l[(stock, q) := Qty(l, stock, q) - a];
      forall p ensures Demand(items[1..], p) <= Qty(l', stock, p) {
        assert Demand(items, p) <= Qty(l, stock, p);
      }
      RemoveProductsSucceedsIff(l', stock, items[1..]);
    }
  }

  /** Crediting back the lines of a successful debit restores every quantity. */
  lemma AppendAfterRemoveRestores(l: Ledger, stock: int, items: seq<ProductAmount>)
    requires RemoveProducts(l, stock, items).Ok?
    ensures SameQuantities(AppendProducts(RemoveProducts(l, stock, items).value, stock, items), l)
  {
    var removed := RemoveProducts(l, stock, items).value;
    forall s, p ensures Qty(AppendProducts(removed, stock, items), s, p) == Qty(l, s, p) {
      AppendProductsAdds(removed, stock, items, s, p);
      RemoveProductsSubtracts(l, stock, items, s, p);
    }
  }
}
