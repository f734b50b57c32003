/** The customer's side of the shop: adding to the session cart, the cart and
    checkout pages, turning the cart into orders, the order history and the
    home page filters. */
module Storefront {
  import opened Models
  import opened Strings
  import opened Cart
  import opened Database
  import Queries

  // ----- add_to_cart -----

  /** `add_to_cart` (the same in routes/main.py and app.py). The medicine id is
      not checked against the catalogue. */
  method AddToCart(session: Session, medId: Id, quantity: int)
    requires session.Valid()
    modifies session
    ensures session.Valid()
    ensures session.cart == AddQuantity(old(session.cart), medId, quantity)
    ensures session.pendingUserId == old(session.pendingUserId) && session.resetUserId == old(session.resetUserId)
  {
    session.cart := AddQuantity(session.cart, medId, quantity);
  }

  // ----- cart and checkout pages -----

  /** The cart page of routes/main.py: undiscounted `price * qty` per line whose
      medicine exists, and their sum. */
  method CartPage(db: Db, session: Session) returns (items: seq<CartItem>, total: real)
    ensures items == PlainItems(session.cart, db.medicines)
    ensures total == SumSubtotals(items)
  {
    var cart := session.cart;
    items, total := [], 0.0;
    var i := 0;
    while i < |cart|
      invariant 0 <= i <= |cart|
      invariant items == PlainItems(cart[..i], db.medicines)
      invariant total == SumSubtotals(items)
    {
      var line := cart[i];
      assert cart[..i + 1][..i] == cart[..i];
      if line.medId in db.medicines {
        var med := db.medicines[line.medId];
        var item := CartItem(line.medId, med, line.quantity, PlainSubtotal(med, line.quantity));
        assert (items + [item])[..|items|] == items;
        items := items + [item];
        total := total + item.subtotal;
      }
      i := i + 1;
    }
    assert cart[..i] == cart;
  }

  /** The checkout page (GET) and the cart page of app.py: discounted
      subtotals per line whose medicine exists, and their sum. */
  method DiscountedCartPage(db: Db, session: Session) returns (items: seq<CartItem>, total: real)
    ensures items == DiscountedItems(session.cart, db.medicines)
    ensures total == SumSubtotals(items)
  {
    var cart := session.cart;
    items, total := [], 0.0;
    var i := 0;
    while i < |cart|
      invariant 0 <= i <= |cart|
      invariant items == DiscountedItems(cart[..i], db.medicines)
      invariant total == SumSubtotals(items)
    {
      var line := cart[i];
      assert cart[..i + 1][..i] == cart[..i];
      if line.medId in db.medicines {
        var med := db.medicines[line.medId];
        var item := CartItem(line.medId, med, line.quantity, Subtotal(med, line.quantity));
        assert (items + [item])[..|items|] == items;
        items := items + [item];
        total := total + item.subtotal;
      }
      i := i + 1;
    }
    assert cart[..i] == cart;
  }

  // ----- turning the cart into orders -----

  /** The order a cart line becomes: Pending, the line's quantity, the request's
      address and prescription file, and the discounted subtotal as its total. */
  function LineOrder(line: CartLine, med: Medicine, user: Id, address: string,
                     prescription: Option<string>, now: Time): (o: Order)
    ensures o.status == Pending && o.userId == user && o.medicineId == line.medId && o.quantity == line.quantity
    ensures o.total == Some(Subtotal(med, line.quantity))
    ensures o.address == Some(address) && o.prescription == prescription && o.orderedAt == now
    ensures o.deliveryOtp.None? && o.deliveryOtpExpiry.None?
  {
    NewOrder(user, line.medId, line.quantity, now).(
      address := Some(address), prescription := prescription, total := Some(Subtotal(med, line.quantity)))
  }

  /** A line is taken when its medicine exists and has at least that much stock. */
  predicate Accepts(meds: map<Id, Medicine>, line: CartLine) {
    line.medId in meds && meds[line.medId].stock >= line.quantity
  }

  /** `stock -= qty; if stock < 0: stock = 0`. */
  function ClampedStock(stock: int, quantity: int): (r: int)
    ensures r >= 0
    ensures r == stock - quantity || (r == 0 && stock - quantity < 0)
  {
    if stock - quantity < 0 then 0 else stock - quantity
  }

  /** The medicines and the new orders after the cart lines so far. */
  datatype Placement = Placement(meds: map<Id, Medicine>, orders: seq<Order>)

  /** One line of the checkout loop, against the stock as the earlier lines
      left it. */
  function Step(p: Placement, line: CartLine, user: Id, address: string,
                prescription: Option<string>, now: Time): Placement
  {
    if Accepts(p.meds, line) then
      var med := p.meds[line.medId];
      Placement(p.meds[line.medId := med.(stock := ClampedStock(med.stock, line.quantity))],
                p.orders + [LineOrder(line, med, user, address, prescription, now)])
    else p
  }

  /** The checkout loop: the lines in the iteration order of the cart it is given. */
  function Materialize(cart: seq<CartLine>, meds: map<Id, Medicine>, user: Id, address: string,
                       prescription: Option<string>, now: Time): Placement
  {
    if cart == [] then Placement(meds, [])
    else Step(Materialize(cart[..|cart| - 1], meds, user, address, prescription, now),
              cart[|cart| - 1], user, address, prescription, now)
  }

  /** Reference definition against the catalogue as it was before checkout:
      the orders of the accepted lines, in the given cart's order. */
  function AcceptedOrders(cart: seq<CartLine>, meds: map<Id, Medicine>, user: Id, address: string,
                          prescription: Option<string>, now: Time): seq<Order>
  {
    if cart == [] then []
    else
      AcceptedOrders(cart[..|cart| - 1], meds, user, address, prescription, now)
      + (var line := cart[|cart| - 1];
         if Accepts(meds, line) then [LineOrder(line, meds[line.medId], user, address, prescription, now)] else [])
  }

  /** The medicine record after checkout, for a line of the cart. */
  function Settled(meds: map<Id, Medicine>, line: CartLine): Medicine
    requires line.medId in meds
  {
    var med := meds[line.medId];
    if Accepts(meds, line) then med.(stock := ClampedStock(med.stock, line.quantity)) else med
  }

  /** No medicine is added or removed. */
  lemma {:induction false} MaterializeKeys(cart: seq<CartLine>, meds: map<Id, Medicine>, user: Id, address: string,
                                           prescription: Option<string>, now: Time)
    ensures Materialize(cart, meds, user, address, prescription, now).meds.Keys == meds.Keys
  {
    if cart != [] {
      MaterializeKeys(cart[..|cart| - 1], meds, user, address, prescription, now);
    }
  }

  /** A medicine no line names keeps its record. */
  lemma {:induction false} MaterializeUntouched(cart: seq<CartLine>, meds: map<Id, Medicine>, user: Id, address: string,
                                                prescription: Option<string>, now: Time, id: Id)
    requires id in meds && id !in Keys(cart)
    ensures id in Materialize(cart, meds, user, address, prescription, now).meds
    ensures Materialize(cart, meds, user, address, prescription, now).meds[id] == meds[id]
  {
    MaterializeKeys(cart, meds, user, address, prescription, now);
    if cart != [] {
      var init := cart[..|cart| - 1];
      assert forall i :: 0 <= i < |init| ==> Keys(init)[i] == Keys(cart)[i];
      assert Keys(cart)[|cart| - 1] == cart[|cart| - 1].medId;
      MaterializeUntouched(init, meds, user, address, prescription, now, id);
    }
  }

  /** The last line's medicine id does not occur earlier in a dictionary's lines. */
  lemma LastIsNew(cart: seq<CartLine>)
    requires DistinctIds(cart) && cart != []
    ensures DistinctIds(cart[..|cart| - 1])
    ensures cart[|cart| - 1].medId !in Keys(cart[..|cart| - 1])
  {
    var init := cart[..|cart| - 1];
    forall i | 0 <= i < |init| ensures Keys(init)[i] != cart[|cart| - 1].medId {
      assert init[i] == cart[i];
    }
  }

  /** With distinct ids each line sees its medicine's original stock, so the
      orders are those of the lines the original stock accepts. */
  lemma {:induction false} MaterializeOrders(cart: seq<CartLine>, meds: map<Id, Medicine>, user: Id, address: string,
                                             prescription: Option<string>, now: Time)
    requires DistinctIds(cart)
    ensures Materialize(cart, meds, user, address, prescription, now).orders
            == AcceptedOrders(cart, meds, user, address, prescription, now)
  {
    if cart != [] {
      var init := cart[..|cart| - 1];
      var line := cart[|cart| - 1];
      LastIsNew(cart);
      MaterializeOrders(init, meds, user, address, prescription, now);
      if line.medId in meds {
        MaterializeUntouched(init, meds, user, address, prescription, now, line.medId);
      } else {
        MaterializeKeys(init, meds, user, address, prescription, now);
      }
    }
  }

  /** With distinct ids, a line's medicine ends as `Settled` says: an accepted
      line's at `max(0, stock - qty)`, a skipped line's unchanged. */
  lemma {:induction false} MaterializeSettled(cart: seq<CartLine>, meds: map<Id, Medicine>, user: Id, address: string,
                                              prescription: Option<string>, now: Time, i: nat)
    requires DistinctIds(cart) && i < |cart| && cart[i].medId in meds
    ensures cart[i].medId in Materialize(cart, meds, user, address, prescription, now).meds
    ensures Materialize(cart, meds, user, address, prescription, now).meds[cart[i].medId] == Settled(meds, cart[i])
  {
    var init := cart[..|cart| - 1];
    var line := cart[|cart| - 1];
    LastIsNew(cart);
    MaterializeKeys(cart, meds, user, address, prescription, now);
    if i == |cart| - 1 {
      MaterializeUntouched(init, meds, user, address, prescription, now, line.medId);
    } else {
      assert init[i] == cart[i];
      MaterializeSettled(init, meds, user, address, prescription, now, i);
    }
  }

  /** The checkout's effect in terms of the catalogue before it: the orders
      are those of the lines the original stock accepts, in the given cart's order; an
      accepted line's medicine ends at `max(0, stock - qty)`, a skipped line's
      medicine and every medicine not in the cart are untouched, and no medicine
      is added or removed. */
  lemma MaterializeSpec(cart: seq<CartLine>, meds: map<Id, Medicine>, user: Id, address: string,
                        prescription: Option<string>, now: Time)
    requires DistinctIds(cart)
    ensures var p := Materialize(cart, meds, user, address, prescription, now);
            && p.meds.Keys == meds.Keys
            && p.orders == AcceptedOrders(cart, meds, user, address, prescription, now)
            && (forall id :: id in meds && id !in Keys(cart) ==> p.meds[id] == meds[id])
            && (forall i :: 0 <= i < |cart| && cart[i].medId in meds ==> p.meds[cart[i].medId] == Settled(meds, cart[i]))
  {
    MaterializeKeys(cart, meds, user, address, prescription, now);
    MaterializeOrders(cart, meds, user, address, prescription, now);
    forall id | id in meds && id !in Keys(cart)
      ensures Materialize(cart, meds, user, address, prescription, now).meds[id] == meds[id]
    {
      MaterializeUntouched(cart, meds, user, address, prescription, now, id);
    }
    forall i | 0 <= i < |cart| && cart[i].medId in meds
      ensures Materialize(cart, meds, user, address, prescription, now).meds[cart[i].medId] == Settled(meds, cart[i])
    {
      MaterializeSettled(cart, meds, user, address, prescription, now, i);
    }
  }

  /** Every remaining stock is non-negative when every stock was. */
  lemma {:induction false} MaterializeKeepsStockNonNegative(cart: seq<CartLine>, meds: map<Id, Medicine>, user: Id,
                                                            address: string, prescription: Option<string>, now: Time)
    requires forall id :: id in meds ==> meds[id].stock >= 0
    ensures forall id :: id in Materialize(cart, meds, user, address, prescription, now).meds ==>
              Materialize(cart, meds, user, address, prescription, now).meds[id].stock >= 0
  {
    if cart != [] {
      MaterializeKeepsStockNonNegative(cart[..|cart| - 1], meds, user, address, prescription, now);
      var q := Materialize(cart[..|cart| - 1], meds, user, address, prescription, now);
      var line := cart[|cart| - 1];
      if Accepts(q.meds, line) {
        var med := q.meds[line.medId];
        var m := q.meds[line.medId := med.(stock := ClampedStock(med.stock, line.quantity))];
        forall id | id in m ensures m[id].stock >= 0 {
          if id != line.medId {
            assert m[id] == q.meds[id];
          }
        }
      }
    }
  }

  /** The orders table after new rows received consecutive keys from `start`. */
  function AddRows(orders: map<Id, Order>, start: Id, rows: seq<Order>): map<Id, Order> {
    if rows == [] then orders
    else AddRows(orders, start, rows[..|rows| - 1])[start + |rows| - 1 := rows[|rows| - 1]]
  }

  /** The new rows are stored under `start`, `start + 1`, ..., the old rows are kept. */
  lemma {:induction false} AddRowsSpec(orders: map<Id, Order>, start: Id, rows: seq<Order>)
    requires forall id :: id in orders ==> id < start
    ensures forall j :: 0 <= j < |rows| ==> start + j in AddRows(orders, start, rows) && AddRows(orders, start, rows)[start + j] == rows[j]
    ensures forall id :: id in orders ==> id in AddRows(orders, start, rows) && AddRows(orders, start, rows)[id] == orders[id]
    ensures forall id :: id in AddRows(orders, start, rows) <==> id in orders || start <= id < start + |rows|
  {
    if rows != [] {
      var init := rows[..|rows| - 1];
      AddRowsSpec(orders, start, init);
      var before := AddRows(orders, start, init);
      assert AddRows(orders, start, rows) == before[start + |init| := rows[|rows| - 1]];
      assert forall j :: 0 <= j < |init| ==> init[j] == rows[j];
    }
  }

  /** `grand_total`: the sum of the new orders' totals. */
  function TotalOf(rows: seq<Order>): real {
    if rows == [] then 0.0 else TotalOf(rows[..|rows| - 1]) + rows[|rows| - 1].total.GetOr(0.0)
  }

  /** One iteration of the checkout loop on the database: an accepted line
      adds its order under the next key and lowers the stock; a skipped line
      changes nothing. */
  method PlaceLine(db: Db, line: CartLine, user: Id, address: string,
                   prescription: Option<string>, now: Time) returns (added: real)
    requires db.Valid() && user in db.users
    modifies db
    ensures db.Valid()
    ensures Accepts(old(db.medicines), line) ==>
              var med := old(db.medicines)[line.medId];
              && db.medicines == old(db.medicines)[line.medId := med.(stock := ClampedStock(med.stock, line.quantity))]
              && db.orders == old(db.orders)[old(db.nextOrderId) := LineOrder(line, med, user, address, prescription, now)]
              && db.nextOrderId == old(db.nextOrderId) + 1
              && added == Subtotal(med, line.quantity)
    ensures !Accepts(old(db.medicines), line) ==>
              db.medicines == old(db.medicines) && db.orders == old(db.orders)
              && db.nextOrderId == old(db.nextOrderId) && added == 0.0
    ensures db.users == old(db.users) && db.prescriptions == old(db.prescriptions)
    ensures db.nextUserId == old(db.nextUserId) && db.nextMedicineId == old(db.nextMedicineId)
    ensures db.nextPrescriptionId == old(db.nextPrescriptionId)
  {
    added := 0.0;
    if line.medId in db.medicines && db.medicines[line.medId].stock >= line.quantity {
      var med := db.medicines[line.medId];
      var o := LineOrder(line, med, user, address, prescription, now);
      var _ := db.AddOrder(o);
      added := o.total.value;
      db.PutMedicine(line.medId, med.(stock := ClampedStock(med.stock, line.quantity)));
    }
  }

  /** The loop shared by `checkout` and `place_order`: one Pending order per
      accepted line, the stock decremented and clamped, the running grand total. */
  method PlaceCartOrders(db: Db, cart: seq<CartLine>, user: Id, address: string,
                         prescription: Option<string>, now: Time) returns (grandTotal: real)
    requires db.Valid() && user in db.users
    modifies db
    ensures db.Valid()
    ensures var p := Materialize(cart, old(db.medicines), user, address, prescription, now);
            && db.medicines == p.meds
            && db.orders == AddRows(old(db.orders), old(db.nextOrderId), p.orders)
            && db.nextOrderId == old(db.nextOrderId) + |p.orders|
            && grandTotal == TotalOf(p.orders)
    ensures db.users == old(db.users) && db.prescriptions == old(db.prescriptions)
    ensures db.nextUserId == old(db.nextUserId) && db.nextMedicineId == old(db.nextMedicineId)
    ensures db.nextPrescriptionId == old(db.nextPrescriptionId)
  {
    ghost var meds0, orders0, start := db.medicines, db.orders, db.nextOrderId;
    grandTotal := 0.0;
    var i := 0;
    while i < |cart|
      invariant 0 <= i <= |cart|
      invariant db.Valid()
      invariant db.users == old(db.users) && db.prescriptions == old(db.prescriptions)
      invariant db.nextUserId == old(db.nextUserId) && db.nextMedicineId == old(db.nextMedicineId)
      invariant db.nextPrescriptionId == old(db.nextPrescriptionId)
      invariant db.medicines == Materialize(cart[..i], meds0, user, address, prescription, now).meds
      invariant db.orders == AddRows(orders0, start, Materialize(cart[..i], meds0, user, address, prescription, now).orders)
      invariant db.nextOrderId == start + |Materialize(cart[..i], meds0, user, address, prescription, now).orders|
      invariant grandTotal == TotalOf(Materialize(cart[..i], meds0, user, address, prescription, now).orders)
    {
      ghost var p := Materialize(cart[..i], meds0, user, address, prescription, now);
      assert cart[..i + 1][..i] == cart[..i];
      assert Materialize(cart[..i + 1], meds0, user, address, prescription, now)
             == Step(p, cart[i], user, address, prescription, now);
      var added := PlaceLine(db, cart[i], user, address, prescription, now);
      if Accepts(p.meds, cart[i]) {
        var o := LineOrder(cart[i], p.meds[cart[i].medId], user, address, prescription, now);
        assert (p.orders + [o])[..|p.orders|] == p.orders;
      }
      grandTotal := grandTotal + added;
      i := i + 1;
    }
    assert cart[..i] == cart;
  }

  /** A delivery address was given (`request.form.get('address')` is truthy). */
  predicate HasAddress(address: Option<string>) {
    address.Some? && address.value != []
  }

  /** `checkout` (POST): an empty cart or a missing address changes nothing;
      otherwise the cart's lines become orders and the stock is reduced. The cart
      is emptied unless the admin notification raises, which happens after the
      commit and leaves the orders in place. */
  method Checkout(db: Db, session: Session, actor: Id, address: Option<string>,
                  prescription: Option<string>, now: Time, adminMailSent: bool) returns (placed: bool)
    requires db.Valid() && session.Valid() && actor in db.users
    modifies db, session
    ensures db.Valid() && session.Valid()
    ensures placed <==> old(session.cart) != [] && HasAddress(address)
    ensures !placed ==> db.medicines == old(db.medicines) && db.orders == old(db.orders) && session.cart == old(session.cart)
    ensures placed ==>
              var p := Materialize(old(session.cart), old(db.medicines), actor, address.value, prescription, now);
              && db.medicines == p.meds
              && db.orders == AddRows(old(db.orders), old(db.nextOrderId), p.orders)
              && session.cart == (if adminMailSent then [] else old(session.cart))
    ensures db.users == old(db.users) && db.prescriptions == old(db.prescriptions)
    ensures session.pendingUserId == old(session.pendingUserId) && session.resetUserId == old(session.resetUserId)
  {
    if session.cart == [] || !HasAddress(address) {
      return false;
    }
    var _ := PlaceCartOrders(db, session.cart, actor, address.value, prescription, now);
    if adminMailSent {
      session.cart := [];
    }
    return true;
  }

  /** `place_order`: as `checkout`, and also reports the grand total of the
      orders it created. */
  method PlaceOrder(db: Db, session: Session, actor: Id, address: Option<string>,
                    prescription: Option<string>, now: Time, adminMailSent: bool)
    returns (placed: bool, grandTotal: real)
    requires db.Valid() && session.Valid() && actor in db.users
    modifies db, session
    ensures db.Valid() && session.Valid()
    ensures placed <==> old(session.cart) != [] && HasAddress(address)
    ensures !placed ==> db.medicines == old(db.medicines) && db.orders == old(db.orders)
                        && session.cart == old(session.cart) && grandTotal == 0.0
    ensures placed ==>
              var p := Materialize(old(session.cart), old(db.medicines), actor, address.value, prescription, now);
              && db.medicines == p.meds
              && db.orders == AddRows(old(db.orders), old(db.nextOrderId), p.orders)
              && grandTotal == TotalOf(p.orders)
              && session.cart == (if adminMailSent then [] else old(session.cart))
    ensures db.users == old(db.users) && db.prescriptions == old(db.prescriptions)
    ensures session.pendingUserId == old(session.pendingUserId) && session.resetUserId == old(session.resetUserId)
  {
    if session.cart == [] || !HasAddress(address) {
      return false, 0.0;
    }
    grandTotal := PlaceCartOrders(db, session.cart, actor, address.value, prescription, now);
    if adminMailSent {
      session.cart := [];
    }
    placed := true;
  }

  // ----- home page -----

  /** `ilike('%q%')` for a filter that was given; an empty filter is not applied. */
  predicate FilterMatches(field: string, query: string) {
    query == [] || ContainsIgnoringCase(field, query)
  }

  /** The home page filters: the search term in the brand or the medicine
      name, the category, the brand. */
  predicate MatchesHome(m: Medicine, search: string, category: string, brand: string) {
    (search == [] || ContainsIgnoringCase(m.name, search) || ContainsIgnoringCase(m.medicineName, search))
    && FilterMatches(m.category, category) && FilterMatches(m.name, brand)
  }

  function ListedBy(meds: map<Id, Medicine>, search: string, category: string, brand: string): nat -> bool {
    id => id in meds && MatchesHome(meds[id], search, category, brand)
  }

  /** `home`: the medicines passing every given filter, in key order. */
  function HomeListing(meds: map<Id, Medicine>, bound: Id, search: string, category: string, brand: string): (r: seq<Id>)
    ensures Queries.StrictlyAscending(r)
    ensures forall id :: id in r <==> id in meds && id < bound && MatchesHome(meds[id], search, category, brand)
  {
    Queries.SelectAscending(Queries.IdsAscending(meds.Keys, bound), ListedBy(meds, search, category, brand));
    Queries.Select(Queries.IdsAscending(meds.Keys, bound), ListedBy(meds, search, category, brand))
  }

  /** Without filters the home page lists the whole catalogue. */
  lemma HomeUnfiltered(meds: map<Id, Medicine>, bound: Id)
    ensures HomeListing(meds, bound, [], [], []) == Queries.IdsAscending(meds.Keys, bound)
  {
    Queries.SelectAll(Queries.IdsAscending(meds.Keys, bound), ListedBy(meds, [], [], []));
  }

  /** A search term only removes medicines from the filtered list, keeping the
      order of the rest. */
  lemma SearchNarrows(meds: map<Id, Medicine>, bound: Id, search: string, category: string, brand: string)
    ensures HomeListing(meds, bound, search, category, brand)
            == Queries.Select(HomeListing(meds, bound, [], category, brand), ListedBy(meds, search, [], []))
    ensures Queries.IsSubsequence(HomeListing(meds, bound, search, category, brand), HomeListing(meds, bound, [], category, brand))
  {
    var ids := Queries.IdsAscending(meds.Keys, bound);
    Queries.SelectSelect(ids, ListedBy(meds, [], category, brand), ListedBy(meds, search, [], []),
                         ListedBy(meds, search, category, brand));
    Queries.SelectIsSubsequence(HomeListing(meds, bound, [], category, brand), ListedBy(meds, search, [], []));
  }

  /** `category_filter`: the medicines whose category contains the path
      segment, in key order. */
  function InCategory(meds: map<Id, Medicine>, category: string): nat -> bool {
    id => id in meds && ContainsIgnoringCase(meds[id].category, category)
  }

  function CategoryPage(meds: map<Id, Medicine>, bound: Id, category: string): seq<Id> {
    Queries.Select(Queries.IdsAscending(meds.Keys, bound), InCategory(meds, category))
  }

  /** The category page is the home page with only the category filter. */
  lemma CategoryPageIsHomeFilter(meds: map<Id, Medicine>, bound: Id, category: string)
    ensures CategoryPage(meds, bound, category) == HomeListing(meds, bound, [], category, [])
  {
    forall x: string ensures ContainsIgnoringCase(x, []) {
      assert IsAt(Lower(x), Lower([]), 0);
    }
    Queries.SelectAgree(Queries.IdsAscending(meds.Keys, bound), InCategory(meds, category),
                        ListedBy(meds, [], category, []));
  }

  // ----- order history -----

  /** One row of the order history: an order whose medicine still exists, or
      a prescription. */
  datatype HistoryEntry =
    | OrderEntry(id: Id, order: Order, medicine: Medicine)
    | PrescriptionEntry(id: Id, prescription: Prescription)

  /** The sort key: `ordered_at` or `submitted_at`. */
  function EntryDate(e: HistoryEntry): Time {
    match e
    case OrderEntry(_, o, _) => o.orderedAt
    case PrescriptionEntry(_, p) => p.submittedAt
  }

  function IsOwnOrder(orders: map<Id, Order>, user: Id): nat -> bool {
    id => id in orders && orders[id].userId == user
  }

  function IsOwnPrescription(ps: map<Id, Prescription>, user: Id): nat -> bool {
    id => id in ps && ps[id].userId == user
  }

  /** `Order.query.filter_by(user_id=user).order_by(Order.id.desc())`. */
  function OwnOrders(orders: map<Id, Order>, bound: Id, user: Id): (r: seq<Id>)
    ensures Queries.StrictlyDescending(r)
    ensures forall id :: id in r <==> id in orders && id < bound && orders[id].userId == user
  {
    Queries.SelectDescending(Queries.IdsDescending(orders.Keys, bound), IsOwnOrder(orders, user));
    Queries.Select(Queries.IdsDescending(orders.Keys, bound), IsOwnOrder(orders, user))
  }

  /** The same for prescriptions. */
  function OwnPrescriptions(ps: map<Id, Prescription>, bound: Id, user: Id): (r: seq<Id>)
    ensures Queries.StrictlyDescending(r)
    ensures forall id :: id in r <==> id in ps && id < bound && ps[id].userId == user
  {
    Queries.SelectDescending(Queries.IdsDescending(ps.Keys, bound), IsOwnPrescription(ps, user));
    Queries.Select(Queries.IdsDescending(ps.Keys, bound), IsOwnPrescription(ps, user))
  }

  /** The history row of an order whose medicine exists. */
  function OrderEntryOf(id: Id, orders: map<Id, Order>, meds: map<Id, Medicine>): seq<HistoryEntry> {
    if id in orders && orders[id].medicineId in meds then [OrderEntry(id, orders[id], meds[orders[id].medicineId])] else []
  }

  /** The history row of a prescription. */
  function PrescriptionEntryOf(id: Id, ps: map<Id, Prescription>): seq<HistoryEntry> {
    if id in ps then [PrescriptionEntry(id, ps[id])] else []
  }

  /** The entries of the listed orders whose medicine exists, in list order. */
  function OrderEntries(ids: seq<Id>, orders: map<Id, Order>, meds: map<Id, Medicine>): seq<HistoryEntry> {
    if ids == [] then [] else OrderEntries(ids[..|ids| - 1], orders, meds) + OrderEntryOf(ids[|ids| - 1], orders, meds)
  }

  /** The entries of the listed prescriptions, in list order. */
  function PrescriptionEntries(ids: seq<Id>, ps: map<Id, Prescription>): seq<HistoryEntry> {
    if ids == [] then [] else PrescriptionEntries(ids[..|ids| - 1], ps) + PrescriptionEntryOf(ids[|ids| - 1], ps)
  }

  /** An order entry is listed iff its id is, its row is current and its medicine exists. */
  predicate IsOrderRow(e: HistoryEntry, orders: map<Id, Order>, meds: map<Id, Medicine>) {
    e.OrderEntry? && e.id in orders && e.order == orders[e.id]
    && e.order.medicineId in meds && e.medicine == meds[e.order.medicineId]
  }

  lemma {:induction false} OrderEntriesMembers(ids: seq<Id>, orders: map<Id, Order>, meds: map<Id, Medicine>)
    ensures forall e :: e in OrderEntries(ids, orders, meds) <==> e.OrderEntry? && e.id in ids && IsOrderRow(e, orders, meds)
  {
    if ids != [] {
      var init := ids[..|ids| - 1];
      OrderEntriesMembers(init, orders, meds);
      assert ids == init + [ids[|ids| - 1]];
      assert forall x :: x in ids <==> x in init || x == ids[|ids| - 1];
    }
  }

  lemma {:induction false} PrescriptionEntriesMembers(ids: seq<Id>, ps: map<Id, Prescription>)
    ensures forall e :: e in PrescriptionEntries(ids, ps) <==>
                          e.PrescriptionEntry? && e.id in ids && e.id in ps && e.prescription == ps[e.id]
  {
    if ids != [] {
      var init := ids[..|ids| - 1];
      PrescriptionEntriesMembers(init, ps);
      assert ids == init + [ids[|ids| - 1]];
      assert forall x :: x in ids <==> x in init || x == ids[|ids| - 1];
    }
  }

  /** Listing the orders of distinct ids gives each entry at most once. */
  lemma {:induction false} OrderEntriesOnce(ids: seq<Id>, orders: map<Id, Order>, meds: map<Id, Medicine>)
    requires Queries.StrictlyDescending(ids)
    ensures forall e :: multiset(OrderEntries(ids, orders, meds))[e] <= 1
  {
    if ids != [] {
      var init := ids[..|ids| - 1];
      var last := ids[|ids| - 1];
      assert Queries.StrictlyDescending(init);
      OrderEntriesOnce(init, orders, meds);
      OrderEntriesMembers(init, orders, meds);
      assert OrderEntries(ids, orders, meds) == OrderEntries(init, orders, meds) + OrderEntryOf(last, orders, meds);
      forall e ensures multiset(OrderEntries(ids, orders, meds))[e] <= 1 {
        if e.OrderEntry? && e.id == last {
          assert last !in init by {
            forall j | 0 <= j < |init| ensures init[j] != last { assert init[j] == ids[j]; }
          }
          assert e !in OrderEntries(init, orders, meds);
        }
      }
    }
  }

  /** Listing the prescriptions of distinct ids gives each entry at most once. */
  lemma {:induction false} PrescriptionEntriesOnce(ids: seq<Id>, ps: map<Id, Prescription>)
    requires Queries.StrictlyDescending(ids)
    ensures forall e :: multiset(PrescriptionEntries(ids, ps))[e] <= 1
  {
    if ids != [] {
      var init := ids[..|ids| - 1];
      var last := ids[|ids| - 1];
      assert Queries.StrictlyDescending(init);
      PrescriptionEntriesOnce(init, ps);
      PrescriptionEntriesMembers(init, ps);
      assert PrescriptionEntries(ids, ps) == PrescriptionEntries(init, ps) + PrescriptionEntryOf(last, ps);
      forall e ensures multiset(PrescriptionEntries(ids, ps))[e] <= 1 {
        if e.PrescriptionEntry? && e.id == last {
          assert last !in init by {
            forall j | 0 <= j < |init| ensures init[j] != last { assert init[j] == ids[j]; }
          }
          assert e !in PrescriptionEntries(init, ps);
        }
      }
    }
  }

  predicate NewestFirst(s: seq<HistoryEntry>) {
    forall i, j :: 0 <= i < j < |s| ==> EntryDate(s[i]) >= EntryDate(s[j])
  }

  /** Inserting before the first entry that is not newer keeps earlier
      entries ahead of later ones with the same date. */
  function Insert(e: HistoryEntry, s: seq<HistoryEntry>): seq<HistoryEntry> {
    if s == [] then [e]
    else if EntryDate(s[0]) <= EntryDate(e) then [e] + s
    else [s[0]] + Insert(e, s[1..])
  }

  /** `all_items.sort(key=date, reverse=True)`. */
  function SortNewestFirst(s: seq<HistoryEntry>): seq<HistoryEntry> {
    if s == [] then [] else Insert(s[0], SortNewestFirst(s[1..]))
  }

  /** Insertion adds exactly the one entry. */
  lemma {:induction false} InsertPermutes(e: HistoryEntry, s: seq<HistoryEntry>)
    ensures multiset(Insert(e, s)) == multiset(s) + multiset{e}
  {
    if s != [] && EntryDate(s[0]) > EntryDate(e) {
      InsertPermutes(e, s[1..]);
      assert s == [s[0]] + s[1..];
    }
  }

  /** Every entry after insertion was given or is the inserted one. */
  lemma {:induction false} InsertMembers(e: HistoryEntry, s: seq<HistoryEntry>)
    ensures forall x :: x in Insert(e, s) ==> x == e || x in s
  {
    if s != [] && EntryDate(s[0]) > EntryDate(e) {
      InsertMembers(e, s[1..]);
    }
  }

  /** Insertion into a newest-first list keeps it newest first. */
  lemma {:induction false} InsertSorted(e: HistoryEntry, s: seq<HistoryEntry>)
    requires NewestFirst(s)
    ensures NewestFirst(Insert(e, s))
  {
    if s != [] && EntryDate(s[0]) > EntryDate(e) {
      var tail := s[1..];
      InsertSorted(e, tail);
      InsertMembers(e, tail);
      var rest := Insert(e, tail);
      assert Insert(e, s) == [s[0]] + rest;
      forall j | 0 <= j < |rest| ensures EntryDate(s[0]) >= EntryDate(rest[j]) {
        assert rest[j] in rest;
      }
    }
  }

  /** The history sort yields the entries newest first, each exactly as
      often as it was given. */
  lemma {:induction false} SortSpec(s: seq<HistoryEntry>)
    ensures NewestFirst(SortNewestFirst(s))
    ensures multiset(SortNewestFirst(s)) == multiset(s)
  {
    if s != [] {
      SortSpec(s[1..]);
      InsertSorted(s[0], SortNewestFirst(s[1..]));
      InsertPermutes(s[0], SortNewestFirst(s[1..]));
      assert s == [s[0]] + s[1..];
    }
  }

  /** The `all_items` list of `my_orders`. */
  function History(orders: map<Id, Order>, meds: map<Id, Medicine>, ps: map<Id, Prescription>,
                   orderBound: Id, prescriptionBound: Id, user: Id): seq<HistoryEntry>
  {
    SortNewestFirst(OrderEntries(OwnOrders(orders, orderBound, user), orders, meds)
                    + PrescriptionEntries(OwnPrescriptions(ps, prescriptionBound, user), ps))
  }

  /** The history holds exactly the user's orders whose medicine exists and
      the user's prescriptions, each once and with its current row, newest first. */
  lemma HistorySpec(orders: map<Id, Order>, meds: map<Id, Medicine>, ps: map<Id, Prescription>,
                    orderBound: Id, prescriptionBound: Id, user: Id)
    ensures NewestFirst(History(orders, meds, ps, orderBound, prescriptionBound, user))
    ensures multiset(History(orders, meds, ps, orderBound, prescriptionBound, user))
            == multiset(OrderEntries(OwnOrders(orders, orderBound, user), orders, meds)
                        + PrescriptionEntries(OwnPrescriptions(ps, prescriptionBound, user), ps))
    ensures forall e :: multiset(History(orders, meds, ps, orderBound, prescriptionBound, user))[e] <= 1
    ensures forall e :: e in History(orders, meds, ps, orderBound, prescriptionBound, user) <==>
      || (e.OrderEntry? && e.id in orders && e.id < orderBound && orders[e.id].userId == user
          && e.order == orders[e.id] && e.order.medicineId in meds && e.medicine == meds[e.order.medicineId])
      || (e.PrescriptionEntry? && e.id in ps && e.id < prescriptionBound && ps[e.id].userId == user
          && e.prescription == ps[e.id])
  {
    var os := OrderEntries(OwnOrders(orders, orderBound, user), orders, meds);
    var pe := PrescriptionEntries(OwnPrescriptions(ps, prescriptionBound, user), ps);
    SortSpec(os + pe);
    OrderEntriesMembers(OwnOrders(orders, orderBound, user), orders, meds);
    PrescriptionEntriesMembers(OwnPrescriptions(ps, prescriptionBound, user), ps);
    forall e ensures e in History(orders, meds, ps, orderBound, prescriptionBound, user) <==> e in os + pe {
      assert e in multiset(SortNewestFirst(os + pe)) <==> e in multiset(os + pe);
    }
    OrderEntriesOnce(OwnOrders(orders, orderBound, user), orders, meds);
    PrescriptionEntriesOnce(OwnPrescriptions(ps, prescriptionBound, user), ps);
    forall e: HistoryEntry ensures multiset(os + pe)[e] <= 1 {
      assert multiset(os + pe) == multiset(os) + multiset(pe);
      if e.OrderEntry? {
        assert e !in pe;
      } else {
        assert e !in os;
      }
    }
  }

  /** The first loop of `my_orders`. */
  method CollectOrderEntries(db: Db, ids: seq<Id>) returns (entries: seq<HistoryEntry>)
    ensures entries == OrderEntries(ids, db.orders, db.medicines)
  {
    entries := [];
    var i := 0;
    while i < |ids|
      invariant 0 <= i <= |ids|
      invariant entries == OrderEntries(ids[..i], db.orders, db.medicines)
    {
      var id := ids[i];
      assert ids[..i + 1][..i] == ids[..i];
      if id in db.orders && db.orders[id].medicineId in db.medicines {
        var order := db.orders[id];
        entries := entries + [OrderEntry(id, order, db.medicines[order.medicineId])];
      }
      i := i + 1;
    }
    assert ids[..i] == ids;
  }

  /** The second loop of `my_orders`. */
  method CollectPrescriptionEntries(db: Db, ids: seq<Id>) returns (entries: seq<HistoryEntry>)
    ensures entries == PrescriptionEntries(ids, db.prescriptions)
  {
    entries := [];
    var i := 0;
    while i < |ids|
      invariant 0 <= i <= |ids|
      invariant entries == PrescriptionEntries(ids[..i], db.prescriptions)
    {
      var id := ids[i];
      assert ids[..i + 1][..i] == ids[..i];
      if id in db.prescriptions {
        entries := entries + [PrescriptionEntry(id, db.prescriptions[id])];
      }
      i := i + 1;
    }
    assert ids[..i] == ids;
  }

  /** `my_orders`: the entries of the user's orders and prescriptions, sorted
      newest first. */
  method MyOrders(db: Db, user: Id) returns (entries: seq<HistoryEntry>)
    ensures entries == History(db.orders, db.medicines, db.prescriptions, db.nextOrderId, db.nextPrescriptionId, user)
  {
    var orderEntries := CollectOrderEntries(db, OwnOrders(db.orders, db.nextOrderId, user));
    var prescriptionEntries := CollectPrescriptionEntries(db, OwnPrescriptions(db.prescriptions, db.nextPrescriptionId, user));
    entries := SortNewestFirst(orderEntries + prescriptionEntries);
  }
}
