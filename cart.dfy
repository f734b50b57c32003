/** The session cart: a dictionary from medicine id to quantity, as a list of
    lines with distinct ids in the order the dictionary holds them during one
    request. Within a request a Python dictionary keeps insertion order; the
    order a later request sees is not modelled (see README). */
module Cart {
  import opened Models

  datatype CartLine = CartLine(medId: Id, quantity: int)

  predicate DistinctIds(cart: seq<CartLine>) {
    forall i, j :: 0 <= i < j < |cart| ==> cart[i].medId != cart[j].medId
  }

  /** The keys of the dictionary, in its iteration order. */
  function Keys(cart: seq<CartLine>): (ks: seq<Id>)
    ensures |ks| == |cart| && forall i :: 0 <= i < |cart| ==> ks[i] == cart[i].medId
  {
    if cart == [] then [] else [cart[0].medId] + Keys(cart[1..])
  }

  /** `cart.get(id, 0)`. */
  function Quantity(cart: seq<CartLine>, id: Id): (q: int)
    ensures id !in Keys(cart) ==> q == 0
  {
    if cart == [] then 0
    else if cart[0].medId == id then cart[0].quantity
    else Quantity(cart[1..], id)
  }

  /** With distinct ids, the quantity of an id is that of its one line. */
  lemma {:induction false} QuantityAt(cart: seq<CartLine>, id: Id, i: nat)
    requires DistinctIds(cart) && i < |cart| && cart[i].medId == id
    ensures Quantity(cart, id) == cart[i].quantity
  {
    if i > 0 {
      assert cart[0].medId != id;
      assert cart[1..][i - 1] == cart[i];
      QuantityAt(cart[1..], id, i - 1);
    }
  }

  /** `cart[id] = q`: an existing key keeps its place, a new key goes last
      in this request's dictionary. */
  function Assign(cart: seq<CartLine>, id: Id, q: int): (r: seq<CartLine>)
  {
    if cart == [] then [CartLine(id, q)]
    else if cart[0].medId == id then [CartLine(id, q)] + cart[1..]
    else [cart[0]] + Assign(cart[1..], id, q)
  }

  /** An assignment keeps the ids distinct, keeps the dictionary's key order
      (a new key goes last), sets the entry for `id` and leaves every other entry. */
  lemma {:induction false} AssignSpec(cart: seq<CartLine>, id: Id, q: int)
    requires DistinctIds(cart)
    ensures DistinctIds(Assign(cart, id, q))
    ensures Keys(Assign(cart, id, q)) == if id in Keys(cart) then Keys(cart) else Keys(cart) + [id]
    ensures forall k :: Quantity(Assign(cart, id, q), k) == if k == id then q else Quantity(cart, k)
  {
    var r := Assign(cart, id, q);
    if cart == [] {
    } else if cart[0].medId == id {
      assert r[1..] == cart[1..];
      assert Keys(r) == [id] + Keys(cart[1..]);
      assert id !in Keys(cart[1..]);
    } else {
      assert DistinctIds(cart[1..]);
      AssignSpec(cart[1..], id, q);
      assert r[1..] == Assign(cart[1..], id, q);
      assert Keys(r) == [cart[0].medId] + Keys(Assign(cart[1..], id, q));
      assert cart[0].medId !in Keys(cart[1..]);
      assert id in Keys(cart) <==> id in Keys(cart[1..]);
      assert Keys(cart) == [cart[0].medId] + Keys(cart[1..]);
    }
  }

  /** `cart[id] = cart.get(id, 0) + quantity`. For a dictionary (distinct
      ids) the entry for `medId` grows by `quantity`, an absent entry counting
      as 0, a new id goes last in the dictionary's order and every other
      entry is kept. */
  function AddQuantity(cart: seq<CartLine>, medId: Id, quantity: int): (r: seq<CartLine>)
    ensures DistinctIds(cart) ==> DistinctIds(r)
    ensures DistinctIds(cart) ==> Quantity(r, medId) == Quantity(cart, medId) + quantity
    ensures DistinctIds(cart) ==> forall k :: k != medId ==> Quantity(r, k) == Quantity(cart, k)
    ensures DistinctIds(cart) ==> Keys(r) == if medId in Keys(cart) then Keys(cart) else Keys(cart) + [medId]
  {
    var q := Quantity(cart, medId) + quantity;
    if DistinctIds(cart) then
      AssignSpec(cart, medId, q);
      Assign(cart, medId, q)
    else
      Assign(cart, medId, q)
  }

  /** Two additions of the same medicine add up. */
  lemma AddTwice(cart: seq<CartLine>, medId: Id, a: int, b: int)
    requires DistinctIds(cart)
    ensures Quantity(AddQuantity(AddQuantity(cart, medId, a), medId, b), medId) == Quantity(cart, medId) + a + b
  {
  }

  /** `price * (1 - discount / 100)`. */
  function DiscountedPrice(m: Medicine): real {
    m.price * (1.0 - (m.discount as real) / 100.0)
  }

  /** `discounted_price * qty`. */
  function Subtotal(m: Medicine, quantity: int): real {
    DiscountedPrice(m) * (quantity as real)
  }

  /** `price * qty`, the undiscounted line total of the cart page. */
  function PlainSubtotal(m: Medicine, quantity: int): real {
    m.price * (quantity as real)
  }

  /** One row of the cart and checkout pages. */
  datatype CartItem = CartItem(medId: Id, medicine: Medicine, quantity: int, subtotal: real)

  /** The cart page row of one line (`price * qty`, no discount), if its medicine exists. */
  function PlainItem(line: CartLine, meds: map<Id, Medicine>): seq<CartItem> {
    if line.medId in meds
    then [CartItem(line.medId, meds[line.medId], line.quantity, PlainSubtotal(meds[line.medId], line.quantity))]
    else []
  }

  /** The checkout page row of one line (discounted), if its medicine exists. */
  function DiscountedItem(line: CartLine, meds: map<Id, Medicine>): seq<CartItem> {
    if line.medId in meds
    then [CartItem(line.medId, meds[line.medId], line.quantity, Subtotal(meds[line.medId], line.quantity))]
    else []
  }

  /** The rows of the cart page, in the cart's iteration order. */
  function PlainItems(cart: seq<CartLine>, meds: map<Id, Medicine>): seq<CartItem> {
    if cart == [] then []
    else PlainItems(cart[..|cart| - 1], meds) + PlainItem(cart[|cart| - 1], meds)
  }

  /** The rows of the checkout page and of the cart page in app.py, in the cart's iteration order. */
  function DiscountedItems(cart: seq<CartLine>, meds: map<Id, Medicine>): seq<CartItem> {
    if cart == [] then []
    else DiscountedItems(cart[..|cart| - 1], meds) + DiscountedItem(cart[|cart| - 1], meds)
  }

  function SumSubtotals(items: seq<CartItem>): real {
    if items == [] then 0.0 else SumSubtotals(items[..|items| - 1]) + items[|items| - 1].subtotal
  }

  lemma {:induction false} SumSubtotalsAppend(a: seq<CartItem>, b: seq<CartItem>)
    ensures SumSubtotals(a + b) == SumSubtotals(a) + SumSubtotals(b)
  {
    if b != [] {
      assert (a + b)[..|a + b| - 1] == a + b[..|b| - 1];
      SumSubtotalsAppend(a, b[..|b| - 1]);
    } else {
      assert a + b == a;
    }
  }

  /** Both pages list exactly the cart lines whose medicine exists, each with
      its quantity and the medicine's current record. */
  lemma {:induction false} ItemsAreExistingLines(cart: seq<CartLine>, meds: map<Id, Medicine>)
    ensures forall it :: it in PlainItems(cart, meds) ==>
      it.medId in meds && it.medicine == meds[it.medId] && CartLine(it.medId, it.quantity) in cart
    ensures forall it :: it in DiscountedItems(cart, meds) ==>
      it.medId in meds && it.medicine == meds[it.medId] && CartLine(it.medId, it.quantity) in cart
    ensures forall l :: l in cart && l.medId in meds ==>
      PlainItem(l, meds)[0] in PlainItems(cart, meds) && DiscountedItem(l, meds)[0] in DiscountedItems(cart, meds)
  {
    if cart != [] {
      var init := cart[..|cart| - 1];
      var last := cart[|cart| - 1];
      ItemsAreExistingLines(init, meds);
      assert cart == init + [last];
      assert PlainItems(cart, meds) == PlainItems(init, meds) + PlainItem(last, meds);
      assert DiscountedItems(cart, meds) == DiscountedItems(init, meds) + DiscountedItem(last, meds);
    }
  }

  /** At most the plain price, for a discount between 0 and 100 percent. */
  lemma LineDiscountBound(m: Medicine, quantity: int)
    requires 0 <= m.discount <= 100 && m.price >= 0.0 && quantity >= 0
    ensures Subtotal(m, quantity) <= PlainSubtotal(m, quantity)
  {
    var f := 1.0 - (m.discount as real) / 100.0;
    var a := m.price * (quantity as real);
    assert 0.0 <= f <= 1.0;
    assert a >= 0.0;
    assert Subtotal(m, quantity) == a * f;
    assert a * f <= a * 1.0;
  }

  /** With discounts between 0 and 100 percent, non-negative prices and
      quantities, the discounted total never exceeds the plain total. */
  lemma {:induction false} DiscountNeverRaisesTotal(cart: seq<CartLine>, meds: map<Id, Medicine>)
    requires forall id :: id in meds ==> 0 <= meds[id].discount <= 100 && meds[id].price >= 0.0
    requires forall l :: l in cart ==> l.quantity >= 0
    ensures SumSubtotals(DiscountedItems(cart, meds)) <= SumSubtotals(PlainItems(cart, meds))
  {
    if cart != [] {
      var init := cart[..|cart| - 1];
      var line := cart[|cart| - 1];
      assert forall l :: l in init ==> l in cart;
      DiscountNeverRaisesTotal(init, meds);
      SumSubtotalsAppend(DiscountedItems(init, meds), DiscountedItem(line, meds));
      SumSubtotalsAppend(PlainItems(init, meds), PlainItem(line, meds));
      if line.medId in meds {
        LineDiscountBound(meds[line.medId], line.quantity);
        assert SumSubtotals(DiscountedItem(line, meds)) == Subtotal(meds[line.medId], line.quantity);
        assert SumSubtotals(PlainItem(line, meds)) == PlainSubtotal(meds[line.medId], line.quantity);
      }
    }
  }

  /** A medicine priced 100 with a 20 percent discount, three times, costs 240. */
  lemma ExampleSubtotal(m: Medicine)
    requires m.price == 100.0 && m.discount == 20
    ensures Subtotal(m, 3) == 240.0
  {
  }
}
