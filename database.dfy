/** The relational store and the per-browser session the handlers work on.
    Each table is a map from primary key to row; a counter per table stands for
    the autoincrement key. */
module Database {
  import opened Models
  import Cart

  predicate KeysBelow<V>(table: map<Id, V>, bound: Id) {
    forall id :: id in table ==> 1 <= id < bound
  }

  /** The `unique=True` constraints on `User.email` and `User.phone`. */
  predicate UniqueContacts(users: map<Id, User>) {
    forall a, b :: a in users && b in users && a != b ==>
      users[a].email != users[b].email && users[a].phone != users[b].phone
  }

  /** Some user has this e-mail address (`User.query.filter_by(email=...).first()`). */
  predicate EmailTaken(users: map<Id, User>, email: string) {
    exists id :: id in users && users[id].email == email
  }

  predicate PhoneTaken(users: map<Id, User>, phone: string) {
    exists id :: id in users && users[id].phone == phone
  }

  predicate UserRowOk(u: User) {
    OtpPaired(u.otp, u.otpExpiry) && FitsOtpColumn(u.otp)
  }

  /** The foreign keys of an order resolve, and its delivery OTP columns are consistent. */
  predicate OrderRowOk(o: Order, users: map<Id, User>, medicines: map<Id, Medicine>) {
    o.userId in users && o.medicineId in medicines
    && OtpPaired(o.deliveryOtp, o.deliveryOtpExpiry) && FitsOtpColumn(o.deliveryOtp)
  }

  /** The uploader resolves, and so do the reviewing doctor and admin once set. */
  predicate PrescriptionRowOk(p: Prescription, users: map<Id, User>) {
    p.userId in users
    && (p.doctorId.Some? ==> p.doctorId.value in users)
    && (p.adminId.Some? ==> p.adminId.value in users)
    && OtpPaired(p.deliveryOtp, p.deliveryOtpExpiry) && FitsOtpColumn(p.deliveryOtp)
  }

  /** Some order refers to this medicine (`Order.query.filter_by(medicine_id=...).first()`). */
  predicate HasOrders(orders: map<Id, Order>, medId: int) {
    exists id :: id in orders && orders[id].medicineId == medId
  }

  /** Rewriting a user under its own key with the same e-mail and phone keeps
      the contacts unique and the key set the same. */
  lemma ContactsKept(users: map<Id, User>, id: Id, u: User)
    requires UniqueContacts(users) && id in users
    requires u.email == users[id].email && u.phone == users[id].phone
    ensures UniqueContacts(users[id := u]) && users[id := u].Keys == users.Keys
  {
  }

  class Db {
    var users: map<Id, User>
    var medicines: map<Id, Medicine>
    var orders: map<Id, Order>
    var prescriptions: map<Id, Prescription>
    var nextUserId: Id
    var nextMedicineId: Id
    var nextOrderId: Id
    var nextPrescriptionId: Id

    ghost predicate Valid()
      reads this
    {
      && nextUserId >= 1 && nextMedicineId >= 1 && nextOrderId >= 1 && nextPrescriptionId >= 1
      && KeysBelow(users, nextUserId) && KeysBelow(medicines, nextMedicineId)
      && KeysBelow(orders, nextOrderId) && KeysBelow(prescriptions, nextPrescriptionId)
      && UniqueContacts(users)
      && (forall id :: id in users ==> UserRowOk(users[id]))
      && (forall id :: id in orders ==> OrderRowOk(orders[id], users, medicines))
      && (forall id :: id in prescriptions ==> PrescriptionRowOk(prescriptions[id], users))
    }

    /** Frame conditions: only the named table changed in this request. */
    twostate predicate OnlyOrdersChanged()
      reads this
    {
      users == old(users) && medicines == old(medicines) && prescriptions == old(prescriptions)
      && SameCounters()
    }

    twostate predicate OnlyPrescriptionsChanged()
      reads this
    {
      users == old(users) && medicines == old(medicines) && orders == old(orders)
      && SameCounters()
    }

    twostate predicate OnlyMedicinesChanged()
      reads this
    {
      users == old(users) && orders == old(orders) && prescriptions == old(prescriptions)
      && SameCounters()
    }

    twostate predicate SameCounters()
      reads this
    {
      nextUserId == old(nextUserId) && nextMedicineId == old(nextMedicineId)
      && nextOrderId == old(nextOrderId) && nextPrescriptionId == old(nextPrescriptionId)
    }

    /** Deleting a medicine no order refers to keeps every foreign key intact. */
    method RemoveMedicine(id: Id)
      requires Valid() && !HasOrders(orders, id)
      modifies this
      ensures Valid() && OnlyMedicinesChanged()
      ensures medicines == old(medicines) - {id}
    {
      medicines := medicines - {id};
      assert forall oid :: oid in orders ==> orders[oid].medicineId != id;
    }

    /** `db.session.add(order)`: the row gets the next autoincrement key. */
    method AddOrder(o: Order) returns (id: Id)
      requires Valid() && OrderRowOk(o, users, medicines)
      modifies this
      ensures Valid()
      ensures id == old(nextOrderId) && id !in old(orders)
      ensures orders == old(orders)[id := o] && nextOrderId == id + 1
      ensures users == old(users) && medicines == old(medicines) && prescriptions == old(prescriptions)
      ensures nextUserId == old(nextUserId) && nextMedicineId == old(nextMedicineId)
      ensures nextPrescriptionId == old(nextPrescriptionId)
    {
      id := nextOrderId;
      orders := orders[id := o];
      nextOrderId := nextOrderId + 1;
    }

    /** A medicine row rewritten under its own key; orders keep pointing at it. */
    method PutMedicine(id: Id, m: Medicine)
      requires Valid() && id in medicines
      modifies this
      ensures Valid() && OnlyMedicinesChanged()
      ensures medicines == old(medicines)[id := m]
    {
      medicines := medicines[id := m];
      assert medicines.Keys == old(medicines).Keys;
    }

    /** `db.session.add(user)`: the unique constraints admit a user only with
        an e-mail address and a phone number no one has. */
    method AddUser(u: User) returns (id: Id)
      requires Valid() && UserRowOk(u) && !EmailTaken(users, u.email) && !PhoneTaken(users, u.phone)
      modifies this
      ensures Valid()
      ensures id == old(nextUserId) && id !in old(users)
      ensures users == old(users)[id := u] && nextUserId == id + 1
      ensures medicines == old(medicines) && orders == old(orders) && prescriptions == old(prescriptions)
      ensures nextMedicineId == old(nextMedicineId) && nextOrderId == old(nextOrderId)
      ensures nextPrescriptionId == old(nextPrescriptionId)
    {
      id := nextUserId;
      users := users[id := u];
      nextUserId := nextUserId + 1;
    }

    /** `db.session.delete(user)` of a user no order or prescription refers to,
        as uploader, reviewing doctor or reviewing admin. */
    method RemoveUser(id: Id)
      requires Valid()
      requires forall k :: k in orders ==> orders[k].userId != id
      requires forall k :: k in prescriptions ==> prescriptions[k].userId != id
      requires forall k :: k in prescriptions ==> prescriptions[k].doctorId != Some(id) && prescriptions[k].adminId != Some(id)
      modifies this
      ensures Valid() && SameCounters()
      ensures users == old(users) - {id}
      ensures medicines == old(medicines) && orders == old(orders) && prescriptions == old(prescriptions)
    {
      users := users - {id};
    }

    /** A user row rewritten under its own key with its e-mail and phone kept. */
    method PutUser(id: Id, u: User)
      requires Valid() && id in users && UserRowOk(u)
      requires u.email == users[id].email && u.phone == users[id].phone
      modifies this
      ensures Valid() && SameCounters()
      ensures users == old(users)[id := u]
      ensures medicines == old(medicines) && orders == old(orders) && prescriptions == old(prescriptions)
    {
      ContactsKept(users, id, u);
      users := users[id := u];
    }

    constructor ()
      ensures Valid()
      ensures users == map[] && medicines == map[] && orders == map[] && prescriptions == map[]
    {
      users, medicines, orders, prescriptions := map[], map[], map[], map[];
      nextUserId, nextMedicineId, nextOrderId, nextPrescriptionId := 1, 1, 1, 1;
    }
  }

  /** The Flask session: the cart and the ids of a registration or a password
      reset in progress. */
  class Session {
    var cart: seq<Cart.CartLine>
    var pendingUserId: Option<Id>
    var resetUserId: Option<Id>

    ghost predicate Valid()
      reads this
    {
      Cart.DistinctIds(cart)
    }

    constructor ()
      ensures Valid()
      ensures cart == [] && pendingUserId.None? && resetUserId.None?
    {
      cart, pendingUserId, resetUserId := [], None, None;
    }
  }
}
