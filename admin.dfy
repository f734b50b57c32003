/** The administrator's handlers: order status and delivery confirmation,
    prescription review and delivery confirmation, the prescription queues and
    the medicine delete guards. Every handler first checks that the acting user
    is an administrator and otherwise changes nothing. */
module AdminRoutes {
  import opened Models
  import opened Strings
  import opened Database
  import Otp
  import Queries

  /** A delivery OTP is valid for 24 hours from its issue. */
  const DeliveryOtpLifetime: int := 24 * HourSeconds

  /** `new_status.lower() == 'delivered'`. */
  predicate IsDeliveredRequest(status: string) {
    Lower(status) == "delivered"
  }

  /** The comparison ignores ASCII case ... */
  lemma DeliveredIgnoresCase()
    ensures IsDeliveredRequest("Delivered") && IsDeliveredRequest("DELIVERED")
  {
    var mixed, upper, lower := "Delivered", "DELIVERED", "delivered";
    forall i | 0 <= i < 9 ensures LowerChar(mixed[i]) == lower[i] && LowerChar(upper[i]) == lower[i] {
      if i == 0 {} else if i == 1 {} else if i == 2 {} else if i == 3 {} else if i == 4 {}
      else if i == 5 {} else if i == 6 {} else if i == 7 {} else {}
    }
    LowerIs(mixed, lower);
    LowerIs(upper, lower);
  }

  /** ... but nothing else: a trailing space, or the prescription's waiting
      status, is not a request to deliver. */
  lemma NotDeliveredRequests()
    ensures !IsDeliveredRequest("Delivered ") && !IsDeliveredRequest(AwaitingOtpVerification)
  {
    assert |Lower("Delivered ")| == 10;
    assert |Lower(AwaitingOtpVerification)| == 25;
  }

  /** The OTP e-mail was attempted and raised: a user with a non-empty address
      exists and the send failed. The request then ends before its commit. */
  predicate OtpMailFails(users: map<Id, User>, userId: Id, mailSent: bool) {
    userId in users && users[userId].email != [] && !mailSent
  }

  // ----- Delivery OTP check, shared by orders and prescriptions -----

  /** The outcome of a delivery OTP check, in the order the checks are made. */
  datatype OtpCheck = NoOtp | Expired | WrongCode | Confirmed

  /** `not delivery_otp or not delivery_otp_expiry`: no code, an empty code, or no expiry. */
  predicate OtpMissing(code: Option<string>, expiry: Option<Time>) {
    code.None? || code.value == [] || expiry.None?
  }

  /** A check confirms exactly when a code and expiry are stored, the clock has
      not passed the expiry (the expiry instant itself is accepted) and the
      submitted code equals the stored one. */
  function CheckDeliveryOtp(code: Option<string>, expiry: Option<Time>, input: Option<string>, now: Time): (r: OtpCheck)
    ensures r == NoOtp <==> OtpMissing(code, expiry)
    ensures r == Expired <==> !OtpMissing(code, expiry) && now > expiry.value
    ensures r == Confirmed <==> !OtpMissing(code, expiry) && now <= expiry.value && input == code
  {
    if OtpMissing(code, expiry) then NoOtp
    else if now > expiry.value then Expired
    else if input == code then Confirmed
    else WrongCode
  }

  /** An issued code confirms when submitted up to and including the expiry
      instant, and nothing else confirms it. */
  lemma IssuedCodeConfirms(code: string, issuedAt: Time, input: Option<string>, now: Time)
    requires code != []
    ensures CheckDeliveryOtp(Some(code), Some(issuedAt + DeliveryOtpLifetime), input, now) == Confirmed
            <==> input == Some(code) && now <= issuedAt + DeliveryOtpLifetime
    ensures now > issuedAt + DeliveryOtpLifetime
            ==> CheckDeliveryOtp(Some(code), Some(issuedAt + DeliveryOtpLifetime), input, now) == Expired
  {
  }

  /** 25 hours after issue the right code is refused as expired; at exactly
      24 hours it is still accepted. */
  lemma ExpiryExamples(code: string, t: Time)
    requires code != []
    ensures CheckDeliveryOtp(Some(code), Some(t + DeliveryOtpLifetime), Some(code), t + 25 * HourSeconds) == Expired
    ensures CheckDeliveryOtp(Some(code), Some(t + DeliveryOtpLifetime), Some(code), t + 24 * HourSeconds) == Confirmed
  {
  }

  // ----- Orders -----

  function CheckOrderOtp(o: Order, input: Option<string>, now: Time): OtpCheck {
    CheckDeliveryOtp(o.deliveryOtp, o.deliveryOtpExpiry, input, now)
  }

  /** Issuing a delivery OTP for an order writes the code and an expiry 24 hours
      on and leaves the status and every other field as they were. */
  function IssueOrderOtp(o: Order, code: string, now: Time): (r: Order)
    ensures r.deliveryOtp == Some(code) && r.deliveryOtpExpiry == Some(now + DeliveryOtpLifetime)
    ensures r.status == o.status
    ensures r.(deliveryOtp := o.deliveryOtp, deliveryOtpExpiry := o.deliveryOtpExpiry) == o
  {
    o.(deliveryOtp := Some(code), deliveryOtpExpiry := Some(now + DeliveryOtpLifetime))
  }

  /** A confirmed delivery: status Delivered, both OTP fields cleared, nothing else changed. */
  function ConfirmOrderDelivery(o: Order): (r: Order)
    ensures r.status == Delivered && r.deliveryOtp.None? && r.deliveryOtpExpiry.None?
    ensures r.(status := o.status, deliveryOtp := o.deliveryOtp, deliveryOtpExpiry := o.deliveryOtpExpiry) == o
  {
    o.(status := Delivered, deliveryOtp := None, deliveryOtpExpiry := None)
  }

  /** The code just issued confirms the order at any time up to its expiry, and
      then the order is Delivered. */
  lemma {:induction false} OrderIssueThenConfirm(o: Order, draw: int, issuedAt: Time, now: Time)
    requires Otp.OtpMin <= draw <= Otp.OtpMax && now <= issuedAt + DeliveryOtpLifetime
    ensures var code := Otp.GenerateOtp(draw);
            CheckOrderOtp(IssueOrderOtp(o, code, issuedAt), Some(code), now) == Confirmed
            && ConfirmOrderDelivery(IssueOrderOtp(o, code, issuedAt)).status == Delivered
  {
    var code := Otp.GenerateOtp(draw);
    IssuedCodeConfirms(code, issuedAt, Some(code), now);
  }

  /** After a confirmation the same code (or any other) finds no OTP. */
  lemma OrderReplayFails(o: Order, input: Option<string>, now: Time)
    ensures CheckOrderOtp(ConfirmOrderDelivery(o), input, now) == NoOtp
  {
  }

  /** `update_order_status`: any status other than a spelling of "delivered"
      is written verbatim; "delivered" issues an OTP and keeps the status. A
      missing status (`request.args.get` gave None, so `.lower()` raises), an
      unknown order, a non-administrator, or a failed OTP e-mail change nothing. */
  method UpdateOrderStatus(db: Db, actor: Id, orderId: Id, newStatus: Option<string>,
                           draw: int, now: Time, otpMailSent: bool)
    requires db.Valid() && actor in db.users
    requires Otp.OtpMin <= draw <= Otp.OtpMax
    modifies db
    ensures db.Valid() && db.OnlyOrdersChanged()
    ensures !old(db.users)[actor].isAdmin || orderId !in old(db.orders) || newStatus.None?
            ==> db.orders == old(db.orders)
    ensures old(db.users)[actor].isAdmin && orderId in old(db.orders) && newStatus.Some? ==>
              var o := old(db.orders)[orderId];
              db.orders ==
                if !IsDeliveredRequest(newStatus.value) then old(db.orders)[orderId := o.(status := newStatus.value)]
                else if OtpMailFails(old(db.users), o.userId, otpMailSent) then old(db.orders)
                else old(db.orders)[orderId := IssueOrderOtp(o, Otp.GenerateOtp(draw), now)]
  {
    if !db.users[actor].isAdmin || orderId !in db.orders || newStatus.None? {
      return;
    }
    var o := db.orders[orderId];
    var updated: Order;
    if IsDeliveredRequest(newStatus.value) {
      if OtpMailFails(db.users, o.userId, otpMailSent) {
        return;
      }
      updated := IssueOrderOtp(o, Otp.GenerateOtp(draw), now);
    } else {
      updated := o.(status := newStatus.value);
    }
    assert OrderRowOk(updated, db.users, db.medicines);
    db.orders := db.orders[orderId := updated];
  }

  /** `verify_delivery_otp`: None when the handler stops early (not an
      administrator, unknown order), otherwise the check's outcome; only a
      confirmation changes the order. */
  method VerifyDeliveryOtp(db: Db, actor: Id, orderId: Id, input: Option<string>, now: Time)
    returns (outcome: Option<OtpCheck>)
    requires db.Valid() && actor in db.users
    modifies db
    ensures db.Valid() && db.OnlyOrdersChanged()
    ensures outcome == if old(db.users)[actor].isAdmin && orderId in old(db.orders)
                       then Some(CheckOrderOtp(old(db.orders)[orderId], input, now)) else None
    ensures db.orders == if outcome == Some(Confirmed)
                         then old(db.orders)[orderId := ConfirmOrderDelivery(old(db.orders)[orderId])]
                         else old(db.orders)
  {
    if !db.users[actor].isAdmin || orderId !in db.orders {
      return None;
    }
    var o := db.orders[orderId];
    var check := CheckOrderOtp(o, input, now);
    if check == Confirmed {
      db.orders := db.orders[orderId := ConfirmOrderDelivery(o)];
    }
    return Some(check);
  }

  // ----- Prescriptions -----

  function CheckPrescriptionOtp(p: Prescription, input: Option<string>, now: Time): OtpCheck {
    CheckDeliveryOtp(p.deliveryOtp, p.deliveryOtpExpiry, input, now)
  }

  /** The review stamp every admin decision writes: who and when. */
  function ReviewedBy(p: Prescription, admin: Id, now: Time): (r: Prescription)
    ensures r.adminId == Some(admin) && r.reviewedAt == Some(now)
    ensures r.(adminId := p.adminId, reviewedAt := p.reviewedAt) == p
  {
    p.(adminId := Some(admin), reviewedAt := Some(now))
  }

  /** Issuing a prescription delivery OTP: the code, a 24-hour expiry and the
      status Awaiting OTP Verification. */
  function IssuePrescriptionOtp(p: Prescription, code: string, now: Time): (r: Prescription)
    ensures r.status == AwaitingOtpVerification
    ensures r.deliveryOtp == Some(code) && r.deliveryOtpExpiry == Some(now + DeliveryOtpLifetime)
    ensures r.(status := p.status, deliveryOtp := p.deliveryOtp, deliveryOtpExpiry := p.deliveryOtpExpiry) == p
  {
    p.(status := AwaitingOtpVerification, deliveryOtp := Some(code),
       deliveryOtpExpiry := Some(now + DeliveryOtpLifetime))
  }

  function ConfirmPrescriptionDelivery(p: Prescription): (r: Prescription)
    ensures r.status == Delivered && r.deliveryOtp.None? && r.deliveryOtpExpiry.None?
    ensures r.(status := p.status, deliveryOtp := p.deliveryOtp, deliveryOtpExpiry := p.deliveryOtpExpiry) == p
  {
    p.(status := Delivered, deliveryOtp := None, deliveryOtpExpiry := None)
  }

  /** `admin_verify` on one prescription: "approve" and "reject" set the status
      and the review stamp whatever the previous status was; any other action,
      or none, leaves it as it was. */
  function AdminVerdict(p: Prescription, action: Option<string>, admin: Id, now: Time): (r: Prescription)
    ensures action == Some("approve") ==> r.status == Approved && r.adminId == Some(admin) && r.reviewedAt == Some(now)
    ensures action == Some("reject") ==> r.status == Rejected && r.adminId == Some(admin) && r.reviewedAt == Some(now)
    ensures action != Some("approve") && action != Some("reject") ==> r == p
    ensures r.(status := p.status, adminId := p.adminId, reviewedAt := p.reviewedAt) == p
  {
    if action == Some("approve") then ReviewedBy(p.(status := Approved), admin, now)
    else if action == Some("reject") then ReviewedBy(p.(status := Rejected), admin, now)
    else p
  }

  method AdminVerify(db: Db, actor: Id, prescriptionId: Id, action: Option<string>, now: Time)
    requires db.Valid() && actor in db.users
    modifies db
    ensures db.Valid() && db.OnlyPrescriptionsChanged()
    ensures db.prescriptions ==
              if old(db.users)[actor].isAdmin && prescriptionId in old(db.prescriptions)
              then old(db.prescriptions)[prescriptionId := AdminVerdict(old(db.prescriptions)[prescriptionId], action, actor, now)]
              else old(db.prescriptions)
  {
    if !db.users[actor].isAdmin || prescriptionId !in db.prescriptions {
      return;
    }
    var p := AdminVerdict(db.prescriptions[prescriptionId], action, actor, now);
    db.prescriptions := db.prescriptions[prescriptionId := p];
  }

  /** `update_prescription_status`: "delivered" (any case) issues an OTP and
      moves the prescription to Awaiting OTP Verification; any other status is
      written verbatim; both stamp the acting admin and the time. */
  method UpdatePrescriptionStatus(db: Db, actor: Id, prescriptionId: Id, newStatus: Option<string>,
                                  draw: int, now: Time, otpMailSent: bool)
    requires db.Valid() && actor in db.users
    requires Otp.OtpMin <= draw <= Otp.OtpMax
    modifies db
    ensures db.Valid() && db.OnlyPrescriptionsChanged()
    ensures !old(db.users)[actor].isAdmin || prescriptionId !in old(db.prescriptions) || newStatus.None?
            ==> db.prescriptions == old(db.prescriptions)
    ensures old(db.users)[actor].isAdmin && prescriptionId in old(db.prescriptions) && newStatus.Some? ==>
              var p := old(db.prescriptions)[prescriptionId];
              db.prescriptions ==
                if !IsDeliveredRequest(newStatus.value)
                then old(db.prescriptions)[prescriptionId := ReviewedBy(p.(status := newStatus.value), actor, now)]
                else if OtpMailFails(old(db.users), p.userId, otpMailSent) then old(db.prescriptions)
                else old(db.prescriptions)[prescriptionId := ReviewedBy(IssuePrescriptionOtp(p, Otp.GenerateOtp(draw), now), actor, now)]
  {
    if !db.users[actor].isAdmin || prescriptionId !in db.prescriptions || newStatus.None? {
      return;
    }
    var p := db.prescriptions[prescriptionId];
    var updated: Prescription;
    if IsDeliveredRequest(newStatus.value) {
      if OtpMailFails(db.users, p.userId, otpMailSent) {
        return;
      }
      updated := IssuePrescriptionOtp(p, Otp.GenerateOtp(draw), now);
    } else {
      updated := p.(status := newStatus.value);
    }
    updated := ReviewedBy(updated, actor, now);
    assert PrescriptionRowOk(updated, db.users);
    db.prescriptions := db.prescriptions[prescriptionId := updated];
  }

  method VerifyPrescriptionDeliveryOtp(db: Db, actor: Id, prescriptionId: Id, input: Option<string>, now: Time)
    returns (outcome: Option<OtpCheck>)
    requires db.Valid() && actor in db.users
    modifies db
    ensures db.Valid() && db.OnlyPrescriptionsChanged()
    ensures outcome == if old(db.users)[actor].isAdmin && prescriptionId in old(db.prescriptions)
                       then Some(CheckPrescriptionOtp(old(db.prescriptions)[prescriptionId], input, now)) else None
    ensures db.prescriptions ==
              if outcome == Some(Confirmed)
              then old(db.prescriptions)[prescriptionId := ConfirmPrescriptionDelivery(old(db.prescriptions)[prescriptionId])]
              else old(db.prescriptions)
  {
    if !db.users[actor].isAdmin || prescriptionId !in db.prescriptions {
      return None;
    }
    var p := db.prescriptions[prescriptionId];
    var check := CheckPrescriptionOtp(p, input, now);
    if check == Confirmed {
      db.prescriptions := db.prescriptions[prescriptionId := ConfirmPrescriptionDelivery(p)];
    }
    return Some(check);
  }

  /** A prescription marked delivered can be confirmed with the code it was
      sent, up to the expiry; after that it is Delivered and the code is spent. */
  lemma {:induction false} PrescriptionIssueThenConfirm(p: Prescription, admin: Id, draw: int,
                                                        issuedAt: Time, now: Time, later: Time)
    requires Otp.OtpMin <= draw <= Otp.OtpMax && now <= issuedAt + DeliveryOtpLifetime
    ensures var code := Otp.GenerateOtp(draw);
            var awaiting := ReviewedBy(IssuePrescriptionOtp(p, code, issuedAt), admin, issuedAt);
            awaiting.status == AwaitingOtpVerification
            && CheckPrescriptionOtp(awaiting, Some(code), now) == Confirmed
            && ConfirmPrescriptionDelivery(awaiting).status == Delivered
            && CheckPrescriptionOtp(ConfirmPrescriptionDelivery(awaiting), Some(code), later) == NoOtp
  {
    var code := Otp.GenerateOtp(draw);
    IssuedCodeConfirms(code, issuedAt, Some(code), now);
  }

  // ----- Prescription queues -----

  function IsDoctorApproved(ps: map<Id, Prescription>): nat -> bool {
    (id: nat) => id in ps && ps[id].status == DoctorApproved
  }

  /** `admin_prescriptions`: the prescriptions with status Doctor Approved,
      lowest id first. */
  function AdminQueue(ps: map<Id, Prescription>, bound: Id): (r: seq<Id>)
    ensures Queries.StrictlyAscending(r)
    ensures forall id :: id in r <==> id in ps && id < bound && ps[id].status == DoctorApproved
  {
    Queries.SelectAscending(Queries.IdsAscending(ps.Keys, bound), IsDoctorApproved(ps));
    Queries.Select(Queries.IdsAscending(ps.Keys, bound), IsDoctorApproved(ps))
  }

  /** The dashboard's pending list: the five newest Doctor Approved
      prescriptions, newest first; any one left out is older than all five. */
  function DashboardQueue(ps: map<Id, Prescription>, bound: Id): (r: seq<Id>)
    ensures |r| <= 5 && Queries.StrictlyDescending(r)
    ensures forall id :: id in r ==> id in ps && ps[id].status == DoctorApproved
    ensures forall id :: id in ps && id < bound && ps[id].status == DoctorApproved && id !in r ==>
              |r| == 5 && forall j :: 0 <= j < |r| ==> r[j] > id
  {
    var all := Queries.Select(Queries.IdsDescending(ps.Keys, bound), IsDoctorApproved(ps));
    Queries.SelectDescending(Queries.IdsDescending(ps.Keys, bound), IsDoctorApproved(ps));
    var r := Queries.Take(all, 5);
    assert forall j :: 0 <= j < |r| ==> r[j] == all[j];
    forall id | id in ps && id < bound && ps[id].status == DoctorApproved && id !in r
      ensures |r| == 5 && forall j :: 0 <= j < |r| ==> r[j] > id
    {
      assert id in all;
      Queries.TakeLargest(all, 5, id);
    }
    r
  }

  // ----- Medicine delete guards -----

  /** `delete_medicine`: an administrator deletes an existing medicine only
      when no order refers to it. */
  method DeleteMedicine(db: Db, actor: Id, medId: Id) returns (deleted: bool)
    requires db.Valid() && actor in db.users
    modifies db
    ensures db.Valid() && db.OnlyMedicinesChanged()
    ensures deleted <==> old(db.users)[actor].isAdmin && medId in old(db.medicines) && !HasOrders(old(db.orders), medId)
    ensures db.medicines == if deleted then old(db.medicines) - {medId} else old(db.medicines)
  {
    if !db.users[actor].isAdmin || medId !in db.medicines || HasOrders(db.orders, medId) {
      return false;
    }
    db.RemoveMedicine(medId);
    return true;
  }

  /** The medicines left after deleting the selected ids in order: each id
      removes its medicine when that is still there and has no orders. */
  function AfterBulkDelete(meds: map<Id, Medicine>, orders: map<Id, Order>, ids: seq<int>): map<Id, Medicine> {
    if ids == [] then meds
    else DeleteOne(AfterBulkDelete(meds, orders, ids[..|ids| - 1]), orders, ids[|ids| - 1])
  }

  /** One selected id: its medicine goes when it is there and has no orders. */
  function DeleteOne(meds: map<Id, Medicine>, orders: map<Id, Order>, id: int): map<Id, Medicine> {
    if 0 <= id && id in meds && !HasOrders(orders, id) then meds - {id} else meds
  }

  lemma AfterBulkDeleteNext(meds: map<Id, Medicine>, orders: map<Id, Order>, ids: seq<int>, i: nat)
    requires i < |ids|
    ensures AfterBulkDelete(meds, orders, ids[..i + 1]) == DeleteOne(AfterBulkDelete(meds, orders, ids[..i]), orders, ids[i])
  {
    assert ids[..i + 1][..i] == ids[..i];
  }

  /** What a bulk delete promises: exactly the selected medicines without orders
      are removed, whatever the order and repetitions of the selection; no
      medicine that has orders is removed, unselected and unknown ids change
      nothing, and an empty selection changes nothing. */
  lemma {:induction false} BulkDeleteSpec(meds: map<Id, Medicine>, orders: map<Id, Order>, ids: seq<int>)
    ensures forall k :: k in AfterBulkDelete(meds, orders, ids)
              <==> k in meds && (k !in ids || HasOrders(orders, k))
    ensures forall k :: k in AfterBulkDelete(meds, orders, ids) ==> AfterBulkDelete(meds, orders, ids)[k] == meds[k]
    ensures ids == [] ==> AfterBulkDelete(meds, orders, ids) == meds
  {
    if ids != [] {
      var init := ids[..|ids| - 1];
      BulkDeleteSpec(meds, orders, init);
      assert ids == init + [ids[|ids| - 1]];
      assert forall k: int :: k in ids <==> k in init || k == ids[|ids| - 1];
    }
  }

  /** The medicines a bulk delete removes are the selected ones without orders. */
  lemma BulkDeleteRemoves(meds: map<Id, Medicine>, orders: map<Id, Order>, ids: seq<int>)
    ensures meds.Keys - AfterBulkDelete(meds, orders, ids).Keys
            == set k | k in meds && k in ids && !HasOrders(orders, k)
  {
    BulkDeleteSpec(meds, orders, ids);
  }

  lemma RemovedKeysGrow(original: map<Id, Medicine>, current: map<Id, Medicine>, id: Id)
    requires id in current && current.Keys <= original.Keys
    ensures original.Keys - (current - {id}).Keys == (original.Keys - current.Keys) + {id}
    ensures id !in original.Keys - current.Keys
  {
  }

  /** `bulk_delete_medicines`: an administrator's non-empty selection is
      deleted as `AfterBulkDelete` says; the count is the number of medicines
      removed. */
  method BulkDeleteMedicines(db: Db, actor: Id, ids: seq<int>) returns (deletedCount: nat)
    requires db.Valid() && actor in db.users
    modifies db
    ensures db.Valid() && db.OnlyMedicinesChanged()
    ensures db.medicines == if old(db.users)[actor].isAdmin then AfterBulkDelete(old(db.medicines), db.orders, ids)
                            else old(db.medicines)
    ensures deletedCount == |old(db.medicines).Keys - db.medicines.Keys|
  {
    if !db.users[actor].isAdmin || ids == [] {
      return 0;
    }
    deletedCount := DeleteEach(db, ids);
  }

  /** One step of the loop: delete the medicine `id` if it exists and has no orders. */
  method DeleteIfUnused(db: Db, id: int) returns (gone: bool)
    requires db.Valid()
    modifies db
    ensures db.Valid() && db.OnlyMedicinesChanged()
    ensures gone <==> 0 <= id && id in old(db.medicines) && !HasOrders(old(db.orders), id)
    ensures db.medicines == DeleteOne(old(db.medicines), old(db.orders), id)
  {
    gone := 0 <= id && id in db.medicines && !HasOrders(db.orders, id);
    if gone {
      db.RemoveMedicine(id);
    }
  }

  /** The loop of `bulk_delete_medicines`: walks the selection in order,
      deleting each existing medicine that has no orders and counting the
      deletions; a medicine deleted earlier in the selection is not found again. */
  method DeleteEach(db: Db, ids: seq<int>) returns (deletedCount: nat)
    requires db.Valid()
    modifies db
    ensures db.Valid() && db.OnlyMedicinesChanged()
    ensures db.medicines == AfterBulkDelete(old(db.medicines), db.orders, ids)
    ensures deletedCount == |old(db.medicines).Keys - db.medicines.Keys|
  {
    ghost var original, orders := db.medicines, db.orders;
    ghost var removed: set<Id> := {};
    deletedCount := 0;
    var i := 0;
    assert ids[..0] == [];
    while i < |ids|
      invariant 0 <= i <= |ids|
      invariant db.Valid() && db.OnlyMedicinesChanged()
      invariant db.medicines == AfterBulkDelete(original, orders, ids[..i])
      invariant db.medicines.Keys <= original.Keys && removed == original.Keys - db.medicines.Keys
      invariant deletedCount == |removed|
    {
      var id := ids[i];
      AfterBulkDeleteNext(original, orders, ids, i);
      if 0 <= id && id in db.medicines {
        RemovedKeysGrow(original, db.medicines, id);
      }
      var gone := DeleteIfUnused(db, id);
      if gone {
        removed := removed + {id};
        deletedCount := deletedCount + 1;
      }
      i := i + 1;
    }
    assert ids[..i] == ids;
  }
}
