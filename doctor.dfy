/** The doctor's side: the dashboard with its status counts and filters, and
    the first review of an uploaded prescription. */
module DoctorRoutes {
  import opened Models
  import opened Strings
  import opened Database
  import Queries
  import AdminRoutes

  // ----- dashboard -----

  function HasStatus(ps: map<Id, Prescription>, status: string): nat -> bool {
    id => id in ps && ps[id].status == status
  }

  /** `len([p for p in all_prescriptions if p.status == status])`. */
  function StatusCount(ps: map<Id, Prescription>, bound: Id, status: string): (n: nat)
    ensures n == |Queries.Select(Queries.IdsAscending(ps.Keys, bound), HasStatus(ps, status))|
  {
    Queries.Count(Queries.IdsAscending(ps.Keys, bound), HasStatus(ps, status))
  }

  /** Counting by three different statuses counts each prescription at most
      once, and a Doctor Approved one is counted under none of them. */
  lemma CountsWithinTotal(ps: map<Id, Prescription>, bound: Id)
    ensures StatusCount(ps, bound, Pending) + StatusCount(ps, bound, Approved) + StatusCount(ps, bound, Rejected)
            <= |Queries.IdsAscending(ps.Keys, bound)|
    ensures forall id :: id in Queries.Select(Queries.IdsAscending(ps.Keys, bound), HasStatus(ps, Pending)) ==>
              id in ps && ps[id].status != DoctorApproved
    ensures forall id :: id in Queries.Select(Queries.IdsAscending(ps.Keys, bound), HasStatus(ps, Approved)) ==>
              id in ps && ps[id].status != DoctorApproved
    ensures forall id :: id in Queries.Select(Queries.IdsAscending(ps.Keys, bound), HasStatus(ps, Rejected)) ==>
              id in ps && ps[id].status != DoctorApproved
  {
    Queries.CountDisjoint(Queries.IdsAscending(ps.Keys, bound),
                          HasStatus(ps, Pending), HasStatus(ps, Approved), HasStatus(ps, Rejected));
  }

  /** The calendar day of a UTC timestamp in seconds (`submitted_at.date()`). */
  function DayOf(t: Time): int {
    t / DaySeconds
  }

  /** `search.lower() in p.user.email.lower()`. */
  function EmailMatches(ps: map<Id, Prescription>, users: map<Id, User>, search: string): nat -> bool {
    id => id in ps && ps[id].userId in users && ContainsIgnoringCase(users[ps[id].userId].email, search)
  }

  function SubmittedOn(ps: map<Id, Prescription>, day: int): nat -> bool {
    id => id in ps && DayOf(ps[id].submittedAt) == day
  }

  /** The dashboard's filtered list: the filters applied one after the other,
      each only when given; the status "all" and an empty search or date
      (`day` is None) mean no filter. */
  function DashboardList(ps: map<Id, Prescription>, users: map<Id, User>, bound: Id,
                         search: string, status: string, day: Option<int>): seq<Id>
  {
    var all := Queries.IdsAscending(ps.Keys, bound);
    var bySearch := if search != [] then Queries.Select(all, EmailMatches(ps, users, search)) else all;
    var byStatus := if status != "all" then Queries.Select(bySearch, HasStatus(ps, status)) else bySearch;
    if day.Some? then Queries.Select(byStatus, SubmittedOn(ps, day.value)) else byStatus
  }

  /** One prescription's verdict under all three filters. */
  predicate DashboardMatches(p: Prescription, users: map<Id, User>, search: string, status: string, day: Option<int>) {
    && (search == [] || (p.userId in users && ContainsIgnoringCase(users[p.userId].email, search)))
    && (status == "all" || p.status == status)
    && (day.None? || DayOf(p.submittedAt) == day.value)
  }

  /** The filtered list holds exactly the prescriptions every given filter
      accepts, in key order. */
  lemma DashboardListSpec(ps: map<Id, Prescription>, users: map<Id, User>, bound: Id,
                          search: string, status: string, day: Option<int>)
    ensures Queries.StrictlyAscending(DashboardList(ps, users, bound, search, status, day))
    ensures forall id :: id in DashboardList(ps, users, bound, search, status, day) <==>
                           id in ps && id < bound && DashboardMatches(ps[id], users, search, status, day)
  {
    var all := Queries.IdsAscending(ps.Keys, bound);
    var bySearch := if search != [] then Queries.Select(all, EmailMatches(ps, users, search)) else all;
    var byStatus := if status != "all" then Queries.Select(bySearch, HasStatus(ps, status)) else bySearch;
    if search != [] {
      Queries.SelectAscending(all, EmailMatches(ps, users, search));
    }
    if status != "all" {
      Queries.SelectAscending(bySearch, HasStatus(ps, status));
    }
    if day.Some? {
      Queries.SelectAscending(byStatus, SubmittedOn(ps, day.value));
    }
  }

  /** Without filters the dashboard lists every prescription. */
  lemma DashboardUnfiltered(ps: map<Id, Prescription>, users: map<Id, User>, bound: Id)
    ensures DashboardList(ps, users, bound, [], "all", None) == Queries.IdsAscending(ps.Keys, bound)
  {
  }

  /** What the dashboard shows; None for a user who is not a doctor. */
  datatype DashboardView = DashboardView(prescriptions: seq<Id>, pending: nat, approved: nat, rejected: nat)

  function DoctorDashboard(users: map<Id, User>, ps: map<Id, Prescription>, bound: Id, actor: Id,
                           search: string, status: string, day: Option<int>): (v: Option<DashboardView>)
    requires actor in users
    ensures v.Some? <==> users[actor].isDoctor
    ensures v.Some? ==> v.value.pending + v.value.approved + v.value.rejected <= |Queries.IdsAscending(ps.Keys, bound)|
  {
    CountsWithinTotal(ps, bound);
    if !users[actor].isDoctor then None
    else Some(DashboardView(DashboardList(ps, users, bound, search, status, day),
                            StatusCount(ps, bound, Pending), StatusCount(ps, bound, Approved),
                            StatusCount(ps, bound, Rejected)))
  }

  // ----- first review -----

  /** `doctor_approve`: Doctor Approved, the reviewing doctor, the time and the
      form's notes ('' when absent); nothing else changes. */
  function DoctorApproval(p: Prescription, doctor: Id, notes: Option<string>, now: Time): (r: Prescription)
    ensures r.status == DoctorApproved && r.doctorId == Some(doctor) && r.reviewedAt == Some(now)
    ensures r.doctorNotes == Some(notes.GetOr([]))
    ensures r.(status := p.status, doctorId := p.doctorId, reviewedAt := p.reviewedAt, doctorNotes := p.doctorNotes) == p
  {
    p.(status := DoctorApproved, doctorId := Some(doctor), reviewedAt := Some(now), doctorNotes := Some(notes.GetOr([])))
  }

  /** `doctor_reject`: Rejected, the reviewing doctor, the time and the form's
      notes as the rejection reason; nothing else changes. */
  function DoctorRejection(p: Prescription, doctor: Id, notes: Option<string>, now: Time): (r: Prescription)
    ensures r.status == Rejected && r.doctorId == Some(doctor) && r.reviewedAt == Some(now)
    ensures r.rejectionReason == Some(notes.GetOr([]))
    ensures r.(status := p.status, doctorId := p.doctorId, reviewedAt := p.reviewedAt, rejectionReason := p.rejectionReason) == p
  {
    p.(status := Rejected, doctorId := Some(doctor), reviewedAt := Some(now), rejectionReason := Some(notes.GetOr([])))
  }

  /** `doctor_approve`. A user who is not a doctor or an unknown id changes
      nothing. The prescription's current status is not checked. */
  method DoctorApprove(db: Db, actor: Id, prescriptionId: Id, notes: Option<string>, now: Time)
    requires db.Valid() && actor in db.users
    modifies db
    ensures db.Valid() && db.OnlyPrescriptionsChanged()
    ensures db.prescriptions ==
              if old(db.users)[actor].isDoctor && prescriptionId in old(db.prescriptions)
              then old(db.prescriptions)[prescriptionId := DoctorApproval(old(db.prescriptions)[prescriptionId], actor, notes, now)]
              else old(db.prescriptions)
  {
    if !db.users[actor].isDoctor || prescriptionId !in db.prescriptions {
      return;
    }
    var p := DoctorApproval(db.prescriptions[prescriptionId], actor, notes, now);
    db.prescriptions := db.prescriptions[prescriptionId := p];
  }

  /** `doctor_reject`; the rejection e-mail is best effort. */
  method DoctorReject(db: Db, actor: Id, prescriptionId: Id, notes: Option<string>, now: Time)
    requires db.Valid() && actor in db.users
    modifies db
    ensures db.Valid() && db.OnlyPrescriptionsChanged()
    ensures db.prescriptions ==
              if old(db.users)[actor].isDoctor && prescriptionId in old(db.prescriptions)
              then old(db.prescriptions)[prescriptionId := DoctorRejection(old(db.prescriptions)[prescriptionId], actor, notes, now)]
              else old(db.prescriptions)
  {
    if !db.users[actor].isDoctor || prescriptionId !in db.prescriptions {
      return;
    }
    var p := DoctorRejection(db.prescriptions[prescriptionId], actor, notes, now);
    db.prescriptions := db.prescriptions[prescriptionId := p];
  }

  // ----- the review workflow -----

  /** A doctor's approval puts the prescription in the admin's queue, and no
      other prescription enters or leaves it. */
  lemma ApprovalQueuesForAdmin(ps: map<Id, Prescription>, bound: Id, id: Id, doctor: Id, notes: Option<string>, now: Time)
    requires id in ps && id < bound
    ensures var after := ps[id := DoctorApproval(ps[id], doctor, notes, now)];
            id in AdminRoutes.AdminQueue(after, bound)
            && forall k :: k != id ==> (k in AdminRoutes.AdminQueue(after, bound) <==> k in AdminRoutes.AdminQueue(ps, bound))
  {
  }

  /** A doctor's rejection keeps the prescription out of the admin's queue. */
  lemma RejectionSkipsAdmin(ps: map<Id, Prescription>, bound: Id, id: Id, doctor: Id, notes: Option<string>, now: Time)
    requires id in ps
    ensures id !in AdminRoutes.AdminQueue(ps[id := DoctorRejection(ps[id], doctor, notes, now)], bound)
  {
  }

  /** The admin's approve or reject takes the prescription out of the queue
      for good: it is then Approved or Rejected. */
  lemma AdminVerdictLeavesQueue(ps: map<Id, Prescription>, bound: Id, id: Id, action: string, admin: Id, now: Time)
    requires id in ps && (action == "approve" || action == "reject")
    ensures id !in AdminRoutes.AdminQueue(ps[id := AdminRoutes.AdminVerdict(ps[id], Some(action), admin, now)], bound)
  {
  }

  /** Doctor approval then admin approval counts the prescription as Approved
      on the doctor's dashboard; doctor approval alone does not. */
  lemma TwoStepApprovalCounts(ps: map<Id, Prescription>, id: Id, doctor: Id, admin: Id, notes: Option<string>, now: Time)
    requires id in ps
    ensures var first := ps[id := DoctorApproval(ps[id], doctor, notes, now)];
            && !HasStatus(first, Approved)(id)
            && HasStatus(first[id := AdminRoutes.AdminVerdict(first[id], Some("approve"), admin, now)], Approved)(id)
  {
  }
}
