/** The persistent entities of the pharmacy: one immutable record per table row.
    A table is a map from primary key to record (see module Database). */
module Models {

  datatype Option<T> = None | Some(value: T) {
    function GetOr(default: T): T {
      match this
      case Some(v) => v
      case None => default
    }
  }

  /** Primary keys are the positive integers an autoincrement column hands out. */
  type Id = nat

  /** Timestamps: seconds on the UTC clock. */
  type Time = int

  const MinuteSeconds: int := 60
  const HourSeconds: int := 60 * MinuteSeconds
  const DaySeconds: int := 24 * HourSeconds

  /** Width of the `otp` and `delivery_otp` columns (String(6)). */
  const OtpColumnWidth: nat := 6

  // Status strings written by the workflows.
  const Pending := "Pending"
  const DoctorApproved := "Doctor Approved"
  const Approved := "Approved"
  const Rejected := "Rejected"
  const AwaitingOtpVerification := "Awaiting OTP Verification"
  const Delivered := "Delivered"

  datatype User = User(
    email: string,
    phone: string,
    passwordHash: string,
    isAdmin: bool,
    isDoctor: bool,
    otp: Option<string>,
    otpExpiry: Option<Time>,
    isVerified: bool,
    createdAt: Time)

  datatype Medicine = Medicine(
    medicineName: string,
    name: string,
    kind: string,
    ageGroup: string,
    category: string,
    price: real,
    discount: int,
    stock: int,
    image: Option<string>,
    description: Option<string>)

  datatype Order = Order(
    userId: Id,
    medicineId: Id,
    quantity: int,
    status: string,
    orderedAt: Time,
    address: Option<string>,
    prescription: Option<string>,
    total: Option<real>,
    deliveryOtp: Option<string>,
    deliveryOtpExpiry: Option<Time>)

  /** The persisted cart row; the storefront keeps its cart in the session instead. */
  datatype CartRow = CartRow(userId: Id, medId: Id, quantity: int)

  datatype Prescription = Prescription(
    userId: Id,
    filePath: string,
    status: string,
    doctorId: Option<Id>,
    adminId: Option<Id>,
    submittedAt: Time,
    reviewedAt: Option<Time>,
    rejectionReason: Option<string>,
    disease: Option<string>,
    symptoms: Option<string>,
    prescriptionDetails: Option<string>,
    address: Option<string>,
    doctorNotes: Option<string>,
    medicine: Option<string>,
    dosage: Option<string>,
    deliveryOtp: Option<string>,
    deliveryOtpExpiry: Option<Time>)

  /** A value fits a String(6) column. */
  predicate FitsOtpColumn(code: Option<string>) {
    code.None? || |code.value| <= OtpColumnWidth
  }

  /** An OTP and its expiry are set together or cleared together. */
  predicate OtpPaired<A, B>(code: Option<A>, expiry: Option<B>) {
    code.None? <==> expiry.None?
  }

  /** A user row as created with only its required columns given. */
  function NewUser(email: string, phone: string, passwordHash: string, now: Time): (u: User)
    ensures !u.isAdmin && !u.isDoctor && !u.isVerified
    ensures u.otp.None? && u.otpExpiry.None?
    ensures u.email == email && u.phone == phone && u.passwordHash == passwordHash
    ensures u.createdAt == now
  {
    User(email, phone, passwordHash, false, false, None, None, false, now)
  }

  /** A medicine row created without a discount. */
  function NewMedicine(medicineName: string, name: string, kind: string, ageGroup: string,
                       category: string, price: real, stock: int): (m: Medicine)
    ensures m.discount == 0
    ensures m.image.None? && m.description.None?
    ensures m.price == price && m.stock == stock
  {
    Medicine(medicineName, name, kind, ageGroup, category, price, 0, stock, None, None)
  }

  /** An order row created with only its required columns given. */
  function NewOrder(userId: Id, medicineId: Id, quantity: int, now: Time): (o: Order)
    ensures o.status == Pending
    ensures o.orderedAt == now
    ensures o.deliveryOtp.None? && o.deliveryOtpExpiry.None?
    ensures o.total.None? && o.address.None? && o.prescription.None?
    ensures o.userId == userId && o.medicineId == medicineId && o.quantity == quantity
  {
    Order(userId, medicineId, quantity, Pending, now, None, None, None, None, None)
  }

  /** A cart row created without a quantity. */
  function NewCartRow(userId: Id, medId: Id): (c: CartRow)
    ensures c.quantity == 1
    ensures c.userId == userId && c.medId == medId
  {
    CartRow(userId, medId, 1)
  }

  /** A prescription row created with only its required columns given. */
  function NewPrescription(userId: Id, filePath: string, now: Time): (p: Prescription)
    ensures p.status == Pending
    ensures p.doctorId.None? && p.adminId.None? && p.reviewedAt.None?
    ensures p.deliveryOtp.None? && p.deliveryOtpExpiry.None?
    ensures p.submittedAt == now
    ensures p.userId == userId && p.filePath == filePath
  {
    Prescription(userId, filePath, Pending, None, None, now, None, None,
                 None, None, None, None, None, None, None, None, None)
  }
}
