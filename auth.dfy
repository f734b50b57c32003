/** Account flows: registration with an e-mailed one-time code, its
    verification, and password reset (in two steps in routes/auth.py, in one
    step in app.py). Registration, verification and the reset request behave
    the same in both files. */
module AccountRoutes {
  import opened Models
  import opened Database
  import Otp

  /** `timedelta(minutes=10)`. */
  const AccountOtpLifetime: int := 10 * MinuteSeconds

  /** `user.otp == otp_input and user.otp_expiry > now`: the expiry instant
      itself is already too late. */
  predicate OtpAccepted(u: User, input: string, now: Time) {
    u.otp == Some(input) && u.otpExpiry.Some? && u.otpExpiry.value > now
  }

  /** A fresh code valid for ten minutes, replacing any earlier one. */
  function WithAccountOtp(u: User, code: string, now: Time): (r: User)
    ensures r.otp == Some(code) && r.otpExpiry == Some(now + AccountOtpLifetime)
    ensures r.(otp := u.otp, otpExpiry := u.otpExpiry) == u
  {
    u.(otp := Some(code), otpExpiry := Some(now + AccountOtpLifetime))
  }

  /** Both OTP columns set to NULL. */
  function ClearAccountOtp(u: User): (r: User)
    ensures r.otp.None? && r.otpExpiry.None?
    ensures r.(otp := u.otp, otpExpiry := u.otpExpiry) == u
  {
    u.(otp := None, otpExpiry := None)
  }

  /** A successful registration check: verified, code consumed. */
  function Verified(u: User): (r: User)
    ensures r.isVerified && r.otp.None? && r.otpExpiry.None?
    ensures r.(isVerified := u.isVerified, otp := u.otp, otpExpiry := u.otpExpiry) == u
  {
    ClearAccountOtp(u).(isVerified := true)
  }

  /** A password reset: the new hash, code consumed. */
  function WithPassword(u: User, passwordHash: string): (r: User)
    ensures r.passwordHash == passwordHash && r.otp.None? && r.otpExpiry.None?
    ensures r.(passwordHash := u.passwordHash, otp := u.otp, otpExpiry := u.otpExpiry) == u
  {
    ClearAccountOtp(u).(passwordHash := passwordHash)
  }

  /** The row `register` creates. */
  function Registrant(email: string, phone: string, passwordHash: string, draw: int, now: Time): (u: User)
    requires Otp.OtpMin <= draw <= Otp.OtpMax
    ensures !u.isVerified && !u.isAdmin && !u.isDoctor
    ensures u.email == email && u.phone == phone && u.passwordHash == passwordHash
    ensures u.otp == Some(Otp.GenerateOtp(draw)) && Otp.IsOtpCode(u.otp.value)
    ensures u.otpExpiry == Some(now + AccountOtpLifetime)
    ensures UserRowOk(u)
  {
    WithAccountOtp(NewUser(email, phone, passwordHash, now), Otp.GenerateOtp(draw), now)
  }

  /** An issued code is accepted exactly before its expiry, a different input
      never is, and once consumed it is accepted no more. */
  lemma AccountOtpWindow(u: User, code: string, input: string, issued: Time, now: Time)
    ensures OtpAccepted(WithAccountOtp(u, code, issued), code, now) <==> now < issued + AccountOtpLifetime
    ensures input != code ==> !OtpAccepted(WithAccountOtp(u, code, issued), input, now)
    ensures !OtpAccepted(ClearAccountOtp(u), input, now)
  {
  }

  /** A code entered 9 minutes 59 seconds after issue is accepted; at 10 minutes it is not. */
  lemma AccountOtpExamples(u: User, code: string, issued: Time)
    ensures OtpAccepted(WithAccountOtp(u, code, issued), code, issued + 599)
    ensures !OtpAccepted(WithAccountOtp(u, code, issued), code, issued + 600)
  {
  }

  /** What `register` reports. */
  datatype Registration = EmailInUse | PhoneInUse | MailFailed | OtpSent(userId: Id)

  /** `register` (routes/auth.py and app.py): the e-mail address is checked
      before the phone number; a new user is committed unverified with a code,
      and deleted again when the code cannot be mailed. */
  method Register(db: Db, session: Session, email: string, phone: string, passwordHash: string,
                  draw: int, now: Time, mailSent: bool) returns (outcome: Registration)
    requires db.Valid() && Otp.OtpMin <= draw <= Otp.OtpMax
    modifies db, session
    ensures db.Valid()
    ensures outcome == EmailInUse <==> EmailTaken(old(db.users), email)
    ensures outcome == PhoneInUse <==> !EmailTaken(old(db.users), email) && PhoneTaken(old(db.users), phone)
    ensures outcome == MailFailed <==> !EmailTaken(old(db.users), email) && !PhoneTaken(old(db.users), phone) && !mailSent
    ensures !outcome.OtpSent? ==> db.users == old(db.users) && session.pendingUserId == old(session.pendingUserId)
    ensures outcome.OtpSent? ==>
              && outcome.userId == old(db.nextUserId) && outcome.userId !in old(db.users)
              && db.users == old(db.users)[outcome.userId := Registrant(email, phone, passwordHash, draw, now)]
              && session.pendingUserId == Some(outcome.userId)
    ensures db.medicines == old(db.medicines) && db.orders == old(db.orders) && db.prescriptions == old(db.prescriptions)
    ensures session.cart == old(session.cart) && session.resetUserId == old(session.resetUserId)
  {
    if EmailTaken(db.users, email) {
      return EmailInUse;
    }
    if PhoneTaken(db.users, phone) {
      return PhoneInUse;
    }
    var sent := Enrol(db, session, Registrant(email, phone, passwordHash, draw, now), mailSent);
    outcome := if sent.Some? then OtpSent(sent.value) else MailFailed;
  }

  /** The second half of `register`: commit the new user, then delete it
      again when the code cannot be mailed, or else remember it in the
      session. */
  method Enrol(db: Db, session: Session, u: User, mailSent: bool) returns (sent: Option<Id>)
    requires db.Valid() && UserRowOk(u) && !EmailTaken(db.users, u.email) && !PhoneTaken(db.users, u.phone)
    modifies db, session
    ensures db.Valid()
    ensures sent.Some? <==> mailSent
    ensures !mailSent ==> db.users == old(db.users) && session.pendingUserId == old(session.pendingUserId)
    ensures mailSent ==>
              && sent.value == old(db.nextUserId) && sent.value !in old(db.users)
              && db.users == old(db.users)[sent.value := u] && session.pendingUserId == sent
    ensures db.medicines == old(db.medicines) && db.orders == old(db.orders) && db.prescriptions == old(db.prescriptions)
    ensures session.cart == old(session.cart) && session.resetUserId == old(session.resetUserId)
  {
    if !mailSent {
      AddThenDelete(db, u);
      return None;
    }
    var id := db.AddUser(u);
    session.pendingUserId := Some(id);
    return Some(id);
  }

  /** The rollback of `register`: the user committed and deleted again. Only
      the key counter has moved. */
  method AddThenDelete(db: Db, u: User)
    requires db.Valid() && UserRowOk(u) && !EmailTaken(db.users, u.email) && !PhoneTaken(db.users, u.phone)
    modifies db
    ensures db.Valid()
    ensures db.users == old(db.users) && db.nextUserId == old(db.nextUserId) + 1
    ensures db.medicines == old(db.medicines) && db.orders == old(db.orders) && db.prescriptions == old(db.prescriptions)
  {
    assert forall k :: k in db.orders ==> db.orders[k].userId != db.nextUserId;
    assert forall k :: k in db.prescriptions ==> db.prescriptions[k].userId != db.nextUserId;
    assert forall k :: k in db.prescriptions ==>
      db.prescriptions[k].doctorId != Some(db.nextUserId) && db.prescriptions[k].adminId != Some(db.nextUserId);
    ghost var users0 := db.users;
    var id := db.AddUser(u);
    InsertThenRemove(users0, id, u);
    db.RemoveUser(id);
  }

  /** Adding a fresh key and removing it again gives the map back. */
  lemma InsertThenRemove(m: map<Id, User>, k: Id, v: User)
    requires k !in m
    ensures m[k := v] - {k} == m
  {
  }

  /** `verify_otp`: without a registration in progress, for a user that is
      gone, or on a wrong or expired code nothing changes; a correct code
      marks the user verified, consumes the code and ends the registration. */
  method VerifyOtp(db: Db, session: Session, input: string, now: Time) returns (verified: bool)
    requires db.Valid()
    modifies db, session
    ensures db.Valid() && db.SameCounters()
    ensures verified <==> old(session.pendingUserId).Some? && old(session.pendingUserId).value in old(db.users)
                          && OtpAccepted(old(db.users)[old(session.pendingUserId).value], input, now)
    ensures !verified ==> db.users == old(db.users) && session.pendingUserId == old(session.pendingUserId)
    ensures verified ==>
              var id := old(session.pendingUserId).value;
              db.users == old(db.users)[id := Verified(old(db.users)[id])] && session.pendingUserId.None?
    ensures db.medicines == old(db.medicines) && db.orders == old(db.orders) && db.prescriptions == old(db.prescriptions)
    ensures session.cart == old(session.cart) && session.resetUserId == old(session.resetUserId)
  {
    if session.pendingUserId.None? || session.pendingUserId.value !in db.users {
      return false;
    }
    var id := session.pendingUserId.value;
    var user := db.users[id];
    if !OtpAccepted(user, input, now) {
      return false;
    }
    db.PutUser(id, Verified(user));
    session.pendingUserId := None;
    return true;
  }

  /** `forgot_password`: an unknown address changes nothing; otherwise the
      user's code and expiry are replaced and committed before the mail is
      sent, and only a sent mail starts the reset in the session. */
  method ForgotPassword(db: Db, session: Session, email: string, draw: int, now: Time, mailSent: bool)
    returns (sent: bool)
    requires db.Valid() && Otp.OtpMin <= draw <= Otp.OtpMax
    modifies db, session
    ensures db.Valid() && db.SameCounters()
    ensures sent <==> EmailTaken(old(db.users), email) && mailSent
    ensures !EmailTaken(old(db.users), email) ==>
              db.users == old(db.users) && session.resetUserId == old(session.resetUserId)
    ensures forall id :: id in old(db.users) && old(db.users)[id].email == email ==>
              && db.users == old(db.users)[id := WithAccountOtp(old(db.users)[id], Otp.GenerateOtp(draw), now)]
              && session.resetUserId == (if mailSent then Some(id) else old(session.resetUserId))
    ensures db.medicines == old(db.medicines) && db.orders == old(db.orders) && db.prescriptions == old(db.prescriptions)
    ensures session.cart == old(session.cart) && session.pendingUserId == old(session.pendingUserId)
  {
    if !EmailTaken(db.users, email) {
      return false;
    }
    var id :| id in db.users && db.users[id].email == email;
    var code := Otp.GenerateOtp(draw);
    db.PutUser(id, WithAccountOtp(db.users[id], code, now));
    if !mailSent {
      return false;
    }
    session.resetUserId := Some(id);
    return true;
  }

  /** `verify_reset_otp` (routes/auth.py): a correct code is consumed and the
      password is left alone; the reset stays in progress. */
  method VerifyResetOtp(db: Db, session: Session, input: string, now: Time) returns (verified: bool)
    requires db.Valid()
    modifies db
    ensures db.Valid() && db.SameCounters()
    ensures verified <==> session.resetUserId.Some? && session.resetUserId.value in old(db.users)
                          && OtpAccepted(old(db.users)[session.resetUserId.value], input, now)
    ensures !verified ==> db.users == old(db.users)
    ensures verified ==>
              var id := session.resetUserId.value;
              db.users == old(db.users)[id := ClearAccountOtp(old(db.users)[id])]
    ensures db.medicines == old(db.medicines) && db.orders == old(db.orders) && db.prescriptions == old(db.prescriptions)
  {
    if session.resetUserId.None? || session.resetUserId.value !in db.users {
      return false;
    }
    var id := session.resetUserId.value;
    var user := db.users[id];
    if !OtpAccepted(user, input, now) {
      return false;
    }
    db.PutUser(id, ClearAccountOtp(user));
    return true;
  }

  /** `reset_password` (routes/auth.py): with a reset in progress for an
      existing user the new password is set, the code cleared and the reset
      ended. Whether the code was ever verified is not checked. */
  method ResetPassword(db: Db, session: Session, passwordHash: string) returns (reset: bool)
    requires db.Valid()
    modifies db, session
    ensures db.Valid() && db.SameCounters()
    ensures reset <==> old(session.resetUserId).Some? && old(session.resetUserId).value in old(db.users)
    ensures !reset ==> db.users == old(db.users) && session.resetUserId == old(session.resetUserId)
    ensures reset ==>
              var id := old(session.resetUserId).value;
              db.users == old(db.users)[id := WithPassword(old(db.users)[id], passwordHash)] && session.resetUserId.None?
    ensures db.medicines == old(db.medicines) && db.orders == old(db.orders) && db.prescriptions == old(db.prescriptions)
    ensures session.cart == old(session.cart) && session.pendingUserId == old(session.pendingUserId)
  {
    if session.resetUserId.None? || session.resetUserId.value !in db.users {
      return false;
    }
    var id := session.resetUserId.value;
    db.PutUser(id, WithPassword(db.users[id], passwordHash));
    session.resetUserId := None;
    return true;
  }

  /** `reset_password_otp` (app.py): the code check and the password change
      in one request; a wrong or expired code changes nothing. */
  method ResetPasswordOtp(db: Db, session: Session, input: string, passwordHash: string, now: Time)
    returns (reset: bool)
    requires db.Valid()
    modifies db, session
    ensures db.Valid() && db.SameCounters()
    ensures reset <==> old(session.resetUserId).Some? && old(session.resetUserId).value in old(db.users)
                       && OtpAccepted(old(db.users)[old(session.resetUserId).value], input, now)
    ensures !reset ==> db.users == old(db.users) && session.resetUserId == old(session.resetUserId)
    ensures reset ==>
              var id := old(session.resetUserId).value;
              db.users == old(db.users)[id := WithPassword(old(db.users)[id], passwordHash)] && session.resetUserId.None?
    ensures db.medicines == old(db.medicines) && db.orders == old(db.orders) && db.prescriptions == old(db.prescriptions)
    ensures session.cart == old(session.cart) && session.pendingUserId == old(session.pendingUserId)
  {
    if session.resetUserId.None? || session.resetUserId.value !in db.users {
      return false;
    }
    var id := session.resetUserId.value;
    var user := db.users[id];
    if !OtpAccepted(user, input, now) {
      return false;
    }
    db.PutUser(id, WithPassword(user, passwordHash));
    session.resetUserId := None;
    return true;
  }

  /** The two-step reset ends where the one-step reset does when the code is
      right: verifying first only clears the code, which the reset clears
      anyway. */
  lemma TwoStepResetMatchesOneStep(u: User, passwordHash: string)
    ensures WithPassword(ClearAccountOtp(u), passwordHash) == WithPassword(u, passwordHash)
  {
  }

  /** In routes/auth.py the password can be reset right after the code is
      mailed, without the code ever being entered: the record is then the same
      as for a user who never asked for a code. */
  lemma ResetNeedsNoCode(u: User, code: string, issued: Time, passwordHash: string)
    ensures WithPassword(WithAccountOtp(u, code, issued), passwordHash) == WithPassword(u, passwordHash)
  {
  }

  /** A registration's code is accepted for ten minutes, and verifying it
      leaves a verified user with no code. */
  lemma RegistrationThenVerify(email: string, phone: string, passwordHash: string, draw: int, now: Time, t: Time)
    requires Otp.OtpMin <= draw <= Otp.OtpMax
    ensures OtpAccepted(Registrant(email, phone, passwordHash, draw, now), Otp.GenerateOtp(draw), t)
            <==> t < now + AccountOtpLifetime
    ensures Verified(Registrant(email, phone, passwordHash, draw, now)).isVerified
  {
  }
}
