/** The account rules of the backend's auth service: registration, one-time
    passwords (issue, look up, check, dispatch on their reason), login and the
    password reset that follows an OTP. Hashing, bcrypt comparison and JWT
    signing are parameters; the clock is the `now` parameter (milliseconds)
    and the value `crypto.randomInt` draws is the `otpValue` parameter. */
module AuthService {
  import opened Common
  import opened Store

  const VerifyUser := "verify_user"
  const ResetPass := "reset_pass"
  const RoleUser := "user"

  /** An OTP lives five minutes. */
  const OtpLifetimeMs := 5 * 60 * 1000

  /** `crypto.randomInt(100000, 999999)`: the upper bound is exclusive. */
  const OtpLow := 100000
  const OtpHigh := 999999

  predicate IsOtpValue(v: int) { OtpLow <= v < OtpHigh }

  const EmailTaken := "User with this email already exists"
  const RegisterFallback := "Failed to register user"
  const Registered := "User registered successfully"
  const OtpFieldsRequired := "Email and reason are required"
  const NoSuchUser := "User does not exist."
  const OtpFallback := "Failed to send OTP"
  const NoOtp := "No OTP found for this email."
  const InvalidOtp := "Invalid OTP."
  const InvalidOtpFallback := "Invalid OTP"
  const InvalidReason := "Invalid OTP reason."
  const VerifiedUser := "OTP verification successful. "
  const VerifiedReset := "OTP verification successful. Password reset token generated."
  const InvalidToken := "Invalid or expired token."
  const ResetFallback := "Failed to reset password"
  const ResetDone := "Password reset successful. You can now log in with your new password."
  const NeedsVerification := "Verification needed"
  const InvalidCredentials := "Invalid credentials"
  const LoginFallback := "Failed to login"

  datatype RegisterDto = RegisterDto(
    name: string,
    email: string,
    profilePic: string,
    phone: Option<string>,
    location: Option<string>,
    profilePhoto: Option<string>,
    availability: seq<string>,
    password: string,
    offeredSkills: seq<string>,
    wantedSkills: seq<string>)

  datatype RegisterReply = RegisterReply(message: string, userId: UserId, email: string)

  datatype VerifyReply = VerifyReply(message: string, data: Option<string>)

  /** The body of a successful login: the access token and the public part
      of the user. */
  datatype Session = Session(accessToken: string, id: UserId, name: string, role: string)

  /** The row `register` creates. Its status and visibility are the schema's
      column defaults, which are parameters here. */
  function NewUser(dto: RegisterDto, hashed: string, status: AccountStatus, isPublic: bool): User {
    User(dto.name, dto.email, dto.profilePic, dto.phone, dto.location, dto.profilePhoto,
         dto.availability, Some(hashed), RoleUser, status, isPublic)
  }

  // ------------------------------------------------------------------ register

  /** The tables `register` writes, and the mail it asks for. */
  datatype Registration = Registration(users: seq<User>, skills: seq<string>, offered: set<Link>,
                                       wanted: set<Link>, otps: seq<Otp>, mail: Mail)

  /** What the registration transaction computes from the tables it reads:
      a taken email is refused with 409; otherwise the new user is the last
      row, both skill lists are resolved find-or-create and linked to it
      (duplicate links skipped), a `verify_user` OTP is stored for it, and
      the verification mail is addressed to it. Rows that existed stay. */
  function RegisterOutcome(users: seq<User>, skills: seq<string>, offered: set<Link>, wanted: set<Link>,
                           otps: seq<Otp>, dto: RegisterDto, hashed: string, now: int, otpValue: nat,
                           newStatus: AccountStatus, newIsPublic: bool): (r: Result<Registration, Failure>)
    ensures r.Failure? <==> UserByEmail(users, dto.email).Some?
    ensures r.Failure? ==> r.error == HttpFailure(Conflict, EmailTaken)
    ensures r.Success? ==>
      var uid := |users|;
      && r.value.users == users + [NewUser(dto, hashed, newStatus, newIsPublic)]
      && skills <= r.value.skills
      && (forall k :: 0 <= k < |dto.offeredSkills| ==> dto.offeredSkills[k] in r.value.skills)
      && (forall k :: 0 <= k < |dto.wantedSkills| ==> dto.wantedSkills[k] in r.value.skills)
      && offered <= r.value.offered && wanted <= r.value.wanted
      && (forall l :: l in r.value.offered && l !in offered ==> l.userId == uid && l.skillId < |r.value.skills|)
      && (forall l :: l in r.value.wanted && l !in wanted ==> l.userId == uid && l.skillId < |r.value.skills|)
      && (var (s1, offeredIds) := ResolveSkills(skills, dto.offeredSkills);
          var (s2, wantedIds) := ResolveSkills(s1, dto.wantedSkills);
          && r.value.skills == s2
          && r.value.offered == offered + LinksFor(uid, offeredIds)
          && r.value.wanted == wanted + LinksFor(uid, wantedIds))
      && r.value.otps == otps + [Otp(uid, dto.email, otpValue, VerifyUser, now + OtpLifetimeMs)]
      && r.value.mail == VerifyMail(dto.email, NatToString(otpValue), dto.name)
  {
    if UserByEmail(users, dto.email).Some? then
      Failure(Rethrow(HttpFailure(Conflict, EmailTaken), RegisterFallback, InternalServerError))
    else
      var uid := |users|;
      var (s1, offeredIds) := ResolveSkills(skills, dto.offeredSkills);
      var (s2, wantedIds) := ResolveSkills(s1, dto.wantedSkills);
      ResolveSkillsLinksInRange(skills, dto.offeredSkills, dto.wantedSkills, uid);
      Success(Registration(users + [NewUser(dto, hashed, newStatus, newIsPublic)], s2,
                           offered + LinksFor(uid, offeredIds), wanted + LinksFor(uid, wantedIds),
                           otps + [Otp(uid, dto.email, otpValue, VerifyUser, now + OtpLifetimeMs)],
                           VerifyMail(dto.email, NatToString(otpValue), dto.name)))
  }

  /** Resolving two lists one after the other keeps the first list's names,
      and every link to a resolved id points into the final table. */
  lemma ResolveSkillsLinksInRange(skills: seq<string>, first: seq<string>, second: seq<string>, uid: UserId)
    ensures var (s1, firstIds) := ResolveSkills(skills, first);
      var (s2, secondIds) := ResolveSkills(s1, second);
      && (forall k :: 0 <= k < |first| ==> first[k] in s2)
      && (forall l :: l in LinksFor(uid, firstIds) ==> l.skillId < |s2|)
      && (forall l :: l in LinksFor(uid, secondIds) ==> l.skillId < |s2|)
  {
    var (s1, firstIds) := ResolveSkills(skills, first);
    var (s2, secondIds) := ResolveSkills(s1, second);
    forall k | 0 <= k < |first| ensures first[k] in s2 {
      assert s1[firstIds[k]] == first[k];
      assert s2[firstIds[k]] == first[k];
    }
    forall l | l in LinksFor(uid, firstIds) ensures l.skillId < |s2| {
      var i :| 0 <= i < |firstIds| && firstIds[i] == l.skillId;
    }
    forall l | l in LinksFor(uid, secondIds) ensures l.skillId < |s2| {
      var i :| 0 <= i < |secondIds| && secondIds[i] == l.skillId;
    }
  }

  /** The new member is linked to the skills named by exactly the names of
      each list, when no existing link names the new id. */
  lemma RegisterLinksNameTheLists(users: seq<User>, skills: seq<string>, offered: set<Link>, wanted: set<Link>,
                                  otps: seq<Otp>, dto: RegisterDto, hashed: string, now: int, otpValue: nat,
                                  newStatus: AccountStatus, newIsPublic: bool)
    requires RegisterOutcome(users, skills, offered, wanted, otps, dto, hashed, now, otpValue, newStatus, newIsPublic).Success?
    requires forall l :: l in offered ==> l.userId < |users|
    requires forall l :: l in wanted ==> l.userId < |users|
    ensures var reg := RegisterOutcome(users, skills, offered, wanted, otps, dto, hashed, now, otpValue, newStatus, newIsPublic).value;
      && LinkedNames(reg.offered, reg.skills, |users|) == (set n | n in dto.offeredSkills)
      && LinkedNames(reg.wanted, reg.skills, |users|) == (set n | n in dto.wantedSkills)
  {
    var reg := RegisterOutcome(users, skills, offered, wanted, otps, dto, hashed, now, otpValue, newStatus, newIsPublic).value;
    var (s1, offeredIds) := ResolveSkills(skills, dto.offeredSkills);
    var (s2, wantedIds) := ResolveSkills(s1, dto.wantedSkills);
    assert forall i :: 0 <= i < |offeredIds| ==> offeredIds[i] < |s2| && s2[offeredIds[i]] == dto.offeredSkills[i] by {
      forall i | 0 <= i < |offeredIds| ensures offeredIds[i] < |s2| && s2[offeredIds[i]] == dto.offeredSkills[i] {
        assert s1[offeredIds[i]] == dto.offeredSkills[i];
      }
    }
    NamesOfNewLinks(s2, dto.offeredSkills, offeredIds, offered, |users|);
    NamesOfNewLinks(s2, dto.wantedSkills, wantedIds, wanted, |users|);
  }

  /** The names of the skills a member is linked to. */
  function LinkedNames(links: set<Link>, skills: seq<string>, userId: UserId): set<string> {
    set l | l in links && l.userId == userId && l.skillId < |skills| :: skills[l.skillId]
  }

  /** Linking a member with no links yet to one id per name links it to
      exactly the listed names. */
  lemma NamesOfNewLinks(all: seq<string>, names: seq<string>, ids: seq<SkillId>, links: set<Link>, userId: UserId)
    requires |ids| == |names|
    requires forall i :: 0 <= i < |ids| ==> ids[i] < |all| && all[ids[i]] == names[i]
    requires forall l :: l in links ==> l.userId < userId
    ensures LinkedNames(links + LinksFor(userId, ids), all, userId) == (set n | n in names)
  {
    var linked := LinkedNames(links + LinksFor(userId, ids), all, userId);
    forall n | n in linked ensures n in names {
      var l :| l in links + LinksFor(userId, ids) && l.userId == userId && l.skillId < |all| && all[l.skillId] == n;
      var i :| 0 <= i < |ids| && ids[i] == l.skillId;
    }
    forall n | n in names ensures n in linked {
      var i :| 0 <= i < |names| && names[i] == n;
      assert Link(userId, ids[i]) in links + LinksFor(userId, ids);
    }
  }

  /** Registration in one transaction: every write of the outcome is
      committed together, so a refusal changes no table. */
  method Register(db: Db, dto: RegisterDto, hash: string -> string, now: int, otpValue: nat,
                  newStatus: AccountStatus, newIsPublic: bool)
    returns (r: Result<RegisterReply, Failure>)
    requires db.Valid()
    requires IsOtpValue(otpValue)
    modifies db
    ensures db.Valid()
    ensures var out := RegisterOutcome(old(db.users), old(db.skills), old(db.offered), old(db.wanted), old(db.otps),
                                       dto, hash(dto.password), now, otpValue, newStatus, newIsPublic);
      && (r.Failure? <==> out.Failure?)
      && (r.Failure? ==> r.error == out.error && unchanged(db))
      && (r.Success? ==>
            && r.value == RegisterReply(Registered, |old(db.users)|, dto.email)
            && db.users == out.value.users && db.skills == out.value.skills
            && db.offered == out.value.offered && db.wanted == out.value.wanted
            && db.otps == out.value.otps && db.outbox == old(db.outbox) + [out.value.mail]
            && db.swaps == old(db.swaps) && db.feedback == old(db.feedback))
  {
    var uid := |db.users|;
    var out := RegisterOutcome(db.users, db.skills, db.offered, db.wanted, db.otps,
                               dto, hash(dto.password), now, otpValue, newStatus, newIsPublic);
    if out.Failure? {
      r := Failure(out.error);
      return;
    }
    RegisterKeepsValid(db.users, db.skills, db.offered, db.wanted, db.otps, db.swaps, db.feedback,
                       dto, hash(dto.password), now, otpValue, newStatus, newIsPublic);
    Commit(db, out.value);
    r := Success(RegisterReply(Registered, uid, dto.email));
  }

  /** The writes of a registration, committed together. */
  method Commit(db: Db, reg: Registration)
    requires TablesValid(reg.users, reg.skills, reg.offered, reg.wanted, reg.otps, db.swaps, db.feedback)
    modifies db
    ensures db.Valid()
    ensures db.users == reg.users && db.skills == reg.skills && db.offered == reg.offered
    ensures db.wanted == reg.wanted && db.otps == reg.otps && db.outbox == old(db.outbox) + [reg.mail]
    ensures db.swaps == old(db.swaps) && db.feedback == old(db.feedback)
  {
    db.users, db.skills, db.offered, db.wanted, db.otps, db.outbox :=
      reg.users, reg.skills, reg.offered, reg.wanted, reg.otps, db.outbox + [reg.mail];
  }

  /** The tables of a registration keep every constraint of the schema: the
      new email is fresh, new skill names are unknown ones, and every new
      link and OTP row points at the new user. */
  lemma RegisterKeepsValid(users: seq<User>, skills: seq<string>, offered: set<Link>, wanted: set<Link>,
                           otps: seq<Otp>, swaps: seq<SwapRequest>, feedback: seq<Feedback>,
                           dto: RegisterDto, hashed: string, now: int, otpValue: nat,
                           newStatus: AccountStatus, newIsPublic: bool)
    requires TablesValid(users, skills, offered, wanted, otps, swaps, feedback)
    requires RegisterOutcome(users, skills, offered, wanted, otps, dto, hashed, now, otpValue, newStatus, newIsPublic).Success?
    ensures var reg := RegisterOutcome(users, skills, offered, wanted, otps, dto, hashed, now, otpValue, newStatus, newIsPublic).value;
      TablesValid(reg.users, reg.skills, reg.offered, reg.wanted, reg.otps, swaps, feedback)
  {
    var reg := RegisterOutcome(users, skills, offered, wanted, otps, dto, hashed, now, otpValue, newStatus, newIsPublic).value;
    var (s1, offeredIds) := ResolveSkills(skills, dto.offeredSkills);
    ResolveSkillsAddsOnlyUnknown(skills, dto.offeredSkills);
    ResolveSkillsAddsOnlyUnknown(s1, dto.wantedSkills);
    assert EmailsUnique(reg.users);
  }

  // ------------------------------------------------------------------- sendOtp

  /** Issue a fresh OTP with the caller's reason to an existing account. A
      missing body field arrives as the empty string. The email request is
      made for the two known reasons only; the row is stored for any reason. */
  method SendOtp(db: Db, email: string, reason: string, now: int, otpValue: nat)
    returns (r: Result<string, Failure>)
    requires db.Valid()
    requires IsOtpValue(otpValue)
    modifies db
    ensures db.Valid()
    ensures (email == "" || reason == "") ==>
      r == Failure(HttpFailure(BadRequest, OtpFieldsRequired)) && unchanged(db)
    ensures email != "" && reason != "" && UserByEmail(old(db.users), email).None? ==>
      r == Failure(HttpFailure(BadRequest, NoSuchUser)) && unchanged(db)
    ensures r.Success? <==> email != "" && reason != "" && UserByEmail(old(db.users), email).Some?
    ensures r.Success? ==>
      var uid := UserByEmail(old(db.users), email).value;
      && r.value == "OTP sent to " + email + ". Please check your email for the OTP."
      && db.otps == old(db.otps) + [Otp(uid, email, otpValue, reason, now + OtpLifetimeMs)]
      && db.outbox == old(db.outbox) + (
           if reason == VerifyUser then [VerifyMail(email, NatToString(otpValue), old(db.users)[uid].name)]
           else if reason == ResetPass then [ResetMail(email, NatToString(otpValue), old(db.users)[uid].name)]
           else [])
      && db.users == old(db.users) && db.skills == old(db.skills)
      && db.offered == old(db.offered) && db.wanted == old(db.wanted)
      && db.swaps == old(db.swaps) && db.feedback == old(db.feedback)
  {
    if email == "" || reason == "" {
      r := Failure(Rethrow(HttpFailure(BadRequest, OtpFieldsRequired), OtpFallback, InternalServerError));
      return;
    }
    var found := UserByEmail(db.users, email);
    if found.None? {
      r := Failure(Rethrow(HttpFailure(BadRequest, NoSuchUser), OtpFallback, InternalServerError));
      return;
    }
    var user := db.users[found.value];
    db.otps := db.otps + [Otp(found.value, email, otpValue, reason, now + OtpLifetimeMs)];
    if reason == VerifyUser {
      db.outbox := db.outbox + [VerifyMail(email, NatToString(otpValue), user.name)];
    }
    if reason == ResetPass {
      db.outbox := db.outbox + [ResetMail(email, NatToString(otpValue), user.name)];
    }
    r := Success("OTP sent to " + email + ". Please check your email for the OTP.");
  }

  // -------------------------------------------------------- OTP lookup & check

  /** `otps.findFirst({ where: { email }, orderBy: { createdAt: 'desc' } })`:
      the most recently created OTP row for the email. */
  function LatestOtpIndex(otps: seq<Otp>, email: string): (r: Option<nat>)
    ensures r.None? <==> forall k :: 0 <= k < |otps| ==> otps[k].email != email
    ensures r.Some? ==> r.value < |otps| && otps[r.value].email == email
    ensures r.Some? ==> forall k :: r.value < k < |otps| ==> otps[k].email != email
  {
    if otps == [] then None
    else if otps[|otps| - 1].email == email then Some(|otps| - 1)
    else LatestOtpIndex(otps[..|otps| - 1], email)
  }

  function GetLatestOtp(otps: seq<Otp>, email: string): (r: Result<Otp, Failure>)
    ensures r.Failure? <==> forall k :: 0 <= k < |otps| ==> otps[k].email != email
    ensures r.Failure? ==> r.error == HttpFailure(BadRequest, NoOtp)
    ensures r.Success? ==> r.value.email == email
    ensures r.Success? ==>
      exists k :: 0 <= k < |otps| && otps[k] == r.value && (forall j :: k < j < |otps| ==> otps[j].email != email)
  {
    match LatestOtpIndex(otps, email)
    case None => Failure(HttpFailure(BadRequest, NoOtp))
    case Some(k) => Success(otps[k])
  }

  /** A newer OTP for the same email hides every older one. */
  lemma {:induction false} NewerOtpHidesOlder(otps: seq<Otp>, o: Otp)
    ensures GetLatestOtp(otps + [o], o.email) == Success(o)
  {
    assert (otps + [o])[|otps|] == o;
  }

  /** `ensureOtpIsValid`: an OTP is rejected once its expiry lies before now,
      or when its decimal form differs from the input. An OTP that expires
      exactly now is still accepted. */
  function EnsureOtpIsValid(o: Otp, input: string, now: int): (r: Result<(), Failure>)
    ensures r.Success? <==> now <= o.expiry && input == IntToString(o.value)
    ensures r.Failure? ==> r.error == HttpFailure(BadRequest, InvalidOtp)
  {
    if o.expiry < now then Failure(HttpFailure(BadRequest, InvalidOtp))
    else if IntToString(o.value) != input then Failure(HttpFailure(BadRequest, InvalidOtp))
    else Success(())
  }

  /** The only input an issued OTP accepts is six ASCII digits that read back
      as its value. */
  lemma AcceptedOtpIsSixDigits(o: Otp, input: string, now: int)
    requires IsOtpValue(o.value)
    requires EnsureOtpIsValid(o, input, now).Success?
    ensures |input| == 6 && AllDigits(input) && input[0] != '0'
    ensures ParseDecimal(input) == o.value
  {
    assert Pow10(5) == 100000 && Pow10(6) == 1000000 by {
      assert Pow10(1) == 10;
      assert Pow10(2) == 100;
      assert Pow10(3) == 1000;
      assert Pow10(4) == 10000;
    }
    NatToStringLength(o.value, 5);
    ParseNatToString(o.value);
  }

  /** An OTP checked within its lifetime with its own digits is accepted. */
  lemma FreshOtpAccepted(o: Otp, issuedAt: int, now: int)
    requires o.expiry == issuedAt + OtpLifetimeMs
    requires issuedAt <= now <= issuedAt + OtpLifetimeMs
    ensures EnsureOtpIsValid(o, IntToString(o.value), now).Success?
    ensures EnsureOtpIsValid(o, IntToString(o.value), now + 1).Success? <==> now < issuedAt + OtpLifetimeMs
  {
  }

  // ----------------------------------------------------------------- verifyOtp

  /** Check the input against the newest OTP for the email, then act on its
      reason: `verify_user` activates the account, `reset_pass` hands out a
      password-reset token (`signReset` of the user id's decimal string), any
      other reason is refused. The OTP row is kept, so it stays usable until
      it expires. */
  method VerifyOtp(db: Db, email: string, input: string, now: int, signReset: string -> string)
    returns (r: Result<VerifyReply, Failure>)
    requires db.Valid()
    modifies db
    ensures db.Valid()
    ensures db.otps == old(db.otps) && db.skills == old(db.skills)
    ensures db.offered == old(db.offered) && db.wanted == old(db.wanted)
    ensures db.swaps == old(db.swaps) && db.feedback == old(db.feedback) && db.outbox == old(db.outbox)
    ensures GetLatestOtp(old(db.otps), email).Failure? ==>
      r == Failure(HttpFailure(BadRequest, NoOtp)) && db.users == old(db.users)
    ensures GetLatestOtp(old(db.otps), email).Success? ==>
      var o := GetLatestOtp(old(db.otps), email).value;
      var found := UserByEmail(old(db.users), email);
      if EnsureOtpIsValid(o, input, now).Failure? then
        r == Failure(HttpFailure(BadRequest, InvalidOtp)) && db.users == old(db.users)
      else if found.None? && (o.reason == VerifyUser || o.reason == ResetPass) then
        r == Failure(HttpFailure(InternalServerError, NullRead("id"))) && db.users == old(db.users)
      else if o.reason == VerifyUser then
        && r == Success(VerifyReply(VerifiedUser, None))
        && db.users == old(db.users)[found.value := old(db.users)[found.value].(status := Active)]
      else if o.reason == ResetPass then
        && r == Success(VerifyReply(VerifiedReset, Some(signReset(NatToString(found.value)))))
        && db.users == old(db.users)
      else
        r == Failure(HttpFailure(BadRequest, InvalidReason)) && db.users == old(db.users)
  {
    var latest := GetLatestOtp(db.otps, email);
    if latest.Failure? {
      r := Failure(Rethrow(latest.error, OtpFallback, InternalServerError));
      return;
    }
    var o := latest.value;
    var check := EnsureOtpIsValid(o, input, now);
    if check.Failure? {
      var inner := Rethrow(check.error, InvalidOtpFallback, BadRequest);
      r := Failure(Rethrow(inner, OtpFallback, InternalServerError));
      return;
    }
    var found := UserByEmail(db.users, email);
    if o.reason == VerifyUser {
      if found.None? {
        r := Failure(Rethrow(PlainError(NullRead("id")), OtpFallback, InternalServerError));
        return;
      }
      var uid := found.value;
      db.users := db.users[uid := db.users[uid].(status := Active)];
      assert forall k :: 0 <= k < |db.users| ==> db.users[k].email == old(db.users)[k].email;
      r := Success(VerifyReply(VerifiedUser, None));
      return;
    }
    if o.reason == ResetPass {
      if found.None? {
        r := Failure(Rethrow(PlainError(NullRead("id")), OtpFallback, InternalServerError));
        return;
      }
      r := Success(VerifyReply(VerifiedReset, Some(signReset(NatToString(found.value)))));
      return;
    }
    r := Failure(Rethrow(HttpFailure(BadRequest, InvalidReason), OtpFallback, InternalServerError));
  }

  // ------------------------------------------------------------- resetPassword

  /** `verifyResetToken`: the id claim of a valid reset token; an empty or
      invalid token is refused. `verify` is the JWT check with the reset
      secret and yields the token's `id` claim. */
  function VerifyResetToken(token: string, verify: string -> Option<string>): (r: Result<string, Failure>)
    ensures r.Success? <==> token != "" && verify(token).Some?
    ensures r.Success? ==> r.value == verify(token).value
    ensures r.Failure? ==> r.error == HttpFailure(BadRequest, InvalidToken)
  {
    if token == "" then Failure(HttpFailure(BadRequest, InvalidToken))
    else match verify(token)
      case None => Failure(HttpFailure(BadRequest, InvalidToken))
      case Some(id) => Success(id)
  }

  /** A token made by `verifyOtp` for a user leads back to that user. */
  lemma ResetTokenRoundTrip(uid: UserId, sign: string -> string, verify: string -> Option<string>)
    requires verify(sign(NatToString(uid))) == Some(NatToString(uid))
    requires sign(NatToString(uid)) != ""
    ensures VerifyResetToken(sign(NatToString(uid)), verify).Success?
    ensures BigIntOf(VerifyResetToken(sign(NatToString(uid)), verify).value) == Some(uid)
  {
    BigIntOfNatToString(uid);
  }

  /** Set the password of the user a reset token names. */
  method ResetPassword(db: Db, token: string, newPassword: string,
                       verify: string -> Option<string>, hash: string -> string)
    returns (r: Result<string, Failure>)
    requires db.Valid()
    modifies db
    ensures db.Valid()
    ensures db.skills == old(db.skills) && db.otps == old(db.otps)
    ensures db.offered == old(db.offered) && db.wanted == old(db.wanted)
    ensures db.swaps == old(db.swaps) && db.feedback == old(db.feedback) && db.outbox == old(db.outbox)
    ensures VerifyResetToken(token, verify).Failure? ==>
      r == Failure(HttpFailure(BadRequest, InvalidToken)) && db.users == old(db.users)
    ensures VerifyResetToken(token, verify).Success? ==>
      var id := VerifyResetToken(token, verify).value;
      match BigIntOf(id)
      case None => r == Failure(HttpFailure(InternalServerError, CannotConvertToBigInt(id))) && db.users == old(db.users)
      case Some(uid) =>
        if 0 <= uid < |old(db.users)| then
          && r == Success(ResetDone)
          && db.users == old(db.users)[uid := old(db.users)[uid].(password := Some(hash(newPassword)))]
        else
          r == Failure(HttpFailure(InternalServerError, NullRead("id"))) && db.users == old(db.users)
  {
    var payload := VerifyResetToken(token, verify);
    if payload.Failure? {
      r := Failure(Rethrow(payload.error, ResetFallback, InternalServerError));
      return;
    }
    var id := BigIntOf(payload.value);
    if id.None? {
      r := Failure(Rethrow(PlainError(CannotConvertToBigInt(payload.value)), ResetFallback, InternalServerError));
      return;
    }
    var uid := id.value;
    var hashed := hash(newPassword);
    if uid < 0 || uid >= |db.users| {
      r := Failure(Rethrow(PlainError(NullRead("id")), ResetFallback, InternalServerError));
      return;
    }
    db.users := db.users[uid := db.users[uid].(password := Some(hashed))];
    assert forall k :: 0 <= k < |db.users| ==> db.users[k].email == old(db.users)[k].email;
    r := Success(ResetDone);
  }

  // --------------------------------------------------------------------- login

  /** `login` as written: the statements that sign the access token sit after
      the `throw` of the `else` branch, so they never run, and a correct
      password falls off the end of the `try` block with no value. A missing
      user fails on `user.status`. */
  function LoginAsWritten(users: seq<User>, email: string, password: string,
                          compare: (string, string) -> bool): (r: Result<Option<Session>, Failure>)
    ensures r.Success? ==> r.value.None?
    ensures r.Success? <==> (
      && UserByEmail(users, email).Some?
      && users[UserByEmail(users, email).value].status == Active
      && users[UserByEmail(users, email).value].password.Some?
      && compare(password, users[UserByEmail(users, email).value].password.value))
  {
    match UserByEmail(users, email)
    case None => Failure(Rethrow(PlainError(NullRead("status")), LoginFallback, InternalServerError))
    case Some(uid) =>
      var user := users[uid];
      if user.status.Inactive? then
        Failure(Rethrow(HttpFailure(Unauthorized, NeedsVerification), LoginFallback, InternalServerError))
      else match user.password
        case Some(h) =>
          if !compare(password, h) then
            Failure(Rethrow(HttpFailure(Unauthorized, InvalidCredentials), LoginFallback, InternalServerError))
          else Success(None)
        case None =>
          Failure(Rethrow(HttpFailure(Unauthorized, InvalidCredentials), LoginFallback, InternalServerError))
  }

  /** `login` as evidently intended: the same checks, and on success an
      access token signed over the user id's decimal string and the role. */
  function Login(users: seq<User>, email: string, password: string,
                 compare: (string, string) -> bool, sign: (string, string) -> string)
    : (r: Result<Session, Failure>)
    ensures r.Success? <==> LoginAsWritten(users, email, password, compare).Success?
    ensures r.Failure? ==> r.error == LoginAsWritten(users, email, password, compare).error
    ensures r.Success? ==>
      var uid := UserByEmail(users, email).value;
      r.value == Session(sign(NatToString(uid), users[uid].role), uid, users[uid].name, users[uid].role)
  {
    match LoginAsWritten(users, email, password, compare)
    case Failure(e) => Failure(e)
    case Success(_) =>
      var uid := UserByEmail(users, email).value;
      var user := users[uid];
      Success(Session(sign(NatToString(uid), user.role), uid, user.name, user.role))
  }

  /** Each way a login is refused, with its status and message. */
  lemma LoginRefusals(users: seq<User>, email: string, password: string,
                      compare: (string, string) -> bool, sign: (string, string) -> string)
    ensures var found := UserByEmail(users, email);
      var r := Login(users, email, password, compare, sign);
      && (found.None? ==> r == Failure(HttpFailure(InternalServerError, NullRead("status"))))
      && (found.Some? && users[found.value].status == Inactive ==>
            r == Failure(HttpFailure(Unauthorized, NeedsVerification)))
      && (found.Some? && users[found.value].status == Active && users[found.value].password.None? ==>
            r == Failure(HttpFailure(Unauthorized, InvalidCredentials)))
      && (found.Some? && users[found.value].status == Active && users[found.value].password.Some?
          && !compare(password, users[found.value].password.value) ==>
            r == Failure(HttpFailure(Unauthorized, InvalidCredentials)))
  {
  }

  /** An active user with the right password gets no token from the code as
      written, and a token from the corrected login. */
  lemma LoginAsWrittenIssuesNoToken(name: string, email: string, hashed: string,
                                    sign: (string, string) -> string)
    ensures var users := [User(name, email, "", None, None, None, [], Some(hashed), RoleUser, Active, true)];
      var anyPassword := (p: string, h: string) => true;
      && LoginAsWritten(users, email, "secret", anyPassword) == Success(None)
      && Login(users, email, "secret", anyPassword, sign).Success?
  {
    var users := [User(name, email, "", None, None, None, [], Some(hashed), RoleUser, Active, true)];
    assert UserByEmail(users, email) == Some(0);
  }
}
