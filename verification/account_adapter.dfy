/** The account adapter: confirming an address, username and email
    validation, the confirmation-mail cooldown and the pre-login decision
    table. */
module AccountAdapter {
  import opened Wrappers
  import opened Text
  import opened Accounts
  import opened AccountLookups

  /** The in-memory address is its stored row. */
  predicate Stored(db: AuthDb, obj: EmailAddress) {
    obj.pk in db.addresses && db.addresses[obj.pk] == obj
  }

  /** `confirm_email`: marks the address verified, makes it primary only if
      its user has no primary yet, and saves it. The saved address is the
      result; when the switch to primary raises on the user's save, the
      address was already stored, verified and primary. */
  function ConfirmEmail(db: AuthDb, obj: EmailAddress): (r: Saved<EmailAddress>)
    ensures var turnsPrimary := |Primaries(db.addresses, obj.user)| == 0;
      r.result.Err? <==> obj.user !in db.users || |Primaries(db.addresses, obj.user)| > 1
                         || (turnsPrimary && EmailHeldByOther(db, obj.user, obj.email))
    ensures r.result.Err? && r.result.error != EmailInUse ==> r.db == db
    ensures r.result == Err(EmailInUse) ==>
      r.db.users == db.users && obj.pk in r.db.addresses
      && r.db.addresses[obj.pk] == obj.(verified := true, primary := true)
    ensures r.result.Ok? ==>
      var saved := r.result.value;
      saved == obj.(verified := true, primary := obj.primary || |Primaries(db.addresses, obj.user)| == 0)
      && obj.pk in r.db.addresses && r.db.addresses[obj.pk] == saved
    ensures r.result.Ok? && |Primaries(db.addresses, obj.user)| == 0 ==>
      r.db.users == db.users[obj.user := db.users[obj.user].(email := obj.email)]
    ensures r.result.Ok? && |Primaries(db.addresses, obj.user)| != 0 ==> r.db.users == db.users
  {
    var verified := obj.(verified := true);
    var s := SetEmailAsPrimary(db, verified, true);
    match s.result
    case Err(e) => Saved(Err(e), s.db)
    case Ok(changed) =>
      var saved := if changed then verified.(primary := true) else verified;
      Saved(Ok(saved), s.db.(addresses := s.db.addresses[obj.pk := saved]))
  }

  /** Confirming, whether or not the user's save raises, keeps "at most one
      primary" for every user, leaves the addresses of other users alone and
      keeps user emails unique. */
  lemma ConfirmEmailKeepsOnePrimary(db: AuthDb, obj: EmailAddress)
    requires Stored(db, obj)
    requires forall u :: AtMostOnePrimary(db.addresses, u)
    ensures var db' := ConfirmEmail(db, obj).db;
      (forall u :: AtMostOnePrimary(db'.addresses, u))
      && (forall k :: k in db.addresses && db.addresses[k].user != obj.user ==>
            k in db'.addresses && db'.addresses[k] == db.addresses[k])
      && (UniqueUserEmails(db) ==> UniqueUserEmails(db'))
  {
    var verified := obj.(verified := true);
    assert Consistent(db, verified);
    SetPrimaryKeepsOnePrimary(db, verified, true);
    var s := SetEmailAsPrimary(db, verified, true);
    var db' := ConfirmEmail(db, obj).db;
    if s.result.Ok? {
      if s.result.value {
        assert db'.addresses == s.db.addresses;
      } else {
        assert s.db == db;
        forall u ensures AtMostOnePrimary(db'.addresses, u) {
          forall a, b | IsPrimaryOf(db'.addresses, a, u) && IsPrimaryOf(db'.addresses, b, u)
            ensures a == b
          {
            assert IsPrimaryOf(db.addresses, a, u) && IsPrimaryOf(db.addresses, b, u);
            assert AtMostOnePrimary(db.addresses, u);
          }
        }
      }
    }
  }

  datatype UsernameError =
    | Invalid(validator: nat)
    | Blacklisted
    | UsernameTaken

  /** The index of the first validator that rejects `username`. */
  function FirstRejecting(validators: seq<string -> bool>, username: string): (r: Option<nat>)
    ensures r.None? <==> forall i :: 0 <= i < |validators| ==> validators[i](username)
    ensures r.Some? ==> (r.value < |validators| && !validators[r.value](username)
      && forall i :: 0 <= i < r.value ==> validators[i](username))
    decreases |validators|
  {
    if |validators| == 0 then None
    else if !validators[0](username) then Some(0)
    else
      match FirstRejecting(validators[1..], username)
      case None => None
      case Some(i) => Some(i + 1)
  }

  /** The lower-cased blacklist. */
  function LowerAll(bl: seq<string>): (r: seq<string>)
    ensures |r| == |bl|
    ensures forall i :: 0 <= i < |bl| ==> r[i] == Lower(bl[i])
  {
    seq(|bl|, i requires 0 <= i < |bl| => Lower(bl[i]))
  }

  /** The username equals a blacklist entry up to case. */
  predicate IsBlacklisted(username: string, bl: seq<string>) {
    Lower(username) in LowerAll(bl)
  }

  /** `clean_username`: the validators in order, then the blacklist, then
      (unless `shallow`) the taken-username lookup, given here as `taken`.
      An accepted username is returned unchanged. */
  function CleanUsername(username: string, validators: seq<string -> bool>, bl: seq<string>,
                         shallow: bool, taken: string -> bool): (r: Result<string, UsernameError>)
    ensures r.Ok? <==> FirstRejecting(validators, username).None? && !IsBlacklisted(username, bl)
                       && (shallow || !taken(username))
    ensures r.Ok? ==> r.value == username
    ensures r.Err? && r.error.Invalid? <==> FirstRejecting(validators, username).Some?
    ensures r.Err? && r.error.Invalid? ==> FirstRejecting(validators, username) == Some(r.error.validator)
    ensures r == Err(Blacklisted) <==> FirstRejecting(validators, username).None? && IsBlacklisted(username, bl)
    ensures r == Err(UsernameTaken) <==> FirstRejecting(validators, username).None? && !IsBlacklisted(username, bl)
                                         && !shallow && taken(username)
  {
    match FirstRejecting(validators, username)
    case Some(i) => Err(Invalid(i))
    case None =>
      if IsBlacklisted(username, bl) then Err(Blacklisted)
      else if !shallow && taken(username) then Err(UsernameTaken)
      else Ok(username)
  }

  /** The blacklist ignores case on both sides. */
  lemma BlacklistIgnoresCase(username: string, bl: seq<string>)
    ensures IsBlacklisted(Lower(username), bl) == IsBlacklisted(username, bl)
    ensures IsBlacklisted(username, LowerAll(bl)) == IsBlacklisted(username, bl)
  {
    LowerIdempotent(username);
    forall i | 0 <= i < |bl| ensures LowerAll(LowerAll(bl))[i] == LowerAll(bl)[i] {
      LowerIdempotent(bl[i]);
    }
    assert LowerAll(LowerAll(bl)) == LowerAll(bl);
  }

  /** With `shallow` the database is not consulted. */
  lemma ShallowSkipsLookup(username: string, validators: seq<string -> bool>, bl: seq<string>,
                           taken1: string -> bool, taken2: string -> bool)
    ensures CleanUsername(username, validators, bl, true, taken1) == CleanUsername(username, validators, bl, true, taken2)
  {
  }

  datatype EmailError = EmailTaken

  /** `validate_unique_email`: raises exactly when the address exists. */
  function ValidateUniqueEmail(db: AuthDb, email: string, userEmailField: bool): (r: Result<string, EmailError>)
    ensures r.Err? <==> AddressMatch(db, email, None) || (userEmailField && UserMatch(db, email, None))
    ensures r.Ok? ==> r.value == email
  {
    if EmailAddressExists(db, email, None, userEmailField) then Err(EmailTaken) else Ok(email)
  }

  /** The non-HMAC branch of `should_send_confirmation_mail`: send unless a
      confirmation for the address was sent after `now - cooldown`. With
      HMAC confirmations the rate limiter decides (`consumed`). */
  function ShouldSendConfirmationMail(hmac: bool, consumed: bool, sent: seq<int>, now: int, cooldown: nat): (r: bool)
    ensures hmac ==> r == consumed
    ensures !hmac ==> (r <==> forall i :: 0 <= i < |sent| ==> sent[i] <= now - cooldown)
  {
    if hmac then consumed
    else !(exists i :: 0 <= i < |sent| && sent[i] > now - cooldown)
  }

  /** Waiting never turns a "send" into a "do not send". */
  lemma SendingStaysAllowed(sent: seq<int>, now: int, later: int, cooldown: nat, consumed: bool)
    requires now <= later
    requires ShouldSendConfirmationMail(false, consumed, sent, now, cooldown)
    ensures ShouldSendConfirmationMail(false, consumed, sent, later, cooldown)
  {
  }

  /** After a mail is sent at `now`, no other is sent before the cooldown has
      passed. */
  lemma CooldownBlocksResend(sent: seq<int>, now: int, t: int, cooldown: nat, consumed: bool)
    requires now <= t < now + cooldown
    ensures !ShouldSendConfirmationMail(false, consumed, sent + [now], t, cooldown)
  {
    assert (sent + [now])[|sent|] == now;
  }

  datatype VerificationMode = NoVerification | Optional | Mandatory

  /** What `pre_login` answers with. */
  datatype Response = NoResponse | UserInactive | VerificationSent

  /** `pre_login`: the response and whether a confirmation mail is sent. */
  function PreLogin(db: AuthDb, user: User, mode: VerificationMode, email: Option<string>, signup: bool)
    : (r: Result<(Response, bool), AccountError>)
    ensures !user.isActive ==> r == Ok((UserInactive, false))
    ensures user.isActive && mode == NoVerification ==> r == Ok((NoResponse, false))
    ensures user.isActive && mode != NoVerification ==>
      (r.Err? <==> HasVerifiedEmail(db, user.pk, email).Err?)
    ensures r.Err? ==> r.error == HasVerifiedEmail(db, user.pk, email).error
  {
    if !user.isActive then Ok((UserInactive, false))
    else match mode
      case NoVerification => Ok((NoResponse, false))
      case Optional =>
        var verified :- HasVerifiedEmail(db, user.pk, email);
        Ok((NoResponse, !verified && signup))
      case Mandatory =>
        var verified :- HasVerifiedEmail(db, user.pk, email);
        if !verified then Ok((VerificationSent, true)) else Ok((NoResponse, false))
  }

  /** Under OPTIONAL or MANDATORY, `pre_login` of an active user raises
      `MultipleObjectsReturned` exactly when a non-empty email matches more
      than one address of the user; the check runs before `signup` is
      looked at. */
  lemma PreLoginRaises(db: AuthDb, user: User, mode: VerificationMode, email: Option<string>, signup: bool)
    requires user.isActive && mode != NoVerification
    ensures PreLogin(db, user, mode, email, signup).Err?
      <==> email.Some? && email.value != "" && |AddressesFor(db, user.pk, email.value)| > 1
    ensures PreLogin(db, user, mode, email, signup).Err? ==>
      PreLogin(db, user, mode, email, signup).error == MultipleObjectsReturned
  {
  }

  /** The decision table for an active user whose verification status is
      known: only MANDATORY answers, only for an unverified email; a mail
      goes out under MANDATORY for an unverified email and under OPTIONAL
      only on signup with an unverified email. */
  lemma PreLoginTable(db: AuthDb, user: User, mode: VerificationMode, email: Option<string>, signup: bool, verified: bool)
    requires user.isActive
    requires mode != NoVerification ==> HasVerifiedEmail(db, user.pk, email) == Ok(verified)
    ensures PreLogin(db, user, mode, email, signup).Ok?
    ensures var (resp, mail) := PreLogin(db, user, mode, email, signup).value;
      (resp == VerificationSent <==> mode == Mandatory && !verified)
      && resp != UserInactive
      && (mail <==> mode != NoVerification && !verified && (mode == Mandatory || signup))
  {
  }
}
