/** HMAC email confirmations: a signed key names an address; following it
    confirms the address once. Signing is abstract: `loads` recovers the
    signed primary key, or fails for an expired or tampered key. */
module EmailConfirmation {
  import opened Wrappers
  import opened Accounts
  import opened AccountAdapter

  /** `EmailConfirmationHMAC.from_key`: only an unverified address is
      found; a bad or expired key or a missing address gives `None`. */
  function FromKey(db: AuthDb, key: string, loads: string -> Option<nat>): (r: Option<EmailAddress>)
    ensures r.Some? <==> loads(key).Some? && loads(key).value in db.addresses
                         && !db.addresses[loads(key).value].verified
    ensures r.Some? ==> r.value == db.addresses[loads(key).value]
    ensures r.Some? && KeyedByPk(db) ==> Stored(db, r.value)
  {
    match loads(key)
    case None => None
    case Some(pk) =>
      if pk in db.addresses && !db.addresses[pk].verified then Some(db.addresses[pk]) else None
  }

  /** `confirm`: an unverified address is confirmed through the adapter and
      returned; a verified one is left alone and `None` is returned. */
  function Confirm(db: AuthDb, obj: EmailAddress): (r: Saved<Option<EmailAddress>>)
    ensures obj.verified ==> r == Saved(Ok(None), db)
    ensures !obj.verified ==> r.db == ConfirmEmail(db, obj).db
    ensures !obj.verified && r.result.Ok? ==>
      r.result.value.Some? && r.result.value.value.verified && r.result.value.value.pk == obj.pk
      && obj.pk in r.db.addresses && r.db.addresses[obj.pk] == r.result.value.value
    ensures !obj.verified && r.result.Err? ==> ConfirmEmail(db, obj).result == Err(r.result.error)
  {
    if obj.verified then Saved(Ok(None), db)
    else
      var c := ConfirmEmail(db, obj);
      match c.result
      case Err(e) => Saved(Err(e), c.db)
      case Ok(saved) => Saved(Ok(Some(saved)), c.db)
  }

  /** A confirmation key works once: after the address it names is
      confirmed, the same key finds nothing, even when the user's save
      raised after the address was stored. */
  lemma KeyIsSingleUse(db: AuthDb, key: string, loads: string -> Option<nat>)
    requires KeyedByPk(db)
    requires FromKey(db, key, loads).Some?
    requires Confirm(db, FromKey(db, key, loads).value).result.Ok?
          || Confirm(db, FromKey(db, key, loads).value).result == Err(EmailInUse)
    ensures FromKey(Confirm(db, FromKey(db, key, loads).value).db, key, loads).None?
  {
  }

  /** Confirming the confirmed address again changes nothing. */
  lemma ConfirmIdempotent(db: AuthDb, obj: EmailAddress)
    requires !obj.verified && Confirm(db, obj).result.Ok?
    ensures var r := Confirm(db, obj);
      Confirm(r.db, r.result.value.value) == Saved(Ok(None), r.db)
  {
  }
}
