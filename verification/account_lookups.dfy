/** Email lookups used by the account adapter: whether an address is taken
    and whether a user has a verified address. Matching is `iexact`, i.e.
    equality after lower-casing. */
module AccountLookups {
  import opened Wrappers
  import opened Text
  import opened Accounts

  /** The `__iexact` lookup. */
  predicate IExact(a: string, b: string) {
    Lower(a) == Lower(b)
  }

  /** Whether `exclude` leaves the rows of user `u` in the query. */
  predicate Kept(exclude: Option<nat>, u: nat) {
    exclude.None? || u != exclude.value
  }

  /** Some email-address row of another user matches `email`. */
  predicate AddressMatch(db: AuthDb, email: string, exclude: Option<nat>) {
    exists k :: k in db.addresses && Kept(exclude, db.addresses[k].user) && IExact(db.addresses[k].email, email)
  }

  /** Some other user's email field matches `email`. */
  predicate UserMatch(db: AuthDb, email: string, exclude: Option<nat>) {
    exists u :: u in db.users && Kept(exclude, u) && IExact(db.users[u].email, email)
  }

  /** `email_address_exists(email, exclude_user)`: the address table first;
      only when it has no match, and the user model has an email field, the
      user table. */
  function EmailAddressExists(db: AuthDb, email: string, exclude: Option<nat>, userEmailField: bool): (r: bool)
    ensures r <==> AddressMatch(db, email, exclude) || (userEmailField && UserMatch(db, email, exclude))
    ensures !userEmailField ==> (r <==> AddressMatch(db, email, exclude))
  {
    if AddressMatch(db, email, exclude) then true
    else if userEmailField then UserMatch(db, email, exclude)
    else false
  }

  /** The lookup ignores case: asking for the lower-cased address gives the
      same answer. */
  lemma EmailExistsIgnoresCase(db: AuthDb, email: string, exclude: Option<nat>, userEmailField: bool)
    ensures EmailAddressExists(db, Lower(email), exclude, userEmailField) == EmailAddressExists(db, email, exclude, userEmailField)
  {
    LowerIdempotent(email);
  }

  /** Excluding a user can only turn a match into no match. */
  lemma ExcludeNarrows(db: AuthDb, email: string, x: nat, userEmailField: bool)
    ensures EmailAddressExists(db, email, Some(x), userEmailField) ==> EmailAddressExists(db, email, None, userEmailField)
  {
  }

  /** Giving the excluded user one more address changes nothing. */
  lemma ExcludedUserIgnored(db: AuthDb, email: string, x: nat, k: nat, addr: EmailAddress, userEmailField: bool)
    requires k !in db.addresses && addr.user == x
    ensures EmailAddressExists(db.(addresses := db.addresses[k := addr]), email, Some(x), userEmailField)
         == EmailAddressExists(db, email, Some(x), userEmailField)
  {
    var db' := db.(addresses := db.addresses[k := addr]);
    if AddressMatch(db', email, Some(x)) {
      var j :| j in db'.addresses && Kept(Some(x), db'.addresses[j].user) && IExact(db'.addresses[j].email, email);
      assert j != k && j in db.addresses;
    }
    if AddressMatch(db, email, Some(x)) {
      var j :| j in db.addresses && Kept(Some(x), db.addresses[j].user) && IExact(db.addresses[j].email, email);
      assert j != k && db'.addresses[j] == db.addresses[j];
    }
  }

  /** The addresses `get_for_user(user, email)` matches. */
  function AddressesFor(db: AuthDb, user: nat, email: string): set<nat> {
    set k | k in db.addresses && db.addresses[k].user == user && IExact(db.addresses[k].email, email)
  }

  /** `has_verified_email(user, email)`: with an email, the `verified` flag
      of the user's address (false when there is none, an error when
      several match); without one, whether any address of the user is
      verified. */
  function HasVerifiedEmail(db: AuthDb, user: nat, email: Option<string>): (r: Result<bool, AccountError>)
    ensures (email.None? || email.value == "") ==>
      r.Ok? && (r.value <==> exists k :: k in db.addresses && db.addresses[k].user == user && db.addresses[k].verified)
    ensures email.Some? && email.value != "" ==>
      (r.Err? <==> |AddressesFor(db, user, email.value)| > 1)
      && (|AddressesFor(db, user, email.value)| == 0 ==> r == Ok(false))
  {
    if email.Some? && email.value != "" then
      var matches := AddressesFor(db, user, email.value);
      if |matches| == 0 then Ok(false)
      else if |matches| > 1 then Err(MultipleObjectsReturned)
      else Ok(exists k :: k in matches && db.addresses[k].verified)
    else Ok(exists k :: k in db.addresses && db.addresses[k].user == user && db.addresses[k].verified)
  }

  /** With an email, the answer is the `verified` flag of the one matching
      address. */
  lemma HasVerifiedEmailIsFlag(db: AuthDb, user: nat, email: string, k: nat)
    requires email != "" && AddressesFor(db, user, email) == {k}
    ensures HasVerifiedEmail(db, user, Some(email)) == Ok(db.addresses[k].verified)
  {
    assert k in AddressesFor(db, user, email);
  }

  /** A verified specific address means the user has a verified address. */
  lemma VerifiedAddressIsVerifiedUser(db: AuthDb, user: nat, email: string)
    requires HasVerifiedEmail(db, user, Some(email)) == Ok(true)
    ensures HasVerifiedEmail(db, user, None) == Ok(true)
  {
    if email != "" {
      var matches := AddressesFor(db, user, email);
      assert |matches| == 1;
      var k :| k in matches && db.addresses[k].verified;
      assert k in db.addresses && db.addresses[k].user == user;
    }
  }
}
