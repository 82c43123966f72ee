/** The account model: user initials and the primary-email switch. A user
    owns email addresses; at most one of them is primary. */
module Accounts {
  import opened Wrappers
  import opened Text

  datatype User = User(pk: nat, username: string, firstName: string, lastName: string,
                       email: string, isActive: bool)

  datatype EmailAddress = EmailAddress(pk: nat, user: nat, email: string, verified: bool, primary: bool)

  /** The user and email-address tables, keyed by primary key. */
  datatype AuthDb = AuthDb(users: map<nat, User>, addresses: map<nat, EmailAddress>)

  /** Every address row is stored under its own primary key. */
  predicate KeyedByPk(db: AuthDb) {
    forall k :: k in db.addresses ==> db.addresses[k].pk == k
  }

  /** The exceptions of the account code: the owner of an address is
      missing, a user has several primary addresses, and the
      `IntegrityError` of saving a user under an email another user holds
      (`User.email` is unique). */
  datatype AccountError =
    | UserDoesNotExist
    | MultipleObjectsReturned
    | EmailInUse

  /** What an operation that saves row by row leaves behind: its result, or
      the exception that stopped it, and the tables as the saves made before
      that point left them (nothing is rolled back). */
  datatype Saved<+T> = Saved(result: Result<T, AccountError>, db: AuthDb)

  /** A user other than `user` already holds `email`. */
  predicate EmailHeldByOther(db: AuthDb, user: nat, email: string) {
    exists u :: u in db.users && u != user && db.users[u].email == email
  }

  /** No two users share an email, as the unique `User.email` column
      guarantees. */
  ghost predicate UniqueUserEmails(db: AuthDb) {
    forall u, v :: u in db.users && v in db.users && u != v ==> db.users[u].email != db.users[v].email
  }

  /** `s[:1]`. */
  function Take1(s: string): (r: string)
    ensures |r| <= 1
    ensures |s| > 0 ==> r == [s[0]]
    ensures |s| == 0 ==> r == ""
  {
    if |s| > 0 then s[..1] else ""
  }

  /** `user_initials`: empty unless both names are set; otherwise the first
      letters of the first two space-separated parts of the first name (or
      of the whole first name when it has no space) and of the last name. */
  function UserInitials(first: string, last: string): (r: string)
    ensures first == "" || last == "" ==> r == ""
    ensures first != "" && last != "" ==> 2 <= |r| + (if ' ' in first then 1 else 0) && |r| <= 3
    ensures first != "" && last != "" ==> r[|r| - 1] == last[0]
  {
    if first != "" && last != "" then
      var parts := Split(first, " ");
      if |parts| > 1 then Take1(parts[0]) + Take1(parts[1]) + Take1(last)
      else
        NoSpaceNoSplit(first);
        Take1(first) + Take1(last)
    else ""
  }

  /** A string without a space does not contain the separator `" "`. */
  lemma NoSpaceNoSplit(s: string)
    ensures ' ' !in s <==> !Contains(s, " ")
  {
    if ' ' in s {
      var i :| 0 <= i < |s| && s[i] == ' ';
      assert OccursAt(s, " ", i);
    } else {
      forall j: nat | j + 1 <= |s| ensures !OccursAt(s, " ", j) {
        assert s[j..j + 1][0] == s[j];
      }
    }
  }

  /** A one-word first name gives the first letters of both names. */
  lemma InitialsOneWord(first: string, last: string)
    requires first != "" && last != "" && ' ' !in first
    ensures UserInitials(first, last) == [first[0], last[0]]
  {
    NoSpaceNoSplit(first);
  }

  /** A first name with a space is its first word `a`, a space and the rest
      `b`, and gives the first letter of `a`, the first letter of `b` unless
      `b` is empty or starts with another space (the second word is then
      empty), and the first letter of the last name. Words after the second
      play no part. */
  lemma InitialsTwoWords(a: string, b: string, last: string)
    requires ' ' !in a && last != ""
    ensures UserInitials(a + " " + b, last) ==
      Take1(a) + (if |b| > 0 && b[0] != ' ' then [b[0]] else "") + [last[0]]
  {
    var first := a + " " + b;
    NoSpaceNoSplit(a);
    assert OccursAt(first, " ", |a|);
    forall j: nat | j < |a| ensures !OccursAt(first, " ", j) {
      assert first[j] == a[j];
    }
    assert IndexOf(first, " ") == Some(|a|);
    assert first[..|a|] == a;
    assert first[|a| + 1..] == b;
    assert Split(first, " ") == [a] + Split(b, " ");
    SecondWordInitial(b);
  }

  /** The first letter of the first piece of `b.split(' ')`. */
  lemma SecondWordInitial(b: string)
    ensures Take1(Split(b, " ")[0]) == if |b| > 0 && b[0] != ' ' then [b[0]] else ""
  {
    var parts := Split(b, " ");
    if Contains(b, " ") {
      var i := IndexOf(b, " ").value;
      assert parts[0] == b[..i];
      if |b| > 0 && b[0] != ' ' {
        assert !OccursAt(b, " ", 0);
        assert i > 0;
      } else {
        assert OccursAt(b, " ", 0);
      }
    } else {
      assert Join(parts, " ") == parts[0];
    }
  }

  /** The primary keys of `user`'s primary addresses. */
  function Primaries(addrs: map<nat, EmailAddress>, user: nat): set<nat> {
    set k | k in addrs && addrs[k].user == user && addrs[k].primary
  }

  /** At most one address of `user` is primary. */
  ghost predicate AtMostOnePrimary(addrs: map<nat, EmailAddress>, user: nat) {
    forall a, b :: IsPrimaryOf(addrs, a, user) && IsPrimaryOf(addrs, b, user) ==> a == b
  }

  predicate IsPrimaryOf(addrs: map<nat, EmailAddress>, k: nat, user: nat) {
    k in addrs && addrs[k].user == user && addrs[k].primary
  }

  /** `set_email_as_primary` goes on to switch the primary: the owner exists,
      has at most one primary, and the call is not a conditional one for an
      owner who already has a primary. */
  predicate Switches(db: AuthDb, obj: EmailAddress, conditional: bool) {
    obj.user in db.users && |Primaries(db.addresses, obj.user)| <= 1
    && !(conditional && |Primaries(db.addresses, obj.user)| == 1)
  }

  /** `set_email_as_primary(obj, conditional)`: fetches the owner, looks up
      the current primary (raising when there are several), returns false
      unchanged when `conditional` and a primary exists, and otherwise
      demotes that primary, saves `obj` as primary and copies its email onto
      the user, whose save raises when another user holds that email. The
      address rows saved before that stay saved. */
  function SetEmailAsPrimary(db: AuthDb, obj: EmailAddress, conditional: bool): (r: Saved<bool>)
    ensures r.result.Err? <==> obj.user !in db.users || |Primaries(db.addresses, obj.user)| > 1
                               || (Switches(db, obj, conditional) && EmailHeldByOther(db, obj.user, obj.email))
    ensures r.result == Err(EmailInUse) <==> Switches(db, obj, conditional) && EmailHeldByOther(db, obj.user, obj.email)
    ensures !Switches(db, obj, conditional) ==> r.db == db
    ensures !Switches(db, obj, conditional) && r.result.Ok? ==> !r.result.value
    ensures Switches(db, obj, conditional) ==>
      obj.pk in r.db.addresses && r.db.addresses[obj.pk] == obj.(primary := true)
      && r.db.addresses.Keys == db.addresses.Keys + {obj.pk}
      && (forall k :: k in db.addresses && k != obj.pk && db.addresses[k].user != obj.user ==>
            r.db.addresses[k] == db.addresses[k])
      && (forall k :: k in db.addresses && k != obj.pk && db.addresses[k].user == obj.user ==>
            r.db.addresses[k] == db.addresses[k].(primary := false))
    ensures Switches(db, obj, conditional) && EmailHeldByOther(db, obj.user, obj.email) ==> r.db.users == db.users
    ensures r.result == Ok(true) <==> Switches(db, obj, conditional) && !EmailHeldByOther(db, obj.user, obj.email)
    ensures r.result == Ok(true) ==>
      obj.user in r.db.users && r.db.users[obj.user] == db.users[obj.user].(email := obj.email)
      && r.db.users.Keys == db.users.Keys
      && (forall u :: u in db.users && u != obj.user ==> r.db.users[u] == db.users[u])
  {
    if obj.user !in db.users then Saved(Err(UserDoesNotExist), db)
    else
      var primaries := Primaries(db.addresses, obj.user);
      if |primaries| > 1 then Saved(Err(MultipleObjectsReturned), db)
      else if conditional && |primaries| == 1 then Saved(Ok(false), db)
      else
        var demoted := map k | k in db.addresses ::
          if db.addresses[k].user == obj.user && db.addresses[k].primary
          then db.addresses[k].(primary := false) else db.addresses[k];
        var addrs := demoted[obj.pk := obj.(primary := true)];
        if EmailHeldByOther(db, obj.user, obj.email) then Saved(Err(EmailInUse), db.(addresses := addrs))
        else
          var users := db.users[obj.user := db.users[obj.user].(email := obj.email)];
          Saved(Ok(true), AuthDb(users, addrs))
  }

  /** The in-memory address agrees with its stored row about its owner. */
  predicate Consistent(db: AuthDb, obj: EmailAddress) {
    obj.pk in db.addresses ==> db.addresses[obj.pk].user == obj.user
  }

  /** Switching the primary address, even when the user's save then raises,
      keeps "at most one primary" for every user, leaves other users'
      addresses alone and keeps user emails unique. */
  lemma SetPrimaryKeepsOnePrimary(db: AuthDb, obj: EmailAddress, conditional: bool)
    requires Consistent(db, obj)
    requires forall u :: AtMostOnePrimary(db.addresses, u)
    ensures var db' := SetEmailAsPrimary(db, obj, conditional).db;
      (forall u :: AtMostOnePrimary(db'.addresses, u))
      && (forall k :: k in db.addresses && db.addresses[k].user != obj.user ==>
            k in db'.addresses && db'.addresses[k] == db.addresses[k])
      && (UniqueUserEmails(db) ==> UniqueUserEmails(db'))
  {
    var db' := SetEmailAsPrimary(db, obj, conditional).db;
    if Switches(db, obj, conditional) {
      var a' := db'.addresses;
      forall k | k in a' && k != obj.pk
        ensures k in db.addresses && a'[k].user == db.addresses[k].user
        ensures db.addresses[k].user == obj.user ==> !a'[k].primary
        ensures db.addresses[k].user != obj.user ==> a'[k] == db.addresses[k]
      {
      }
      forall u ensures AtMostOnePrimary(a', u) {
        forall a, b | IsPrimaryOf(a', a, u) && IsPrimaryOf(a', b, u)
          ensures a == b
        {
          assert a'[obj.pk].user == obj.user;
          if u == obj.user {
            assert a == obj.pk;
            assert b == obj.pk;
          } else {
            assert a != obj.pk && b != obj.pk;
            assert IsPrimaryOf(db.addresses, a, u) && IsPrimaryOf(db.addresses, b, u);
            assert AtMostOnePrimary(db.addresses, u);
          }
          assert a == b;
        }
      }
      if UniqueUserEmails(db) && !EmailHeldByOther(db, obj.user, obj.email) {
        forall u, v | u in db'.users && v in db'.users && u != v
          ensures db'.users[u].email != db'.users[v].email
        {
          if u == obj.user {
            assert db'.users[v] == db.users[v];
          } else if v == obj.user {
            assert db'.users[u] == db.users[u];
          }
        }
      }
    }
  }
}
