/**
 * Registration, login and logout (the auth blueprint) over the user table
 * and the session's signed-in user. Password hashing is a salted one-way
 * function the model does not look inside: the store is built with it.
 */
module Auth {
  import opened Options
  import opened Text
  import opened Web

  const RegularRole: string := "regular"
  const AdminRole: string := "admin"

  const FieldsRequired: string := "All fields are required."
  const EmailTaken: string := "Email is already registered."
  const BadCredentials: string := "Invalid email or password."

  /** A stored password: the salt and the digest the hash function gave for it. */
  datatype PasswordHash = PasswordHash(salt: string, digest: string)

  datatype User = User(name: string, email: string, password: PasswordHash, role: string)

  /** Where a successful login redirects: the landing page or the `next` argument. */
  datatype Target = Landing | Url(path: string)

  datatype AuthOutcome =
    | AlreadySignedIn              // redirect to the landing page, nothing done
    | Rejected(message: string)    // form re-rendered with this flashed message
    | Registered(id: nat)          // user created, redirect to the login page
    | SignedIn(id: nat, next: Target)
    | NotSignedIn                  // @login_required on logout: redirect to the login page
    | SignedOut

  /** User.set_password: the salt is kept beside the digest, so a check can hash again with it. */
  function HashPassword(kdf: (string, string) -> string, salt: string, password: string): (h: PasswordHash)
    ensures h.salt == salt
  {
    PasswordHash(salt, kdf(salt, password))
  }

  /** User.check_password: a password passes exactly when hashing it with the stored salt gives the stored hash. */
  function CheckPassword(kdf: (string, string) -> string, stored: PasswordHash, password: string): (ok: bool)
    ensures ok <==> HashPassword(kdf, stored.salt, password) == stored
  {
    kdf(stored.salt, password) == stored.digest
  }

  /** A password always checks against its own hash, whatever the salt. */
  lemma HashThenCheck(kdf: (string, string) -> string, salt: string, password: string)
    ensures CheckPassword(kdf, HashPassword(kdf, salt, password), password)
  {
  }

  /** `(form.get("email") or "").strip().lower()`. */
  function NormalizeEmail(raw: Option<string>): (email: string)
    ensures Trimmed(email) && NoUpper(email)
  {
    var t := Field(raw);
    LowerKeepsTrimmed(t);
    LowerNormalizes(t);
    Lower(t)
  }

  /** Normalising an already normalised address changes nothing. */
  lemma NormalizeEmailIdempotent(raw: Option<string>)
    ensures NormalizeEmail(Some(NormalizeEmail(raw))) == NormalizeEmail(raw)
  {
    var e := NormalizeEmail(raw);
    StripKeepsTrimmed(e);
    LowerNormalizes(Field(raw));
  }

  /** `request.args.get("next") or url_for("main.index")`; the path is not checked. */
  function NextTarget(next: Option<string>): (t: Target)
    ensures next.Some? && next.value != "" ==> t == Url(next.value)
    ensures next.None? || next.value == "" ==> t == Landing
  {
    if next.Some? && next.value != "" then Url(next.value) else Landing
  }

  ghost predicate UniqueEmails(users: map<nat, User>) {
    forall a, b :: a in users && b in users && users[a].email == users[b].email ==> a == b
  }

  /** Adding a user under an unused address keeps addresses unique. */
  lemma AddKeepsUnique(users: map<nat, User>, id: nat, u: User)
    requires UniqueEmails(users) && id !in users
    requires forall other :: other in users ==> users[other].email != u.email
    ensures UniqueEmails(users[id := u])
  {
  }

  ghost predicate HasEmail(users: map<nat, User>, email: string) {
    exists id :: id in users && users[id].email == email
  }

  ghost predicate CanSignIn(kdf: (string, string) -> string, users: map<nat, User>, email: string, password: string) {
    exists id :: id in users && users[id].email == email && CheckPassword(kdf, users[id].password, password)
  }

  class UserStore {
    const kdf: (string, string) -> string
    var users: map<nat, User>
    var nextId: nat
    /** The id of the signed-in user, if any. */
    var session: Option<nat>

    ghost predicate Valid()
      reads this
    {
      && (forall id :: id in users ==> id < nextId)
      && UniqueEmails(users)
      && (forall id :: id in users ==> users[id].role == RegularRole || users[id].role == AdminRole)
      && (session.Some? ==> session.value in users)
    }

    constructor (kdf: (string, string) -> string)
      ensures Valid() && this.kdf == kdf
      ensures users == map[] && session == None
    {
      this.kdf := kdf;
      users := map[];
      nextId := 0;
      session := None;
    }

    /** `User.query.filter_by(email=email).first()`. */
    method FindByEmail(email: string) returns (found: Option<nat>)
      ensures found.Some? ==> found.value in users && users[found.value].email == email
      ensures found.None? ==> forall id :: id in users ==> users[id].email != email
    {
      var rest := users.Keys;
      while rest != {}
        invariant rest <= users.Keys
        invariant forall id :: id in users.Keys - rest ==> users[id].email != email
        decreases rest
      {
        var id :| id in rest;
        if users[id].email == email {
          return Some(id);
        }
        rest := rest - {id};
      }
      return None;
    }

    /** POST /auth/register. */
    method Register(name: Option<string>, email: Option<string>, password: Option<string>, salt: string)
      returns (outcome: AuthOutcome)
      requires Valid()
      modifies this
      ensures Valid() && session == old(session)
      ensures old(session).Some? ==> outcome == AlreadySignedIn && users == old(users)
      ensures old(session).None? ==>
        var n, e, p := Field(name), NormalizeEmail(email), OrEmpty(password);
        if n == [] || e == [] || p == [] then
          outcome == Rejected(FieldsRequired) && users == old(users)
        else if HasEmail(old(users), e) then
          outcome == Rejected(EmailTaken) && users == old(users)
        else
          && outcome.Registered?
          && outcome.id !in old(users)
          && users == old(users)[outcome.id := User(n, e, HashPassword(kdf, salt, p), RegularRole)]
    {
      if session.Some? {
        return AlreadySignedIn;
      }
      var n := Field(name);
      var e := NormalizeEmail(email);
      var p := OrEmpty(password);
      if n == [] || e == [] || p == [] {
        return Rejected(FieldsRequired);
      }
      var existing := FindByEmail(e);
      if existing.Some? {
        return Rejected(EmailTaken);
      }
      var id := nextId;
      var user := User(n, e, HashPassword(kdf, salt, p), RegularRole);
      AddKeepsUnique(users, id, user);
      assert !HasEmail(users, e);
      users := users[id := user];
      nextId := nextId + 1;
      outcome := Registered(id);
    }

    /** POST /auth/login. */
    method Login(email: Option<string>, password: Option<string>, next: Option<string>)
      returns (outcome: AuthOutcome)
      requires Valid()
      modifies this`session
      ensures Valid()
      ensures old(session).Some? ==> outcome == AlreadySignedIn && session == old(session)
      ensures old(session).None? ==>
        var e, p := NormalizeEmail(email), OrEmpty(password);
        && (outcome.SignedIn? <==> CanSignIn(kdf, users, e, p))
        && (outcome.SignedIn? ==>
              && outcome.id in users && users[outcome.id].email == e
              && CheckPassword(kdf, users[outcome.id].password, p)
              && outcome.next == NextTarget(next)
              && session == Some(outcome.id))
        && (!outcome.SignedIn? ==> outcome == Rejected(BadCredentials) && session == None)
    {
      if session.Some? {
        return AlreadySignedIn;
      }
      var e := NormalizeEmail(email);
      var p := OrEmpty(password);
      var found := FindByEmail(e);
      if found.None? || !CheckPassword(kdf, users[found.value].password, p) {
        // with unique e-mails the user found is the only candidate
        return Rejected(BadCredentials);
      }
      session := found;
      outcome := SignedIn(found.value, NextTarget(next));
    }

    /** GET /auth/logout. */
    method Logout() returns (outcome: AuthOutcome)
      requires Valid()
      modifies this`session
      ensures Valid() && session == None
      ensures outcome == if old(session).Some? then SignedOut else NotSignedIn
    {
      if session.None? {
        return NotSignedIn;
      }
      session := None;
      outcome := SignedOut;
    }
  }

  /**
   * A fresh registration can sign in with the same credentials, lands on the
   * landing page, and a second registration with the same address is refused.
   */
  method RegisterThenSignIn(kdf: (string, string) -> string, name: string, email: string, password: string, salt: string)
    returns (first: AuthOutcome, again: AuthOutcome, login: AuthOutcome)
    requires Field(Some(name)) != [] && NormalizeEmail(Some(email)) != [] && password != []
    ensures first.Registered?
    ensures again == Rejected(EmailTaken)
    ensures login.SignedIn? && login.id == first.id && login.next == Landing
  {
    var store := new UserStore(kdf);
    first := store.Register(Some(name), Some(email), Some(password), salt);
    again := store.Register(Some("someone else"), Some(email), Some(password), salt);
    HashThenCheck(kdf, salt, password);
    login := store.Login(Some(email), Some(password), None);
  }
}
