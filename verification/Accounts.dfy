/**
 * The account records kept in the `users` map, the bcrypt calls they depend on,
 * the invariants every stored record keeps, and `/login`, which only reads the map.
 */
module Accounts {
  import opened Outcomes
  import opened Text
  import opened Validation

  /**
   * bcrypt as the handlers use it: `hash` stands for `hashSync(input, 10)` and `compare` for
   * `compareSync(input, hash)`. bcrypt's own random salt is folded into `hash`.
   */
  datatype Crypt = Crypt(hash: string -> string, compare: (string, string) -> bool)

  /**
   * The one fact assumed of bcrypt: an input compares true against its own hash.
   * Nothing is assumed about other inputs (bcrypt reads only the first 72 bytes).
   */
  ghost predicate Sound(crypt: Crypt) {
    forall input :: crypt.compare(input, crypt.hash(input))
  }

  /** A record of `users`: `{ name, hash, salt, verified, code }`; a null `code` is `None`. */
  datatype Account = Account(name: string, hash: string, salt: string, verified: bool, code: Option<string>)

  /** The `user` object of a successful login reply. */
  datatype PublicUser = PublicUser(name: string, email: string)

  /** A code as `/register` issues it: six decimal digits, the first not zero. */
  predicate IsIssuedCode(code: string) {
    |code| == 6 && AllDigits(code) && code[0] != '0'
  }

  /**
   * What every stored record keeps: it is verified exactly when its code is null,
   * a pending code is an issued one, and the name is not all whitespace (it passed the name check).
   */
  ghost predicate AccountOk(a: Account) {
    (a.verified <==> a.code == None) &&
    (a.code.Some? ==> IsIssuedCode(a.code.value)) &&
    !IsBlank(a.name)
  }

  /** A key of `users` is the lower case of an email that passed `isValidEmail`. */
  ghost predicate KeyOk(key: string) {
    IsLowerCase(key) && IsValidEmail(key)
  }

  /** Every key of `users` is well formed and every record keeps `AccountOk`. */
  ghost predicate WellFormed(users: map<string, Account>) {
    forall key | key in users :: KeyOk(key) && AccountOk(users[key])
  }

  /**
   * The map agrees with the passwords its accounts were registered with: each password passed
   * `isValidPassword`, and each hash is bcrypt's hash of that password followed by the record's salt.
   */
  ghost predicate Consistent(users: map<string, Account>, passwords: map<string, string>, crypt: Crypt) {
    users.Keys == passwords.Keys &&
    forall key | key in users ::
      IsValidPassword(Some(passwords[key])) && users[key].hash == crypt.hash(passwords[key] + users[key].salt)
  }

  /**
   * The lifecycle of one record between two moments: either untouched, or an unverified
   * record verified (`verified` set, `code` cleared) with everything else kept.
   */
  ghost predicate Step(before: Account, after: Account) {
    after == before || (!before.verified && after == before.(verified := true, code := None))
  }

  /** How `users` may change: no key disappears and every record follows its lifecycle. */
  ghost predicate Evolves(before: map<string, Account>, after: map<string, Account>) {
    forall key | key in before :: key in after && Step(before[key], after[key])
  }

  /** A request that leaves the map as it is changes nothing in the lifecycle. */
  lemma EvolvesReflexive(users: map<string, Account>)
    ensures Evolves(users, users)
  {
  }

  /** Inserting a well-formed record under a new key keeps both invariants and is an allowed change. */
  lemma InsertKeepsInvariants(users: map<string, Account>, passwords: map<string, string>, crypt: Crypt,
                              key: string, account: Account, password: string)
    requires WellFormed(users) && Consistent(users, passwords, crypt) && key !in users
    requires KeyOk(key) && AccountOk(account) && IsValidPassword(Some(password))
    requires account.hash == crypt.hash(password + account.salt)
    ensures WellFormed(users[key := account])
    ensures Consistent(users[key := account], passwords[key := password], crypt)
    ensures Evolves(users, users[key := account])
  {
  }

  /** Verifying a record that holds a pending code keeps both invariants and is an allowed change. */
  lemma VerifyKeepsInvariants(users: map<string, Account>, passwords: map<string, string>, crypt: Crypt, key: string)
    requires WellFormed(users) && Consistent(users, passwords, crypt)
    requires key in users && users[key].code.Some?
    ensures var after := users[key := users[key].(verified := true, code := None)];
      WellFormed(after) && Consistent(after, passwords, crypt) && Evolves(users, after)
  {
    assert KeyOk(key) && AccountOk(users[key]);
  }

  /** Changes compose: what several requests do in sequence is again an allowed change. */
  lemma EvolvesTransitive(m0: map<string, Account>, m1: map<string, Account>, m2: map<string, Account>)
    requires Evolves(m0, m1) && Evolves(m1, m2)
    ensures Evolves(m0, m2)
  {
    forall key | key in m0 ensures key in m2 && Step(m0[key], m2[key]) {
      assert Step(m1[key], m2[key]);
    }
  }

  /** Once verified, a record never changes again; in particular it never becomes unverified. */
  lemma VerifiedIsTerminal(before: map<string, Account>, after: map<string, Account>, key: string)
    requires Evolves(before, after) && key in before && before[key].verified
    ensures key in after && after[key] == before[key]
  {
    assert Step(before[key], after[key]);
  }

  /**
   * A stored key is its own lower case, so submitting it as the email (at `/register`,
   * `/verify` or `/login`) reaches that very record.
   */
  lemma StoredKeyIsOwnLowerCase(users: map<string, Account>, key: string)
    requires WellFormed(users) && key in users
    ensures ToLower(key) == key && ToLower(key) in users
  {
    ToLowerFixesLowerCase(key);
  }

  /**
   * `/login`: missing fields, then an unknown user, then an unverified one, then a password
   * that bcrypt rejects; otherwise the stored name and the email exactly as submitted.
   */
  function Login(users: map<string, Account>, crypt: Crypt, email: Option<string>, password: Option<string>)
    : (r: Result<PublicUser>)
    ensures r == Failure(MissingFields) <==> !Truthy(email) || !Truthy(password)
    ensures r == Failure(UserNotFound) <==>
      Truthy(email) && Truthy(password) && ToLower(email.value) !in users
    ensures r == Failure(NotVerified) <==>
      Truthy(email) && Truthy(password) && ToLower(email.value) in users && !users[ToLower(email.value)].verified
    ensures r == Failure(InvalidPassword) <==>
      Truthy(email) && Truthy(password) && ToLower(email.value) in users &&
      var a := users[ToLower(email.value)];
      a.verified && !crypt.compare(password.value + a.salt, a.hash)
    ensures r.Success? <==>
      Truthy(email) && Truthy(password) && ToLower(email.value) in users &&
      var a := users[ToLower(email.value)];
      a.verified && crypt.compare(password.value + a.salt, a.hash)
    ensures r.Success? ==> r.value == PublicUser(users[ToLower(email.value)].name, email.value)
  {
    if !Truthy(email) || !Truthy(password) then Failure(MissingFields)
    else
      var key := ToLower(email.value);
      if key !in users then Failure(UserNotFound)
      else
        var user := users[key];
        if !user.verified then Failure(NotVerified)
        else if !crypt.compare(password.value + user.salt, user.hash) then Failure(InvalidPassword)
        else Success(PublicUser(user.name, email.value))
  }

  /** Logging in before verification fails with `not_verified`, whatever the password. */
  lemma UnverifiedNeverLogsIn(users: map<string, Account>, crypt: Crypt, email: string, password: string)
    requires email != [] && password != []
    requires ToLower(email) in users && !users[ToLower(email)].verified
    ensures Login(users, crypt, Some(email), Some(password)) == Failure(NotVerified)
  {
  }

  /** A verified account whose bcrypt comparison succeeds logs in. */
  lemma VerifiedAccountLogsIn(users: map<string, Account>, crypt: Crypt, email: string, password: string)
    requires email != [] && password != [] && ToLower(email) in users && users[ToLower(email)].verified
    requires crypt.compare(password + users[ToLower(email)].salt, users[ToLower(email)].hash)
    ensures Login(users, crypt, Some(email), Some(password)) == Success(PublicUser(users[ToLower(email)].name, email))
  {
  }

  /**
   * The password round trip: on a consistent map, a verified account accepts the password it was
   * registered with, under any casing of its email, and answers with the email as typed.
   */
  lemma RegisteredPasswordLogsIn(users: map<string, Account>, passwords: map<string, string>, crypt: Crypt, email: string)
    requires Sound(crypt) && Consistent(users, passwords, crypt)
    requires email != [] && ToLower(email) in users && users[ToLower(email)].verified
    ensures Login(users, crypt, Some(email), Some(passwords[ToLower(email)]))
         == Success(PublicUser(users[ToLower(email)].name, email))
  {
    var key := ToLower(email);
    var a := users[key];
    var password := passwords[key];
    assert |password| >= 6 && a.hash == crypt.hash(password + a.salt);
    assert crypt.compare(password + a.salt, a.hash);
    VerifiedAccountLogsIn(users, crypt, email, password);
  }
}
