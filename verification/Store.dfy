/**
 * The in-memory `users` object and the two handlers that change it: `/register` inserts a
 * record, `/verify` flips `verified` and clears `code` on one record.
 */
module Store {
  import opened Outcomes
  import opened Text
  import opened Validation
  import opened Accounts

  /**
   * The code `/register` issues for the random draw `n`, i.e. the decimal `toString` of
   * `Math.floor(100000 + Math.random() * 899999)`; since `Math.random() < 1`, `n` never exceeds 999998.
   */
  function IssueCode(n: nat): (code: string)
    requires 100000 <= n <= 999998
    ensures IsIssuedCode(code) && ParseDecimal(code) == n
  {
    assert Pow10(6) == 1000000 && Pow10(5) == 100000;
    DecimalLength(n, 6);
    DecimalString(n)
  }

  /**
   * The checks of `/register` in the handler's order: a name, a valid email, a strong enough
   * password, a key not yet taken. The first that fails is the answer; `None` when all pass.
   */
  function RegisterRejection(users: map<string, Account>, name: Option<string>, email: Option<string>,
                             password: Option<string>): (e: Option<Error>)
    ensures e.None? ==>
      name.Some? && !IsBlank(name.value) && email.Some? && IsValidEmail(email.value) && IsValidEmail(ToLower(email.value)) &&
      password.Some? && |password.value| >= 6 && ToLower(email.value) !in users
  {
    if !NamePresent(name) then Some(NameRequired)
    else if !EmailAccepted(email) then Some(InvalidEmail)
    else if !IsValidPassword(password) then Some(WeakPassword)
    else if ToLower(email.value) in users then Some(EmailExists)
    else
      NamePresentIff(name);
      ToLowerKeepsEmailValid(email.value);
      None
  }

  /**
   * The order of the checks: each error is answered exactly when every earlier check passed and
   * its own failed, so `name_required` beats `invalid_email`, which beats `weak_password`, which
   * beats `email_exists`; and a request that passes all four is not rejected, so it is stored.
   */
  lemma RegisterCheckOrder(users: map<string, Account>, name: Option<string>, email: Option<string>, password: Option<string>)
    ensures var e := RegisterRejection(users, name, email, password);
      (e == Some(NameRequired) <==> !NamePresent(name)) &&
      (e == Some(InvalidEmail) <==> NamePresent(name) && !EmailAccepted(email)) &&
      (e == Some(WeakPassword) <==> NamePresent(name) && EmailAccepted(email) && !IsValidPassword(password)) &&
      (e == Some(EmailExists) <==>
        NamePresent(name) && EmailAccepted(email) && IsValidPassword(password) && ToLower(email.value) in users) &&
      (e == None <==>
        NamePresent(name) && EmailAccepted(email) && IsValidPassword(password) && ToLower(email.value) !in users)
  {
  }

  /** The `users` map together with the bcrypt implementation the handlers call. */
  class CredentialStore {
    /** `users`: lower-cased email to record. */
    var users: map<string, Account>
    /** The password each account was registered with; kept only to state what login accepts. */
    ghost var Passwords: map<string, string>
    const crypt: Crypt

    ghost predicate Valid()
      reads this
    {
      Sound(crypt) && WellFormed(users) && Consistent(users, Passwords, crypt)
    }

    /** The server starts with `const users = {}`. */
    constructor (crypt: Crypt)
      requires Sound(crypt)
      ensures Valid() && this.crypt == crypt && users == map[]
    {
      this.crypt := crypt;
      users := map[];
      Passwords := map[];
    }

    /**
     * `/register`: the checks in their fixed order, then an unverified record under the lower-cased
     * email carrying a fresh code, which is returned as `demoCode`. `salt` stands for
     * `genSaltSync(10)` and `n` for the random draw of the code. Mail delivery is not modelled:
     * its failure never fails the request.
     */
    method Register(name: Option<string>, email: Option<string>, password: Option<string>, salt: string, n: nat)
      returns (r: Result<string>)
      requires Valid() && 100000 <= n <= 999998
      modifies this
      ensures Valid()
      ensures r.Failure? <==> RegisterRejection(old(users), name, email, password).Some?
      ensures r.Failure? ==>
        RegisterRejection(old(users), name, email, password) == Some(r.error) &&
        users == old(users) && Passwords == old(Passwords)
      ensures r.Success? ==>
        var key := ToLower(email.value);
        r.value == IssueCode(n) &&
        users == old(users)[key := Account(name.value, crypt.hash(password.value + salt), salt, false, Some(r.value))] &&
        Passwords == old(Passwords)[key := password.value]
      ensures Evolves(old(users), users)
    {
      EvolvesReflexive(users);
      var rejection := RegisterRejection(users, name, email, password);
      if rejection.Some? {
        return Failure(rejection.value);
      }
      var key := ToLower(email.value);
      var hash := crypt.hash(password.value + salt);
      var code := IssueCode(n);
      Insert(key, Account(name.value, hash, salt, false, Some(code)), password.value);
      r := Success(code);
    }

    /** `users[key] = { name, hash, salt, verified: false, code }` for a key not yet taken. */
    method Insert(key: string, account: Account, ghost password: string)
      requires Valid() && key !in users
      requires KeyOk(key) && AccountOk(account) && IsValidPassword(Some(password))
      requires account.hash == crypt.hash(password + account.salt)
      modifies this
      ensures Valid()
      ensures users == old(users)[key := account] && Passwords == old(Passwords)[key := password]
      ensures Evolves(old(users), users)
    {
      InsertKeepsInvariants(users, Passwords, crypt, key, account, password);
      users := users[key := account];
      Passwords := Passwords[key := password];
    }

    /**
     * `/verify`: missing fields, then an unknown user, then a code that is not the stored one;
     * the stored code itself marks the record verified and clears its code, and nothing else changes.
     */
    method Verify(email: Option<string>, code: Option<string>) returns (r: Outcome)
      requires Valid()
      modifies this
      ensures Valid() && Passwords == old(Passwords)
      ensures !Truthy(email) || !Truthy(code) ==> r == Fail(MissingFields)
      ensures Truthy(email) && Truthy(code) && ToLower(email.value) !in old(users) ==> r == Fail(UserNotFound)
      ensures Truthy(email) && Truthy(code) && ToLower(email.value) in old(users) ==>
        var key := ToLower(email.value);
        if old(users)[key].code == Some(code.value) then
          r == Pass && users == old(users)[key := old(users)[key].(verified := true, code := None)]
        else
          r == Fail(InvalidCode)
      ensures r.Fail? ==> users == old(users)
      ensures Evolves(old(users), users)
      ensures (Truthy(email) && Truthy(code) && ToLower(email.value) in old(users) &&
               old(users)[ToLower(email.value)].verified) ==> r == Fail(InvalidCode)
    {
      EvolvesReflexive(users);
      if !Truthy(email) || !Truthy(code) {
        return Fail(MissingFields);
      }
      var key := ToLower(email.value);
      if key !in users {
        return Fail(UserNotFound);
      }
      var user := users[key];
      assert user.verified ==> user.code == None;
      if user.code == Some(code.value) {
        MarkVerified(key);
        return Pass;
      }
      return Fail(InvalidCode);
    }

    /** `user.verified = true; user.code = null;` on the record under `key`, which holds a pending code. */
    method MarkVerified(key: string)
      requires Valid() && key in users && users[key].code.Some?
      modifies this
      ensures Valid() && Passwords == old(Passwords)
      ensures users == old(users)[key := old(users)[key].(verified := true, code := None)]
      ensures Evolves(old(users), users)
    {
      VerifyKeepsInvariants(users, Passwords, crypt, key);
      users := users[key := users[key].(verified := true, code := None)];
    }
  }

  /**
   * The password round trip through all three handlers: register, verify with the issued code
   * under one casing of the email, log in under another; login answers with the registered name
   * and the email as typed at login.
   */
  method RegisterVerifyLogin(store: CredentialStore, name: string, email: string, password: string,
                             verifyEmail: string, loginEmail: string, salt: string, n: nat)
    returns (r: Result<PublicUser>)
    requires store.Valid() && 100000 <= n <= 999998
    requires NamePresent(Some(name)) && IsValidEmail(email) && IsValidPassword(Some(password))
    requires ToLower(email) !in store.users
    requires ToLower(verifyEmail) == ToLower(email) && ToLower(loginEmail) == ToLower(email)
    modifies store
    ensures store.Valid()
    ensures r == Success(PublicUser(name, loginEmail))
  {
    var registered := store.Register(Some(name), Some(email), Some(password), salt, n);
    assert |verifyEmail| == |email| && |loginEmail| == |email|;
    var verified := store.Verify(Some(verifyEmail), Some(registered.value));
    RegisteredPasswordLogsIn(store.users, store.Passwords, store.crypt, loginEmail);
    r := Login(store.users, store.crypt, Some(loginEmail), Some(password));
  }
}
