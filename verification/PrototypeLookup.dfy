/**
 * `users` is a plain JavaScript object (`const users = {}`), so `users[key]` also finds the
 * properties every object inherits from `Object.prototype`. Two of their names are already lower
 * case, "constructor" and "__proto__", and both hold a truthy value, which the handlers then
 * treat as a stored user. This module models that lookup as written and shows what the handlers
 * answer for those keys; the rest of the model keys a `map`, where such a key is simply absent.
 */
module PrototypeLookup {
  import opened Outcomes
  import opened Text
  import opened Validation
  import opened Accounts

  /** What `users[key]` evaluates to. */
  datatype Property = Own(account: Account) | Inherited | Undefined

  /** The lower-case names of the properties of `Object.prototype`. */
  predicate IsInheritedName(key: string) {
    key == "constructor" || key == "__proto__"
  }

  /**
   * `users[key]` on a plain object: an own property first, then the prototype chain. The
   * handlers only look up lower-cased keys; mixed-case names such as `toString` are out of reach.
   */
  function LookupAsWritten(users: map<string, Account>, key: string): (p: Property)
    requires IsLowerCase(key)
    ensures p.Own? <==> key in users
    ensures p.Own? ==> p.account == users[key]
    ensures p == Undefined <==> key !in users && !IsInheritedName(key)
  {
    if key in users then Own(users[key])
    else if IsInheritedName(key) then Inherited
    else Undefined
  }

  /**
   * `/login` as written: for an inherited property `user.verified` is undefined, so the handler
   * answers `not_verified`. On every other key it answers what `Login` does.
   */
  function LoginAsWritten(users: map<string, Account>, crypt: Crypt, email: Option<string>, password: Option<string>)
    : (r: Result<PublicUser>)
    ensures Truthy(email) && Truthy(password) && ToLower(email.value) !in users && IsInheritedName(ToLower(email.value))
            ==> r == Failure(NotVerified)
    ensures !(Truthy(email) && IsInheritedName(ToLower(email.value)) && ToLower(email.value) !in users)
            ==> r == Login(users, crypt, email, password)
  {
    if !Truthy(email) || !Truthy(password) then Failure(MissingFields)
    else
      match LookupAsWritten(users, ToLower(email.value))
      case Undefined => Failure(UserNotFound)
      case Inherited => Failure(NotVerified)
      case Own(user) =>
        if !user.verified then Failure(NotVerified)
        else if !crypt.compare(password.value + user.salt, user.hash) then Failure(InvalidPassword)
        else Success(PublicUser(user.name, email.value))
  }

  /**
   * The answer of `/verify` as written (`Pass` when the code matches and the record is updated):
   * for an inherited property `user.code` is undefined, which never equals a non-empty code,
   * so the handler answers `invalid_code`.
   */
  function VerifyOutcomeAsWritten(users: map<string, Account>, email: Option<string>, code: Option<string>): (r: Outcome)
    ensures Truthy(email) && Truthy(code) && ToLower(email.value) !in users && IsInheritedName(ToLower(email.value))
            ==> r == Fail(InvalidCode)
    ensures r == Fail(UserNotFound) ==> Truthy(email) && ToLower(email.value) !in users && !IsInheritedName(ToLower(email.value))
  {
    if !Truthy(email) || !Truthy(code) then Fail(MissingFields)
    else
      match LookupAsWritten(users, ToLower(email.value))
      case Undefined => Fail(UserNotFound)
      case Inherited => Fail(InvalidCode)
      case Own(user) => if user.code == Some(code.value) then Pass else Fail(InvalidCode)
  }

  /** No key of a well-formed `users` map is an inherited name: every key contains an `@`. */
  lemma NoStoredInheritedName(users: map<string, Account>, key: string)
    requires WellFormed(users) && IsInheritedName(key)
    ensures key !in users
  {
  }

  /**
   * For every email whose lower case is an inherited name, on any well-formed store: `/login`
   * answers `not_verified` and `/verify` answers `invalid_code`, although no such account exists;
   * the map-keyed model answers `user_not_found` (`Login` here, `CredentialStore.Verify` for verify).
   */
  lemma InheritedKeyLooksRegistered(users: map<string, Account>, crypt: Crypt, email: string, password: string, code: string)
    requires WellFormed(users) && IsInheritedName(ToLower(email)) && password != [] && code != []
    ensures ToLower(email) !in users
    ensures LoginAsWritten(users, crypt, Some(email), Some(password)) == Failure(NotVerified)
    ensures Login(users, crypt, Some(email), Some(password)) == Failure(UserNotFound)
    ensures VerifyOutcomeAsWritten(users, Some(email), Some(code)) == Fail(InvalidCode)
  {
    NoStoredInheritedName(users, ToLower(email));
    assert |ToLower(email)| == |email|;
  }

  /** Such an email exists: "__proto__" is its own lower case. */
  lemma ProtoIsInheritedName()
    ensures IsInheritedName(ToLower("__proto__"))
  {
  }
}
