/**
 * Registration and login (registerUser and loginUser in src/app.js).
 *
 * The `user` table is a map from email to password hash: a row's email is
 * its key, so a second row for the same email cannot be inserted. bcrypt is
 * abstracted as two parameters: `hash` (bcrypt.hash with this call's salt)
 * and `matches` (bcrypt.compare). A failure of the database or of bcrypt is a
 * boolean parameter, since the handlers catch every such error alike.
 */
module Identity {
  import opened Http

  /**
   * What registerUser answers, the user table it leaves behind, and the
   * password bcrypt.hash was called on (None when it was not called).
   */
  datatype Registration = Registration(response: Response, users: map<string, string>,
                                       hashedInput: Option<string>)

  /**
   * registerUser's decision chain: reject a missing field before hashing,
   * otherwise hash the password and insert the row; an insert that fails
   * (the email is already taken, or `insertFault`) is answered with 500.
   */
  function RegisterSpec(users: map<string, string>, email: Option<string>, password: Option<string>,
                        hash: string -> string, insertFault: bool): (reg: Registration)
    ensures reg.response == MissingFields <==> !Present(email) || !Present(password)
    ensures reg.response == ServerError <==>
              Present(email) && Present(password) && (email.value in users || insertFault)
    ensures reg.response == Registered <==>
              Present(email) && Present(password) && email.value !in users && !insertFault
    ensures reg.response == Registered ==> reg.users == users[email.value := hash(password.value)]
    ensures reg.response != Registered ==> reg.users == users
    ensures reg.hashedInput.None? <==> reg.response == MissingFields
    ensures reg.hashedInput.Some? ==> reg.hashedInput.value == password.value
  {
    if !Present(email) || !Present(password) then
      Registration(MissingFields, users, None)
    else
      var hashed := hash(password.value);
      if email.value in users || insertFault then
        Registration(ServerError, users, Some(password.value))
      else
        Registration(Registered, users[email.value := hashed], Some(password.value))
  }

  /**
   * loginUser: a missing field is answered with 400, a failed query with
   * 500, an unknown email and a wrong password alike with 401, and a
   * password that matches the stored hash with 200. Being a function, it
   * leaves the user table as it was.
   */
  function Login(users: map<string, string>, email: Option<string>, password: Option<string>,
                 matches: (string, string) -> bool, queryFault: bool): (r: Response)
    ensures r == MissingFields <==> !Present(email) || !Present(password)
    ensures r == ServerError <==> Present(email) && Present(password) && queryFault
    ensures r == AuthFailed <==>
              Present(email) && Present(password) && !queryFault &&
              (email.value !in users || !matches(password.value, users[email.value]))
    ensures r == LoginOk <==>
              Present(email) && Present(password) && !queryFault &&
              email.value in users && matches(password.value, users[email.value])
  {
    if !Present(email) || !Present(password) then MissingFields
    else if queryFault then ServerError
    else if email.value !in users then AuthFailed
    else if matches(password.value, users[email.value]) then LoginOk
    else AuthFailed
  }

  /** The user table that registerUser inserts into. */
  class UserTable {
    /** email ↦ password hash, one row per email */
    var users: map<string, string>
    /** the passwords bcrypt.hash has been called on, oldest first */
    ghost var hashLog: seq<string>

    constructor (initial: map<string, string>)
      ensures users == initial && hashLog == []
    {
      users := initial;
      hashLog := [];
    }

    /**
     * registerUser: answers as RegisterSpec does, leaves the table RegisterSpec
     * gives, and logs a bcrypt.hash call exactly when RegisterSpec says it hashes.
     */
    method Register(email: Option<string>, password: Option<string>,
                    hash: string -> string, insertFault: bool) returns (r: Response)
      modifies this
      ensures var reg := RegisterSpec(old(users), email, password, hash, insertFault);
              r == reg.response && users == reg.users &&
              hashLog == old(hashLog) + (if reg.hashedInput.Some? then [reg.hashedInput.value] else [])
    {
      if !Present(email) || !Present(password) {
        return MissingFields;
      }
      var hashed := hash(password.value);
      hashLog := hashLog + [password.value];
      if email.value in users || insertFault {
        return ServerError;
      }
      users := users[email.value := hashed];
      r := Registered;
    }
  }

  /** A registration rejected for a missing field calls no hash and changes nothing. */
  lemma RejectionDoesNotHash(users: map<string, string>, email: Option<string>, password: Option<string>,
                             h1: string -> string, h2: string -> string, insertFault: bool)
    requires !Present(email) || !Present(password)
    ensures RegisterSpec(users, email, password, h1, insertFault) ==
            RegisterSpec(users, email, password, h2, insertFault)
            == Registration(MissingFields, users, None)
  {
  }

  /**
   * Registering (e, p) and then logging in with (e, p) succeeds whenever
   * bcrypt.compare accepts p against the hash bcrypt.hash gave for it.
   */
  lemma RegisterThenLogin(users: map<string, string>, e: string, p: string,
                          hash: string -> string, matches: (string, string) -> bool)
    requires e != "" && p != "" && e !in users
    requires matches(p, hash(p))
    ensures var reg := RegisterSpec(users, Some(e), Some(p), hash, false);
            reg.response == Registered &&
            Login(reg.users, Some(e), Some(p), matches, false) == LoginOk
  {
  }

  /** Once an email is registered, registering it again fails and changes nothing. */
  lemma RegisterTwiceFails(users: map<string, string>, e: string, p: string, q: string,
                           h1: string -> string, h2: string -> string, insertFault: bool)
    requires e != "" && p != "" && q != "" && e !in users
    ensures var first := RegisterSpec(users, Some(e), Some(p), h1, false);
            RegisterSpec(first.users, Some(e), Some(q), h2, insertFault) ==
            Registration(ServerError, first.users, Some(q))
  {
  }

  /**
   * No user enumeration: an unknown email and a known email with a wrong
   * password get the same answer.
   */
  lemma UnknownEmailLooksLikeWrongPassword(known: map<string, string>, unknown: map<string, string>,
                                           e: string, p: string, matches: (string, string) -> bool)
    requires e != "" && p != ""
    requires e !in unknown && e in known && !matches(p, known[e])
    ensures Login(unknown, Some(e), Some(p), matches, false) ==
            Login(known, Some(e), Some(p), matches, false) == AuthFailed
  {
  }

  /** Registering an email leaves every other user's row as it was. */
  lemma RegisterKeepsOtherRows(users: map<string, string>, email: Option<string>, password: Option<string>,
                               hash: string -> string, insertFault: bool, other: string)
    requires other in users && (email.Some? ==> other != email.value)
    ensures var reg := RegisterSpec(users, email, password, hash, insertFault);
            other in reg.users && reg.users[other] == users[other]
  {
  }
}
