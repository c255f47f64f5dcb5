/** Account registration (POST /api/auth/register): an ordered validator
    followed by one INSERT. The password hash is a parameter standing for
    bcrypt; the model never inspects it. */
module Register {
  import opened Common
  import opened Store
  import Text

  const MinPasswordLength := 6
  const DefaultCurrency := "USD"
  const DefaultLanguage := "english"

  /** The JSON body; None is an absent or `null` field. */
  datatype RegisterRequest = RegisterRequest(
    firstName: Option<string>,
    lastName: Option<string>,
    email: Option<string>,
    password: Option<string>)

  datatype RegisterError =
    | FieldsRequired     // 400 "All fields are required"
    | PasswordTooShort   // 400 "Password must be at least 6 characters long"
    | EmailTaken         // 400 "User with this email already exists"
    | InsertFailed       // 500 "Failed to create user"

  /** The public part of the new account: the RETURNING id, email,
      first_name, last_name columns. The password hash is not among them. */
  datatype PublicUser = PublicUser(id: int, email: string, firstName: string, lastName: string)

  datatype RegisterOutcome = Registered(user: PublicUser) | RegisterRejected(error: RegisterError)

  function RegisterStatus(o: RegisterOutcome): (code: int)
    ensures o.Registered? <==> code == 201
    ensures o == RegisterRejected(InsertFailed) <==> code == 500
    ensures code == 201 || code == 400 || code == 500
  {
    match o
    case Registered(_) => 201
    case RegisterRejected(InsertFailed) => 500
    case RegisterRejected(_) => 400
  }

  predicate Given(v: Option<string>) {
    v.Some? && v.value != ""
  }

  predicate AllGiven(req: RegisterRequest) {
    Given(req.firstName) && Given(req.lastName) && Given(req.email) && Given(req.password)
  }

  predicate EmailInUse(users: seq<User>, email: string) {
    exists i :: 0 <= i < |users| && users[i].email == email
  }

  /** `password.length < 6`, counting UTF-16 code units as JavaScript does. */
  predicate PasswordTooShortFor(req: RegisterRequest)
    requires AllGiven(req)
  {
    Text.Utf16Length(req.password.value) < MinPasswordLength
  }

  /** POST /api/auth/register. `hash` is the bcrypt step. The new row takes
      its id from the users sequence; when a row with that id already exists
      (one inserted with an explicit id by the booking fallback) the INSERT
      fails on the primary key, after the sequence has advanced. */
  function RegisterUser(s: Store, req: RegisterRequest, hash: string -> string): (r: (RegisterOutcome, Store))
    // the checks run in order; each rejection leaves the store as it was
    ensures !AllGiven(req) <==> r.0 == RegisterRejected(FieldsRequired)
    ensures AllGiven(req) && PasswordTooShortFor(req) <==> r.0 == RegisterRejected(PasswordTooShort)
    ensures AllGiven(req) && !PasswordTooShortFor(req) && EmailInUse(s.users, req.email.value) <==>
      r.0 == RegisterRejected(EmailTaken)
    // a request past the checks is inserted unless the sequence's next id is taken
    ensures AllGiven(req) && !PasswordTooShortFor(req) && !EmailInUse(s.users, req.email.value) ==>
      (r.0 == RegisterRejected(InsertFailed) <==> HasUser(s.users, s.nextUserId))
    ensures r.0.Registered? <==>
      AllGiven(req) && !PasswordTooShortFor(req) && !EmailInUse(s.users, req.email.value)
      && !HasUser(s.users, s.nextUserId)
    ensures r.0.RegisterRejected? && r.0.error != InsertFailed ==> r.1 == s
    ensures r.0 == RegisterRejected(InsertFailed) ==> r.1 == s.(nextUserId := s.nextUserId + 1)
    // success: exactly one user added, with the next id of the sequence, the
    // submitted names and e-mail, the hashed password and the fixed preferences
    ensures r.0.Registered? ==>
      && r.0.user.id == s.nextUserId
      && r.1 == s.(users := r.1.users, nextUserId := s.nextUserId + 1)
      && |r.1.users| == |s.users| + 1
      && r.1.users[..|s.users|] == s.users
      && var u := r.1.users[|s.users|];
         && u.id == r.0.user.id
         && u.email == req.email.value && r.0.user.email == u.email
         && u.firstName == req.firstName.value && r.0.user.firstName == u.firstName
         && u.lastName == req.lastName.value && r.0.user.lastName == u.lastName
         && u.password == Some(hash(req.password.value))
         && u.preferredCurrency == "USD" && u.preferredLanguage == "english"
  {
    if !AllGiven(req) then (RegisterRejected(FieldsRequired), s)
    else if PasswordTooShortFor(req) then (RegisterRejected(PasswordTooShort), s)
    else if EmailInUse(s.users, req.email.value) then (RegisterRejected(EmailTaken), s)
    else
      var id := s.nextUserId;
      var s1 := s.(nextUserId := id + 1);
      if HasUser(s.users, id) then (RegisterRejected(InsertFailed), s1)
      else
        var u := User(id, req.email.value, req.firstName.value, req.lastName.value, None, None, None,
                      DefaultCurrency, DefaultLanguage, Some(hash(req.password.value)));
        (Registered(PublicUser(id, u.email, u.firstName, u.lastName)), s1.(users := s.users + [u]))
  }

  /** For a password of characters up to U+FFFF the check is on the
      number of characters. */
  lemma BmpPasswordLength(req: RegisterRequest)
    requires AllGiven(req)
    requires forall i :: 0 <= i < |req.password.value| ==> req.password.value[i] as int <= 0xFFFF
    ensures PasswordTooShortFor(req) <==> |req.password.value| < MinPasswordLength
  {
    Text.BmpLength(req.password.value);
  }

  /** Three characters above U+FFFF (three emoji, say) are six code units,
      so such a password passes the length check. */
  lemma ThreeAstralCharactersSuffice(req: RegisterRequest)
    requires AllGiven(req) && |req.password.value| == 3
    requires forall i :: 0 <= i < 3 ==> req.password.value[i] as int > 0xFFFF
    ensures !PasswordTooShortFor(req)
  {
    Text.AstralLength(req.password.value);
  }

  /** Registering the same e-mail twice: the second attempt is refused
      whatever its other fields, and changes nothing. */
  lemma SecondRegistrationRejected(s: Store, first: RegisterRequest, second: RegisterRequest,
                                   hash: string -> string)
    requires RegisterUser(s, first, hash).0.Registered?
    requires AllGiven(second) && !PasswordTooShortFor(second)
    requires second.email == first.email
    ensures var s1 := RegisterUser(s, first, hash).1;
      RegisterUser(s1, second, hash) == (RegisterRejected(EmailTaken), s1)
  {
    var s1 := RegisterUser(s, first, hash).1;
    assert s1.users[|s.users|].email == second.email.value;
  }

  /** Registration never creates a second account for an e-mail address:
      if e-mails were unique before, they are unique after. */
  lemma RegisterKeepsEmailsUnique(s: Store, req: RegisterRequest, hash: string -> string)
    requires forall i, j :: 0 <= i < j < |s.users| ==> s.users[i].email != s.users[j].email
    ensures var s' := RegisterUser(s, req, hash).1;
      forall i, j :: 0 <= i < j < |s'.users| ==> s'.users[i].email != s'.users[j].email
  {
    var (o, s') := RegisterUser(s, req, hash);
    if o.Registered? {
      forall i, j | 0 <= i < j < |s'.users|
        ensures s'.users[i].email != s'.users[j].email
      {
        if j == |s.users| {
          assert s'.users[i] == s.users[i];
        } else {
          assert s'.users[i] == s.users[i] && s'.users[j] == s.users[j];
        }
      }
    }
  }
}
