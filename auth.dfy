/** The sign-in form: its submit handler (ordered input checks, then log in or sign up
    against the shared account list) and the link that switches between the two modes. */
module Auth {
  import opened EmailPattern
  import opened Credentials

  const MinPasswordLength: nat := 8

  /** How one submit ends. */
  datatype Outcome =
    | MissingFields
    | InvalidEmail
    | ShortPassword
    | LoggedIn
    | BadCredentials
    | EmailTaken
    | SignedUp
  {
    predicate Succeeded() {
      this == LoggedIn || this == SignedUp
    }
  }

  /** The text the form shows in its error box after a submit with this outcome. */
  function ErrorText(o: Outcome): (r: string)
    ensures r != "" <==> !o.Succeeded()
  {
    match o
    case MissingFields => "Please fill in all fields"
    case InvalidEmail => "Please enter a valid email address"
    case ShortPassword => "Password must be at least 8 characters long"
    case BadCredentials => "Invalid email or password"
    case EmailTaken => "Email already registered"
    case LoggedIn => ""
    case SignedUp => ""
  }

  /** The text the form shows in its success box after a submit with this outcome. */
  function SuccessText(o: Outcome): (r: string)
    ensures r != "" <==> o.Succeeded()
  {
    match o
    case LoggedIn => "Login successful!"
    case SignedUp => "Account created successfully! Please login."
    case _ => ""
  }

  /** The three input checks all pass. */
  predicate InputAccepted(email: string, password: string) {
    email != "" && password != "" && IsValidEmail(email) && |password| >= MinPasswordLength
  }

  /** The outcome of a submit: the input checks in their fixed order (first failure
      wins), then the branch of the current mode against the account list. */
  function Decide(isLogin: bool, email: string, password: string, users: seq<User>): (o: Outcome)
    ensures o.Succeeded() ==> InputAccepted(email, password)
    ensures isLogin ==> o != SignedUp && o != EmailTaken
    ensures !isLogin ==> o != LoggedIn && o != BadCredentials
    ensures o == LoggedIn <==> isLogin && InputAccepted(email, password) && User(email, password) in users
    ensures o == SignedUp <==>
      !isLogin && InputAccepted(email, password) && forall u :: u in users ==> u.email != email
  {
    if email == "" || password == "" then MissingFields
    else if !IsValidEmail(email) then InvalidEmail
    else if |password| < MinPasswordLength then ShortPassword
    else if isLogin then
      if FindCredentials(users, email, password).Some? then LoggedIn else BadCredentials
    else if EmailRegistered(users, email) then EmailTaken
    else SignedUp
  }

  /** The account list after a submit with outcome `o`: only a sign-up grows it. */
  function UsersAfter(o: Outcome, users: seq<User>, email: string, password: string): (r: seq<User>)
    ensures |r| == |users| + (if o == SignedUp then 1 else 0)
    ensures r[..|users|] == users
    ensures o == SignedUp ==> r[|users|] == User(email, password)
  {
    if o == SignedUp then users + [User(email, password)] else users
  }

  /** Only the first failing check is reported: an empty field hides a malformed
      address, and a malformed address hides a short password. */
  lemma ValidationOrder(isLogin: bool, email: string, password: string, users: seq<User>)
    ensures var o := Decide(isLogin, email, password, users);
      (o == MissingFields <==> email == "" || password == "") &&
      (o == InvalidEmail <==> email != "" && password != "" && !IsValidEmail(email)) &&
      (o == ShortPassword <==>
         email != "" && password != "" && IsValidEmail(email) && |password| < MinPasswordLength) &&
      (!InputAccepted(email, password) ==> UsersAfter(o, users, email, password) == users)
  {
  }

  /** In login mode with acceptable input, the form logs in exactly when the list holds
      an entry with both this address and this password; otherwise it reports bad
      credentials. Logging in never changes the list. */
  lemma LoginSucceedsIff(email: string, password: string, users: seq<User>)
    requires InputAccepted(email, password)
    ensures Decide(true, email, password, users) == LoggedIn <==>
      exists k :: 0 <= k < |users| && users[k].email == email && users[k].password == password
    ensures Decide(true, email, password, users) in {LoggedIn, BadCredentials}
    ensures UsersAfter(Decide(true, email, password, users), users, email, password) == users
  {
  }

  /** In sign-up mode with acceptable input, the form signs up exactly when no entry
      carries the address, whatever its password; a sign-up appends exactly one entry
      at the end, and a refused one leaves the list as it was. */
  lemma SignUpSucceedsIff(email: string, password: string, users: seq<User>)
    requires InputAccepted(email, password)
    ensures var o := Decide(false, email, password, users);
      o in {SignedUp, EmailTaken} &&
      (o == SignedUp <==> forall k :: 0 <= k < |users| ==> users[k].email != email) &&
      (o == SignedUp ==> UsersAfter(o, users, email, password) == users + [User(email, password)]) &&
      (o == EmailTaken ==> UsersAfter(o, users, email, password) == users)
  {
  }

  /** Signing up and then logging in with the same address and password succeeds. */
  lemma SignUpThenLogIn(email: string, password: string, users: seq<User>)
    requires Decide(false, email, password, users) == SignedUp
    ensures Decide(true, email, password, UsersAfter(SignedUp, users, email, password)) == LoggedIn
  {
  }

  /** After a sign-up, a second sign-up with the same address is refused, whatever
      password it gives: one of at least 8 characters is reported as a taken address,
      a shorter one as a short password. */
  lemma SignUpTwiceRefused(email: string, password: string, other: string, users: seq<User>)
    requires Decide(false, email, password, users) == SignedUp
    ensures Decide(false, email, other, UsersAfter(SignedUp, users, email, password)) != SignedUp
    ensures |other| >= MinPasswordLength ==>
      Decide(false, email, other, UsersAfter(SignedUp, users, email, password)) == EmailTaken
  {
  }

  /** Whatever the mode and the input, a submit keeps the addresses of the list distinct. */
  lemma SubmitKeepsEmailsDistinct(isLogin: bool, email: string, password: string, users: seq<User>)
    requires DistinctEmails(users)
    ensures DistinctEmails(UsersAfter(Decide(isLogin, email, password, users), users, email, password))
  {
  }

  /** The demo account can log in from a fresh list. */
  lemma DemoUserLogsIn()
    ensures Decide(true, "user@example.com", "securePassword123", DemoUsers) == LoggedIn
  {
    DemoAddressIsValid();
    assert DemoUsers[0] == User("user@example.com", "securePassword123");
  }

  /** One mounted sign-in form. `authenticated` is the flag the parent hands in through
      `setIsAuthenticated`; `store` is the account list every form shares. */
  class AuthForm {
    var isLogin: bool
    var email: string
    var password: string
    var error: string
    var successMessage: string
    var authenticated: bool
    const store: UserStore

    /** At most one message box is showing, and the account list never holds an
        address twice. */
    ghost predicate Valid()
      reads this, store
    {
      (error == "" || successMessage == "") && DistinctEmails(store.users)
    }

    /** A freshly mounted form: login mode, empty inputs, no messages. */
    constructor (store: UserStore, authenticated: bool)
      requires DistinctEmails(store.users)
      ensures Valid()
      ensures this.store == store && this.authenticated == authenticated
      ensures isLogin && email == "" && password == "" && error == "" && successMessage == ""
    {
      this.store := store;
      this.authenticated := authenticated;
      isLogin := true;
      email := "";
      password := "";
      error := "";
      successMessage := "";
    }

    /** Typing into the address field. */
    method SetEmail(value: string)
      requires Valid()
      modifies this`email
      ensures Valid() && email == value
    {
      email := value;
    }

    /** Typing into the password field. */
    method SetPassword(value: string)
      requires Valid()
      modifies this`password
      ensures Valid() && password == value
    {
      password := value;
    }

    /** The "Sign Up" / "Login" link: flips the mode, clears both messages and
        touches nothing else. */
    method Toggle()
      requires Valid()
      modifies this`isLogin, this`error, this`successMessage
      ensures Valid()
      ensures isLogin == !old(isLogin) && error == "" && successMessage == ""
      ensures email == old(email) && password == old(password) && authenticated == old(authenticated)
    {
      isLogin := !isLogin;
      error := "";
      successMessage := "";
    }

    /** The submit handler. Afterwards exactly one message is showing, the one of
        `Decide` on the state before the submit; a sign-up appends the entry, switches
        to login mode and clears both inputs; a log-in raises `authenticated`;
        every other outcome changes nothing but the messages. */
    method Submit()
      requires Valid()
      modifies this, store
      ensures Valid()
      ensures var o := Decide(old(isLogin), old(email), old(password), old(store.users));
        error == ErrorText(o) && successMessage == SuccessText(o) &&
        (error == "") != (successMessage == "") &&
        store.users == UsersAfter(o, old(store.users), old(email), old(password)) &&
        authenticated == (old(authenticated) || o == LoggedIn) &&
        isLogin == (old(isLogin) || o == SignedUp) &&
        (if o == SignedUp then email == "" && password == ""
         else email == old(email) && password == old(password))
    {
      error := "";
      successMessage := "";

      if email == "" || password == "" {
        error := "Please fill in all fields";
        return;
      }

      if !IsValidEmail(email) {
        error := "Please enter a valid email address";
        return;
      }

      if |password| < MinPasswordLength {
        error := "Password must be at least 8 characters long";
        return;
      }

      if isLogin {
        var user := FindCredentials(store.users, email, password);
        if user.Some? {
          successMessage := "Login successful!";
          authenticated := true;
        } else {
          error := "Invalid email or password";
        }
      } else {
        var userExists := EmailRegistered(store.users, email);
        if userExists {
          error := "Email already registered";
        } else {
          AppendUnregistered(store.users, User(email, password));
          store.Push(User(email, password));
          successMessage := "Account created successfully! Please login.";
          isLogin := true;
          email := "";
          password := "";
        }
      }
    }
  }
}
