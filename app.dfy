/**
 * The session and authentication logic of app.py.
 *
 * The Flask session is a map from keys to values; the current user (`g.user`)
 * is derived from it before each request.  Each route handler decides between
 * rendering a page, redirecting with a flashed message, or answering 404; the
 * model returns that decision as an `Outcome` and updates the session and the
 * `users` table in place.
 */
module App {
  import opened Wrappers
  import Models
  import Forms

  /** The session key under which the logged-in user's id is stored. */
  const CurrUserKey := "user"

  const DangerCategory := "danger"
  const SuccessCategory := "success"
  const UnauthorizedGateMessage := "Unauthorized."
  const UnauthorizedLogoutMessage := "Unauthorized"
  const AlreadyInUseMessage := "Username or email already in use."
  const InvalidCredentialsMessage := "Invalid credentials."
  const LoggedOutMessage := "Logged out"

  /** Redirect targets: `/`, `/login` and `/users/<id>`. */
  datatype Path = Root | LoginPath | UserProfile(userId: int)

  /** The templates a handler renders. */
  datatype Page = AnonHome | SignupPage | LoginPage | ProfilePage(user: Models.User)

  datatype Flash = Flash(message: string, category: string)

  datatype Outcome =
    | Redirect(to: Path, flash: Option<Flash>)
    | Render(page: Page, flash: Option<Flash>)
    | NotFound

  /** The session cookie's contents; the model only reads the user id stored in it. */
  type Session = map<string, int>

  /** A request to `/signup`, with the library's verdicts on the email and URL formats. */
  datatype SignupRequest = SignupRequest(
    isPost: bool, csrfOk: bool, fields: Forms.SignupFields, emailFormatOk: bool, urlFormatOk: bool)

  /** A request to `/login`. */
  datatype LoginRequest = LoginRequest(isPost: bool, csrfOk: bool, username: string, password: string)

  predicate SignupSubmitted(req: SignupRequest)
  {
    Forms.ValidateOnSubmit(req.isPost, req.csrfOk,
      Forms.SignupFormValid(req.fields, req.emailFormatOk, req.urlFormatOk))
  }

  predicate LoginSubmitted(req: LoginRequest)
  {
    Forms.ValidateOnSubmit(req.isPost, req.csrfOk, Forms.LoginFormValid(req.username, req.password))
  }

  /** `add_user_to_g`: the user whose id the session holds, or none when there is no id or no such row. */
  function CurrentUser(session: Session, users: seq<Models.User>): (r: Option<Models.User>)
    ensures CurrUserKey !in session ==> r.None?
    ensures r.Some? ==> r.value in users && r.value.id == session[CurrUserKey]
    ensures CurrUserKey in session ==>
      (r.Some? <==> exists i :: 0 <= i < |users| && users[i].id == session[CurrUserKey])
  {
    if CurrUserKey in session then Models.FindById(users, session[CurrUserKey]) else None
  }

  /** The answer `login_required` gives an anonymous visitor. */
  function Unauthorized(): (o: Outcome)
    ensures o.Redirect? && o.to == Root && o.flash == Some(Flash(UnauthorizedGateMessage, DangerCategory))
  {
    Redirect(Root, Some(Flash(UnauthorizedGateMessage, DangerCategory)))
  }

  /**
   * The `login_required` decorator: an anonymous visitor is sent home with a
   * flash and the handler is not run; otherwise the handler's answer is returned.
   */
  function LoginRequired(current: Option<Models.User>, handler: () -> Outcome): (o: Outcome)
    ensures current.None? ==> o == Unauthorized()
    ensures current.Some? ==> o == handler()
  {
    if current.None? then Unauthorized() else handler()
  }

  /** `/`: a logged-in user goes to their own profile, anyone else sees the anonymous home page. */
  function Homepage(current: Option<Models.User>): (o: Outcome)
    ensures current.Some? ==> o == Redirect(UserProfile(current.value.id), None)
    ensures current.None? ==> o == Render(AnonHome, None)
  {
    match current
    case Some(u) => Redirect(UserProfile(u.id), None)
    case None => Render(AnonHome, None)
  }

  /** `User.query.get_or_404(user_id)` followed by rendering the profile. */
  function ProfileOr404(users: seq<Models.User>, userId: int): (o: Outcome)
    ensures o.Render? ==> o.page.ProfilePage? && o.page.user in users && o.page.user.id == userId
    ensures o.NotFound? <==> forall i :: 0 <= i < |users| ==> users[i].id != userId
    ensures !o.Redirect?
  {
    match Models.FindById(users, userId)
    case Some(u) => Render(ProfilePage(u), None)
    case None => NotFound
  }

  /** `/users/<user_id>` behind `login_required`. */
  function UserPage(current: Option<Models.User>, users: seq<Models.User>, userId: int): (o: Outcome)
    ensures current.None? ==> o == Unauthorized()
    ensures current.Some? ==> o == ProfileOr404(users, userId)
  {
    LoginRequired(current, () => ProfileOr404(users, userId))
  }

  /** An anonymous visitor never sees a profile, whatever id is asked for. */
  lemma AnonymousNeverSeesProfile(users: seq<Models.User>, userId: int)
    ensures !UserPage(None, users, userId).Render?
  {
  }

  /** A logged-in visitor sees exactly the stored row with the requested id. */
  lemma UserPageShowsStoredUser(reg: Models.Registry, current: Models.User, u: Models.User)
    requires Models.Valid(reg)
    requires u in reg.users
    ensures UserPage(Some(current), reg.users, u.id) == Render(ProfilePage(u), None)
  {
  }

  /** After `login_user(u)` for a stored user, the next request's current user is `u`. */
  lemma LoginThenCurrentUser(reg: Models.Registry, session: Session, u: Models.User)
    requires Models.Valid(reg)
    requires u in reg.users
    ensures CurrentUser(session[CurrUserKey := u.id], reg.users) == Some(u)
  {
  }

  /** After `logout_user()` there is no current user. */
  lemma LogoutThenAnonymous(session: Session, users: seq<Models.User>)
    ensures CurrentUser(session - {CurrUserKey}, users) == None
  {
  }

  /** Once logged in as a stored user, `/` sends the user to their own profile. */
  lemma HomepageAfterLogin(reg: Models.Registry, session: Session, u: Models.User)
    requires Models.Valid(reg)
    requires u in reg.users
    ensures Homepage(CurrentUser(session[CurrUserKey := u.id], reg.users)) == Redirect(UserProfile(u.id), None)
  {
  }

  /** Once logged out, `/` shows the anonymous home page. */
  lemma HomepageAfterLogout(session: Session, users: seq<Models.User>)
    ensures Homepage(CurrentUser(session - {CurrUserKey}, users)) == Render(AnonHome, None)
  {
  }

  /** Logging out twice leaves the session as logging out once does. */
  lemma LogoutUserIdempotent(session: Session)
    ensures (session - {CurrUserKey}) - {CurrUserKey} == session - {CurrUserKey}
    ensures CurrUserKey !in session ==> session - {CurrUserKey} == session
  {
  }

  /** The application's per-client state: the session, `g.user` and the `users` table. */
  class Server {
    var session: Session
    var user: Option<Models.User>
    var db: Models.Registry

    predicate Valid()
      reads this`db
    {
      Models.Valid(db)
    }

    constructor (initialDb: Models.Registry)
      requires Models.Valid(initialDb)
      ensures Valid()
      ensures session == map[] && user == None && db == initialDb
    {
      session, user, db := map[], None, initialDb;
    }

    /** Runs before every request: loads the current user from the session. */
    method AddUserToG()
      modifies this`user
      ensures user == CurrentUser(session, db.users)
    {
      if CurrUserKey in session {
        user := Models.FindById(db.users, session[CurrUserKey]);
      } else {
        user := None;
      }
    }

    /** Stores `u`'s id in the session; no other key changes. */
    method LoginUser(u: Models.User)
      modifies this`session
      ensures session == old(session)[CurrUserKey := u.id]
      ensures session.Keys == old(session).Keys + {CurrUserKey}
      ensures forall k :: k in old(session) && k != CurrUserKey ==> session[k] == old(session)[k]
    {
      session := session[CurrUserKey := u.id];
    }

    /** Removes the user id from the session if it is there; otherwise does nothing. */
    method LogoutUser()
      modifies this`session
      ensures session == old(session) - {CurrUserKey}
      ensures CurrUserKey !in old(session) ==> session == old(session)
    {
      if CurrUserKey in session {
        session := session - {CurrUserKey};
      }
    }

    /**
     * `/signup`: an unsubmitted or invalid form is rendered again; a duplicate
     * username or email flashes a warning and changes nothing; otherwise the new
     * row is stored, its user logged in and sent to their profile.
     * `hashed` is the bcrypt hash of the submitted password.
     */
    method Signup(req: SignupRequest, hashed: string) returns (o: Outcome)
      requires Valid()
      requires |hashed| == Models.BcryptHashLength
      modifies this`session, this`db
      ensures Valid()
      ensures !SignupSubmitted(req) ==>
        o == Render(SignupPage, None) && session == old(session) && db == old(db)
      ensures SignupSubmitted(req)
              && (Models.EmailTaken(old(db).users, req.fields.email)
                  || Models.UsernameTaken(old(db).users, req.fields.username)) ==>
        && o == Render(SignupPage, Some(Flash(AlreadyInUseMessage, DangerCategory)))
        && session == old(session) && db == old(db)
      ensures SignupSubmitted(req)
              && !Models.EmailTaken(old(db).users, req.fields.email)
              && !Models.UsernameTaken(old(db).users, req.fields.username) ==>
        var u := Models.User(old(db).nextId, req.fields.email, req.fields.username, hashed);
        && db.users == old(db).users + [u]
        && session == old(session)[CurrUserKey := u.id]
        && o == Redirect(UserProfile(u.id), None)
        && CurrentUser(session, db.users) == Some(u)
    {
      o := Render(SignupPage, None);
      if SignupSubmitted(req) {
        var result := Models.Insert(db, req.fields.email, req.fields.username, hashed);
        if result.Success? {
          Models.InsertPreservesValid(db, req.fields.email, req.fields.username, hashed);
          var u := Models.User(db.nextId, req.fields.email, req.fields.username, hashed);
          db := result.value;
          LoginUser(u);
          LoginThenCurrentUser(db, old(session), u);
          o := Redirect(UserProfile(u.id), None);
        } else {
          assert result.error == Models.IntegrityError;
          o := Render(SignupPage, Some(Flash(AlreadyInUseMessage, DangerCategory)));
        }
      }
    }

    /**
     * `/login`: an unsubmitted or invalid form is rendered again; bad
     * credentials flash a warning and leave the session alone; good ones log
     * the user in, greet them and send them to their profile.
     */
    method Login(req: LoginRequest, checkPassword: (string, string) -> bool) returns (o: Outcome)
      requires Valid()
      modifies this`session
      ensures Valid()
      ensures !LoginSubmitted(req) ==> o == Render(LoginPage, None) && session == old(session)
      ensures LoginSubmitted(req) && Models.Authenticate(db.users, req.username, req.password, checkPassword).None? ==>
        o == Render(LoginPage, Some(Flash(InvalidCredentialsMessage, DangerCategory))) && session == old(session)
      ensures LoginSubmitted(req) && Models.Authenticate(db.users, req.username, req.password, checkPassword).Some? ==>
        var u := Models.Authenticate(db.users, req.username, req.password, checkPassword).value;
        && session == old(session)[CurrUserKey := u.id]
        && o == Redirect(UserProfile(u.id), Some(Flash("Hello, " + u.username, SuccessCategory)))
        && CurrentUser(session, db.users) == Some(u)
    {
      o := Render(LoginPage, None);
      if LoginSubmitted(req) {
        var found := Models.Authenticate(db.users, req.username, req.password, checkPassword);
        if found.Some? {
          LoginUser(found.value);
          LoginThenCurrentUser(db, old(session), found.value);
          o := Redirect(UserProfile(found.value.id), Some(Flash("Hello, " + found.value.username, SuccessCategory)));
        } else {
          o := Render(LoginPage, Some(Flash(InvalidCredentialsMessage, DangerCategory)));
        }
      }
    }

    /**
     * `/logout` (a POST-only route): without a valid CSRF token or a current user the visitor is
     * sent home and nothing changes; otherwise the user id leaves the session
     * and the visitor is sent to the login page.
     */
    method Logout(csrfOk: bool) returns (o: Outcome)
      modifies this`session
      ensures !Forms.CsrfFormValid(true, csrfOk) || user.None? ==>
        o == Redirect(Root, Some(Flash(UnauthorizedLogoutMessage, DangerCategory))) && session == old(session)
      ensures Forms.CsrfFormValid(true, csrfOk) && user.Some? ==>
        && session == old(session) - {CurrUserKey}
        && o == Redirect(LoginPath, Some(Flash(LoggedOutMessage, SuccessCategory)))
        && CurrentUser(session, db.users) == None
    {
      if !Forms.CsrfFormValid(true, csrfOk) || user.None? {
        return Redirect(Root, Some(Flash(UnauthorizedLogoutMessage, DangerCategory)));
      }
      LogoutUser();
      o := Redirect(LoginPath, Some(Flash(LoggedOutMessage, SuccessCategory)));
    }
  }
}
