/**
  The mock authentication of src/hooks/useAuth.ts: the ordered field
  checks of `login` and `signup`, the user they create and the state they
  leave. The clock-derived id, the creation time and the random profile
  are parameters; storage is not modelled.
 */
module Auth {

  import opened Basics
  import opened Text

  datatype AuthUser = AuthUser(id: string, name: string, email: string, avatar: string, createdAt: int)

  datatype AuthState = AuthState(user: Option<AuthUser>, isAuthenticated: bool, isLoading: bool)

  datatype AuthError = MissingFields | ShortName | InvalidEmail | ShortPassword

  function ErrorMessage(e: AuthError): (r: string)
    ensures |r| > 0
  {
    match e
    case MissingFields => "Please fill in all fields"
    case ShortName => "Name must be at least 2 characters"
    case InvalidEmail => "Please enter a valid email address"
    case ShortPassword => "Password must be at least 6 characters"
  }

  datatype Profile = Profile(name: string, avatar: string)

  const MockProfiles: seq<Profile> := [
    Profile("Alex Johnson", "https://images.pexels.com/photos/614810/pexels-photo-614810.jpeg?auto=compress&cs=tinysrgb&w=150&h=150&fit=crop"),
    Profile("Sarah Chen", "https://images.pexels.com/photos/1239291/pexels-photo-1239291.jpeg?auto=compress&cs=tinysrgb&w=150&h=150&fit=crop"),
    Profile("Marcus Williams", "https://images.pexels.com/photos/1222271/pexels-photo-1222271.jpeg?auto=compress&cs=tinysrgb&w=150&h=150&fit=crop"),
    Profile("Emma Davis", "https://images.pexels.com/photos/1130626/pexels-photo-1130626.jpeg?auto=compress&cs=tinysrgb&w=150&h=150&fit=crop"),
    Profile("David Rodriguez", "https://images.pexels.com/photos/1043471/pexels-photo-1043471.jpeg?auto=compress&cs=tinysrgb&w=150&h=150&fit=crop")
  ]

  /** The state before the stored session has been looked at. */
  const InitialState: AuthState := AuthState(None, false, true)

  /** The outcome of a login or signup: the error reported, if any, and the resulting state. */
  datatype AuthResult = AuthResult(error: Option<AuthError>, state: AuthState)

  /** Credentials a login accepts, stated without the order of the checks. */
  predicate ValidLogin(email: string, password: string) {
    '@' in email && Utf16Length(password) >= 6
  }

  predicate ValidSignup(name: string, email: string, password: string) {
    Utf16Length(name) >= 2 && ValidLogin(email, password)
  }

  /** The first failing check of `login`, in the source's order. */
  function LoginError(email: string, password: string): (r: Option<AuthError>)
    ensures r == Some(MissingFields) <==> email == "" || password == ""
    ensures r == Some(InvalidEmail) <==> email != "" && password != "" && '@' !in email
    ensures r == Some(ShortPassword) <==>
              email != "" && password != "" && '@' in email && Utf16Length(password) < 6
    ensures r.None? <==> ValidLogin(email, password)
    ensures r.Some? ==> r.value != ShortName
  {
    if email == "" || password == "" then Some(MissingFields)
    else if '@' !in email then Some(InvalidEmail)
    else if Utf16Length(password) < 6 then Some(ShortPassword)
    else None
  }

  /** The first failing check of `signup`, in the source's order. */
  function SignupError(name: string, email: string, password: string): (r: Option<AuthError>)
    ensures r == Some(MissingFields) <==> name == "" || email == "" || password == ""
    ensures r == Some(ShortName) <==> name != "" && email != "" && password != "" && Utf16Length(name) < 2
    ensures name != "" && Utf16Length(name) >= 2 ==> r == LoginError(email, password)
    ensures r.None? <==> ValidSignup(name, email, password)
  {
    if name == "" || email == "" || password == "" then Some(MissingFields)
    else if Utf16Length(name) < 2 then Some(ShortName)
    else if '@' !in email then Some(InvalidEmail)
    else if Utf16Length(password) < 6 then Some(ShortPassword)
    else None
  }

  /**
    `login`: on a failed check the previous state stays, with loading off;
    otherwise a user with the given email and a mock profile's name and
    picture is signed in.
   */
  function Login(prev: AuthState, email: string, password: string, id: string, now: int, pick: nat): (r: AuthResult)
    ensures r.error == LoginError(email, password)
    ensures r.error.Some? ==> r.state == prev.(isLoading := false)
    ensures r.error.None? ==>
              && r.state.isAuthenticated && !r.state.isLoading && r.state.user.Some?
              && r.state.user.value.email == email
              && Profile(r.state.user.value.name, r.state.user.value.avatar) in MockProfiles
  {
    var error := LoginError(email, password);
    if error.Some? then AuthResult(error, prev.(isLoading := false))
    else
      var profile := MockProfiles[pick % |MockProfiles|];
      AuthResult(None, AuthState(Some(AuthUser(id, profile.name, email, profile.avatar, now)), true, false))
  }

  /** `signup`: as `login`, but the user keeps the name given and only the picture is drawn. */
  function Signup(prev: AuthState, name: string, email: string, password: string, id: string, now: int, pick: nat): (r: AuthResult)
    ensures r.error == SignupError(name, email, password)
    ensures r.error.Some? ==> r.state == prev.(isLoading := false)
    ensures r.error.None? ==>
              && r.state.isAuthenticated && !r.state.isLoading && r.state.user.Some?
              && r.state.user.value.name == name && r.state.user.value.email == email
              && exists p :: p in MockProfiles && p.avatar == r.state.user.value.avatar
  {
    var error := SignupError(name, email, password);
    if error.Some? then AuthResult(error, prev.(isLoading := false))
    else
      var profile := MockProfiles[pick % |MockProfiles|];
      AuthResult(None, AuthState(Some(AuthUser(id, name, email, profile.avatar, now)), true, false))
  }

  /** The check for a stored session on mount: signed in with it, or just done loading. */
  function RestoreSession(prev: AuthState, stored: Option<AuthUser>): (r: AuthState)
    ensures !r.isLoading
    ensures r.isAuthenticated <==> stored.Some? || prev.isAuthenticated
    ensures stored.Some? ==> r.user == stored
    ensures stored.None? ==> r == prev.(isLoading := false)
  {
    match stored
    case Some(u) => AuthState(Some(u), true, false)
    case None => prev.(isLoading := false)
  }

  /** `logout`: nobody signed in, nothing loading. */
  function Logout(prev: AuthState): (r: AuthState)
    ensures r.user.None? && !r.isAuthenticated && !r.isLoading
  {
    AuthState(None, false, false)
  }

  /** Signed in exactly when there is a user: every transition keeps that true. */
  predicate WellFormed(s: AuthState) {
    s.isAuthenticated <==> s.user.Some?
  }

  lemma TransitionsKeepWellFormed(prev: AuthState, name: string, email: string, password: string,
                                  id: string, now: int, pick: nat, stored: Option<AuthUser>)
    requires WellFormed(prev)
    ensures WellFormed(InitialState)
    ensures WellFormed(Login(prev, email, password, id, now, pick).state)
    ensures WellFormed(Signup(prev, name, email, password, id, now, pick).state)
    ensures WellFormed(RestoreSession(prev, stored))
    ensures WellFormed(Logout(prev))
  {
  }

  /** Three emoji make a six-unit password: `length` counts UTF-16 code units, not characters. */
  lemma EmojiPasswordAccepted()
    ensures ValidLogin("a@b", "😀😀😀")
  {
    assert "a@b"[1] == '@';
    assert Utf16Length("😀😀😀") == 6 by {
      assert "😀😀😀"[1..] == "😀😀";
      assert "😀😀"[1..] == "😀";
      assert "😀"[1..] == "";
    }
  }

  /** Each failed check reports its own message, so the message tells which check failed. */
  lemma ErrorMessageDeterminesError(a: AuthError, b: AuthError)
    ensures ErrorMessage(a) == ErrorMessage(b) <==> a == b
  {
  }
}
