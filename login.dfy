/**
 * The log-in page.  The schema asks for a non-empty e-mail or username and
 * a password of at least eight characters; on a successful POST the page
 * stores the returned user without its password and goes to the home page.
 */
module Login {
  import opened Wrappers
  import opened Json
  import Text
  import Browser
  import Users
  import Signup

  datatype Issue = IdentifierRequired | PasswordTooShort

  /** Both fields are checked; `.min` counts UTF-16 code units. */
  function LoginIssues(emailOrUsername: string, password: string): (r: seq<Issue>)
    ensures IdentifierRequired in r <==> emailOrUsername == ""
    ensures PasswordTooShort in r <==> Text.Utf16Length(password) < 8
    ensures |r| <= 2
  {
    (if Text.Utf16Length(emailOrUsername) >= 1 then [] else [IdentifierRequired])
    + (if Text.Utf16Length(password) >= 8 then [] else [PasswordTooShort])
  }

  /** A password the sign-up schema accepts is long enough to log in with: log-in has no character-class rule. */
  lemma SignupPasswordsLogIn(f: Signup.SignupForm, isEmail: string -> bool, identifier: string)
    requires Signup.Accepted(f, isEmail)
    requires identifier != ""
    ensures LoginIssues(identifier, f.password) == []
  {
  }

  /** Log-in accepts passwords the sign-up schema would call too weak. */
  lemma LoginSkipsCharacterClasses()
    ensures LoginIssues("ann", "aaaaaaaa") == []
    ensures !Signup.MeetsPasswordPattern("aaaaaaaa")
  {
    var p := "aaaaaaaa";
    assert Text.Utf16Length(p) >= |p|;
    assert !Signup.FirstLineHas(p[7..], Signup.Upper);
    assert !Signup.FirstLineHas(p[6..], Signup.Upper);
    assert !Signup.FirstLineHas(p[5..], Signup.Upper);
    assert !Signup.FirstLineHas(p[4..], Signup.Upper);
    assert !Signup.FirstLineHas(p[3..], Signup.Upper);
    assert !Signup.FirstLineHas(p[2..], Signup.Upper);
    assert !Signup.FirstLineHas(p[1..], Signup.Upper);
  }

  /** `const { password, ...currentUser } = user`: every key but the password, with its value. */
  function StripPassword(user: Object): (r: Object)
    ensures r.Keys == user.Keys - {"password"}
    ensures forall k :: k in r ==> r[k] == user[k]
  {
    user - {"password"}
  }

  /** The user the server's log-in returns is stored with its six other columns and no password. */
  lemma StoredUserHasNoPassword(u: Users.User)
    ensures StripPassword(Users.ToDict(u)).Keys == {"id", "username", "email", "profilePicture", "school", "major"}
    ensures forall k :: k in StripPassword(Users.ToDict(u)) ==> StripPassword(Users.ToDict(u))[k] == Users.ToDict(u)[k]
  {
  }

  /**
   * The submit handler after validation.  `loggedIn` is the `user` of a
   * successful POST's reply, or `None` when the POST failed.  Only on
   * success is the user stored, stripped of its password, and the page moved
   * to "/"; a failure leaves storage and location as they were.  A form the
   * schema rejects never reaches the POST.
   */
  method OnSubmit(session: Browser.Session, emailOrUsername: string, password: string, loggedIn: Option<Object>)
    modifies session
    ensures LoginIssues(emailOrUsername, password) == [] && loggedIn.Some? ==>
      session.currentUser == Some(StripPassword(loggedIn.value)) && session.location == "/"
    ensures LoginIssues(emailOrUsername, password) != [] || loggedIn.None? ==>
      session.currentUser == old(session.currentUser) && session.location == old(session.location)
  {
    if LoginIssues(emailOrUsername, password) != [] {
      return;
    }
    if loggedIn.None? {
      return;
    }
    var currentUser := StripPassword(loggedIn.value);
    session.currentUser := Some(currentUser);
    session.location := "/";
  }
}
