/**
 * The sign-up form's validation schema and the multipart payload it sends.
 * Lengths are counted in UTF-16 code units, as JavaScript counts them.  The
 * e-mail syntax check belongs to the validation library and is a parameter.
 */
module Signup {
  import opened Wrappers
  import Text

  /** A file picked for the profile picture: name, size in bytes and MIME type. */
  datatype Picture = Picture(name: string, size: nat, mimeType: string)

  /** The form values; `profilePicture` is the picked file list, or absent. */
  datatype SignupForm = SignupForm(
    username: string,
    email: string,
    password: string,
    confirmPassword: string,
    school: string,
    major: string,
    profilePicture: Option<seq<Picture>>)

  const MaxFileSize: nat := 5000000

  const AcceptedImageTypes: seq<string> := ["image/jpeg", "image/jpg", "image/png", "image/webp"]

  /** The validation messages, in the order the schema reports them. */
  datatype Issue =
    | UsernameTooShort
    | InvalidEmail
    | PasswordTooShort
    | PasswordTooWeak
    | SchoolRequired
    | MajorRequired
    | PictureRequired
    | PictureTooLarge
    | PictureTypeRejected
    | PasswordsDontMatch

  datatype CharClass = Lower | Upper | Digit

  predicate InClass(c: char, cls: CharClass) {
    match cls
    case Lower => 'a' <= c <= 'z'
    case Upper => 'A' <= c <= 'Z'
    case Digit => '0' <= c <= '9'
  }

  /**
   * The lookahead `(?=.*[class])` at the start of the string: a character of
   * the class occurs before the first line terminator, which `.` does not cross.
   */
  predicate FirstLineHas(s: string, cls: CharClass) {
    if s == [] then false
    else if Text.IsLineTerminator(s[0]) then false
    else InClass(s[0], cls) || FirstLineHas(s[1..], cls)
  }

  /** `/^(?=.*[a-z])(?=.*[A-Z])(?=.*\d)/` */
  predicate MeetsPasswordPattern(s: string) {
    FirstLineHas(s, Lower) && FirstLineHas(s, Upper) && FirstLineHas(s, Digit)
  }

  /** The three refinements on the picked file list, each checked even when an earlier one fails. */
  function PictureIssues(files: seq<Picture>): (r: seq<Issue>)
    ensures r == [] <==> |files| == 1 && files[0].size <= MaxFileSize && files[0].mimeType in AcceptedImageTypes
  {
    (if |files| == 1 then [] else [PictureRequired])
    + (if |files| > 0 && files[0].size <= MaxFileSize then [] else [PictureTooLarge])
    + (if |files| > 0 && files[0].mimeType in AcceptedImageTypes then [] else [PictureTypeRejected])
  }

  /** Every issue the schema reports for the form, field by field, then the password match. */
  function SignupIssues(f: SignupForm, isEmail: string -> bool): seq<Issue> {
    (if Text.Utf16Length(f.username) >= 3 then [] else [UsernameTooShort])
    + (if isEmail(f.email) then [] else [InvalidEmail])
    + (if Text.Utf16Length(f.password) >= 8 then [] else [PasswordTooShort])
    + (if MeetsPasswordPattern(f.password) then [] else [PasswordTooWeak])
    + (if Text.Utf16Length(f.school) >= 1 then [] else [SchoolRequired])
    + (if Text.Utf16Length(f.major) >= 1 then [] else [MajorRequired])
    + (match f.profilePicture case None => [] case Some(files) => PictureIssues(files))
    + (if f.password == f.confirmPassword then [] else [PasswordsDontMatch])
  }

  /** The form is submitted exactly when the schema reports nothing. */
  predicate Accepted(f: SignupForm, isEmail: string -> bool) {
    SignupIssues(f, isEmail) == []
  }

  predicate ContainsClass(s: string, cls: CharClass) {
    exists i :: 0 <= i < |s| && InClass(s[i], cls)
  }

  lemma {:induction false} FirstLineHasSingleLine(s: string, cls: CharClass)
    requires forall i :: 0 <= i < |s| ==> !Text.IsLineTerminator(s[i])
    ensures FirstLineHas(s, cls) <==> ContainsClass(s, cls)
  {
    if s != [] {
      FirstLineHasSingleLine(s[1..], cls);
      if ContainsClass(s, cls) && !InClass(s[0], cls) {
        var i :| 0 <= i < |s| && InClass(s[i], cls);
        assert s[1..][i - 1] == s[i];
      }
    }
  }

  /**
   * The sign-up rules.  The form is accepted iff the username has at least
   * 3 code units, the e-mail passes the e-mail check, the password has at
   * least 8 code units and meets the pattern, school and major are
   * non-empty, a picked picture is a single accepted image of at most
   * 5,000,000 bytes, and the confirmation equals the password.
   */
  lemma AcceptedIff(f: SignupForm, isEmail: string -> bool)
    ensures Accepted(f, isEmail) <==>
      && Text.Utf16Length(f.username) >= 3
      && isEmail(f.email)
      && Text.Utf16Length(f.password) >= 8
      && MeetsPasswordPattern(f.password)
      && |f.school| >= 1
      && |f.major| >= 1
      && (f.profilePicture.Some? ==>
            var files := f.profilePicture.value;
            |files| == 1 && files[0].size <= MaxFileSize && files[0].mimeType in AcceptedImageTypes)
      && f.password == f.confirmPassword
  {
  }

  /**
   * On a password typed on one line, the pattern asks for what its message
   * says: a lowercase letter, an uppercase letter and a digit.
   */
  lemma PasswordPatternOnOneLine(s: string)
    requires forall i :: 0 <= i < |s| ==> !Text.IsLineTerminator(s[i])
    ensures MeetsPasswordPattern(s) <==> ContainsClass(s, Lower) && ContainsClass(s, Upper) && ContainsClass(s, Digit)
  {
    FirstLineHasSingleLine(s, Lower);
    FirstLineHasSingleLine(s, Upper);
    FirstLineHasSingleLine(s, Digit);
  }

  /** A letter or digit after a line break does not count towards the pattern. */
  lemma PasswordPatternStopsAtLineBreak()
    ensures !MeetsPasswordPattern("\nPassword1")
    ensures ContainsClass("\nPassword1", Lower) && ContainsClass("\nPassword1", Upper) && ContainsClass("\nPassword1", Digit)
  {
    assert InClass("\nPassword1"[2], Lower);
    assert InClass("\nPassword1"[1], Upper);
    assert InClass("\nPassword1"[9], Digit);
  }

  /** A multipart field: text, or a file part. */
  datatype FormValue = Text(text: string) | FilePart(file: Picture)

  /**
   * The payload `onSubmit` builds: the first picked file, or the text
   * "undefined" that appending an absent value produces, then username,
   * e-mail, password, school and major; the confirmation is not sent.
   */
  function SignupPayload(f: SignupForm): (payload: seq<(string, FormValue)>)
    ensures |payload| == 6
    ensures payload[1] == ("username", Text(f.username)) && payload[2] == ("email", Text(f.email))
    ensures payload[3] == ("password", Text(f.password)) && payload[4] == ("school", Text(f.school))
    ensures payload[5] == ("major", Text(f.major))
    ensures payload[0].0 == "profilePicture"
    ensures payload[0].1 == (if f.profilePicture.Some? && |f.profilePicture.value| > 0
                             then FilePart(f.profilePicture.value[0]) else Text("undefined"))
  {
    var picture :=
      if f.profilePicture.Some? && |f.profilePicture.value| > 0 then FilePart(f.profilePicture.value[0])
      else Text("undefined");
    [("profilePicture", picture), ("username", Text(f.username)), ("email", Text(f.email)),
     ("password", Text(f.password)), ("school", Text(f.school)), ("major", Text(f.major))]
  }

  function PayloadKeys(payload: seq<(string, FormValue)>): seq<string> {
    seq(|payload|, i requires 0 <= i < |payload| => payload[i].0)
  }

  /** The payload carries exactly the six fields, in this order, and no confirmation. */
  lemma PayloadFields(f: SignupForm)
    ensures PayloadKeys(SignupPayload(f)) == ["profilePicture", "username", "email", "password", "school", "major"]
    ensures "confirmPassword" !in PayloadKeys(SignupPayload(f))
  {
  }
}
