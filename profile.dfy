/**
 * The account-settings panel.  It fills its form from the stored user,
 * edits one field per keystroke, and on submit sends the form in a PUT; only
 * when the PUT succeeds does it store the stored user overridden by the form,
 * without any password.  The PUT runs between `BeginSubmit` and `EndSubmit`,
 * while `loading` is set.
 */
module Profile {
  import opened Wrappers
  import opened Json
  import Browser

  /** The four fields the form starts with; a typed password adds a fifth. */
  const FormFields: set<string> := {"username", "email", "school", "major"}

  const EmptyForm: Object := map["username" := Str(""), "email" := Str(""), "school" := Str(""), "major" := Str("")]

  /** `user.username || ""` and likewise for email, school and major. */
  function FormFromUser(user: Object): (form: Object)
    ensures form.Keys == FormFields
    ensures forall k :: k in FormFields ==>
      form[k] == (if k in user && Truthy(user[k]) then user[k] else Str(""))
  {
    map k | k in FormFields :: Or(Get(user, k), Str(""))
  }

  /** The user to store after a successful save: the stored user, every form field overriding it, no password. */
  function SavedUser(currentUser: Object, form: Object): (saved: Object)
    ensures "password" !in saved
    ensures saved.Keys == (currentUser.Keys + form.Keys) - {"password"}
    ensures forall k :: k in form && k != "password" ==> saved[k] == form[k]
    ensures forall k :: k in currentUser && k !in form && k != "password" ==> saved[k] == currentUser[k]
  {
    (currentUser + form) - {"password"}
  }

  /** What a submit captured when it sent its PUT: the stored user and the form as sent. */
  datatype Submission = Submission(currentUser: Object, form: Object)

  class ProfilePage {
    var formData: Object
    var currentUser: Option<Object>
    var loading: bool

    constructor ()
      ensures formData == EmptyForm && currentUser == None && !loading
    {
      formData := EmptyForm;
      currentUser := None;
      loading := false;
    }

    /** The mount effect: with a stored user, remember it and fill the form from it; otherwise keep the empty form. */
    method Load(session: Browser.Session)
      modifies this`formData, this`currentUser
      ensures session.currentUser.Some? ==>
        currentUser == session.currentUser && formData == FormFromUser(session.currentUser.value)
      ensures session.currentUser.None? ==>
        currentUser == old(currentUser) && formData == old(formData)
    {
      if session.currentUser.Some? {
        var user := session.currentUser.value;
        currentUser := Some(user);
        formData := FormFromUser(user);
      }
    }

    /** `handleChange`: the input whose id is `id` now holds `value`; the other fields keep theirs. */
    method HandleChange(id: string, value: string)
      modifies this`formData
      ensures formData == old(formData)[id := Str(value)]
      ensures forall k :: k in old(formData) && k != id ==> k in formData && formData[k] == old(formData)[k]
    {
      formData := formData[id := Str(value)];
    }

    /**
     * The start of `handleSubmit`: set `loading` and send the PUT.  Without a
     * stored user, reading its email throws before anything is sent, and the
     * submission is absent.
     */
    method BeginSubmit() returns (pending: Option<Submission>)
      modifies this`loading
      ensures loading
      ensures currentUser.Some? ==> pending == Some(Submission(currentUser.value, formData))
      ensures currentUser.None? ==> pending == None
    {
      loading := true;
      if currentUser.Some? {
        pending := Some(Submission(currentUser.value, formData));
      } else {
        pending := None;
      }
    }

    /**
     * The end of `handleSubmit`, whatever happened: storage is written only
     * when a PUT was sent and succeeded, and `loading` is cleared.
     */
    method EndSubmit(session: Browser.Session, pending: Option<Submission>, putSucceeded: bool)
      modifies this`loading, session`currentUser
      ensures !loading
      ensures pending.Some? && putSucceeded ==>
        session.currentUser == Some(SavedUser(pending.value.currentUser, pending.value.form))
      ensures !(pending.Some? && putSucceeded) ==> session.currentUser == old(session.currentUser)
    {
      if pending.Some? && putSucceeded {
        var updatedUser := SavedUser(pending.value.currentUser, pending.value.form);
        session.currentUser := Some(updatedUser);
      }
      loading := false;
    }
  }

  /**
   * Saving, then opening the panel again on the stored result, shows the
   * four fields exactly as they were submitted.
   */
  lemma SaveThenLoad(currentUser: Object, form: Object)
    requires FormFields <= form.Keys
    requires forall k :: k in FormFields ==> form[k].Str?
    ensures FormFromUser(SavedUser(currentUser, form)) == map k | k in FormFields :: form[k]
  {
    var reloaded := FormFromUser(SavedUser(currentUser, form));
    forall k | k in FormFields ensures reloaded[k] == form[k] {
      assert k != "password";
    }
  }
}
