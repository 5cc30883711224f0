/**
 * The profile page: `handleSubmit` checks the edited username, email and
 * password in that order, stops at the first failed check with an alert,
 * and otherwise sends an update holding exactly the changed fields.
 */
module Profile {
  import opened Wrappers
  import opened Text

  /** The signed-in user as the auth hook holds it. */
  datatype User = User(username: string, email: string)

  /** The five inputs of the page. */
  datatype Form = Form(username: string, email: string, currentPassword: string,
                       newPassword: string, confirmPassword: string)

  /** The `updates` object: a field is present only when it is to be changed. */
  datatype Updates = Updates(username: Option<string>, email: Option<string>, password: Option<string>)

  const NO_UPDATES := Updates(None, None, None)

  /** The alerts `handleSubmit` can raise. */
  datatype Alert = UsernameEmpty | EmailEmpty | EmailInvalid | PasswordMissing
                 | PasswordTooShort | PasswordMismatch | NoChanges

  function Message(a: Alert): string {
    match a
    case UsernameEmpty => "Username cannot be empty"
    case EmailEmpty => "Email cannot be empty"
    case EmailInvalid => "Please enter a valid email"
    case PasswordMissing => "Please enter a new password"
    case PasswordTooShort => "Password must be at least 6 characters"
    case PasswordMismatch => "Passwords do not match"
    case NoChanges => "No changes to update"
  }

  /** What a submit does: raise an alert and send nothing, or send the update. */
  datatype Outcome = Alerted(alert: Alert) | Sent(updates: Updates)

  const MIN_PASSWORD_LENGTH := 6

  /** The form as first shown: the user's username and email (empty without a user) and empty passwords. */
  function InitialForm(user: Option<User>): Form {
    match user
    case None => Form("", "", "", "", "")
    case Some(u) => Form(u.username, u.email, "", "", "")
  }

  /** The username field differs from the user's; without a user every username counts as changed. */
  predicate UsernameChanged(user: Option<User>, form: Form) {
    user.None? || form.username != user.value.username
  }

  predicate EmailChanged(user: Option<User>, form: Form) {
    user.None? || form.email != user.value.email
  }

  /** A password change is attempted when either password field is filled. */
  predicate ChangingPassword(form: Form) {
    form.newPassword != "" || form.currentPassword != ""
  }

  /** The username check passes: unchanged, or not blank. */
  predicate UsernameOk(user: Option<User>, form: Form) {
    UsernameChanged(user, form) ==> !IsBlank(form.username)
  }

  /** The email check passes: unchanged, or not blank and holding an "@". */
  predicate EmailOk(user: Option<User>, form: Form) {
    EmailChanged(user, form) ==> !IsBlank(form.email) && Contains(form.email, "@")
  }

  /** The password check passes: no password field used, or a long enough new password that is confirmed. */
  predicate PasswordOk(form: Form) {
    ChangingPassword(form) ==>
      form.newPassword != "" && |form.newPassword| >= MIN_PASSWORD_LENGTH
      && form.newPassword == form.confirmPassword
  }

  /** The update made of exactly the changed fields; the current password is never part of it. */
  function ChangedFields(user: Option<User>, form: Form): Updates {
    Updates(if UsernameChanged(user, form) then Some(form.username) else None,
            if EmailChanged(user, form) then Some(form.email) else None,
            if ChangingPassword(form) then Some(form.newPassword) else None)
  }

  /** The outcome of `handleSubmit`, check by check. */
  function Submit(user: Option<User>, form: Form): (r: Outcome)
    ensures r.Sent? <==> UsernameOk(user, form) && EmailOk(user, form) && PasswordOk(form)
                         && ChangedFields(user, form) != NO_UPDATES
    ensures r.Sent? ==> r.updates == ChangedFields(user, form)
  {
    TrimEmptyIff(form.username);
    TrimEmptyIff(form.email);
    if UsernameChanged(user, form) && Trim(form.username) == "" then Alerted(UsernameEmpty)
    else if EmailChanged(user, form) && Trim(form.email) == "" then Alerted(EmailEmpty)
    else if EmailChanged(user, form) && !Contains(form.email, "@") then Alerted(EmailInvalid)
    else if ChangingPassword(form) && form.newPassword == "" then Alerted(PasswordMissing)
    else if ChangingPassword(form) && |form.newPassword| < MIN_PASSWORD_LENGTH then Alerted(PasswordTooShort)
    else if ChangingPassword(form) && form.newPassword != form.confirmPassword then Alerted(PasswordMismatch)
    else if ChangedFields(user, form) == NO_UPDATES then Alerted(NoChanges)
    else Sent(ChangedFields(user, form))
  }

  /** `handleSubmit`: the `updates` object is filled field by field, with an early return on each failed check. */
  method HandleSubmit(user: Option<User>, form: Form) returns (outcome: Outcome)
    ensures outcome == Submit(user, form)
  {
    var updates := NO_UPDATES;
    if UsernameChanged(user, form) {
      if Trim(form.username) == "" {
        return Alerted(UsernameEmpty);
      }
      updates := updates.(username := Some(form.username));
    }
    if EmailChanged(user, form) {
      if Trim(form.email) == "" {
        return Alerted(EmailEmpty);
      }
      if !Contains(form.email, "@") {
        return Alerted(EmailInvalid);
      }
      updates := updates.(email := Some(form.email));
    }
    if form.newPassword != "" || form.currentPassword != "" {
      if form.newPassword == "" {
        return Alerted(PasswordMissing);
      }
      if |form.newPassword| < MIN_PASSWORD_LENGTH {
        return Alerted(PasswordTooShort);
      }
      if form.newPassword != form.confirmPassword {
        return Alerted(PasswordMismatch);
      }
      updates := updates.(password := Some(form.newPassword));
    }
    if updates == NO_UPDATES {
      return Alerted(NoChanges);
    }
    return Sent(updates);
  }

  /**
   * Each alert is raised exactly when its check is the first to fail, in the
   * order username, email, password, and "No changes" only when all pass.
   */
  lemma AlertOrder(user: Option<User>, form: Form)
    ensures Submit(user, form) == Alerted(UsernameEmpty) <==> UsernameChanged(user, form) && IsBlank(form.username)
    ensures Submit(user, form) == Alerted(EmailEmpty) <==>
      UsernameOk(user, form) && EmailChanged(user, form) && IsBlank(form.email)
    ensures Submit(user, form) == Alerted(EmailInvalid) <==>
      UsernameOk(user, form) && EmailChanged(user, form) && !IsBlank(form.email) && !Contains(form.email, "@")
    ensures Submit(user, form) == Alerted(PasswordMissing) <==>
      UsernameOk(user, form) && EmailOk(user, form) && form.currentPassword != "" && form.newPassword == ""
    ensures Submit(user, form) == Alerted(PasswordTooShort) <==>
      UsernameOk(user, form) && EmailOk(user, form) && form.newPassword != "" && |form.newPassword| < MIN_PASSWORD_LENGTH
    ensures Submit(user, form) == Alerted(PasswordMismatch) <==>
      UsernameOk(user, form) && EmailOk(user, form) && |form.newPassword| >= MIN_PASSWORD_LENGTH
      && form.newPassword != form.confirmPassword
    ensures Submit(user, form) == Alerted(NoChanges) <==>
      !UsernameChanged(user, form) && !EmailChanged(user, form) && !ChangingPassword(form)
  {
    TrimEmptyIff(form.username);
    TrimEmptyIff(form.email);
  }

  /** An email that contains "@" is never blank, so the two email alerts never overlap. */
  lemma EmailWithAtNotBlank(email: string)
    requires Contains(email, "@")
    ensures !IsBlank(email)
  {
    var i := IndexOf(email, "@").value;
    assert email[i..i + 1] == "@";
    assert email[i] == '@';
  }

  /** Submitting the form as first shown, for a signed-in user, sends nothing. */
  lemma UntouchedFormSendsNothing(u: User)
    ensures Submit(Some(u), InitialForm(Some(u))) == Alerted(NoChanges)
  {
    AlertOrder(Some(u), InitialForm(Some(u)));
  }

  /** The user after the server has stored an update: each sent field replaces the old one. */
  function Applied(u: User, updates: Updates): User {
    User(updates.username.GetOr(u.username), updates.email.GetOr(u.email))
  }

  /** `onSuccess`: the three password inputs are cleared. */
  function ClearPasswords(form: Form): Form {
    form.(currentPassword := "", newPassword := "", confirmPassword := "")
  }

  /**
   * After a successful update the refetched user matches the form, and the
   * cleared form submitted again sends nothing.
   */
  lemma ResubmitSendsNothing(u: User, form: Form)
    requires Submit(Some(u), form).Sent?
    ensures Submit(Some(Applied(u, Submit(Some(u), form).updates)), ClearPasswords(form)) == Alerted(NoChanges)
  {
    var v := Applied(u, Submit(Some(u), form).updates);
    assert v == User(form.username, form.email);
    AlertOrder(Some(v), ClearPasswords(form));
  }

  /** Filling in only the current password is refused: a new password is required. */
  lemma CurrentPasswordAloneRefused(u: User, current: string)
    requires current != ""
    ensures Submit(Some(u), Form(u.username, u.email, current, "", "")) == Alerted(PasswordMissing)
  {
    AlertOrder(Some(u), Form(u.username, u.email, current, "", ""));
  }

  /**
   * What a sent update carries: the username and email only when they were
   * edited, then non-blank (the email with an "@"), and as password only the
   * confirmed new password of at least six characters, never the current one.
   */
  lemma SentUpdates(user: Option<User>, form: Form)
    requires Submit(user, form).Sent?
    ensures var u := Submit(user, form).updates;
      && (u.username.Some? <==> UsernameChanged(user, form))
      && (u.username.Some? ==> u.username.value == form.username && !IsBlank(form.username))
      && (u.email.Some? <==> EmailChanged(user, form))
      && (u.email.Some? ==> u.email.value == form.email && Contains(form.email, "@"))
      && (u.password.Some? <==> form.newPassword != "" || form.currentPassword != "")
      && (u.password.Some? ==> u.password.value == form.newPassword == form.confirmPassword
                               && |u.password.value| >= MIN_PASSWORD_LENGTH)
      && u != NO_UPDATES
  {
  }
}
