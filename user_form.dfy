/** The create-user form of frontend/src/components/UserForm.jsx: its state,
    the username preview, the submit guard and what a submission sends and
    resets. `onCreateUser` is outside the form; its answer is a parameter. */
module UserForm {
  import opened Wrappers
  import opened Text
  import opened Username
  import opened Calendar
  import opened Expiration
  import opened GuestStore
  import opened Utils

  /** The expiration the form starts with and returns to: 14 days, the
      other units 0 (falsy). */
  const DefaultExpiration: Duration := Duration(Falsy, Integer(14), Falsy, Falsy, Falsy)

  /** getDomainPrefix: the placeholder 'domain' when the admin address is
      empty or has no '@', otherwise the text after the first '@' up to the
      next '.' or a second '@' (so "a@b@c.d" gives "b"). */
  function GetDomainPrefix(adminEmail: string): (r: string)
    ensures '@' !in adminEmail ==> r == "domain"
    ensures '@' in adminEmail ==> IsDomainPrefix(adminEmail, r)
  {
    if adminEmail == [] || '@' !in adminEmail then "domain"
    else
      var p := Split(Split(adminEmail, '@')[1], '.')[0];
      UsernameIsBaseAndDomainPrefix(adminEmail, "", p);
      p
  }

  /** The "Will create: ..." line, shown only while the base name is
      non-empty. */
  function UsernamePreview(baseUsername: string, adminEmail: string): (r: Option<string>)
    ensures r.None? <==> baseUsername == ""
    ensures r.Some? && '@' !in adminEmail ==> r.value == baseUsername + "_domain"
  {
    if baseUsername == "" then None else Some(baseUsername + "_" + GetDomainPrefix(adminEmail))
  }

  /** When the admin address has an '@', the preview shows exactly the name
      generateGuestUsername derives from the same base name. */
  lemma {:induction false} PreviewIsBackendUsername(baseUsername: string, adminEmail: string)
    requires baseUsername != "" && '@' in adminEmail
    ensures UsernamePreview(baseUsername, adminEmail) == GenerateGuestUsername(adminEmail, baseUsername)
  {
    UsernameIsBaseAndDomainPrefix(adminEmail, baseUsername, GetDomainPrefix(adminEmail));
  }

  /** The form submits the trimmed base name while the preview shows it as
      typed: the account created carries the previewed name exactly when the
      base name has no white space around it. */
  lemma {:induction false} CreatedNameIsPreviewIffTrimmed(baseUsername: string, adminEmail: string)
    requires baseUsername != "" && '@' in adminEmail
    ensures GenerateGuestUsername(adminEmail, Trim(baseUsername)) == UsernamePreview(baseUsername, adminEmail)
      <==> Trim(baseUsername) == baseUsername
  {
    var p := GetDomainPrefix(adminEmail);
    PreviewIsBackendUsername(baseUsername, adminEmail);
    UsernameIsBaseAndDomainPrefix(adminEmail, Trim(baseUsername), p);
    if Trim(baseUsername) + "_" + p == baseUsername + "_" + p {
      assert |Trim(baseUsername)| == |baseUsername|;
      assert Trim(baseUsername) == (Trim(baseUsername) + "_" + p)[..|baseUsername|];
    }
  }

  /** The default expiration passes the backend's check and sets the
      account to expire 14 days after it is computed. */
  lemma {:induction false} DefaultExpirationIsFourteenDays(now: DateTime)
    requires Normalized(now)
    ensures CheckDuration(DefaultExpiration) == Accepted
    ensures TimeValue(ExpirationFrom(now, DefaultExpiration)) == TimeValue(now) + 14 * MsPerDay
  {
    ExpirationTimeValue(now, DefaultExpiration);
  }

  /** What handleSubmit passes to onCreateUser. */
  datatype Submission = Submission(
    baseUsername: string, password: string, expiration: Duration, adminEmail: string,
    fullName: string, email: string, phoneNumber: string)

  /** The request the submission becomes at the backend. */
  function AsCreateRequest(s: Submission): CreateRequest {
    CreateRequest(s.baseUsername, Some(s.password), Some(s.expiration), s.fullName, s.email, s.phoneNumber)
  }

  /** What onCreateUser resolves to. */
  datatype CreateResult = Success | Failure(error: string)

  /** Text fields that are not all white space stay non-empty once
      trimmed, so a submission built from them passes the backend's
      required-field check. */
  lemma {:induction false} SubmissionIsFilled(base: string, secret: string, x: Duration, admin: string,
                                              name: string, mail: string, phone: string)
    requires !AllSpace(name) && !AllSpace(mail) && !AllSpace(phone)
    ensures Filled(AsCreateRequest(Submission(base, secret, x, admin, Trim(name), Trim(mail), Trim(phone))))
  {
  }

  /** The component's state. */
  class Form {
    const adminEmail: string
    var fullName: string
    var email: string
    var phoneNumber: string
    var baseUsername: string
    var password: string
    var expiration: Duration
    var isSubmitting: bool
    var error: string

    constructor (adminEmail: string)
      ensures this.adminEmail == adminEmail
      ensures fullName == "" && email == "" && phoneNumber == "" && baseUsername == "" && password == ""
      ensures expiration == DefaultExpiration && !isSubmitting && error == ""
    {
      this.adminEmail := adminEmail;
      fullName := "";
      email := "";
      phoneNumber := "";
      baseUsername := "";
      password := "";
      expiration := DefaultExpiration;
      isSubmitting := false;
      error := "";
    }

    /** handleSubmit's guard: all five fields hold something besides white
        space. */
    predicate CanSubmit()
      reads this
    {
      Trim(fullName) != "" && Trim(email) != "" && Trim(phoneNumber) != ""
      && Trim(baseUsername) != "" && Trim(password) != ""
    }

    /** The guard refuses exactly when some field is empty or white space
        only. */
    lemma {:induction false} CanSubmitIffNoBlankField()
      ensures CanSubmit() <==>
        !AllSpace(fullName) && !AllSpace(email) && !AllSpace(phoneNumber)
        && !AllSpace(baseUsername) && !AllSpace(password)
    {
      assert Trim(fullName) == [] <==> AllSpace(fullName);
      assert Trim(email) == [] <==> AllSpace(email);
      assert Trim(phoneNumber) == [] <==> AllSpace(phoneNumber);
      assert Trim(baseUsername) == [] <==> AllSpace(baseUsername);
      assert Trim(password) == [] <==> AllSpace(password);
    }

    /** The submit button's `disabled`: while a submission is pending, or
        when the guard would refuse it. */
    predicate SubmitDisabled(): (r: bool)
      reads this
      ensures r <==> isSubmitting || AllSpace(fullName) || AllSpace(email) || AllSpace(phoneNumber)
                     || AllSpace(baseUsername) || AllSpace(password)
    {
      CanSubmitIffNoBlankField();
      isSubmitting || !CanSubmit()
    }

    /** The form after a successful creation: every field empty again, the
        expiration back at its default, nothing pending. */
    predicate Cleared()
      reads this
    {
      && fullName == "" && email == "" && phoneNumber == "" && baseUsername == "" && password == ""
      && expiration == DefaultExpiration && !isSubmitting
    }

    /** handleGeneratePassword: the password field takes a fresh password. */
    method HandleGeneratePassword(draws: seq<nat>)
      requires ValidDraws(draws)
      modifies this
      ensures password == Spell(draws) && |password| == PasswordLength
      ensures fullName == old(fullName) && email == old(email) && phoneNumber == old(phoneNumber)
      ensures baseUsername == old(baseUsername) && expiration == old(expiration)
      ensures isSubmitting == old(isSubmitting) && error == old(error)
    {
      password := GeneratePassword(draws);
    }

    /** handleSubmit. Nothing happens unless the guard passes; otherwise the
        trimmed fields and the expiration as it stands go to onCreateUser,
        whose answer `result` either clears the form (after the source's
        500 ms delay) or shows its error. */
    method HandleSubmit(result: CreateResult) returns (sent: Option<Submission>)
      modifies this
      ensures !old(CanSubmit()) ==> sent == None && unchanged(this)
      ensures sent.Some? ==> Filled(AsCreateRequest(sent.value))
      ensures old(CanSubmit()) ==>
        sent == Some(Submission(Trim(old(baseUsername)), Trim(old(password)), old(expiration),
                                adminEmail, Trim(old(fullName)), Trim(old(email)),
                                Trim(old(phoneNumber))))
      ensures old(CanSubmit()) && result.Success? ==> Cleared() && error == ""
      ensures old(CanSubmit()) && result.Failure? ==>
        && error == result.error && !isSubmitting
        && fullName == old(fullName) && email == old(email) && phoneNumber == old(phoneNumber)
        && baseUsername == old(baseUsername) && password == old(password)
        && expiration == old(expiration)
    {
      var name, mail, phone := Trim(fullName), Trim(email), Trim(phoneNumber);
      var base, secret := Trim(baseUsername), Trim(password);
      if name == "" || mail == "" || phone == "" || base == "" || secret == "" {
        return None;
      }
      isSubmitting := true;
      error := "";
      sent := Some(Submission(base, secret, expiration, adminEmail, name, mail, phone));
      if result.Success? {
        Reset();
      } else {
        ShowError(result.error);
      }
    }

    /** The success path: the fields and the expiration return to their
        initial values and the form is no longer submitting. */
    method Reset()
      modifies this
      ensures Cleared() && error == old(error)
    {
      fullName, email, phoneNumber, baseUsername, password := "", "", "", "", "";
      expiration := DefaultExpiration;
      isSubmitting := false;
    }

    /** The failure path: the error is shown and the entered values stay. */
    method ShowError(message: string)
      modifies this
      ensures error == message && !isSubmitting
      ensures fullName == old(fullName) && email == old(email) && phoneNumber == old(phoneNumber)
      ensures baseUsername == old(baseUsername) && password == old(password)
      ensures expiration == old(expiration)
    {
      error := message;
      isSubmitting := false;
    }
  }
}
