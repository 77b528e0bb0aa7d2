/**
 * The sign-up page (`RegisterPage`): four inputs and a submit that clears the previous error,
 * runs three checks in order and, when they all pass, hands the untrimmed name, email and
 * password to the session's `register`.
 */
module RegisterPage {
  import opened Wrappers
  import opened Text
  import opened Forms
  import Validators

  /** `RegisterRequest`: what `register` receives. */
  datatype RegisterRequest = RegisterRequest(name: string, email: string, password: string)

  const PasswordsDiffer := "Passwords do not match."
  const AllFieldsRequired := "All fields are required."
  const PasswordTooShort := "Password must be at least 6 characters long."

  /** The checks of `handleSubmit`, in the order it runs them. */
  function RegisterChecks(name: string, email: string, password: string, confirm: string): seq<Check> {
    [ Check(password != confirm, PasswordsDiffer),
      Check(IsBlank(name) || IsBlank(email) || IsBlank(password), AllFieldsRequired),
      Check(|password| < 6, PasswordTooShort) ]
  }

  /** `handleSubmit` as the chain of tests it is: the first test that holds returns its message. */
  lemma RegisterInOrder(name: string, email: string, password: string, confirm: string)
    ensures FirstFailing(RegisterChecks(name, email, password, confirm)) ==
      if password != confirm then Some(PasswordsDiffer)
      else if IsBlank(name) || IsBlank(email) || IsBlank(password) then Some(AllFieldsRequired)
      else if |password| < 6 then Some(PasswordTooShort)
      else None
  {
    var cs := RegisterChecks(name, email, password, confirm);
    FirstOfThree(cs[0], cs[1], cs[2]);
  }

  /**
   * The checks taken together: the page submits exactly when the two passwords are equal, none
   * of name, email and password is blank, and the password has at least six characters.
   */
  lemma RegisterChecksPassIff(name: string, email: string, password: string, confirm: string)
    ensures FirstFailing(RegisterChecks(name, email, password, confirm)).None? <==>
      password == confirm && !IsBlank(name) && !IsBlank(email) && !IsBlank(password) && |password| >= 6
  {
    RegisterInOrder(name, email, password, confirm);
  }

  /** A mismatch is what gets reported, whatever else is wrong. */
  lemma MismatchReportedFirst(name: string, email: string, password: string, confirm: string)
    requires password != confirm
    ensures FirstFailing(RegisterChecks(name, email, password, confirm)) == Some(PasswordsDiffer)
  {
    RegisterInOrder(name, email, password, confirm);
  }

  /**
   * The page's checks are weaker than the server's: a name the server accepts is never blank,
   * but a name of one character after trimming passes the page and is refused by the server;
   * a password the page accepts does meet the server's length rule.
   */
  lemma PageWeakerThanServer(name: string, password: string)
    ensures Validators.NameValid(name) ==> !IsBlank(name)
    ensures |Trim(name)| == 1 ==> !IsBlank(name) && Validators.NameLength in Validators.RegisterErrors(name, password)
    ensures |password| >= 6 ==> Validators.PasswordTooShort !in Validators.RegisterErrors(name, password)
  {
  }

  class Page {
    var name: string
    var email: string
    var password: string
    var confirmPassword: string
    var formError: Option<string>

    /**
     * `handleSubmit`: the error ends as the first failing check's message, or cleared; only
     * when every check passes is `register` called, with the values as typed.
     */
    method HandleSubmit() returns (call: Option<RegisterRequest>)
      modifies this
      ensures name == old(name) && email == old(email) && password == old(password)
      ensures confirmPassword == old(confirmPassword)
      ensures formError == FirstFailing(RegisterChecks(name, email, password, confirmPassword))
      ensures call.Some? <==> formError.None?
      ensures call.Some? ==> call.value == RegisterRequest(name, email, password)
    {
      RegisterInOrder(name, email, password, confirmPassword);
      formError := None;
      if password != confirmPassword {
        formError := Some(PasswordsDiffer);
        return None;
      }
      if IsBlank(name) || IsBlank(email) || IsBlank(password) {
        formError := Some(AllFieldsRequired);
        return None;
      }
      if |password| < 6 {
        formError := Some(PasswordTooShort);
        return None;
      }
      call := Some(RegisterRequest(name, email, password));
    }
  }
}
