/** The admin-registration form (backoffice/src/pages/Register.tsx): two fields, two
    per-field error texts, and a submit that hands `{email, password}` to the
    `onSubmit` prop only when `validate` passes. The prop itself is outside this
    model; every call to it is recorded in `submitted`. */
module RegisterPage {
  import opened Wrappers
  import opened Credentials
  import opened JsText

  /** What a submit hands to `onSubmit`: one record when the gate opens, none otherwise. */
  function Handed(gate: Option<Submission>): (r: seq<Submission>)
    ensures |r| <= 1
    ensures r == [] <==> gate.None?
    ensures gate.Some? ==> r == [gate.value]
  {
    match gate
    case Some(c) => [c]
    case None => []
  }

  class Register {
    var email: string
    var password: string
    var emailError: string
    var passwordError: string
    /** Every `{email, password}` passed to `onSubmit`, oldest first. */
    var submitted: seq<Submission>

    /** The state `useState` starts from. */
    constructor ()
      ensures email == "" && password == "" && emailError == "" && passwordError == ""
      ensures submitted == []
    {
      email, password := "", "";
      emailError, passwordError := "", "";
      submitted := [];
    }

    /** The email input's `onChange`: store the new text and clear the email error;
        the password error stays as it was. */
    method ChangeEmail(value: string)
      modifies this`email, this`emailError
      ensures email == value && emailError == ""
      ensures passwordError == old(passwordError)
    {
      email := value;
      if emailError != "" {
        emailError := "";
      }
    }

    /** The password input's `onChange`: store the new text and clear only the
        password error. */
    method ChangePassword(value: string)
      modifies this`password, this`passwordError
      ensures password == value && passwordError == ""
      ensures emailError == old(emailError)
    {
      password := value;
      if passwordError != "" {
        passwordError := "";
      }
    }

    /** `validate`: both checks always run, each sets its own error text, and the
        verdict is the credential rule on the current fields. */
    method Validate() returns (valid: bool)
      modifies this`emailError, this`passwordError
      ensures valid == CredentialsValid(email, password)
      ensures emailError == EmailErrorFor(email)
      ensures passwordError == PasswordErrorFor(password)
    {
      valid := true;
      if !EmailValid(email) {
        emailError := EMAIL_INVALID;
        valid := false;
      } else {
        emailError := "";
      }
      if Utf16Length(password) < MIN_PASSWORD_LENGTH {
        passwordError := PASSWORD_TOO_SHORT;
        valid := false;
      } else {
        passwordError := "";
      }
    }

    /** `handleSubmit`: validate, then call `onSubmit` with the current fields exactly
        once when the fields are valid, and not at all otherwise. */
    method HandleSubmit()
      modifies this`emailError, this`passwordError, this`submitted
      ensures emailError == EmailErrorFor(email)
      ensures passwordError == PasswordErrorFor(password)
      ensures submitted == old(submitted) + Handed(SubmitGate(email, password))
    {
      var valid := Validate();
      if valid {
        submitted := submitted + [Submission(email, password)];
      }
    }
  }
}
