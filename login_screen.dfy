/**
 * The login form's logic: the input validator, which reports the first
 * rule the inputs break, and the submit handler, which dispatches a login
 * request only for inputs that pass.
 */
module LoginScreen {

  import opened JsString
  import opened AuthSlice
  import opened AuthSaga

  /** The validator's verdict: accepted, or the first rule broken. */
  datatype ValidationResult = Ok | MissingUsername | MissingPassword | PasswordTooShort

  /** The least accepted password length, in UTF-16 code units. */
  const MinPasswordLength: nat := 6

  /**
   * The three rules in order, the first failure winning: the username is
   * not blank after trim, the password is not blank after trim, and the
   * untrimmed password is at least six code units long.
   */
  function Validate(username: string, password: string): (r: ValidationResult)
    ensures r == MissingUsername <==> AllWhitespace(username)
    ensures r == MissingPassword <==> !AllWhitespace(username) && AllWhitespace(password)
    ensures r == PasswordTooShort <==>
              !AllWhitespace(username) && !AllWhitespace(password) && Utf16Length(password) < 6
    ensures r == Ok <==>
              !AllWhitespace(username) && !AllWhitespace(password) && Utf16Length(password) >= 6
  {
    TrimEmptyIffAllWhitespace(username);
    TrimEmptyIffAllWhitespace(password);
    if Trim(username) == [] then MissingUsername
    else if Trim(password) == [] then MissingPassword
    else if Utf16Length(password) < MinPasswordLength then PasswordTooShort
    else Ok
  }

  /** The text the form's alert shows for a rejected input. */
  function AlertMessage(r: ValidationResult): (msg: string)
    requires r != Ok
  {
    match r
    case MissingUsername => "Username is required"
    case MissingPassword => "Password is required"
    case PasswordTooShort => "Password must be at least 6 characters long"
  }

  /**
   * The alert a rejected form shows names the first rule broken: a blank
   * username, then a blank password, then a password under six code units.
   */
  lemma RejectionAlerts(username: string, password: string)
    ensures Trim(username) == [] ==>
              Validate(username, password) != Ok
              && AlertMessage(Validate(username, password)) == "Username is required"
    ensures Trim(username) != [] && Trim(password) == [] ==>
              Validate(username, password) != Ok
              && AlertMessage(Validate(username, password)) == "Password is required"
    ensures Trim(username) != [] && Trim(password) != [] && Utf16Length(password) < 6 ==>
              Validate(username, password) != Ok
              && AlertMessage(Validate(username, password)) == "Password must be at least 6 characters long"
  {
  }

  /** A blank username is rejected as missing, whatever the password. */
  lemma BlankUsernameIsMissing(username: string, password: string)
    requires Trim(username) == []
    ensures Validate(username, password) == MissingUsername
  {
  }

  /** With a non-blank username, a blank password is rejected as missing. */
  lemma BlankPasswordIsMissing(username: string, password: string)
    requires Trim(username) != [] && Trim(password) == []
    ensures Validate(username, password) == MissingPassword
  {
  }

  /**
   * The length rule counts the untrimmed password: any password of at least
   * six characters with one non-blank character passes with a non-blank
   * username, even when it is shorter than six once trimmed.
   */
  lemma LengthCountsUntrimmed(username: string, password: string, k: nat)
    requires Trim(username) != []
    requires |password| >= 6 && k < |password| && !IsWhitespace(password[k])
    ensures Validate(username, password) == Ok
  {
    TrimEmptyIffAllWhitespace(username);
    Utf16LengthBounds(password);
  }

  /** Six characters around a two-letter core: trimmed to two, yet accepted. */
  lemma PaddedShortCorePasses()
    ensures |Trim("  ab  ")| == 2
    ensures Validate("test", "  ab  ") == Ok
  {
    assert TrimStart("  ab  ") == TrimStart(" ab  ") == TrimStart("ab  ") == "ab  ";
    assert TrimEnd("ab  ") == TrimEnd("ab ") == TrimEnd("ab") == "ab";
    LengthCountsUntrimmed("test", "  ab  ", 2);
  }

  /**
   * The submit handler: validates the form's fields and, only when they
   * pass, dispatches a login request carrying them unchanged.
   */
  method HandleLogin(username: string, password: string, saga: Coordinator) returns (submitted: bool)
    modifies saga, saga.store
    ensures submitted <==> Validate(username, password) == Ok
    ensures submitted ==>
              saga.Abstract() == Step(old(saga.Abstract()), Dispatch(LoginRequest(username, password)))
    ensures !submitted ==> saga.Abstract() == old(saga.Abstract())
  {
    submitted := Validate(username, password) == Ok;
    if submitted {
      saga.Dispatch(LoginRequest(username, password));
    }
  }
}
