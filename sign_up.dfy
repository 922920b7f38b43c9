/** The checks `actions/signUpAction.ts` runs on the sign-up form before it sends the request,
    and the result it returns. The request is outside the model: its outcome is passed in. */
module SignUp {
  import opened Wrappers
  import opened JsText

  /** The form fields; `formData.get` gives `null` for a missing field. */
  datatype SignUpForm = SignUpForm(name: Option<string>, email: Option<string>, password: Option<string>,
                                   confirmPassword: Option<string>)

  /** The body of the sign-up request. */
  datatype SignUpRequest = SignUpRequest(name: string, email: string, password: string)

  /** What the server answered, with its `message` if it sent one. */
  datatype SignUpReply = Created(message: Option<string>) | Rejected(serverMessage: Option<string>)

  datatype SignUpResult = SignUpResult(success: bool, message: string)

  /** A field is given when it is present and not empty (`!value` rejects `null` and `""`). */
  predicate Filled(field: Option<string>)
  {
    field.Some? && field.value != ""
  }

  predicate AllFilled(form: SignUpForm)
  {
    Filled(form.name) && Filled(form.email) && Filled(form.password) && Filled(form.confirmPassword)
  }

  /** The two early returns, in order: a missing field first, then a password mismatch; the
      request that is sent otherwise carries the name, the e-mail and the password. */
  function Validate(form: SignUpForm): (r: Result<SignUpRequest, string>)
    ensures r.Ok? <==> AllFilled(form) && form.password == form.confirmPassword
    ensures !AllFilled(form) ==> r == Err("All fields are required")
    ensures AllFilled(form) && form.password != form.confirmPassword ==> r == Err("Passwords do not match")
    ensures r.Ok? ==> r.value == SignUpRequest(form.name.value, form.email.value, form.password.value)
  {
    if !(Filled(form.name) && Filled(form.email) && Filled(form.password) && Filled(form.confirmPassword)) then
      Err("All fields are required")
    else if form.password.value != form.confirmPassword.value then
      Err("Passwords do not match")
    else
      Ok(SignUpRequest(form.name.value, form.email.value, form.password.value))
  }

  /** `signUpAction`: a failed check is returned as it is; otherwise the server's answer, with
      `"Account created successfully"` and `"Signup failed"` standing in for a missing message. */
  function SignUpAction(form: SignUpForm, reply: SignUpReply): (r: SignUpResult)
    ensures Validate(form).Err? ==> r == SignUpResult(false, Validate(form).error)
    ensures Validate(form).Ok? ==> (r.success <==> reply.Created?)
    ensures Validate(form).Ok? && reply.Created? ==> r.message == OrElse(reply.message, "Account created successfully")
    ensures Validate(form).Ok? && reply.Rejected? ==> r.message == OrElse(reply.serverMessage, "Signup failed")
    ensures r.message != ""
  {
    match Validate(form)
    case Err(e) => SignUpResult(false, e)
    case Ok(_) =>
      match reply
      case Created(m) => SignUpResult(true, OrElse(m, "Account created successfully"))
      case Rejected(m) => SignUpResult(false, OrElse(m, "Signup failed"))
  }

  /** A failed check returns before the request: the server's answer cannot change the result. */
  lemma ChecksPrecedeRequest(form: SignUpForm, a: SignUpReply, b: SignUpReply)
    requires !AllFilled(form) || form.password != form.confirmPassword
    ensures SignUpAction(form, a) == SignUpAction(form, b)
    ensures !SignUpAction(form, a).success
  {
  }

  /** A missing field is reported even when the passwords also differ. */
  lemma MissingFieldFirst(form: SignUpForm, reply: SignUpReply)
    requires !AllFilled(form) && form.password != form.confirmPassword
    ensures SignUpAction(form, reply).message == "All fields are required"
  {
  }

  /** Only a form with every field given and matching passwords can succeed. */
  lemma SuccessNeedsValidForm(form: SignUpForm, reply: SignUpReply)
    requires SignUpAction(form, reply).success
    ensures AllFilled(form) && form.password.value == form.confirmPassword.value
    ensures reply.Created?
  {
  }
}
