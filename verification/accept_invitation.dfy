/**
 * The invitation page: the token gate that loads the invitation, and the
 * registration form that signs the invited user up with the invitation's
 * e-mail address.
 */
module AcceptInvitation {
  import opened Common
  import opened Ui
  import opened AuthRoles
  import opened AuthPage

  datatype Invitation = Invitation(id: string, email: string, role: AppRole, status: string)

  /** The reply of the invitation lookup: an error flag and the data, which may be missing. */
  datatype Lookup = Lookup(hasError: bool, data: Option<Invitation>)

  /** After the page's effect: the toast shown, where it navigated, the token looked up and the invitation kept. */
  datatype Loaded = Loaded(
    toast: Option<Toast>,
    navigate: Option<string>,
    lookedUp: Option<string>,
    invitation: Option<Invitation>)

  /**
   * The effect run for the `token` query parameter. A missing or empty token
   * goes back to `/auth` without a lookup; a lookup that errs or finds
   * nothing does too; otherwise the invitation is stored.
   */
  function Load(token: Option<string>, lookup: string -> Lookup): (r: Loaded)
    ensures token.None? || token.value == [] ==>
      r == Loaded(Some(Toast("Error", "Token de invitación no válido", true)), Some("/auth"), None, None)
    ensures token.Some? && token.value != [] ==> r.lookedUp == token
    ensures r.invitation.Some? <==>
      token.Some? && token.value != [] && !lookup(token.value).hasError && lookup(token.value).data.Some?
    ensures r.invitation.Some? ==> r.invitation == lookup(token.value).data && r.toast.None? && r.navigate.None?
    ensures r.invitation.None? ==> r.navigate == Some("/auth") && r.toast.Some? && r.toast.value.destructive
  {
    if token.None? || token.value == [] then
      Loaded(Some(Toast("Error", "Token de invitación no válido", true)), Some("/auth"), None, None)
    else
      var reply := lookup(token.value);
      if reply.hasError || reply.data.None? then
        Loaded(Some(Toast("Error", "Invitación no encontrada o expirada", true)), Some("/auth"), token, None)
      else
        Loaded(None, None, token, reply.data)
  }

  datatype RegisterForm = RegisterForm(name: string, password: string, confirmPassword: string)

  /**
   * `handleSubmit`. The pre-checks are those of the sign-up page; then
   * `signUp` gets the invitation's e-mail (the e-mail field is disabled), no
   * role, so its default applies, and the token as an extra argument it
   * does not declare. Success goes to `/auth`; an error is shown verbatim.
   */
  function Register(invitation: Invitation, form: RegisterForm, outcome: CallOutcome): (e: Effects)
    ensures e.signUp.Some? <==> PasswordPrecheck(form.password, form.confirmPassword).None?
    ensures e.signUp.None? ==> e.loading == [] && e.navigate.None?
    ensures e.signUp.None? ==>
      e.toast == Toast("Error", PasswordPrecheck(form.password, form.confirmPassword).value, true)
    ensures e.signUp.Some? ==> e.signUp.value == SignUpCall(invitation.email, form.password, form.name, DefaultSignUpRole)
    ensures e.signUp.Some? ==> e.loading == [true, false]
    ensures e.navigate.Some? <==> e.signUp.Some? && outcome == Returned(None)
    ensures e.navigate.Some? ==> e.navigate.value == "/auth"
    ensures e.signUp.Some? && outcome.Returned? && outcome.error.Some? ==>
      e.toast == Toast("Error", outcome.error.value, true)
  {
    match PasswordPrecheck(form.password, form.confirmPassword)
    case Some(message) => Effects(Toast("Error", message, true), None, None, false, [])
    case None =>
      var call := SignUpCall(invitation.email, form.password, form.name, DefaultSignUpRole);
      match outcome
      case Threw => Effects(Unexpected, None, Some(call), false, [true, false])
      case Returned(Some(message)) => Effects(Toast("Error", message, true), None, Some(call), false, [true, false])
      case Returned(None) =>
        Effects(Toast("¡Bienvenido!", "Tu cuenta ha sido creada correctamente. Ya puedes iniciar sesión.", false),
                Some("/auth"), Some(call), false, [true, false])
  }

  /** The e-mail signed up is the invitation's whatever was typed, and the role is the wrapper's default, not the invitation's. */
  lemma SignsUpInvitedAddress(invitation: Invitation, form: RegisterForm, outcome: CallOutcome)
    requires form.password == form.confirmPassword && |form.password| >= 6
    ensures Register(invitation, form, outcome).signUp.value.email == invitation.email
    ensures Register(invitation, form, outcome).signUp.value.role == "ADMIN"
  {
  }
}
