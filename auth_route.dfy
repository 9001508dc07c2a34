/** The `POST /api/auth` route of the frontend: a JSON body names an `action`,
    "signin" or "signup", and the route answers with a status and a JSON body after
    the same kind of guard checks as the form actions. */
module AuthRoute {
  import opened Wrappers
  import Actions

  /** The sign-up fields the body nests under `userData`. */
  datatype UserData = UserData(
    name: Option<string>,
    email: Option<string>,
    password: Option<string>,
    bloodGroup: Option<string>)

  /** The fields of the request body; absent ones are `None`. */
  datatype AuthBody = AuthBody(
    action: Option<string>,
    email: Option<string>,
    password: Option<string>,
    userData: Option<UserData>)

  datatype ResponseBody = ErrorBody(error: string) | SuccessBody(message: string)

  datatype Response = Response(status: int, body: ResponseBody)

  const SignInSuccessful := "Sign in successful"
  const AccountCreated := "Account created successfully"
  const InvalidAction := "Invalid action"
  const InternalError := "Internal server error"

  predicate UserDataFilled(u: UserData) {
    Truthy(u.name) && Truthy(u.email) && Truthy(u.password) && Truthy(u.bloodGroup)
  }

  /** `POST(request)`. `body` is `None` when the request text is not JSON, and
      `request.json()` throws. Reading a field of an absent `userData` throws too;
      both exceptions are caught and answered with 500. */
  function Post(body: Option<AuthBody>): (r: Response)
    ensures r.status in {200, 400, 401, 500}
    ensures r.body.SuccessBody? <==> r.status == 200
    ensures r.status == 500 <==> body.None? || (body.value.action == Some("signup") && body.value.userData.None?)
    ensures body.Some? && body.value.action != Some("signin") && body.value.action != Some("signup") ==>
              r == Response(400, ErrorBody(InvalidAction))
  {
    if body.None? then Response(500, ErrorBody(InternalError))
    else
      var b := body.value;
      if b.action == Some("signin") then
        if !Truthy(b.email) || !Truthy(b.password) then
          Response(400, ErrorBody(Actions.RequiredCredentials))
        else if !Actions.LongEnough(b.password.value) then
          Response(401, ErrorBody(Actions.InvalidCredentials))
        else Response(200, SuccessBody(SignInSuccessful))
      else if b.action == Some("signup") then
        if b.userData.None? then Response(500, ErrorBody(InternalError))
        else if !UserDataFilled(b.userData.value) then
          Response(400, ErrorBody(Actions.AllRequired))
        else Response(200, SuccessBody(AccountCreated))
      else Response(400, ErrorBody(InvalidAction))
  }

  /** Signing in through the route gives the same verdict as `signInAction`: 200 when
      it succeeds, and otherwise its message, with 400 for missing credentials and 401
      for a short password. */
  lemma SignInAgreesWithAction(email: Option<string>, password: Option<string>, userData: Option<UserData>)
    ensures var r := Post(Some(AuthBody(Some("signin"), email, password, userData)));
      var a := Actions.SignIn(email, password);
      (r.status == 200 <==> a.Ok?) &&
      (a.Err? ==> r.body == ErrorBody(a.error)) &&
      (r.status == 400 <==> a == Err(Actions.RequiredCredentials)) &&
      (r.status == 401 <==> a == Err(Actions.InvalidCredentials))
  {
  }

  /** The route's sign-up checks are weaker than `signUpAction`'s: every form the
      action accepts is accepted here with the same fields ... */
  lemma SignUpActionImpliesRoute(f: Actions.SignUpForm)
    requires Actions.SignUp(f).Ok?
    ensures Post(Some(AuthBody(Some("signup"), None, None,
                               Some(UserData(f.name, f.email, f.password, f.bloodGroup))))).status == 200
  {
  }

  /** ... but the route lets through a short password and an address without '@'. */
  lemma RouteSignUpSkipsActionChecks()
    ensures Post(Some(AuthBody(Some("signup"), None, None,
                               Some(UserData(Some("Ann"), Some("ann"), Some("pw"), Some("O+")))))).status == 200
    ensures Actions.SignUp(Actions.SignUpForm(Some("Ann"), Some("ann"), Some("pw"), Some("O+"), None, Some("donor"))) ==
              Err(Actions.PasswordTooShort)
  {
  }

  /** A sign-up whose body has no `userData` fails with 500 rather than 400. */
  lemma SignUpWithoutUserDataIsServerError(email: Option<string>, password: Option<string>)
    ensures Post(Some(AuthBody(Some("signup"), email, password, None))) == Response(500, ErrorBody(InternalError))
  {
  }
}
