/**
 * The login page's credential check: only the demo address and password
 * log in; a login stores a token and the demo user and opens the
 * dashboard, a refusal names the demo credentials and stores nothing.
 */
module LoginScreen {
  import opened Wrappers

  const DemoEmail: string := "user@mastery.com"
  const DemoPassword: string := "mastery123"
  const DemoToken: string := "mock-jwt-token"

  function InvalidCredentialsMessage(): string {
    "Invalid credentials. Use email: " + DemoEmail + " and password: " + DemoPassword
  }

  /** What `handleLogin` hands back to the form. */
  datatype LoginResult = LoginResult(success: bool, error: Option<string>)

  /** The stored `user` entry (its `avatar` is always null and is not kept). */
  datatype SessionUser = SessionUser(
    id: int, name: string, email: string,
    tasksCompleted: int, focusHours: int, streak: int)

  function DemoUser(email: string): SessionUser {
    SessionUser(1, "Alex Johnson", email, 47, 23, 7)
  }

  /** The stored entries and the route, as `handleLogin` changes them. */
  class Session {
    var authToken: Option<string>
    var storedUser: Option<SessionUser>
    var navigatedTo: Option<string>

    constructor ()
      ensures authToken == None && storedUser == None && navigatedTo == None
    {
      authToken, storedUser, navigatedTo := None, None, None;
    }

    /** `handleLogin`: success exactly for the demo credentials, with the token, the user and the dashboard route; otherwise an error and no change. */
    method HandleLogin(email: string, password: string) returns (r: LoginResult)
      modifies this
      ensures r.success <==> email == DemoEmail && password == DemoPassword
      ensures r.success ==> (
        r.error == None && authToken == Some(DemoToken)
        && storedUser == Some(DemoUser(email)) && navigatedTo == Some("/dashboard"))
      ensures !r.success ==> (
        r.error == Some(InvalidCredentialsMessage())
        && authToken == old(authToken) && storedUser == old(storedUser) && navigatedTo == old(navigatedTo))
    {
      if email == DemoEmail && password == DemoPassword {
        authToken := Some(DemoToken);
        storedUser := Some(DemoUser(email));
        navigatedTo := Some("/dashboard");
        r := LoginResult(true, None);
      } else {
        r := LoginResult(false, Some(InvalidCredentialsMessage()));
      }
    }
  }

  /** The refusal names both demo credentials. */
  lemma RefusalNamesCredentials()
    ensures InvalidCredentialsMessage()[32..48] == DemoEmail
    ensures InvalidCredentialsMessage()[|InvalidCredentialsMessage()| - 10..] == DemoPassword
  {
  }
}
