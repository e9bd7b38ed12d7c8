/** The admin login form (components/admin-login-form.tsx) and its effect on the session. */
module LoginForm {
  import opened Wrappers
  import opened Api
  import opened Auth

  /** The `data` of a login response: the token it may carry. */
  datatype LoginBody = LoginBody(token: Option<string>)

  /** `if (response.data.token) localStorage.setItem("adminToken", token)`. */
  function TokenWrites(entries: map<string, string>, token: Option<string>): map<string, string>
  {
    if Truthy(token) then entries[AdminTokenKey := token.value] else entries
  }

  /** What a successful submission as `id` leaves in the store: the token, then `login(id)`. */
  function SuccessWrites(entries: map<string, string>, id: string, token: Option<string>): map<string, string>
  {
    LoginWrites(TokenWrites(entries, token), id)
  }

  /** After a successful login that returned a token, a reload restores the same admin. */
  lemma SuccessWithTokenIsRestored(entries: map<string, string>, id: string, token: string)
    requires id != "" && token != ""
    ensures StoredAdmin(SuccessWrites(entries, id, Some(token))) == Some(id)
  {
  }

  /**
   * A successful login without a token logs the admin in, yet the store then lacks a usable
   * token (unless an earlier one is still there), so a reload restores nothing.
   */
  lemma SuccessWithoutTokenIsNotRestored(entries: map<string, string>, id: string, token: Option<string>)
    requires !Truthy(token) && !Truthy(GetItem(entries, AdminTokenKey))
    ensures StoredAdmin(SuccessWrites(entries, id, token)) == None
  {
  }

  /** `AdminLoginForm`: its three pieces of state and the session it logs into. */
  class AdminLoginForm {
    var adminId: string
    var password: string
    var isLoading: bool
    const auth: AuthProvider

    constructor (auth: AuthProvider)
      ensures adminId == "" && password == "" && !isLoading && this.auth == auth
    {
      adminId, password := "", "";
      isLoading := false;
      this.auth := auth;
    }

    method EnterAdminId(value: string)
      modifies this`adminId
      ensures adminId == value
    {
      adminId := value;
    }

    method EnterPassword(value: string)
      modifies this`password
      ensures password == value
    {
      password := value;
    }

    /**
     * The synchronous part of `handleSubmit`: with either field empty it stops there, changing
     * nothing; otherwise loading is switched on before the call is issued.
     */
    method BeginSubmit() returns (proceed: bool)
      modifies this`isLoading
      ensures proceed <==> adminId != "" && password != ""
      ensures proceed ==> isLoading
      ensures !proceed ==> isLoading == old(isLoading)
    {
      if adminId == "" || password == "" {
        proceed := false;
        return;
      }
      isLoading := true;
      proceed := true;
    }

    /**
     * The part after `await adminLogin(...)`: on success the token (when truthy) is stored and
     * `login(adminId)` is called, whether or not a token came back, and the page goes to the
     * dashboard; on failure there is no write, no login and no navigation. Loading is off
     * afterwards in both cases.
     */
    method Settle(response: Response<LoginBody>) returns (navigate: bool)
      requires auth.Valid()
      modifies this`isLoading, auth, auth.storage
      ensures auth.Valid() && !isLoading
      ensures navigate <==> response.Received?
      ensures response.Received? ==>
        && auth.storage.entries == SuccessWrites(old(auth.storage.entries), adminId, response.body.token)
        && auth.isAdminLoggedIn && auth.adminId == Some(adminId) && auth.isLoading == old(auth.isLoading)
      ensures response.Failed? ==> unchanged(auth, auth.storage)
    {
      match response {
        case Received(body) =>
          if Truthy(body.token) {
            auth.storage.entries := auth.storage.entries[AdminTokenKey := body.token.value];
          }
          auth.Login(adminId);
          navigate := true;
        case Failed =>
          navigate := false;
      }
      isLoading := false;
    }

    /**
     * `handleSubmit`, with the awaited login response as a parameter. The empty-field guard
     * issues no request and changes nothing; past it the request carries both fields and the
     * call settles as Settle says.
     */
    method HandleSubmit(response: Response<LoginBody>) returns (request: Option<Request>, navigate: bool)
      requires auth.Valid()
      modifies this`isLoading, auth, auth.storage
      ensures auth.Valid()
      ensures adminId == "" || password == "" ==>
        request == None && !navigate && isLoading == old(isLoading) && unchanged(auth, auth.storage)
      ensures adminId != "" && password != "" ==>
        && request == Some(AdminLogin(adminId, password))
        && !isLoading
        && (navigate <==> response.Received?)
        && (response.Received? ==>
              && auth.storage.entries == SuccessWrites(old(auth.storage.entries), adminId, response.body.token)
              && auth.isAdminLoggedIn && auth.adminId == Some(adminId)
              && auth.isLoading == old(auth.isLoading))
        && (response.Failed? ==> unchanged(auth, auth.storage))
    {
      var proceed := BeginSubmit();
      if !proceed {
        request, navigate := None, false;
        return;
      }
      request := Some(AdminLogin(adminId, password));
      navigate := Settle(response);
    }
  }

  /**
   * Logging in with a token and then reloading the page: the reloaded session is logged in
   * as the same admin.
   */
  method LoginThenReload(initial: map<string, string>, id: string, password: string, token: string)
    returns (loggedIn: bool, restoredId: Option<string>)
    requires id != "" && password != "" && token != ""
    ensures loggedIn && restoredId == Some(id)
  {
    var storage := new Storage(initial);
    var session := OpenPage(storage);
    var form := new AdminLoginForm(session);
    form.EnterAdminId(id);
    form.EnterPassword(password);
    var request, navigate := form.HandleSubmit(Received(LoginBody(Some(token))));
    SuccessWithTokenIsRestored(initial, id, token);
    var reloaded := OpenPage(storage);
    loggedIn, restoredId := reloaded.isAdminLoggedIn, reloaded.adminId;
  }

  /**
   * Logging in when the server sends no token, on a store that holds none: the live session
   * is logged in, but the reloaded one is not.
   */
  method TokenlessLoginThenReload(initial: map<string, string>, id: string, password: string)
    returns (loggedInBefore: bool, loggedInAfter: bool)
    requires id != "" && password != "" && AdminTokenKey !in initial
    ensures loggedInBefore && !loggedInAfter
  {
    var storage := new Storage(initial);
    var session := OpenPage(storage);
    var form := new AdminLoginForm(session);
    form.EnterAdminId(id);
    form.EnterPassword(password);
    var request, navigate := form.HandleSubmit(Received(LoginBody(None)));
    loggedInBefore := session.isAdminLoggedIn;
    var reloaded := OpenPage(storage);
    loggedInAfter := reloaded.isAdminLoggedIn;
  }
}
