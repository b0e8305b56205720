/** The decision logic of the OAuth sign-in flow: the guards of the two login
    entry points, the session the login leaves behind, the state check and
    dispatch of the callback, the per-provider extraction of email and name
    from the provider's answers, and the login a new account receives. */
module OAuth {
  import opened Wrappers
  import opened Text
  import Config

  /** A decoded JSON value as the provider APIs return it. */
  datatype Json =
    | JNull
    | JBool(b: bool)
    | JInt(i: int)
    | JStr(s: string)
    | JList(items: seq<Json>)
    | JObject(fields: map<string, Json>)

  /** Python truthiness. */
  predicate Truthy(j: Json) {
    match j
    case JNull => false
    case JBool(b) => b
    case JInt(i) => i != 0
    case JStr(s) => s != ""
    case JList(items) => items != []
    case JObject(fields) => fields != map[]
  }

  /** `d.get(key, default)`. */
  function GetOr(d: map<string, Json>, key: string, default: Json): (r: Json)
    ensures key in d ==> r == d[key]
    ensures key !in d ==> r == default
  {
    if key in d then d[key] else default
  }

  /** `d.get(key)`. */
  function Get(d: map<string, Json>, key: string): Json {
    GetOr(d, key, JNull)
  }

  /** `a or b`. */
  function Or(a: Json, b: Json): (r: Json)
    ensures Truthy(a) ==> r == a
    ensures !Truthy(a) ==> r == b
  {
    if Truthy(a) then a else b
  }

  /** `str(j)` inside an f-string, for the scalar values a name field holds;
      a list or an object is rendered by a placeholder. */
  function Display(j: Json): string {
    match j
    case JNull => "None"
    case JBool(b) => if b then "True" else "False"
    case JInt(i) => IntToString(i)
    case JStr(s) => s
    case JList(_) => "[...]"
    case JObject(_) => "{...}"
  }

  datatype Fault =
    | Http(status: int, detail: string)
    | AttributeError
    | KeyError
    | TypeError
    | ValueError

  const NoEmailDetail := "Email not provided by OAuth provider"
  const InvalidStateDetail := "Invalid state parameter"
  const MissingProjectDetail := "Missing project_id"
  const ProjectNotFoundDetail := "Project not found"
  const ProjectOAuthDisabledDetail := "OAuth authentication is not enabled for this project"

  function NotSupportedDetail(provider: string): string {
    "OAuth provider " + provider + " not supported"
  }

  function ProviderDisabledDetail(provider: string): string {
    provider + " authentication is not enabled for this project"
  }

  // ---------------------------------------------------------------------------
  // Email and name from the provider's answers

  /** The VK display name: `"<first_name> <last_name>"` of the first user in
      `response`, stripped, or `""` when there is none. */
  function VkName(userInfo: map<string, Json>): (r: Result<string, Fault>)
    ensures !Truthy(Get(userInfo, "response")) ==> r == Success("")
    ensures Get(userInfo, "response") == JList([]) ==> r == Success("")
  {
    var response := Get(userInfo, "response");
    if !Truthy(response) then Success("")
    else
      match response
      case JList(items) =>
        (match items[0]
         case JObject(user) =>
           Success(Strip(Display(GetOr(user, "first_name", JStr(""))) + " " + Display(GetOr(user, "last_name", JStr("")))))
         case _ => Failure(AttributeError))
      case JStr(_) => Failure(AttributeError)
      case JObject(_) => Failure(KeyError)
      case _ => Failure(TypeError)
  }

  /** `extract_user_info`: the email and name a provider reports, or the
      400 error when it reports no email. `tokenResponse` is `None` when no
      token response is passed. */
  function ExtractUserInfo(provider: string, userInfo: map<string, Json>, tokenResponse: Option<map<string, Json>>): (r: Result<(Json, Json), Fault>)
    ensures r.Success? ==> Truthy(r.value.0)
    ensures provider !in Config.ProviderNames ==> r == Failure(Http(400, NoEmailDetail))
  {
    var fields: Result<(Json, Json), Fault> :=
      if provider == "google" then
        Success((Get(userInfo, "email"), Or(Get(userInfo, "name"), GetOr(userInfo, "given_name", JStr("")))))
      else if provider == "github" then
        Success((Get(userInfo, "email"), Or(Get(userInfo, "login"), GetOr(userInfo, "name", JStr("")))))
      else if provider == "yandex" then
        Success((Get(userInfo, "default_email"), Or(Get(userInfo, "display_name"), GetOr(userInfo, "real_name", JStr("")))))
      else if provider == "vk" then
        var email := if tokenResponse.Some? && tokenResponse.value != map[] then Get(tokenResponse.value, "email") else JNull;
        match VkName(userInfo)
        case Success(name) => Success((email, JStr(name)))
        case Failure(f) => Failure(f)
      else
        Success((JNull, JStr("Unknown")));
    match fields
    case Failure(f) => Failure(f)
    case Success((email, name)) =>
      if !Truthy(email) then Failure(Http(400, NoEmailDetail)) else Success((email, name))
  }

  /** Where each of the three key-based providers keeps the email, the
      preferred name and the fallback name. */
  datatype ClaimKeys = ClaimKeys(email: string, name: string, fallbackName: string)

  function ClaimKeysOf(provider: string): Option<ClaimKeys> {
    if provider == "google" then Some(ClaimKeys("email", "name", "given_name"))
    else if provider == "github" then Some(ClaimKeys("email", "login", "name"))
    else if provider == "yandex" then Some(ClaimKeys("default_email", "display_name", "real_name"))
    else None
  }

  /** For Google, GitHub and Yandex the answer is read from the user info
      alone, through the provider's keys: the email when truthy, and the
      preferred name when truthy, else the fallback name, else `""`. */
  lemma {:induction false} KeyedProvidersReadUserInfo(provider: string, userInfo: map<string, Json>, tokenResponse: Option<map<string, Json>>)
    requires ClaimKeysOf(provider).Some?
    ensures var k := ClaimKeysOf(provider).value;
      var email := Get(userInfo, k.email);
      ExtractUserInfo(provider, userInfo, tokenResponse) ==
        if !Truthy(email) then Failure(Http(400, NoEmailDetail))
        else if Truthy(Get(userInfo, k.name)) then Success((email, Get(userInfo, k.name)))
        else Success((email, GetOr(userInfo, k.fallbackName, JStr(""))))
  {
  }

  /** For VK the email is read from the token response only: the same user
      info with and without a token response carrying an email differ exactly
      in that email. */
  lemma {:induction false} VkEmailFromTokenResponse(userInfo: map<string, Json>, tokenResponse: Option<map<string, Json>>, email: string)
    requires VkName(userInfo).Success? && email != ""
    ensures ExtractUserInfo("vk", userInfo, None) == Failure(Http(400, NoEmailDetail))
    ensures ExtractUserInfo("vk", userInfo, Some(map["email" := JStr(email)])) ==
      Success((JStr(email), JStr(VkName(userInfo).value)))
    ensures tokenResponse.Some? && "email" !in tokenResponse.value ==>
      ExtractUserInfo("vk", userInfo, tokenResponse) == Failure(Http(400, NoEmailDetail))
  {
    var t := map["email" := JStr(email)];
    assert "email" in t && t != map[];
    assert Get(t, "email") == JStr(email);
  }

  /** A VK user with both name parts gives `"first last"`, the two parts
      trimmed of outer whitespace as a whole. */
  lemma VkNameJoinsParts(first: string, last: string)
    requires first != [] && last != []
    requires !IsAsciiSpace(first[0]) && !IsAsciiSpace(last[|last| - 1])
    ensures VkName(map["response" := JList([JObject(map["first_name" := JStr(first), "last_name" := JStr(last)])])]) ==
      Success(first + " " + last)
  {
    var s := first + " " + last;
    assert s[0] == first[0];
    assert s[|s| - 1] == last[|last| - 1];
    StripUnchanged(s);
  }

  /** Other providers never look at the token response. */
  lemma TokenResponseOnlyForVk(provider: string, userInfo: map<string, Json>, t: Option<map<string, Json>>, t': Option<map<string, Json>>)
    requires provider != "vk"
    ensures ExtractUserInfo(provider, userInfo, t) == ExtractUserInfo(provider, userInfo, t')
  {
  }

  // ---------------------------------------------------------------------------
  // The login of a new account

  /** `name if name else email.split('@')[0]`. */
  function DeriveLogin(name: Json, email: Json): (r: Result<Json, Fault>)
    ensures Truthy(name) ==> r == Success(name)
    ensures !Truthy(name) && email.JStr? ==> r.Success? && r.value.JStr? && '@' !in r.value.s
    ensures !Truthy(name) && !email.JStr? ==> r == Failure(AttributeError)
  {
    if Truthy(name) then Success(name)
    else
      match email
      case JStr(e) => Success(JStr(BeforeFirst(e, '@')))
      case _ => Failure(AttributeError)
  }

  /** Without a name, the login is the local part of the email: the email is
      the login, then '@', then the rest. */
  lemma {:induction false} LoginIsEmailLocalPart(local: string, domain: string, name: Json)
    requires '@' !in local && !Truthy(name)
    ensures DeriveLogin(name, JStr(local + "@" + domain)) == Success(JStr(local))
  {
    SplitFirstOf(local, '@', domain);
  }

  /** An email without '@' is the login whole. */
  lemma LoginOfEmailWithoutAt(email: string, name: Json)
    requires '@' !in email && !Truthy(name)
    ensures DeriveLogin(name, JStr(email)) == Success(JStr(email))
  {
    var r := BeforeFirst(email, '@');
    assert |r| == |email|;
    assert r == email;
    assert DeriveLogin(name, JStr(email)) == Success(JStr(r));
  }

  // ---------------------------------------------------------------------------
  // Login entry points

  /** `admin_oauth_login`: only the configured providers are served. */
  function AdminLoginGuard(provider: string, configured: set<string>): (r: Result<(), Fault>)
    ensures r.Success? <==> provider in configured
    ensures r.Failure? ==> r.error == Http(404, NotSupportedDetail(provider))
  {
    if provider !in configured then Failure(Http(404, NotSupportedDetail(provider))) else Success(())
  }

  /** The OAuth settings of a project: the switch and the per-provider JSON. */
  datatype Project = Project(oauthEnabled: bool, oauthProviders: Option<map<string, Json>>)

  /** `user_oauth_login`, up to the redirect: the provider must be configured,
      the project must exist and have OAuth on, and a provider the project
      lists must be enabled there; a provider it does not list is allowed. */
  function UserLoginGuard(provider: string, configured: set<string>, project: Option<Project>): (r: Result<(), Fault>)
    ensures r.Success? ==> provider in configured && project.Some? && project.value.oauthEnabled
  {
    if provider !in configured then Failure(Http(404, NotSupportedDetail(provider)))
    else if project.None? then Failure(Http(404, ProjectNotFoundDetail))
    else if !project.value.oauthEnabled then Failure(Http(403, ProjectOAuthDisabledDetail))
    else
      match project.value.oauthProviders
      case Some(listed) =>
        if listed != map[] && provider in listed then
          match listed[provider]
          case JObject(settings) =>
            if !Truthy(GetOr(settings, "enabled", JBool(false))) then Failure(Http(403, ProviderDisabledDetail(provider)))
            else Success(())
          case _ => Failure(AttributeError)
        else Success(())
      case None => Success(())
  }

  /** A provider the project does not list passes; a listed one passes
      exactly when its `enabled` flag is truthy (absent reads as false). */
  lemma {:induction false} ProjectProviderRule(provider: string, configured: set<string>, p: Project)
    requires provider in configured && p.oauthEnabled
    ensures p.oauthProviders.None? || provider !in p.oauthProviders.value ==>
      UserLoginGuard(provider, configured, Some(p)) == Success(())
    ensures p.oauthProviders.Some? && provider in p.oauthProviders.value && p.oauthProviders.value[provider].JObject? ==>
      (UserLoginGuard(provider, configured, Some(p)).Success? <==>
       Truthy(GetOr(p.oauthProviders.value[provider].fields, "enabled", JBool(false))))
    ensures p.oauthProviders.Some? && provider in p.oauthProviders.value && p.oauthProviders.value[provider] == JObject(map[]) ==>
      UserLoginGuard(provider, configured, Some(p)) == Failure(Http(403, ProviderDisabledDetail(provider)))
  {
    if p.oauthProviders.Some? && provider in p.oauthProviders.value {
      assert p.oauthProviders.value != map[];
    }
  }

  /** With OAuth off for the project, no provider settings help. */
  lemma ProjectSwitchDominates(provider: string, configured: set<string>, p: Project)
    requires provider in configured && !p.oauthEnabled
    ensures UserLoginGuard(provider, configured, Some(p)) == Failure(Http(403, ProjectOAuthDisabledDetail))
  {
  }

  type Session = map<string, Json>

  /** The session after a login redirect: the state, the user type, and for
      a project user the project id. */
  function AdminLoginSession(session: Session, state: string): Session {
    session["oauth_state" := JStr(state)]["user_type" := JStr("admin")]
  }

  function UserLoginSession(session: Session, state: string, projectId: int): Session {
    session["oauth_state" := JStr(state)]["user_type" := JStr("user")]["project_id" := JInt(projectId)]
  }

  // ---------------------------------------------------------------------------
  // Callback

  /** Which account table the callback signs the person into. */
  datatype Flow = AdminFlow | UserFlow(projectId: int)

  /** `int(project_id)` for the value the session holds. */
  function ProjectIdOf(j: Json): Result<int, Fault> {
    match j
    case JInt(i) => Success(i)
    case JBool(b) => Success(if b then 1 else 0)
    case JStr(s) =>
      (match ParseInt(s)
       case Some(i) => Success(i)
       case None => Failure(ValueError))
    case _ => Failure(TypeError)
  }

  /** `process_oauth_callback` up to the token exchange and after it: the
      `state` query parameter must equal the session's, and the session's
      `user_type` (default `"admin"`) picks the flow; a user flow needs a
      truthy `project_id`. */
  function CallbackPlan(state: string, session: Session): (r: Result<Flow, Fault>)
    ensures Get(session, "oauth_state") != JStr(state) ==> r == Failure(Http(400, InvalidStateDetail))
  {
    if Get(session, "oauth_state") != JStr(state) then Failure(Http(400, InvalidStateDetail))
    else if GetOr(session, "user_type", JStr("admin")) == JStr("admin") then Success(AdminFlow)
    else
      var projectId := Get(session, "project_id");
      if !Truthy(projectId) then Failure(Http(400, MissingProjectDetail))
      else
        match ProjectIdOf(projectId)
        case Success(id) => Success(UserFlow(id))
        case Failure(f) => Failure(f)
  }

  /** The session once the callback is done with it. */
  function SessionAfterCallback(session: Session): (r: Session)
    ensures "oauth_state" !in r && "user_type" !in r && "project_id" !in r
    ensures forall k :: k in session && k !in {"oauth_state", "user_type", "project_id"} ==> k in r && r[k] == session[k]
  {
    session - {"oauth_state", "user_type", "project_id"}
  }

  /** The callback after an admin login accepts exactly the state the login
      issued and signs into the admin table; after a project-user login it
      signs into that project, unless the project id is 0, which reads as
      missing. */
  lemma {:induction false} CallbackFollowsLogin(session: Session, issued: string, returned: string, projectId: int)
    ensures CallbackPlan(returned, AdminLoginSession(session, issued)) ==
      if returned == issued then Success(AdminFlow) else Failure(Http(400, InvalidStateDetail))
    ensures returned == issued ==>
      CallbackPlan(returned, UserLoginSession(session, issued, projectId)) ==
        if projectId != 0 then Success(UserFlow(projectId)) else Failure(Http(400, MissingProjectDetail))
  {
    var u := UserLoginSession(session, issued, projectId);
    assert Get(u, "oauth_state") == JStr(issued);
    assert GetOr(u, "user_type", JStr("admin")) == JStr("user");
    assert Get(u, "project_id") == JInt(projectId);
  }

  /** A state is good for one callback: once the callback has cleared the
      session, the same state is refused. */
  lemma StateIsSingleUse(session: Session, state: string)
    ensures CallbackPlan(state, SessionAfterCallback(session)) == Failure(Http(400, InvalidStateDetail))
  {
    assert Get(SessionAfterCallback(session), "oauth_state") == JNull;
  }

  /** A callback without a login in this session is refused. */
  lemma CallbackNeedsLogin(session: Session, state: string)
    requires "oauth_state" !in session
    ensures CallbackPlan(state, session) == Failure(Http(400, InvalidStateDetail))
  {
  }

  /** The configured providers are exactly the four the service knows, so a
      login for any other provider is refused. */
  lemma {:induction false} UnknownProviderRefused(s: Config.Settings, provider: string)
    requires provider !in Config.ProviderNames
    ensures AdminLoginGuard(provider, Config.GetOAuthConfig(s).Keys) == Failure(Http(404, NotSupportedDetail(provider)))
  {
    Config.OAuthConfigShape(s);
  }
}
