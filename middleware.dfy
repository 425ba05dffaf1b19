/**
  * `apps/admin-app/src/middleware.ts`: the access check run before the
  * protected admin pages. A request passes when it comes back from the
  * Cognito hosted sign-in page, when it carries a Cognito cookie, or when
  * the server-side session yields a user id; any other request, and any
  * error on the way, is redirected to the login page with the requested
  * path as its `origin`. The session lookup is foreign: its outcome is a
  * parameter.
  */
module Middleware {
  import opened Wrappers
  import opened Text

  const CognitoHostedUi := "auth.eu-west-1.amazoncognito.com"
  const CognitoCookieMark := "CognitoIdentityServiceProvider"
  const LastAuthUserCookie := "CognitoIdentityServiceProvider.14de4luql4dgp3k7kos516ji4n.LastAuthUser"
  const IdTokenCookie := "CognitoIdentityServiceProvider.14de4luql4dgp3k7kos516ji4n.idToken"

  datatype Cookie = Cookie(name: string, value: string)

  /** The parts of a request the check reads: the URL's path and query, the `referer` header and the cookies. */
  datatype Request = Request(pathname: string, search: string, referer: Option<string>, cookies: seq<Cookie>)

  /** What `fetchUserFromServer` gives: a user, whose `userId` may be missing, no user, or a throw. */
  datatype UserLookup = FoundUser(userId: Option<string>) | NoUser | LookupThrew

  /** `NextResponse.next()` or a redirect to a location relative to the request's URL. */
  datatype Response = Next | Redirect(location: string)

  predicate FromHostedUi(referer: Option<string>) {
    Present(referer) && Includes(referer.value, CognitoHostedUi)
  }

  /** `cookies.get(name)` is truthy: some cookie has that exact name. */
  predicate HasCookie(cookies: seq<Cookie>, name: string) {
    exists i :: 0 <= i < |cookies| && cookies[i].name == name
  }

  predicate SomeNameMarked(cookies: seq<Cookie>) {
    exists i :: 0 <= i < |cookies| && Includes(cookies[i].name, CognitoCookieMark)
  }

  /** `hasAuthCookies`, as its three alternatives. */
  predicate HasAuthCookies(cookies: seq<Cookie>) {
    HasCookie(cookies, LastAuthUserCookie) || HasCookie(cookies, IdTokenCookie) || SomeNameMarked(cookies)
  }

  /** `/login?origin=${path}`. */
  function LoginLocation(pathname: string): string {
    "/login?origin=" + pathname
  }

  /** The user lookup happens only when neither shortcut lets the request through. */
  predicate NeedsLookup(req: Request) {
    !FromHostedUi(req.referer) && !HasAuthCookies(req.cookies)
  }

  /** `middleware`. */
  function Decide(req: Request, lookup: UserLookup): Response {
    if FromHostedUi(req.referer) then Next
    else if HasAuthCookies(req.cookies) then Next
    else if lookup.FoundUser? && Present(lookup.userId) then Next
    else Redirect(LoginLocation(req.pathname))
  }

  /** `config.matcher`: the only paths the check runs on. */
  const Matcher: seq<string> := ["/home", "/user-search", "/create-post", "/publish-post", "/side-hustle"]

  /** A request as the framework handles it: unmatched paths never reach `middleware`. */
  function Handle(req: Request, lookup: UserLookup): Response {
    if req.pathname in Matcher then Decide(req, lookup) else Next
  }

  /** A referer from the hosted sign-in page lets the request through whatever its cookies and session. */
  lemma HostedUiAllowsFirst(req: Request, lookup: UserLookup)
    requires FromHostedUi(req.referer)
    ensures Decide(req, lookup) == Next
  {
  }

  /** The two exact cookie names contain the marker, so the substring test alone decides. */
  lemma MarkedNameSubsumesExactNames(cookies: seq<Cookie>)
    ensures HasAuthCookies(cookies) <==> SomeNameMarked(cookies)
  {
    assert CognitoCookieMark <= LastAuthUserCookie;
    assert CognitoCookieMark <= IdTokenCookie;
    IncludesPrefix(LastAuthUserCookie, CognitoCookieMark);
    IncludesPrefix(IdTokenCookie, CognitoCookieMark);
  }

  /** Cookie values are never read: requests whose cookie names agree are decided alike. */
  lemma CookieValuesIgnored(req: Request, values: seq<string>, lookup: UserLookup)
    requires |values| == |req.cookies|
    ensures var cs := seq(|values|, i requires 0 <= i < |values| => Cookie(req.cookies[i].name, values[i]));
      Decide(req.(cookies := cs), lookup) == Decide(req, lookup)
  {
    var cs := seq(|values|, i requires 0 <= i < |values| => Cookie(req.cookies[i].name, values[i]));
    assert forall i :: 0 <= i < |cs| ==> cs[i].name == req.cookies[i].name;
    assert HasCookie(cs, LastAuthUserCookie) == HasCookie(req.cookies, LastAuthUserCookie);
    assert HasCookie(cs, IdTokenCookie) == HasCookie(req.cookies, IdTokenCookie);
    assert SomeNameMarked(cs) == SomeNameMarked(req.cookies);
  }

  /** When a shortcut applies, the session is not consulted: every lookup outcome gives the same answer. */
  lemma LookupOnlyWhenNeeded(req: Request, l1: UserLookup, l2: UserLookup)
    requires !NeedsLookup(req)
    ensures Decide(req, l1) == Decide(req, l2) == Next
  {
  }

  /** Otherwise the request passes exactly when the lookup yields a non-empty user id, and is sent to login if not. */
  lemma LookupDecides(req: Request, lookup: UserLookup)
    requires NeedsLookup(req)
    ensures Decide(req, lookup) == Next <==> lookup.FoundUser? && Present(lookup.userId)
    ensures Decide(req, lookup) != Next ==> Decide(req, lookup) == Redirect(LoginLocation(req.pathname))
  {
  }

  /** A thrown lookup is a redirect to login as well. */
  lemma ErrorRedirects(req: Request)
    requires NeedsLookup(req)
    ensures Decide(req, LookupThrew) == Redirect(LoginLocation(req.pathname))
  {
  }

  /** The origin carries the path only: the query string does not affect the answer. */
  lemma QueryStringDropped(req: Request, search: string, lookup: UserLookup)
    ensures Decide(req.(search := search), lookup) == Decide(req, lookup)
    ensures Decide(req, lookup).Redirect? ==>
      var loc := Decide(req, lookup).location;
      |loc| >= 14 && loc[..14] == "/login?origin=" && loc[14..] == req.pathname
  {
  }

  /** `/knowledge` and the login page itself are not checked: every request there passes. */
  lemma UnmatchedPathsPass(req: Request, lookup: UserLookup)
    requires req.pathname == "/knowledge" || req.pathname == "/login"
    ensures Handle(req, lookup) == Next
  {
    assert "/knowledge" !in Matcher;
    assert "/login" !in Matcher;
  }

  /** Each of the five matched paths is checked. */
  lemma MatchedPathsChecked(req: Request, lookup: UserLookup)
    requires req.pathname in Matcher
    ensures Handle(req, lookup) == Decide(req, lookup)
  {
  }
}
