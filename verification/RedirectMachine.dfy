/**
 * Where a navigation ends up: the staff middleware (apps/staff/middleware.ts)
 * with the Terms gate (lib/terms-gate.ts) and the sign-in fork
 * (lib/auth-fork.ts), as a transition function on requests.
 *
 * A browser follows redirects with the same cookie jar, so a request is a path,
 * a query and what the session cookie resolves to. `encode` stands for
 * `encodeURIComponent`.
 */
module RedirectMachine {
  import opened Wrappers

  const LOGIN := "/login"
  const ONBOARDING := "/onboarding"
  const CREATE := "/organizations/new"
  const PICKER := "/select-organization"
  const OPERATOR := "/operator"
  const TERMS := "/terms"
  const HOME := "/"
  const API := "/api/"

  /** Only the presence of the active Member is consulted, and the ids of the memberships. */
  datatype SessionData = SessionData(isOperator: bool, hasActiveMember: bool, memberships: seq<string>,
                                     termsOutstanding: Option<bool>)

  datatype Cookie =
    | NoCookie
    /** A cookie the API rejects. */
    | Stale
    | Live(session: SessionData)

  datatype Request = Request(path: string, search: string, cookie: Cookie)

  datatype Response =
    | Serve(clearsCookie: bool)
    | Redirect(path: string, search: string, clearsCookie: bool)

  predicate StartsWith(text: string, prefix: string) {
    |prefix| <= |text| && text[..|prefix|] == prefix
  }

  /** `isPathMatch` for one path and `isPathWithin`: the path itself, or one nested under it. */
  predicate IsWithin(path: string, prefix: string) {
    path == prefix || StartsWith(path, prefix + "/")
  }

  // ---------------------------------------------------------------- the terms gate

  datatype TermsGateDecision = Allow | Interstitial(path: string, search: string)

  function DecideTermsGate(path: string, search: string, termsOutstanding: Option<bool>,
                           encode: string -> string): TermsGateDecision {
    if StartsWith(path, API) then Allow
    else if IsWithin(path, TERMS) || IsWithin(path, LOGIN) then Allow
    else if termsOutstanding != Some(true) then Allow
    else Interstitial(TERMS, "?next=" + encode(path + search))
  }

  predicate IsControl(c: char) {
    c <= ' ' || c == 127 as char
  }

  /** The text before the first "?" or "#". */
  function PathPart(address: string): string {
    if address == "" || address[0] == '?' || address[0] == '#' then ""
    else [address[0]] + PathPart(address[1..])
  }

  /** `termsGateReturnPath`: where an accepted interstitial sends the person. */
  function TermsGateReturnPath(next: Option<string>): string {
    if next.None? || !StartsWith(next.value, "/") then HOME
    else if StartsWith(next.value, "//") || StartsWith(next.value, "/\\") then HOME
    else if exists k :: 0 <= k < |next.value| && IsControl(next.value[k]) then HOME
    else if IsWithin(PathPart(next.value), TERMS) || StartsWith(PathPart(next.value), API) then HOME
    else next.value
  }

  // ---------------------------------------------------------------- the fork

  datatype Fork = Fork(path: string, autoSelectMemberId: Option<string>)

  function ResolveAuthForkPath(session: SessionData): Fork {
    if session.hasActiveMember then Fork(HOME, None)
    else if |session.memberships| == 0 then Fork(CREATE, None)
    else if |session.memberships| == 1 then Fork(HOME, Some(session.memberships[0]))
    else Fork(PICKER, None)
  }

  /** An empty id is falsy, and so reads as absent. */
  function ResolveAuthForkRedirectPath(session: SessionData): string {
    var fork := ResolveAuthForkPath(session);
    if fork.autoSelectMemberId.GetOr("") != "" then PICKER else fork.path
  }

  function SignedInLandingPath(session: SessionData): string {
    if !session.hasActiveMember && session.isOperator then OPERATOR else ResolveAuthForkRedirectPath(session)
  }

  // ---------------------------------------------------------------- the middleware

  function HandleSignInPage(cookie: Cookie): Response {
    match cookie
    case NoCookie => Serve(false)
    case Stale => Serve(true)
    case Live(session) => Redirect(SignedInLandingPath(session), "", false)
  }

  function Middleware(request: Request, encode: string -> string): Response {
    if StartsWith(request.path, API) then Serve(false)
    else if IsWithin(request.path, LOGIN) then HandleSignInPage(request.cookie)
    else if IsWithin(request.path, ONBOARDING) then Redirect(CREATE, "", false)
    else
      match request.cookie
      case NoCookie => Redirect(LOGIN, "", false)
      case Stale => Redirect(LOGIN, "", true)
      case Live(session) =>
        match DecideTermsGate(request.path, request.search, session.termsOutstanding, encode)
        case Interstitial(path, search) => Redirect(path, search, false)
        case Allow => ServeOrFork(request.path, session)
  }

  /** What is left to decide once the gate has let a live session through. */
  function ServeOrFork(path: string, session: SessionData): Response {
    if IsWithin(path, OPERATOR) then
      if session.isOperator then Serve(false) else Redirect(HOME, "", false)
    else if session.hasActiveMember then
      if IsWithin(path, PICKER) then Redirect(HOME, "", false) else Serve(false)
    else if IsWithin(path, CREATE) || IsWithin(path, PICKER) then Serve(false)
    else Redirect(SignedInLandingPath(session), "", false)
  }

  // ---------------------------------------------------------------- one response

  /** A cookie is deleted when the API has rejected it, and only then. */
  lemma CookieClearedIffRejected(request: Request, encode: string -> string)
    ensures Middleware(request, encode).clearsCookie
       <==> request.cookie.Stale? && !StartsWith(request.path, API)
            && (IsWithin(request.path, LOGIN) || !IsWithin(request.path, ONBOARDING))
  {
    hide StartsWith, IsWithin, SignedInLandingPath;
  }

  /** Every redirect drops the query but the gate's, which carries the address it stopped. */
  lemma OnlyTheGateKeepsTheQuery(request: Request, encode: string -> string)
    ensures var response := Middleware(request, encode);
            response.Redirect? && response.search != "" ==>
              && response.path == TERMS && response.search == "?next=" + encode(request.path + request.search)
              && request.cookie.Live? && OwesTerms(request.cookie.session)
  {
    hide StartsWith, IsWithin, SignedInLandingPath;
  }

  // ---------------------------------------------------------------- following redirects

  /** The request a browser makes next; a served request is the end of the chain. */
  function Next(request: Request, encode: string -> string): Option<Request> {
    match Middleware(request, encode)
    case Serve(_) => None
    case Redirect(path, search, clears) => Some(Request(path, search, if clears then NoCookie else request.cookie))
  }

  /** The request standing after so many redirects, or None if the chain was served before. */
  function After(request: Request, encode: string -> string, hops: nat): Option<Request>
    decreases hops
  {
    if hops == 0 then Some(request)
    else
      match Next(request, encode)
      case None => None
      case Some(next) => After(next, encode, hops - 1)
  }

  // ---------------------------------------------------------------- when a chain never ends

  predicate OwesTerms(session: SessionData) {
    session.termsOutstanding == Some(true)
  }

  /** Neither an operator nor a Member of anything but one organization whose id is empty. */
  predicate ForksHome(session: SessionData) {
    !session.hasActiveMember && !session.isOperator && session.memberships == [""]
  }

  /** Pages a session with no active Member is shown, and the old address of one of them. */
  predicate IsForkPage(path: string) {
    IsWithin(path, CREATE) || IsWithin(path, PICKER) || IsWithin(path, ONBOARDING)
  }

  /** No page is ever served: a test on the request alone. */
  predicate Trapped(request: Request) {
    && request.cookie.Live?
    && !request.cookie.session.hasActiveMember
    && !StartsWith(request.path, API)
    && (OwesTerms(request.cookie.session) || (ForksHome(request.cookie.session) && !IsForkPage(request.path)))
  }

  // ---------------------------------------------------------------- the fixed paths

  lemma Unrelated(path: string, prefix: string, k: nat)
    requires k < |path| && k < |prefix|
    ensures path[k] != prefix[k] ==> !IsWithin(path, prefix) && !StartsWith(path, prefix)
  {
    assert StartsWith(path, prefix) ==> path[..|prefix|][k] == path[k];
    assert StartsWith(path, prefix + "/") ==> path[..|prefix + "/"|][k] == path[k];
  }

  lemma HomeIsApart()
    ensures !StartsWith(HOME, API) && !IsWithin(HOME, LOGIN) && !IsWithin(HOME, ONBOARDING) && !IsWithin(HOME, TERMS)
    ensures !IsWithin(HOME, OPERATOR) && !IsWithin(HOME, CREATE) && !IsWithin(HOME, PICKER)
  {
  }

  lemma TermsIsApart()
    ensures !StartsWith(TERMS, API) && !IsWithin(TERMS, LOGIN) && !IsWithin(TERMS, ONBOARDING) && IsWithin(TERMS, TERMS)
    ensures !IsWithin(TERMS, OPERATOR) && !IsWithin(TERMS, CREATE) && !IsWithin(TERMS, PICKER)
  {
    Unrelated(TERMS, API, 1);
    Unrelated(TERMS, LOGIN, 1);
  }

  lemma OperatorIsApart()
    ensures !StartsWith(OPERATOR, API) && !IsWithin(OPERATOR, LOGIN) && !IsWithin(OPERATOR, ONBOARDING)
      && !IsWithin(OPERATOR, TERMS)
    ensures IsWithin(OPERATOR, OPERATOR)
  {
    Unrelated(OPERATOR, API, 1);
    Unrelated(OPERATOR, LOGIN, 1);
    Unrelated(OPERATOR, TERMS, 1);
  }

  lemma CreateIsApart()
    ensures !StartsWith(CREATE, API) && !IsWithin(CREATE, LOGIN) && !IsWithin(CREATE, ONBOARDING)
      && !IsWithin(CREATE, TERMS)
    ensures !IsWithin(CREATE, OPERATOR) && IsWithin(CREATE, CREATE) && !IsWithin(CREATE, PICKER)
  {
    Unrelated(CREATE, API, 1);
    Unrelated(CREATE, LOGIN, 1);
    Unrelated(CREATE, ONBOARDING, 2);
    Unrelated(CREATE, TERMS, 1);
    Unrelated(CREATE, OPERATOR, 2);
  }

  lemma PickerIsApart()
    ensures !StartsWith(PICKER, API) && !IsWithin(PICKER, LOGIN) && !IsWithin(PICKER, ONBOARDING)
      && !IsWithin(PICKER, TERMS)
    ensures !IsWithin(PICKER, OPERATOR) && IsWithin(PICKER, PICKER)
  {
    Unrelated(PICKER, API, 1);
    Unrelated(PICKER, LOGIN, 1);
    Unrelated(PICKER, ONBOARDING, 1);
    Unrelated(PICKER, TERMS, 1);
    Unrelated(PICKER, OPERATOR, 1);
  }

  lemma LoginIsLogin()
    ensures !StartsWith(LOGIN, API) && IsWithin(LOGIN, LOGIN)
  {
    Unrelated(LOGIN, API, 1);
  }

  // ---------------------------------------------------------------- where a chain ends

  /** The pages a live session that owes nothing may be shown, the sign-in page and its old neighbour apart. */
  predicate Fits(session: SessionData, path: string) {
    if IsWithin(path, OPERATOR) then session.isOperator
    else if session.hasActiveMember then !IsWithin(path, PICKER)
    else IsWithin(path, CREATE) || IsWithin(path, PICKER)
  }

  /** The page a chain that is not trapped settles on. */
  function Destination(request: Request): string {
    var path := request.path;
    if StartsWith(path, API) then path
    else if !request.cookie.Live? then (if IsWithin(path, LOGIN) then path else LOGIN)
    else
      var session := request.cookie.session;
      if OwesTerms(session) then (if IsWithin(path, TERMS) then path else TERMS)
      else if IsWithin(path, LOGIN) then SignedInLandingPath(session)
      else if IsWithin(path, ONBOARDING) then CREATE
      else if Fits(session, path) then path
      else SignedInLandingPath(session)
  }

  /** The landing path is one of four, none of them a page the middleware treats specially. */
  lemma LandingIsApart(session: SessionData)
    ensures var path := SignedInLandingPath(session);
      && !StartsWith(path, API) && !IsWithin(path, LOGIN) && !IsWithin(path, ONBOARDING) && !IsWithin(path, TERMS)
      && (ForksHome(session) <==> !Fits(session, path))
      && (session.hasActiveMember ==> path == HOME)
      && (ForksHome(session) ==> path == HOME)
  {
    hide StartsWith, IsWithin;
    HomeIsApart();
    OperatorIsApart();
    CreateIsApart();
    PickerIsApart();
  }

  /** A live session that owes nothing is served what fits it, and forked off anything else. */
  lemma Settled(request: Request, encode: string -> string)
    requires request.cookie.Live? && !OwesTerms(request.cookie.session)
    requires !StartsWith(request.path, API) && !IsWithin(request.path, LOGIN) && !IsWithin(request.path, ONBOARDING)
    ensures Middleware(request, encode) ==
            if Fits(request.cookie.session, request.path) then Serve(false)
            else if IsWithin(request.path, OPERATOR) then Redirect(HOME, "", false)
            else Redirect(SignedInLandingPath(request.cookie.session), "", false)
  {
    hide StartsWith, IsWithin;
    if request.cookie.session.hasActiveMember { LandingIsApart(request.cookie.session); }
  }

  lemma LandingIsSettled(request: Request, encode: string -> string)
    requires request.cookie.Live? && !OwesTerms(request.cookie.session)
    requires request.path == SignedInLandingPath(request.cookie.session)
    ensures Middleware(request, encode)
         == if ForksHome(request.cookie.session) then Redirect(HOME, "", false) else Serve(false)
  {
    hide StartsWith, IsWithin, Middleware, SignedInLandingPath, Fits;
    LandingIsApart(request.cookie.session);
    Settled(request, encode);
    NotOperatorHome(request);
  }

  lemma NotOperatorHome(request: Request)
    requires request.cookie.Live? && request.path == SignedInLandingPath(request.cookie.session)
    ensures ForksHome(request.cookie.session) ==> request.path == HOME && !IsWithin(request.path, OPERATOR)
  {
    hide StartsWith, IsWithin;
    HomeIsApart();
  }

  /** A live session owing an acceptance is sent to the gate from everywhere but the gate itself. */
  lemma Gated(request: Request, encode: string -> string)
    requires request.cookie.Live? && OwesTerms(request.cookie.session)
    requires !StartsWith(request.path, API) && !IsWithin(request.path, LOGIN) && !IsWithin(request.path, ONBOARDING)
    requires !IsWithin(request.path, TERMS)
    ensures Middleware(request, encode) == Redirect(TERMS, "?next=" + encode(request.path + request.search), false)
  {
    hide StartsWith, IsWithin;
  }

  /** At the gate, only somebody with an active Member is shown it. */
  lemma AtTheGate(request: Request, encode: string -> string)
    requires request.cookie.Live? && OwesTerms(request.cookie.session)
    requires IsWithin(request.path, TERMS)
    ensures Middleware(request, encode) ==
            if request.cookie.session.hasActiveMember then Serve(false)
            else Redirect(SignedInLandingPath(request.cookie.session), "", false)
  {
    hide StartsWith, IsWithin;
    UnderTermsIsApart(request.path);
  }

  lemma UnderTermsIsApart(path: string)
    requires IsWithin(path, TERMS)
    ensures !StartsWith(path, API) && !IsWithin(path, LOGIN) && !IsWithin(path, ONBOARDING)
    ensures !IsWithin(path, OPERATOR) && !IsWithin(path, CREATE) && !IsWithin(path, PICKER)
  {
    assert path[1] == TERMS[1];
    Unrelated(path, API, 1);
    Unrelated(path, LOGIN, 1);
    Unrelated(path, ONBOARDING, 1);
    Unrelated(path, OPERATOR, 1);
    Unrelated(path, CREATE, 1);
    Unrelated(path, PICKER, 1);
  }

  /** A trapped request is redirected, to a trapped request. */
  lemma TrappedStaysTrapped(request: Request, encode: string -> string)
    requires Trapped(request)
    ensures Next(request, encode).Some? && Trapped(Next(request, encode).value)
  {
    hide StartsWith, IsWithin, SignedInLandingPath, Fits, ServeOrFork;
    var session := request.cookie.session;
    LandingIsApart(session);
    TermsIsApart();
    CreateIsApart();
    HomeIsApart();
    if IsWithin(request.path, LOGIN) || IsWithin(request.path, ONBOARDING) {
    } else if OwesTerms(session) {
      if IsWithin(request.path, TERMS) { AtTheGate(request, encode); } else { Gated(request, encode); }
    } else {
      Settled(request, encode);
      ForksHomeFitsNothing(session, request.path);
    }
  }

  lemma ForksHomeFitsNothing(session: SessionData, path: string)
    requires ForksHome(session) && !IsForkPage(path)
    ensures !Fits(session, path)
  {
    hide StartsWith, IsWithin;
  }

  lemma {:induction false} TrappedForever(request: Request, encode: string -> string, hops: nat)
    requires Trapped(request)
    ensures After(request, encode, hops).Some?
    decreases hops
  {
    hide Middleware, Trapped, Next;
    if hops > 0 {
      TrappedStaysTrapped(request, encode);
      TrappedForever(Next(request, encode).value, encode, hops - 1);
    }
  }

  /** The chain ends at this page after so many redirects, and a rejected cookie is gone. */
  predicate EndsAt(request: Request, encode: string -> string, hops: nat, page: string) {
    match After(request, encode, hops)
    case None => false
    case Some(last) =>
      && last.path == page
      && Middleware(last, encode).Serve?
      && (last.cookie.Stale? ==> Middleware(last, encode).clearsCookie || StartsWith(page, API))
  }

  lemma OneHop(request: Request, encode: string -> string, hops: nat, page: string)
    requires Next(request, encode).Some? && EndsAt(Next(request, encode).value, encode, hops, page)
    ensures EndsAt(request, encode, hops + 1, page)
  {
    hide Middleware, Next;
  }

  /** Signed out, or with a cookie the API rejects: the sign-in page. */
  lemma SignedOutEnds(request: Request, encode: string -> string) returns (hops: nat)
    requires !request.cookie.Live?
    ensures hops <= 2 && EndsAt(request, encode, hops, Destination(request))
  {
    hide StartsWith, IsWithin;
    LoginIsLogin();
    CreateIsApart();
    if StartsWith(request.path, API) || IsWithin(request.path, LOGIN) {
      hops := 0;
    } else if IsWithin(request.path, ONBOARDING) {
      hops := 2;
      var second := Next(request, encode).value;
      OneHop(second, encode, 0, LOGIN);
      OneHop(request, encode, 1, LOGIN);
    } else {
      hops := 1;
      OneHop(request, encode, 0, LOGIN);
    }
  }

  /** A Member who owes an acceptance: the gate. */
  lemma OwingEnds(request: Request, encode: string -> string) returns (hops: nat)
    requires request.cookie.Live? && OwesTerms(request.cookie.session) && request.cookie.session.hasActiveMember
    ensures hops <= 2 && EndsAt(request, encode, hops, Destination(request))
  {
    hide StartsWith, IsWithin, SignedInLandingPath, ServeOrFork;
    var path := request.path;
    TermsIsApart();
    LandingIsApart(request.cookie.session);
    CreateIsApart();
    if IsWithin(path, TERMS) {
      hops := 0;
      AtTheGate(request, encode);
    } else if StartsWith(path, API) {
      hops := 0;
    } else {
      var next := Next(request, encode).value;
      if IsWithin(path, LOGIN) || IsWithin(path, ONBOARDING) {
        hops := 2;
        Gated(next, encode);
        var last := Next(next, encode).value;
        AtTheGate(last, encode);
        OneHop(next, encode, 0, TERMS);
      } else {
        hops := 1;
        Gated(request, encode);
        AtTheGate(next, encode);
      }
      OneHop(request, encode, hops - 1, TERMS);
    }
  }

  /** The branches that look at the path and the cookie alone. */
  lemma Plain(request: Request, encode: string -> string)
    requires request.cookie.Live?
    ensures StartsWith(request.path, API) ==> Middleware(request, encode) == Serve(false)
    ensures !StartsWith(request.path, API) && IsWithin(request.path, LOGIN)
            ==> Middleware(request, encode) == Redirect(SignedInLandingPath(request.cookie.session), "", false)
    ensures !StartsWith(request.path, API) && !IsWithin(request.path, LOGIN) && IsWithin(request.path, ONBOARDING)
            ==> Middleware(request, encode) == Redirect(CREATE, "", false)
  {
    hide StartsWith, IsWithin, SignedInLandingPath;
  }

  lemma CreateIsShown(request: Request, encode: string -> string)
    requires request.cookie.Live? && !OwesTerms(request.cookie.session) && request.path == CREATE
    ensures Middleware(request, encode) == Serve(false)
  {
    hide StartsWith, IsWithin, Middleware;
    CreateIsApart();
    Settled(request, encode);
  }

  lemma UnderOperatorIsApart(path: string)
    requires IsWithin(path, OPERATOR)
    ensures !IsForkPage(path)
  {
    assert path[1] == OPERATOR[1] && path[2] == OPERATOR[2];
    Unrelated(path, ONBOARDING, 2);
    Unrelated(path, CREATE, 2);
    Unrelated(path, PICKER, 1);
  }

  lemma UnderLoginIsApart(path: string)
    requires IsWithin(path, LOGIN)
    ensures !IsForkPage(path)
  {
    assert path[1] == LOGIN[1];
    Unrelated(path, ONBOARDING, 1);
    Unrelated(path, CREATE, 1);
    Unrelated(path, PICKER, 1);
  }

  lemma HomeNext(request: Request, encode: string -> string)
    requires request.cookie.Live? && !OwesTerms(request.cookie.session) && request.path == HOME
    ensures Middleware(request, encode) ==
            if request.cookie.session.hasActiveMember then Serve(false)
            else Redirect(SignedInLandingPath(request.cookie.session), "", false)
  {
    hide StartsWith, IsWithin, Middleware, SignedInLandingPath;
    HomeIsApart();
    Settled(request, encode);
  }

  /** From a page that does not fit, the landing page is reached, in a second hop for an outsider at the operator's. */
  lemma LandsFrom(request: Request, encode: string -> string) returns (hops: nat)
    requires request.cookie.Live? && !OwesTerms(request.cookie.session) && !Trapped(request)
    requires !StartsWith(request.path, API) && !IsWithin(request.path, LOGIN) && !IsWithin(request.path, ONBOARDING)
    requires !Fits(request.cookie.session, request.path)
    ensures hops <= 2 && EndsAt(request, encode, hops, SignedInLandingPath(request.cookie.session))
  {
    hide StartsWith, IsWithin, SignedInLandingPath, Middleware;
    var session := request.cookie.session;
    var landing := SignedInLandingPath(session);
    LandingIsApart(session);
    Settled(request, encode);
    var next := Next(request, encode).value;
    if IsWithin(request.path, OPERATOR) {
      UnderOperatorIsApart(request.path);
      HomeNext(next, encode);
      if session.hasActiveMember {
        hops := 1;
      } else {
        hops := 2;
        LandingIsSettled(Next(next, encode).value, encode);
        OneHop(next, encode, 0, landing);
      }
    } else {
      hops := 1;
      LandingIsSettled(next, encode);
    }
    OneHop(request, encode, hops - 1, landing);
  }

  /** A session that owes nothing: the page asked for if it fits, else its landing page. */
  lemma SettledEnds(request: Request, encode: string -> string) returns (hops: nat)
    requires request.cookie.Live? && !OwesTerms(request.cookie.session) && !Trapped(request)
    ensures hops <= 2 && EndsAt(request, encode, hops, Destination(request))
  {
    hide StartsWith, IsWithin, SignedInLandingPath, ServeOrFork, Fits, Middleware;
    if StartsWith(request.path, API) {
      hops := 0;
      Plain(request, encode);
    } else if IsWithin(request.path, LOGIN) || IsWithin(request.path, ONBOARDING) {
      hops := 1;
      Plain(request, encode);
      var next := Next(request, encode).value;
      CreateIsApart();
      if IsWithin(request.path, LOGIN) {
        UnderLoginIsApart(request.path);
        LandingIsSettled(next, encode);
      } else { CreateIsShown(next, encode); }
      OneHop(request, encode, 0, next.path);
    } else {
      Settled(request, encode);
      if Fits(request.cookie.session, request.path) {
        hops := 0;
      } else {
        hops := LandsFrom(request, encode);
      }
    }
  }

  /** Every chain that is not trapped is served within two redirects, and at that page. */
  lemma ChainsEnd(request: Request, encode: string -> string) returns (hops: nat)
    requires !Trapped(request)
    ensures hops <= 2 && EndsAt(request, encode, hops, Destination(request))
  {
    hide EndsAt, Destination;
    if !request.cookie.Live? {
      hops := SignedOutEnds(request, encode);
    } else if !OwesTerms(request.cookie.session) {
      hops := SettledEnds(request, encode);
    } else if request.cookie.session.hasActiveMember {
      hops := OwingEnds(request, encode);
    } else {
      hops := 0;
      ApiEnds(request, encode);
    }
  }

  /** A session with an active Member, or one that is not a lone membership without an id, has a page of its own. */
  predicate HasPage(session: SessionData) {
    session.hasActiveMember || session.isOperator || session.memberships != [""]
  }

  /** The page somebody who owes nothing belongs on: by what the session holds. */
  function OwnPage(session: SessionData): string {
    if session.hasActiveMember then "/"
    else if session.isOperator then "/operator"
    else if session.memberships == [] then "/organizations/new"
    else "/select-organization"
  }

  lemma LandingIsOwnPage(session: SessionData)
    requires HasPage(session)
    ensures SignedInLandingPath(session) == OwnPage(session)
  {
  }

  /**
   * Asking for the root or for the sign-in page, somebody who owes nothing ends
   * on the page the session calls for: the root with an active Member; without
   * one the operator's dashboard, the create page when there is no membership,
   * the picker when there is one.
   */
  lemma ArrivalsEndOnOwnPage(session: SessionData, path: string, search: string, encode: string -> string)
    returns (hops: nat)
    requires !OwesTerms(session) && HasPage(session)
    requires path == HOME || path == LOGIN
    ensures hops <= 2 && EndsAt(Request(path, search, Live(session)), encode, hops, OwnPage(session))
  {
    hide EndsAt, StartsWith, IsWithin, OwnPage, SignedInLandingPath, HasPage;
    var request := Request(path, search, Live(session));
    ArrivalIsFree(request);
    LandingIsOwnPage(session);
    HomeOrLogin(request);
    hops := ChainsEnd(request, encode);
  }

  lemma ArrivalIsFree(request: Request)
    requires request.cookie.Live? && !OwesTerms(request.cookie.session) && HasPage(request.cookie.session)
    ensures !Trapped(request)
  {
    hide StartsWith, IsWithin;
  }

  lemma HomeOrLogin(request: Request)
    requires request.cookie.Live? && !OwesTerms(request.cookie.session)
    requires request.path == HOME || request.path == LOGIN
    ensures Destination(request) == SignedInLandingPath(request.cookie.session)
  {
    hide StartsWith, IsWithin;
    HomeIsApart();
    LoginIsLogin();
  }

  /** A chain has one end. */
  lemma {:induction false} OneEnd(request: Request, encode: string -> string, h1: nat, p1: string, h2: nat, p2: string)
    requires EndsAt(request, encode, h1, p1) && EndsAt(request, encode, h2, p2)
    ensures h1 == h2 && p1 == p2
    decreases h1
  {
    hide Middleware;
    if h1 > 0 && h2 > 0 {
      OneEnd(Next(request, encode).value, encode, h1 - 1, p1, h2 - 1, p2);
    }
  }

  lemma NoEnd(request: Request, encode: string -> string, hops: nat, page: string)
    requires Trapped(request)
    ensures !EndsAt(request, encode, hops, page)
  {
    hide Trapped, Middleware;
    NeverServed(request, encode, hops);
    if EndsAt(request, encode, hops, page) { EndIsServed(request, encode, hops, page); }
  }

  /**
   * Asking for the root or for the sign-in page, somebody who owes nothing ends
   * at the root exactly with an active Member; without one, at the operator's
   * dashboard exactly as an operator; otherwise at the create page exactly with
   * no membership and at the picker exactly with one, a single one without an
   * id apart, which ends nowhere.
   */
  lemma ArrivalsEndIff(session: SessionData, path: string, search: string, encode: string -> string, hops: nat,
                       page: string)
    requires !OwesTerms(session) && (path == HOME || path == LOGIN)
    requires EndsAt(Request(path, search, Live(session)), encode, hops, page)
    ensures (page == "/" <==> session.hasActiveMember)
    ensures (page == "/operator" <==> !session.hasActiveMember && session.isOperator)
    ensures (page == "/organizations/new"
             <==> !session.hasActiveMember && !session.isOperator && session.memberships == [])
    ensures (page == "/select-organization"
             <==> !session.hasActiveMember && !session.isOperator && session.memberships != [])
    ensures session.hasActiveMember || session.isOperator || session.memberships != [""]
  {
    hide EndsAt, OwnPage, OwesTerms;
    var request := Request(path, search, Live(session));
    if HasPage(session) {
      var h := ArrivalsEndOnOwnPage(session, path, search, encode);
      OneEnd(request, encode, hops, page, h, OwnPage(session));
      OwnPagesDiffer(session);
    } else {
      NoPageTraps(request);
      NoEnd(request, encode, hops, page);
    }
  }

  lemma NoPageTraps(request: Request)
    requires request.cookie.Live? && !HasPage(request.cookie.session)
    requires request.path == HOME || request.path == LOGIN
    ensures Trapped(request)
  {
    hide StartsWith, IsWithin;
    HomeIsApart();
    LoginIsLogin();
    UnderLogin();
  }

  lemma UnderLogin()
    ensures !IsForkPage(LOGIN)
  {
    LoginIsLogin();
    UnderLoginIsApart(LOGIN);
  }

  /** The four pages are different, so each session has one of them and no other. */
  lemma OwnPagesDiffer(session: SessionData)
    ensures (OwnPage(session) == "/" <==> session.hasActiveMember)
    ensures (OwnPage(session) == "/operator" <==> !session.hasActiveMember && session.isOperator)
    ensures (OwnPage(session) == "/organizations/new"
             <==> !session.hasActiveMember && !session.isOperator && session.memberships == [])
    ensures (OwnPage(session) == "/select-organization"
             <==> !session.hasActiveMember && !session.isOperator && session.memberships != [])
  {
    var pages := [HOME, OPERATOR, CREATE, PICKER];
    assert |HOME| == 1 && |OPERATOR| == 9 && |CREATE| == 18 && |PICKER| == 20;
  }

  /** The operator's pages are shown to operators; everybody else ends on a page of their own. */
  lemma OperatorPagesAreForOperators(session: SessionData, path: string, search: string, encode: string -> string)
    returns (hops: nat)
    requires !OwesTerms(session) && HasPage(session)
    requires IsWithin(path, OPERATOR)
    ensures hops <= 2 && EndsAt(Request(path, search, Live(session)), encode, hops,
                                if session.isOperator then path else OwnPage(session))
  {
    hide EndsAt, StartsWith, IsWithin, OwnPage, SignedInLandingPath, HasPage;
    var request := Request(path, search, Live(session));
    ArrivalIsFree(request);
    LandingIsOwnPage(session);
    UnderOperatorIsPlain(path);
    hops := ChainsEnd(request, encode);
  }

  lemma UnderOperatorIsPlain(path: string)
    requires IsWithin(path, OPERATOR)
    ensures !StartsWith(path, API) && !IsWithin(path, LOGIN) && !IsWithin(path, ONBOARDING)
  {
    assert path[1] == OPERATOR[1] && path[2] == OPERATOR[2];
    Unrelated(path, API, 1);
    Unrelated(path, LOGIN, 1);
    Unrelated(path, ONBOARDING, 2);
  }

  /** Signed out, or with a cookie the API rejects, everybody ends at the sign-in page. */
  lemma SignedOutEndAtLogin(cookie: Cookie, path: string, search: string, encode: string -> string) returns (hops: nat)
    requires !cookie.Live? && !StartsWith(path, API) && !IsWithin(path, LOGIN)
    ensures hops <= 2 && EndsAt(Request(path, search, cookie), encode, hops, "/login")
  {
    hide EndsAt, StartsWith, IsWithin;
    hops := ChainsEnd(Request(path, search, cookie), encode);
  }

  /** A Member who owes an acceptance ends at the gate, whatever was asked for. */
  lemma OwingMembersEndAtTerms(session: SessionData, path: string, search: string, encode: string -> string)
    returns (hops: nat)
    requires session.termsOutstanding == Some(true) && session.hasActiveMember
    requires !StartsWith(path, API) && !IsWithin(path, TERMS)
    ensures hops <= 2 && EndsAt(Request(path, search, Live(session)), encode, hops, "/terms")
  {
    hide EndsAt, StartsWith, IsWithin;
    hops := ChainsEnd(Request(path, search, Live(session)), encode);
  }

  /** Without an active Member, and owing nothing, only the create page and the picker are shown as asked for. */
  lemma OthersEndOnOwnPage(session: SessionData, path: string, search: string, encode: string -> string)
    returns (hops: nat)
    requires session.termsOutstanding != Some(true) && !session.hasActiveMember && HasPage(session)
    requires !StartsWith(path, API) && !IsWithin(path, LOGIN) && !IsWithin(path, OPERATOR)
      && !IsWithin(path, ONBOARDING)
    ensures hops <= 2 && EndsAt(Request(path, search, Live(session)), encode, hops,
                                if IsWithin(path, CREATE) || IsWithin(path, PICKER) then path else OwnPage(session))
  {
    hide EndsAt, StartsWith, IsWithin, OwnPage, SignedInLandingPath, HasPage;
    var request := Request(path, search, Live(session));
    ArrivalIsFree(request);
    LandingIsOwnPage(session);
    hops := ChainsEnd(request, encode);
  }

  /** The old onboarding address leads to the create page. */
  lemma OnboardingLeadsToCreate(session: SessionData, path: string, search: string, encode: string -> string)
    returns (hops: nat)
    requires session.termsOutstanding != Some(true) && IsWithin(path, ONBOARDING)
    ensures hops <= 2 && EndsAt(Request(path, search, Live(session)), encode, hops, "/organizations/new")
  {
    hide EndsAt, StartsWith, IsWithin;
    UnderOnboarding(path);
    hops := ChainsEnd(Request(path, search, Live(session)), encode);
  }

  lemma UnderOnboarding(path: string)
    requires IsWithin(path, ONBOARDING)
    ensures !StartsWith(path, API) && !IsWithin(path, LOGIN) && IsForkPage(path)
  {
    assert path[1] == ONBOARDING[1];
    Unrelated(path, API, 1);
    Unrelated(path, LOGIN, 1);
  }

  /** With an active Member any other page is shown as asked for, the picker apart. */
  lemma MembersSeeWhatTheyAsk(session: SessionData, path: string, search: string, encode: string -> string)
    returns (hops: nat)
    requires !OwesTerms(session) && session.hasActiveMember
    requires !IsWithin(path, LOGIN) && !IsWithin(path, ONBOARDING) && !IsWithin(path, OPERATOR)
    ensures hops <= 2 && EndsAt(Request(path, search, Live(session)), encode, hops,
                                if IsWithin(path, PICKER) && !StartsWith(path, API) then "/" else path)
  {
    hide EndsAt, StartsWith, IsWithin;
    hops := ChainsEnd(Request(path, search, Live(session)), encode);
  }

  lemma ApiEnds(request: Request, encode: string -> string)
    requires StartsWith(request.path, API)
    ensures EndsAt(request, encode, 0, Destination(request))
  {
    hide StartsWith, IsWithin;
  }

  /** The request standing after so many redirects is shown a page. */
  ghost predicate ServedAfter(request: Request, encode: string -> string, hops: nat) {
    var last := After(request, encode, hops);
    last.Some? && Next(last.value, encode).None?
  }

  /** Some page is served exactly when the request is not trapped, and then after two redirects at the most. */
  lemma ServedIffNotTrapped(request: Request, encode: string -> string)
    ensures (exists hops: nat :: ServedAfter(request, encode, hops)) <==> !Trapped(request)
  {
    hide *;
    if !Trapped(request) {
      var hops := ChainsEnd(request, encode);
      EndIsServed(request, encode, hops, Destination(request));
    } else {
      forall hops: nat ensures !ServedAfter(request, encode, hops) { NeverServed(request, encode, hops); }
    }
  }

  lemma EndIsServed(request: Request, encode: string -> string, hops: nat, page: string)
    requires EndsAt(request, encode, hops, page)
    ensures ServedAfter(request, encode, hops)
  {
    hide Middleware;
  }

  lemma NeverServed(request: Request, encode: string -> string, hops: nat)
    requires Trapped(request)
    ensures !ServedAfter(request, encode, hops)
  {
    hide Trapped, Next;
    TrappedForever(request, encode, hops);
    AfterStep(request, encode, hops);
    TrappedForever(request, encode, hops + 1);
  }

  lemma {:induction false} AfterStep(request: Request, encode: string -> string, hops: nat)
    requires After(request, encode, hops).Some?
    ensures After(request, encode, hops + 1) == Next(After(request, encode, hops).value, encode)
    decreases hops
  {
    hide Next;
    if hops > 0 {
      AfterStep(Next(request, encode).value, encode, hops - 1);
    } else if Next(request, encode).Some? {
      assert After(Next(request, encode).value, encode, 0) == Next(request, encode);
    }
  }

  /** The cycle of a session that owes an acceptance and has no active Member: gate, landing page, gate. */
  lemma GateCycle(request: Request, encode: string -> string)
    requires request.cookie.Live? && OwesTerms(request.cookie.session) && !request.cookie.session.hasActiveMember
    requires IsWithin(request.path, TERMS)
    ensures var landing := SignedInLandingPath(request.cookie.session);
      && After(request, encode, 1) == Some(Request(landing, "", request.cookie))
      && After(request, encode, 2) == Some(Request(TERMS, "?next=" + encode(landing), request.cookie))
      && After(request, encode, 4) == After(request, encode, 2)
  {
    hide StartsWith, IsWithin, Middleware, SignedInLandingPath;
    var landing := SignedInLandingPath(request.cookie.session);
    var away := Request(landing, "", request.cookie);
    var back := Request(TERMS, "?next=" + encode(landing), request.cookie);
    AtTheGate(request, encode);
    LandingIsApart(request.cookie.session);
    assert landing + "" == landing;
    Gated(away, encode);
    TermsIsApart();
    AtTheGate(back, encode);
    AfterStep(request, encode, 1);
    AfterStep(request, encode, 2);
    AfterStep(request, encode, 3);
  }

  // ---------------------------------------------------------------- back from the gate

  lemma {:induction false} PathPartStops(path: string, search: string)
    requires forall k :: 0 <= k < |path| ==> path[k] != '?' && path[k] != '#'
    requires search == "" || search[0] == '?'
    ensures PathPart(path + search) == path
  {
    if path == "" {
      assert path + search == search;
    } else {
      PathPartStops(path[1..], search);
      assert (path + search)[1..] == path[1..] + search;
    }
  }

  /** Where an accepted gate sends anybody: this site, and neither the gate again nor an API address. */
  lemma ReturnStaysOnSite(next: Option<string>)
    ensures var path := TermsGateReturnPath(next);
      && StartsWith(path, "/") && !StartsWith(path, "//") && !StartsWith(path, "/\\")
      && !IsWithin(PathPart(path), TERMS) && !StartsWith(PathPart(path), API)
      && (forall k :: 0 <= k < |path| ==> !IsControl(path[k]))
      && TermsGateReturnPath(Some(path)) == path
  {
    hide IsWithin;
    HomeIsApart();
    assert PathPart(HOME) == HOME;
  }

  /**
   * Accepting takes a diverted person where they were going, unless the address
   * reads as another host's or holds a raw control character or space.
   */
  lemma AcceptReturnsThere(path: string, search: string, termsOutstanding: Option<bool>, encode: string -> string)
    requires StartsWith(path, "/") && forall k :: 0 <= k < |path| ==> path[k] != '?' && path[k] != '#'
    requires search == "" || search[0] == '?'
    requires DecideTermsGate(path, search, termsOutstanding, encode).Interstitial?
    ensures TermsGateReturnPath(Some(path + search)) == path + search
            <==> !StartsWith(path, "//") && !StartsWith(path, "/\\")
                 && forall k :: 0 <= k < |path + search| ==> !IsControl((path + search)[k])
  {
    hide IsWithin;
    PathPartStops(path, search);
    var target := path + search;
    assert target[0] == '/' && |path| >= 1;
    assert |path| >= 2 ==> target[1] == path[1];
  }

  /** An address it does not take a diverted person back to: one that begins with two slashes. */
  lemma AcceptForgetsDoubleSlash(path: string, encode: string -> string)
    requires StartsWith(path, "//")
    ensures DecideTermsGate(path, "", Some(true), encode).Interstitial?
    ensures TermsGateReturnPath(Some(path)) == HOME != path
  {
    assert path[..2][1] == path[1] == '/';
    Unrelated(path, API, 1);
    Unrelated(path, TERMS, 1);
    Unrelated(path, LOGIN, 1);
  }

  // ---------------------------------------------------------------- where a browser takes the address

  /** A path behind its first slash, cut at slashes; a browser reads a backslash as one. */
  function Segments(text: string): (segments: seq<string>)
    ensures segments != []
  {
    if text == "" then [""]
    else
      var rest := Segments(text[1..]);
      if text[0] == '/' || text[0] == '\\' then [""] + rest else [[text[0]] + rest[0]] + rest[1..]
  }

  const DOTS: seq<string> := [".", "%2e", "%2E"]

  predicate IsDot(segment: string) {
    segment in DOTS
  }

  predicate IsDotDot(segment: string) {
    exists i, k :: 0 <= i < |DOTS| && 0 <= k < |DOTS| && segment == DOTS[i] + DOTS[k]
  }

  predicate IsDotSegment(segment: string) {
    IsDot(segment) || IsDotDot(segment)
  }

  /** What stands after the first `n` segments: one dot stays, two dots go back one. */
  function Walk(segments: seq<string>, n: nat): (kept: seq<string>)
    requires n <= |segments|
  {
    if n == 0 then []
    else
      var kept, segment := Walk(segments, n - 1), segments[n - 1];
      if IsDotDot(segment) then (if kept == [] then [] else kept[..|kept| - 1])
      else if IsDot(segment) then kept
      else kept + [segment]
  }

  function Last(segments: seq<string>): string
    requires segments != []
  {
    segments[|segments| - 1]
  }

  /** The segments of the address a browser asks for: a dot segment at the end leaves a slash. */
  function ResolvedSegments(segments: seq<string>): seq<string>
    requires segments != []
  {
    Walk(segments, |segments|) + if IsDotSegment(Last(segments)) then [""] else []
  }

  function JoinSegments(segments: seq<string>): string {
    if segments == [] then ""
    else if |segments| == 1 then segments[0]
    else segments[0] + "/" + JoinSegments(segments[1..])
  }

  /** The path a browser asks for (the path state of the URL standard, percent-encoding aside). */
  function ResolvedPath(path: string): string
    requires path != ""
  {
    "/" + JoinSegments(ResolvedSegments(Segments(path[1..])))
  }

  /** How deep the walk stands after `n` segments. */
  function Depth(segments: seq<string>, n: nat): nat
    requires n <= |segments|
  {
    if n == 0 then 0
    else
      var depth, segment := Depth(segments, n - 1), segments[n - 1];
      if IsDotDot(segment) then (if depth == 0 then 0 else depth - 1)
      else if IsDot(segment) then depth
      else depth + 1
  }

  /** The directory the walk ends in: the step into it starts at the top, and the walk never comes back to the top. */
  ghost predicate IsRoot(segments: seq<string>, n: nat, i: nat)
    requires n <= |segments|
  {
    i < n && !IsDotSegment(segments[i]) && Depth(segments, i) == 0 && forall k :: i < k <= n ==> Depth(segments, k) > 0
  }

  lemma {:induction false} WalkDepth(segments: seq<string>, n: nat)
    requires n <= |segments|
    ensures |Walk(segments, n)| == Depth(segments, n)
  {
    hide IsDot, IsDotDot;
    if n > 0 { WalkDepth(segments, n - 1); }
  }

  lemma {:induction false} WalkRoot(segments: seq<string>, n: nat, i: nat)
    requires n <= |segments| && IsRoot(segments, n, i)
    ensures Walk(segments, n) != [] && Walk(segments, n)[0] == segments[i]
  {
    hide IsDot, IsDotDot;
    WalkDepth(segments, n);
    WalkDepth(segments, n - 1);
    if i < n - 1 {
      assert Depth(segments, n - 1) > 0 && Depth(segments, n) > 0;
      WalkRoot(segments, n - 1, i);
    }
  }

  lemma {:induction false} FindRoot(segments: seq<string>, n: nat) returns (i: nat)
    requires n <= |segments| && Depth(segments, n) > 0
    ensures IsRoot(segments, n, i)
  {
    hide IsDot, IsDotDot;
    if Depth(segments, n - 1) == 0 {
      i := n - 1;
    } else {
      i := FindRoot(segments, n - 1);
    }
  }

  predicate NoSlash(segment: string) {
    '/' !in segment && '\\' !in segment
  }

  lemma {:induction false} SegmentsHaveNoSlash(text: string)
    ensures forall k :: 0 <= k < |Segments(text)| ==> NoSlash(Segments(text)[k])
  {
    if text != "" { SegmentsHaveNoSlash(text[1..]); }
  }

  lemma {:induction false} WalkTakesSegments(segments: seq<string>, n: nat)
    requires n <= |segments|
    ensures forall k :: 0 <= k < |Walk(segments, n)| ==> Walk(segments, n)[k] in segments
  {
    hide IsDot, IsDotDot;
    if n > 0 { WalkTakesSegments(segments, n - 1); }
  }

  function UpToSlash(text: string): string {
    if text == "" || text[0] == '/' then "" else [text[0]] + UpToSlash(text[1..])
  }

  lemma {:induction false} UpToSlashStops(first: string, rest: string)
    requires '/' !in first && (rest == "" || rest[0] == '/')
    ensures UpToSlash(first + rest) == first
  {
    if first == "" {
      assert first + rest == rest;
    } else {
      assert first[0] != '/';
      UpToSlashStops(first[1..], rest);
      assert (first + rest)[1..] == first[1..] + rest;
    }
  }

  lemma SplitPrefix(path: string, prefix: string)
    requires StartsWith(path, prefix)
    ensures path == prefix + path[|prefix|..]
  {
  }

  /** A path is within a top-level one when its first segment is that name. */
  lemma FirstSegment(first: string, rest: string, name: string)
    requires '/' !in first && '/' !in name && (rest == "" || rest[0] == '/')
    ensures IsWithin("/" + first + rest, "/" + name) <==> first == name
    ensures StartsWith("/" + first + rest, "/" + name + "/") <==> first == name && rest != ""
  {
    var path, prefix := "/" + first + rest, "/" + name + "/";
    assert path[1..] == first + rest;
    UpToSlashStops(first, rest);
    if path == "/" + name {
      assert path[1..] == name + "";
      UpToSlashStops(name, "");
    }
    if StartsWith(path, prefix) {
      SplitPrefix(path, prefix);
      assert path[1..] == name + ("/" + path[|prefix|..]);
      UpToSlashStops(name, "/" + path[|prefix|..]);
      assert |path| >= |name| + 2;
    }
    if first == name && rest != "" {
      assert path[..|prefix|] == prefix;
    }
    if first == name && rest == "" {
      assert path == "/" + name;
    }
  }

  lemma JoinParts(segments: seq<string>)
    requires segments != []
    ensures var rest := if |segments| == 1 then "" else "/" + JoinSegments(segments[1..]);
            "/" + JoinSegments(segments) == "/" + segments[0] + rest
  {
    hide JoinSegments;
    var first := segments[0];
    JoinFirst(segments);
    if |segments| == 1 {
      Joined("/", first, "", "");
      assert "" + "" == "";
    } else {
      Joined("/", first, "/", JoinSegments(segments[1..]));
    }
  }

  lemma JoinFirst(segments: seq<string>)
    requires segments != []
    ensures JoinSegments(segments)
         == if |segments| == 1 then segments[0] + "" + "" else segments[0] + "/" + JoinSegments(segments[1..])
  {
    assert segments[0] + "" + "" == segments[0];
  }

  lemma Joined<T>(x: seq<T>, y: seq<T>, z: seq<T>, w: seq<T>)
    ensures x + (y + z + w) == x + y + (z + w)
  {
  }

  /** Whether a browser that asks for this path ends at the gate, or at an API address. */
  predicate LeadsBack(path: string)
    requires path != ""
  {
    IsWithin(ResolvedPath(path), TERMS) || StartsWith(ResolvedPath(path), API)
  }

  /** The path names the gate's directory, or something in the API's, as the one the walk through it ends in. */
  ghost predicate NamesTheGate(path: string)
    requires path != ""
  {
    var segments := Segments(path[1..]);
    exists i: nat :: IsRoot(segments, |segments|, i)
                && (segments[i] == "terms"
                    || (segments[i] == "api"
                        && (Depth(segments, |segments|) > 1 || IsDotSegment(Last(segments)))))
  }

  /** A browser ends there exactly when the walk through the path does, counted step by step. */
  lemma LeadsBackIff(path: string)
    requires path != ""
    ensures LeadsBack(path) <==> NamesTheGate(path)
  {
    hide Segments, Walk, Depth, IsDotSegment, IsDot, IsDotDot, IsWithin, StartsWith, JoinSegments;
    var segments := Segments(path[1..]);
    var n, kept, out := |segments|, Walk(segments, |segments|), ResolvedSegments(segments);
    WalkDepth(segments, n);
    assert TERMS == "/" + "terms" && API == "/" + "api" + "/";
    if kept == [] {
      NoRoot(segments);
      TopIsApart(out);
    } else {
      var i := FindRoot(segments, n);
      WalkRoot(segments, n, i);
      OneRoot(segments, i);
      SegmentsHaveNoSlash(path[1..]);
      JoinParts(out);
      var rest := if |out| == 1 then "" else "/" + JoinSegments(out[1..]);
      FirstSegment(out[0], rest, "terms");
      FirstSegment(out[0], rest, "api");
    }
  }

  /** At the top there is no directory to end in. */
  lemma NoRoot(segments: seq<string>)
    requires segments != [] && Depth(segments, |segments|) == 0
    ensures forall i: nat :: !IsRoot(segments, |segments|, i)
  {
    hide IsDotSegment, IsDot, IsDotDot, Depth;
  }

  lemma OneRoot(segments: seq<string>, i: nat)
    requires IsRoot(segments, |segments|, i)
    ensures forall k: nat :: IsRoot(segments, |segments|, k) ==> k == i
  {
    hide IsDotSegment, IsDot, IsDotDot, Depth;
  }

  lemma TopIsApart(out: seq<string>)
    requires out == [] || out == [""]
    ensures !IsWithin("/" + JoinSegments(out), TERMS) && !StartsWith("/" + JoinSegments(out), API)
  {
    assert "/" + JoinSegments(out) == HOME;
    HomeIsApart();
  }

  /** A path without dot segments and backslashes: what it says is what a browser asks for. */
  predicate IsPlain(path: string)
    requires path != ""
  {
    && '\\' !in path
    && forall k :: 0 <= k < |Segments(path[1..])| ==> !IsDotSegment(Segments(path[1..])[k])
  }

  lemma {:induction false} JoinSegmentsOf(text: string)
    requires '\\' !in text
    ensures JoinSegments(Segments(text)) == text
  {
    if text != "" {
      assert text[0] != '\\';
      JoinSegmentsOf(text[1..]);
      var rest, segments := Segments(text[1..]), Segments(text);
      if text[0] == '/' {
        assert segments[1..] == rest;
      } else {
        assert segments[1..] == rest[1..];
      }
      assert [text[0]] + text[1..] == text;
    }
  }

  lemma {:induction false} WalkOnPlain(segments: seq<string>, n: nat)
    requires n <= |segments| && forall k :: 0 <= k < |segments| ==> !IsDotSegment(segments[k])
    ensures Walk(segments, n) == segments[..n]
  {
    hide IsDot, IsDotDot;
    if n > 0 {
      WalkOnPlain(segments, n - 1);
      assert !IsDotSegment(segments[n - 1]);
      assert segments[..n] == segments[..n - 1] + [segments[n - 1]];
    }
  }

  lemma PlainResolvesToItself(path: string)
    requires path != "" && path[0] == '/' && IsPlain(path)
    ensures ResolvedPath(path) == path
  {
    hide Segments, Walk, JoinSegments, IsDotSegment;
    var segments := Segments(path[1..]);
    JoinSegmentsOf(path[1..]);
    WalkOnPlain(segments, |segments|);
    assert segments[..|segments|] == segments && segments + [] == segments;
    assert !IsDotSegment(Last(segments));
    assert "/" + path[1..] == path;
  }

  lemma PathPartKeepsSlash(address: string)
    requires StartsWith(address, "/")
    ensures PathPart(address) != "" && PathPart(address)[0] == '/'
  {
    assert address[..1][0] == address[0] == '/';
  }

  /**
   * Where a browser takes somebody an accepted gate sends on: out of the gate
   * and the API exactly when the walk through the returned path does not end in
   * one of them; always when the path is plain.
   */
  lemma ReturnLeadsOutIff(next: Option<string>)
    ensures var path := PathPart(TermsGateReturnPath(next));
            && path != "" && path[0] == '/'
            && (LeadsBack(path) <==> NamesTheGate(path))
            && (IsPlain(path) ==> !LeadsBack(path))
  {
    hide LeadsBack, NamesTheGate, IsPlain, TermsGateReturnPath, StartsWith, IsWithin, PathPart;
    ReturnStaysOnSite(next);
    var path := PathPart(TermsGateReturnPath(next));
    PathPartKeepsSlash(TermsGateReturnPath(next));
    LeadsBackIff(path);
    if IsPlain(path) { PlainLeadsOut(path); }
  }

  lemma PlainLeadsOut(path: string)
    requires path != "" && path[0] == '/' && IsPlain(path)
    requires !IsWithin(path, TERMS) && !StartsWith(path, API)
    ensures !LeadsBack(path)
  {
    hide IsPlain, IsWithin, StartsWith, ResolvedPath;
    PlainResolvesToItself(path);
  }

  /** A path that is not plain can be returned and lead back: a dot before the gate's name. */
  lemma DotsLeadBack(dot: string, name: string)
    requires dot == "." && name == "terms"
    ensures var path := "/" + dot + "/" + name;
            TermsGateReturnPath(Some(path)) == path && PathPart(path) == path && LeadsBack(path)
  {
    hide *;
    var path := "/" + dot + "/" + name;
    DotIsReturned(dot, name, path);
    WithinGate(name);
    DotStart(name);
    DotResolved(dot, name);
    LeadsBackMeans(path);
  }

  lemma WithinGate(name: string)
    requires name == "terms"
    ensures NoSlash(name) && IsWithin("/" + name, TERMS)
  {
    assert "/" + name == TERMS;
  }

  lemma LeadsBackMeans(path: string)
    requires path != "" && IsWithin(ResolvedPath(path), TERMS)
    ensures LeadsBack(path)
  {
  }

  lemma DotIsReturned(dot: string, name: string, path: string)
    requires dot == "." && name == "terms" && path == "/" + dot + "/" + name
    ensures TermsGateReturnPath(Some(path)) == path && PathPart(path) == path
  {
    hide IsWithin, StartsWith;
    PathPartStops(path, "");
    assert path + "" == path;
    assert path[0] == '/' && path[1] == '.';
    SecondCharacter(path);
    Unrelated(path, TERMS, 1);
    Unrelated(path, API, 1);
  }

  lemma SecondCharacter(path: string)
    requires |path| >= 2 && path[0] == '/' && path[1] != '/' && path[1] != '\\'
    ensures StartsWith(path, "/") && !StartsWith(path, "//") && !StartsWith(path, "/\\")
  {
    assert path[..1] == "/";
    assert path[..2][1] == path[1];
  }

  /** Dot segments begin with a dot or a percent sign. */
  lemma DotStart(segment: string)
    ensures IsDotSegment(segment) ==> segment != "" && (segment[0] == '.' || segment[0] == '%')
  {
    assert forall i :: 0 <= i < |DOTS| ==> DOTS[i] != "" && (DOTS[i][0] == '.' || DOTS[i][0] == '%');
    if IsDotDot(segment) {
      var i, k :| 0 <= i < |DOTS| && 0 <= k < |DOTS| && segment == DOTS[i] + DOTS[k];
      assert segment[0] == DOTS[i][0];
    }
  }

  lemma {:induction false} SegmentsOfName(name: string)
    requires NoSlash(name)
    ensures Segments(name) == [name]
  {
    if name != "" {
      SegmentsOfName(name[1..]);
      assert name[0] != '/' && name[0] != '\\' && [name[0]] + name[1..] == name;
      assert [name[1..]][1..] == [];
    }
  }

  lemma OneDot(dot: string)
    requires dot == "."
    ensures IsDot(dot) && !IsDotDot(dot)
  {
    assert DOTS[0] == dot;
    assert forall i :: 0 <= i < |DOTS| ==> |DOTS[i]| >= 1;
    assert forall i, k :: 0 <= i < |DOTS| && 0 <= k < |DOTS| ==> |DOTS[i] + DOTS[k]| >= 2;
  }

  lemma DotResolved(dot: string, name: string)
    requires dot == "." && NoSlash(name) && !IsDotSegment(name)
    ensures ResolvedPath("/" + dot + "/" + name) == "/" + name
  {
    var path := "/" + dot + "/" + name;
    var text := path[1..];
    assert text[1..] == "/" + name && text[1..][1..] == name;
    SegmentsOfName(name);
    var rest := Segments("/" + name);
    assert rest == [""] + [name] && rest[1..] == [name];
    assert [text[0]] + rest[0] == dot;
    assert Segments(text) == [dot] + [name] == [dot, name];
    OneDot(dot);
    hide IsDot, IsDotDot;
    assert Walk([dot, name], 1) == [];
    assert Walk([dot, name], 2) == [name];
    assert [name] + [] == [name];
  }
}
