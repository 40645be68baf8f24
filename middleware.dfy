/**
 * The route guard run on every request: signed-out visitors of the app are
 * sent to the login page, signed-in visitors of the login and register pages
 * are sent to the app, and the session cookies the guard refreshed travel
 * with either redirect. Whether a user is signed in is a parameter.
 */
module Middleware {
  import opened Options

  predicate StartsWith(s: string, prefix: string) {
    |prefix| <= |s| && s[..|prefix|] == prefix
  }

  /** `pathname === "/app" || pathname.startsWith("/app/")`. */
  predicate IsAppRoute(pathname: string) {
    pathname == "/app" || StartsWith(pathname, "/app/")
  }

  /** `pathname === "/login" || pathname === "/register"`. */
  predicate IsAuthRoute(pathname: string) {
    pathname == "/login" || pathname == "/register"
  }

  /** Every auth route and every app route are different pages. */
  lemma RouteClassesDisjoint(pathname: string)
    ensures !(IsAppRoute(pathname) && IsAuthRoute(pathname))
  {
    if IsAuthRoute(pathname) && |pathname| >= 5 {
      assert pathname[..5][1] == pathname[1];
    }
  }

  /** The prefix test is on whole path segments. */
  lemma RouteExamples()
    ensures IsAppRoute("/app") && IsAppRoute("/app/habits") && IsAppRoute("/app/")
    ensures !IsAppRoute("/apple") && !IsAppRoute("/ap") && !IsAppRoute("/App")
    ensures IsAuthRoute("/login") && !IsAuthRoute("/login/")
  {
    assert "/app/habits"[..5] == "/app/";
    assert "/apple"[..5] != "/app/" by {
      assert "/apple"[..5][4] == 'l';
    }
  }

  // ----- URLs.

  /** A request URL; `query` is its search parameters in order. */
  datatype Url = Url(origin: string, pathname: string, query: seq<(string, string)>, hash: string)

  /**
   * The pairs whose name is not `name`: each as often as in the query
   * (`WithoutNameCounts`), and in the query's order (`WithoutNameAppend`).
   */
  function WithoutName(query: seq<(string, string)>, name: string): (r: seq<(string, string)>)
    ensures |r| <= |query|
    ensures forall p :: p in r <==> p in query && p.0 != name
  {
    if query == [] then []
    else (if query[0].0 == name then [] else [query[0]]) + WithoutName(query[1..], name)
  }

  /** Every pair with another name is kept as often as it occurs; the pairs named `name` go. */
  lemma {:induction false} WithoutNameCounts(query: seq<(string, string)>, name: string)
    ensures forall p :: multiset(WithoutName(query, name))[p] == if p.0 == name then 0 else multiset(query)[p]
  {
    if query != [] {
      assert query == [query[0]] + query[1..];
      WithoutNameCounts(query[1..], name);
    }
  }

  predicate HasName(query: seq<(string, string)>, name: string) {
    exists i :: 0 <= i < |query| && query[i].0 == name
  }

  /** `URLSearchParams.get`: the value of the first pair with that name. */
  function GetParam(query: seq<(string, string)>, name: string): Option<string> {
    if query == [] then None
    else if query[0].0 == name then Some(query[0].1)
    else GetParam(query[1..], name)
  }

  /** The first pair named `name` gets `value`, the later ones go. */
  function ReplaceFirst(query: seq<(string, string)>, name: string, value: string): seq<(string, string)> {
    if query == [] then []
    else if query[0].0 == name then [(name, value)] + WithoutName(query[1..], name)
    else [query[0]] + ReplaceFirst(query[1..], name, value)
  }

  /**
   * `URLSearchParams.set`: when the name occurs, its first pair gets the
   * value and the others are removed; otherwise the pair is appended.
   */
  function SetParam(query: seq<(string, string)>, name: string, value: string): seq<(string, string)> {
    if HasName(query, name) then ReplaceFirst(query, name, value) else query + [(name, value)]
  }

  lemma {:induction false} ReplaceFirstFacts(query: seq<(string, string)>, name: string, value: string)
    requires HasName(query, name)
    ensures GetParam(ReplaceFirst(query, name, value), name) == Some(value)
    ensures WithoutName(ReplaceFirst(query, name, value), name) == WithoutName(query, name)
    ensures Count(ReplaceFirst(query, name, value), name) == 1
  {
    if query[0].0 == name {
      WithoutNameHasNone(query[1..], name);
      assert ReplaceFirst(query, name, value) == [(name, value)] + WithoutName(query[1..], name);
      WithoutNameIdempotent(query[1..], name);
      CountAppend([(name, value)], WithoutName(query[1..], name), name);
    } else {
      var i :| 0 <= i < |query| && query[i].0 == name;
      assert query[1..][i - 1] == query[i];
      ReplaceFirstFacts(query[1..], name, value);
      CountAppend([query[0]], ReplaceFirst(query[1..], name, value), name);
    }
  }

  /** How many pairs carry the name. */
  function Count(query: seq<(string, string)>, name: string): nat {
    if query == [] then 0 else (if query[0].0 == name then 1 else 0) + Count(query[1..], name)
  }

  lemma {:induction false} CountAppend(a: seq<(string, string)>, b: seq<(string, string)>, name: string)
    ensures Count(a + b, name) == Count(a, name) + Count(b, name)
  {
    if a != [] {
      assert (a + b)[1..] == a[1..] + b;
      CountAppend(a[1..], b, name);
    } else {
      assert a + b == b;
    }
  }

  lemma {:induction false} WithoutNameHasNone(query: seq<(string, string)>, name: string)
    ensures Count(WithoutName(query, name), name) == 0
  {
    if query != [] {
      var head := if query[0].0 == name then [] else [query[0]];
      WithoutNameHasNone(query[1..], name);
      CountAppend(head, WithoutName(query[1..], name), name);
    }
  }

  lemma {:induction false} WithoutNameIdempotent(query: seq<(string, string)>, name: string)
    ensures WithoutName(WithoutName(query, name), name) == WithoutName(query, name)
  {
    if query != [] {
      WithoutNameIdempotent(query[1..], name);
      var head := if query[0].0 == name then [] else [query[0]];
      var rest := WithoutName(query[1..], name);
      WithoutNameAppend(head, rest, name);
      assert WithoutName(head, name) == head by {
        if head != [] {
          assert head[1..] == [];
        }
      }
    }
  }

  lemma {:induction false} WithoutNameAppend(a: seq<(string, string)>, b: seq<(string, string)>, name: string)
    ensures WithoutName(a + b, name) == WithoutName(a, name) + WithoutName(b, name)
  {
    if a != [] {
      var ab := a + b;
      assert ab[0] == a[0] && ab[1..] == a[1..] + b;
      WithoutNameAppend(a[1..], b, name);
    } else {
      assert a + b == b;
    }
  }

  lemma {:induction false} GetParamAbsent(query: seq<(string, string)>, name: string, extra: seq<(string, string)>)
    requires !HasName(query, name)
    ensures GetParam(query + extra, name) == GetParam(extra, name)
    ensures Count(query, name) == 0
  {
    if query != [] {
      assert (query + extra)[1..] == query[1..] + extra;
      assert !HasName(query[1..], name) by {
        forall i | 0 <= i < |query[1..]| ensures query[1..][i].0 != name {
          assert query[1..][i] == query[i + 1];
        }
      }
      assert query[0].0 != name;
      GetParamAbsent(query[1..], name, extra);
    } else {
      assert query + extra == extra;
    }
  }

  /**
   * After `set(name, value)` reading the name gives the value, the name
   * occurs once, and the pairs with other names are unchanged and in order.
   */
  lemma SetParamFacts(query: seq<(string, string)>, name: string, value: string)
    ensures GetParam(SetParam(query, name, value), name) == Some(value)
    ensures Count(SetParam(query, name, value), name) == 1
    ensures WithoutName(SetParam(query, name, value), name) == WithoutName(query, name)
  {
    if HasName(query, name) {
      ReplaceFirstFacts(query, name, value);
    } else {
      GetParamAbsent(query, name, [(name, value)]);
      CountAppend(query, [(name, value)], name);
      WithoutNameAppend(query, [(name, value)], name);
    }
  }

  // ----- The redirect decision.

  datatype Decision = Redirect(target: Url) | PassThrough

  /**
   * Signed out on an app route: to `/login`, keeping the query and setting
   * `next` to the requested path. Signed in on an auth route: to `/app` with
   * an empty query. Anything else is let through.
   */
  function Decide(url: Url, signedIn: bool): (d: Decision)
    ensures d.Redirect? <==> (IsAppRoute(url.pathname) && !signedIn) || (IsAuthRoute(url.pathname) && signedIn)
    ensures d.Redirect? ==> d.target.origin == url.origin && d.target.hash == url.hash
  {
    if IsAppRoute(url.pathname) && !signedIn then
      Redirect(url.(pathname := "/login", query := SetParam(url.query, "next", url.pathname)))
    else if IsAuthRoute(url.pathname) && signedIn then
      Redirect(url.(pathname := "/app", query := []))
    else
      PassThrough
  }

  /** A signed-out visitor of the app lands on the login page, which knows where they were going. */
  lemma SignedOutGoesToLogin(url: Url)
    requires IsAppRoute(url.pathname)
    ensures var d := Decide(url, false);
      d.Redirect? && d.target.pathname == "/login"
      && GetParam(d.target.query, "next") == Some(url.pathname)
      && WithoutName(d.target.query, "next") == WithoutName(url.query, "next")
  {
    SetParamFacts(url.query, "next", url.pathname);
  }

  /** A signed-in visitor of the login or register page lands on the app with no query. */
  lemma SignedInGoesToApp(url: Url)
    requires IsAuthRoute(url.pathname)
    ensures var d := Decide(url, true);
      d.Redirect? && d.target.pathname == "/app" && d.target.query == []
  {
    RouteClassesDisjoint(url.pathname);
  }

  /** The login page a signed-out visitor is sent to is never itself redirected for them. */
  lemma LoginRedirectSettles(url: Url)
    requires IsAppRoute(url.pathname)
    ensures Decide(Decide(url, false).target, false) == PassThrough
  {
    RouteClassesDisjoint("/login");
  }

  /** The app page a signed-in visitor is sent to is never itself redirected for them. */
  lemma AppRedirectSettles(url: Url)
    requires IsAuthRoute(url.pathname)
    ensures Decide(Decide(url, true).target, true) == PassThrough
  {
    RouteClassesDisjoint(url.pathname);
  }

  // ----- Responses and their cookies.

  /** A cookie's value and its attributes (path, expiry, flags) as name/value pairs. */
  datatype Cookie = Cookie(value: string, attributes: seq<(string, string)>)

  class Response {
    /** Where a redirect points; `None` for the response that lets the request through. */
    const location: Option<Url>
    /** The cookies the response sets, by name. */
    var cookies: map<string, Cookie>

    constructor(location: Option<Url>, cookies: map<string, Cookie>)
      ensures this.location == location && this.cookies == cookies
    {
      this.location := location;
      this.cookies := cookies;
    }
  }

  /**
   * `withCookies(from, to)`: every cookie of `from` is set on `to` under its
   * name, replacing a cookie of that name; the other cookies of `to` stay.
   */
  method WithCookies(from: Response, to: Response)
    modifies to
    ensures to.cookies == old(to.cookies) + old(from.cookies)
  {
    var source := from.cookies;
    var remaining := source.Keys;
    while remaining != {}
      invariant remaining <= source.Keys
      invariant to.cookies == old(to.cookies) + map n | n in source.Keys - remaining :: source[n]
      decreases remaining
    {
      var n :| n in remaining;
      to.cookies := to.cookies[n := source[n]];
      remaining := remaining - {n};
    }
    assert source.Keys - remaining == source.Keys;
    assert (map n | n in source.Keys :: source[n]) == source;
  }

  /**
   * `middleware`: the session response (carrying the refreshed session
   * cookies) when the request passes, otherwise a fresh redirect carrying
   * exactly those cookies.
   */
  method Guard(url: Url, signedIn: bool, session: Response) returns (response: Response)
    ensures Decide(url, signedIn).PassThrough? ==> response == session
    ensures Decide(url, signedIn).Redirect? ==>
      fresh(response) && response.location == Some(Decide(url, signedIn).target)
      && response.cookies == session.cookies
  {
    var decision := Decide(url, signedIn);
    if decision.PassThrough? {
      return session;
    }
    response := new Response(Some(decision.target), map[]);
    WithCookies(session, response);
    assert map[] + session.cookies == session.cookies;
  }
}
