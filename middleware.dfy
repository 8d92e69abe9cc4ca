/**
 * The request middleware: a route guard that sends a visitor who is not
 * logged in from `/albums…` or `/admin…` to the login page, remembering
 * where they were going. Next.js only runs it on paths its matcher
 * `/((?!api|_next/static|_next/image|favicon.ico).*)` accepts; every other
 * request goes straight through.
 */
module Middleware {
  /** What the middleware does with a request. */
  datatype Outcome = Pass | Redirect(target: string, callbackUrl: string)

  /**
   * The negative look-ahead of the matcher: the path continues after its
   * leading '/' with `api`, `_next/static`, `_next/image`, or `favicon`,
   * any one character (the regular expression's '.'), and `ico`.
   */
  predicate Excluded(pathname: string) {
    || "/api" <= pathname
    || "/_next/static" <= pathname
    || "/_next/image" <= pathname
    || (|pathname| >= 12 && pathname[..8] == "/favicon" && pathname[9..12] == "ico")
  }

  /** The matcher accepts the path, so the middleware runs. */
  predicate Matched(pathname: string) {
    |pathname| > 0 && pathname[0] == '/' && !Excluded(pathname)
  }

  /** `pathname.startsWith('/albums') || pathname.startsWith('/admin')`. */
  predicate Protected(pathname: string) {
    "/albums" <= pathname || "/admin" <= pathname
  }

  /** The middleware body. */
  function Guard(pathname: string, isLoggedIn: bool): Outcome {
    if Protected(pathname) && !isLoggedIn then Redirect("/login", pathname) else Pass
  }

  /** A request as Next.js handles it: the guard runs only on matched paths. */
  function Handle(pathname: string, isLoggedIn: bool): (o: Outcome)
    ensures !Matched(pathname) ==> o == Pass
    ensures Matched(pathname) ==> o == Guard(pathname, isLoggedIn)
  {
    if Matched(pathname) then Guard(pathname, isLoggedIn) else Pass
  }

  /** Every protected path reaches the guard: the matcher excludes none of them. */
  lemma ProtectedPathsAreMatched(pathname: string)
    requires Protected(pathname)
    ensures Matched(pathname)
  {
    assert pathname[1] == 'a' && (pathname[2] == 'l' || pathname[2] == 'd');
  }

  /**
   * A request is redirected exactly when it is for a protected path and the
   * visitor is not logged in; the redirect goes to `/login` and carries the
   * original path as `callbackUrl`.
   */
  lemma RedirectExactly(pathname: string, isLoggedIn: bool)
    ensures Handle(pathname, isLoggedIn).Redirect? <==> Protected(pathname) && !isLoggedIn
    ensures Handle(pathname, isLoggedIn).Redirect? ==> Handle(pathname, isLoggedIn) == Redirect("/login", pathname)
  {
    if Protected(pathname) {
      ProtectedPathsAreMatched(pathname);
    }
  }

  /** A logged-in visitor is never redirected. */
  lemma LoggedInPasses(pathname: string)
    ensures Handle(pathname, true) == Pass
  {
  }

  /** No API route is guarded, logged in or not. */
  lemma ApiUnguarded(pathname: string, isLoggedIn: bool)
    requires "/api" <= pathname
    ensures Handle(pathname, isLoggedIn) == Pass
  {
  }

  /** Protection is a plain prefix test: `/albumsX` and `/administrator` are guarded too. */
  lemma PrefixProtects()
    ensures Handle("/albumsX", false) == Redirect("/login", "/albumsX")
    ensures Handle("/administrator", false) == Redirect("/login", "/administrator")
  {
    RedirectExactly("/albumsX", false);
    RedirectExactly("/administrator", false);
  }
}
