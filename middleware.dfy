/** The edge middleware: requests to the protected API prefixes need a valid Bearer
    token; the decoded token is handed on in the `user` header. */
module Middleware {
  import opened Base
  import opened Text

  /** `protectedRoutes` (line 8). */
  const ProtectedRoutes: seq<string> := ["/api/volunteers", "/api/registrations"]

  /** `protectedRoutes.some((route) => pathname.startsWith(route))` (line 14). */
  predicate IsProtected(path: string) {
    exists i :: 0 <= i < |ProtectedRoutes| && StartsWith(path, ProtectedRoutes[i])
  }

  /** What happens to the request. */
  datatype Decision =
    | Next(userHeader: Option<string>)   // passed on; the `user` header when one is set
    | Unauthorized                       // 401 "Acceso no autorizado"
    | Forbidden                          // 403 "Token inválido o expirado"

  /** `middleware` (lines 10-33). `verify` stands for `jwt.verify` with the secret,
      followed by `JSON.stringify`: the JSON of the payload, or `None` when it throws. */
  function Decide(path: string, header: Option<string>, verify: string -> Option<string>): (d: Decision)
    ensures !IsProtected(path) ==> d == Next(None)
    ensures d != Next(None) ==> IsProtected(path)
    ensures (d.Next? && d.userHeader.Some?) || d.Forbidden? ==> header.Some? && StartsWith(header.value, "Bearer ")
    ensures d.Unauthorized? <==> IsProtected(path) && (header.None? || !StartsWith(header.value, "Bearer "))
  {
    if !IsProtected(path) then Next(None)
    else if header.None? || !StartsWith(header.value, "Bearer ") then Unauthorized
    else
      var h := header.value;
      assert h == "Bearer " + h[7..];
      BearerToken(h[7..]);
      match verify(Split(h, ' ')[1])
      case None => Forbidden
      case Some(json) => Next(Some(json))
  }

  /** `config.matcher` `'/api/:path*'` (lines 36-38). */
  predicate Matched(path: string) {
    path == "/api" || StartsWith(path, "/api/")
  }

  /** The request as the application sees it: paths outside the matcher never reach
      the middleware. */
  function Handle(path: string, header: Option<string>, verify: string -> Option<string>): (d: Decision)
    ensures d != Next(None) ==> Matched(path) && IsProtected(path)
    ensures Matched(path) ==> d == Decide(path, header, verify)
  {
    if Matched(path) then Decide(path, header, verify) else Next(None)
  }

  // ------------------------------------------------------------------ properties

  /** The header's token: for `"Bearer " + rest`, the second space-separated piece is
      the part of `rest` before its next space. */
  lemma BearerToken(rest: string)
    ensures var parts := Split("Bearer " + rest, ' ');
      |parts| >= 2 && parts[1] == Split(rest, ' ')[0]
  {
    assert "Bearer " + rest == "Bearer" + [' '] + rest;
    SplitPieceThen("Bearer", ' ', rest);
  }

  /** Paths outside both prefixes pass unchanged, with no `user` header. */
  lemma UnprotectedPasses(path: string, header: Option<string>, verify: string -> Option<string>)
    requires !StartsWith(path, "/api/volunteers") && !StartsWith(path, "/api/registrations")
    ensures Decide(path, header, verify) == Next(None)
  {
  }

  /** On a protected path, a missing header or one without the `Bearer ` prefix is 401. */
  lemma MissingBearerIsUnauthorized(path: string, header: Option<string>, verify: string -> Option<string>)
    requires IsProtected(path)
    requires header.None? || !StartsWith(header.value, "Bearer ")
    ensures Decide(path, header, verify) == Unauthorized
  {
  }

  /** With a Bearer header, the verdict on the token decides: passed on with the
      payload's JSON in `user`, or 403. */
  lemma TokenDecides(path: string, rest: string, verify: string -> Option<string>)
    requires IsProtected(path)
    ensures var token := Split(rest, ' ')[0];
      Decide(path, Some("Bearer " + rest), verify) ==
        if verify(token).Some? then Next(Some(verify(token).value)) else Forbidden
  {
    BearerToken(rest);
    var h := "Bearer " + rest;
    assert StartsWith(h, "Bearer ") by {
      assert h[..|"Bearer "|] == "Bearer ";
    }
  }

  /** The prefix test is textual: `/api/volunteersX` is protected as well. */
  lemma PrefixIsTextual(suffix: string)
    ensures IsProtected("/api/volunteers" + suffix)
  {
    var p := "/api/volunteers" + suffix;
    assert p[..|ProtectedRoutes[0]|] == ProtectedRoutes[0];
  }

  /** The matcher covers every protected path, so it changes no decision. */
  lemma MatcherChangesNothing(path: string, header: Option<string>, verify: string -> Option<string>)
    ensures Handle(path, header, verify) == Decide(path, header, verify)
  {
    if IsProtected(path) {
      var i :| 0 <= i < |ProtectedRoutes| && StartsWith(path, ProtectedRoutes[i]);
      assert path[..5] == ProtectedRoutes[i][..5] == "/api/";
    }
  }
}
