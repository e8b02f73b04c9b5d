/** The request middleware: signed-out visitors are sent home from the protected routes. */
module Middleware {

  const ProtectedRoutes: seq<string> := ["/chat", "/api"]

  /** `routes.some(route => path.startsWith(route))` */
  function AnyPrefix(routes: seq<string>, path: string): (r: bool)
    ensures r <==> exists i :: 0 <= i < |routes| && routes[i] <= path
  {
    if |routes| == 0 then false
    else routes[0] <= path || AnyPrefix(routes[1..], path)
  }

  /** A prefix test, so "/apiary" is protected and "/" is not. */
  function IsProtectedRoute(path: string): (r: bool)
    ensures r <==> "/chat" <= path || "/api" <= path
  {
    assert ProtectedRoutes[0] == "/chat" && ProtectedRoutes[1] == "/api";
    AnyPrefix(ProtectedRoutes, path)
  }

  lemma PrefixExamples()
    ensures IsProtectedRoute("/apiary") && IsProtectedRoute("/chat/1") && !IsProtectedRoute("/") && !IsProtectedRoute("/ch")
  {
    assert "/api" <= "/apiary";
    assert "/chat" <= "/chat/1";
  }

  /** How the session lookup ended. */
  datatype SessionLookup = LookupThrows | Looked(hasSession: bool)

  datatype Decision = PassThrough | Redirect(location: string)

  /** `middleware(req)`: redirect to "/" without a session on a protected path, otherwise pass through. */
  function Decide(path: string, lookup: SessionLookup): (d: Decision)
    ensures d.Redirect? ==> d.location == "/"
    ensures d.Redirect? <==> lookup == Looked(false) && IsProtectedRoute(path)
    ensures lookup.LookupThrows? ==> d == PassThrough
  {
    match lookup
    case LookupThrows => PassThrough
    case Looked(hasSession) =>
      if !hasSession && IsProtectedRoute(path) then Redirect("/") else PassThrough
  }
}
