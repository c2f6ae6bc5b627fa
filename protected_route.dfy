/** The route guard: sends a visitor without a session to the home page, a user
    without the route's role to the profile page, and renders the route otherwise. */
module ProtectedRoute {
  import opened Wrappers
  import opened JsStrings

  /** The session user of the authentication context; its role may be missing. */
  datatype User = User(role: Option<string>)

  /** The three results: a redirect (with `replace`) to a path, or the route's children. */
  datatype Outcome = Redirect(path: string) | RenderChildren

  const HomePath := "/"
  const ProfilePath := "/profile"

  /** `ProtectedRoute({children, role})`. A role is required only when it is
      truthy, and then the user's role must be exactly that string. */
  function Decide(user: Option<User>, role: Option<string>): (r: Outcome)
    ensures r == Redirect(HomePath) <==> user.None?
    ensures r == Redirect(ProfilePath) <==> user.Some? && Truthy(role) && user.value.role != role
    ensures r == RenderChildren <==> user.Some? && (!Truthy(role) || user.value.role == role)
  {
    if user.None? then Redirect(HomePath)
    else if Truthy(role) && user.value.role != role then Redirect(ProfilePath)
    else RenderChildren
  }

}
