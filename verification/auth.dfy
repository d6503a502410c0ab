/** The sign-in context the storefront provides
    (context/authcontext/AuthContext.ts and AuthProvider.tsx): a sign-in
    flag and a token, both `null` until set. It carries no user record and
    no `updateProfile` function, although the cart and favourites providers
    read `user?.id` from it and the profile image uploader calls
    `updateProfile` from it. */
module Auth {
  import opened Transport

  /** The context value `{ Loggedin, setLoggedin, Token, setToken }`; the
      setters are left out. */
  datatype AuthContext = AuthContext(loggedIn: Option<bool>, token: Option<string>)

  /** `authContext?.user?.id` read from the context as provided: there is
      no `user` field, so the read is `undefined` whatever the sign-in
      state. */
  function UserIdOf(ctx: AuthContext): (r: Option<int>)
    ensures r.None?
  {
    None
  }
}
