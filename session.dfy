/** The signed-in user as the front end's store holds it. */
module Session {

  /** The fields of the user object the pages read. A missing role is "". */
  datatype User = User(id: string, email: string, role: string, isVerified: bool)

  /** `store.auth.user`: JavaScript distinguishes `null` from `undefined`,
      and some guards test one with `=== null` and the other with `!user`.
      A user object is always truthy. */
  datatype AuthUser = Null | Undefined | Present(user: User)
  {
    predicate Truthy()
    {
      Present?
    }

    /** `user?.role` compared with `===`: false when there is no user. */
    predicate HasRole(role: string)
    {
      Present? && user.role == role
    }
  }

  /** Where the front end navigates, or does nothing, or fails: the last
      is a `TypeError` from reading a property of `undefined` inside an
      effect. */
  datatype Navigation = Stay | NavigateTo(path: string) | Throws
}
