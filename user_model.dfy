/** The user document of server/models/User.js, as the message handlers and the
    authentication middleware see it. */
module UserModel {

  /** A stored user, `_id` included. */
  datatype User = User(id: string, email: string, fullName: string, password: string,
                       profilePic: string, bio: string)

  /** A user as returned by a query with `.select("-password")`. */
  datatype PublicUser = PublicUser(id: string, email: string, fullName: string,
                                   profilePic: string, bio: string)

  function WithoutPassword(u: User): PublicUser
  {
    PublicUser(u.id, u.email, u.fullName, u.profilePic, u.bio)
  }
}
