/** The JSON replies the backend sends: a status code and a body with a `message`. */
module Http {
  import opened Schema

  /** The `user` object of a reply: `{ id, username }`. */
  datatype UserView = UserView(id: ObjectId, username: string)

  datatype Body =
    | Message(message: string)
    | Authenticated(message: string, token: string, user: UserView)
    | ContentCreated(message: string, content: Content)
    | ContentFetched(message: string, contents: seq<Content>, user: UserView)

  datatype Reply = Reply(status: nat, body: Body)

  /** The reply of every catch block but the delete route's. */
  const InternalError := Reply(500, Message("Internal server error"))
}
