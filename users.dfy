/** The two records of the service: the stored user and the body of a create or update request. */
module Users {

  /** A stored user. `id` is assigned by the service, never by the client. */
  datatype User = User(id: string, name: string, email: string)

  /** The JSON body accepted by create and update: it has no `id` field, so a client cannot choose one. */
  datatype CreateUserRequest = CreateUserRequest(name: string, email: string)
}
