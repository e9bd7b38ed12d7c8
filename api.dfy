/**
 * The remote REST service as the front end sees it (utils/api.ts). Transport, the base URL
 * and the bearer-token header are not modelled: a call is the request it names, and its
 * awaited result is handed to the model as a parameter.
 */
module Api {
  /** The calls the admin pages issue. */
  datatype Request =
    | GetUsers                                             // GET /admin
    | GetUsersByUnit(unit: string)                         // GET /admin/users/sort/:unit
    | UpdateMembership(userId: string, membershipStatus: bool)  // PATCH /admin/users/:id/membership
    | AdminLogin(adminId: string, password: string)        // POST /admin/login

  /** How an awaited call settles: with a response body, or by throwing. */
  datatype Response<T> = Received(body: T) | Failed
}
