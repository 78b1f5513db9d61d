/** What a handler writes back: a status code and a typed body. */
module Http {
  import opened Wrappers
  import opened Domain

  const StatusOK := 200
  const StatusCreated := 201
  const StatusNoContent := 204
  const StatusBadRequest := 400
  const StatusUnauthorized := 401
  const StatusForbidden := 403
  const StatusNotFound := 404
  const StatusInternalServerError := 500

  datatype Body =
    | ErrorBody(description: string)
    | MessageBody
    | CartBody(requestId: Option<nat>, count: nat)
    | RequestBody(request: RequestDTO)
    | ListBody(items: seq<RequestDTO>)
    | UserBody(user: UserDTO)
    | LoginBody(token: string, user: UserDTO)
    /** What gin's recovery middleware writes after a handler panics. */
    | PanicBody

  datatype Response = Response(code: int, body: Body)

  /** The response of `errorHandler`. */
  function Error(code: int, description: string): Response
  {
    Response(code, ErrorBody(description))
  }
}
