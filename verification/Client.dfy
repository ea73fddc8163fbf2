/** What a request to the Riot Client comes back with, and how the client's three
    ways of having or not having a route are told apart.
 */
module Client {
  datatype Option<+T> = None | Some(value: T)

  /** A body as the callers read it. */
  datatype Body =
    | Bool(flag: bool)
    | Text(text: string)
    | RiotError(code: string, prose: string)
    | Unreadable(raw: string)

  datatype Response = Response(status: nat, body: Body) {
    predicate IsSuccess() { 200 <= status < 300 }

    predicate IsServerError() { 500 <= status < 600 }
  }

  datatype RequestError = NoClient | Transport | Encode | Decode

  datatype Outcome = Ok(response: Response) | Err(error: RequestError)

  datatype Presence = Serving | Registered | Absent

  const NO_CONTENT := 204
  const NOT_FOUND := 404

  function PresenceOf(response: Response): Presence {
    if response.status != NOT_FOUND then Serving
    else if response.body.RiotError? && response.body.code == "RPC_ERROR" then Registered
    else Absent
  }
}
