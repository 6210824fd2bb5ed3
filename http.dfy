/** What a request handler sends back: Express's `res` reduced to a status code and a JSON body. */
module Http {
  datatype Body =
    | Empty                                // `res.send()` with no payload
    | TokenBody(token: string)             // `{ token }`
    | ErrorBody(error: string)             // `{ error }`
    | UserBody(email: string, id: string)  // `{ email, id }`

  datatype Response = Response(status: int, body: Body)
}
