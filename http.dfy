/** What an Express handler sends back: a status code and the `message` of its JSON body. */
module Http {
  datatype Response = Response(status: nat, message: string)
}
