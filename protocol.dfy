/** The JSON requests the server's listener answers, one per connection. */
module Protocol {
  import opened Wrappers
  import opened Messages
  import opened Slots

  /** The scalar JSON values an `'enable'` field can carry. */
  datatype Json = Null | Bool(b: bool) | Number(n: real) | Str(s: string)

  /** Python's `bool(value)` for a decoded JSON scalar. */
  predicate Truthy(v: Json) {
    match v
    case Null => false
    case Bool(b) => b
    case Number(n) => n != 0.0
    case Str(s) => s != ""
  }

  datatype Request =
      /** `{'enable': value}`: `'toggle'` or a value taken by its truth */
    | EnableRequest(enable: Json)
      /** `{'query': what}` */
    | QueryRequest(query: string)
      /** `{'address': a, 'message': m[, 'priority': p][, 'client': c]}` */
    | AssignRequest(address: int, message: Message, priority: Option<int>, client: Option<ClientId>)

  datatype Reply =
    | Success(success: bool)
    | CurrentText(texts: seq<Option<string>>)
    | Enabled(enabled: bool)
    | BufferReply(buffer: seq<Slot>)
      /** An unknown query gets no answer. */
    | NoReply

  /** The priority an assignment is arbitrated at: the request's, or 0. */
  function RequestPriority(r: Request): int
    requires r.AssignRequest?
  {
    r.priority.GetOr(0)
  }

  /** The identity an assignment is arbitrated under: the request's, or the peer's address. */
  function RequestClient(r: Request, peer: string): ClientId
    requires r.AssignRequest?
  {
    r.client.GetOr(Some(peer))
  }
}
