/** Abstract HTTP exchanges: what a caller sees of one request, with the network,
    the server and the body decoding all left as inputs. */
module Http {
  import opened Wrappers
  import opened JsonValue
  import opened Text

  /** A response as received: status code, raw body text, and the body decoded as JSON
      (`None` when decoding raises). */
  datatype Reply = Reply(status: nat, text: string, json: Option<Json>)

  /** One request's outcome: the call raised (unreachable host, timeout, ...) with an
      error message, or a response arrived. */
  datatype Exchange = Threw(message: string) | Replied(reply: Reply)

  /** A response produced by one of the system's own endpoints: status and JSON body
      (`None` for a non-JSON body). */
  datatype ServerReply = ServerReply(status: nat, body: Option<Json>)

  /** The exchange a client observes when the server's reply reaches it; the raw text is
      whatever the server serialised and is left open. */
  function Deliver(r: ServerReply, text: string): (e: Exchange)
    ensures e.Replied? && e.reply.status == r.status && e.reply.json == r.body
  {
    Replied(Reply(r.status, text, r.body))
  }

  /** `Response.ok` of the Fetch API: a status in the range 200-299. */
  predicate IsOk(status: nat) {
    200 <= status <= 299
  }

  /** The exchange produced a response with exactly status 200 (the check the backend makes on upstream calls). */
  predicate Is200(e: Exchange) {
    e.Replied? && e.reply.status == 200
  }

  /** HTTP whitespace bytes of the Fetch Standard: tab, line feed, carriage return, space. */
  predicate IsHttpSpace(c: char) {
    c == '\t' || c == '\n' || c == '\r' || c == ' '
  }

  /** The header value a request actually carries: the Fetch Standard's `Headers` object
      normalizes every value it is given by removing leading and trailing HTTP whitespace.
      A value that neither starts nor ends with HTTP whitespace is sent as given; one made
      of it alone is sent empty. */
  function FetchHeaderValue(v: string): (sent: string)
    ensures sent == [] || (!IsHttpSpace(sent[0]) && !IsHttpSpace(sent[|sent| - 1]))
    ensures sent == [] <==> AllSpace(v, IsHttpSpace)
    ensures |v| > 0 && !IsHttpSpace(v[0]) && !IsHttpSpace(v[|v| - 1]) ==> sent == v
  {
    assert |v| > 0 && !IsHttpSpace(v[0]) && !IsHttpSpace(v[|v| - 1]) ==> Trim(v, IsHttpSpace) == v by {
      if |v| > 0 && !IsHttpSpace(v[0]) && !IsHttpSpace(v[|v| - 1]) {
        TrimUnchanged(v, IsHttpSpace);
      }
    }
    Trim(v, IsHttpSpace)
  }
}
