/**
  What the client pages share: the message shown when no token is stored,
  and what a page does once one of its posts settles.
*/
module ClientSession {
  import opened Requests

  const NoSession: string := "Session expired. Please sign in again."

  /** The page's state after a post: its fields emptied, an error shown, or still waiting for an answer. */
  datatype PostOutcome = Cleared | Failed(message: string) | Pending

  /**
    A settled post: a stored record clears the form; a 400 or 500 shows
    `prefix` and the server's message; a request the server never answers
    leaves the page waiting (the client sets no timeout). A handler that
    throws is taken to send nothing, as Express 4 does with a rejected
    `async` handler while Node only warns about the unhandled rejection.
  */
  function Settle<T>(reply: Reply<T>, prefix: string): (o: PostOutcome)
    ensures o.Cleared? <==> reply.Saved?
    ensures o.Pending? <==> reply.NoReply? || reply.Thrown?
    ensures reply.BadRequest? ==> o == Failed(prefix + reply.message)
    ensures reply.ServerError? ==> o == Failed(prefix + reply.message)
    ensures o.Failed? ==> |o.message| >= |prefix| && o.message[..|prefix|] == prefix
  {
    match reply
    case Saved(_) => Cleared
    case BadRequest(m) => Failed(prefix + m)
    case ServerError(m) => Failed(prefix + m)
    case NoReply => Pending
    case Thrown(_) => Pending
  }
}
