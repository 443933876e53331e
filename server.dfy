/** The decision logic of `ask_agent` in server.py: the answer of `ask_question`, or
    the exception it raised, mapped to an HTTP status code and a JSON envelope. */
module Server {
  import opened Wrappers
  import opened Text
  import opened Resolver
  import opened Assistant

  /** `ask_question` returned a value (`None` or a string), or raised with this text. */
  datatype Outcome = Returned(response: Option<string>) | Failed(error: string)

  /** The status code and the `{status, message, data: [{answer}]}` envelope. */
  datatype Reply = Reply(code: nat, status: bool, message: string, answer: Option<string>)

  predicate Falsy(response: Option<string>) {
    response.None? || response.value == []
  }

  function Classify(o: Outcome): (r: Reply)
    ensures r.code in {200, 404, 429, 500, 502}
    ensures r.status <==> r.code == 200
    ensures r.answer.Some? <==> r.code == 200
  {
    match o
    case Failed(e) => Reply(500, false, "Internal Server Error: " + e, None)
    case Returned(resp) =>
      if Falsy(resp) then Reply(404, false, "No answer found", None)
      else if Contains(Lower(resp.value), "maximum retries") then Reply(429, false, "Maximum retry limit reached", None)
      else if Contains(Lower(resp.value), "bad gateway") then Reply(502, false, "Bad Gateway", None)
      else Reply(200, true, "Data fetched successfully", resp)
  }

  /** Each status code in terms of the outcome, both directions. */
  lemma ClassifyCodes(o: Outcome)
    ensures Classify(o).code == 500 <==> o.Failed?
    ensures Classify(o).code == 404 <==> o.Returned? && Falsy(o.response)
    ensures Classify(o).code == 429 <==>
      o.Returned? && !Falsy(o.response) && Contains(Lower(o.response.value), "maximum retries")
    ensures Classify(o).code == 502 <==>
      o.Returned? && !Falsy(o.response) && !Contains(Lower(o.response.value), "maximum retries")
      && Contains(Lower(o.response.value), "bad gateway")
    ensures Classify(o).code == 200 <==>
      o.Returned? && !Falsy(o.response) && !Contains(Lower(o.response.value), "maximum retries")
      && !Contains(Lower(o.response.value), "bad gateway")
  {
  }

  /** A successful reply passes the answer through verbatim. */
  lemma ClassifyPassesAnswer(o: Outcome)
    requires Classify(o).code == 200
    ensures o.Returned? && Classify(o).answer == o.response
  {
  }

  /** The exception text is exposed after the fixed prefix. */
  lemma ClassifyException(e: string)
    ensures Classify(Failed(e)) == Reply(500, false, "Internal Server Error: " + e, None)
  {
  }

  /** An engine failure that `ask_question` turned into its apology string reaches the
      client as 429 when its text mentions maximum retries: the status is found by
      sniffing the answer, not from the exception. */
  lemma RetryFailureIs429(e: string)
    requires Contains(Lower(e), "maximum retries")
    ensures Classify(Returned(Some(ReplyText(Raised(e))))).code == 429
  {
    var prefix := "Sorry, error occurred: ";
    LowerAppend(prefix, e);
    ContainsInSuffix(Lower(prefix), Lower(e), "maximum retries");
  }

  /** The `/ask` endpoint: the question goes through `ask_question`, whose answer is
      classified. `ask_question` catches the engine's exceptions itself, so the 500
      branch is not reached from here. */
  method AskEndpoint(mem: Memory, message: string, reply: EngineReply) returns (r: Reply)
    modifies mem`history
    ensures mem.history == old(mem.history)
      + [Human(Recorded(message, Resolve(message, mem.index, mem.focus))), AI(ReplyText(reply))]
    ensures r == Classify(Returned(Some(AskAnswer(reply)))) && r.code != 500
  {
    var answer := mem.Ask(message, reply);
    r := Classify(Returned(Some(answer)));
    ClassifyCodes(Returned(Some(answer)));
  }
}
