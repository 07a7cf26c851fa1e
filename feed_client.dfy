/** RecentlyPosts.handleEvent: how the outcome of the feed request is
    dispatched to the success and error handlers. The request itself is not
    modelled; its outcome arrives as a LoadEvent. */
module FeedClient {
  import opened Wrappers
  import opened Exceptions
  import opened Feed

  /** What `typeof handler === 'function'` says of a handler. */
  datatype Handler = Function | NotFunction

  /** A RecentlyPosts object: the two handlers given to its constructor. */
  datatype RecentlyPosts = RecentlyPosts(successHandler: Handler, errorHandler: Handler)

  /** What handleEvent reads: the event's type, the request's status and
      its `responseXML`. */
  datatype LoadEvent = LoadEvent(eventType: string, status: int, responseXml: Option<XmlDocument>)

  /** A call of one of the handlers, with its argument. */
  datatype Invocation = SuccessCalled(parsed: Parsed) | ErrorCalled(error: Error)

  /** The statuses accepted as a response: `[200, 304]`. */
  const ACCEPTED_STATUSES: seq<int> := [200, 304]

  /** `type === 'error' || [200, 304].indexOf(client.status) < 0` */
  predicate TransportFailed(event: LoadEvent)
  {
    event.eventType == "error" || event.status !in ACCEPTED_STATUSES
  }

  /** handleEvent: the handler calls it makes, in order, and how it ends. */
  method HandleEvent(client: RecentlyPosts, event: LoadEvent) returns (calls: seq<Invocation>, completion: Completion)
    // A failed transport reaches the error handler once, if it is a
    // function, with the "Don't get response." error; nothing else runs.
    ensures TransportFailed(event) ==>
      completion == Returned &&
      calls == (if client.errorHandler == Function then [ErrorCalled(NoResponse(NO_RESPONSE_MESSAGE))] else [])
    // An exception from parseResponse goes to the error handler, which is
    // called without checking that it is a function.
    ensures !TransportFailed(event) && ParseResponse(event.responseXml).Failure? ==>
      var e := ParseResponse(event.responseXml).error;
      if client.errorHandler == Function then calls == [ErrorCalled(e)] && completion == Returned
      else calls == [] && completion == Threw(NotAFunction("errorHandler"))
    // Otherwise the success handler receives what parseResponse returned.
    ensures !TransportFailed(event) && ParseResponse(event.responseXml).Success? ==>
      var p := ParseResponse(event.responseXml).value;
      if client.successHandler == Function then calls == [SuccessCalled(p)] && completion == Returned
      else calls == [] && completion == Threw(NotAFunction("successHandler"))
    // The success handler only ever sees a parse of a delivered response.
    ensures forall i :: 0 <= i < |calls| && calls[i].SuccessCalled? ==>
      !TransportFailed(event) && ParseResponse(event.responseXml) == Success(calls[i].parsed)
    ensures |calls| <= 1
  {
    calls := [];
    if TransportFailed(event) {
      if client.errorHandler == Function {
        var error := NoResponse(NO_RESPONSE_MESSAGE);
        calls := calls + [ErrorCalled(error)];
      }
      return calls, Returned;
    }
    var parsedResponse := ParseResponse(event.responseXml);
    if parsedResponse.Failure? {
      if client.errorHandler != Function {
        return calls, Threw(NotAFunction("errorHandler"));
      }
      calls := calls + [ErrorCalled(parsedResponse.error)];
      return calls, Returned;
    }
    if client.successHandler != Function {
      return calls, Threw(NotAFunction("successHandler"));
    }
    calls := calls + [SuccessCalled(parsedResponse.value)];
    completion := Returned;
  }
}
