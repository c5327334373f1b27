/**
 * The contact-form endpoint: one request in, one response out, no state
 * kept between calls. The try block (logging the submission) is abstracted
 * to a Dispatch outcome supplied by the caller.
 */
module ContactApi {
  import opened Wrappers
  import opened Email

  /** The request: its method and the three body fields, each possibly absent. */
  datatype Request = Request(httpMethod: string, name: Option<string>, email: Option<string>, message: Option<string>)

  /** What the try block did: ran to its end, or raised an error carrying a message. */
  datatype Dispatch = Delivered | Raised(errorMessage: string)

  /** Status code and JSON body `{ message, error? }`. */
  datatype Response = Response(status: int, message: string, error: Option<string>)

  const MethodNotAllowed := "Method not allowed"
  const MissingFields := "Missing required fields"
  const InvalidEmail := "Invalid email format"
  const Received := "Message received successfully. We will get back to you soon!"
  const ProcessingError := "An error occurred while processing your request"

  /** Every `message` the endpoint can answer with. */
  const Messages: set<string> := {MethodNotAllowed, MissingFields, InvalidEmail, Received, ProcessingError}

  /** A field a JavaScript truthiness test accepts: neither `undefined` nor `''`. */
  predicate Present(f: Option<string>): (b: bool)
    ensures b <==> f != None && f != Some("")
  {
    f.Some? && f.value != ""
  }

  predicate AllPresent(req: Request) {
    Present(req.name) && Present(req.email) && Present(req.message)
  }

  /** A POST whose three fields are present and whose address is well shaped. */
  predicate Acceptable(req: Request) {
    req.httpMethod == "POST" && AllPresent(req) && EmailShape(req.email.value)
  }

  function Handle(req: Request, dispatch: Dispatch): (r: Response)
    ensures r.status in {200, 400, 405, 500}
    ensures r.message in Messages
    ensures r.error.Some? <==> r.status == 500
  {
    if req.httpMethod != "POST" then
      Response(405, MethodNotAllowed, None)
    else if !Present(req.name) || !Present(req.email) || !Present(req.message) then
      Response(400, MissingFields, None)
    else if !IsValidEmail(req.email.value) then
      Response(400, InvalidEmail, None)
    else
      match dispatch
      case Delivered => Response(200, Received, None)
      case Raised(e) => Response(500, ProcessingError, Some(e))
  }

  /** Which response arises exactly when, in terms of the structural e-mail rule. */
  lemma HandleCases(req: Request, dispatch: Dispatch)
    ensures Handle(req, dispatch).status == 405 <==> req.httpMethod != "POST"
    ensures Handle(req, dispatch).message == MissingFields <==> req.httpMethod == "POST" && !AllPresent(req)
    ensures Handle(req, dispatch).message == InvalidEmail <==>
      req.httpMethod == "POST" && AllPresent(req) && !EmailShape(req.email.value)
    ensures Handle(req, dispatch).status == 200 <==> Acceptable(req) && dispatch == Delivered
    ensures Handle(req, dispatch).status == 500 <==> Acceptable(req) && dispatch.Raised?
  {
  }

  /** A non-POST request gets 405 whatever its body holds and whatever the dispatch would do. */
  lemma MethodCheckFirst(req: Request, dispatch: Dispatch, name: Option<string>, email: Option<string>,
                         message: Option<string>, dispatch': Dispatch)
    requires req.httpMethod != "POST"
    ensures Handle(req, dispatch) == Handle(Request(req.httpMethod, name, email, message), dispatch')
    ensures Handle(req, dispatch) == Response(405, MethodNotAllowed, None)
  {
  }

  /**
   * A missing field gets 400 "Missing required fields" before the address is
   * looked at: with the name or the message missing, whatever the address.
   */
  lemma PresenceCheckBeforeEmail(req: Request, dispatch: Dispatch, email: Option<string>)
    requires req.httpMethod == "POST" && (!Present(req.name) || !Present(req.message))
    ensures Handle(req.(email := email), dispatch) == Response(400, MissingFields, None)
  {
  }

  /** With all fields present, the address alone decides between 400 and going on. */
  lemma EmailRule(req: Request, dispatch: Dispatch)
    requires req.httpMethod == "POST" && AllPresent(req)
    ensures Handle(req, dispatch) == Response(400, InvalidEmail, None) <==> !EmailShape(req.email.value)
  {
  }

  /** A well-formed request whose dispatch succeeds is acknowledged with 200. */
  lemma AcceptedIsAcknowledged(req: Request)
    requires Acceptable(req)
    ensures Handle(req, Delivered) == Response(200, Received, None)
  {
  }

  /** 500 arises only from a thrown dispatch, and carries that error's message. */
  lemma ServerErrorOnlyWhenThrown(req: Request, dispatch: Dispatch)
    requires Handle(req, dispatch).status == 500
    ensures dispatch.Raised? && Acceptable(req)
    ensures Handle(req, dispatch) == Response(500, ProcessingError, Some(dispatch.errorMessage))
  {
  }

  /**
   * The content of the fields never reaches the response: two requests that
   * agree on the method, on which fields are present and on the shape of the
   * address get the same response.
   */
  lemma NoEcho(a: Request, b: Request, dispatch: Dispatch)
    requires (a.httpMethod == "POST") == (b.httpMethod == "POST")
    requires Present(a.name) == Present(b.name) && Present(a.email) == Present(b.email)
    requires Present(a.message) == Present(b.message)
    requires AllPresent(a) && AllPresent(b) ==> EmailShape(a.email.value) == EmailShape(b.email.value)
    ensures Handle(a, dispatch) == Handle(b, dispatch)
  {
  }

  /** A complete, well-formed submission is acknowledged with 200. */
  lemma ExampleSubmission()
    ensures Handle(Request("POST", Some("Jane Doe"), Some("jane@example.com"), Some("Hello")), Delivered).status == 200
  {
    var req := Request("POST", Some("Jane Doe"), Some("jane@example.com"), Some("Hello"));
    ShapeExample(req.email.value);
    AcceptedIsAcknowledged(req);
  }

  lemma ShapeExample(e: string)
    requires e == "jane@example.com"
    ensures EmailShape(e)
  {
    assert e[..4] == "jane" && e[5..] == "example.com";
    assert "example.com"[7] == '.';
    assert AllInClass(e[..4]);
    assert AllInClass(e[5..]);
    SplitToShape(e, 4);
  }
}
