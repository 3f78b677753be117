/**
 * The POST handler of the contact endpoint: resolve the client identity,
 * charge the rate limiter, validate the parsed body, check that the mail
 * credentials are configured, and hand exactly one message to the relay.
 */
module ContactRoute {
  import opened Wrappers
  import opened RateLimit
  import opened Validation
  import opened Mail

  // ---------------------------------------------------------------------
  // Client identity
  // ---------------------------------------------------------------------

  /** The bucket shared by every client that sends neither origin header. */
  const UnknownIdentity: string := "unknown"

  /** The first truthy origin header, else the shared fallback bucket. */
  function ClientIdentity(forwardedFor: Option<string>, realIp: Option<string>): (id: string)
    ensures id != []
    ensures Present(forwardedFor) ==> id == forwardedFor.value
    ensures !Present(forwardedFor) && Present(realIp) ==> id == realIp.value
    ensures !Present(forwardedFor) && !Present(realIp) ==> id == UnknownIdentity
  {
    if Present(forwardedFor) then forwardedFor.value
    else if Present(realIp) then realIp.value
    else UnknownIdentity
  }

  /** An empty header counts as absent: it never becomes the identity. */
  lemma EmptyHeaderFallsThrough(realIp: Option<string>)
    ensures ClientIdentity(Some(""), realIp) == ClientIdentity(None, realIp)
    ensures ClientIdentity(None, Some("")) == UnknownIdentity
  {
  }

  // ---------------------------------------------------------------------
  // Requests, configuration, responses
  // ---------------------------------------------------------------------

  /** The parts of a request the handler reads; `body` is None when it does not parse. */
  datatype Request = Request(forwardedFor: Option<string>, realIp: Option<string>, body: Option<RawSubmission>)

  /** The three credentials read from the environment. */
  datatype Env = Env(gmailUser: Option<string>, gmailAppPassword: Option<string>, gmailTo: Option<string>)

  predicate Configured(env: Env)
  {
    Present(env.gmailUser) && Present(env.gmailAppPassword) && Present(env.gmailTo)
  }

  datatype Body = Confirmation(message: string) | Error(error: string)

  datatype Response = Response(status: nat, body: Body)

  const Sent: Response :=
    Response(200, Confirmation("Inquiry sent successfully! We'll get back to you soon. In Sha Allah."))
  const TooManyRequests: Response :=
    Response(429, Error("Too many requests. Please try again later."))
  const NotConfigured: Response :=
    Response(500, Error("Email service not configured. Please contact support."))
  const SendFailed: Response :=
    Response(500, Error("Failed to send message. Please try again or contact us directly at fahicartmv@gmail.com"))

  function BadRequest(e: ValidationError): Response
  {
    Response(400, Error(ErrorMessage(e)))
  }

  // ---------------------------------------------------------------------
  // The handler
  // ---------------------------------------------------------------------

  /** The response, the messages handed to the relay, and the limiter's map afterwards. */
  datatype Handled = Handled(response: Response, dispatched: seq<Mail>, entries: map<string, Entry>)

  /** Whether the request gets as far as the relay. */
  predicate ReachesDispatch(entries: map<string, Entry>, req: Request, env: Env, now: int)
  {
    && Step(entries, ClientIdentity(req.forwardedFor, req.realIp), now).allowed
    && req.body.Some?
    && Validate(req.body.value).Success?
    && Configured(env)
  }

  /** The message a request that reaches the relay hands to it. */
  function MailFor(req: Request, env: Env): Mail
    requires req.body.Some? && Validate(req.body.value).Success? && Configured(env)
  {
    ComposeMail(env.gmailUser.value, env.gmailTo.value, Validate(req.body.value).value)
  }

  /**
   * One request, handled atomically: the specification of Post. The relay is
   * `delivers`, which says whether it accepted the message it was given.
   */
  function Handle(entries: map<string, Entry>, req: Request, env: Env, now: int, delivers: Mail -> bool): Handled
  {
    var d := Step(entries, ClientIdentity(req.forwardedFor, req.realIp), now);
    if !d.allowed then Handled(TooManyRequests, [], d.entries)
    else if req.body.None? then Handled(SendFailed, [], d.entries)
    else match Validate(req.body.value)
      case Failure(e) => Handled(BadRequest(e), [], d.entries)
      case Success(s) =>
        if !Configured(env) then Handled(NotConfigured, [], d.entries)
        else
          var mail := ComposeMail(env.gmailUser.value, env.gmailTo.value, s);
          Handled(if delivers(mail) then Sent else SendFailed, [mail], d.entries)
  }

  /** A rejection by the limiter is a 429, it changes nothing and sends nothing. */
  lemma RateLimitedIff(entries: map<string, Entry>, req: Request, env: Env, now: int, delivers: Mail -> bool)
    ensures var h := Handle(entries, req, env, now, delivers);
      (h.response.status == 429 <==> !Step(entries, ClientIdentity(req.forwardedFor, req.realIp), now).allowed)
      && (h.response.status == 429 ==> h.entries == entries && h.dispatched == [] && h.response == TooManyRequests)
  {
  }

  /**
   * The limiter is charged before the body is parsed or validated: every
   * response other than 429 leaves the identity's entry either freshly
   * opened or one use higher, and no other entry changed.
   */
  lemma ChargedBeforeValidation(entries: map<string, Entry>, req: Request, env: Env, now: int, delivers: Mail -> bool)
    requires Handle(entries, req, env, now, delivers).response.status != 429
    ensures var h := Handle(entries, req, env, now, delivers);
      var id := ClientIdentity(req.forwardedFor, req.realIp);
      && id in h.entries
      && (OpensWindow(entries, id, now) ==> h.entries[id] == Entry(1, now + WindowMs))
      && (!OpensWindow(entries, id, now) ==>
            h.entries[id] == Entry(entries[id].count + 1, entries[id].resetTime))
      && (forall other :: other != id ==> (other in h.entries <==> other in entries))
      && (forall other :: other != id && other in entries ==> h.entries[other] == entries[other])
  {
  }

  /**
   * A 200 means validation passed, the credentials were all there and exactly
   * one message — the one built from the submission — was handed to the relay,
   * which accepted it.
   */
  lemma SuccessMeansOneDispatch(entries: map<string, Entry>, req: Request, env: Env, now: int, delivers: Mail -> bool)
    requires Handle(entries, req, env, now, delivers).response.status == 200
    ensures var h := Handle(entries, req, env, now, delivers);
      && ReachesDispatch(entries, req, env, now)
      && h.response == Sent
      && h.dispatched == [MailFor(req, env)]
      && delivers(MailFor(req, env))
  {
  }

  /** Conversely, a valid submission, full configuration and an accepting relay give a 200. */
  lemma SuccessWhenEverythingHolds(entries: map<string, Entry>, req: Request, env: Env, now: int, delivers: Mail -> bool)
    requires ReachesDispatch(entries, req, env, now) && delivers(MailFor(req, env))
    ensures Handle(entries, req, env, now, delivers).response == Sent
  {
  }

  /** At most one message is ever handed over, and one is exactly when the request reaches the relay. */
  lemma AtMostOneDispatch(entries: map<string, Entry>, req: Request, env: Env, now: int, delivers: Mail -> bool)
    ensures var h := Handle(entries, req, env, now, delivers);
      && |h.dispatched| <= 1
      && (|h.dispatched| == 1 <==> ReachesDispatch(entries, req, env, now))
  {
  }

  /**
   * A relay that refuses the message gives the generic 500, with the limiter
   * still charged for the attempt.
   */
  lemma DispatchFailureIsGeneric500(entries: map<string, Entry>, req: Request, env: Env, now: int, delivers: Mail -> bool)
    requires ReachesDispatch(entries, req, env, now) && !delivers(MailFor(req, env))
    ensures var h := Handle(entries, req, env, now, delivers);
      && h.response == SendFailed
      && h.dispatched == [MailFor(req, env)]
      && h.entries == Step(entries, ClientIdentity(req.forwardedFor, req.realIp), now).entries
  {
  }

  /** A body that fails validation gives a 400 naming the first failing rule; nothing is sent. */
  lemma InvalidBodyIs400(entries: map<string, Entry>, req: Request, env: Env, now: int, delivers: Mail -> bool)
    requires Step(entries, ClientIdentity(req.forwardedFor, req.realIp), now).allowed
    requires req.body.Some? && Validate(req.body.value).Failure?
    ensures var h := Handle(entries, req, env, now, delivers);
      && h.response == BadRequest(Validate(req.body.value).error)
      && h.response.status == 400
      && h.dispatched == []
  {
  }

  /**
   * A missing credential gives the same "not configured" response whichever
   * credential it is, and nothing is sent.
   */
  lemma MissingCredentialIsNotConfigured(entries: map<string, Entry>, req: Request, env: Env, now: int, delivers: Mail -> bool)
    requires Step(entries, ClientIdentity(req.forwardedFor, req.realIp), now).allowed
    requires req.body.Some? && Validate(req.body.value).Success?
    requires !Configured(env)
    ensures var h := Handle(entries, req, env, now, delivers);
      h.response == NotConfigured && h.dispatched == []
  {
  }

  /** The message handed over carries the subject with the name, the `<br>` message in HTML and the verbatim message in text. */
  lemma DispatchedMailContents(req: Request, env: Env)
    requires req.body.Some? && Validate(req.body.value).Success? && Configured(env)
    ensures var s := Validate(req.body.value).value;
      var m := MailFor(req, env);
      && m.from == env.gmailUser.value && m.to == env.gmailTo.value
      && m.subject[|SubjectPrefix|..] == req.body.value.name.value
      && m.text[|TextHead(s)|..|TextHead(s)| + |s.message|] == req.body.value.message.value
      && m.html[|m.html| - |HtmlMessage(s.message)|..] == HtmlMessage(req.body.value.message.value)
  {
  }

  /** The handler's steps in the order the endpoint runs them, over the shared limiter. */
  method Post(limiter: RateLimiter, req: Request, env: Env, now: int, delivers: Mail -> bool)
    returns (response: Response, dispatched: seq<Mail>)
    requires limiter.Valid()
    modifies limiter
    ensures limiter.Valid()
    ensures Handled(response, dispatched, limiter.entries) == Handle(old(limiter.entries), req, env, now, delivers)
  {
    var id := ClientIdentity(req.forwardedFor, req.realIp);
    var allowed := limiter.Check(id, now);
    if !allowed {
      return TooManyRequests, [];
    }
    if req.body.None? {
      // the body did not parse: caught and reported as the generic failure
      return SendFailed, [];
    }
    var checked := Validate(req.body.value);
    if checked.Failure? {
      return BadRequest(checked.error), [];
    }
    if !Configured(env) {
      return NotConfigured, [];
    }
    var mail := ComposeMail(env.gmailUser.value, env.gmailTo.value, checked.value);
    dispatched := [mail];
    if delivers(mail) {
      response := Sent;
    } else {
      // the relay's error is caught and reported as the generic failure
      response := SendFailed;
    }
  }
}
