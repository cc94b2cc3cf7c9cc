/** The reply state machine of one request: what reaches the connection when the handler's callbacks run, whatever
the outside world does at each step. */
module Replies {
  import opened Words
  import opened Bytes
  import opened Options
  import opened Bodies

  datatype ReplyState = Start | ErrorSent | ReplySent

  /** One reply: the message in its body, and whether the connection was still there. */
  datatype Attempt = Attempt(message: seq<byte>, alive: bool)

  /** The processor's fields, and the status of every response handed to the connection. */
  datatype Processor = Processor(state: ReplyState, organization: bool, resource: Option<Offer>, sent: seq<nat>)

  /** How a member ends: normally, or by an exception. */
  datatype Step = Returns(p: Processor) | Throws(p: Processor)

  function SendResponse(p: Processor, status: nat, alive: bool): Processor {
    if !p.state.Start? || !alive then p else p.(sent := p.sent + [status])
  }

  /** Prints the body, which may throw, and sends it. Once a resource is known its offer is part of every body. */
  function ReplyWith(p: Processor, status: nat, mark: ReplyState, a: Attempt): Step {
    if Prints(if p.organization then p.resource else None, a.message) then
      Returns(SendResponse(p, status, a.alive).(state := mark))
    else Throws(p)
  }

  function BadRequest(p: Processor, a: Attempt): Step { ReplyWith(p, 400, ErrorSent, a) }
  function NotFound(p: Processor, a: Attempt): Step { ReplyWith(p, 404, ErrorSent, a) }
  function InternalError(p: Processor, a: Attempt): Step { ReplyWith(p, 500, ErrorSent, a) }
  function BadGateway(p: Processor, a: Attempt): Step { ReplyWith(p, 502, ErrorSent, a) }
  function PaymentRequired(p: Processor, a: Attempt): Step { ReplyWith(p, 402, ReplySent, a) }

  datatype Message = StartFailed | RequestFailed | PassThroughFailed | HeaderRequired | BodyTooLarge

  function Wording(m: Message): string {
    match m
    case StartFailed => "Could not process x402 request start."
    case RequestFailed => "Could not process x402 request."
    case PassThroughFailed => "Could not process pass-through request."
    case HeaderRequired => "X-PAYMENT header is required"
    case BodyTooLarge =>
      "Request body too large. Maximum allowed " + "is 1MByte. You can increase this limit in " + "machinepal config if needed."
  }

  lemma WordingIsAscii(m: Message)
    ensures Ascii(Wording(m))
  {
    hide Ascii, Wording;
    match m
    case StartFailed => StartFailedIsAscii();
    case RequestFailed => RequestFailedIsAscii();
    case PassThroughFailed => PassThroughFailedIsAscii();
    case HeaderRequired => HeaderRequiredIsAscii();
    case BodyTooLarge => TooLargeIsAscii();
  }

  lemma StartFailedIsAscii()
    ensures Ascii(Wording(StartFailed))
  {
  }

  lemma RequestFailedIsAscii()
    ensures Ascii(Wording(RequestFailed))
  {
  }

  lemma PassThroughFailedIsAscii()
    ensures Ascii(Wording(PassThroughFailed))
  {
  }

  lemma HeaderRequiredIsAscii()
    ensures Ascii(Wording(HeaderRequired))
  {
  }

  lemma TooLargeIsAscii()
    ensures Ascii(Wording(BodyTooLarge))
  {
    hide Ascii;
    var (a, b, c) := ("Request body too large. Maximum allowed ", "is 1MByte. You can increase this limit in ",
                      "machinepal config if needed.");
    assert Ascii(a) by { FirstPart(); }
    assert Ascii(b) by { SecondPart(); }
    assert Ascii(c) by { LastPart(); }
    AppendIsAscii(a, b);
    AppendIsAscii(a + b, c);
  }

  lemma FirstPart()
    ensures Ascii("Request body too large. Maximum allowed ")
  {
  }

  lemma SecondPart()
    ensures Ascii("is 1MByte. You can increase this limit in ")
  {
  }

  lemma LastPart()
    ensures Ascii("machinepal config if needed.")
  {
  }

  lemma AppendIsAscii(a: string, b: string)
    requires Ascii(a) && Ascii(b)
    ensures Ascii(a + b)
  {
  }

  /** A message that is constant in the code. */
  function Fixed(m: Message): (t: seq<byte>)
    ensures Utf8(t)
  {
    WordingIsAscii(m);
    AsciiIsUtf8(Wording(m));
    Text(Wording(m))
  }

  /** The handlers around a callback's body: any exception becomes a 500 with a constant message. */
  function Caught(s: Step, m: Message, alive: bool): Step {
    if s.Throws? then InternalError(s.p, Attempt(Fixed(m), alive)) else s
  }

  // Callbacks of the processor. The ones that may not throw end the process when they do.

  datatype Arrival = HostRefused | OrganizationUnknown | PathRefused | Unreadable(organization: bool) | Accepted

  datatype Opening = Opening(arrival: Arrival, reply: Attempt, lastAlive: bool)

  function OnRequestStart(p: Processor, o: Opening): Step {
    var body := match o.arrival
      case HostRefused => BadRequest(p, o.reply)
      case OrganizationUnknown => BadRequest(p.(organization := false), o.reply)
      case PathRefused => BadRequest(p.(organization := true), o.reply)
      case Unreadable(organization) => Throws(p.(organization := organization))
      case Accepted => Returns(p.(organization := true));
    Caught(body, StartFailed, o.lastAlive)
  }

  const MAX_BODY_SIZE: nat := 1024 * 1024

  function OnBodySizeIncrease(p: Processor, size: nat, alive: bool): Step {
    if p.state.ErrorSent? || size <= MAX_BODY_SIZE then Returns(p) else BadRequest(p, Attempt(Fixed(BodyTooLarge), alive))
  }

  datatype Backend = Breaks | CurlFails | HttpFails(status: nat) | Responds(status: nat)

  datatype PassThrough = NotOffered | MethodRefused | Asks(backend: Backend)

  datatype Priced =
    | MethodUnsupported
    | HeaderCheckThrows
    | HeaderMissing
    | SettlementThrows
    | SettlementFails
    | PaymentRefused
    | Settled(backend: Backend)

  datatype Lookup = LookupThrows | NoResource(passThrough: PassThrough) | Resource(offer: Offer, priced: Priced)

  /** `reply` is the reply the branch makes. The pass-through's own fallback and the outer one have constant messages;
      only the connection is left to chance. */
  datatype Closing = Closing(lookup: Lookup, reply: Attempt, innerAlive: bool, lastAlive: bool)

  function PassThroughError(p: Processor, b: Backend, a: Attempt): Step
    requires b.CurlFails? || b.HttpFails?
  {
    if b.CurlFails? then BadGateway(p, a) else ReplyWith(p, b.status, ErrorSent, a)
  }

  function DoPassThrough(p: Processor, t: PassThrough, a: Attempt, innerAlive: bool): Step
    requires !t.NotOffered?
  {
    var body :=
      if t.MethodRefused? then BadRequest(p, a)
      else match t.backend
        case Breaks => Throws(p)
        case Responds(status) => Returns(SendResponse(p, status, a.alive).(state := ReplySent))
        case failure => PassThroughError(p, failure, a);
    Caught(body, PassThroughFailed, innerAlive)
  }

  /** A 402 for a missing header that cannot be printed, or a header check that throws, is logged and dropped. */
  function ServePriced(p: Processor, priced: Priced, a: Attempt): Step {
    match priced
    case MethodUnsupported => BadRequest(p, a)
    case HeaderCheckThrows => Returns(p)
    case HeaderMissing => Returns(PaymentRequired(p, Attempt(Fixed(HeaderRequired), a.alive)).p)
    case SettlementThrows => Throws(p)
    case SettlementFails => InternalError(p, a)
    case PaymentRefused => PaymentRequired(p, a)
    case Settled(backend) =>
      match backend
      case Breaks => Throws(p)
      case Responds(status) =>
        if 200 <= status < 300 then Returns(SendResponse(p, status, a.alive).(state := ReplySent)) else Throws(p)
      case failure => PassThroughError(p, failure, a)
  }

  function OnRequestFullyReceived(p: Processor, c: Closing): Step {
    if p.state.ErrorSent? then Returns(p)
    else if !p.organization then Caught(Throws(p), RequestFailed, c.lastAlive)
    else
      var body := match c.lookup
        case LookupThrows => Throws(p)
        case NoResource(passThrough) =>
          var q := p.(resource := None);
          if passThrough.NotOffered? then NotFound(q, c.reply) else DoPassThrough(q, passThrough, c.reply, c.innerAlive)
        case Resource(offer, priced) => ServePriced(p.(resource := Some(offer)), priced, c.reply);
      Caught(body, RequestFailed, c.lastAlive)
  }

  // Callbacks of the handler.

  /** `sender` and `processor` say whether the fields are set. After a crash nothing more happens. */
  datatype Handler = Handler(p: Processor, sender: bool, processor: bool, internalErrorSent: bool, body: seq<byte>,
                             crashed: bool)

  const IDLE: Processor := Processor(Start, false, None, [])
  const NEW: Handler := Handler(IDLE, false, false, false, [], false)

  function SendInternalError(h: Handler): Handler {
    h.(internalErrorSent := true, p := if h.sender then h.p.(sent := h.p.sent + [500]) else h.p)
  }

  datatype Setup = NoSender | NoProcessor | Made

  function OnRequest(h: Handler, setup: Setup, o: Opening): Handler {
    if h.internalErrorSent then h
    else
      match setup
      case NoSender => SendInternalError(h)
      case NoProcessor => SendInternalError(h.(sender := true))
      case Made =>
        var step := OnRequestStart(IDLE, o);
        h.(sender := true, processor := true, p := step.p, crashed := step.Throws?)
  }

  /** `grown` is false when the bytes cannot be taken over. */
  datatype Chunk = Nothing | Part(data: seq<byte>, grown: bool, alive: bool)

  function OnBody(h: Handler, c: Chunk): Handler {
    if h.crashed || h.internalErrorSent then h
    else if c.Nothing? then h
    else if !h.processor then SendInternalError(h)
    else if !h.p.state.Start? then h
    else if !c.grown then SendInternalError(h)
    else
      var grown := h.(body := h.body + c.data);
      var step := OnBodySizeIncrease(grown.p, |grown.body|, c.alive);
      if step.Throws? then SendInternalError(grown.(p := step.p)) else grown.(p := step.p)
  }

  function OnEom(h: Handler, c: Closing): Handler {
    if h.crashed || h.internalErrorSent then h
    else if !h.processor then SendInternalError(h)
    else if !h.p.state.Start? then h
    else
      var step := OnRequestFullyReceived(h.p, c);
      h.(p := step.p, crashed := step.Throws?)
  }

  datatype Callback = Body(chunk: Chunk) | Eom(closing: Closing)

  function React(h: Handler, e: Callback): Handler {
    match e
    case Body(chunk) => OnBody(h, chunk)
    case Eom(closing) => OnEom(h, closing)
  }

  function Reactions(h: Handler, events: seq<Callback>): Handler
    decreases |events|
  {
    if events == [] then h else Reactions(React(h, events[0]), events[1..])
  }

  // At most one reply.

  /** Nothing is sent while a reply may still come. */
  predicate Quiet(h: Handler) {
    && |h.p.sent| <= 1
    && (h.processor ==> h.sender)
    && (h.p.sent != [] ==> h.crashed || h.internalErrorSent || (h.processor && !h.p.state.Start?))
  }

  lemma ProcessorSendsOnce(p: Processor, c: Closing)
    requires p.state.Start?
    ensures var s := OnRequestFullyReceived(p, c);
            && |p.sent| <= |s.p.sent| <= |p.sent| + 1
            && (s.p.state.Start? ==> s.p.sent == p.sent)
  {
    hide Prints, Utf8, Fixed;
  }

  lemma ReactKeepsQuiet(h: Handler, e: Callback)
    requires Quiet(h)
    ensures Quiet(React(h, e))
  {
    hide Prints, Utf8, Fixed, OnRequestFullyReceived;
    if e.Eom? && h.p.state.Start? {
      ProcessorSendsOnce(h.p, e.closing);
    }
  }

  lemma {:induction false} ReactionsKeepQuiet(h: Handler, events: seq<Callback>)
    requires Quiet(h)
    ensures Quiet(Reactions(h, events))
    decreases |events|
  {
    hide React, Quiet;
    if events != [] {
      ReactKeepsQuiet(h, events[0]);
      ReactionsKeepQuiet(React(h, events[0]), events[1..]);
    }
  }

  /** However the callbacks after `onRequest` follow each other and whatever fails, at most one response is sent,
      the handler's own 500 included. */
  lemma AtMostOneReply(setup: Setup, o: Opening, events: seq<Callback>)
    ensures |Reactions(OnRequest(NEW, setup, o), events).p.sent| <= 1
  {
    hide Prints, Utf8, Fixed;
    ReactionsKeepQuiet(OnRequest(NEW, setup, o), events);
  }

  // Exactly one reply.

  function BodiesOf(chunks: seq<Chunk>): seq<Callback> {
    if chunks == [] then [] else [Body(chunks[0])] + BodiesOf(chunks[1..])
  }

  /** The state when the request is complete, and when it has been dealt with. */
  function Received(setup: Setup, o: Opening, chunks: seq<Chunk>): Handler {
    Reactions(OnRequest(NEW, setup, o), BodiesOf(chunks))
  }

  function Served(setup: Setup, o: Opening, chunks: seq<Chunk>, c: Closing): Handler {
    OnEom(Received(setup, o, chunks), c)
  }

  predicate ChunkAlive(c: Chunk) { c.Nothing? || c.alive }

  /** The connection is there at every reply. */
  predicate Alive(o: Opening, chunks: seq<Chunk>, c: Closing) {
    && o.reply.alive && o.lastAlive
    && c.reply.alive && c.innerAlive && c.lastAlive
    && forall i | 0 <= i < |chunks| :: ChunkAlive(chunks[i])
  }

  /** Waiting for the rest of the request. */
  predicate Waiting(h: Handler) {
    !h.crashed && !h.internalErrorSent && h.p.state.Start?
  }

  /** With a live connection: one response unless the handler still waits, and the process goes on. */
  predicate Answered(h: Handler) {
    && h.sender && (h.processor || h.internalErrorSent)
    && !h.crashed
    && (Waiting(h) ==> h.p.organization && h.p.resource.None? && h.p.sent == [])
    && (!Waiting(h) ==> |h.p.sent| == 1)
  }

  lemma BodyAnswers(h: Handler, c: Chunk)
    requires Answered(h) && ChunkAlive(c)
    ensures Answered(OnBody(h, c))
  {
    hide Prints, Utf8, Fixed;
    PrintsIff(None, Fixed(BodyTooLarge));
  }

  lemma {:induction false} BodiesAnswer(h: Handler, chunks: seq<Chunk>)
    requires Answered(h)
    requires forall i | 0 <= i < |chunks| :: ChunkAlive(chunks[i])
    ensures Answered(Reactions(h, BodiesOf(chunks)))
    decreases |chunks|
  {
    hide Answered, OnBody, ChunkAlive;
    if chunks != [] {
      BodyAnswers(h, chunks[0]);
      BodiesAnswer(OnBody(h, chunks[0]), chunks[1..]);
      assert BodiesOf(chunks)[1..] == BodiesOf(chunks[1..]);
    }
  }

  /** The request is accepted and its whole body arrives within the limit. */
  predicate Complete(setup: Setup, o: Opening, chunks: seq<Chunk>) {
    setup.Made? && o.arrival.Accepted? && AllGrown(chunks) && |Content(chunks)| <= MAX_BODY_SIZE
  }

  function DataOf(c: Chunk): seq<byte> {
    if c.Part? then c.data else []
  }

  /** The bytes of the body, in order. */
  function Content(chunks: seq<Chunk>): seq<byte> {
    if chunks == [] then [] else DataOf(chunks[0]) + Content(chunks[1..])
  }

  predicate AllGrown(chunks: seq<Chunk>) {
    chunks == [] || ((chunks[0].Part? ==> chunks[0].grown) && AllGrown(chunks[1..]))
  }

  /** What a chunk does to a handler whose body is within the limit. */
  lemma BodyStep(h: Handler, c: Chunk)
    requires h.processor && |h.body| <= MAX_BODY_SIZE
    ensures var (h', data) := (OnBody(h, c), DataOf(c));
            && h'.processor
            && (Waiting(h') <==> Waiting(h) && (c.Part? ==> c.grown) && |h.body + data| <= MAX_BODY_SIZE)
            && (Waiting(h') ==> h'.body == h.body + data)
            && (!Waiting(h') ==> h'.internalErrorSent || h'.crashed || !h'.p.state.Start?)
  {
    hide Prints, Utf8, Fixed;
  }

  lemma ReactionsUnroll(h: Handler, chunks: seq<Chunk>)
    ensures Reactions(h, BodiesOf(chunks))
            == if chunks == [] then h else Reactions(OnBody(h, chunks[0]), BodiesOf(chunks[1..]))
  {
    hide OnBody;
    if chunks != [] {
      assert BodiesOf(chunks)[1..] == BodiesOf(chunks[1..]);
    }
  }

  lemma ContentUnrolls(chunks: seq<Chunk>)
    requires chunks != []
    ensures Content(chunks) == DataOf(chunks[0]) + Content(chunks[1..])
    ensures AllGrown(chunks) <==> (chunks[0].Part? ==> chunks[0].grown) && AllGrown(chunks[1..])
  {
  }

  lemma {:induction false} WaitingAfterBodies(h: Handler, chunks: seq<Chunk>)
    requires h.processor && |h.body| <= MAX_BODY_SIZE
    ensures var h' := Reactions(h, BodiesOf(chunks));
            && (Waiting(h') <==> Waiting(h) && AllGrown(chunks) && |h.body + Content(chunks)| <= MAX_BODY_SIZE)
            && (Waiting(h') ==> h'.body == h.body + Content(chunks))
    decreases |chunks|
  {
    hide OnBody, Waiting, Prints, Utf8, Fixed, Reactions, BodiesOf, DataOf;
    ReactionsUnroll(h, chunks);
    if chunks == [] {
      assert Content(chunks) == [] && h.body + [] == h.body;
    } else {
      hide Content, AllGrown;
      var h' := OnBody(h, chunks[0]);
      BodyStep(h, chunks[0]);
      ContentUnrolls(chunks);
      assert h.body + Content(chunks) == (h.body + DataOf(chunks[0])) + Content(chunks[1..]);
      if Waiting(h') {
        WaitingAfterBodies(h', chunks[1..]);
      } else {
        StaysSettled(h', BodiesOf(chunks[1..]));
      }
    }
  }

  /** Once a reply was attempted, or the process has ended, nothing changes any more. */
  lemma {:induction false} StaysSettled(h: Handler, events: seq<Callback>)
    requires h.internalErrorSent || h.crashed || (h.processor && !h.p.state.Start?)
    ensures Reactions(h, events) == h
    decreases |events|
  {
    hide Prints, Utf8, Fixed;
    if events != [] {
      StaysSettled(h, events[1..]);
    }
  }

  lemma WaitingIffComplete(setup: Setup, o: Opening, chunks: seq<Chunk>)
    ensures Waiting(Received(setup, o, chunks)) <==> Complete(setup, o, chunks)
    ensures Complete(setup, o, chunks) ==> Received(setup, o, chunks).body == Content(chunks)
  {
    hide Prints, Utf8, Fixed, OnBody;
    var h := OnRequest(NEW, setup, o);
    if setup.Made? {
      WaitingAfterBodies(h, chunks);
    } else {
      StaysSettled(h, BodiesOf(chunks));
    }
  }

  // What becomes of a complete request.

  /** The branches for a found resource that print its offer and whose fallback prints it again. */
  predicate NeedsFallback(priced: Priced) {
    match priced
    case HeaderCheckThrows | HeaderMissing => false
    case Settled(Responds(status)) => !(200 <= status < 300)
    case _ => true
  }

  /** The offer of the found resource cannot be printed, and every way to answer prints it. */
  predicate EndsProcess(l: Lookup) {
    l.Resource? && !Printable(l.offer) && NeedsFallback(l.priced)
  }

  /** The two failures that are dropped without any reply. */
  predicate Drops(l: Lookup) {
    l.Resource? && (l.priced.HeaderCheckThrows? || (l.priced.HeaderMissing? && !Printable(l.offer)))
  }

  /** With no resource set, a constant message always prints: the start of a request never ends the process. */
  lemma StartNeverEnds(o: Opening)
    ensures OnRequestStart(IDLE, o).Returns?
    ensures OnRequestStart(IDLE, o).p.resource.None?
    ensures o.reply.alive && o.lastAlive ==>
              |OnRequestStart(IDLE, o).p.sent| == if OnRequestStart(IDLE, o).p.state.Start? then 0 else 1
    ensures OnRequestStart(IDLE, o).p.state.Start? <==> o.arrival.Accepted?
    ensures o.arrival.Accepted? ==> OnRequestStart(IDLE, o).p.organization
  {
    hide Prints, Utf8, Fixed;
    PrintsIff(None, Fixed(StartFailed));
  }

  lemma RequestAnswers(setup: Setup, o: Opening)
    requires !setup.NoSender? && o.reply.alive && o.lastAlive
    ensures Answered(OnRequest(NEW, setup, o))
  {
    hide OnRequestStart;
    StartNeverEnds(o);
  }

  lemma {:induction false} BodiesKeepResource(h: Handler, chunks: seq<Chunk>)
    requires !h.crashed && h.p.resource.None?
    ensures var h' := Reactions(h, BodiesOf(chunks)); !h'.crashed && h'.p.resource.None?
    decreases |chunks|
  {
    hide Prints, Utf8, Fixed;
    if chunks != [] {
      BodiesKeepResource(OnBody(h, chunks[0]), chunks[1..]);
      assert BodiesOf(chunks)[1..] == BodiesOf(chunks[1..]);
    }
  }

  lemma ReceivedFacts(setup: Setup, o: Opening, chunks: seq<Chunk>)
    ensures var h := Received(setup, o, chunks);
            && !h.crashed && h.p.resource.None?
            && (Waiting(h) ==> h.processor && h.p.organization)
  {
    hide OnRequestStart, OnBody;
    StartNeverEnds(o);
    BodiesKeepResource(OnRequest(NEW, setup, o), chunks);
    BodiesKeepOrganization(OnRequest(NEW, setup, o), chunks);
  }

  lemma {:induction false} BodiesKeepOrganization(h: Handler, chunks: seq<Chunk>)
    requires Waiting(h) ==> h.processor && h.p.organization
    ensures var h' := Reactions(h, BodiesOf(chunks)); Waiting(h') ==> h'.processor && h'.p.organization
    decreases |chunks|
  {
    hide Prints, Utf8, Fixed;
    if chunks != [] {
      BodiesKeepOrganization(OnBody(h, chunks[0]), chunks[1..]);
      assert BodiesOf(chunks)[1..] == BodiesOf(chunks[1..]);
    }
  }

  lemma EomAnswers(h: Handler, c: Closing)
    requires !h.crashed && h.p.resource.None? && (Waiting(h) ==> h.processor && h.p.organization)
    ensures OnEom(h, c).crashed <==> Waiting(h) && EndsProcess(c.lookup)
    ensures Answered(h) && c.reply.alive && c.innerAlive && c.lastAlive ==>
              (|OnEom(h, c).p.sent| == 1 <==> !(Waiting(h) && (EndsProcess(c.lookup) || Drops(c.lookup))))
  {
    hide Prints, Utf8, Fixed, Printable;
    PrintsIff(None, Fixed(RequestFailed));
    PrintsIff(None, Fixed(PassThroughFailed));
    if c.lookup.Resource? {
      PrintsIff(Some(c.lookup.offer), Fixed(RequestFailed));
      PrintsIff(Some(c.lookup.offer), Fixed(HeaderRequired));
      PrintsIff(Some(c.lookup.offer), c.reply.message);
    }
  }

  /** The process ends exactly when a complete request finds a resource whose location or token is not UTF-8 and is
      not answered by a success of the backend or dropped for want of a header: the reply prints the offer and throws,
      and so does the fallback, inside a callback that may not throw. */
  lemma ProcessEndsIff(setup: Setup, o: Opening, chunks: seq<Chunk>, c: Closing)
    ensures Served(setup, o, chunks, c).crashed <==> Complete(setup, o, chunks) && EndsProcess(c.lookup)
  {
    hide OnEom, EndsProcess;
    ReceivedFacts(setup, o, chunks);
    WaitingIffComplete(setup, o, chunks);
    EomAnswers(Received(setup, o, chunks), c);
  }

  /** In particular, a refused payment for such a resource ends the process. */
  lemma RefusedPaymentEndsProcessIff(o: Opening, chunks: seq<Chunk>, c: Closing, f: Offer)
    requires Complete(Made, o, chunks) && c.lookup == Resource(f, PaymentRefused)
    ensures Served(Made, o, chunks, c).crashed <==> !Utf8(f.location) || !Utf8(f.token)
  {
    ProcessEndsIff(Made, o, chunks, c);
  }

  /** On a live connection a request gets exactly one response by the end of its last callback, unless it is complete
      and its resource's offer cannot be printed where it must be, or its header check throws. */
  lemma ExactlyOneReplyIff(setup: Setup, o: Opening, chunks: seq<Chunk>, c: Closing)
    requires !setup.NoSender? && Alive(o, chunks, c)
    ensures |Served(setup, o, chunks, c).p.sent| == 1
       <==> !(Complete(setup, o, chunks) && (EndsProcess(c.lookup) || Drops(c.lookup)))
  {
    hide OnBody, OnEom, EndsProcess, Drops;
    RequestAnswers(setup, o);
    BodiesAnswer(OnRequest(NEW, setup, o), chunks);
    ReceivedFacts(setup, o, chunks);
    WaitingIffComplete(setup, o, chunks);
    EomAnswers(Received(setup, o, chunks), c);
  }

  /** So on a live connection, when every configured location and token is UTF-8, every request is answered exactly
      once, whatever its own text is. */
  lemma ExactlyOneReply(setup: Setup, o: Opening, chunks: seq<Chunk>, c: Closing)
    requires !setup.NoSender? && Alive(o, chunks, c)
    requires c.lookup.Resource? ==> Utf8(c.lookup.offer.location) && Utf8(c.lookup.offer.token) && !c.lookup.priced.HeaderCheckThrows?
    ensures |Served(setup, o, chunks, c).p.sent| == 1 && !Served(setup, o, chunks, c).crashed
  {
    ExactlyOneReplyIff(setup, o, chunks, c);
    ProcessEndsIff(setup, o, chunks, c);
  }

  // A successful status for a priced resource.

  predicate OnlyErrors(sent: seq<nat>) {
    forall i | 0 <= i < |sent| :: 400 <= sent[i]
  }

  lemma {:induction false} BodiesSendOnlyErrors(h: Handler, chunks: seq<Chunk>)
    requires OnlyErrors(h.p.sent)
    ensures OnlyErrors(Reactions(h, BodiesOf(chunks)).p.sent)
    decreases |chunks|
  {
    hide Prints, Utf8, Fixed;
    if chunks != [] {
      assert BodiesOf(chunks)[1..] == BodiesOf(chunks[1..]);
      BodiesSendOnlyErrors(OnBody(h, chunks[0]), chunks[1..]);
    }
  }

  /** A priced resource is answered with a success status only to a complete request whose payment settled. */
  lemma SuccessNeedsSettlement(setup: Setup, o: Opening, chunks: seq<Chunk>, c: Closing, i: nat)
    requires c.lookup.Resource?
    requires i < |Served(setup, o, chunks, c).p.sent| && 200 <= Served(setup, o, chunks, c).p.sent[i] < 300
    ensures Complete(setup, o, chunks) && c.lookup.priced.Settled?
  {
    hide Prints, Utf8, Fixed, OnBody, Complete, Received, OnRequestStart;
    ReceivedOnlyErrors(setup, o, chunks);
    WaitingIffComplete(setup, o, chunks);
    StillQuiet(setup, o, chunks);
  }

  lemma ReceivedOnlyErrors(setup: Setup, o: Opening, chunks: seq<Chunk>)
    ensures OnlyErrors(Received(setup, o, chunks).p.sent)
  {
    hide Prints, Utf8, Fixed;
    BodiesSendOnlyErrors(OnRequest(NEW, setup, o), chunks);
  }

  lemma StillQuiet(setup: Setup, o: Opening, chunks: seq<Chunk>)
    ensures Quiet(Received(setup, o, chunks)) && (Received(setup, o, chunks).processor || Received(setup, o, chunks).internalErrorSent)
  {
    hide Prints, Utf8, Fixed;
    ReactionsKeepQuiet(OnRequest(NEW, setup, o), BodiesOf(chunks));
    BodiesKeepProcessor(OnRequest(NEW, setup, o), chunks);
  }

  lemma {:induction false} BodiesKeepProcessor(h: Handler, chunks: seq<Chunk>)
    requires h.processor || h.internalErrorSent
    ensures var h' := Reactions(h, BodiesOf(chunks)); h'.processor || h'.internalErrorSent
    decreases |chunks|
  {
    hide Prints, Utf8, Fixed;
    if chunks != [] {
      assert BodiesOf(chunks)[1..] == BodiesOf(chunks[1..]);
      BodiesKeepProcessor(OnBody(h, chunks[0]), chunks[1..]);
    }
  }

  /** Before there is a connection object nothing can be sent, and nothing is afterwards. */
  lemma NoSenderNoReply(o: Opening, events: seq<Callback>)
    ensures Reactions(OnRequest(NEW, NoSender, o), events).p.sent == []
  {
    StaysSettled(OnRequest(NEW, NoSender, o), events);
  }

  // A request without a payment header.

  /** On a live connection a complete request without a payment header is answered exactly when the resource's
      location and token are UTF-8. */
  lemma MissingHeaderAnsweredIff(o: Opening, chunks: seq<Chunk>, c: Closing, f: Offer)
    requires Complete(Made, o, chunks) && Alive(o, chunks, c)
    requires c.lookup == Resource(f, HeaderMissing)
    ensures |Served(Made, o, chunks, c).p.sent| == 1 <==> Utf8(f.location) && Utf8(f.token)
    ensures !Served(Made, o, chunks, c).crashed
  {
    ExactlyOneReplyIff(Made, o, chunks, c);
    ProcessEndsIff(Made, o, chunks, c);
  }

  /** A request without a header for such a resource: no response, no error, and the handler still waits. */
  lemma DroppedReply(o: Opening, c: Closing, f: Offer)
    requires o.arrival.Accepted? && c.lookup == Resource(f, HeaderMissing) && !Printable(f)
    ensures Served(Made, o, [], c).p.sent == [] && Waiting(Served(Made, o, [], c))
  {
    hide Prints, Utf8, Fixed, Printable;
    PrintsIff(Some(f), Fixed(HeaderRequired));
  }

  /** Two such resources: a local file whose name is the byte 0xFF, and a URL whose token is that byte. */
  lemma DropsHappen(o: Opening, reply: Attempt, location: seq<byte>, price: u256, network: Network, wallet: Address)
    requires o.arrival.Accepted?
    ensures Served(Made, o, [], Closing(Resource(BadFile(price, network, wallet), HeaderMissing), reply, true, true)).p.sent == []
    ensures Served(Made, o, [], Closing(Resource(BadToken(location, price, network, wallet), HeaderMissing), reply, true, true)).p.sent == []
  {
    hide Served, Utf8;
    BadOffersDoNotPrint(location, price, network, wallet);
    DroppedReply(o, Closing(Resource(BadFile(price, network, wallet), HeaderMissing), reply, true, true), BadFile(price, network, wallet));
    DroppedReply(o, Closing(Resource(BadToken(location, price, network, wallet), HeaderMissing), reply, true, true),
                 BadToken(location, price, network, wallet));
  }
}
