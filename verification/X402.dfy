/** The processor and the handler of one request as objects whose callbacks set their fields one by one. Every
callback is proved to do what the function of the same name in `Replies` says. */
module X402 {
  import opened Bytes
  import opened Options
  import opened Bodies
  import R = Replies

  class ResponseSender {
    var sent: seq<nat>

    constructor ()
      ensures sent == []
    {
      sent := [];
    }

    method SendResponse(status: nat)
      modifies this
      ensures sent == old(sent) + [status]
    {
      sent := sent + [status];
    }
  }

  class X402Processor {
    const responseSender: ResponseSender
    var state: R.ReplyState
    var organization: bool
    var resource: Option<Offer>

    ghost function State(): R.Processor
      reads this, responseSender
    {
      R.Processor(state, organization, resource, responseSender.sent)
    }

    constructor (responseSender: ResponseSender)
      ensures this.responseSender == responseSender
      ensures State() == R.Processor(R.Start, false, None, responseSender.sent)
    {
      this.responseSender := responseSender;
      state, organization, resource := R.Start, false, None;
    }

    function IsReplySent(): (sent: bool)
      reads this
      ensures sent <==> state != R.Start
    {
      state == R.ErrorSent || state == R.ReplySent
    }

    method SendResponse(status: nat, alive: bool)
      modifies this, responseSender
      ensures State() == R.SendResponse(old(State()), status, alive)
    {
      if state == R.ErrorSent || state == R.ReplySent {
        return;
      }
      if !alive {
        return;
      }
      responseSender.SendResponse(status);
    }

    /** Whether the body of a reply with this message can be printed. */
    predicate BodyPrints(message: seq<byte>)
      reads this
    {
      if organization && resource.Some? then Prints(resource, message) else Prints(None, message)
    }

    /** The shape of every reply: print, send, mark. */
    method ReplyWith(status: nat, mark: R.ReplyState, a: R.Attempt) returns (threw: bool)
      modifies this, responseSender
      ensures (if threw then R.Throws(State()) else R.Returns(State())) == R.ReplyWith(old(State()), status, mark, a)
    {
      hide Prints;
      if !BodyPrints(a.message) {
        return true;
      }
      SendResponse(status, a.alive);
      state := mark;
      return false;
    }

    method OnRequestStart(o: R.Opening) returns (crashed: bool)
      modifies this, responseSender
      ensures (if crashed then R.Throws(State()) else R.Returns(State())) == R.OnRequestStart(old(State()), o)
    {
      hide Prints, R.Fixed;
      var threw := false;
      match o.arrival {
        case HostRefused =>
          threw := ReplyWith(400, R.ErrorSent, o.reply);
        case OrganizationUnknown =>
          organization := false;
          threw := ReplyWith(400, R.ErrorSent, o.reply);
        case PathRefused =>
          organization := true;
          threw := ReplyWith(400, R.ErrorSent, o.reply);
        case Unreadable(matched) =>
          organization := matched;
          threw := true;
        case Accepted =>
          organization := true;
      }
      crashed := threw;
      if threw {
        crashed := ReplyWith(500, R.ErrorSent, R.Attempt(R.Fixed(R.StartFailed), o.lastAlive));
      }
    }

    method OnBodySizeIncrease(size: nat, alive: bool) returns (threw: bool)
      modifies this, responseSender
      ensures (if threw then R.Throws(State()) else R.Returns(State())) == R.OnBodySizeIncrease(old(State()), size, alive)
    {
      if state == R.ErrorSent {
        return false;
      }
      if size > R.MAX_BODY_SIZE {
        threw := ReplyWith(400, R.ErrorSent, R.Attempt(R.Fixed(R.BodyTooLarge), alive));
      } else {
        threw := false;
      }
    }

    method ReplyPassThroughError(b: R.Backend, a: R.Attempt) returns (threw: bool)
      requires b.CurlFails? || b.HttpFails?
      modifies this, responseSender
      ensures (if threw then R.Throws(State()) else R.Returns(State())) == R.PassThroughError(old(State()), b, a)
    {
      if b.CurlFails? {
        threw := ReplyWith(502, R.ErrorSent, a);
      } else {
        threw := ReplyWith(b.status, R.ErrorSent, a);
      }
    }

    method DoPassThrough(t: R.PassThrough, a: R.Attempt, innerAlive: bool) returns (threw: bool)
      requires !t.NotOffered?
      modifies this, responseSender
      ensures (if threw then R.Throws(State()) else R.Returns(State())) == R.DoPassThrough(old(State()), t, a, innerAlive)
    {
      hide Prints, R.Fixed;
      threw := false;
      if t.MethodRefused? {
        threw := ReplyWith(400, R.ErrorSent, a);
      } else {
        match t.backend {
          case Breaks =>
            threw := true;
          case Responds(status) =>
            SendResponse(status, a.alive);
            state := R.ReplySent;
          case failure =>
            threw := ReplyPassThroughError(failure, a);
        }
      }
      if threw {
        threw := ReplyWith(500, R.ErrorSent, R.Attempt(R.Fixed(R.PassThroughFailed), innerAlive));
      }
    }

    method ReplyX402ResourceSuccess(status: nat, alive: bool) returns (threw: bool)
      modifies this, responseSender
      ensures threw <==> !(200 <= status < 300)
      ensures State() == if threw then old(State()) else R.SendResponse(old(State()), status, alive).(state := R.ReplySent)
    {
      if !(200 <= status < 300) {
        return true;
      }
      SendResponse(status, alive);
      state := R.ReplySent;
      return false;
    }

    method ServePriced(priced: R.Priced, a: R.Attempt) returns (threw: bool)
      modifies this, responseSender
      ensures (if threw then R.Throws(State()) else R.Returns(State())) == R.ServePriced(old(State()), priced, a)
    {
      hide Prints, R.Fixed;
      threw := false;
      match priced
      case MethodUnsupported =>
        threw := ReplyWith(400, R.ErrorSent, a);
      case HeaderCheckThrows =>
      case HeaderMissing =>
        var _ := ReplyWith(402, R.ReplySent, R.Attempt(R.Fixed(R.HeaderRequired), a.alive));
      case SettlementThrows =>
        threw := true;
      case SettlementFails =>
        threw := ReplyWith(500, R.ErrorSent, a);
      case PaymentRefused =>
        threw := ReplyWith(402, R.ReplySent, a);
      case Settled(backend) =>
        match backend
        case Breaks =>
          threw := true;
        case Responds(status) =>
          threw := ReplyX402ResourceSuccess(status, a.alive);
        case failure =>
          threw := ReplyPassThroughError(failure, a);
    }

    method OnRequestFullyReceived(c: R.Closing) returns (crashed: bool)
      modifies this, responseSender
      ensures (if crashed then R.Throws(State()) else R.Returns(State())) == R.OnRequestFullyReceived(old(State()), c)
    {
      hide R.ServePriced, R.DoPassThrough, Prints, R.Fixed;
      if state == R.ErrorSent {
        return false;
      }
      var threw := true;
      if organization {
        match c.lookup {
          case LookupThrows =>
          case NoResource(passThrough) =>
            resource := None;
            if passThrough.NotOffered? {
              threw := ReplyWith(404, R.ErrorSent, c.reply);
            } else {
              threw := DoPassThrough(passThrough, c.reply, c.innerAlive);
            }
          case Resource(offer, priced) =>
            resource := Some(offer);
            threw := ServePriced(priced, c.reply);
        }
      }
      crashed := threw;
      if threw {
        crashed := ReplyWith(500, R.ErrorSent, R.Attempt(R.Fixed(R.RequestFailed), c.lastAlive));
      }
    }
  }

  class X402Handler {
    var responseSender: ResponseSender?
    var processor: X402Processor?
    var internalErrorSent: bool
    var bodyBuffer: seq<byte>
    /** Set when a callback that may not throw did: the process has ended. */
    ghost var crashed: bool

    ghost predicate Valid()
      reads this, processor
    {
      processor != null ==> processor.responseSender == responseSender
    }

    ghost function Sent(): seq<nat>
      reads this, responseSender
    {
      if responseSender == null then [] else responseSender.sent
    }

    ghost function State(): R.Handler
      reads this, responseSender, processor
    {
      R.Handler(if processor == null then R.IDLE.(sent := Sent())
                else R.Processor(processor.state, processor.organization, processor.resource, Sent()),
                responseSender != null, processor != null, internalErrorSent, bodyBuffer, crashed)
    }

    constructor ()
      ensures Valid() && State() == R.NEW && responseSender == null && processor == null
    {
      responseSender, processor, internalErrorSent, bodyBuffer, crashed := null, null, false, [], false;
    }

    method SendInternalError()
      requires Valid()
      modifies this, responseSender
      ensures Valid() && responseSender == old(responseSender) && processor == old(processor)
      ensures State() == R.SendInternalError(old(State()))
    {
      internalErrorSent := true;
      if responseSender == null {
        return;
      }
      responseSender.SendResponse(500);
    }

    method OnRequest(setup: R.Setup, o: R.Opening)
      requires Valid() && (State() == R.NEW || internalErrorSent)
      modifies this
      ensures Valid() && State() == R.OnRequest(old(State()), setup, o)
      ensures responseSender != old(responseSender) ==> fresh(responseSender)
      ensures processor != old(processor) ==> fresh(processor)
    {
      hide R.OnRequestStart;
      if internalErrorSent {
        return;
      }
      if setup.NoSender? {
        SendInternalError();
        return;
      }
      responseSender := new ResponseSender();
      if setup.NoProcessor? {
        SendInternalError();
        return;
      }
      processor := new X402Processor(responseSender);
      var ended := processor.OnRequestStart(o);
      crashed := ended;
    }

    method OnBody(c: R.Chunk)
      requires Valid() && !crashed
      modifies this, responseSender, processor
      ensures Valid() && responseSender == old(responseSender) && processor == old(processor)
      ensures State() == R.OnBody(old(State()), c)
    {
      hide R.OnBodySizeIncrease;
      if internalErrorSent {
        return;
      }
      if c.Nothing? {
        return;
      }
      if processor == null {
        SendInternalError();
        return;
      }
      if processor.IsReplySent() {
        return;
      }
      if !c.grown {
        SendInternalError();
        return;
      }
      bodyBuffer := bodyBuffer + c.data;
      var threw := processor.OnBodySizeIncrease(|bodyBuffer|, c.alive);
      if threw {
        SendInternalError();
      }
    }

    method OnEom(c: R.Closing)
      requires Valid() && !crashed
      modifies this, responseSender, processor
      ensures Valid() && responseSender == old(responseSender) && processor == old(processor)
      ensures State() == R.OnEom(old(State()), c)
    {
      hide R.OnRequestFullyReceived;
      if internalErrorSent {
        return;
      }
      if processor == null {
        SendInternalError();
        return;
      }
      if processor.IsReplySent() {
        return;
      }
      var ended := processor.OnRequestFullyReceived(c);
      crashed := ended;
    }
  }
}
