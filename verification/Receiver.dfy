/** The receiving peer: the asynchronous task spawned by `accept_offer`, as a program over the data channel. */
module Receiver {
  import opened Prelude
  import opened Wire
  import opened Framing
  import opened Pin
  import opened Network
  import opened ReceiveLoop
  import opened Sender
  import Token

  /** The user's reaction to the offered files: the dialog goes away, or a refusal, or a token for every chosen id. */
  datatype Choice = Dropped | Refused | Chosen(tokens: map<string, string>)

  datatype ReceiverConfig = ReceiverConfig(
    nonce: Bytes,
    token: Bytes -> string,
    expects: Option<(string, Bytes) -> Token.Check>,
    pin: Option<PinConfig>,
    answers: nat -> Option<string>,
    choose: seq<FileDto> -> Choice,
    results: nat -> Option<SendFileResponse>)

  datatype ReceiverState =
    | AwaitSenderNonce
    | AwaitToken(nonce: Bytes)
    | AwaitSenderPin(nonce: Bytes, tries: nat)
    | AwaitOffer(nonce: Bytes, buffer: Bytes)
    | AwaitVerdict(nonce: Bytes, asked: nat, buffer: Bytes)
    | Receiving(terms: Terms, rx: RxState)
    | ReceiverDone(end: ReceiverEnd)

  /** `Received` is the clean stop at the delimiter, `CutOff` the channel closing first, `Broken` an unreadable header. */
  datatype ReceiverEnd =
    | Received(terms: Terms, rx: RxState)
    | CutOff(terms: Terms, rx: RxState)
    | Broken(terms: Terms, rx: RxState)
    | NoAnswer
    | ReceiverDeclined
    | ReceiverFailed(why: Failure)

  type ReceiverReaction = Reaction<ReceiverState>

  predicate ValidReceiver(s: ReceiverState) {
    s.Receiving? ==> ValidRx(s.rx)
  }

  function Aborts(why: Failure, out: seq<Message>): (r: ReceiverReaction)
    ensures ValidReceiver(r.next)
  {
    Reaction(ReceiverDone(ReceiverFailed(why)), out)
  }

  function After(out: seq<Message>, r: ReceiverReaction): ReceiverReaction {
    Reaction(r.next, out + r.out)
  }

  function OnToken(w: Codecs, cfg: ReceiverConfig, nonce: Bytes, m: Option<Message>): ReceiverReaction {
    if m.None? || m.value.Binary? then Aborts(BadTokenMessage, [])
    else match w.tokenRequest.parse(m.value.data)
      case None => Aborts(BadTokenMessage, [])
      case Some(d) =>
        if !TokenPasses(cfg.expects, d.token, nonce) then
          if TokenPanics(cfg.expects, d.token, nonce) then Aborts(TokenPanic, [])
          else Aborts(TokenRefused, [Text(w.tokenResponse.show(TokenInvalidSignature))])
        else
          var local := cfg.token(nonce);
          match cfg.pin
          case None => Reaction(AwaitOffer(nonce, []), [Text(w.tokenResponse.show(TokenOk(local)))])
          case Some(p) => After([Text(w.tokenResponse.show(TokenPinRequired(local)))], Examine(w, p, nonce, "", 0))
  }

  /** One round of `verify_pin`, and the acceptance that follows it. */
  function Examine(w: Codecs, p: PinConfig, nonce: Bytes, remotePin: string, tries: nat): ReceiverReaction {
    match CheckPin(p, TextNotices(w), remotePin, tries, false)
    case Accepted => Reaction(AwaitOffer(nonce, []), [Text(w.pinReceiving.show(ReceivingOk))])
    case Rejected(out) => Aborts(PinRefused, out)
    case Ask(out) => Reaction(AwaitSenderPin(nonce, tries), out)
  }

  function OnSenderPin(w: Codecs, cfg: ReceiverConfig, nonce: Bytes, tries: nat, m: Option<Message>): ReceiverReaction {
    if m.None? || cfg.pin.None? then Aborts(BadPinMessage, [])
    else match w.pin.parse(m.value.data)
      case None => Aborts(BadPinMessage, [])
      case Some(d) => Examine(w, cfg.pin.value, nonce, d.pin, tries + 1)
  }

  function AskReceiver(w: Codecs, cfg: ReceiverConfig, nonce: Bytes, asked: nat): ReceiverReaction {
    match cfg.answers(asked)
    case None => Aborts(NoPinGiven, [])
    case Some(pin) => Reaction(AwaitVerdict(nonce, asked + 1, []), [Text(w.pin.show(PinMessage(pin)))])
  }

  /** The first framed string from the sender: its file list, or its own PIN challenge. */
  function OnOffer(w: Codecs, cfg: ReceiverConfig, nonce: Bytes, offer: Bytes): ReceiverReaction {
    match w.pinSending.parse(offer)
    case None => Aborts(BadOffer, [])
    case Some(SendingOk(files)) => Decide(w, cfg, nonce, files)
    case Some(SendingPinRequired) => AskReceiver(w, cfg, nonce, 0)
    case Some(SendingTooManyAttempts) => Aborts(BadOffer, [])
  }

  function OnVerdict(w: Codecs, cfg: ReceiverConfig, nonce: Bytes, asked: nat, offer: Bytes): ReceiverReaction {
    match w.pinSending.parse(offer)
    case None => Aborts(BadPinReply, [])
    case Some(SendingOk(files)) => Decide(w, cfg, nonce, files)
    case Some(SendingPinRequired) => AskReceiver(w, cfg, nonce, asked)
    case Some(SendingTooManyAttempts) => Aborts(PinRefusedByPeer, [])
  }

  function Decide(w: Codecs, cfg: ReceiverConfig, nonce: Bytes, files: seq<FileDto>): ReceiverReaction {
    match cfg.choose(files)
    case Dropped => Reaction(ReceiverDone(NoAnswer), [])
    case Refused => Reaction(ReceiverDone(ReceiverDeclined), Framed(w.fileList.show(ListDeclined)))
    case Chosen(tokens) => Reaction(Receiving(Terms(nonce, files, tokens), RX_INIT), Framed(w.fileList.show(ListOk(tokens))))
  }

  function Context(w: Codecs, cfg: ReceiverConfig, terms: Terms): RxContext {
    RxContext(w, terms, cfg.results)
  }

  function OnReceiving(w: Codecs, cfg: ReceiverConfig, terms: Terms, rx: RxState, m: Option<Message>): ReceiverReaction {
    if m.None? then Reaction(ReceiverDone(CutOff(terms, rx)), [])
    else if !ValidRx(rx) then Aborts(BadFileHeader, [])
    else
      var s := OnMessage(Context(w, cfg, terms), rx, m.value);
      Reaction(match s.verdict
               case Continue => Receiving(terms, s.rx)
               case Complete => ReceiverDone(Received(terms, s.rx))
               case BadHeader => ReceiverDone(Broken(terms, s.rx)), s.out)
  }

  function OnReceiver(w: Codecs, cfg: ReceiverConfig, s: ReceiverState, m: Option<Message>): ReceiverReaction {
    match s
    case AwaitSenderNonce =>
      (match ReadNonce(w, m)
       case None => Aborts(BadNonce, [])
       case Some(remote) => Reaction(AwaitToken(remote + cfg.nonce), [NonceText(w, cfg.nonce)]))
    case AwaitToken(nonce) => OnToken(w, cfg, nonce, m)
    case AwaitSenderPin(nonce, tries) => OnSenderPin(w, cfg, nonce, tries, m)
    case AwaitOffer(nonce, buffer) =>
      if m.Some? && m.value.Binary? then Reaction(AwaitOffer(nonce, buffer + m.value.data), [])
      else OnOffer(w, cfg, nonce, buffer)
    case AwaitVerdict(nonce, asked, buffer) =>
      if m.Some? && m.value.Binary? then Reaction(AwaitVerdict(nonce, asked, buffer + m.value.data), [])
      else OnVerdict(w, cfg, nonce, asked, buffer)
    case Receiving(terms, rx) => OnReceiving(w, cfg, terms, rx, m)
    case ReceiverDone(_) => Reaction(s, [])
  }

  function ReceiverProgram(w: Codecs, cfg: ReceiverConfig): Program<ReceiverState> {
    Program((s, m) => OnReceiver(w, cfg, s, m), (s: ReceiverState) => s.ReceiverDone?)
  }

  const RECEIVER_START: ReceiverState := AwaitSenderNonce
}
