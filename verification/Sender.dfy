/** The sending peer: the asynchronous task spawned by `send_offer`, as a program over the data channel. */
module Sender {
  import opened Prelude
  import opened Base64
  import opened Chunking
  import opened Wire
  import opened Framing
  import opened Pin
  import opened Network
  import opened ReceiveLoop
  import Token

  /** A file queued by the application, in whatever blocks it is read. */
  datatype QueuedFile = QueuedFile(id: string, blocks: seq<Bytes>)

  /**
   * `token` makes the token for a nonce, `expects` verifies the peer's, `answers` is the user at the PIN
   * dialog, and `queue` is what the application will send, in order, until it closes the queue.
   */
  datatype SenderConfig = SenderConfig(
    nonce: Bytes,
    token: Bytes -> string,
    expects: Option<(string, Bytes) -> Token.Check>,
    pin: Option<PinConfig>,
    answers: nat -> Option<string>,
    files: seq<FileDto>,
    queue: seq<QueuedFile>)

  /** Each state but the last is a read; `SenderDone` holds how it ended. */
  datatype SenderState =
    | AwaitNonce
    | AwaitTokenResponse(nonce: Bytes)
    | AwaitPinReply(nonce: Bytes, asked: nat)
    | AwaitPin(nonce: Bytes, tries: nat)
    | AwaitFileList(nonce: Bytes, buffer: Bytes)
    | AwaitStatus(terms: Terms)
    | SenderDone(end: SenderEnd)

  /** `status` is the one message read after the delimiter, which is not looked at. */
  datatype SenderEnd = Sent(terms: Terms, status: Option<Message>) | SenderDeclined | SenderFailed(why: Failure)

  type SenderReaction = Reaction<SenderState>

  const VALID_NONCE_MIN: nat := 16
  const VALID_NONCE_MAX: nat := 128

  predicate ValidateNonce(nonce: Bytes) {
    VALID_NONCE_MIN <= |nonce| <= VALID_NONCE_MAX
  }

  function NonceText(w: Codecs, nonce: Bytes): Message {
    Text(w.nonce.show(NonceMessage(Encode(nonce))))
  }

  /** `receive_nonce`. */
  function ReadNonce(w: Codecs, m: Option<Message>): Option<Bytes> {
    if m.None? || m.value.Binary? then None
    else match w.nonce.parse(m.value.data)
      case None => None
      case Some(d) =>
        match Decode(d.nonce)
        case None => None
        case Some(nonce) => if ValidateNonce(nonce) then Some(nonce) else None
  }

  lemma ReadNonceText(w: Codecs, nonce: Bytes)
    requires w.Lawful() && ValidateNonce(nonce)
    ensures ReadNonce(w, Some(NonceText(w, nonce))) == Some(nonce)
  {
    DecodeEncode(nonce);
  }

  /** A nonce is read exactly from a text that is the document of its encoding, if it has 16 to 128 bytes. */
  lemma ReadNonceMeans(w: Codecs, m: Option<Message>, nonce: Bytes)
    ensures ReadNonce(w, m) == Some(nonce)
       <==> && m.Some? && m.value.Text? && w.nonce.parse(m.value.data) == Some(NonceMessage(Encode(nonce)))
            && 16 <= |nonce| <= 128
  {
    DecodeEncode(nonce);
    if m.Some? && m.value.Text? && w.nonce.parse(m.value.data).Some? {
      var text := w.nonce.parse(m.value.data).value.nonce;
      if Decode(text).Some? {
        EncodeDecode(text);
      }
    }
  }

  predicate TokenPasses(expects: Option<(string, Bytes) -> Token.Check>, token: string, nonce: Bytes) {
    expects.None? || expects.value(token, nonce).Accepted?
  }

  /** The check of a malformed token does not return. */
  predicate TokenPanics(expects: Option<(string, Bytes) -> Token.Check>, token: string, nonce: Bytes) {
    expects.Some? && expects.value(token, nonce).Panics?
  }

  function TokenFailure(expects: Option<(string, Bytes) -> Token.Check>, token: string, nonce: Bytes): Failure {
    if TokenPanics(expects, token, nonce) then TokenPanic else TokenRefused
  }

  function Fails(why: Failure, out: seq<Message>): SenderReaction {
    Reaction(SenderDone(SenderFailed(why)), out)
  }

  /** One round of `handle_pin`. */
  function AskUser(w: Codecs, cfg: SenderConfig, nonce: Bytes, asked: nat): SenderReaction {
    match cfg.answers(asked)
    case None => Fails(NoPinGiven, [])
    case Some(pin) => Reaction(AwaitPinReply(nonce, asked + 1), [Text(w.pin.show(PinMessage(pin)))])
  }

  /** After the receiver's challenge: the sender's own, if it has a PIN. */
  function OwnChallenge(w: Codecs, cfg: SenderConfig, nonce: Bytes): SenderReaction {
    match cfg.pin
    case None => Offer(w, cfg, nonce)
    case Some(p) => Judge(w, cfg, p, nonce, "", 0, true)
  }

  function Judge(w: Codecs, cfg: SenderConfig, p: PinConfig, nonce: Bytes, remotePin: string, tries: nat, notice: bool): SenderReaction {
    match CheckPin(p, ChunkedNotices(w), remotePin, tries, notice)
    case Accepted => Offer(w, cfg, nonce)
    case Rejected(out) => Fails(PinRefused, out)
    case Ask(out) => Reaction(AwaitPin(nonce, tries), out)
  }

  function Offer(w: Codecs, cfg: SenderConfig, nonce: Bytes): SenderReaction {
    Reaction(AwaitFileList(nonce, []), Framed(w.pinSending.show(SendingOk(cfg.files))))
  }

  /** The messages for one queued file: nothing unless the receiver gave a token for it. */
  function SendFile(w: Codecs, tokens: map<string, string>, f: QueuedFile): seq<Message> {
    if f.id !in tokens then []
    else [Text(w.header.show(SendFileHeader(f.id, tokens[f.id])))] + Binaries(Chunks(Flatten(f.blocks), CHUNK_SIZE))
  }

  function SendFiles(w: Codecs, tokens: map<string, string>, queue: seq<QueuedFile>): seq<Message> {
    if queue == [] then [] else SendFile(w, tokens, queue[0]) + SendFiles(w, tokens, queue[1..])
  }

  function OnTokenResponse(w: Codecs, cfg: SenderConfig, nonce: Bytes, m: Option<Message>): SenderReaction {
    if m.None? || m.value.Binary? then Fails(BadTokenMessage, [])
    else match w.tokenResponse.parse(m.value.data)
      case None => Fails(BadTokenMessage, [])
      case Some(TokenInvalidSignature) => Fails(TokenRefusedByPeer, [])
      case Some(TokenOk(token)) =>
        if TokenPasses(cfg.expects, token, nonce) then OwnChallenge(w, cfg, nonce)
        else Fails(TokenFailure(cfg.expects, token, nonce), [])
      case Some(TokenPinRequired(token)) =>
        if TokenPasses(cfg.expects, token, nonce) then AskUser(w, cfg, nonce, 0)
        else Fails(TokenFailure(cfg.expects, token, nonce), [])
  }

  function OnPinReply(w: Codecs, cfg: SenderConfig, nonce: Bytes, asked: nat, m: Option<Message>): SenderReaction {
    if m.None? || m.value.Binary? then Fails(BadPinReply, [])
    else match w.pinReceiving.parse(m.value.data)
      case None => Fails(BadPinReply, [])
      case Some(ReceivingOk) => OwnChallenge(w, cfg, nonce)
      case Some(ReceivingPinRequired) => AskUser(w, cfg, nonce, asked)
      case Some(ReceivingTooManyAttempts) => Fails(PinRefusedByPeer, [])
  }

  function OnPin(w: Codecs, cfg: SenderConfig, nonce: Bytes, tries: nat, m: Option<Message>): SenderReaction {
    if m.None? || cfg.pin.None? then Fails(BadPinMessage, [])
    else match w.pin.parse(m.value.data)
      case None => Fails(BadPinMessage, [])
      case Some(d) => Judge(w, cfg, cfg.pin.value, nonce, d.pin, tries + 1, false)
  }

  function OnFileList(w: Codecs, cfg: SenderConfig, nonce: Bytes, list: Bytes): SenderReaction {
    match w.fileList.parse(list)
    case None => Fails(BadFileList, [])
    case Some(ListOk(tokens)) =>
      Reaction(AwaitStatus(Terms(nonce, cfg.files, tokens)), SendFiles(w, tokens, cfg.queue) + [DELIMITER])
    case Some(ListPair(_)) => Fails(PairNotModelled, [])
    case Some(ListDeclined) => Reaction(SenderDone(SenderDeclined), [])
    case Some(ListInvalidSignature) => Fails(BadFileList, [])
  }

  function OnSender(w: Codecs, cfg: SenderConfig, s: SenderState, m: Option<Message>): SenderReaction {
    match s
    case AwaitNonce =>
      (match ReadNonce(w, m)
       case None => Fails(BadNonce, [])
       case Some(remote) =>
         var nonce := cfg.nonce + remote;
         Reaction(AwaitTokenResponse(nonce), [Text(w.tokenRequest.show(TokenRequest(cfg.token(nonce))))]))
    case AwaitTokenResponse(nonce) => OnTokenResponse(w, cfg, nonce, m)
    case AwaitPinReply(nonce, asked) => OnPinReply(w, cfg, nonce, asked, m)
    case AwaitPin(nonce, tries) => OnPin(w, cfg, nonce, tries, m)
    case AwaitFileList(nonce, buffer) =>
      if m.Some? && m.value.Binary? then Reaction(AwaitFileList(nonce, buffer + m.value.data), [])
      else OnFileList(w, cfg, nonce, buffer)
    case AwaitStatus(terms) => Reaction(SenderDone(Sent(terms, m)), [])
    case SenderDone(_) => Reaction(s, [])
  }

  function SenderProgram(w: Codecs, cfg: SenderConfig): Program<SenderState> {
    Program((s, m) => OnSender(w, cfg, s, m), (s: SenderState) => s.SenderDone?)
  }

  function SenderStart(w: Codecs, cfg: SenderConfig): SenderReaction {
    Reaction(AwaitNonce, [NonceText(w, cfg.nonce)])
  }
}
