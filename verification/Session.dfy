/** Both peers together: every interleaving of one session ends in the same place, and this is the place. */
module Session {
  import opened Prelude
  import opened Chunking
  import opened Wire
  import opened Framing
  import opened Pin
  import opened Network
  import opened Tasks
  import opened ReceiveLoop
  import opened Sender
  import opened Receiver
  import opened Transfer

  type Session = Config<SenderState, ReceiverState>

  function Peers(w: Codecs, s: SenderConfig, r: ReceiverConfig): System<SenderState, ReceiverState> {
    System(SenderProgram(w, s), ReceiverProgram(w, r))
  }

  function Start(w: Codecs, s: SenderConfig): Session {
    Config(SenderStart(w, s).next, SenderStart(w, s).out, RECEIVER_START, [], [], [])
  }

  /** Both nonces come from `generate_nonce`, and the serialisers are lawful. Everything else is arbitrary. */
  ghost predicate Honest(w: Codecs, s: SenderConfig, r: ReceiverConfig) {
    w.Lawful() && |s.nonce| == 32 && |r.nonce| == 32
  }

  // ---- How a session ends, said without the programs ----

  /** `PinExhausted`: all tries were wrong at the check of one side; `PinMissing`: its peer's user gave no PIN. */
  datatype Ending =
    | HandshakeFails
    | PinExhausted(checkedByReceiver: bool)
    | PinMissing(checkedByReceiver: bool)
    | UserAway
    | UserRefuses
    | Transfers(terms: Terms)

  datatype Trial = Right | UsedUp | GivenUp

  /** What the user's answers, from the i-th on, come to at a PIN check. */
  function Tried(p: PinConfig, answers: nat -> Option<string>, i: nat): Trial
    decreases p.maxTries - i
  {
    if i >= p.maxTries then UsedUp
    else match answers(i)
      case None => GivenUp
      case Some(pin) => if pin == p.pin then Right else Tried(p, answers, i + 1)
  }

  /**
   * Right: one of the first `maxTries` answers is the PIN, and the user does not give up before it.
   * Used up: there are `maxTries` answers, all wrong. Otherwise the user gives up.
   */
  lemma {:induction false} TriedMeans(p: PinConfig, answers: nat -> Option<string>, i: nat)
    ensures Tried(p, answers, i).Right?
       <==> exists k: nat :: i <= k < p.maxTries && answers(k) == Some(p.pin) && forall j: nat :: i <= j < k ==> answers(j).Some?
    ensures Tried(p, answers, i).UsedUp?
       <==> forall j: nat :: i <= j < p.maxTries ==> answers(j).Some? && answers(j) != Some(p.pin)
    decreases p.maxTries - i
  {
    if i < p.maxTries {
      TriedMeans(p, answers, i + 1);
      if answers(i).Some? && answers(i).value != p.pin && Tried(p, answers, i + 1).Right? {
        var k: nat :| i + 1 <= k < p.maxTries && answers(k) == Some(p.pin) && forall j: nat :: i + 1 <= j < k ==> answers(j).Some?;
        assert forall j: nat :: i <= j < k ==> answers(j).Some?;
      }
      assert answers(i) == Some(p.pin) ==> i <= i < p.maxTries && forall j: nat :: i <= j < i ==> answers(j).Some?;
    }
  }

  function ByChoice(s: SenderConfig, r: ReceiverConfig, nonce: Bytes): Ending {
    match r.choose(s.files)
    case Dropped => UserAway
    case Refused => UserRefuses
    case Chosen(tokens) => Transfers(Terms(nonce, s.files, tokens))
  }

  /** The sender's challenge: an empty PIN counts as none. */
  function BySenderPin(s: SenderConfig, r: ReceiverConfig, nonce: Bytes): Ending {
    if s.pin.None? || s.pin.value.pin == "" then ByChoice(s, r, nonce)
    else if s.pin.value.maxTries == 0 then HandshakeFails
    else AtSender(s, r, nonce, 0)
  }

  function AtSender(s: SenderConfig, r: ReceiverConfig, nonce: Bytes, i: nat): Ending
    requires s.pin.Some?
  {
    match Tried(s.pin.value, r.answers, i)
    case Right => ByChoice(s, r, nonce)
    case UsedUp => PinExhausted(false)
    case GivenUp => PinMissing(false)
  }

  /** The receiver's challenge: an empty PIN, or no try at all, makes every session fail. */
  function ByReceiverPin(s: SenderConfig, r: ReceiverConfig, nonce: Bytes): Ending {
    if r.pin.None? then BySenderPin(s, r, nonce)
    else if r.pin.value.pin == "" || r.pin.value.maxTries == 0 then HandshakeFails
    else AtReceiver(s, r, nonce, 0)
  }

  function AtReceiver(s: SenderConfig, r: ReceiverConfig, nonce: Bytes, i: nat): Ending
    requires r.pin.Some?
  {
    match Tried(r.pin.value, s.answers, i)
    case Right => BySenderPin(s, r, nonce)
    case UsedUp => PinExhausted(true)
    case GivenUp => PinMissing(true)
  }

  function EndingOf(s: SenderConfig, r: ReceiverConfig): Ending {
    var nonce := s.nonce + r.nonce;
    if && (r.expects.Some? ==> r.expects.value(s.token(nonce), nonce).Accepted?)
       && (s.expects.Some? ==> s.expects.value(r.token(nonce), nonce).Accepted?)
    then ByReceiverPin(s, r, nonce)
    else HandshakeFails
  }

  /** The final state of both peers and of the channel. */
  ghost predicate Describes(w: Codecs, s: SenderConfig, r: ReceiverConfig, e: Ending, end: Session) {
    match e
    case HandshakeFails =>
      && end.left.SenderDone? && end.left.end.SenderFailed?
      && end.right.ReceiverDone? && end.right.end.ReceiverFailed?
    case PinExhausted(byReceiver) =>
      if byReceiver then end == Calm(SenderDone(SenderFailed(PinRefusedByPeer)), ReceiverDone(ReceiverFailed(PinRefused)), [], [])
      else end == Calm(SenderDone(SenderFailed(PinRefused)), ReceiverDone(ReceiverFailed(PinRefusedByPeer)), [], [])
    case PinMissing(byReceiver) =>
      if byReceiver then end == Calm(SenderDone(SenderFailed(NoPinGiven)), ReceiverDone(ReceiverFailed(BadPinMessage)), [], [])
      else end == Calm(SenderDone(SenderFailed(BadPinMessage)), ReceiverDone(ReceiverFailed(NoPinGiven)), [], [])
    case UserAway =>
      end == Calm(SenderDone(SenderFailed(BadFileList)), ReceiverDone(NoAnswer), [], [])
    case UserRefuses =>
      end == Calm(SenderDone(SenderDeclined), ReceiverDone(ReceiverDeclined), [], [])
    case Transfers(terms) =>
      var expected := Expected(terms, s.queue);
      var responses := Responses(Context(w, r, terms), expected);
      && end.left == SenderDone(Sent(terms, First(responses))) && end.leftOut == [] && end.rightOut == []
      && end.toRight == [] && end.toLeft == Tail(responses)
      && end.right.ReceiverDone?
      && end.right.end == (if EndsOffered(terms, s.queue) then Received(terms, RxOf(end.right)) else Broken(terms, RxOf(end.right)))
      && RxOf(end.right).delivered == expected
  }

  function RxOf(p: ReceiverState): RxState {
    match p
    case Receiving(_, rx) => rx
    case ReceiverDone(Received(_, rx)) => rx
    case ReceiverDone(CutOff(_, rx)) => rx
    case ReceiverDone(Broken(_, rx)) => rx
    case _ => RX_INIT
  }

  ghost predicate Concludes(w: Codecs, s: SenderConfig, r: ReceiverConfig, e: Ending, c: Session) {
    exists end :: Reaches(Peers(w, s, r), c, end) && Quiescent(Peers(w, s, r), end) && Describes(w, s, r, e, end)
  }

  lemma Onward(w: Codecs, s: SenderConfig, r: ReceiverConfig, e: Ending, c: Session, d: Session)
    requires Reaches(Peers(w, s, r), c, d) && Concludes(w, s, r, e, d)
    ensures Concludes(w, s, r, e, c)
  {
    var end :| Reaches(Peers(w, s, r), d, end) && Quiescent(Peers(w, s, r), end) && Describes(w, s, r, e, end);
    ReachesTrans(Peers(w, s, r), c, d, end);
  }

  lemma Ended(w: Codecs, s: SenderConfig, r: ReceiverConfig, e: Ending, c: Session)
    requires c.left.SenderDone? && c.right.ReceiverDone? && c.leftOut == [] && c.rightOut == []
    requires Describes(w, s, r, e, c)
    ensures Concludes(w, s, r, e, c)
  {
    ReachesSelf(Peers(w, s, r), c);
  }

  lemma RightReads(w: Codecs, s: SenderConfig, r: ReceiverConfig, e: Ending, left: SenderState, right: ReceiverState, ms: seq<Message>)
    requires var (q, rest) := Drain(ReceiverProgram(w, r), right, ms);
             Concludes(w, s, r, e, Calm(left, q.next, rest, q.out))
    ensures Concludes(w, s, r, e, Calm(left, right, ms, []))
  {
    hide Concludes, Drain, Reaches;
    var (q, rest) := Drain(ReceiverProgram(w, r), right, ms);
    DrainRight(Peers(w, s, r), left, right, ms, []);
    assert [] + q.out == q.out;
    Onward(w, s, r, e, Calm(left, right, ms, []), Calm(left, q.next, rest, q.out));
  }

  lemma LeftReads(w: Codecs, s: SenderConfig, r: ReceiverConfig, e: Ending, left: SenderState, right: ReceiverState, ms: seq<Message>)
    requires var (q, rest) := Drain(SenderProgram(w, s), left, ms);
             Concludes(w, s, r, e, Calm(q.next, right, q.out, rest))
    ensures Concludes(w, s, r, e, Calm(left, right, [], ms))
  {
    hide Concludes, Drain, Reaches;
    var (q, rest) := Drain(SenderProgram(w, s), left, ms);
    DrainLeft(Peers(w, s, r), left, right, [], ms);
    assert [] + q.out == q.out;
    Onward(w, s, r, e, Calm(left, right, [], ms), Calm(q.next, right, q.out, rest));
  }

  /** The receiver has failed; the sender finds the channel closed and fails too. */
  lemma SenderFollows(w: Codecs, s: SenderConfig, r: ReceiverConfig, left: SenderState, why: Failure, toRight: seq<Message>)
    requires left.SenderDone? ==> left.end.SenderFailed?
    requires !left.SenderDone? ==> var q := OnSender(w, s, left, None); q.next.SenderDone? && q.next.end.SenderFailed?
    ensures Concludes(w, s, r, HandshakeFails, Calm(left, ReceiverDone(ReceiverFailed(why)), toRight, []))
  {
    var right := ReceiverDone(ReceiverFailed(why));
    if left.SenderDone? {
      Ended(w, s, r, HandshakeFails, Calm(left, right, toRight, []));
    } else {
      CloseLeft(Peers(w, s, r), left, right, toRight);
      var q := OnSender(w, s, left, None);
      Ended(w, s, r, HandshakeFails, Calm(q.next, right, toRight + q.out, []));
      Onward(w, s, r, HandshakeFails, Calm(left, right, toRight, []), Calm(q.next, right, toRight + q.out, []));
    }
  }

  lemma ReceiverFollows(w: Codecs, s: SenderConfig, r: ReceiverConfig, why: Failure, right: ReceiverState, toLeft: seq<Message>)
    requires right.ReceiverDone? ==> right.end.ReceiverFailed?
    requires !right.ReceiverDone? ==> var q := OnReceiver(w, r, right, None); q.next.ReceiverDone? && q.next.end.ReceiverFailed?
    ensures Concludes(w, s, r, HandshakeFails, Calm(SenderDone(SenderFailed(why)), right, [], toLeft))
  {
    var left := SenderDone(SenderFailed(why));
    if right.ReceiverDone? {
      Ended(w, s, r, HandshakeFails, Calm(left, right, [], toLeft));
    } else {
      CloseRight(Peers(w, s, r), left, right, toLeft);
      var q := OnReceiver(w, r, right, None);
      Ended(w, s, r, HandshakeFails, Calm(left, q.next, [], toLeft + q.out));
      Onward(w, s, r, HandshakeFails, Calm(left, right, [], toLeft), Calm(left, q.next, [], toLeft + q.out));
    }
  }

  // ---- Reading framed strings ----

  /** A state that collects binary messages in a buffer. */
  ghost predicate Collects<P(!new)>(p: Program<P>, state: Bytes -> P) {
    forall b: Bytes, d: Bytes :: TakesIn(p, state, b, d)
  }

  ghost predicate TakesIn<P(!new)>(p: Program<P>, state: Bytes -> P, b: Bytes, d: Bytes) {
    !p.halted(state(b)) && p.on(state(b), Some(Binary(d))) == Reaction(state(b + d), [])
  }

  lemma {:induction false} CollectBinaries<P(!new)>(p: Program<P>, state: Bytes -> P, buffer: Bytes, chunks: seq<Bytes>)
    requires Collects(p, state)
    ensures Drain(p, state(buffer), Binaries(chunks)) == (Reaction(state(buffer + Flatten(chunks)), []), [])
    decreases |chunks|
  {
    if chunks == [] {
      assert buffer + Flatten(chunks) == buffer;
    } else {
      var ms := Binaries(chunks);
      assert TakesIn(p, state, buffer, chunks[0]) && ms[0] == Binary(chunks[0]);
      var none: seq<Message> := [];
      assert none + none == none;
      CollectBinaries(p, state, buffer + chunks[0], chunks[1..]);
      assert ms[1..] == Binaries(chunks[1..]);
      assert buffer + chunks[0] + Flatten(chunks[1..]) == buffer + Flatten(chunks);
    }
  }

  lemma CollectFramed<P(!new)>(p: Program<P>, state: Bytes -> P, text: Bytes)
    requires Collects(p, state)
    ensures Drain(p, state([]), Framed(text)) == (p.on(state(text), Some(DELIMITER)), [])
  {
    var chunks := Chunks(text, CHUNK_SIZE);
    ChunksAreWellCut(text, CHUNK_SIZE);
    CollectBinaries(p, state, [], chunks);
    assert [] + Flatten(chunks) == text;
    DrainAppend(p, state([]), Binaries(chunks), [DELIMITER]);
    assert TakesIn(p, state, text, []);
    DrainOne(p, state(text), DELIMITER);
    var r := p.on(state(text), Some(DELIMITER));
    assert [] + r.out == r.out;
  }

  lemma SenderReadsList(w: Codecs, s: SenderConfig, nonce: Bytes, text: Bytes)
    ensures Drain(SenderProgram(w, s), AwaitFileList(nonce, []), Framed(text)) == (OnFileList(w, s, nonce, text), [])
  {
    CollectFramed(SenderProgram(w, s), b => AwaitFileList(nonce, b), text);
  }

  lemma ReceiverReadsOffer(w: Codecs, r: ReceiverConfig, nonce: Bytes, text: Bytes)
    ensures Drain(ReceiverProgram(w, r), AwaitOffer(nonce, []), Framed(text)) == (OnOffer(w, r, nonce, text), [])
  {
    CollectFramed(ReceiverProgram(w, r), b => AwaitOffer(nonce, b), text);
  }

  lemma ReceiverReadsVerdict(w: Codecs, r: ReceiverConfig, nonce: Bytes, asked: nat, text: Bytes)
    ensures Drain(ReceiverProgram(w, r), AwaitVerdict(nonce, asked, []), Framed(text)) == (OnVerdict(w, r, nonce, asked, text), [])
  {
    CollectFramed(ReceiverProgram(w, r), b => AwaitVerdict(nonce, asked, b), text);
  }

  // ---- The phases, last one first ----

  function AfterRun(terms: Terms, run: RxRun): ReceiverState {
    match run.verdict
    case Continue => Receiving(terms, run.rx)
    case Complete => ReceiverDone(Received(terms, run.rx))
    case BadHeader => ReceiverDone(Broken(terms, run.rx))
  }

  lemma {:induction false} DrainReceiving(w: Codecs, r: ReceiverConfig, terms: Terms, rx: RxState, ms: seq<Message>)
    requires ValidRx(rx)
    ensures var run := Receive(Context(w, r, terms), rx, ms);
            Drain(ReceiverProgram(w, r), Receiving(terms, rx), ms) == (Reaction(AfterRun(terms, run), run.out), run.rest)
    decreases |ms|
  {
    hide OnMessage;
    if ms != [] {
      var step := OnMessage(Context(w, r, terms), rx, ms[0]);
      assert ReceiverProgram(w, r).on(Receiving(terms, rx), Some(ms[0])) == OnReceiving(w, r, terms, rx, Some(ms[0]));
      if step.verdict == Continue {
        DrainReceiving(w, r, terms, step.rx, ms[1..]);
      } else {
        assert step.out + [] == step.out;
      }
    }
  }

  /** The sender reads one status, or sees the channel closed, and is done. */
  lemma StatusPhase(w: Codecs, s: SenderConfig, r: ReceiverConfig, terms: Terms, right: ReceiverState, out: seq<Message>)
    requires right.ReceiverDone?
    requires Describes(w, s, r, Transfers(terms), Calm(SenderDone(Sent(terms, First(out))), right, [], Tail(out)))
    ensures Concludes(w, s, r, Transfers(terms), Calm(AwaitStatus(terms), right, [], out))
  {
    hide Describes, Drain, Concludes;
    var none: seq<Message> := [];
    assert none + none == none;
    var e := Transfers(terms);
    var end := Calm(SenderDone(Sent(terms, First(out))), right, [], Tail(out));
    Ended(w, s, r, e, end);
    var c := Calm(AwaitStatus(terms), right, [], out);
    if out == [] {
      CloseLeft(Peers(w, s, r), AwaitStatus(terms), right, []);
      Onward(w, s, r, e, c, end);
    } else {
      OneRead(w, s, r, AwaitStatus(terms), right, out[0], out[1..]);
      assert [out[0]] + out[1..] == out;
      Onward(w, s, r, e, c, end);
    }
  }

  lemma TransferPhase(w: Codecs, s: SenderConfig, r: ReceiverConfig, terms: Terms)
    requires w.Lawful()
    ensures Concludes(w, s, r, Transfers(terms),
                      Calm(AwaitStatus(terms), Receiving(terms, RX_INIT), SendFiles(w, terms.tokens, s.queue) + [DELIMITER], []))
  {
    hide Drain, Receive, OnMessage, Expected, EndsOffered, Concludes, SendFiles, Responses, Answers;
    var ms := SendFiles(w, terms.tokens, s.queue) + [DELIMITER];
    var cx := Context(w, r, terms);
    var run := Receive(cx, RX_INIT, ms);
    TransferRoundTrip(cx, s.queue);
    DrainReceiving(w, r, terms, RX_INIT, ms);
    StatusPhase(w, s, r, terms, AfterRun(terms, run), run.out);
    RightReads(w, s, r, Transfers(terms), AwaitStatus(terms), Receiving(terms, RX_INIT), ms);
  }

  lemma ListPhase(w: Codecs, s: SenderConfig, r: ReceiverConfig, nonce: Bytes, right: ReceiverState)
    requires w.Lawful()
    requires Drain(ReceiverProgram(w, r), right, Offer(w, s, nonce).out) == (Decide(w, r, nonce, s.files), [])
    ensures Concludes(w, s, r, ByChoice(s, r, nonce), Calm(AwaitFileList(nonce, []), right, Offer(w, s, nonce).out, []))
  {
    var left := AwaitFileList(nonce, []);
    var e := ByChoice(s, r, nonce);
    Answered(w, s, r, nonce);
    hide Drain, Concludes, ByChoice, Decide, Framed;
    RightReads(w, s, r, e, left, right, Offer(w, s, nonce).out);
  }

  /** The receiver's user has decided. */
  lemma Answered(w: Codecs, s: SenderConfig, r: ReceiverConfig, nonce: Bytes)
    requires w.Lawful()
    ensures var d := Decide(w, r, nonce, s.files);
            Concludes(w, s, r, ByChoice(s, r, nonce), Calm(AwaitFileList(nonce, []), d.next, [], d.out))
  {
    hide Drain, Concludes, Framed, Expected, EndsOffered;
    var left := AwaitFileList(nonce, []);
    var e := ByChoice(s, r, nonce);
    var d := Decide(w, r, nonce, s.files);
    match r.choose(s.files) {
      case Dropped =>
        Undecided(w, s, r, nonce);
      case Refused =>
        SenderReadsList(w, s, nonce, w.fileList.show(ListDeclined));
        Ended(w, s, r, e, Calm(SenderDone(SenderDeclined), d.next, [], []));
        LeftReads(w, s, r, e, left, d.next, d.out);
      case Chosen(tokens) =>
        SenderReadsList(w, s, nonce, w.fileList.show(ListOk(tokens)));
        TransferPhase(w, s, r, Terms(nonce, s.files, tokens));
        LeftReads(w, s, r, e, left, d.next, d.out);
    }
  }

  lemma Undecided(w: Codecs, s: SenderConfig, r: ReceiverConfig, nonce: Bytes)
    requires w.Lawful()
    ensures Concludes(w, s, r, UserAway, Calm(AwaitFileList(nonce, []), ReceiverDone(NoAnswer), [], []))
  {
    var left, right := AwaitFileList(nonce, []), ReceiverDone(NoAnswer);
    var end := Calm(SenderDone(SenderFailed(BadFileList)), right, [], []);
    CloseLeft(Peers(w, s, r), left, right, []);
    assert OnSender(w, s, left, None) == Fails(BadFileList, []) && [] + Fails(BadFileList, []).out == [];
    Ended(w, s, r, UserAway, end);
    Onward(w, s, r, UserAway, Calm(left, right, [], []), end);
  }

  lemma SenderReadsPin(w: Codecs, s: SenderConfig, nonce: Bytes, i: nat, pin: string)
    requires w.Lawful() && s.pin.Some?
    ensures Drain(SenderProgram(w, s), AwaitPin(nonce, i), [Text(w.pin.show(PinMessage(pin)))])
         == (Judge(w, s, s.pin.value, nonce, pin, i + 1, false), [])
  {
    hide Drain;
    DrainOne(SenderProgram(w, s), AwaitPin(nonce, i), Text(w.pin.show(PinMessage(pin))));
  }

  lemma ReceiverGaveUp(w: Codecs, s: SenderConfig, r: ReceiverConfig, nonce: Bytes, i: nat)
    ensures Concludes(w, s, r, PinMissing(false), Calm(AwaitPin(nonce, i), ReceiverDone(ReceiverFailed(NoPinGiven)), [], []))
  {
    var left, right := AwaitPin(nonce, i), ReceiverDone(ReceiverFailed(NoPinGiven));
    var failed := Fails(BadPinMessage, []);
    CloseLeft(Peers(w, s, r), left, right, []);
    assert OnSender(w, s, left, None) == failed && [] + failed.out == [];
    Ended(w, s, r, PinMissing(false), Calm(failed.next, right, [], []));
    Onward(w, s, r, PinMissing(false), Calm(left, right, [], []), Calm(failed.next, right, [], []));
  }

  lemma BothRefuse(w: Codecs, s: SenderConfig, r: ReceiverConfig)
    ensures Concludes(w, s, r, PinExhausted(true), Calm(SenderDone(SenderFailed(PinRefusedByPeer)), ReceiverDone(ReceiverFailed(PinRefused)), [], []))
    ensures Concludes(w, s, r, PinExhausted(false), Calm(SenderDone(SenderFailed(PinRefused)), ReceiverDone(ReceiverFailed(PinRefusedByPeer)), [], []))
  {
    hide Concludes;
    Ended(w, s, r, PinExhausted(true), Calm(SenderDone(SenderFailed(PinRefusedByPeer)), ReceiverDone(ReceiverFailed(PinRefused)), [], []));
    Ended(w, s, r, PinExhausted(false), Calm(SenderDone(SenderFailed(PinRefused)), ReceiverDone(ReceiverFailed(PinRefusedByPeer)), [], []));
  }

  lemma SenderGaveUp(w: Codecs, s: SenderConfig, r: ReceiverConfig, nonce: Bytes, i: nat)
    ensures Concludes(w, s, r, PinMissing(true), Calm(SenderDone(SenderFailed(NoPinGiven)), AwaitSenderPin(nonce, i), [], []))
  {
    var left, right := SenderDone(SenderFailed(NoPinGiven)), AwaitSenderPin(nonce, i);
    var failed := Aborts(BadPinMessage, []);
    CloseRight(Peers(w, s, r), left, right, []);
    assert OnReceiver(w, r, right, None) == failed && [] + failed.out == [];
    Ended(w, s, r, PinMissing(true), Calm(left, failed.next, [], []));
    Onward(w, s, r, PinMissing(true), Calm(left, right, [], []), Calm(left, failed.next, [], []));
  }

  /** The sender waits for the receiver's next PIN. */
  lemma {:induction false} SenderVerifies(w: Codecs, s: SenderConfig, r: ReceiverConfig, nonce: Bytes, i: nat)
    requires w.Lawful() && s.pin.Some? && s.pin.value.pin != "" && i < s.pin.value.maxTries
    ensures var q := AskReceiver(w, r, nonce, i);
            Concludes(w, s, r, AtSender(s, r, nonce, i), Calm(AwaitPin(nonce, i), q.next, [], q.out))
    decreases s.pin.value.maxTries - i
  {
    hide Drain, Concludes, Describes, Framed, ByChoice, Decide, OnSender, OnReceiver;
    var p := s.pin.value;
    var q := AskReceiver(w, r, nonce, i);
    var e := AtSender(s, r, nonce, i);
    if r.answers(i).None? {
      ReceiverGaveUp(w, s, r, nonce, i);
    } else {
      var pin := r.answers(i).value;
      var j := Judge(w, s, p, nonce, pin, i + 1, false);
      SenderReadsPin(w, s, nonce, i, pin);
      if pin == p.pin {
        ReceiverReadsVerdict(w, r, nonce, i + 1, w.pinSending.show(SendingOk(s.files)));
        ListPhase(w, s, r, nonce, q.next);
      } else if i + 1 >= p.maxTries {
        ReceiverReadsVerdict(w, r, nonce, i + 1, w.pinSending.show(SendingTooManyAttempts));
        assert Tried(p, r.answers, i + 1) == UsedUp && e == PinExhausted(false);
        assert OnVerdict(w, r, nonce, i + 1, w.pinSending.show(SendingTooManyAttempts)) == Aborts(PinRefusedByPeer, []);
        BothRefuse(w, s, r);
        RightReads(w, s, r, e, j.next, q.next, j.out);
      } else {
        ReceiverReadsVerdict(w, r, nonce, i + 1, w.pinSending.show(SendingPinRequired));
        SenderVerifies(w, s, r, nonce, i + 1);
        RightReads(w, s, r, e, j.next, q.next, j.out);
      }
      LeftReads(w, s, r, e, AwaitPin(nonce, i), q.next, q.out);
    }
  }

  /** The receiver waits for the sender's offer, or its challenge. */
  lemma OwnPhase(w: Codecs, s: SenderConfig, r: ReceiverConfig, nonce: Bytes)
    requires w.Lawful()
    ensures var q := OwnChallenge(w, s, nonce);
            Concludes(w, s, r, BySenderPin(s, r, nonce), Calm(q.next, AwaitOffer(nonce, []), q.out, []))
  {
    hide Drain, Concludes, Describes, Framed, ByChoice, AtSender, Decide;
    var q := OwnChallenge(w, s, nonce);
    var e := BySenderPin(s, r, nonce);
    if s.pin.None? || s.pin.value.pin == "" {
      ReceiverReadsOffer(w, r, nonce, w.pinSending.show(SendingOk(s.files)));
      ListPhase(w, s, r, nonce, AwaitOffer(nonce, []));
    } else if s.pin.value.maxTries == 0 {
      ReceiverReadsOffer(w, r, nonce, w.pinSending.show(SendingTooManyAttempts));
      ReceiverFollows(w, s, r, PinRefused, ReceiverDone(ReceiverFailed(BadOffer)), []);
      RightReads(w, s, r, e, q.next, AwaitOffer(nonce, []), q.out);
    } else {
      ReceiverReadsOffer(w, r, nonce, w.pinSending.show(SendingPinRequired));
      SenderVerifies(w, s, r, nonce, 0);
      RightReads(w, s, r, e, q.next, AwaitOffer(nonce, []), q.out);
    }
  }

  /** The sender gives its i-th answer and the receiver replies with one message. */
  lemma TextRound(w: Codecs, s: SenderConfig, r: ReceiverConfig, e: Ending, nonce: Bytes, i: nat)
    requires w.Lawful() && r.pin.Some? && s.answers(i).Some?
    requires var j := Examine(w, r.pin.value, nonce, s.answers(i).value, i + 1);
             && |j.out| == 1
             && var k := OnPinReply(w, s, nonce, i + 1, Some(j.out[0]));
                Concludes(w, s, r, e, Calm(k.next, j.next, k.out, []))
    ensures var q := AskUser(w, s, nonce, i);
            Concludes(w, s, r, e, Calm(q.next, AwaitSenderPin(nonce, i), q.out, []))
  {
    hide Drain, Concludes, Examine, OnPinReply;
    var q := AskUser(w, s, nonce, i);
    var j := Examine(w, r.pin.value, nonce, s.answers(i).value, i + 1);
    DrainOne(ReceiverProgram(w, r), AwaitSenderPin(nonce, i), q.out[0]);
    assert ReceiverProgram(w, r).on(AwaitSenderPin(nonce, i), Some(q.out[0])) == j;
    DrainOne(SenderProgram(w, s), q.next, j.out[0]);
    assert SenderProgram(w, s).on(q.next, Some(j.out[0])) == OnPinReply(w, s, nonce, i + 1, Some(j.out[0]));
    assert j.out == [j.out[0]];
    LeftReads(w, s, r, e, q.next, j.next, j.out);
    RightReads(w, s, r, e, q.next, AwaitSenderPin(nonce, i), q.out);
  }

  /** The receiver waits for the sender's next PIN. */
  lemma {:induction false} ReceiverVerifies(w: Codecs, s: SenderConfig, r: ReceiverConfig, nonce: Bytes, i: nat)
    requires w.Lawful() && r.pin.Some? && r.pin.value.pin != "" && i < r.pin.value.maxTries
    ensures var q := AskUser(w, s, nonce, i);
            Concludes(w, s, r, AtReceiver(s, r, nonce, i), Calm(q.next, AwaitSenderPin(nonce, i), q.out, []))
    decreases r.pin.value.maxTries - i
  {
    hide Concludes, Describes, BySenderPin, OwnChallenge;
    var p := r.pin.value;
    if s.answers(i).None? {
      SenderGaveUp(w, s, r, nonce, i);
    } else if s.answers(i).value == p.pin {
      OwnPhase(w, s, r, nonce);
      TextRound(w, s, r, BySenderPin(s, r, nonce), nonce, i);
    } else if i + 1 >= p.maxTries {
      assert Tried(p, s.answers, i + 1) == UsedUp;
      BothRefuse(w, s, r);
      TextRound(w, s, r, PinExhausted(true), nonce, i);
    } else {
      ReceiverVerifies(w, s, r, nonce, i + 1);
      TextRound(w, s, r, AtReceiver(s, r, nonce, i + 1), nonce, i);
    }
  }

  /** An empty PIN: the receiver has already accepted, and takes the sender's PIN message for the end of its offer. */
  lemma EmptyReceiverPin(w: Codecs, s: SenderConfig, r: ReceiverConfig, nonce: Bytes)
    requires w.Lawful()
    ensures var q := AskUser(w, s, nonce, 0);
            Concludes(w, s, r, HandshakeFails,
                      Calm(q.next, AwaitOffer(nonce, []), q.out, [Text(w.pinReceiving.show(ReceivingOk))]))
  {
    hide Concludes, Framed, Describes, Reaches, OwnChallenge, Drain;
    var ok := Text(w.pinReceiving.show(ReceivingOk));
    var q := AskUser(w, s, nonce, 0);
    var c := Calm(q.next, AwaitOffer(nonce, []), q.out, [ok]);
    if s.answers(0).None? {
      ReceiverFollows(w, s, r, NoPinGiven, AwaitOffer(nonce, []), [ok]);
    } else {
      var own := OwnChallenge(w, s, nonce);
      DrainOne(SenderProgram(w, s), q.next, ok);
      DrainLeft(Peers(w, s, r), q.next, AwaitOffer(nonce, []), q.out, [ok]);
      PinForOffer(w, s, r, nonce, q.out[0]);
      assert q.out == [q.out[0]];
      Onward(w, s, r, HandshakeFails, c, Calm(own.next, AwaitOffer(nonce, []), q.out + own.out, []));
    }
  }

  /** The sender has read the acceptance; its PIN is still on the way. */
  lemma PinForOffer(w: Codecs, s: SenderConfig, r: ReceiverConfig, nonce: Bytes, pin: Message)
    requires w.Lawful() && pin.Text?
    ensures var own := OwnChallenge(w, s, nonce);
            Concludes(w, s, r, HandshakeFails, Calm(own.next, AwaitOffer(nonce, []), [pin] + own.out, []))
  {
    hide Concludes, Framed, Describes, Reaches, Drain;
    var own := OwnChallenge(w, s, nonce);
    var failed := Aborts(BadOffer, []);
    DrainHalting(ReceiverProgram(w, r), AwaitOffer(nonce, []), pin, own.out);
    assert w.pinSending.parse([]).None?;
    assert ReceiverProgram(w, r).on(AwaitOffer(nonce, []), Some(pin)) == failed;
    SenderFollows(w, s, r, own.next, BadOffer, own.out);
    RightReads(w, s, r, HandshakeFails, own.next, AwaitOffer(nonce, []), [pin] + own.out);
  }

  /** The receiver has read the sender's token. */
  lemma TokenPhase(w: Codecs, s: SenderConfig, r: ReceiverConfig)
    requires w.Lawful()
    ensures var nonce := s.nonce + r.nonce;
            var q := OnToken(w, r, nonce, Some(Text(w.tokenRequest.show(TokenRequest(s.token(nonce))))));
            Concludes(w, s, r, EndingOf(s, r), Calm(AwaitTokenResponse(nonce), q.next, [], q.out))
  {
    hide Concludes, Drain, Describes, Framed, BySenderPin, OwnChallenge, Examine;
    var nonce := s.nonce + r.nonce;
    var q := OnToken(w, r, nonce, Some(Text(w.tokenRequest.show(TokenRequest(s.token(nonce))))));
    if TokenPanics(r.expects, s.token(nonce), nonce) {
      SenderFollows(w, s, r, AwaitTokenResponse(nonce), TokenPanic, []);
    } else if !TokenPasses(r.expects, s.token(nonce), nonce) {
      TokenAnswered(w, s, r, nonce, q.out[0]);
      SenderFollows(w, s, r, OnTokenResponse(w, s, nonce, Some(q.out[0])).next, TokenRefused, []);
      LeftReads(w, s, r, HandshakeFails, AwaitTokenResponse(nonce), q.next, q.out);
    } else if !TokenPasses(s.expects, r.token(nonce), nonce) {
      TokenNotGood(w, s, r, nonce);
    } else if r.pin.None? {
      TokenAnswered(w, s, r, nonce, q.out[0]);
      OwnPhase(w, s, r, nonce);
      LeftReads(w, s, r, BySenderPin(s, r, nonce), AwaitTokenResponse(nonce), q.next, q.out);
    } else {
      ChallengePhase(w, s, r, nonce, q.out[0]);
    }
  }

  lemma TokenAnswered(w: Codecs, s: SenderConfig, r: ReceiverConfig, nonce: Bytes, first: Message)
    ensures Drain(SenderProgram(w, s), AwaitTokenResponse(nonce), [first]) == (OnTokenResponse(w, s, nonce, Some(first)), [])
  {
    DrainOne(SenderProgram(w, s), AwaitTokenResponse(nonce), first);
  }

  /** The receiver is content, but its own token is not. */
  lemma TokenNotGood(w: Codecs, s: SenderConfig, r: ReceiverConfig, nonce: Bytes)
    requires w.Lawful()
    requires TokenPasses(r.expects, s.token(nonce), nonce) && !TokenPasses(s.expects, r.token(nonce), nonce)
    ensures var q := OnToken(w, r, nonce, Some(Text(w.tokenRequest.show(TokenRequest(s.token(nonce))))));
            Concludes(w, s, r, HandshakeFails, Calm(AwaitTokenResponse(nonce), q.next, [], q.out))
  {
    var q := OnToken(w, r, nonce, Some(Text(w.tokenRequest.show(TokenRequest(s.token(nonce))))));
    var first := q.out[0];
    var left := AwaitTokenResponse(nonce);
    var why := TokenFailure(s.expects, r.token(nonce), nonce);
    var failed := Fails(why, []);
    assert OnSender(w, s, left, Some(first)) == failed;
    ReceiverFollows(w, s, r, why, q.next, q.out[1..]);
    hide Concludes, OnToken, OnSender;
    OneRead(w, s, r, left, q.next, first, q.out[1..]);
    assert [first] + q.out[1..] == q.out && [] + failed.out == failed.out;
    Onward(w, s, r, HandshakeFails, Calm(left, q.next, [], q.out), Calm(failed.next, q.next, failed.out, q.out[1..]));
  }

  /** Both tokens are good and the receiver asks for a PIN. */
  lemma ChallengePhase(w: Codecs, s: SenderConfig, r: ReceiverConfig, nonce: Bytes, first: Message)
    requires w.Lawful() && r.pin.Some?
    requires OnTokenResponse(w, s, nonce, Some(first)) == AskUser(w, s, nonce, 0)
    ensures var x := Examine(w, r.pin.value, nonce, "", 0);
            Concludes(w, s, r, ByReceiverPin(s, r, nonce), Calm(AwaitTokenResponse(nonce), x.next, [], [first] + x.out))
  {
    hide Concludes, Framed, BySenderPin, OnTokenResponse, Drain;
    var p := r.pin.value;
    var e := ByReceiverPin(s, r, nonce);
    var left := AwaitTokenResponse(nonce);
    var x := Examine(w, p, nonce, "", 0);
    var ask := AskUser(w, s, nonce, 0);
    var c := Calm(left, x.next, [], [first] + x.out);
    var d := Calm(ask.next, x.next, ask.out, x.out);
    assert Reaches(Peers(w, s, r), c, d) by {
      OneRead(w, s, r, left, x.next, first, x.out);
      assert [] + ask.out == ask.out;
    }
    if p.pin == "" {
      EmptyReceiverPin(w, s, r, nonce);
    } else if p.maxTries == 0 {
      if s.answers(0).None? {
        ReceiverFollows(w, s, r, NoPinGiven, x.next, x.out);
      } else {
        var tooMany := x.out[0];
        DrainOne(SenderProgram(w, s), ask.next, tooMany);
        DrainLeft(Peers(w, s, r), ask.next, x.next, ask.out, x.out);
        var end := Calm(SenderDone(SenderFailed(PinRefusedByPeer)), x.next, ask.out + [], []);
        Ended(w, s, r, e, end);
        Onward(w, s, r, e, d, end);
      }
    } else {
      ReceiverVerifies(w, s, r, nonce, 0);
    }
    Onward(w, s, r, e, c, d);
  }

  /** Left reads one message and sends its reaction. */
  lemma OneRead(w: Codecs, s: SenderConfig, r: ReceiverConfig, left: SenderState, right: ReceiverState, m: Message, rest: seq<Message>)
    requires !left.SenderDone?
    ensures var q := OnSender(w, s, left, Some(m));
            Reaches(Peers(w, s, r), Calm(left, right, [], [m] + rest), Calm(q.next, right, [] + q.out, rest))
  {
    var sys := Peers(w, s, r);
    var c := Calm(left, right, [], [m] + rest);
    var q := OnSender(w, s, left, Some(m));
    var d := c.(left := q.next, leftOut := q.out, toLeft := rest);
    assert ([m] + rest)[1..] == rest;
    ReachesStep(sys, LeftMoves, c, d);
    FlushLeft(sys, d);
    ReachesTrans(sys, c, d, Calm(q.next, right, [] + q.out, rest));
  }

  // ---- The theorem ----

  /**
   * Whatever the tokens, PINs, users, files and queue, and in whatever order the two peers move: the session
   * is finite, never deadlocks, and ends in one place only, described by `EndingOf`.
   */
  lemma SessionEnds(w: Codecs, s: SenderConfig, r: ReceiverConfig)
    requires Honest(w, s, r)
    ensures exists end :: AlwaysEndsIn(Peers(w, s, r), Start(w, s), end) && Describes(w, s, r, EndingOf(s, r), end)
  {
    hide EndingOf, OnToken, Describes, Drain, ReadNonce, NonceText;
    var sys := Peers(w, s, r);
    var e := EndingOf(s, r);
    var nonce := s.nonce + r.nonce;
    var mine, theirs := NonceText(w, s.nonce), NonceText(w, r.nonce);
    ReadNonceText(w, s.nonce);
    ReadNonceText(w, r.nonce);
    var request := Text(w.tokenRequest.show(TokenRequest(s.token(nonce))));
    TokenPhase(w, s, r);
    DrainOne(ReceiverProgram(w, r), AwaitToken(nonce), request);
    RightReads(w, s, r, e, AwaitTokenResponse(nonce), AwaitToken(nonce), [request]);
    DrainOne(SenderProgram(w, s), AwaitNonce, theirs);
    LeftReads(w, s, r, e, AwaitNonce, AwaitToken(nonce), [theirs]);
    DrainOne(ReceiverProgram(w, r), AwaitSenderNonce, mine);
    RightReads(w, s, r, e, AwaitNonce, AwaitSenderNonce, [mine]);
    FlushLeft(sys, Start(w, s));
    assert [] + [mine] == [mine];
    Onward(w, s, r, e, Start(w, s), Calm(AwaitNonce, AwaitSenderNonce, [mine], []));
    var end :| Reaches(sys, Start(w, s), end) && Quiescent(sys, end) && Describes(w, s, r, e, end);
    EveryRunEndsThere(sys, Start(w, s), end);
  }

  /** An empty PIN of the receiver makes every interleaving of every session fail, whatever the user answers. */
  lemma EmptyReceiverPinNeverWorks(w: Codecs, s: SenderConfig, r: ReceiverConfig)
    requires Honest(w, s, r) && r.pin.Some? && r.pin.value.pin == ""
    ensures exists end :: AlwaysEndsIn(Peers(w, s, r), Start(w, s), end) && Describes(w, s, r, HandshakeFails, end)
  {
    SessionEnds(w, s, r);
    assert EndingOf(s, r) == HandshakeFails;
  }

  // ---- What holds on the way ----

  function SenderTerms(p: SenderState): Option<Terms> {
    match p
    case AwaitStatus(terms) => Some(terms)
    case SenderDone(Sent(terms, _)) => Some(terms)
    case _ => None
  }

  function ReceiverTerms(p: ReceiverState): Option<Terms> {
    match p
    case Receiving(terms, _) => Some(terms)
    case ReceiverDone(Received(terms, _)) => Some(terms)
    case ReceiverDone(CutOff(terms, _)) => Some(terms)
    case ReceiverDone(Broken(terms, _)) => Some(terms)
    case _ => None
  }

  /** `a` can still become `b`: the same files in the same order, each holding a first part of the same blocks. */
  ghost predicate GrowsTo(a: seq<Delivered>, b: seq<Delivered>) {
    && |a| <= |b|
    && (forall i :: 0 <= i < |a| ==> a[i].id == b[i].id && a[i].size == b[i].size && a[i].blocks <= b[i].blocks)
  }

  /** All that has come or is coming to the sender since it entered the transfer. */
  function ToSender(c: Session): seq<Message> {
    match c.left
    case SenderDone(Sent(_, Some(status))) => [status] + (c.toLeft + c.rightOut)
    case _ => c.toLeft + c.rightOut
  }

  /** Terms, once settled, what has been handed out and what has been answered stay. */
  ghost predicate Keeps(c: Session, d: Session) {
    && (SenderTerms(c.left).Some? ==> SenderTerms(d.left) == SenderTerms(c.left) && ToSender(c) <= ToSender(d))
    && (ReceiverTerms(c.right).Some? ==> ReceiverTerms(d.right) == ReceiverTerms(c.right))
    && GrowsTo(RxOf(c.right).delivered, RxOf(d.right).delivered)
  }

  lemma SenderKeeps(w: Codecs, s: SenderConfig, p: SenderState, m: Option<Message>)
    requires SenderTerms(p).Some?
    ensures SenderTerms(OnSender(w, s, p, m).next) == SenderTerms(p)
    ensures p.AwaitStatus? ==> OnSender(w, s, p, m).next == SenderDone(Sent(p.terms, m))
  {
  }

  lemma ReceiverKeeps(w: Codecs, r: ReceiverConfig, p: ReceiverState, m: Option<Message>)
    requires p.Receiving? ==> ValidRx(p.rx)
    ensures var q := OnReceiver(w, r, p, m).next;
            && (q.Receiving? ==> ValidRx(q.rx))
            && (ReceiverTerms(p).Some? ==> ReceiverTerms(q) == ReceiverTerms(p))
            && GrowsTo(RxOf(p).delivered, RxOf(q).delivered)
  {
    if p.Receiving? && m.Some? {
      var cx := Context(w, r, p.terms);
      var step := OnMessage(cx, p.rx, m.value);
      assert GrowsTo(p.rx.delivered, step.rx.delivered);
    }
  }

  lemma SenderReadsAnswer(w: Codecs, s: SenderConfig, r: ReceiverConfig, c: Session)
    requires Step(Peers(w, s, r), LeftMoves, c).Some? && SenderTerms(c.left).Some?
    ensures ToSender(c) == ToSender(Step(Peers(w, s, r), LeftMoves, c).value)
  {
    hide OnSender, OnReceiver;
    if c.leftOut == [] && c.toLeft != [] {
      SenderKeeps(w, s, c.left, Some(c.toLeft[0]));
      assert c.toLeft + c.rightOut == [c.toLeft[0]] + (c.toLeft[1..] + c.rightOut);
    } else if c.leftOut == [] {
      SenderKeeps(w, s, c.left, None);
    }
  }

  lemma ReceiverAnswers(w: Codecs, s: SenderConfig, r: ReceiverConfig, c: Session)
    requires Step(Peers(w, s, r), RightMoves, c).Some?
    ensures var d := Step(Peers(w, s, r), RightMoves, c).value;
            d.left == c.left && c.toLeft + c.rightOut <= d.toLeft + d.rightOut
  {
    hide OnSender, OnReceiver;
    var d := Step(Peers(w, s, r), RightMoves, c).value;
    if c.rightOut != [] {
      assert c.rightOut == [c.rightOut[0]] + c.rightOut[1..];
      assert d.toLeft + d.rightOut == c.toLeft + c.rightOut;
    } else {
      assert c.toLeft + c.rightOut == c.toLeft;
    }
  }

  lemma StepAnswers(w: Codecs, s: SenderConfig, r: ReceiverConfig, who: Who, c: Session)
    requires Step(Peers(w, s, r), who, c).Some? && SenderTerms(c.left).Some?
    ensures ToSender(c) <= ToSender(Step(Peers(w, s, r), who, c).value)
  {
    hide Step;
    match who {
      case LeftMoves => SenderReadsAnswer(w, s, r, c);
      case RightMoves => ReceiverAnswers(w, s, r, c);
    }
  }

  lemma StepKeeps(w: Codecs, s: SenderConfig, r: ReceiverConfig, who: Who, c: Session)
    requires Step(Peers(w, s, r), who, c).Some?
    requires c.right.Receiving? ==> ValidRx(c.right.rx)
    ensures var d := Step(Peers(w, s, r), who, c).value;
            Keeps(c, d) && (d.right.Receiving? ==> ValidRx(d.right.rx))
  {
    hide OnSender, OnReceiver, ToSender;
    if SenderTerms(c.left).Some? {
      StepAnswers(w, s, r, who, c);
      SenderKeeps(w, s, c.left, None);
      if c.toLeft != [] {
        SenderKeeps(w, s, c.left, Some(c.toLeft[0]));
      }
    }
    ReceiverKeeps(w, r, c.right, None);
    if c.toRight != [] {
      ReceiverKeeps(w, r, c.right, Some(c.toRight[0]));
    }
  }

  lemma {:induction false} RunKeeps(w: Codecs, s: SenderConfig, r: ReceiverConfig, schedule: seq<Who>, c: Session)
    requires Run(Peers(w, s, r), schedule, c).Some?
    requires c.right.Receiving? ==> ValidRx(c.right.rx)
    ensures var d := Run(Peers(w, s, r), schedule, c).value;
            Keeps(c, d) && (d.right.Receiving? ==> ValidRx(d.right.rx))
    decreases |schedule|
  {
    hide Step, ToSender;
    if schedule != [] {
      StepKeeps(w, s, r, schedule[0], c);
      RunKeeps(w, s, r, schedule[1..], Step(Peers(w, s, r), schedule[0], c).value);
    }
  }

  lemma EndSettlesTerms(w: Codecs, s: SenderConfig, r: ReceiverConfig, e: Ending, d: Session, end: Session)
    requires Keeps(d, end) && Describes(w, s, r, e, end)
    ensures SenderTerms(d.left).Some? ==> e == Transfers(SenderTerms(d.left).value)
    ensures ReceiverTerms(d.right).Some? ==> e == Transfers(ReceiverTerms(d.right).value)
    ensures RxOf(d.right).delivered != [] ==> e.Transfers? && GrowsTo(RxOf(d.right).delivered, Expected(e.terms, s.queue))
    ensures SenderTerms(d.left).Some? ==> ToSender(d) <= Responses(Context(w, r, e.terms), Expected(e.terms, s.queue))
  {
    hide Expected, EndsOffered, Responses, Context;
    assert e.Transfers? || RxOf(end.right) == RX_INIT;
    if e.Transfers? {
      var responses := Responses(Context(w, r, e.terms), Expected(e.terms, s.queue));
      assert end.toLeft + end.rightOut == Tail(responses);
      assert ToSender(end) == responses;
    }
  }

  /**
   * In every reachable state of every interleaving: if either peer has entered the transfer, the session as a
   * whole ends in a transfer on exactly the terms that peer holds, so two peers in the transfer agree on nonce,
   * file list and tokens; what has been handed out so far is a first part of what should arrive; and for a
   * sender in the transfer nothing of the handshake is left: only answers to files have come or are on their way.
   */
  lemma AgreementOnTheWay(w: Codecs, s: SenderConfig, r: ReceiverConfig, d: Session)
    requires Honest(w, s, r) && Reaches(Peers(w, s, r), Start(w, s), d)
    ensures SenderTerms(d.left).Some? ==> EndingOf(s, r) == Transfers(SenderTerms(d.left).value)
    ensures ReceiverTerms(d.right).Some? ==> EndingOf(s, r) == Transfers(ReceiverTerms(d.right).value)
    ensures RxOf(d.right).delivered != [] ==>
      EndingOf(s, r).Transfers? && GrowsTo(RxOf(d.right).delivered, Expected(EndingOf(s, r).terms, s.queue))
    ensures SenderTerms(d.left).Some? ==>
      var terms := SenderTerms(d.left).value;
      ToSender(d) <= Responses(Context(w, r, terms), Expected(terms, s.queue))
  {
    hide EndingOf, Expected, EndsOffered, Describes, Keeps, Step, GrowsTo, ToSender, Responses;
    SessionEnds(w, s, r);
    var sys := Peers(w, s, r);
    var end :| AlwaysEndsIn(sys, Start(w, s), end) && Describes(w, s, r, EndingOf(s, r), end);
    var before :| Run(sys, before, Start(w, s)) == Some(d);
    RunKeeps(w, s, r, before, Start(w, s));
    assert Reaches(sys, d, end);
    var after :| Run(sys, after, d) == Some(end);
    RunKeeps(w, s, r, after, d);
    EndSettlesTerms(w, s, r, EndingOf(s, r), d, end);
  }
}
