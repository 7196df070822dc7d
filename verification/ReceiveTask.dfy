/** The body of `accept_offer`'s task as it is written, step by step, against the program of module `Receiver`. */
module ReceiveTask {
  import opened Prelude
  import opened Wire
  import opened Framing
  import opened Pin
  import opened Network
  import opened Tasks
  import opened ReceiveLoop
  import opened Sender
  import opened Receiver

  function Rank(s: ReceiverState): nat {
    match s
    case ReceiverDone(_) => 0
    case Receiving(_, _) => 1
    case AwaitVerdict(_, _, buffer) => if buffer == [] then 2 else 3
    case AwaitOffer(_, _) => 4
    case _ => 5
  }

  /** No document is empty, so once the channel is closed the program asks for at most one more PIN. */
  lemma ClosedChannelRanks(w: Codecs, cfg: ReceiverConfig, s: ReceiverState)
    requires !s.ReceiverDone? && w.pinSending.parse([]).None?
    ensures Rank(OnReceiver(w, cfg, s, None).next) < Rank(s)
  {
  }

  function ReceiverTask(w: Codecs, cfg: ReceiverConfig): (t: Task<ReceiverState>)
    requires w.pinSending.parse([]).None?
    ensures Ends(t)
  {
    var t := Task(ReceiverProgram(w, cfg), Rank);
    assert Ends(t) by {
      forall s | !t.program.halted(s) ensures t.rank(t.program.on(s, None).next) < t.rank(s) {
        ClosedChannelRanks(w, cfg, s);
      }
    }
    t
  }

  lemma ReceiverProceeds(w: Codecs, cfg: ReceiverConfig, sent: seq<Message>, r: ReceiverReaction, inbox: seq<Message>)
    requires w.pinSending.parse([]).None?
    ensures From(ReceiverTask(w, cfg), sent, r, inbox)
         == if r.next.ReceiverDone? then Outcome(r.next, sent + r.out)
            else From(ReceiverTask(w, cfg), sent + r.out, OnReceiver(w, cfg, r.next, First(inbox)), Tail(inbox))
  {
    hide OnReceiver, From;
    Proceed(ReceiverTask(w, cfg), sent, r, inbox);
  }

  lemma {:induction false} OfferIsFramed(w: Codecs, cfg: ReceiverConfig, sent: seq<Message>, nonce: Bytes, buffer: Bytes, inbox: seq<Message>)
    requires w.pinSending.parse([]).None?
    ensures var (text, rest) := ReadString(buffer, inbox);
            var t := ReceiverTask(w, cfg);
            From(t, sent, Reaction(AwaitOffer(nonce, buffer), []), inbox) == From(t, sent, OnOffer(w, cfg, nonce, text), rest)
    decreases |inbox|
  {
    hide OnOffer, From, ReceiverTask;
    ReceiverProceeds(w, cfg, sent, Reaction(AwaitOffer(nonce, buffer), []), inbox);
    assert sent + [] == sent;
    if inbox != [] && inbox[0].Binary? {
      OfferIsFramed(w, cfg, sent, nonce, buffer + inbox[0].data, inbox[1..]);
    }
  }

  lemma {:induction false} VerdictIsFramed(w: Codecs, cfg: ReceiverConfig, sent: seq<Message>, nonce: Bytes, asked: nat,
                                           buffer: Bytes, inbox: seq<Message>)
    requires w.pinSending.parse([]).None?
    ensures var (text, rest) := ReadString(buffer, inbox);
            var t := ReceiverTask(w, cfg);
            From(t, sent, Reaction(AwaitVerdict(nonce, asked, buffer), []), inbox) == From(t, sent, OnVerdict(w, cfg, nonce, asked, text), rest)
    decreases |inbox|
  {
    hide OnVerdict, From, ReceiverTask;
    ReceiverProceeds(w, cfg, sent, Reaction(AwaitVerdict(nonce, asked, buffer), []), inbox);
    assert sent + [] == sent;
    if inbox != [] && inbox[0].Binary? {
      VerdictIsFramed(w, cfg, sent, nonce, asked, buffer + inbox[0].data, inbox[1..]);
    }
  }

  /** The receiver's reading of a reply to its PIN; the file list itself is the acceptance. */
  function ParseReply(w: Codecs): Bytes -> Challenge<seq<FileDto>> {
    b => match w.pinSending.parse(b)
      case None => Unparsable
      case Some(SendingOk(files)) => Passed(files)
      case Some(SendingPinRequired) => Again
      case Some(SendingTooManyAttempts) => TooManyTries
  }

  ghost predicate Matches(w: Codecs, cfg: ReceiverConfig, sent: seq<Message>, nonce: Bytes, asked: nat, inbox: seq<Message>)
    requires w.pinSending.parse([]).None?
  {
    var h := Handle(w, cfg.answers, asked, true, ParseReply(w), inbox);
    var o := From(ReceiverTask(w, cfg), sent, AskReceiver(w, cfg, nonce, asked), inbox);
    match h.result
    case Success(files) => o == From(ReceiverTask(w, cfg), sent + h.out, Decide(w, cfg, nonce, files), h.rest)
    case Failed(why) => o == Outcome(ReceiverDone(ReceiverFailed(why)), sent + h.out)
  }

  /** Answering the sender's challenge is `handle_pin` on framed replies. */
  lemma {:induction false} AskingIsHandlePin(w: Codecs, cfg: ReceiverConfig, sent: seq<Message>, nonce: Bytes, asked: nat, inbox: seq<Message>)
    requires w.pinSending.parse([]).None?
    ensures Matches(w, cfg, sent, nonce, asked, inbox)
    decreases |inbox|
  {
    hide From, ReceiverTask, Decide, ReadString;
    var q := AskReceiver(w, cfg, nonce, asked);
    if cfg.answers(asked).None? {
      ReceiverProceeds(w, cfg, sent, q, inbox);
    } else {
      var (text, rest) := ReadString([], inbox);
      FromPrefix(ReceiverTask(w, cfg), sent, q, inbox);
      VerdictIsFramed(w, cfg, sent + q.out, nonce, asked + 1, [], inbox);
      var reply := w.pinSending.parse(text);
      if reply == None || reply == Some(SendingTooManyAttempts) {
        ReceiverProceeds(w, cfg, sent + q.out, OnVerdict(w, cfg, nonce, asked + 1, text), rest);
        assert sent + q.out + [] == sent + q.out;
      } else if reply == Some(SendingPinRequired) {
        ReadStringShrinks([], inbox);
        AskingIsHandlePin(w, cfg, sent + q.out, nonce, asked + 1, rest);
        var h := Handle(w, cfg.answers, asked + 1, true, ParseReply(w), rest);
        assert sent + q.out + h.out == sent + (q.out + h.out);
      }
    }
  }

  ghost predicate VerifyMatches(w: Codecs, cfg: ReceiverConfig, sent: seq<Message>, nonce: Bytes, remotePin: string, tries: nat, inbox: seq<Message>)
    requires w.pinSending.parse([]).None? && cfg.pin.Some?
  {
    var v := Verify(w, cfg.pin.value, TextNotices(w), remotePin, tries, false, inbox);
    var o := From(ReceiverTask(w, cfg), sent, Examine(w, cfg.pin.value, nonce, remotePin, tries), inbox);
    match v.failure
    case None =>
      o == From(ReceiverTask(w, cfg), sent + v.out + [Text(w.pinReceiving.show(ReceivingOk))], Reaction(AwaitOffer(nonce, []), []), v.rest)
    case Some(why) => o == Outcome(ReceiverDone(ReceiverFailed(why)), sent + v.out)
  }

  /** The receiver's challenge is `verify_pin`, followed by the acceptance. */
  lemma {:induction false} ExaminingIsVerifyPin(w: Codecs, cfg: ReceiverConfig, sent: seq<Message>, nonce: Bytes,
                                                remotePin: string, tries: nat, inbox: seq<Message>)
    requires w.pinSending.parse([]).None? && cfg.pin.Some?
    ensures VerifyMatches(w, cfg, sent, nonce, remotePin, tries, inbox)
    decreases |inbox|
  {
    hide From, ReceiverTask, TextNotices;
    var p := cfg.pin.value;
    var q := Examine(w, p, nonce, remotePin, tries);
    match CheckPin(p, TextNotices(w), remotePin, tries, false) {
      case Accepted =>
        FromPrefix(ReceiverTask(w, cfg), sent, q, inbox);
        assert sent + [] == sent;
      case Rejected(out) => ReceiverProceeds(w, cfg, sent, q, inbox);
      case Ask(out) =>
        ReceiverProceeds(w, cfg, sent, q, inbox);
        if inbox == [] || w.pin.parse(inbox[0].data).None? {
          ReceiverProceeds(w, cfg, sent + out, OnSenderPin(w, cfg, nonce, tries, First(inbox)), Tail(inbox));
          assert sent + out + [] == sent + out;
        } else {
          var pin := w.pin.parse(inbox[0].data).value.pin;
          ExaminingIsVerifyPin(w, cfg, sent + out, nonce, pin, tries + 1, inbox[1..]);
          var v := Verify(w, p, TextNotices(w), pin, tries + 1, false, inbox[1..]);
          assert sent + out + v.out == sent + (out + v.out);
        }
    }
  }

  function EndOf(terms: Terms, rx: RxState, verdict: Verdict): ReceiverEnd {
    match verdict
    case Continue => CutOff(terms, rx)
    case Complete => Received(terms, rx)
    case BadHeader => Broken(terms, rx)
  }

  /** The program's last state is the receive loop. */
  lemma {:induction false} ReceivingIsTheLoop(w: Codecs, cfg: ReceiverConfig, sent: seq<Message>, terms: Terms, rx: RxState, inbox: seq<Message>)
    requires w.pinSending.parse([]).None? && ValidRx(rx)
    ensures var r := Receive(Context(w, cfg, terms), rx, inbox);
            From(ReceiverTask(w, cfg), sent, Reaction(Receiving(terms, rx), []), inbox)
            == Outcome(ReceiverDone(EndOf(terms, r.rx, r.verdict)), sent + r.out)
    decreases |inbox|
  {
    hide OnMessage, From, ReceiverTask;
    ReceiverProceeds(w, cfg, sent, Reaction(Receiving(terms, rx), []), inbox);
    assert sent + [] == sent;
    var q := OnReceiver(w, cfg, Receiving(terms, rx), First(inbox));
    if inbox == [] {
      ReceiverProceeds(w, cfg, sent, q, []);
    } else {
      var s := OnMessage(Context(w, cfg, terms), rx, inbox[0]);
      if s.verdict == Continue {
        FromPrefix(ReceiverTask(w, cfg), sent, q, inbox[1..]);
        ReceivingIsTheLoop(w, cfg, sent + s.out, terms, s.rx, inbox[1..]);
        var r := Receive(Context(w, cfg, terms), s.rx, inbox[1..]);
        assert sent + s.out + r.out == sent + (s.out + r.out);
      } else {
        ReceiverProceeds(w, cfg, sent, q, inbox[1..]);
      }
    }
  }

  // ---- Whoever the peer is ----

  /** Nonce, token and, if a PIN is set, a right PIN in time, all at the front of the inbox. */
  ghost predicate Admits(w: Codecs, cfg: ReceiverConfig, inbox: seq<Message>) {
    && |inbox| >= 2
    && ReadNonce(w, Some(inbox[0])).Some?
    && inbox[1].Text? && w.tokenRequest.parse(inbox[1].data).Some?
    && var token, nonce := w.tokenRequest.parse(inbox[1].data).value.token, ReadNonce(w, Some(inbox[0])).value + cfg.nonce;
    && (cfg.expects.Some? ==> cfg.expects.value(token, nonce).Accepted?)
    && (cfg.pin.Some? && cfg.pin.value.pin != "" ==>
          exists k :: AnsweredAt(w, cfg.pin.value, inbox[2..], 0, k))
  }

  /** The ends of a receiver that has come to read an offer. */
  predicate OfferAwaited(end: ReceiverEnd) {
    end.ReceiverFailed? ==> end.why in {BadOffer, NoPinGiven, BadPinReply, PinRefusedByPeer}
  }

  ghost predicate GivesUp(o: Outcome<ReceiverState>) {
    o.end.ReceiverDone? && !OfferAwaited(o.end.end)
  }

  /** The run goes through the reading of an offer. */
  ghost predicate ComesToOffer(w: Codecs, cfg: ReceiverConfig, nonce: Bytes, o: Outcome<ReceiverState>)
    requires w.pinSending.parse([]).None?
  {
    exists sent, rest :: o == From(ReceiverTask(w, cfg), sent, Reaction(AwaitOffer(nonce, []), []), rest)
  }

  /** The end and all messages of a receiver whose user is offered the files, with `inbox` still to come. */
  ghost predicate EndsByChoice(w: Codecs, cfg: ReceiverConfig, sent: seq<Message>, nonce: Bytes, files: seq<FileDto>, inbox: seq<Message>,
                               o: Outcome<ReceiverState>)
  {
    match cfg.choose(files)
    case Dropped => o == Outcome(ReceiverDone(NoAnswer), sent)
    case Refused => o == Outcome(ReceiverDone(ReceiverDeclined), sent + Framed(w.fileList.show(ListDeclined)))
    case Chosen(tokens) =>
      var terms := Terms(nonce, files, tokens);
      var run := Receive(RxContext(w, terms, cfg.results), RX_INIT, inbox);
      && o.end == ReceiverDone(match run.verdict
                               case Continue => CutOff(terms, run.rx)
                               case Complete => Received(terms, run.rx)
                               case BadHeader => Broken(terms, run.rx))
      && o.out == sent + Framed(w.fileList.show(ListOk(tokens))) + run.out
  }

  /** What follows from the user's choice: nothing, a refusal, or the tokens and the receive loop. */
  lemma DecisionOutcome(w: Codecs, cfg: ReceiverConfig, sent: seq<Message>, nonce: Bytes, files: seq<FileDto>, inbox: seq<Message>)
    requires w.pinSending.parse([]).None?
    ensures EndsByChoice(w, cfg, sent, nonce, files, inbox, From(ReceiverTask(w, cfg), sent, Decide(w, cfg, nonce, files), inbox))
  {
    hide From, ReceiverTask, Receive, Framed;
    var q := Decide(w, cfg, nonce, files);
    if q.next.ReceiverDone? {
      ReceiverProceeds(w, cfg, sent, q, inbox);
      assert sent + [] == sent;
    } else {
      FromPrefix(ReceiverTask(w, cfg), sent, q, inbox);
      ReceivingIsTheLoop(w, cfg, sent + q.out, q.next.terms, RX_INIT, inbox);
    }
  }

  /** The run after a first framed string from the sender, with `rest` after it. */
  ghost predicate GoesOn(w: Codecs, cfg: ReceiverConfig, sent: seq<Message>, nonce: Bytes, text: Bytes, rest: seq<Message>,
                         o: Outcome<ReceiverState>)
    requires w.pinSending.parse([]).None?
  {
    match w.pinSending.parse(text)
    case None => o == Outcome(ReceiverDone(ReceiverFailed(BadOffer)), sent)
    case Some(offer) =>
      match offer
      case SendingOk(files) => EndsByChoice(w, cfg, sent, nonce, files, rest, o)
      case SendingTooManyAttempts => o == Outcome(ReceiverDone(ReceiverFailed(BadOffer)), sent)
      case SendingPinRequired =>
        var h := Handle(w, cfg.answers, 0, true, ParseReply(w), rest);
        match h.result
        case Success(files) => EndsByChoice(w, cfg, sent + h.out, nonce, files, h.rest, o)
        case Failed(why) => o == Outcome(ReceiverDone(ReceiverFailed(why)), sent + h.out)
  }

  /** What follows from the first framed string: the choice, the user's PINs and then the choice, or failure. */
  lemma OfferOutcome(w: Codecs, cfg: ReceiverConfig, sent: seq<Message>, nonce: Bytes, inbox: seq<Message>)
    requires w.pinSending.parse([]).None?
    ensures var (text, rest) := ReadString([], inbox);
            GoesOn(w, cfg, sent, nonce, text, rest, From(ReceiverTask(w, cfg), sent, Reaction(AwaitOffer(nonce, []), []), inbox))
  {
    hide From, ReceiverTask, Decide, Handle, AskReceiver, EndsByChoice;
    OfferIsFramed(w, cfg, sent, nonce, [], inbox);
    var (text, rest) := ReadString([], inbox);
    assert sent + [] == sent;
    match w.pinSending.parse(text) {
      case None => ReceiverProceeds(w, cfg, sent, OnOffer(w, cfg, nonce, text), rest);
      case Some(SendingTooManyAttempts) => ReceiverProceeds(w, cfg, sent, OnOffer(w, cfg, nonce, text), rest);
      case Some(SendingOk(files)) => DecisionOutcome(w, cfg, sent, nonce, files, rest);
      case Some(SendingPinRequired) =>
        AskingIsHandlePin(w, cfg, sent, nonce, 0, rest);
        assert Matches(w, cfg, sent, nonce, 0, rest);
        var h := Handle(w, cfg.answers, 0, true, ParseReply(w), rest);
        if h.result.Success? {
          DecisionOutcome(w, cfg, sent + h.out, nonce, h.result.value, h.rest);
        }
    }
  }

  /** A token that does not pass: the refusal is sent if the check returns, nothing if it panics. */
  lemma BadTokenOutcome(w: Codecs, cfg: ReceiverConfig, sent: seq<Message>, nonce: Bytes, token: string, inbox: seq<Message>)
    requires w.Lawful() && cfg.expects.Some? && !cfg.expects.value(token, nonce).Accepted?
    ensures From(ReceiverTask(w, cfg), sent, OnToken(w, cfg, nonce, Some(Text(w.tokenRequest.show(TokenRequest(token))))), inbox)
         == if cfg.expects.value(token, nonce).Panics? then Outcome(ReceiverDone(ReceiverFailed(TokenPanic)), sent)
            else Outcome(ReceiverDone(ReceiverFailed(TokenRefused)), sent + [Text(w.tokenResponse.show(TokenInvalidSignature))])
  {
    hide From, ReceiverTask;
    var q := OnToken(w, cfg, nonce, Some(Text(w.tokenRequest.show(TokenRequest(token)))));
    ReceiverProceeds(w, cfg, sent, q, inbox);
    assert sent + [] == sent;
  }

  /** Every run through the reading of an offer shows it in its end. */
  lemma OfferShows(w: Codecs, cfg: ReceiverConfig, sent: seq<Message>, nonce: Bytes, inbox: seq<Message>)
    requires w.pinSending.parse([]).None?
    ensures var o := From(ReceiverTask(w, cfg), sent, Reaction(AwaitOffer(nonce, []), []), inbox);
            o.end.ReceiverDone? && OfferAwaited(o.end.end)
  {
    hide From, ReceiverTask, Handle, Receive;
    OfferOutcome(w, cfg, sent, nonce, inbox);
    var (text, rest) := ReadString([], inbox);
    HandleFailures(w, cfg.answers, 0, true, ParseReply(w), rest);
  }

  lemma ComesMeans(w: Codecs, cfg: ReceiverConfig, nonce: Bytes, o: Outcome<ReceiverState>)
    requires w.pinSending.parse([]).None? && ComesToOffer(w, cfg, nonce, o)
    ensures o.end.ReceiverDone? && OfferAwaited(o.end.end)
  {
    hide From, ReceiverTask;
    var sent, rest :| o == From(ReceiverTask(w, cfg), sent, Reaction(AwaitOffer(nonce, []), []), rest);
    OfferShows(w, cfg, sent, nonce, rest);
  }

  lemma OfferComes(w: Codecs, cfg: ReceiverConfig, sent: seq<Message>, nonce: Bytes, inbox: seq<Message>)
    requires w.pinSending.parse([]).None?
    ensures ComesToOffer(w, cfg, nonce, From(ReceiverTask(w, cfg), sent, Reaction(AwaitOffer(nonce, []), []), inbox))
  {
  }

  /**
   * Against any peer: the receiver comes to read an offer exactly if it admits the peer, and its end tells
   * which; otherwise it fails before, with no file handed out.
   */
  lemma OnlyAdmittedPeers(w: Codecs, cfg: ReceiverConfig, sent: seq<Message>, inbox: seq<Message>)
    requires w.pinSending.parse([]).None?
    ensures var o := From(ReceiverTask(w, cfg), sent, Reaction(RECEIVER_START, []), inbox);
            && o.end.ReceiverDone?
            && (OfferAwaited(o.end.end) <==> Admits(w, cfg, inbox))
            && (forall nonce :: ComesToOffer(w, cfg, nonce, o) ==> Admits(w, cfg, inbox))
            && (Admits(w, cfg, inbox) ==> ComesToOffer(w, cfg, ReadNonce(w, Some(inbox[0])).value + cfg.nonce, o))
  {
    NonceDecides(w, cfg, sent, inbox);
    hide From, ReceiverTask, Admits, ComesToOffer;
    var o := From(ReceiverTask(w, cfg), sent, Reaction(RECEIVER_START, []), inbox);
    forall nonce | ComesToOffer(w, cfg, nonce, o) ensures !GivesUp(o) && o.end.ReceiverDone? {
      ComesMeans(w, cfg, nonce, o);
    }
  }

  lemma NonceDecides(w: Codecs, cfg: ReceiverConfig, sent: seq<Message>, inbox: seq<Message>)
    requires w.pinSending.parse([]).None?
    ensures var o := From(ReceiverTask(w, cfg), sent, Reaction(RECEIVER_START, []), inbox);
            if Admits(w, cfg, inbox) then ComesToOffer(w, cfg, ReadNonce(w, Some(inbox[0])).value + cfg.nonce, o) else GivesUp(o)
  {
    hide From, ReceiverTask, Examine, AnsweredAt, ComesToOffer;
    ReceiverProceeds(w, cfg, sent, Reaction(RECEIVER_START, []), inbox);
    var first := OnReceiver(w, cfg, AwaitSenderNonce, First(inbox));
    ReceiverProceeds(w, cfg, sent + [], first, Tail(inbox));
    if First(inbox).Some? && ReadNonce(w, First(inbox)).Some? {
      var nonce := ReadNonce(w, First(inbox)).value + cfg.nonce;
      TokenDecides(w, cfg, sent + [] + first.out, nonce, Tail(inbox));
      if |inbox| >= 2 {
        assert inbox[1..][0] == inbox[1] && inbox[1..][1..] == inbox[2..];
      }
    }
  }

  /** The same from the token on. */
  lemma TokenDecides(w: Codecs, cfg: ReceiverConfig, sent: seq<Message>, nonce: Bytes, inbox: seq<Message>)
    requires w.pinSending.parse([]).None?
    ensures var o := From(ReceiverTask(w, cfg), sent, OnToken(w, cfg, nonce, First(inbox)), Tail(inbox));
            if && inbox != [] && inbox[0].Text? && w.tokenRequest.parse(inbox[0].data).Some?
               && TokenPasses(cfg.expects, w.tokenRequest.parse(inbox[0].data).value.token, nonce)
               && (cfg.pin.Some? && cfg.pin.value.pin != "" ==> exists k :: AnsweredAt(w, cfg.pin.value, inbox[1..], 0, k))
            then ComesToOffer(w, cfg, nonce, o) else GivesUp(o)
  {
    hide From, ReceiverTask, Examine, AnsweredAt, ComesToOffer;
    var q := OnToken(w, cfg, nonce, First(inbox));
    ReceiverProceeds(w, cfg, sent, q, Tail(inbox));
    if inbox != [] && inbox[0].Text? && w.tokenRequest.parse(inbox[0].data).Some?
       && TokenPasses(cfg.expects, w.tokenRequest.parse(inbox[0].data).value.token, nonce)
    {
      FromPrefix(ReceiverTask(w, cfg), sent, q, inbox[1..]);
      if cfg.pin.None? {
        OfferComes(w, cfg, sent + q.out, nonce, inbox[1..]);
      } else {
        var reply := [Text(w.tokenResponse.show(TokenPinRequired(cfg.token(nonce))))];
        var x := Examine(w, cfg.pin.value, nonce, "", 0);
        FromPrefix(ReceiverTask(w, cfg), sent + reply, x, inbox[1..]);
        assert sent + q.out == sent + reply + x.out;
        PinDecides(w, cfg, sent + reply, nonce, inbox[1..]);
      }
    }
  }

  lemma PinDecides(w: Codecs, cfg: ReceiverConfig, sent: seq<Message>, nonce: Bytes, inbox: seq<Message>)
    requires w.pinSending.parse([]).None? && cfg.pin.Some?
    ensures var o := From(ReceiverTask(w, cfg), sent, Examine(w, cfg.pin.value, nonce, "", 0), inbox);
            if cfg.pin.value.pin != "" ==> exists k :: AnsweredAt(w, cfg.pin.value, inbox, 0, k)
            then ComesToOffer(w, cfg, nonce, o) else GivesUp(o)
  {
    hide From, ReceiverTask, Examine, AnsweredAt, ComesToOffer, Verify;
    var p := cfg.pin.value;
    var v := Verify(w, p, TextNotices(w), "", 0, false, inbox);
    ExaminingIsVerifyPin(w, cfg, sent, nonce, "", 0, inbox);
    VerifyFailures(w, p, TextNotices(w), "", 0, false, inbox);
    OfferComes(w, cfg, sent + v.out + [Text(w.pinReceiving.show(ReceivingOk))], nonce, v.rest);
    if p.pin != "" {
      VerifyAnyInbox(w, p, TextNotices(w), "", 0, false, inbox);
    } else {
      Try(w, p, TextNotices(w), "", 0, false, inbox, []);
    }
  }

  // ---- The task as it is written ----

  method AcceptOffer(ch: DataChannel, w: Codecs, cfg: ReceiverConfig) returns (end: ReceiverEnd)
    requires w.pinSending.parse([]).None?
    modifies ch
    ensures var o := From(ReceiverTask(w, cfg), old(ch.sent), Reaction(RECEIVER_START, []), old(ch.inbox));
            o == Outcome(ReceiverDone(end), ch.sent)
    ensures OfferAwaited(end) <==> Admits(w, cfg, old(ch.inbox))
  {
    hide Admits, OfferAwaited, ComesToOffer;
    OnlyAdmittedPeers(w, cfg, ch.sent, ch.inbox);
    ghost var o := From(ReceiverTask(w, cfg), ch.sent, Reaction(RECEIVER_START, []), ch.inbox);
    ReceiverProceeds(w, cfg, ch.sent, Reaction(RECEIVER_START, []), ch.inbox);
    assert ch.sent + [] == ch.sent;
    var m := ch.Recv();
    var remote := ReadNonce(w, m);
    if remote.None? {
      return ReceiverFailed(BadNonce);
    }
    var nonce := remote.value + cfg.nonce;
    ghost var hello := Reaction(AwaitToken(nonce), [NonceText(w, cfg.nonce)]);
    assert o == From(ReceiverTask(w, cfg), ch.sent, hello, ch.inbox);
    ReceiverProceeds(w, cfg, ch.sent, hello, ch.inbox);
    ch.Send(NonceText(w, cfg.nonce));
    m := ch.Recv();
    assert o == From(ReceiverTask(w, cfg), ch.sent, OnToken(w, cfg, nonce, m), ch.inbox);
    end := AcceptToken(ch, w, cfg, nonce, m);
  }

  method AcceptToken(ch: DataChannel, w: Codecs, cfg: ReceiverConfig, nonce: Bytes, m: Option<Message>) returns (end: ReceiverEnd)
    requires w.pinSending.parse([]).None?
    modifies ch
    ensures var o := From(ReceiverTask(w, cfg), old(ch.sent), OnToken(w, cfg, nonce, m), old(ch.inbox));
            o == Outcome(ReceiverDone(end), ch.sent)
  {
    ghost var o := From(ReceiverTask(w, cfg), ch.sent, OnToken(w, cfg, nonce, m), ch.inbox);
    if m.None? || m.value.Binary? {
      return ReceiverFailed(BadTokenMessage);
    }
    var request := w.tokenRequest.parse(m.value.data);
    if request.None? {
      return ReceiverFailed(BadTokenMessage);
    }
    if TokenPanics(cfg.expects, request.value.token, nonce) {
      return ReceiverFailed(TokenPanic);
    }
    if !TokenPasses(cfg.expects, request.value.token, nonce) {
      ch.Send(Text(w.tokenResponse.show(TokenInvalidSignature)));
      return ReceiverFailed(TokenRefused);
    }
    var local := cfg.token(nonce);
    if cfg.pin.Some? {
      ghost var reply := [Text(w.tokenResponse.show(TokenPinRequired(local)))];
      ghost var examine := Examine(w, cfg.pin.value, nonce, "", 0);
      assert o == From(ReceiverTask(w, cfg), ch.sent + reply, examine, ch.inbox) by {
        assert ch.sent + (reply + examine.out) == ch.sent + reply + examine.out;
      }
      ch.Send(Text(w.tokenResponse.show(TokenPinRequired(local))));
      ExaminingIsVerifyPin(w, cfg, ch.sent, nonce, "", 0, ch.inbox);
      var failure := VerifyPin(ch, w, cfg.pin.value, TextNotices(w), false);
      if failure.Some? {
        return ReceiverFailed(failure.value);
      }
      ch.Send(Text(w.pinReceiving.show(ReceivingOk)));
    } else {
      FromPrefix(ReceiverTask(w, cfg), ch.sent, OnToken(w, cfg, nonce, m), ch.inbox);
      ch.Send(Text(w.tokenResponse.show(TokenOk(local))));
    }
    assert o == From(ReceiverTask(w, cfg), ch.sent, Reaction(AwaitOffer(nonce, []), []), ch.inbox);
    end := TakeOffer(ch, w, cfg, nonce);
  }

  method TakeOffer(ch: DataChannel, w: Codecs, cfg: ReceiverConfig, nonce: Bytes) returns (end: ReceiverEnd)
    requires w.pinSending.parse([]).None?
    modifies ch
    ensures var o := From(ReceiverTask(w, cfg), old(ch.sent), Reaction(AwaitOffer(nonce, []), []), old(ch.inbox));
            o == Outcome(ReceiverDone(end), ch.sent)
  {
    ghost var o := From(ReceiverTask(w, cfg), ch.sent, Reaction(AwaitOffer(nonce, []), []), ch.inbox);
    OfferIsFramed(w, cfg, ch.sent, nonce, [], ch.inbox);
    var text := ReceiveStringFromChunks(ch);
    assert o == From(ReceiverTask(w, cfg), ch.sent, OnOffer(w, cfg, nonce, text), ch.inbox);
    var files: seq<FileDto>;
    match w.pinSending.parse(text) {
      case None => return ReceiverFailed(BadOffer);
      case Some(SendingTooManyAttempts) => return ReceiverFailed(BadOffer);
      case Some(SendingOk(offered)) => files := offered;
      case Some(SendingPinRequired) =>
        AskingIsHandlePin(w, cfg, ch.sent, nonce, 0, ch.inbox);
        assert Matches(w, cfg, ch.sent, nonce, 0, ch.inbox);
        var passed := HandlePin(ch, w, cfg.answers, true, ParseReply(w));
        if passed.Failed? {
          return ReceiverFailed(passed.why);
        }
        files := passed.value;
    }
    assert o == From(ReceiverTask(w, cfg), ch.sent, Decide(w, cfg, nonce, files), ch.inbox);
    end := ChooseAndReceive(ch, w, cfg, nonce, files);
  }

  method ChooseAndReceive(ch: DataChannel, w: Codecs, cfg: ReceiverConfig, nonce: Bytes, files: seq<FileDto>) returns (end: ReceiverEnd)
    requires w.pinSending.parse([]).None?
    modifies ch
    ensures var o := From(ReceiverTask(w, cfg), old(ch.sent), Decide(w, cfg, nonce, files), old(ch.inbox));
            o == Outcome(ReceiverDone(end), ch.sent)
  {
    match cfg.choose(files) {
      case Dropped => return NoAnswer;
      case Refused =>
        SendStringInChunks(ch, w.fileList.show(ListDeclined));
        SendDelimiter(ch);
        return ReceiverDeclined;
      case Chosen(tokens) =>
        var terms := Terms(nonce, files, tokens);
        FromPrefix(ReceiverTask(w, cfg), ch.sent, Decide(w, cfg, nonce, files), ch.inbox);
        SendStringInChunks(ch, w.fileList.show(ListOk(tokens)));
        SendDelimiter(ch);
        assert ch.sent == old(ch.sent) + Framed(w.fileList.show(ListOk(tokens)));
        ReceivingIsTheLoop(w, cfg, ch.sent, terms, RX_INIT, ch.inbox);
        var rx, verdict := ReceiveFiles(ch, Context(w, cfg, terms));
        return EndOf(terms, rx, verdict);
    }
  }
}
