/** The body of `send_offer`'s task as it is written, step by step, against the program of module `Sender`. */
module SendTask {
  import opened Prelude
  import opened Chunking
  import opened Wire
  import opened Framing
  import opened Pin
  import opened Network
  import opened Tasks
  import opened ReceiveLoop
  import opened Sender
  import Transfer

  function Rank(s: SenderState): nat {
    match s case SenderDone(_) => 0 case AwaitStatus(_) => 1 case AwaitFileList(_, _) => 2 case _ => 3
  }

  lemma ClosedChannelRanks(w: Codecs, cfg: SenderConfig, s: SenderState)
    requires !s.SenderDone?
    ensures Rank(OnSender(w, cfg, s, None).next) < Rank(s)
  {
  }

  function SenderTask(w: Codecs, cfg: SenderConfig): (t: Task<SenderState>)
    ensures Ends(t)
  {
    var t := Task(SenderProgram(w, cfg), Rank);
    assert Ends(t) by {
      forall s | !t.program.halted(s) ensures t.rank(t.program.on(s, None).next) < t.rank(s) {
        ClosedChannelRanks(w, cfg, s);
      }
    }
    t
  }

  lemma SenderProceeds(w: Codecs, cfg: SenderConfig, sent: seq<Message>, r: SenderReaction, inbox: seq<Message>)
    ensures From(SenderTask(w, cfg), sent, r, inbox)
         == if r.next.SenderDone? then Outcome(r.next, sent + r.out)
            else From(SenderTask(w, cfg), sent + r.out, OnSender(w, cfg, r.next, First(inbox)), Tail(inbox))
  {
    hide OnSender, From;
    Proceed(SenderTask(w, cfg), sent, r, inbox);
  }

  /** The list is read as one framed string. */
  lemma {:induction false} ListIsFramed(w: Codecs, cfg: SenderConfig, sent: seq<Message>, nonce: Bytes, buffer: Bytes, inbox: seq<Message>)
    ensures var (text, rest) := ReadString(buffer, inbox);
            var t := SenderTask(w, cfg);
            From(t, sent, Reaction(AwaitFileList(nonce, buffer), []), inbox) == From(t, sent, OnFileList(w, cfg, nonce, text), rest)
    decreases |inbox|
  {
    hide OnFileList, From, SenderTask;
    SenderProceeds(w, cfg, sent, Reaction(AwaitFileList(nonce, buffer), []), inbox);
    assert sent + [] == sent;
    if inbox != [] && inbox[0].Binary? {
      ListIsFramed(w, cfg, sent, nonce, buffer + inbox[0].data, inbox[1..]);
    }
  }

  /** The sender's reading of a reply to its PIN. */
  function ParseReply(w: Codecs): Bytes -> Challenge<()> {
    b => match w.pinReceiving.parse(b)
      case None => Unparsable
      case Some(ReceivingOk) => Passed(())
      case Some(ReceivingPinRequired) => Again
      case Some(ReceivingTooManyAttempts) => TooManyTries
  }

  ghost predicate Matches(w: Codecs, cfg: SenderConfig, sent: seq<Message>, nonce: Bytes, asked: nat, inbox: seq<Message>)
    requires ParseReply(w)([]).Unparsable?
  {
    var h := Handle(w, cfg.answers, asked, false, ParseReply(w), inbox);
    var o := From(SenderTask(w, cfg), sent, AskUser(w, cfg, nonce, asked), inbox);
    match h.result
    case Success(_) => o == From(SenderTask(w, cfg), sent + h.out, OwnChallenge(w, cfg, nonce), h.rest)
    case Failed(why) => o == Outcome(SenderDone(SenderFailed(why)), sent + h.out)
  }

  /** Answering the receiver's challenge is `handle_pin`. */
  lemma {:induction false} AskingIsHandlePin(w: Codecs, cfg: SenderConfig, sent: seq<Message>, nonce: Bytes, asked: nat, inbox: seq<Message>)
    requires ParseReply(w)([]).Unparsable?
    ensures Matches(w, cfg, sent, nonce, asked, inbox)
    decreases |inbox|
  {
    hide OwnChallenge, From, SenderTask, ReadString;
    var q := AskUser(w, cfg, nonce, asked);
    SenderProceeds(w, cfg, sent, q, inbox);
    if cfg.answers(asked).Some? {
      var reply := if inbox == [] || inbox[0].Binary? then None else w.pinReceiving.parse(inbox[0].data);
      if reply == None || reply == Some(ReceivingTooManyAttempts) {
        SenderProceeds(w, cfg, sent + q.out, OnPinReply(w, cfg, nonce, asked + 1, First(inbox)), Tail(inbox));
        assert sent + q.out + [] == sent + q.out;
      } else if reply == Some(ReceivingPinRequired) {
        var rest := inbox[1..];
        AskingIsHandlePin(w, cfg, sent + q.out, nonce, asked + 1, rest);
        var h := Handle(w, cfg.answers, asked + 1, false, ParseReply(w), rest);
        assert sent + q.out + h.out == sent + (q.out + h.out);
      }
    }
  }

  /** The sender's own challenge is `verify_pin`. */
  lemma {:induction false} JudgingIsVerifyPin(w: Codecs, cfg: SenderConfig, sent: seq<Message>, nonce: Bytes,
                                              remotePin: string, tries: nat, notice: bool, inbox: seq<Message>)
    requires cfg.pin.Some?
    ensures var v := Verify(w, cfg.pin.value, ChunkedNotices(w), remotePin, tries, notice, inbox);
            var o := From(SenderTask(w, cfg), sent, Judge(w, cfg, cfg.pin.value, nonce, remotePin, tries, notice), inbox);
            match v.failure
            case None => o == From(SenderTask(w, cfg), sent + v.out, Offer(w, cfg, nonce), v.rest)
            case Some(why) => o == Outcome(SenderDone(SenderFailed(why)), sent + v.out)
    decreases |inbox|
  {
    hide Offer, ChunkedNotices, From, SenderTask;
    var p := cfg.pin.value;
    var q := Judge(w, cfg, p, nonce, remotePin, tries, notice);
    var check := CheckPin(p, ChunkedNotices(w), remotePin, tries, notice);
    SenderProceeds(w, cfg, sent, q, inbox);
    if check.Accepted? {
      assert sent + [] == sent;
    } else if check.Ask? {
      var k := OnPin(w, cfg, nonce, tries, First(inbox));
      if inbox == [] || w.pin.parse(inbox[0].data).None? {
        SenderProceeds(w, cfg, sent + q.out, k, Tail(inbox));
        assert sent + q.out + [] == sent + q.out;
      } else {
        var pin := w.pin.parse(inbox[0].data).value.pin;
        JudgingIsVerifyPin(w, cfg, sent + q.out, nonce, pin, tries + 1, false, inbox[1..]);
        var v := Verify(w, p, ChunkedNotices(w), pin, tries + 1, false, inbox[1..]);
        assert sent + q.out + v.out == sent + (q.out + v.out);
      }
    }
  }

  // ---- Whoever the peer is ----

  /** What is left of the inbox when the receiver's challenge, if it made one, is passed. */
  function AfterTheirPin(w: Codecs, cfg: SenderConfig, response: TokenResponse, inbox: seq<Message>): Option<seq<Message>>
    requires ParseReply(w)([]).Unparsable?
  {
    if response.TokenPinRequired? then
      var h := Handle(w, cfg.answers, 0, false, ParseReply(w), inbox);
      if h.result.Success? then Some(h.rest) else None
    else Some(inbox)
  }

  /** A token that passes, the receiver's acceptance if it challenged, and, if a PIN is set, a right PIN in time after it. */
  ghost predicate AdmitsToken(w: Codecs, cfg: SenderConfig, nonce: Bytes, inbox: seq<Message>)
    requires ParseReply(w)([]).Unparsable?
  {
    && inbox != [] && inbox[0].Text? && w.tokenResponse.parse(inbox[0].data).Some?
    && var response := w.tokenResponse.parse(inbox[0].data).value;
    && !response.TokenInvalidSignature?
    && (cfg.expects.Some? ==> cfg.expects.value(response.token, nonce).Accepted?)
    && var rest := AfterTheirPin(w, cfg, response, inbox[1..]);
    && rest.Some?
    && (cfg.pin.Some? && cfg.pin.value.pin != "" ==> exists k :: AnsweredAt(w, cfg.pin.value, rest.value, 0, k))
  }

  ghost predicate Admits(w: Codecs, cfg: SenderConfig, inbox: seq<Message>)
    requires ParseReply(w)([]).Unparsable?
  {
    && inbox != [] && ReadNonce(w, Some(inbox[0])).Some?
    && AdmitsToken(w, cfg, cfg.nonce + ReadNonce(w, Some(inbox[0])).value, inbox[1..])
  }

  /** The ends of a sender that has sent its file list. */
  predicate OfferMade(end: SenderEnd) {
    end.SenderFailed? ==> end.why in {BadFileList, PairNotModelled}
  }

  ghost predicate GivesUp(o: Outcome<SenderState>) {
    o.end.SenderDone? && !OfferMade(o.end.end)
  }

  /** The run goes through the sending of the file list. */
  ghost predicate ComesToOffer(w: Codecs, cfg: SenderConfig, nonce: Bytes, o: Outcome<SenderState>) {
    exists sent, rest :: o == From(SenderTask(w, cfg), sent, Offer(w, cfg, nonce), rest)
  }

  /** The end and all messages of a sender whose file list is answered with a text, with `rest` after it. */
  ghost predicate EndsOn(w: Codecs, cfg: SenderConfig, nonce: Bytes, text: Bytes, rest: seq<Message>, listed: seq<Message>, o: Outcome<SenderState>) {
    match w.fileList.parse(text)
    case None => o == Outcome(SenderDone(SenderFailed(BadFileList)), listed)
    case Some(reply) =>
      match reply
      case ListOk(tokens) =>
        && o.end == SenderDone(Sent(Terms(nonce, cfg.files, tokens), First(rest)))
        && o.out == listed + (SendFiles(w, tokens, cfg.queue) + [Text([48])])
      case ListDeclined => o == Outcome(SenderDone(SenderDeclined), listed)
      case ListPair(_) => o == Outcome(SenderDone(SenderFailed(PairNotModelled)), listed)
      case ListInvalidSignature => o == Outcome(SenderDone(SenderFailed(BadFileList)), listed)
  }

  /** What follows from the sending of the file list, whatever is answered. */
  lemma OfferOutcome(w: Codecs, cfg: SenderConfig, sent: seq<Message>, nonce: Bytes, inbox: seq<Message>)
    ensures var (text, rest) := ReadString([], inbox);
            var listed := sent + Framed(w.pinSending.show(SendingOk(cfg.files)));
            EndsOn(w, cfg, nonce, text, rest, listed, From(SenderTask(w, cfg), sent, Offer(w, cfg, nonce), inbox))
  {
    hide From, SenderTask, SendFiles, Framed;
    var q := Offer(w, cfg, nonce);
    FromPrefix(SenderTask(w, cfg), sent, q, inbox);
    ListIsFramed(w, cfg, sent + q.out, nonce, [], inbox);
    var (text, rest) := ReadString([], inbox);
    var k := OnFileList(w, cfg, nonce, text);
    SenderProceeds(w, cfg, sent + q.out, k, rest);
    assert sent + q.out + [] == sent + q.out;
    if k.next.AwaitStatus? {
      SenderProceeds(w, cfg, sent + q.out + k.out, OnSender(w, cfg, k.next, First(rest)), Tail(rest));
      assert sent + q.out + k.out + [] == sent + q.out + k.out;
    }
  }

  /** A token that does not pass ends the sender with nothing more sent, whether its check refuses or panics. */
  lemma BadTokenOutcome(w: Codecs, cfg: SenderConfig, sent: seq<Message>, nonce: Bytes, response: TokenResponse, inbox: seq<Message>)
    requires w.Lawful() && !response.TokenInvalidSignature?
    requires cfg.expects.Some? && !cfg.expects.value(response.token, nonce).Accepted?
    ensures From(SenderTask(w, cfg), sent, OnTokenResponse(w, cfg, nonce, Some(Text(w.tokenResponse.show(response)))), inbox)
         == Outcome(SenderDone(SenderFailed(if cfg.expects.value(response.token, nonce).Panics? then TokenPanic else TokenRefused)), sent)
  {
    hide From, SenderTask;
    SenderProceeds(w, cfg, sent, OnTokenResponse(w, cfg, nonce, Some(Text(w.tokenResponse.show(response)))), inbox);
    assert sent + [] == sent;
  }

  /** Every run through the sending of the file list shows it in its end. */
  lemma OfferShows(w: Codecs, cfg: SenderConfig, sent: seq<Message>, nonce: Bytes, inbox: seq<Message>)
    ensures var o := From(SenderTask(w, cfg), sent, Offer(w, cfg, nonce), inbox);
            o.end.SenderDone? && OfferMade(o.end.end)
  {
    hide From, SenderTask, Offer;
    OfferOutcome(w, cfg, sent, nonce, inbox);
  }

  /**
   * Against any peer: the sender comes to send its file list exactly if it admits the peer, and its end tells
   * which; otherwise it fails before.
   */
  lemma OnlyAdmittedPeers(w: Codecs, cfg: SenderConfig, sent: seq<Message>, inbox: seq<Message>)
    requires ParseReply(w)([]).Unparsable?
    ensures var o := From(SenderTask(w, cfg), sent, SenderStart(w, cfg), inbox);
            && o.end.SenderDone?
            && (OfferMade(o.end.end) <==> Admits(w, cfg, inbox))
            && (forall nonce :: ComesToOffer(w, cfg, nonce, o) ==> Admits(w, cfg, inbox))
            && (Admits(w, cfg, inbox) ==> ComesToOffer(w, cfg, cfg.nonce + ReadNonce(w, Some(inbox[0])).value, o))
  {
    NonceDecides(w, cfg, sent, inbox);
    hide From, SenderTask, Admits, ComesToOffer;
    var o := From(SenderTask(w, cfg), sent, SenderStart(w, cfg), inbox);
    forall nonce | ComesToOffer(w, cfg, nonce, o) ensures !GivesUp(o) && o.end.SenderDone? {
      ComesMeans(w, cfg, nonce, o);
    }
  }

  lemma ComesMeans(w: Codecs, cfg: SenderConfig, nonce: Bytes, o: Outcome<SenderState>)
    requires ComesToOffer(w, cfg, nonce, o)
    ensures o.end.SenderDone? && OfferMade(o.end.end)
  {
    hide From, SenderTask, Offer;
    var sent, rest :| o == From(SenderTask(w, cfg), sent, Offer(w, cfg, nonce), rest);
    OfferShows(w, cfg, sent, nonce, rest);
  }

  lemma NonceDecides(w: Codecs, cfg: SenderConfig, sent: seq<Message>, inbox: seq<Message>)
    requires ParseReply(w)([]).Unparsable?
    ensures var o := From(SenderTask(w, cfg), sent, SenderStart(w, cfg), inbox);
            if Admits(w, cfg, inbox) then ComesToOffer(w, cfg, cfg.nonce + ReadNonce(w, Some(inbox[0])).value, o) else GivesUp(o)
  {
    hide From, SenderTask, AdmitsToken, ComesToOffer, OnTokenResponse;
    var start := SenderStart(w, cfg);
    SenderProceeds(w, cfg, sent, start, inbox);
    var first := OnSender(w, cfg, AwaitNonce, First(inbox));
    SenderProceeds(w, cfg, sent + start.out, first, Tail(inbox));
    if inbox != [] && ReadNonce(w, First(inbox)).Some? {
      TokenDecides(w, cfg, sent + start.out + first.out, cfg.nonce + ReadNonce(w, First(inbox)).value, Tail(inbox));
    }
  }

  /** The same from the token on. */
  lemma TokenDecides(w: Codecs, cfg: SenderConfig, sent: seq<Message>, nonce: Bytes, inbox: seq<Message>)
    requires ParseReply(w)([]).Unparsable?
    ensures var o := From(SenderTask(w, cfg), sent, OnTokenResponse(w, cfg, nonce, First(inbox)), Tail(inbox));
            if AdmitsToken(w, cfg, nonce, inbox) then ComesToOffer(w, cfg, nonce, o) else GivesUp(o)
  {
    hide From, SenderTask, ComesToOffer, AnsweredAt, AskUser, OwnChallenge, Handle;
    var q := OnTokenResponse(w, cfg, nonce, First(inbox));
    if q.next.SenderDone? && q.next.end.SenderFailed? && q.out == [] {
      SenderProceeds(w, cfg, sent, q, Tail(inbox));
    }
    if inbox != [] && inbox[0].Text? && w.tokenResponse.parse(inbox[0].data).Some? {
      var response := w.tokenResponse.parse(inbox[0].data).value;
      if !response.TokenInvalidSignature? && TokenPasses(cfg.expects, response.token, nonce) {
        var rest := inbox[1..];
        assert q == if response.TokenPinRequired? then AskUser(w, cfg, nonce, 0) else OwnChallenge(w, cfg, nonce);
        hide OnTokenResponse, AfterTheirPin, AnsweredAt;
        TheirPinDecides(w, cfg, sent, nonce, response, rest);
      }
    }
  }

  /** From the receiver's challenge on, if it makes one. */
  lemma TheirPinDecides(w: Codecs, cfg: SenderConfig, sent: seq<Message>, nonce: Bytes, response: TokenResponse, inbox: seq<Message>)
    requires ParseReply(w)([]).Unparsable?
    ensures var q := if response.TokenPinRequired? then AskUser(w, cfg, nonce, 0) else OwnChallenge(w, cfg, nonce);
            var o := From(SenderTask(w, cfg), sent, q, inbox);
            var rest := AfterTheirPin(w, cfg, response, inbox);
            if && rest.Some?
               && (cfg.pin.Some? && cfg.pin.value.pin != "" ==> exists k :: AnsweredAt(w, cfg.pin.value, rest.value, 0, k))
            then ComesToOffer(w, cfg, nonce, o) else GivesUp(o)
  {
    hide From, SenderTask, ComesToOffer, AnsweredAt, AskUser, OwnChallenge, Handle;
    if response.TokenPinRequired? {
      AskingIsHandlePin(w, cfg, sent, nonce, 0, inbox);
      HandleFailures(w, cfg.answers, 0, false, ParseReply(w), inbox);
      var h := Handle(w, cfg.answers, 0, false, ParseReply(w), inbox);
      if h.result.Success? {
        OwnPinDecides(w, cfg, sent + h.out, nonce, h.rest);
      }
    } else {
      OwnPinDecides(w, cfg, sent, nonce, inbox);
    }
  }

  lemma OwnPinDecides(w: Codecs, cfg: SenderConfig, sent: seq<Message>, nonce: Bytes, inbox: seq<Message>)
    ensures var o := From(SenderTask(w, cfg), sent, OwnChallenge(w, cfg, nonce), inbox);
            if cfg.pin.Some? && cfg.pin.value.pin != "" ==> exists k :: AnsweredAt(w, cfg.pin.value, inbox, 0, k)
            then ComesToOffer(w, cfg, nonce, o) else GivesUp(o)
  {
    hide From, SenderTask, ComesToOffer, AnsweredAt, Offer, Verify, Judge, ChunkedNotices;
    if cfg.pin.None? {
      OfferComes(w, cfg, sent, nonce, inbox);
    } else {
      var p := cfg.pin.value;
      var v := Verify(w, p, ChunkedNotices(w), "", 0, true, inbox);
      JudgingIsVerifyPin(w, cfg, sent, nonce, "", 0, true, inbox);
      VerifyFailures(w, p, ChunkedNotices(w), "", 0, true, inbox);
      OfferComes(w, cfg, sent + v.out, nonce, v.rest);
      if p.pin != "" {
        VerifyAnyInbox(w, p, ChunkedNotices(w), "", 0, true, inbox);
      } else {
        Try(w, p, ChunkedNotices(w), "", 0, true, inbox, []);
      }
    }
  }

  lemma OfferComes(w: Codecs, cfg: SenderConfig, sent: seq<Message>, nonce: Bytes, inbox: seq<Message>)
    ensures ComesToOffer(w, cfg, nonce, From(SenderTask(w, cfg), sent, Offer(w, cfg, nonce), inbox))
  {
  }

  // ---- The task as it is written ----

  /** One file of the queue: the header, then the content as it is read. */
  method SendOne(ch: DataChannel, w: Codecs, tokens: map<string, string>, f: QueuedFile)
    modifies ch`sent
    ensures ch.sent == old(ch.sent) + SendFile(w, tokens, f)
  {
    hide Chunks, Binaries, Flatten;
    if f.id in tokens {
      var header := Text(w.header.show(SendFileHeader(f.id, tokens[f.id])));
      ch.Send(header);
      var chunks := ProcessInChunks(f.blocks);
      SendChunks(ch, chunks);
      assert SendFile(w, tokens, f) == [header] + Binaries(chunks);
    }
  }

  /** Every queued file is sent or reported, by its id. */
  lemma {:induction false} SentOrReported(w: Codecs, tokens: map<string, string>, queue: seq<QueuedFile>)
    ensures |Unselected(tokens, queue)| + |Transfer.Segments(w, tokens, queue)| == |queue|
    ensures forall id :: id in Unselected(tokens, queue) <==> id !in tokens && exists f <- queue :: f.id == id
  {
    if queue != [] {
      SentOrReported(w, tokens, queue[1..]);
      assert forall f :: f in queue <==> f == queue[0] || f in queue[1..];
    }
  }

  /** The queued files without a token, in order: each is one report on the error channel. */
  function Unselected(tokens: map<string, string>, queue: seq<QueuedFile>): seq<string> {
    if queue == [] then [] else (if queue[0].id in tokens then [] else [queue[0].id]) + Unselected(tokens, queue[1..])
  }

  method SendQueue(ch: DataChannel, w: Codecs, tokens: map<string, string>, queue: seq<QueuedFile>) returns (reports: seq<string>)
    modifies ch`sent
    ensures ch.sent == old(ch.sent) + SendFiles(w, tokens, queue)
    ensures reports == Unselected(tokens, queue)
  {
    hide SendFile;
    reports := [];
    var i := 0;
    assert queue[0..] == queue;
    while i < |queue|
      invariant 0 <= i <= |queue|
      invariant ch.sent + SendFiles(w, tokens, queue[i..]) == old(ch.sent) + SendFiles(w, tokens, queue)
      invariant reports + Unselected(tokens, queue[i..]) == Unselected(tokens, queue)
    {
      ghost var before, rest := ch.sent, SendFiles(w, tokens, queue[i + 1..]);
      assert queue[i..][1..] == queue[i + 1..];
      if queue[i].id !in tokens {
        reports := reports + [queue[i].id];
      }
      SendOne(ch, w, tokens, queue[i]);
      assert ch.sent + rest == before + (SendFile(w, tokens, queue[i]) + rest);
      i := i + 1;
    }
  }

  method SendOffer(ch: DataChannel, w: Codecs, cfg: SenderConfig) returns (end: SenderEnd)
    requires w.Lawful()
    modifies ch
    ensures var o := From(SenderTask(w, cfg), old(ch.sent), SenderStart(w, cfg), old(ch.inbox));
            o == Outcome(SenderDone(end), ch.sent)
    ensures OfferMade(end) <==> Admits(w, cfg, old(ch.inbox))
  {
    hide Admits, OfferMade, ComesToOffer, OnTokenResponse;
    OnlyAdmittedPeers(w, cfg, ch.sent, ch.inbox);
    ghost var o := From(SenderTask(w, cfg), ch.sent, SenderStart(w, cfg), ch.inbox);
    SenderProceeds(w, cfg, ch.sent, SenderStart(w, cfg), ch.inbox);
    ch.Send(NonceText(w, cfg.nonce));
    var m := ch.Recv();
    var remote := ReadNonce(w, m);
    if remote.None? {
      return SenderFailed(BadNonce);
    }
    var nonce := cfg.nonce + remote.value;
    ghost var asked := Reaction(AwaitTokenResponse(nonce), [Text(w.tokenRequest.show(TokenRequest(cfg.token(nonce))))]);
    assert o == From(SenderTask(w, cfg), ch.sent, asked, ch.inbox);
    SenderProceeds(w, cfg, ch.sent, asked, ch.inbox);
    ch.Send(Text(w.tokenRequest.show(TokenRequest(cfg.token(nonce)))));
    m := ch.Recv();
    assert o == From(SenderTask(w, cfg), ch.sent, OnTokenResponse(w, cfg, nonce, m), ch.inbox);
    end := SendAfterTokens(ch, w, cfg, nonce, m);
  }

  method SendAfterTokens(ch: DataChannel, w: Codecs, cfg: SenderConfig, nonce: Bytes, m: Option<Message>) returns (end: SenderEnd)
    requires w.Lawful()
    modifies ch
    ensures var o := From(SenderTask(w, cfg), old(ch.sent), OnTokenResponse(w, cfg, nonce, m), old(ch.inbox));
            o == Outcome(SenderDone(end), ch.sent)
  {
    ghost var o := From(SenderTask(w, cfg), ch.sent, OnTokenResponse(w, cfg, nonce, m), ch.inbox);
    if m.None? || m.value.Binary? {
      return SenderFailed(BadTokenMessage);
    }
    var response := w.tokenResponse.parse(m.value.data);
    if response.None? {
      return SenderFailed(BadTokenMessage);
    }
    if response.value.TokenInvalidSignature? {
      return SenderFailed(TokenRefusedByPeer);
    }
    if !TokenPasses(cfg.expects, response.value.token, nonce) {
      return SenderFailed(TokenFailure(cfg.expects, response.value.token, nonce));
    }
    if response.value.TokenPinRequired? {
      AskingIsHandlePin(w, cfg, ch.sent, nonce, 0, ch.inbox);
      assert Matches(w, cfg, ch.sent, nonce, 0, ch.inbox);
      var passed := HandlePin(ch, w, cfg.answers, false, ParseReply(w));
      if passed.Failed? {
        return SenderFailed(passed.why);
      }
    }
    assert o == From(SenderTask(w, cfg), ch.sent, OwnChallenge(w, cfg, nonce), ch.inbox);
    end := SendAfterChallenge(ch, w, cfg, nonce);
  }

  method SendAfterChallenge(ch: DataChannel, w: Codecs, cfg: SenderConfig, nonce: Bytes) returns (end: SenderEnd)
    requires w.Lawful()
    modifies ch
    ensures var o := From(SenderTask(w, cfg), old(ch.sent), OwnChallenge(w, cfg, nonce), old(ch.inbox));
            o == Outcome(SenderDone(end), ch.sent)
  {
    ghost var o := From(SenderTask(w, cfg), ch.sent, OwnChallenge(w, cfg, nonce), ch.inbox);
    if cfg.pin.Some? {
      JudgingIsVerifyPin(w, cfg, ch.sent, nonce, "", 0, true, ch.inbox);
      var failure := VerifyPin(ch, w, cfg.pin.value, ChunkedNotices(w), true);
      if failure.Some? {
        return SenderFailed(failure.value);
      }
    }
    assert o == From(SenderTask(w, cfg), ch.sent, Offer(w, cfg, nonce), ch.inbox);
    end := SendFileListAndFiles(ch, w, cfg, nonce);
  }

  method SendFileListAndFiles(ch: DataChannel, w: Codecs, cfg: SenderConfig, nonce: Bytes) returns (end: SenderEnd)
    modifies ch
    ensures var o := From(SenderTask(w, cfg), old(ch.sent), Offer(w, cfg, nonce), old(ch.inbox));
            o == Outcome(SenderDone(end), ch.sent)
  {
    ghost var o := From(SenderTask(w, cfg), ch.sent, Offer(w, cfg, nonce), ch.inbox);
    var list := w.pinSending.show(SendingOk(cfg.files));
    SendStringInChunks(ch, list);
    SendDelimiter(ch);
    assert ch.sent == old(ch.sent) + Framed(list);
    assert o == From(SenderTask(w, cfg), ch.sent, Reaction(AwaitFileList(nonce, []), []), ch.inbox) by {
      assert ch.sent + [] == ch.sent;
    }
    ListIsFramed(w, cfg, ch.sent, nonce, [], ch.inbox);
    var text := ReceiveStringFromChunks(ch);
    assert o == From(SenderTask(w, cfg), ch.sent, OnFileList(w, cfg, nonce, text), ch.inbox);
    match w.fileList.parse(text) {
      case None => return SenderFailed(BadFileList);
      case Some(ListOk(tokens)) =>
        SenderProceeds(w, cfg, ch.sent, OnFileList(w, cfg, nonce, text), ch.inbox);
        var reports := SendQueue(ch, w, tokens, cfg.queue);
        SendDelimiter(ch);
        var status := ch.Recv();
        return Sent(Terms(nonce, cfg.files, tokens), status);
      case Some(ListPair(_)) => return SenderFailed(PairNotModelled);
      case Some(ListDeclined) => return SenderDeclined;
      case Some(ListInvalidSignature) => return SenderFailed(BadFileList);
    }
  }
}
