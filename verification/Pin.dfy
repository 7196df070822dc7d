/** The PIN challenge: the verifying side counts tries, the answering side asks its user again and again. */
module Pin {
  import opened Prelude
  import opened Wire
  import opened Framing

  datatype PinConfig = PinConfig(pin: string, maxTries: u8)

  /** The two replies of the verifying side, as they go over the channel. */
  datatype Notices = Notices(required: seq<Message>, tooMany: seq<Message>)

  function TextNotices(w: Codecs): Notices {
    Notices([Text(w.pinReceiving.show(ReceivingPinRequired))], [Text(w.pinReceiving.show(ReceivingTooManyAttempts))])
  }

  function ChunkedNotices(w: Codecs): Notices {
    Notices(Framed(w.pinSending.show(SendingPinRequired)), Framed(w.pinSending.show(SendingTooManyAttempts)))
  }

  datatype PinCheck = Accepted | Rejected(out: seq<Message>) | Ask(out: seq<Message>)

  /** The top of the loop in `verify_pin`. An empty configured PIN matches before anything is read. */
  function CheckPin(config: PinConfig, n: Notices, remotePin: string, tries: nat, notice: bool): PinCheck {
    if remotePin == config.pin then Accepted
    else if tries >= config.maxTries then Rejected(n.tooMany)
    else Ask(if notice || tries > 0 then n.required else [])
  }

  datatype Verification = Verification(failure: Option<Failure>, out: seq<Message>, rest: seq<Message>)

  /** `verify_pin` over everything that will arrive: its verdict, what it sends and what it leaves unread. */
  function Verify(w: Codecs, config: PinConfig, n: Notices, remotePin: string, tries: nat, notice: bool, inbox: seq<Message>): Verification
    decreases |inbox|
  {
    match CheckPin(config, n, remotePin, tries, notice)
    case Accepted => Verification(None, [], inbox)
    case Rejected(out) => Verification(Some(PinRefused), out, inbox)
    case Ask(out) =>
      if inbox == [] then Verification(Some(BadPinMessage), out, [])
      else match w.pin.parse(inbox[0].data)
        case None => Verification(Some(BadPinMessage), out, inbox[1..])
        case Some(m) =>
          var v := Verify(w, config, n, m.pin, tries + 1, false, inbox[1..]);
          v.(out := out + v.out)
  }

  /** `verify_pin` fails over the PIN, or over a message that is none. */
  lemma {:induction false} VerifyFailures(w: Codecs, config: PinConfig, n: Notices, remotePin: string, tries: nat, notice: bool, inbox: seq<Message>)
    ensures Verify(w, config, n, remotePin, tries, notice, inbox).failure in {None, Some(PinRefused), Some(BadPinMessage)}
    decreases |inbox|
  {
    if inbox != [] && w.pin.parse(inbox[0].data).Some? {
      VerifyFailures(w, config, n, w.pin.parse(inbox[0].data).value.pin, tries + 1, false, inbox[1..]);
    }
  }

  /** What one turn of the loop does to the rest of the challenge. */
  lemma Try(w: Codecs, config: PinConfig, n: Notices, remotePin: string, tries: nat, notice: bool, inbox: seq<Message>, sent: seq<Message>)
    ensures var v := Verify(w, config, n, remotePin, tries, notice, inbox);
            var out := if notice || tries > 0 then n.required else [];
            if remotePin == config.pin then v == Verification(None, [], inbox)
            else if tries >= config.maxTries then v == Verification(Some(PinRefused), n.tooMany, inbox)
            else if inbox == [] then v == Verification(Some(BadPinMessage), out, [])
            else match w.pin.parse(inbox[0].data)
              case None => v == Verification(Some(BadPinMessage), out, inbox[1..])
              case Some(m) =>
                var next := Verify(w, config, n, m.pin, tries + 1, false, inbox[1..]);
                v == next.(out := v.out) && sent + v.out == sent + out + next.out
  {
    var out := if notice || tries > 0 then n.required else [];
    if remotePin != config.pin && tries < config.maxTries && inbox != [] && w.pin.parse(inbox[0].data).Some? {
      var next := Verify(w, config, n, w.pin.parse(inbox[0].data).value.pin, tries + 1, false, inbox[1..]);
      assert sent + (out + next.out) == sent + out + next.out;
    }
  }

  method VerifyPin(ch: DataChannel, w: Codecs, config: PinConfig, n: Notices, sendInitialNotice: bool) returns (failure: Option<Failure>)
    modifies ch
    ensures var v := Verify(w, config, n, "", 0, sendInitialNotice, old(ch.inbox));
            failure == v.failure && ch.sent == old(ch.sent) + v.out && ch.inbox == v.rest
  {
    var remotePin, pinTry: u8, notice := "", 0, sendInitialNotice;
    while true
      invariant notice ==> sendInitialNotice
      invariant var v := Verify(w, config, n, "", 0, sendInitialNotice, old(ch.inbox));
                var now := Verify(w, config, n, remotePin, pinTry, notice, ch.inbox);
                v == now.(out := v.out) && ch.sent + now.out == old(ch.sent) + v.out
      decreases |ch.inbox|
    {
      Try(w, config, n, remotePin, pinTry, notice, ch.inbox, ch.sent);
      hide Verify;
      if remotePin == config.pin {
        return None;
      }
      if pinTry >= config.maxTries {
        ch.sent := ch.sent + n.tooMany;
        return Some(PinRefused);
      }
      if notice || pinTry > 0 {
        notice := false;
        ch.sent := ch.sent + n.required;
      }
      var m := ch.Recv();
      if m.None? {
        return Some(BadPinMessage);
      }
      var request := w.pin.parse(m.value.data);
      if request.None? {
        return Some(BadPinMessage);
      }
      remotePin := request.value.pin;
      pinTry := pinTry + 1;
    }
  }

  function PinTexts(w: Codecs, pins: seq<string>): (ms: seq<Message>)
    ensures |ms| == |pins|
  {
    seq(|pins|, i requires 0 <= i < |pins| => Text(w.pin.show(PinMessage(pins[i]))))
  }

  function Times(k: nat, ms: seq<Message>): seq<Message> {
    if k == 0 then [] else ms + Times(k - 1, ms)
  }

  /** The position of the first right PIN among the ones that are still allowed. */
  function FirstMatch(config: PinConfig, pins: seq<string>, tries: nat): (k: Option<nat>)
    ensures match k
            case Some(k) => k < |pins| && tries + k < config.maxTries && pins[k] == config.pin && forall j :: 0 <= j < k ==> pins[j] != config.pin
            case None => forall j :: 0 <= j < |pins| && tries + j < config.maxTries ==> pins[j] != config.pin
  {
    if pins == [] || tries >= config.maxTries then None
    else if pins[0] == config.pin then Some(0)
    else match FirstMatch(config, pins[1..], tries + 1)
      case Some(k) => Some(k + 1)
      case None =>
        assert forall j :: 1 <= j < |pins| ==> pins[j] == pins[1..][j - 1];
        None
  }

  ghost predicate FirstRight(config: PinConfig, pins: seq<string>, k: nat) {
    k < |pins| && k < config.maxTries && pins[k] == config.pin && config.pin !in pins[..k]
  }

  lemma PinTextsTail(w: Codecs, pins: seq<string>, rest: seq<Message>)
    requires pins != []
    ensures var ms := PinTexts(w, pins) + rest;
            ms[0] == Text(w.pin.show(PinMessage(pins[0]))) && ms[1..] == PinTexts(w, pins[1..]) + rest
  {
  }

  /** What one wrong or right answer does to the rest of the challenge. */
  lemma VerifyStep(w: Codecs, config: PinConfig, n: Notices, remotePin: string, tries: nat, notice: bool,
                   pins: seq<string>, rest: seq<Message>)
    requires w.pin.Lawful() && remotePin != config.pin && tries < config.maxTries && pins != []
    ensures var v := Verify(w, config, n, pins[0], tries + 1, false, PinTexts(w, pins[1..]) + rest);
            Verify(w, config, n, remotePin, tries, notice, PinTexts(w, pins) + rest) == v.(out := (if notice || tries > 0 then n.required else []) + v.out)
  {
    PinTextsTail(w, pins, rest);
    hide PinTexts;
    assert w.pin.parse(w.pin.show(PinMessage(pins[0]))) == Some(PinMessage(pins[0]));
  }

  lemma {:induction false} VerifyAccepts(w: Codecs, config: PinConfig, n: Notices, remotePin: string, tries: nat, notice: bool,
                                         pins: seq<string>, k: nat, rest: seq<Message>)
    requires w.pin.Lawful() && remotePin != config.pin
    requires k < |pins| && tries + k < config.maxTries && pins[k] == config.pin && config.pin !in pins[..k]
    ensures Verify(w, config, n, remotePin, tries, notice, PinTexts(w, pins) + rest)
         == Verification(None, Times(if notice || tries > 0 then k + 1 else k, n.required), PinTexts(w, pins[k + 1..]) + rest)
    decreases k
  {
    hide Verify, PinTexts;
    VerifyStep(w, config, n, remotePin, tries, notice, pins, rest);
    if k > 0 {
      hide Times;
      assert pins[1..][..k - 1] == pins[..k][1..] && pins[0] in pins[..k];
      assert pins[1..][k..] == pins[k + 1..];
      VerifyAccepts(w, config, n, pins[0], tries + 1, false, pins[1..], k - 1, rest);
      assert [] + Times(k, n.required) == Times(k, n.required);
      TimesNext(k, n.required);
    } else {
      Try(w, config, n, pins[0], tries + 1, false, PinTexts(w, pins[1..]) + rest, []);
      assert Times(1, n.required) == n.required + [];
    }
  }

  lemma TimesNext(k: nat, ms: seq<Message>)
    ensures Times(k + 1, ms) == ms + Times(k, ms)
  {
  }

  lemma OneMore(k: nat, ms: seq<Message>, last: seq<Message>)
    ensures ms + (Times(k, ms) + last) == Times(k + 1, ms) + last
  {
    assert Times(k + 1, ms) == ms + Times(k, ms);
  }

  lemma {:induction false} VerifyRejects(w: Codecs, config: PinConfig, n: Notices, remotePin: string, tries: nat, notice: bool,
                                         pins: seq<string>, rest: seq<Message>)
    requires w.pin.Lawful() && remotePin != config.pin
    requires tries + |pins| == config.maxTries && config.pin !in pins
    requires notice || tries > 0 || pins == []
    ensures Verify(w, config, n, remotePin, tries, notice, PinTexts(w, pins) + rest)
         == Verification(Some(PinRefused), Times(|pins|, n.required) + n.tooMany, rest)
    decreases |pins|
  {
    hide Verify;
    if pins == [] {
      Try(w, config, n, remotePin, tries, notice, rest, []);
      assert PinTexts(w, pins) + rest == rest;
      assert Times(0, n.required) + n.tooMany == n.tooMany;
    } else {
      hide PinTexts, Times;
      VerifyStep(w, config, n, remotePin, tries, notice, pins, rest);
      assert pins[0] in pins && forall p <- pins[1..] :: p in pins;
      VerifyRejects(w, config, n, pins[0], tries + 1, false, pins[1..], rest);
      OneMore(|pins| - 1, n.required, n.tooMany);
    }
  }

  lemma VerifyRejectsSilently(w: Codecs, config: PinConfig, n: Notices, pins: seq<string>, rest: seq<Message>)
    requires w.pin.Lawful() && config.pin != "" && |pins| == config.maxTries > 0 && config.pin !in pins
    ensures Verify(w, config, n, "", 0, false, PinTexts(w, pins) + rest)
         == Verification(Some(PinRefused), Times(|pins| - 1, n.required) + n.tooMany, rest)
  {
    hide Verify;
    VerifyStep(w, config, n, "", 0, false, pins, rest);
    VerifyRejects(w, config, n, pins[0], 1, false, pins[1..], rest);
    var t := Times(|pins| - 1, n.required) + n.tooMany;
    assert [] + t == t;
  }

  /**
   * Exact behaviour of `verify_pin` on a non-empty PIN: it accepts the first right PIN among the first
   * `maxTries` and reads nothing after it; otherwise it reads exactly `maxTries` PINs and rejects.
   */
  lemma VerifyExact(w: Codecs, config: PinConfig, n: Notices, notice: bool, pins: seq<string>, rest: seq<Message>)
    requires w.pin.Lawful() && config.pin != "" && |pins| >= config.maxTries
    ensures var v, m := Verify(w, config, n, "", 0, notice, PinTexts(w, pins) + rest), config.maxTries;
            if config.pin in pins[..m] then
              exists k: nat :: FirstRight(config, pins, k) && v == Verification(None, Times(if notice then k + 1 else k, n.required), PinTexts(w, pins[k + 1..]) + rest)
            else v == Verification(Some(PinRefused), Times(if notice || m == 0 then m else m - 1, n.required) + n.tooMany,
                                   PinTexts(w, pins[m..]) + rest)
  {
    hide Verify, Times;
    var m := config.maxTries;
    match FirstMatch(config, pins, 0) {
      case Some(k) =>
        assert pins[..m][k] == config.pin && FirstRight(config, pins, k);
        VerifyAccepts(w, config, n, "", 0, notice, pins, k, rest);
      case None =>
        var tail := PinTexts(w, pins[m..]) + rest;
        assert PinTexts(w, pins) + rest == PinTexts(w, pins[..m]) + tail;
        if notice || m == 0 {
          VerifyRejects(w, config, n, "", 0, notice, pins[..m], tail);
        } else {
          VerifyRejectsSilently(w, config, n, pins[..m], tail);
        }
    }
  }

  /** Among messages of any kind: the k-th is the first right PIN, within the allowed tries, and all before it are PINs too. */
  ghost predicate AnsweredAt(w: Codecs, config: PinConfig, inbox: seq<Message>, tries: nat, k: int) {
    && 0 <= k < |inbox| && tries + k < config.maxTries && w.pin.parse(inbox[k].data) == Some(PinMessage(config.pin))
    && forall j :: 0 <= j < k ==> w.pin.parse(inbox[j].data).Some? && w.pin.parse(inbox[j].data) != Some(PinMessage(config.pin))
  }

  /** Whatever arrives, `verify_pin` accepts exactly a right PIN in time, and reads up to it. */
  lemma {:induction false} VerifyAnyInbox(w: Codecs, config: PinConfig, n: Notices, remotePin: string, tries: nat, notice: bool, inbox: seq<Message>)
    requires remotePin != config.pin
    ensures var v := Verify(w, config, n, remotePin, tries, notice, inbox);
            && (v.failure.None? <==> exists k :: AnsweredAt(w, config, inbox, tries, k))
            && (forall k :: AnsweredAt(w, config, inbox, tries, k) ==> v.rest == inbox[k + 1..])
    decreases |inbox|
  {
    Try(w, config, n, remotePin, tries, notice, inbox, []);
    if tries < config.maxTries && inbox != [] && w.pin.parse(inbox[0].data).Some? {
      var pin := w.pin.parse(inbox[0].data).value.pin;
      if pin == config.pin {
        Try(w, config, n, pin, tries + 1, false, inbox[1..], []);
        assert AnsweredAt(w, config, inbox, tries, 0);
      } else {
        hide Verify, AnsweredAt;
        var rest, next := inbox[1..], tries + 1;
        VerifyAnyInbox(w, config, n, pin, next, false, rest);
        forall k ensures AnsweredAt(w, config, inbox, tries, k) ==> AnsweredAt(w, config, rest, next, k - 1) {
          AnsweredLater(w, config, inbox, tries, k);
        }
        if k :| AnsweredAt(w, config, rest, next, k) {
          AnsweredLater(w, config, inbox, tries, k + 1);
          assert AnsweredAt(w, config, inbox, tries, k + 1);
        }
        forall k | AnsweredAt(w, config, inbox, tries, k)
          ensures k > 0 && rest[k..] == inbox[k + 1..]
        {
          AnsweredLater(w, config, inbox, tries, k);
        }
      }
    }
  }

  lemma AnsweredLater(w: Codecs, config: PinConfig, inbox: seq<Message>, tries: nat, k: int)
    requires inbox != [] && w.pin.parse(inbox[0].data).Some? && w.pin.parse(inbox[0].data) != Some(PinMessage(config.pin))
    ensures AnsweredAt(w, config, inbox, tries, k) <==> AnsweredAt(w, config, inbox[1..], tries + 1, k - 1)
    ensures AnsweredAt(w, config, inbox, tries, k) ==> 0 < k < |inbox|
  {
    assert forall j :: 0 < j < |inbox| ==> inbox[j] == inbox[1..][j - 1];
    assert forall j :: 0 <= j < |inbox| - 1 ==> inbox[1..][j] == inbox[j + 1];
  }

  datatype Challenge<+T> = Passed(value: T) | Again | TooManyTries | Unparsable

  datatype Handled<+T> = Handled(result: Attempt<T>, out: seq<Message>, rest: seq<Message>)

  /** The next reply of the verifying side, as one text message or as a framed string. */
  function NextReply(inChunks: bool, inbox: seq<Message>): (Option<Bytes>, seq<Message>) {
    if inChunks then
      var (s, rest) := ReadString([], inbox);
      (Some(s), rest)
    else if inbox == [] then (None, [])
    else if inbox[0].Text? then (Some(inbox[0].data), inbox[1..])
    else (None, inbox[1..])
  }

  lemma {:induction false} ReadStringShrinks(buffer: Bytes, inbox: seq<Message>)
    ensures var (s, rest) := ReadString(buffer, inbox);
            |rest| <= |inbox| && (inbox != [] ==> |rest| < |inbox|) && (inbox == [] ==> s == buffer)
    decreases |inbox|
  {
    if inbox != [] && inbox[0].Binary? {
      ReadStringShrinks(buffer + inbox[0].data, inbox[1..]);
    }
  }

  /** `handle_pin`; `answers(i)` is the user's i-th answer, `None` if the dialog is dismissed. */
  function Handle<T>(w: Codecs, answers: nat -> Option<string>, asked: nat, inChunks: bool, parse: Bytes -> Challenge<T>,
                     inbox: seq<Message>): Handled<T>
    requires parse([]).Unparsable?
    decreases |inbox|
  {
    match answers(asked)
    case None => Handled(Failed(NoPinGiven), [], inbox)
    case Some(pin) =>
      var out := [Text(w.pin.show(PinMessage(pin)))];
      var (reply, rest) := NextReply(inChunks, inbox);
      match reply
      case None => Handled(Failed(BadPinReply), out, rest)
      case Some(bytes) =>
        match parse(bytes)
        case Passed(t) => Handled(Success(t), out, rest)
        case Again =>
          ReadStringShrinks([], inbox);
          var h := Handle(w, answers, asked + 1, inChunks, parse, rest);
          h.(out := out + h.out)
        case TooManyTries => Handled(Failed(PinRefusedByPeer), out, rest)
        case Unparsable => Handled(Failed(BadPinReply), out, rest)
  }

  /** `handle_pin` fails over the user, the reply, or the peer's refusal. */
  lemma {:induction false} HandleFailures<T>(w: Codecs, answers: nat -> Option<string>, asked: nat, inChunks: bool, parse: Bytes -> Challenge<T>,
                                             inbox: seq<Message>)
    requires parse([]).Unparsable?
    ensures var h := Handle(w, answers, asked, inChunks, parse, inbox);
            h.result.Failed? ==> h.result.why in {NoPinGiven, BadPinReply, PinRefusedByPeer}
    decreases |inbox|
  {
    var (reply, rest) := NextReply(inChunks, inbox);
    if answers(asked).Some? && reply.Some? && parse(reply.value).Again? {
      ReadStringShrinks([], inbox);
      HandleFailures(w, answers, asked + 1, inChunks, parse, rest);
    }
  }

  /** What a reply that ends the dialogue means. */
  function Settled<T>(c: Challenge<T>): Attempt<T>
    requires !c.Again?
  {
    match c
    case Passed(t) => Success(t)
    case TooManyTries => Failed(PinRefusedByPeer)
    case Unparsable => Failed(BadPinReply)
  }

  /** What one round does to the rest of the dialogue. */
  lemma Round<T>(w: Codecs, answers: nat -> Option<string>, asked: nat, inChunks: bool, parse: Bytes -> Challenge<T>,
                 inbox: seq<Message>, sent: seq<Message>)
    requires parse([]).Unparsable? && answers(asked).Some?
    ensures var out := [Text(w.pin.show(PinMessage(answers(asked).value)))];
            var (reply, rest) := NextReply(inChunks, inbox);
            var h := Handle(w, answers, asked, inChunks, parse, inbox);
            if reply.None? || !parse(reply.value).Again? then
              h == Handled(if reply.None? then Failed(BadPinReply) else Settled(parse(reply.value)), out, rest)
            else
              && |rest| < |inbox|
              && h == Handle(w, answers, asked + 1, inChunks, parse, rest).(out := h.out)
              && sent + h.out == sent + out + Handle(w, answers, asked + 1, inChunks, parse, rest).out
  {
    var out := [Text(w.pin.show(PinMessage(answers(asked).value)))];
    var (reply, rest) := NextReply(inChunks, inbox);
    ReadStringShrinks([], inbox);
    if reply.Some? && parse(reply.value).Again? {
      var h := Handle(w, answers, asked + 1, inChunks, parse, rest);
      assert sent + (out + h.out) == sent + out + h.out;
    }
  }

  method HandlePin<T>(ch: DataChannel, w: Codecs, answers: nat -> Option<string>, inChunks: bool, parse: Bytes -> Challenge<T>)
    returns (result: Attempt<T>)
    requires parse([]).Unparsable?
    modifies ch
    ensures var h := Handle(w, answers, 0, inChunks, parse, old(ch.inbox));
            result == h.result && ch.sent == old(ch.sent) + h.out && ch.inbox == h.rest
  {
    hide ReadString;
    var asked := 0;
    while true
      invariant var h := Handle(w, answers, 0, inChunks, parse, old(ch.inbox));
                var now := Handle(w, answers, asked, inChunks, parse, ch.inbox);
                h == now.(out := h.out) && ch.sent + now.out == old(ch.sent) + h.out
      decreases |ch.inbox|
    {
      var pin := answers(asked);
      if pin.None? {
        return Failed(NoPinGiven);
      }
      Round(w, answers, asked, inChunks, parse, ch.inbox, ch.sent);
      hide Handle;
      ch.Send(Text(w.pin.show(PinMessage(pin.value))));
      asked := asked + 1;
      var bytes: Bytes;
      if inChunks {
        bytes := ReceiveStringFromChunks(ch);
      } else {
        var m := ch.Recv();
        if m.None? || m.value.Binary? {
          return Failed(BadPinReply);
        }
        bytes := m.value.data;
      }
      match parse(bytes) {
        case Passed(t) => return Success(t);
        case Again =>
        case TooManyTries => return Failed(PinRefusedByPeer);
        case Unparsable => return Failed(BadPinReply);
      }
    }
  }

  // ---- The answering loop on any inbox ----

  /** The PINs the user gives in the dialogs from `first` to before `end`, as they are sent. */
  function GivenPins(w: Codecs, answers: nat -> Option<string>, first: nat, end: nat): seq<Message>
    requires (forall j :: first <= j < end ==> answers(j).Some?)
    decreases end as int - first as int
  {
    if first >= end then [] else [Text(w.pin.show(PinMessage(answers(first).value)))] + GivenPins(w, answers, first + 1, end)
  }

  /** The k-th reply is the first that is not "again", and it passes; and the user gives a PIN for each of them. */
  ghost predicate PassedAt<T>(answers: nat -> Option<string>, asked: nat, parse: Bytes -> Challenge<T>, replies: seq<Bytes>, k: int) {
    && 0 <= k < |replies| && (forall j :: asked <= j <= asked + k ==> answers(j).Some?)
    && (forall i :: 0 <= i < k ==> parse(replies[i]).Again?) && parse(replies[k]).Passed?
  }

  lemma PassedLater<T>(answers: nat -> Option<string>, asked: nat, parse: Bytes -> Challenge<T>, replies: seq<Bytes>, k: int)
    requires replies != [] && answers(asked).Some? && parse(replies[0]).Again?
    ensures PassedAt(answers, asked, parse, replies, k) <==> PassedAt(answers, asked + 1, parse, replies[1..], k - 1)
  {
    assert forall i :: 0 < i < |replies| ==> replies[i] == replies[1..][i - 1];
    assert forall i :: 0 <= i < |replies| - 1 ==> replies[1..][i] == replies[i + 1];
  }

  /** What passing at the k-th reply means for the loop. */
  ghost predicate PassesWith<T>(w: Codecs, answers: nat -> Option<string>, asked: nat, parse: Bytes -> Challenge<T>, replies: seq<Bytes>,
                                k: int, h: Handled<T>, rest: seq<Message>)
    requires PassedAt(answers, asked, parse, replies, k)
  {
    h == Handled(Success(parse(replies[k]).value), GivenPins(w, answers, asked, asked + k + 1), rest)
  }

  /** The texts at the front of an inbox. */
  function LeadingTexts(inbox: seq<Message>): (texts: seq<Bytes>)
    ensures |texts| <= |inbox|
  {
    if inbox == [] || inbox[0].Binary? then [] else [inbox[0].data] + LeadingTexts(inbox[1..])
  }

  /** One more reply "again" in front. */
  lemma PassesLater<T>(w: Codecs, answers: nat -> Option<string>, asked: nat, parse: Bytes -> Challenge<T>, replies: seq<Bytes>,
                       k: int, h: Handled<T>, h': Handled<T>, rest: seq<Message>)
    requires replies != [] && PassedAt(answers, asked, parse, replies, k) && parse(replies[0]).Again?
    requires h == h'.(out := [Text(w.pin.show(PinMessage(answers(asked).value)))] + h'.out)
    ensures PassedAt(answers, asked + 1, parse, replies[1..], k - 1)
    ensures PassesWith(w, answers, asked + 1, parse, replies[1..], k - 1, h', rest) ==> PassesWith(w, answers, asked, parse, replies, k, h, rest)
  {
    PassedLater(answers, asked, parse, replies, k);
    assert replies[1..][k - 1] == replies[k];
  }

  ghost predicate Passes<T>(answers: nat -> Option<string>, asked: nat, parse: Bytes -> Challenge<T>, replies: seq<Bytes>) {
    exists k :: PassedAt(answers, asked, parse, replies, k)
  }

  lemma AgainShifts<T>(answers: nat -> Option<string>, asked: nat, parse: Bytes -> Challenge<T>, replies: seq<Bytes>)
    requires replies != [] && answers(asked).Some? && parse(replies[0]).Again?
    ensures Passes(answers, asked, parse, replies) <==> Passes(answers, asked + 1, parse, replies[1..])
  {
    var next := asked + 1;
    if k :| PassedAt(answers, asked, parse, replies, k) {
      PassedLater(answers, asked, parse, replies, k);
      assert PassedAt(answers, next, parse, replies[1..], k - 1);
    }
    if k :| PassedAt(answers, next, parse, replies[1..], k) {
      PassedLater(answers, asked, parse, replies, k + 1);
      assert PassedAt(answers, asked, parse, replies, k + 1);
    }
  }

  lemma PassesNow<T>(w: Codecs, answers: nat -> Option<string>, asked: nat, parse: Bytes -> Challenge<T>, replies: seq<Bytes>,
                     h: Handled<T>, rest: seq<Message>)
    requires replies != [] && answers(asked).Some? && parse(replies[0]).Passed?
    requires h == Handled(Success(parse(replies[0]).value), [Text(w.pin.show(PinMessage(answers(asked).value)))], rest)
    ensures Passes(answers, asked, parse, replies) && forall k :: PassedAt(answers, asked, parse, replies, k) <==> k == 0
    ensures PassesWith(w, answers, asked, parse, replies, 0, h, rest)
  {
    assert PassedAt(answers, asked, parse, replies, 0);
    assert GivenPins(w, answers, asked + 1, asked + 1) == [];
  }

  lemma PassesNever<T>(answers: nat -> Option<string>, asked: nat, parse: Bytes -> Challenge<T>, replies: seq<Bytes>)
    requires answers(asked).None? || replies == [] || !(parse(replies[0]).Passed? || parse(replies[0]).Again?)
    ensures !Passes(answers, asked, parse, replies) && forall k :: !PassedAt(answers, asked, parse, replies, k)
  {
  }

  /** With single replies: the loop passes exactly at the first reply that is not "again", and leaves everything after it. */
  lemma {:induction false} HandleTexts<T>(w: Codecs, answers: nat -> Option<string>, asked: nat, parse: Bytes -> Challenge<T>, inbox: seq<Message>)
    requires parse([]).Unparsable?
    ensures var h, texts := Handle(w, answers, asked, false, parse, inbox), LeadingTexts(inbox);
            && (h.result.Success? <==> Passes(answers, asked, parse, texts))
            && (forall k :: 0 <= k < |texts| && PassedAt(answers, asked, parse, texts, k) ==>
                  PassesWith(w, answers, asked, parse, texts, k, h, inbox[k + 1..]))
    decreases |inbox|
  {
    hide PassedAt, PassesWith, Passes;
    var texts := LeadingTexts(inbox);
    var h := Handle(w, answers, asked, false, parse, inbox);
    if answers(asked).None? || texts == [] || !(parse(texts[0]).Passed? || parse(texts[0]).Again?) {
      PassesNever(answers, asked, parse, texts);
    } else if parse(texts[0]).Passed? {
      PassesNow(w, answers, asked, parse, texts, h, inbox[1..]);
    } else {
      var h' := Handle(w, answers, asked + 1, false, parse, inbox[1..]);
      HandleTexts(w, answers, asked + 1, parse, inbox[1..]);
      AgainShifts(answers, asked, parse, texts);
      assert texts[1..] == LeadingTexts(inbox[1..]);
      forall k | 0 <= k < |texts| && PassedAt(answers, asked, parse, texts, k)
        ensures PassesWith(w, answers, asked, parse, texts, k, h, inbox[k + 1..])
      {
        PassesLater(w, answers, asked, parse, texts, k, h, h', inbox[k + 1..]);
        InRange(answers, asked + 1, parse, texts[1..], k - 1);
        assert inbox[1..][k..] == inbox[k + 1..];
      }
    }
  }

  lemma InRange<T>(answers: nat -> Option<string>, asked: nat, parse: Bytes -> Challenge<T>, replies: seq<Bytes>, k: int)
    requires PassedAt(answers, asked, parse, replies, k)
    ensures 0 <= k < |replies|
  {
  }

  /** The framed strings of an inbox. */
  function FramedReplies(inbox: seq<Message>): seq<Bytes>
    decreases |inbox|
  {
    if inbox == [] then []
    else
      var (s, rest) := ReadString([], inbox);
      ReadStringShrinks([], inbox);
      [s] + FramedReplies(rest)
  }

  /** With framed replies the same. */
  lemma {:induction false} HandleFramed<T>(w: Codecs, answers: nat -> Option<string>, asked: nat, parse: Bytes -> Challenge<T>, inbox: seq<Message>)
    requires parse([]).Unparsable?
    ensures var h, texts := Handle(w, answers, asked, true, parse, inbox), FramedReplies(inbox);
            && (h.result.Success? <==> Passes(answers, asked, parse, texts))
            && (forall k: nat :: PassedAt(answers, asked, parse, texts, k) ==>
                  PassesWith(w, answers, asked, parse, texts, k, h, ReadStrings(k + 1, inbox).1))
    decreases |inbox|
  {
    hide PassedAt, PassesWith, Passes, ReadString;
    ReadStringShrinks([], inbox);
    var texts := FramedReplies(inbox);
    var (text, left) := ReadString([], inbox);
    var h := Handle(w, answers, asked, true, parse, inbox);
    if answers(asked).None? || texts == [] || !(parse(texts[0]).Passed? || parse(texts[0]).Again?) {
      PassesNever(answers, asked, parse, texts);
    } else if parse(texts[0]).Passed? {
      assert ReadStrings(1, inbox).1 == ReadStrings(0, left).1 == left;
      PassesNow(w, answers, asked, parse, texts, h, left);
    } else {
      var h' := Handle(w, answers, asked + 1, true, parse, left);
      HandleFramed(w, answers, asked + 1, parse, left);
      AgainShifts(answers, asked, parse, texts);
      assert texts[1..] == FramedReplies(left);
      forall k: nat | PassedAt(answers, asked, parse, texts, k)
        ensures PassesWith(w, answers, asked, parse, texts, k, h, ReadStrings(k + 1, inbox).1)
      {
        PassesLater(w, answers, asked, parse, texts, k, h, h', ReadStrings(k + 1, inbox).1);
        InRange(answers, asked + 1, parse, texts[1..], k - 1);
        assert ReadStrings(k + 1, inbox).1 == ReadStrings(k, left).1;
      }
    }
  }
}
