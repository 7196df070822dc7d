/** The loop in which the receiving side takes files off the channel. */
module ReceiveLoop {
  import opened Prelude
  import opened Wire
  import opened Framing

  /** What both sides know when the transfer starts: nonce, offered files, and a token for every selected file. */
  datatype Terms = Terms(nonce: Bytes, files: seq<FileDto>, tokens: map<string, string>)

  /** The reports on the error channel; the last one carries the id "unknown". */
  datatype FileError = FileNotFound(id: string) | InvalidToken(id: string) | SizeUnavailable(id: string) | BinaryWithoutHeader

  /** A file handed to the application, with the declared size and the blocks forwarded so far. */
  datatype Delivered = Delivered(id: string, size: u64, blocks: seq<Bytes>)

  /** `open` stands for `file_state`: while it holds, the last delivered file is still being received. */
  datatype RxState = RxState(open: bool, delivered: seq<Delivered>, errors: seq<FileError>)

  const RX_INIT: RxState := RxState(false, [], [])

  datatype Verdict = Continue | Complete | BadHeader

  datatype RxStep = RxStep(rx: RxState, out: seq<Message>, verdict: Verdict)

  /** The terms, the serialisers, and the application's answer for each delivered file in turn. */
  datatype RxContext = RxContext(w: Codecs, terms: Terms, results: nat -> Option<SendFileResponse>)

  predicate ValidRx(rx: RxState) {
    rx.open ==> rx.delivered != []
  }

  function FindFile(files: seq<FileDto>, id: string): (r: Option<FileDto>)
    ensures r.Some? <==> exists f <- files :: f.id == id
    ensures r.Some? ==> exists i :: 0 <= i < |files| && r.value == files[i] && files[i].id == id && forall j :: 0 <= j < i ==> files[j].id != id
  {
    if files == [] then None
    else if files[0].id == id then Some(files[0])
    else
      var r := FindFile(files[1..], id);
      assert r.Some? <==> exists f <- files :: f.id == id by {
        assert forall f <- files :: f == files[0] || f in files[1..];
      }
      r
  }

  /** The response for the k-th delivered file. */
  function Response(cx: RxContext, k: nat, id: string): Message {
    var error := match cx.results(k)
      case Some(r) => if r.success then None else Some(match r.error case Some(e) => e case None => "Unknown error")
      case None => Some("Failed to receive file result");
    Text(cx.w.response.show(SendFileResponse(id, error.None?, error)))
  }

  /** What an answer says: the id, and success exactly if the application reports success; otherwise its reason. */
  ghost predicate Answers(cx: RxContext, m: Message, k: nat, id: string) {
    var d := cx.w.response.parse(m.data);
    && m.Text? && d.Some? && d.value.id == id
    && (d.value.success <==> cx.results(k).Some? && cx.results(k).value.success)
    && (d.value.error.None? <==> d.value.success)
    && (cx.results(k).None? ==> d.value.error == Some("Failed to receive file result"))
    && (cx.results(k).Some? && !cx.results(k).value.success ==>
          d.value.error == Some(if cx.results(k).value.error.Some? then cx.results(k).value.error.value else "Unknown error"))
  }

  lemma ResponseAnswers(cx: RxContext, k: nat, id: string)
    requires cx.w.response.Lawful()
    ensures Answers(cx, Response(cx, k, id), k, id)
  {
    var error := match cx.results(k)
      case Some(r) => if r.success then None else Some(match r.error case Some(e) => e case None => "Unknown error")
      case None => Some("Failed to receive file result");
    var d := SendFileResponse(id, error.None?, error);
    assert cx.w.response.parse(cx.w.response.show(d)) == Some(d);
  }

  function LastId(rx: RxState): string
    requires rx.delivered != []
  {
    rx.delivered[|rx.delivered| - 1].id
  }

  function Fail(rx: RxState, e: FileError): RxState {
    rx.(errors := rx.errors + [e])
  }

  /** A header that parsed: either it opens a file or it is reported. */
  function OpenFile(terms: Terms, rx: RxState, h: SendFileHeader): RxState {
    if h.id !in terms.tokens then Fail(rx, FileNotFound(h.id))
    else if h.token != terms.tokens[h.id] then Fail(rx, InvalidToken(h.id))
    else match FindFile(terms.files, h.id)
      case None => Fail(rx, SizeUnavailable(h.id))
      case Some(f) => rx.(open := true, delivered := rx.delivered + [Delivered(h.id, f.size, [])])
  }

  /** One iteration of the loop. */
  function OnMessage(cx: RxContext, rx: RxState, m: Message): (s: RxStep)
    requires ValidRx(rx)
    ensures ValidRx(s.rx)
  {
    if m.Text? then
      var out := if rx.open then [Response(cx, |rx.delivered| - 1, LastId(rx))] else [];
      var closed := rx.(open := false);
      if rx.open && IsDelimiter(m) then RxStep(closed, out, Complete)
      else match cx.w.header.parse(m.data)
        case None => RxStep(closed, out, BadHeader)
        case Some(h) => RxStep(OpenFile(cx.terms, closed, h), out, Continue)
    else if rx.open then
      var i := |rx.delivered| - 1;
      var d := rx.delivered[i];
      RxStep(rx.(delivered := rx.delivered[i := d.(blocks := d.blocks + [m.data])]), [], Continue)
    else
      RxStep(Fail(rx, BinaryWithoutHeader), [], Continue)
  }

  datatype RxRun = RxRun(rx: RxState, out: seq<Message>, verdict: Verdict, rest: seq<Message>)

  /** The loop over a stream of messages, up to its end or the first exit. */
  function Receive(cx: RxContext, rx: RxState, ms: seq<Message>): (r: RxRun)
    requires ValidRx(rx)
    ensures ValidRx(r.rx)
    decreases |ms|
  {
    if ms == [] then RxRun(rx, [], Continue, [])
    else
      var s := OnMessage(cx, rx, ms[0]);
      if s.verdict != Continue then RxRun(s.rx, s.out, s.verdict, ms[1..])
      else
        var r := Receive(cx, s.rx, ms[1..]);
        r.(out := s.out + r.out)
  }

  lemma {:induction false} ReceiveAppend(cx: RxContext, rx: RxState, a: seq<Message>, b: seq<Message>)
    requires ValidRx(rx) && Receive(cx, rx, a).verdict == Continue
    ensures Receive(cx, rx, a).rest == []
    ensures var r := Receive(cx, rx, a);
            var s := Receive(cx, r.rx, b);
            Receive(cx, rx, a + b) == s.(out := r.out + s.out)
    decreases |a|
  {
    hide OnMessage;
    if a == [] {
      assert a + b == b;
      var s := Receive(cx, rx, b);
      assert [] + s.out == s.out;
    } else {
      var s := OnMessage(cx, rx, a[0]);
      ReceiveAppend(cx, s.rx, a[1..], b);
      assert (a + b)[1..] == a[1..] + b;
      var r := Receive(cx, s.rx, a[1..]);
      var t := Receive(cx, r.rx, b);
      assert s.out + (r.out + t.out) == (s.out + r.out) + t.out;
    }
  }

  /** What one iteration does to the rest of the run. */
  lemma Unroll(cx: RxContext, rx: RxState, ms: seq<Message>, sent: seq<Message>)
    requires ValidRx(rx) && ms != []
    ensures var s := OnMessage(cx, rx, ms[0]);
            var r := Receive(cx, rx, ms);
            if s.verdict != Continue then r == RxRun(s.rx, s.out, s.verdict, ms[1..])
            else r == Receive(cx, s.rx, ms[1..]).(out := r.out) && sent + r.out == sent + s.out + Receive(cx, s.rx, ms[1..]).out
  {
    hide OnMessage;
    var s := OnMessage(cx, rx, ms[0]);
    if s.verdict == Continue {
      var r := Receive(cx, s.rx, ms[1..]);
      assert sent + (s.out + r.out) == sent + s.out + r.out;
    }
  }

  method ReceiveFiles(ch: DataChannel, cx: RxContext) returns (rx: RxState, verdict: Verdict)
    modifies ch
    ensures var r := Receive(cx, RX_INIT, old(ch.inbox));
            rx == r.rx && verdict == r.verdict && ch.sent == old(ch.sent) + r.out && ch.inbox == r.rest
  {
    hide Receive;
    rx, verdict := RX_INIT, Continue;
    while true
      invariant ValidRx(rx)
      invariant var r := Receive(cx, RX_INIT, old(ch.inbox));
                var now := Receive(cx, rx, ch.inbox);
                r == now.(out := r.out) && ch.sent + now.out == old(ch.sent) + r.out
      decreases |ch.inbox|
    {
      if ch.inbox == [] {
        NothingToReceive(cx, rx);
      } else {
        Unroll(cx, rx, ch.inbox, ch.sent);
      }
      var m := ch.Recv();
      if m.None? {
        return rx, Continue;
      }
      ghost var before := rx;
      if m.value.Text? {
        rx, verdict := OnText(ch, cx, rx, m.value);
        if verdict != Continue {
          return;
        }
      } else if rx.open {
        var i := |rx.delivered| - 1;
        var d := rx.delivered[i];
        rx := rx.(delivered := rx.delivered[i := d.(blocks := d.blocks + [m.value.data])]);
      } else {
        rx := Fail(rx, BinaryWithoutHeader);
      }
      assert rx == OnMessage(cx, before, m.value).rx;
    }
  }

  lemma NothingToReceive(cx: RxContext, rx: RxState)
    requires ValidRx(rx)
    ensures Receive(cx, rx, []) == RxRun(rx, [], Continue, [])
  {
  }

  /** The text branch: answer for the file that ends here, then stop at the delimiter or take the next header. */
  method OnText(ch: DataChannel, cx: RxContext, before: RxState, m: Message) returns (rx: RxState, verdict: Verdict)
    requires ValidRx(before) && m.Text?
    modifies ch`sent
    ensures var s := OnMessage(cx, before, m);
            rx == s.rx && verdict == s.verdict && ch.sent == old(ch.sent) + s.out
  {
    rx := before.(open := false);
    if before.open {
      ch.Send(Response(cx, |before.delivered| - 1, LastId(before)));
      if IsDelimiter(m) {
        return rx, Complete;
      }
    }
    var header := cx.w.header.parse(m.data);
    if header.None? {
      return rx, BadHeader;
    }
    var h := header.value;
    if h.id !in cx.terms.tokens {
      return Fail(rx, FileNotFound(h.id)), Continue;
    }
    if h.token != cx.terms.tokens[h.id] {
      return Fail(rx, InvalidToken(h.id)), Continue;
    }
    var entry := FindFile(cx.terms.files, h.id);
    if entry.None? {
      return Fail(rx, SizeUnavailable(h.id)), Continue;
    }
    rx := rx.(open := true, delivered := rx.delivered + [Delivered(h.id, entry.value.size, [])]);
    verdict := Continue;
  }

  // ---- Any stream of messages, honest or not, read as a list of segments ----

  /** A text message and the binary messages up to the next text. */
  datatype Segment = Segment(head: Bytes, body: seq<Bytes>)

  /** A stream: binary messages before the first text, then segments. */
  datatype Stream = Stream(stray: seq<Bytes>, segments: seq<Segment>)

  function Split(ms: seq<Message>): Stream
    decreases |ms|
  {
    if ms == [] then Stream([], [])
    else
      var n := |ms| - 1;
      var s := Split(ms[..n]);
      if ms[n].Text? then s.(segments := s.segments + [Segment(ms[n].data, [])]) else AddBlock(s, ms[n].data)
  }

  /** A binary message belongs to the last segment, or to none. */
  function AddBlock(s: Stream, data: Bytes): Stream {
    if s.segments == [] then s.(stray := s.stray + [data])
    else
      var k := |s.segments| - 1;
      var g := s.segments[k];
      s.(segments := s.segments[k := g.(body := g.body + [data])])
  }

  /** Splitting loses nothing: the stream can be put back together. */
  function Unsplit(s: Stream): seq<Message>
    decreases |s.segments|
  {
    if s.segments == [] then Binaries(s.stray)
    else
      var k := |s.segments| - 1;
      Unsplit(s.(segments := s.segments[..k])) + [Text(s.segments[k].head)] + Binaries(s.segments[k].body)
  }

  lemma {:induction false} UnsplitSplit(ms: seq<Message>)
    ensures Unsplit(Split(ms)) == ms
    decreases |ms|
  {
    if ms != [] {
      var n := |ms| - 1;
      var s := Split(ms[..n]);
      UnsplitSplit(ms[..n]);
      assert ms == ms[..n] + [ms[n]];
      hide Split;
      if ms[n].Text? {
        UnsplitText(s, ms[n].data);
      } else {
        UnsplitBinary(s, ms[n].data);
      }
    }
  }

  lemma UnsplitText(s: Stream, data: Bytes)
    ensures Unsplit(s.(segments := s.segments + [Segment(data, [])])) == Unsplit(s) + [Text(data)]
  {
    var s' := s.(segments := s.segments + [Segment(data, [])]);
    assert s'.(segments := s'.segments[..|s.segments|]) == s;
    assert Binaries([]) == [];
  }

  lemma UnsplitBinary(s: Stream, data: Bytes)
    ensures Unsplit(AddBlock(s, data)) == Unsplit(s) + [Binary(data)]
  {
    if s.segments == [] {
      assert Binaries(s.stray + [data]) == Binaries(s.stray) + [Binary(data)];
    } else {
      var k := |s.segments| - 1;
      var g := s.segments[k];
      assert AddBlock(s, data).segments[..k] == s.segments[..k];
      assert Binaries(g.body + [data]) == Binaries(g.body) + [Binary(data)];
    }
  }

  /** The file a text message opens under the given terms, if any. */
  function Opens(cx: RxContext, head: Bytes): Option<FileDto> {
    match cx.w.header.parse(head)
    case None => None
    case Some(h) =>
      if h.id in cx.terms.tokens && h.token == cx.terms.tokens[h.id] then FindFile(cx.terms.files, h.id) else None
  }

  /** A text opens a file exactly if it is a header with the token given for its id, and the id was offered. */
  lemma OpensMeans(cx: RxContext, head: Bytes, f: FileDto)
    ensures Opens(cx, head) == Some(f) ==>
      var h := cx.w.header.parse(head);
      h.Some? && h.value.id in cx.terms.tokens && h.value.token == cx.terms.tokens[h.value.id] && f.id == h.value.id && f in cx.terms.files
    ensures Opens(cx, head).None? <==>
      var h := cx.w.header.parse(head);
      h.None? || h.value.id !in cx.terms.tokens || h.value.token != cx.terms.tokens[h.value.id] || forall f <- cx.terms.files :: f.id != h.value.id
  {
  }

  /** The segments whose head opens a file, as delivered files. */
  function Accepted(cx: RxContext, segments: seq<Segment>): seq<Delivered>
    decreases |segments|
  {
    if segments == [] then []
    else
      var k := |segments| - 1;
      Accepted(cx, segments[..k]) + match Opens(cx, segments[k].head)
        case None => []
        case Some(f) => [Delivered(f.id, f.size, segments[k].body)]
  }

  /** What a text that opens no file is reported as: an id without a token, a wrong token, an id that was not offered. */
  function Rejection(cx: RxContext, head: Bytes): seq<FileError> {
    match cx.w.header.parse(head)
    case None => []
    case Some(h) =>
      if h.id !in cx.terms.tokens then [FileNotFound(h.id)]
      else if cx.terms.tokens[h.id] != h.token then [InvalidToken(h.id)]
      else if forall f <- cx.terms.files :: f.id != h.id then [SizeUnavailable(h.id)]
      else []
  }

  function Strays(n: nat): seq<FileError> {
    seq(n, _ => BinaryWithoutHeader)
  }

  /** All reports: one for every rejected text and one for every binary message that belongs to no file, in order. */
  function Reports(cx: RxContext, s: Stream): seq<FileError>
    decreases |s.segments|
  {
    if s.segments == [] then Strays(|s.stray|)
    else
      var k := |s.segments| - 1;
      Reports(cx, s.(segments := s.segments[..k])) + Rejection(cx, s.segments[k].head)
        + if Opens(cx, s.segments[k].head).None? then Strays(|s.segments[k].body|) else []
  }

  function Responses(cx: RxContext, delivered: seq<Delivered>): (out: seq<Message>)
    ensures |out| == |delivered|
  {
    seq(|delivered|, k requires 0 <= k < |delivered| => Response(cx, k, delivered[k].id))
  }

  /** The k-th answer is about the k-th delivered file and says what the application said of it. */
  lemma ResponsesAnswer(cx: RxContext, delivered: seq<Delivered>, k: nat)
    requires cx.w.response.Lawful() && k < |delivered|
    ensures Answers(cx, Responses(cx, delivered)[k], k, delivered[k].id)
  {
    ResponseAnswers(cx, k, delivered[k].id);
  }

  predicate LastOpens(cx: RxContext, s: Stream) {
    s.segments != [] && Opens(cx, s.segments[|s.segments| - 1].head).Some?
  }

  /**
   * The four facts of the receive loop after any stream on which it has not left yet: the delivered files
   * are exactly the accepted segments with their bodies; a file is open exactly when the last segment was
   * accepted; the reports are one for every rejected text and one for every binary message outside a file; and
   * every delivered file but an open one has been answered once, in order, under its own id.
   */
  ghost predicate Facts(cx: RxContext, r: RxRun, s: Stream) {
    && r.rx.delivered == Accepted(cx, s.segments)
    && r.rx.open == LastOpens(cx, s)
    && r.rx.errors == Reports(cx, s)
    && r.out == Responses(cx, r.rx.delivered)[..|r.rx.delivered| - if r.rx.open then 1 else 0]
  }

  lemma {:induction false} ReceiveFacts(cx: RxContext, ms: seq<Message>)
    requires Receive(cx, RX_INIT, ms).verdict == Continue
    ensures Facts(cx, Receive(cx, RX_INIT, ms), Split(ms))
    decreases |ms|
  {
    if ms != [] {
      var n := |ms| - 1;
      assert ms == ms[..n] + [ms[n]];
      PrefixContinues(cx, RX_INIT, ms[..n], [ms[n]]);
      ReceiveFacts(cx, ms[..n]);
      var r := Receive(cx, RX_INIT, ms[..n]);
      ReceiveAppend(cx, RX_INIT, ms[..n], [ms[n]]);
      var t := OnMessage(cx, r.rx, ms[n]);
      assert [ms[n]][1..] == [] && t.out + [] == t.out;
      assert Receive(cx, RX_INIT, ms) == RxRun(t.rx, r.out + t.out, Continue, []);
      if ms[n].Text? {
        TextFacts(cx, r, Split(ms[..n]), ms[n].data);
      } else {
        BinaryFacts(cx, r, Split(ms[..n]), ms[n].data);
      }
    }
  }

  lemma {:induction false} PrefixContinues(cx: RxContext, rx: RxState, a: seq<Message>, b: seq<Message>)
    requires ValidRx(rx) && Receive(cx, rx, a + b).verdict == Continue
    ensures Receive(cx, rx, a).verdict == Continue
    decreases |a|
  {
    if a != [] {
      assert (a + b)[1..] == a[1..] + b;
      PrefixContinues(cx, OnMessage(cx, rx, a[0]).rx, a[1..], b);
    }
  }

  /** What a text message does to the delivered files, the open file and the stray count. */
  lemma TextStep(cx: RxContext, rx: RxState, data: Bytes)
    requires ValidRx(rx) && OnMessage(cx, rx, Text(data)).verdict == Continue
    ensures var t := OnMessage(cx, rx, Text(data)).rx;
            && t.open == Opens(cx, data).Some?
            && t.errors == rx.errors + Rejection(cx, data)
            && t.delivered == rx.delivered
                 + match Opens(cx, data) case None => [] case Some(f) => [Delivered(f.id, f.size, [])]
  {
    var t := OnMessage(cx, rx, Text(data)).rx;
    var closed := rx.(open := false);
    var h := cx.w.header.parse(data).value;
    assert t == OpenFile(cx.terms, closed, h);
    if Opens(cx, data).None? {
      assert t.delivered == rx.delivered + [];
    } else {
      assert t.errors == rx.errors + [];
    }
  }

  lemma TextFacts(cx: RxContext, r: RxRun, s: Stream, data: Bytes)
    requires ValidRx(r.rx) && Facts(cx, r, s)
    requires OnMessage(cx, r.rx, Text(data)).verdict == Continue
    ensures var t := OnMessage(cx, r.rx, Text(data));
            Facts(cx, RxRun(t.rx, r.out + t.out, Continue, []), s.(segments := s.segments + [Segment(data, [])]))
  {
    hide Opens, Response, Rejection;
    var t := OnMessage(cx, r.rx, Text(data));
    TextStep(cx, r.rx, data);
    var s' := s.(segments := s.segments + [Segment(data, [])]);
    assert s'.segments[..|s.segments|] == s.segments;
    assert s'.(segments := s.segments) == s;
    assert Accepted(cx, s'.segments) == t.rx.delivered;
    assert Reports(cx, s') == t.rx.errors by {
      assert Strays(0) == [];
      assert Reports(cx, s) + Rejection(cx, data) + [] == Reports(cx, s) + Rejection(cx, data);
    }
    TextResponses(cx, r, t);
  }

  lemma TextResponses(cx: RxContext, r: RxRun, t: RxStep)
    requires ValidRx(r.rx) && r.rx.delivered <= t.rx.delivered
    requires |t.rx.delivered| == |r.rx.delivered| + if t.rx.open then 1 else 0
    requires r.out == Responses(cx, r.rx.delivered)[..|r.rx.delivered| - if r.rx.open then 1 else 0]
    requires t.out == if r.rx.open then [Response(cx, |r.rx.delivered| - 1, LastId(r.rx))] else []
    ensures r.out + t.out == Responses(cx, t.rx.delivered)[..|r.rx.delivered|]
  {
    hide Response;
    var n := |r.rx.delivered|;
    var all := Responses(cx, t.rx.delivered)[..n];
    assert all == Responses(cx, r.rx.delivered);
    if r.rx.open {
      assert all[n - 1] == t.out[0] && t.out == [t.out[0]];
    }
    hide Responses;
    if r.rx.open {
      assert all == all[..n - 1] + [all[n - 1]];
    } else {
      assert all[..n] == all && t.out == [];
    }
  }

  lemma BinaryFacts(cx: RxContext, r: RxRun, s: Stream, data: Bytes)
    requires ValidRx(r.rx) && Facts(cx, r, s)
    ensures var t := OnMessage(cx, r.rx, Binary(data));
            Facts(cx, RxRun(t.rx, r.out + t.out, Continue, []), AddBlock(s, data))
  {
    hide Opens, Response, FindFile;
    assert r.out + [] == r.out;
    if r.rx.open {
      OpenBinary(cx, r, s, data);
    } else {
      StrayBinary(cx, r, s, data);
    }
  }

  lemma OpenBinary(cx: RxContext, r: RxRun, s: Stream, data: Bytes)
    requires ValidRx(r.rx) && Facts(cx, r, s) && r.rx.open
    ensures Facts(cx, RxRun(OnMessage(cx, r.rx, Binary(data)).rx, r.out, Continue, []), AddBlock(s, data))
  {
    hide Opens, Response, FindFile, Rejection, Strays;
    var t := OnMessage(cx, r.rx, Binary(data));
    var k := |s.segments| - 1;
    var s' := AddBlock(s, data);
    assert s'.segments[..k] == s.segments[..k] && s'.segments[k].head == s.segments[k].head;
    assert s'.(segments := s'.segments[..k]) == s.(segments := s.segments[..k]);
    assert Responses(cx, t.rx.delivered) == Responses(cx, r.rx.delivered);
  }

  lemma StrayBinary(cx: RxContext, r: RxRun, s: Stream, data: Bytes)
    requires ValidRx(r.rx) && Facts(cx, r, s) && !r.rx.open
    ensures Facts(cx, RxRun(OnMessage(cx, r.rx, Binary(data)).rx, r.out, Continue, []), AddBlock(s, data))
  {
    hide Opens, Response, FindFile, Rejection, Responses;
    assert forall n: nat :: Strays(n + 1) == Strays(n) + [BinaryWithoutHeader];
    if s.segments != [] {
      var k := |s.segments| - 1;
      var s' := AddBlock(s, data);
      assert s'.segments[..k] == s.segments[..k] && s'.segments[k].head == s.segments[k].head;
      assert s'.(segments := s'.segments[..k]) == s.(segments := s.segments[..k]);
    }
  }

  // ---- The exits ----

  /** The message on which a run leaves, and what comes of it. */
  lemma {:induction false} ExitPoint(cx: RxContext, rx: RxState, ms: seq<Message>) returns (k: nat)
    requires ValidRx(rx) && Receive(cx, rx, ms).verdict != Continue
    ensures k < |ms| && Receive(cx, rx, ms[..k]).verdict == Continue
    ensures var r := Receive(cx, rx, ms[..k]);
            var t := OnMessage(cx, r.rx, ms[k]);
            t.verdict != Continue && Receive(cx, rx, ms) == RxRun(t.rx, r.out + t.out, t.verdict, ms[k + 1..])
    decreases |ms|
  {
    hide OnMessage;
    var s := OnMessage(cx, rx, ms[0]);
    if s.verdict != Continue {
      k := 0;
      assert [] + s.out == s.out;
    } else {
      var j := ExitPoint(cx, s.rx, ms[1..]);
      k := j + 1;
      assert ms[..k][0] == ms[0] && ms[..k][1..] == ms[1..][..j] && ms[1..][j + 1..] == ms[k + 1..];
      var r, t := Receive(cx, s.rx, ms[1..][..j]), OnMessage(cx, Receive(cx, s.rx, ms[1..][..j]).rx, ms[k]);
      assert s.out + (r.out + t.out) == (s.out + r.out) + t.out;
    }
  }

  /** A run over the stream `s` that leaves at the message `m`: no file is open any more, and all are answered. */
  ghost predicate LeavesAt(cx: RxContext, r: RxRun, s: Stream, m: Message) {
    && m.Text? && !r.rx.open
    && r.rx.delivered == Accepted(cx, s.segments)
    && r.rx.errors == Reports(cx, s)
    && r.out == Responses(cx, r.rx.delivered)
    && (if LastOpens(cx, s) && |m.data| <= 1 then r.verdict == Complete
        else r.verdict == BadHeader && cx.w.header.parse(m.data).None?)
  }

  /** The facts also hold at both exits, over the messages before the last one read. */
  lemma ExitFacts(cx: RxContext, ms: seq<Message>)
    requires Receive(cx, RX_INIT, ms).verdict != Continue
    ensures var r := Receive(cx, RX_INIT, ms);
            exists k :: 0 <= k < |ms| && r.rest == ms[k + 1..] && LeavesAt(cx, r, Split(ms[..k]), ms[k])
  {
    hide Receive, OnMessage, LeavesAt, Facts;
    var k := ExitPoint(cx, RX_INIT, ms);
    ReceiveFacts(cx, ms[..k]);
    LastStep(cx, Receive(cx, RX_INIT, ms[..k]), Split(ms[..k]), ms[k], ms[k + 1..]);
  }

  lemma LastStep(cx: RxContext, r: RxRun, s: Stream, m: Message, rest: seq<Message>)
    requires ValidRx(r.rx) && Facts(cx, r, s) && OnMessage(cx, r.rx, m).verdict != Continue
    ensures var t := OnMessage(cx, r.rx, m); LeavesAt(cx, RxRun(t.rx, r.out + t.out, t.verdict, rest), s, m)
  {
    hide Accepted, Reports, Opens, FindFile;
    var t := OnMessage(cx, r.rx, m);
    LastAnswer(cx, r, m);
    hide Responses, Response;
  }

  /** Leaving answers the last file. */
  lemma LastAnswer(cx: RxContext, r: RxRun, m: Message)
    requires ValidRx(r.rx) && OnMessage(cx, r.rx, m).verdict != Continue
    requires r.out == Responses(cx, r.rx.delivered)[..|r.rx.delivered| - if r.rx.open then 1 else 0]
    ensures var t := OnMessage(cx, r.rx, m);
            m.Text? && t.rx.delivered == r.rx.delivered && r.out + t.out == Responses(cx, r.rx.delivered)
  {
    hide Response;
    var all := Responses(cx, r.rx.delivered);
    if r.rx.open {
      assert all == all[..|all| - 1] + [all[|all| - 1]];
    } else {
      assert all[..|all|] + [] == all;
    }
  }
}
