/** The file transfer: the receive loop undoes the send loop. */
module Transfer {
  import opened Prelude
  import opened Chunking
  import opened Wire
  import opened Framing
  import opened ReceiveLoop
  import opened Sender

  /** The segment a queued file becomes, if the receiver gave a token for it. */
  function SegmentOf(w: Codecs, tokens: map<string, string>, f: QueuedFile): seq<Segment> {
    if f.id !in tokens then []
    else [Segment(w.header.show(SendFileHeader(f.id, tokens[f.id])), Chunks(Flatten(f.blocks), CHUNK_SIZE))]
  }

  function Segments(w: Codecs, tokens: map<string, string>, queue: seq<QueuedFile>): seq<Segment> {
    if queue == [] then [] else SegmentOf(w, tokens, queue[0]) + Segments(w, tokens, queue[1..])
  }

  function ExpectedOf(terms: Terms, f: QueuedFile): seq<Delivered> {
    if f.id !in terms.tokens then []
    else match FindFile(terms.files, f.id)
      case None => []
      case Some(file) => [Delivered(f.id, file.size, Chunks(Flatten(f.blocks), CHUNK_SIZE))]
  }

  /** What should arrive: the queued files that are selected and offered, in order, each cut canonically. */
  function Expected(terms: Terms, queue: seq<QueuedFile>): seq<Delivered> {
    if queue == [] then [] else ExpectedOf(terms, queue[0]) + Expected(terms, queue[1..])
  }

  /** Whether the last file that is sent at all is one that was offered. */
  predicate EndsOffered(terms: Terms, queue: seq<QueuedFile>)
    decreases |queue|
  {
    if queue == [] then false
    else
      var f := queue[|queue| - 1];
      if f.id !in terms.tokens then EndsOffered(terms, queue[..|queue| - 1])
      else FindFile(terms.files, f.id).Some?
  }

  // ---- Splitting what the sender emits ----

  lemma SplitText(ms: seq<Message>, head: Bytes)
    ensures var s := Split(ms); Split(ms + [Text(head)]) == s.(segments := s.segments + [Segment(head, [])])
  {
    assert (ms + [Text(head)])[..|ms|] == ms;
  }

  lemma {:induction false} SplitSegment(ms: seq<Message>, head: Bytes, chunks: seq<Bytes>)
    ensures var s := Split(ms);
            Split(ms + [Text(head)] + Binaries(chunks)) == s.(segments := s.segments + [Segment(head, chunks)])
    decreases |chunks|
  {
    if chunks == [] {
      SplitText(ms, head);
      assert ms + [Text(head)] + Binaries(chunks) == ms + [Text(head)];
    } else {
      var n := |chunks| - 1;
      SplitSegment(ms, head, chunks[..n]);
      var all := ms + [Text(head)] + Binaries(chunks);
      assert all[..|all| - 1] == ms + [Text(head)] + Binaries(chunks[..n]);
      assert all[|all| - 1] == Binary(chunks[n]);
      var s := Split(ms);
      var before := s.segments + [Segment(head, chunks[..n])];
      assert chunks[..n] + [chunks[n]] == chunks;
      assert before[|s.segments| := Segment(head, chunks)] == s.segments + [Segment(head, chunks)];
    }
  }

  lemma SplitFile(w: Codecs, tokens: map<string, string>, ms: seq<Message>, f: QueuedFile)
    ensures var s := Split(ms);
            Split(ms + SendFile(w, tokens, f)) == s.(segments := s.segments + SegmentOf(w, tokens, f))
  {
    hide Split;
    if f.id !in tokens {
      assert ms + SendFile(w, tokens, f) == ms;
      assert Split(ms).segments + [] == Split(ms).segments;
    } else {
      var head := w.header.show(SendFileHeader(f.id, tokens[f.id]));
      var chunks := Chunks(Flatten(f.blocks), CHUNK_SIZE);
      assert ms + SendFile(w, tokens, f) == ms + [Text(head)] + Binaries(chunks);
      SplitSegment(ms, head, chunks);
    }
  }

  lemma {:induction false} SplitSent(w: Codecs, tokens: map<string, string>, ms: seq<Message>, queue: seq<QueuedFile>)
    ensures var s := Split(ms);
            Split(ms + SendFiles(w, tokens, queue)) == s.(segments := s.segments + Segments(w, tokens, queue))
    decreases |queue|
  {
    hide Split, SendFile, SegmentOf;
    if queue == [] {
      assert ms + SendFiles(w, tokens, queue) == ms;
      assert Split(ms).segments + [] == Split(ms).segments;
    } else {
      var one := SendFile(w, tokens, queue[0]);
      assert ms + SendFiles(w, tokens, queue) == (ms + one) + SendFiles(w, tokens, queue[1..]);
      SplitFile(w, tokens, ms, queue[0]);
      SplitSent(w, tokens, ms + one, queue[1..]);
      var g, more := SegmentOf(w, tokens, queue[0]), Segments(w, tokens, queue[1..]);
      assert Split(ms).segments + g + more == Split(ms).segments + (g + more);
    }
  }

  // ---- Which segments are accepted ----

  lemma OpensOwnHeader(cx: RxContext, id: string)
    requires cx.w.Lawful() && id in cx.terms.tokens
    ensures Opens(cx, cx.w.header.show(SendFileHeader(id, cx.terms.tokens[id]))) == FindFile(cx.terms.files, id)
  {
  }

  lemma {:induction false} AcceptedAppend(cx: RxContext, a: seq<Segment>, b: seq<Segment>)
    ensures Accepted(cx, a + b) == Accepted(cx, a) + Accepted(cx, b)
    decreases |b|
  {
    hide Opens;
    if b == [] {
      assert a + b == a;
    } else {
      var n := |b| - 1;
      assert (a + b)[..|a + b| - 1] == a + b[..n] && (a + b)[|a + b| - 1] == b[n];
      AcceptedAppend(cx, a, b[..n]);
      var last := match Opens(cx, b[n].head) case None => [] case Some(f) => [Delivered(f.id, f.size, b[n].body)];
      assert Accepted(cx, a) + (Accepted(cx, b[..n]) + last) == Accepted(cx, a) + Accepted(cx, b[..n]) + last;
    }
  }

  lemma AcceptedFile(cx: RxContext, f: QueuedFile)
    requires cx.w.Lawful()
    ensures Accepted(cx, SegmentOf(cx.w, cx.terms.tokens, f)) == ExpectedOf(cx.terms, f)
  {
    var g := SegmentOf(cx.w, cx.terms.tokens, f);
    if f.id in cx.terms.tokens {
      OpensOwnHeader(cx, f.id);
      assert g[..0] == [] && Accepted(cx, g[..0]) == [];
    }
  }

  lemma {:induction false} AcceptedSent(cx: RxContext, queue: seq<QueuedFile>)
    requires cx.w.Lawful()
    ensures Accepted(cx, Segments(cx.w, cx.terms.tokens, queue)) == Expected(cx.terms, queue)
    decreases |queue|
  {
    if queue != [] {
      AcceptedFile(cx, queue[0]);
      AcceptedSent(cx, queue[1..]);
      AcceptedAppend(cx, SegmentOf(cx.w, cx.terms.tokens, queue[0]), Segments(cx.w, cx.terms.tokens, queue[1..]));
    }
  }

  lemma {:induction false} SegmentsAppend(w: Codecs, tokens: map<string, string>, a: seq<QueuedFile>, b: seq<QueuedFile>)
    ensures Segments(w, tokens, a + b) == Segments(w, tokens, a) + Segments(w, tokens, b)
    decreases |a|
  {
    if a == [] {
      assert a + b == b;
    } else {
      SegmentsAppend(w, tokens, a[1..], b);
      assert (a + b)[1..] == a[1..] + b;
      var g, s, t := SegmentOf(w, tokens, a[0]), Segments(w, tokens, a[1..]), Segments(w, tokens, b);
      assert g + (s + t) == (g + s) + t;
    }
  }

  lemma {:induction false} EndsOfferedOpens(cx: RxContext, queue: seq<QueuedFile>)
    requires cx.w.Lawful()
    ensures EndsOffered(cx.terms, queue) == LastOpens(cx, Stream([], Segments(cx.w, cx.terms.tokens, queue)))
    decreases |queue|
  {
    if queue != [] {
      var n := |queue| - 1;
      var f := queue[n];
      assert queue == queue[..n] + [f];
      SegmentsAppend(cx.w, cx.terms.tokens, queue[..n], [f]);
      assert [f][1..] == [];
      if f.id in cx.terms.tokens {
        OpensOwnHeader(cx, f.id);
      } else {
        EndsOfferedOpens(cx, queue[..n]);
        var s := Segments(cx.w, cx.terms.tokens, queue[..n]);
        assert s + [] == s;
      }
    }
  }

  // ---- The loop does not leave before the delimiter ----

  lemma {:induction false} BinariesContinue(cx: RxContext, rx: RxState, chunks: seq<Bytes>)
    requires ValidRx(rx)
    ensures Receive(cx, rx, Binaries(chunks)).verdict == Continue
    decreases |chunks|
  {
    if chunks != [] {
      assert Binaries(chunks)[1..] == Binaries(chunks[1..]);
      BinariesContinue(cx, OnMessage(cx, rx, Binaries(chunks)[0]).rx, chunks[1..]);
    }
  }

  lemma FileContinues(cx: RxContext, rx: RxState, f: QueuedFile)
    requires cx.w.Lawful() && ValidRx(rx)
    ensures Receive(cx, rx, SendFile(cx.w, cx.terms.tokens, f)).verdict == Continue
  {
    if f.id in cx.terms.tokens {
      var ms := SendFile(cx.w, cx.terms.tokens, f);
      var h := SendFileHeader(f.id, cx.terms.tokens[f.id]);
      assert ms[0] == Text(cx.w.header.show(h)) && cx.w.header.parse(cx.w.header.show(h)) == Some(h);
      var chunks := Chunks(Flatten(f.blocks), CHUNK_SIZE);
      assert ms[1..] == Binaries(chunks);
      assert OnMessage(cx, rx, ms[0]).verdict == Continue;
      BinariesContinue(cx, OnMessage(cx, rx, ms[0]).rx, chunks);
    }
  }

  lemma {:induction false} SentContinues(cx: RxContext, rx: RxState, queue: seq<QueuedFile>)
    requires cx.w.Lawful() && ValidRx(rx)
    ensures Receive(cx, rx, SendFiles(cx.w, cx.terms.tokens, queue)).verdict == Continue
    decreases |queue|
  {
    hide OnMessage, SendFile;
    if queue != [] {
      var one := SendFile(cx.w, cx.terms.tokens, queue[0]);
      FileContinues(cx, rx, queue[0]);
      SentContinues(cx, Receive(cx, rx, one).rx, queue[1..]);
      ReceiveAppend(cx, rx, one, SendFiles(cx.w, cx.terms.tokens, queue[1..]));
    }
  }

  /**
   * The receive loop on exactly what the send loop emits, for any queue of files in any blocks: it takes
   * every message; it delivers precisely the selected and offered files, in order, each with the canonical
   * cut of its content; it answers every delivered file once, under its own id; and it stops cleanly at the
   * delimiter exactly when the last file sent was one of the offered ones, otherwise on an unreadable header.
   */
  lemma TransferRoundTrip(cx: RxContext, queue: seq<QueuedFile>)
    requires cx.w.Lawful()
    ensures var r := Receive(cx, RX_INIT, SendFiles(cx.w, cx.terms.tokens, queue) + [DELIMITER]);
            && r.rest == []
            && r.rx.delivered == Expected(cx.terms, queue)
            && r.out == Responses(cx, Expected(cx.terms, queue))
            && (forall k :: 0 <= k < |r.out| ==> Answers(cx, r.out[k], k, r.rx.delivered[k].id))
            && r.verdict == (if EndsOffered(cx.terms, queue) then Complete else BadHeader)
  {
    hide Receive, SendFiles, Expected, EndsOffered, Answers, Responses;
    BeforeDelimiter(cx, queue);
    var ms := SendFiles(cx.w, cx.terms.tokens, queue);
    ReceiveAppend(cx, RX_INIT, ms, [DELIMITER]);
    DelimiterStep(cx, Receive(cx, RX_INIT, ms));
    var expected := Expected(cx.terms, queue);
    forall k | 0 <= k < |expected| ensures Answers(cx, Responses(cx, expected)[k], k, expected[k].id) {
      ResponsesAnswer(cx, expected, k);
    }
  }

  lemma BeforeDelimiter(cx: RxContext, queue: seq<QueuedFile>)
    requires cx.w.Lawful()
    ensures var r := Receive(cx, RX_INIT, SendFiles(cx.w, cx.terms.tokens, queue));
            && r.verdict == Continue
            && r.rx.delivered == Expected(cx.terms, queue) && r.rx.open == EndsOffered(cx.terms, queue)
            && r.out == Responses(cx, r.rx.delivered)[..|r.rx.delivered| - if r.rx.open then 1 else 0]
  {
    var ms := SendFiles(cx.w, cx.terms.tokens, queue);
    var segments := Segments(cx.w, cx.terms.tokens, queue);
    assert Split(ms) == Stream([], segments) by {
      SplitSent(cx.w, cx.terms.tokens, [], queue);
      assert [] + ms == ms && [] + segments == segments;
    }
    hide Receive, SendFiles, Segments, Split, Accepted, LastOpens, Expected, EndsOffered, Responses;
    SentContinues(cx, RX_INIT, queue);
    ReceiveFacts(cx, ms);
    AcceptedSent(cx, queue);
    EndsOfferedOpens(cx, queue);
  }

  lemma DelimiterStep(cx: RxContext, r: RxRun)
    requires cx.w.Lawful() && ValidRx(r.rx)
    requires r.out == Responses(cx, r.rx.delivered)[..|r.rx.delivered| - if r.rx.open then 1 else 0]
    ensures var t := Receive(cx, r.rx, [DELIMITER]);
            && t.rest == [] && t.rx.delivered == r.rx.delivered
            && r.out + t.out == Responses(cx, r.rx.delivered)
            && t.verdict == (if r.rx.open then Complete else BadHeader)
  {
    Unroll(cx, r.rx, [DELIMITER], []);
    LastAnswer(cx, r, DELIMITER);
    hide Receive, Responses;
    assert [DELIMITER][1..] == [];
  }

  /** The queued files that the receiver selected and the sender offered, in order. */
  function Deliverable(terms: Terms, queue: seq<QueuedFile>): seq<QueuedFile> {
    if queue == [] then []
    else (if queue[0].id in terms.tokens && FindFile(terms.files, queue[0].id).Some? then [queue[0]] else [])
         + Deliverable(terms, queue[1..])
  }

  /** A delivered file is a queued file: the same id, its declared size and, behind the application's buffer, the same bytes in 1 MiB batches. */
  ghost predicate Carries(terms: Terms, d: Delivered, f: QueuedFile) {
    && d.id == f.id && (exists file <- terms.files :: file.id == f.id && file.size == d.size)
    && Flatten(d.blocks) == Flatten(f.blocks)
    && Batches([], d.blocks) == Chunks(Flatten(f.blocks), BUFFER_SIZE)
  }

  /** What should arrive is exactly the deliverable files, in order, whatever the block boundaries on the way in. */
  lemma {:induction false} ExpectedIsDeliverable(terms: Terms, queue: seq<QueuedFile>)
    ensures var expected, files := Expected(terms, queue), Deliverable(terms, queue);
            |expected| == |files| && forall k :: 0 <= k < |files| ==> Carries(terms, expected[k], files[k])
    decreases |queue|
  {
    if queue != [] {
      var f := queue[0];
      BytePath(f.blocks);
      ChunksAreWellCut(Flatten(f.blocks), CHUNK_SIZE);
      ExpectedIsDeliverable(terms, queue[1..]);
    }
  }
}
