/** Long texts travel as binary chunks closed by a delimiter. */
module Framing {
  import opened Prelude
  import opened Chunking
  import opened Wire

  function Binaries(chunks: seq<Bytes>): (ms: seq<Message>)
    ensures |ms| == |chunks|
  {
    seq(|chunks|, i requires 0 <= i < |chunks| => Binary(chunks[i]))
  }

  /** What `send_string_in_chunks` followed by `send_delimiter` puts on the channel. */
  function Framed(s: Bytes): seq<Message> {
    Binaries(Chunks(s, CHUNK_SIZE)) + [DELIMITER]
  }

  /** What `receive_string_from_chunks` returns, and the messages it leaves. */
  function ReadString(buffer: Bytes, inbox: seq<Message>): (Bytes, seq<Message>)
    decreases |inbox|
  {
    if inbox == [] then (buffer, [])
    else if inbox[0].Text? then (buffer, inbox[1..])
    else ReadString(buffer + inbox[0].data, inbox[1..])
  }

  lemma {:induction false} ReadBinaries(buffer: Bytes, chunks: seq<Bytes>, rest: seq<Message>)
    ensures ReadString(buffer, Binaries(chunks) + rest) == ReadString(buffer + Flatten(chunks), rest)
    decreases |chunks|
  {
    var ms := Binaries(chunks) + rest;
    if chunks == [] {
      assert ms == rest && buffer + Flatten(chunks) == buffer;
    } else {
      ReadBinaries(buffer + chunks[0], chunks[1..], rest);
      assert ms[1..] == Binaries(chunks[1..]) + rest;
      assert buffer + Flatten(chunks) == buffer + chunks[0] + Flatten(chunks[1..]);
    }
  }

  /** Binary messages are joined up to any text, whatever it says, or to the end of the channel. */
  lemma ReadStringEnds(chunks: seq<Bytes>, text: Bytes, rest: seq<Message>)
    ensures ReadString([], Binaries(chunks) + [Text(text)] + rest) == (Flatten(chunks), rest)
    ensures ReadString([], Binaries(chunks)) == (Flatten(chunks), [])
  {
    ReadBinaries([], chunks, [Text(text)] + rest);
    ReadBinaries([], chunks, []);
    assert Binaries(chunks) + ([Text(text)] + rest) == Binaries(chunks) + [Text(text)] + rest;
    assert Binaries(chunks) + [] == Binaries(chunks) && [] + Flatten(chunks) == Flatten(chunks);
    assert ([Text(text)] + rest)[1..] == rest;
  }

  lemma ReadFramed(s: Bytes, rest: seq<Message>)
    ensures ReadString([], Framed(s) + rest) == (s, rest)
  {
    var chunks := Chunks(s, CHUNK_SIZE);
    ChunksAreWellCut(s, CHUNK_SIZE);
    ReadBinaries([], chunks, [DELIMITER] + rest);
    assert Framed(s) + rest == Binaries(chunks) + ([DELIMITER] + rest);
    assert ([DELIMITER] + rest)[1..] == rest;
    assert [] + Flatten(chunks) == s;
  }

  function FramedAll(texts: seq<Bytes>): seq<Message> {
    if texts == [] then [] else Framed(texts[0]) + FramedAll(texts[1..])
  }

  /** `n` calls of `receive_string_from_chunks` in a row. */
  function ReadStrings(n: nat, inbox: seq<Message>): (seq<Bytes>, seq<Message>) {
    if n == 0 then ([], inbox)
    else
      var (s, rest) := ReadString([], inbox);
      var (more, left) := ReadStrings(n - 1, rest);
      ([s] + more, left)
  }

  /** Any sequence of texts, empty ones and exact multiples of the chunk size included, is read back with nothing else consumed. */
  lemma {:induction false} FramingRoundTrip(texts: seq<Bytes>, rest: seq<Message>)
    ensures ReadStrings(|texts|, FramedAll(texts) + rest) == (texts, rest)
  {
    if texts == [] {
      assert FramedAll(texts) + rest == rest;
    } else {
      var more := FramedAll(texts[1..]) + rest;
      assert FramedAll(texts) + rest == Framed(texts[0]) + more;
      ReadFramed(texts[0], more);
      FramingRoundTrip(texts[1..], rest);
      assert [texts[0]] + texts[1..] == texts;
    }
  }

  method SendStringInChunks(ch: DataChannel, s: Bytes)
    modifies ch`sent
    ensures ch.sent == old(ch.sent) + Binaries(Chunks(s, CHUNK_SIZE))
  {
    var chunks := ProcessInChunks([s]);
    assert [s][1..] == [] && Flatten([s]) == s;
    SendChunks(ch, chunks);
  }

  method SendChunks(ch: DataChannel, chunks: seq<Bytes>)
    modifies ch`sent
    ensures ch.sent == old(ch.sent) + Binaries(chunks)
  {
    for i := 0 to |chunks|
      invariant ch.sent == old(ch.sent) + Binaries(chunks)[..i]
    {
      ch.Send(Binary(chunks[i]));
    }
  }

  method SendDelimiter(ch: DataChannel)
    modifies ch`sent
    ensures ch.sent == old(ch.sent) + [Text([48])]
  {
    ch.Send(DELIMITER);
  }

  method ReceiveStringFromChunks(ch: DataChannel) returns (s: Bytes)
    modifies ch`inbox
    ensures (s, ch.inbox) == ReadString([], old(ch.inbox))
  {
    s := [];
    while true
      invariant ReadString(s, ch.inbox) == ReadString([], old(ch.inbox))
      decreases |ch.inbox|
    {
      var m := ch.Recv();
      if m.None? || m.value.Text? {
        break;
      }
      s := s + m.value.data;
    }
  }
}
