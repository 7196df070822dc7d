# LocalSend: the peer-to-peer protocols, modelled and proved in Dafny

The project models the parts of LocalSend that two parties have to agree on:

- **The WebRTC transfer** (`core/src/webrtc/webrtc.rs`). `Wire`, `Chunking`, `Framing`, `Pin`, `ReceiveLoop` are the layers;
  `Sender` and `Receiver` are the tasks of `send_offer` and `accept_offer` as state machines that stop at every read;
  `SendTask` and `ReceiveTask` are the same tasks as sequential programs over a channel object, proved to behave as the
  machines do, by way of `Tasks`; `Network` is the theory of two deterministic programs joined by two FIFO queues;
  `Transfer`, `Session` and `TokenSession` hold the joint theorems.
- **The rooms of the signaling server** (`server/src/controller/ws_controller.rs`): `Rooms`, `RoomLaws`, `Delivery`.
- **Tokens** (`core/src/crypto/token.rs`): `Base64`, `Fields`, `Endian`, `Token`.
- **Nonce caches and answer callbacks**: `NonceCache`, `AnswerRegistry`.
- **The Dart/Rust binary codec** (`app/rust/src/frb_generated.rs`): `SseCodec`, `SseTypes`.
- **Address groups** (`server/src/util/ip.rs`): `IpGroup`.

## How it is modelled

The data channel is ordered, reliable, unbounded, and keeps text and binary messages apart (section 6.6 of RFC 8831). A task
that ends closes its side: what it sent before still arrives, then reads see the end of the channel, and what is sent to it
is lost. One step of a run is one send or one read of one side; a schedule is any sequence of such steps. `Network.Confluence`
shows that schedules do not matter for the outcome, so a session is computed once and the result holds for all of them.

Parameters, arbitrary unless said: `serde_json` for each document type (the laws of `Wire.Serde.Lawful`: what is printed
parses back, and a text that parses has at least two bytes, since every document is a JSON object); nonces, of 32 bytes as
`generate_nonce` makes them; the making and checking of tokens; the user's PIN answers, file choice and per-file results; SHA-256; signatures, with the single law that a key's public
half accepts what the key signs; which byte strings are UTF-8; the byte order of the machine; the two limits
of the server. The application's status, error and file channels accept what they are given.

Base64 is the URL-safe alphabet without padding (section 5 of RFC 4648), byte by byte, and refuses non-zero trailing bits.
Error values are datatypes, one constructor for each reason a peer gives up; their texts are left out. A panic ends the task it
happens in, and with it that side of the channel. Overflowing `u64` subtraction wraps, as in a release build.

## What the code does that its documentation does not say

- A receiver with an *empty* PIN never completes a session: it accepts before reading, and the PIN that the sender still sends
  ends its next framed read (`Session.EmptyReceiverPinNeverWorks`). An empty PIN of the sender counts as none.
  With a PIN that is not empty and no try allowed at all, either challenge fails every session.
- The receiver stops cleanly at the end delimiter exactly when the last file that was sent at all is one that was offered
  (`Transfer.TransferRoundTrip`). With no open file the delimiter is parsed as a header and fails; the files already handed
  out are complete in either case, and the sender reports success.
- The sender reads one message after its delimiter; the other file results stay on the channel (`Session.SessionEnds` says
  exactly which).
- A Hello can be overtaken by a message of another peer, and the newcomer's view then stays wrong (`Delivery.HelloOvertaken`).
  `Delivery.DeliveredViewIsRight` says exactly when the view is right.
- A token with fewer than five fields is an out-of-range slice; fields after the fifth are ignored (`Token.VerifyExact`). A
  receiver that checks such a token ends without the reply that a refused token gets; both sides fail either way
  (`Session.TokenPhase`).
- A timestamp almost 2^64 seconds ahead of the clock passes when the clock is within its first hour (`Token.Freshness`).
- The client does not check the length of the server's nonce (`NonceCache.NonceMaps.NonceAnswered`).
- A vector of 2^31 or more items is written with a negative count and is not read back (`SseCodec.VecExact`).

## Model

| member | source | states |
|---|---|---|
| Session.SessionEnds | core/src/webrtc/webrtc.rs:222-996 | Whatever the tokens, PINs, users, files and queue, and in every interleaving, a session is finite, cannot deadlock, and ends in one state: both fail (over a PIN that is not empty, with at least one try: for matching reasons and with empty queues), both stop over the user's decision, or both transfer on the same nonce, file list and tokens, with exactly the deliverable files handed out and exactly the unread results left on the channel |
| Session.AgreementOnTheWay | core/src/webrtc/webrtc.rs:488-560 | In every reachable state, a peer that has entered the transfer holds the terms on which the whole session ends; what has been handed out is a first part of what should arrive; and what has come or is on its way to a sender in the transfer is a first part of the answers to the files, so no handshake message is left |
| Session.TriedMeans | core/src/webrtc/webrtc.rs:1174-1226 | A PIN challenge is passed exactly when one of the first max_tries answers is the PIN and the user does not give up before it, and lost exactly when there are max_tries answers and all are wrong |
| Session.ReceiverVerifies | core/src/webrtc/webrtc.rs:297-325 | The receiver's challenge by single texts: both peers reach the same verdict from any try on; then the sender's challenge follows, or both fail for that reason with no PIN or reply left unread |
| Session.SenderVerifies | core/src/webrtc/webrtc.rs:783-826 | The sender's challenge by framed texts, in which the file list is itself the acceptance: same verdict on both sides; then the user's choice, or both fail for that reason with no PIN or reply left unread |
| Session.EmptyReceiverPinNeverWorks | core/src/webrtc/webrtc.rs:735-781 | With an empty receiver PIN every interleaving of every session fails on both sides, whatever the answers |
| Session.ListPhase | core/src/webrtc/webrtc.rs:366-486 | From the file list on, the session ends as the receiving user decides |
| TokenSession.KnownPeersPass | core/src/webrtc/webrtc.rs:252-293 | Peers that sign with the keys the other one expects never fail over tokens, in any interleaving |
| TokenSession.ReplayedTokenFails | core/src/webrtc/webrtc.rs:709-720 | A token that any key accepts for other nonces makes every interleaving fail on both sides with no file handed out |
| TokenSession.AlteredTokenFails | core/src/webrtc/webrtc.rs:709-720 | So does a token that carries the signature of one accepted for other nonces, whatever its other fields, if hashes do not collide and a signature fits one message |
| TokenSession.OpenPeersPass | core/src/webrtc/webrtc.rs:276-293 | Peers that expect no keys never fail over tokens, in any interleaving, whatever the tokens |
| TokenSession.ReceiverDecides | core/src/webrtc/webrtc.rs:709-720 | If only the receiver expects a key, its check of the sender's token decides whether every interleaving goes on to the PINs or fails on both sides |
| TokenSession.SenderDecides | core/src/webrtc/webrtc.rs:276-293 | If only the sender does, its check of the receiver's token decides |
| Network.Confluence | core/src/webrtc/webrtc.rs:1334-1352 | Two deterministic programs over two FIFO queues: any two runs from one start can be continued to a common state |
| Network.EveryRunEndsThere | core/src/webrtc/webrtc.rs:1334-1352 | If one run ends, all runs are bounded, can be continued to the same end, and get stuck nowhere else |
| SendTask.SendOffer | core/src/webrtc/webrtc.rs:222-561 | The sequential task: on every inbox, the same result, reasons of failure included, and the same messages as the sender machine; and against any peer, it ends as one that has sent its file list if and only if the peer is admitted |
| SendTask.SendAfterTokens | core/src/webrtc/webrtc.rs:262-325 | The token response and the answers to the receiver's challenge, as the machine |
| SendTask.OnlyAdmittedPeers | core/src/webrtc/webrtc.rs:233-362 | Whatever the peer sends, the sender comes to send its file list if and only if the nonce and the token are good, the receiver's challenge is passed and a right PIN follows within max_tries messages; which of the two it was shows in how it ends |
| SendTask.OfferOutcome | core/src/webrtc/webrtc.rs:364-560 | After its file list, whatever is answered: files, delimiter, one read and success for a list of tokens; a declined end for a refusal; failure for anything else; with all messages sent |
| SendTask.BadTokenOutcome | core/src/webrtc/webrtc.rs:275-293 | A token that does not pass its check ends the sender with nothing more sent |
| SendTask.SendAfterChallenge | core/src/webrtc/webrtc.rs:327-362 | Its own PIN challenge, then the list and the files, as the machine |
| SendTask.SendFileListAndFiles | core/src/webrtc/webrtc.rs:364-560 | The file list, the reply, the files, the delimiter and the one read after it, as the machine |
| SendTask.SendQueue | core/src/webrtc/webrtc.rs:500-552 | Emits, for each queued file with a token, its header and the canonical chunks of its content, in order; reports the others, in order |
| SendTask.SentOrReported | core/src/webrtc/webrtc.rs:500-513 | Every queued file is either sent or reported, and the reported ids are exactly the queued ones without a token |
| SendTask.AskingIsHandlePin | core/src/webrtc/webrtc.rs:297-325 | The machine's answering states are handle_pin on single texts, on every inbox |
| SendTask.JudgingIsVerifyPin | core/src/webrtc/webrtc.rs:327-362 | The machine's challenging states are verify_pin with framed notices, on every inbox |
| ReceiveTask.AcceptOffer | core/src/webrtc/webrtc.rs:665-996 | The sequential task: on every inbox, the same result, reasons of failure included, and the same messages as the receiver machine; and against any peer, it ends as one that has come to read an offer if and only if the peer is admitted |
| ReceiveTask.OnlyAdmittedPeers | core/src/webrtc/webrtc.rs:677-770 | Whatever the peer sends, the receiver comes to read an offer if and only if the nonce and the token are good and a right PIN follows within max_tries messages; which of the two it was shows in how it ends |
| ReceiveTask.BadTokenOutcome | core/src/webrtc/webrtc.rs:709-720 | A token that does not pass ends the task: with a refusal sent if the check returns, with nothing sent if it panics |
| ReceiveTask.OfferOutcome | core/src/webrtc/webrtc.rs:772-826 | After any first framed string: the user's choice for a file list, the PIN dialogue and then the choice for a challenge, failure for anything else |
| ReceiveTask.DecisionOutcome | core/src/webrtc/webrtc.rs:836-995 | After the user's choice, whatever arrives: nothing, the framed refusal, or the framed tokens and the receive loop, with its three ends |
| ReceiveTask.AcceptToken | core/src/webrtc/webrtc.rs:695-770 | Token check, reply and PIN challenge, as the machine |
| ReceiveTask.TakeOffer | core/src/webrtc/webrtc.rs:772-826 | The framed offer or the sender's challenge, as the machine |
| ReceiveTask.ChooseAndReceive | core/src/webrtc/webrtc.rs:836-995 | Selection, tokens and the receive loop, as the machine |
| ReceiveTask.ExaminingIsVerifyPin | core/src/webrtc/webrtc.rs:735-770 | The machine's challenging states are verify_pin with single texts, followed by the acceptance, on every inbox |
| ReceiveTask.AskingIsHandlePin | core/src/webrtc/webrtc.rs:785-817 | The machine's answering states are handle_pin on framed replies, on every inbox |
| ReceiveTask.ReceivingIsTheLoop | core/src/webrtc/webrtc.rs:882-995 | The machine's last state is the receive loop, on every inbox |
| Transfer.TransferRoundTrip | core/src/webrtc/webrtc.rs:882-995 | The receive loop on exactly what the send loop emits, for any queue of files of any sizes: every message is taken, the selected and offered files are delivered in order with their content, each is answered once with its id and what the application said of it, and the stop is clean exactly when the last file sent was offered |
| Transfer.ExpectedIsDeliverable | core/src/webrtc/webrtc.rs:500-552 | What should arrive is the deliverable files one for one, each with its id, its declared size and its bytes, in blocks that the application's buffer turns into the canonical 1 MiB cut |
| Transfer.SplitSent | core/src/webrtc/webrtc.rs:515-541 | The emitted stream, split at its texts, is one segment per sent file |
| ReceiveLoop.ReceiveFiles | core/src/webrtc/webrtc.rs:882-993 | The loop with its file state and exits, against its step function |
| ReceiveLoop.OnText | core/src/webrtc/webrtc.rs:885-976 | The text branch: answer for the file that ends, delimiter only while a file is open, header checks in order |
| ReceiveLoop.ReceiveFacts | core/src/webrtc/webrtc.rs:883-993 | For arbitrary message streams: the delivered files are exactly the segments whose header has the matching token and an offered id, with their binary messages; the reports are, in order, one for every rejected header with its reason and one for every other binary message; every delivered file but an open one is answered once, in order |
| ReceiveLoop.ResponsesAnswer | core/src/webrtc/webrtc.rs:890-908 | Each answer names its file, says success exactly if the application did, and otherwise gives the application's reason or the default one |
| ReceiveLoop.OpensMeans | core/src/webrtc/webrtc.rs:923-963 | A text opens a file exactly if it is a header with the token given for its id and the id was offered |
| ReceiveLoop.ExitFacts | core/src/webrtc/webrtc.rs:885-923 | The same at both exits of the loop, over the messages before the last one read: no file is open, all delivered files are answered, and the exit is clean exactly for a delimiter while a file was open, otherwise at an unreadable header |
| ReceiveLoop.UnsplitSplit | core/src/webrtc/webrtc.rs:883-993 | Reading a stream as segments loses nothing |
| ReceiveLoop.FindFile | core/src/webrtc/webrtc.rs:949-963 | Finds the first offered file of the id, exactly when there is one |
| Pin.VerifyPin | core/src/webrtc/webrtc.rs:1174-1226 | The retry loop, with a counter that never leaves 8 bits: verdict, notices sent and messages left unread |
| Pin.VerifyExact | core/src/webrtc/webrtc.rs:1188-1225 | For a non-empty PIN: accepts the first right PIN among the first max_tries with exactly one notice per wrong one and reads nothing after it, otherwise reads exactly max_tries PINs and rejects |
| Pin.VerifyAnyInbox | core/src/webrtc/webrtc.rs:1188-1225 | Whatever arrives, for a non-empty PIN: accepts exactly if one of the first max_tries messages is the right PIN and all before it are PIN messages, and leaves everything after it unread |
| Pin.HandlePin | core/src/webrtc/webrtc.rs:1110-1166 | The answering loop, for single and framed replies: result, PINs sent and messages left unread |
| Pin.HandleTexts | core/src/webrtc/webrtc.rs:1118-1165 | The answering loop on any inbox of single replies: it passes exactly at the first text that is not "again", having sent one PIN for each reply, and leaves what follows unread |
| Pin.HandleFramed | core/src/webrtc/webrtc.rs:1118-1165 | The same on any inbox of framed replies |
| Framing.FramingRoundTrip | core/src/webrtc/webrtc.rs:1303-1332 | Any sequence of texts, empty ones and exact multiples of the chunk size included, is read back with the messages after it untouched |
| Framing.ReadStringEnds | core/src/webrtc/webrtc.rs:1321-1332 | Binary messages are joined up to any text, or to the end of the channel |
| Framing.SendStringInChunks | core/src/webrtc/webrtc.rs:1303-1319 | Sends the canonical chunks of the text |
| Framing.SendDelimiter | core/src/webrtc/webrtc.rs:1250-1254 | Sends the text "0" |
| Framing.ReceiveStringFromChunks | core/src/webrtc/webrtc.rs:1321-1332 | Joins binary messages up to the next text or the end of the channel |
| Chunking.ProcessInChunks | core/src/webrtc/webrtc.rs:1266-1299 | The output depends only on the concatenation of the input: it is its canonical cut into 16384 bytes |
| Chunking.ChunksAreWellCut | core/src/webrtc/webrtc.rs:1285-1296 | The canonical cut keeps the bytes, has full chunks but for a non-empty last one, and as few as possible |
| Chunking.WellCutIsUnique | core/src/webrtc/webrtc.rs:1285-1296 | No other list of chunks has these properties |
| Chunking.BufferReceiver | app/rust/src/util/bytes.rs:7-35 | The buffering loop, against its recursive form |
| Chunking.BatchesOfAnyBlocks | app/rust/src/util/bytes.rs:15-31 | For blocks of any sizes: no byte is lost, no batch is empty, every batch but the last has at least 1 MiB, and all have less than 1 MiB plus the largest block |
| Chunking.BytePath | app/rust/src/util/bytes.rs:15-31 | Re-chunker, forwarding and buffer together: the application gets the canonical 1 MiB cut of the original bytes |
| Sender.ReadNonceText | core/src/webrtc/webrtc.rs:1078-1101 | A nonce of valid length, sent by one peer, is read by the other |
| Sender.ReadNonceMeans | core/src/webrtc/webrtc.rs:1078-1101 | A nonce is read exactly from a text that is the document of its encoding, if it has 16 to 128 bytes |
| Rooms.SignalingServer.Connect | server/src/controller/ws_controller.rs:108-163 | The connect section: limits in order, Join to those present, Hello with those present, then the insertion; a refusal may leave an empty room |
| Rooms.SignalingServer.Request | server/src/controller/ws_controller.rs:184-195 | A parsed client message is counted, or refused with an error to its sender |
| Rooms.SignalingServer.SendUpdateToOtherPeers | server/src/controller/ws_controller.rs:275-306 | Writes the info of a connected peer and addresses the others |
| Rooms.SignalingServer.SendToPeer | server/src/controller/ws_controller.rs:313-356 | An offer or answer goes to its target with its session and text, if the target is in the sender's group |
| Rooms.SignalingServer.Disconnect | server/src/controller/ws_controller.rs:249-273 | Removes the peer, and its room if empty; addresses those who remain |
| Rooms.SignalingServer.ProtectRequestCount | server/src/controller/ws_controller.rs:358-369 | Counts up to the limit, and says whether it did |
| Rooms.SignalingServer.Clear | server/src/config/scheduler.rs:11-16 | All counters go, no room changes |
| Rooms.ViewsAlwaysMatch | server/src/controller/ws_controller.rs:108-163 | In every reachable state, under any interleaving, the messages addressed to a connected peer, replayed in lock order, give exactly its room without itself, with current infos; and no peer is in two rooms |
| Rooms.RoomAfterApply | server/src/controller/ws_controller.rs:251-297 | What each event makes of each room: other rooms never change |
| Rooms.RoomIsThere | server/src/controller/ws_controller.rs:111-123 | Which rooms exist after each event: a connection leaves its room even if it is refused, the last peer's end removes it |
| RoomLaws.LimitsHold | server/src/controller/ws_controller.rs:358-369 | Over all runs a group's counter is the number of requests since the last clear that reached it, cut off at the limit, and no room has more peers than allowed |
| RoomLaws.AdmissionIsExact | server/src/controller/ws_controller.rs:111-123 | Over all runs a request is admitted exactly while fewer than the limit were attempted since the last clear, and refused with code 429 to its sender; a connection is admitted and entered exactly if, besides, the room has space |
| RoomLaws.RelaysArrive | server/src/controller/ws_controller.rs:313-356 | Over all runs every peer is addressed exactly the offers and answers meant for it while it was in the sender's group, once and in order |
| RoomLaws.AlwaysIntroduced | server/src/controller/ws_controller.rs:125-163 | In every reachable state two peers in a room were introduced: one has the other in its Hello, the other got one Join |
| RoomLaws.IntroducedOnce | server/src/controller/ws_controller.rs:125-163 | For two peers that were ever in one room, at any later time: exactly one has the other in its Hello, and the other was addressed exactly one Join for it |
| Delivery.MailHasOneHello | server/src/controller/ws_controller.rs:125-163 | In every reachable state, the mail of a connected peer is one Hello, with nothing but refusals before it and no Hello after it |
| Delivery.DeliveredViewIsRight | server/src/controller/ws_controller.rs:152-163 | In every reachable state, for every connected peer and every delivery of its mail that keeps the order of each sender: its view is the room without itself exactly when no peer had all its messages before the Hello with a last one that disagrees with the Hello |
| Delivery.HelloOvertaken | server/src/controller/ws_controller.rs:152-163 | A reachable run in which a Left arrives before the Hello and the view stays wrong |
| IpGroup.SameGroup | server/src/util/ip.rs:3-18 | Two addresses share a group exactly when they are one IPv4 address, or IPv6 with equal first four segments |
| IpGroup.GroupFields | server/src/util/ip.rs:3-18 | The group is the four octets in decimal between dots, or the first four segments in hexadecimal between colons |
| Fields.DigitsInjective | server/src/util/ip.rs:3-18 | Decimal and hexadecimal printing without leading zeros is injective |
| Fields.DigitsDenote | server/src/util/ip.rs:3-18 | The digits stand for the number, are lower-case and have no leading zero |
| Fields.SplitJoin | core/src/crypto/token.rs:128-136 | Fields without the separator are split back |
| Fields.JoinSplit | core/src/crypto/token.rs:182 | Whatever the text, its fields hold no separator and join to it again |
| Base64.DecodeEncode | core/src/util/base64.rs:5-13 | Decoding undoes encoding, for bytes of any length |
| Base64.EncodeDecode | core/src/util/base64.rs:5-13 | Only the canonical text of some bytes decodes |
| Base64.EncodedAt | core/src/util/base64.rs:5-9 | Every character is the one that RFC 4648 gives the corresponding six bits, and there is no padding |
| Base64.NoDot | core/src/crypto/token.rs:118-136 | No encoded field contains the separator of a token |
| Token.VerifyExact | core/src/crypto/token.rs:177-220 | A token is accepted exactly when its first five fields are the ones printed for an acceptable salt under this key with a valid signature; too few fields fail the slice |
| Token.GeneratedFields | core/src/crypto/token.rs:118-136 | The five printed fields: the hash is over public key and salt, and the hash is what is signed |
| Token.GeneratedPasses | core/src/crypto/token.rs:118-136 | A printed token passes under its key exactly when its salt is acceptable |
| Token.NonceRoundTrip | core/src/crypto/token.rs:166-175 | A token made for a nonce is accepted for that nonce and no other |
| Token.NonceExact | core/src/crypto/token.rs:166-175 | The nonce check accepts exactly the genuine tokens whose salt is the nonce |
| Token.SignedOverNonce | core/src/crypto/token.rs:201-217 | An accepted token holds the hash of the key and this very nonce, and a valid signature of that hash |
| Token.SignatureBindsNonce | core/src/crypto/token.rs:201-217 | Two accepted tokens with the same signature have the same nonce, if hashes do not collide and a signature fits one message |
| Token.OneNonce | core/src/crypto/token.rs:166-220 | One token never passes under two nonces, whatever the keys, and fixes method and digest |
| Token.IdentifierIsFourthField | core/src/crypto/token.rs:138-141 | The identifier is the fourth field, and missing exactly if there are fewer |
| Token.GeneratedIdentifier | core/src/crypto/token.rs:118-141 | The identifier of a printed token is ed25519 |
| Token.Freshness | core/src/crypto/token.rs:112-164 | A timestamp token passes exactly within the hour after it was made, or by wrap-around almost 2^64 seconds before; only the former once the clock is past its first hour |
| Token.TimestampExact | core/src/crypto/token.rs:143-164 | Of all tokens, exactly those pass that are genuine for the eight bytes of a time within the hour, or of the wrap-around |
| Endian.LittleEndianRoundTrip | core/src/crypto/token.rs:112-164 | A number that fits the width is read back from its bytes |
| Endian.LittleEndianBytes | core/src/crypto/token.rs:112-116 | The bytes as written, lowest first |
| Endian.BytesRoundTrip | core/src/crypto/token.rs:143-164 | Any bytes are those of the number read from them |
| NonceCache.NonceMaps.NonceExchange | core/src/http/server/controller/v3.rs:17-50 | The server's half: refuses bad text and lengths outside 16 to 128 without a change; else the client's nonce is the newest received one and its own new nonce the newest generated one, and the reply is the latter |
| NonceCache.NonceMaps.NonceAnswered | core/src/http/client/v3.rs:75-95 | The client's half, which checks the text only: the server's nonce is the newest received one, its own the newest generated one |
| NonceCache.CachesHoldLatest | core/src/http/server/mod.rs:43-55 | After any history both caches hold the same remotes in the same order: the 200 with the most recent last exchange, latest first, each with both nonces of that exchange |
| NonceCache.LatestMeans | core/src/http/server/mod.rs:43-55 | The positions used there are exactly those of last exchanges, latest first |
| AnswerRegistry.ManagedSignalingConnection.OnAnswer | core/src/webrtc/signaling.rs:364-370 | Registers a callback, replacing one of the same session |
| AnswerRegistry.ManagedSignalingConnection.Listen | core/src/webrtc/signaling.rs:292-301 | Takes out and calls the callback of an answer, forwards every message |
| AnswerRegistry.RegistryIsLookBack | core/src/webrtc/signaling.rs:282-313 | Over any history: the calls are those that looking back for the session's last event gives, and every message is forwarded once, in order |
| AnswerRegistry.WaitingMeans | core/src/webrtc/signaling.rs:364-370 | A callback waits exactly when it was registered and nothing touched its session since |
| AnswerRegistry.CalledExactly | core/src/webrtc/signaling.rs:282-313 | A callback is called with a message exactly when that is an answer of its session and the first event of the session after its registration |
| AnswerRegistry.CalledOnce | core/src/webrtc/signaling.rs:294-298 | Over any history no callback is in the log of calls twice, not even when an answer is delivered twice |
| SseCodec.SseSerializer.WriteVec | app/rust/src/frb_generated.rs:4076-4134 | The generated loop appends count and items to the cursor |
| SseCodec.SseDeserializer.ReadVec | app/rust/src/frb_generated.rs:2344-2416 | The generated loop reads as many items as the count says and advances the cursor past them |
| SseCodec.SseDeserializer.ReadAll | app/rust/src/frb_generated.rs:2344-2416 | Its for loop, for any count, negative ones included |
| SseCodec.VecExact | app/rust/src/frb_generated.rs:4076-4134 | A vector comes back with the bytes after it left over exactly when its length is below 2^31 |
| SseCodec.VecBytes | app/rust/src/frb_generated.rs:4076-4134 | A vector is its 32-bit count and then its items, in order |
| SseCodec.NegativeCount | app/rust/src/frb_generated.rs:2344-2354 | A count of 2^31 or more is negative and reads as no items |
| SseCodec.UnsignedRoundTrip | app/rust/src/frb_generated.rs:2762-2786 | Fixed-width integers come back, in either byte order |
| SseCodec.NumberBytes | app/rust/src/frb_generated.rs:4418-4437 | Numbers of one, two and four bytes as written on either kind of machine |
| SseCodec.LongNumberBytes | app/rust/src/frb_generated.rs:4425-4430 | The same for eight bytes |
| SseCodec.ReadNumber | app/rust/src/frb_generated.rs:2762-2781 | Reading fails exactly on too few bytes, and otherwise gives the number whose bytes they are |
| SseCodec.BoolRoundTrip | app/rust/src/frb_generated.rs:3973-3978 | Booleans come back |
| SseCodec.OptionRoundTrip | app/rust/src/frb_generated.rs:4152-4160 | Optional values come back |
| SseCodec.FlagBytes | app/rust/src/frb_generated.rs:4152-4160 | The flag of a boolean and of an option is one byte, one or zero; any byte but zero reads as true |
| SseCodec.PairExact | app/rust/src/frb_generated.rs:3980-3990 | Fields in sequence come back if each field does |
| SseCodec.CollectIteration | app/rust/src/frb_generated.rs:2039-2045 | Collecting any iteration of a map gives the map |
| SseCodec.CollectLast | app/rust/src/frb_generated.rs:2039-2045 | Collecting any entries gives each key its last value |
| SseCodec.MapRoundTrip | app/rust/src/frb_generated.rs:3799-3811 | A map comes back whatever the iteration order of the encoder |
| SseCodec.SetRoundTrip | app/rust/src/frb_generated.rs:3908-3913 | So does a set |
| SseTypes.TaggedExact | app/rust/src/frb_generated.rs:4454-4492 | A tagged union comes back if each branch does |
| SseTypes.ClientExact | app/rust/src/frb_generated.rs:2219-2237 | Client records and vectors of them come back |
| SseTypes.ClientBytes | app/rust/src/frb_generated.rs:3980-3990 | The fields of a client record in their order |
| SseTypes.SdpBytes | app/rust/src/frb_generated.rs:4494-4501 | The fields of a session description in their order |
| SseTypes.FileBytes | app/rust/src/frb_generated.rs:4030-4041 | The fields of a file record in their order |
| SseTypes.MetadataBytes | app/rust/src/frb_generated.rs:4043-4049 | The fields of a file's metadata in their order |
| SseTypes.RegisterBytes | app/rust/src/frb_generated.rs:4299-4311 | The fields of a registration in their order |
| SseTypes.StrBytes | app/rust/src/frb_generated.rs:3959-3971 | Strings and ids are their length and their bytes |
| SseTypes.EnumBytes | app/rust/src/frb_generated.rs:4003-4020 | Device types and protocols by their numbers |
| SseTypes.WsMessageBytes | app/rust/src/frb_generated.rs:4454-4492 | A server message is the number of its variant and then its fields |
| SseTypes.RtcStatusBytes | app/rust/src/frb_generated.rs:4382-4416 | A session status likewise |
| SseTypes.HttpErrorBytes | app/rust/src/frb_generated.rs:4333-4363 | A client error likewise |
| SseTypes.UploadRequestBytes | app/rust/src/frb_generated.rs:4220-4228 | An upload request is the registration, then the count of its files and each name with its file |
| SseTypes.UnknownTagRefused | app/rust/src/frb_generated.rs:2795-2841 | A number that names no variant is refused |
| SseTypes.BadBytesRefused | app/rust/src/frb_generated.rs:2196-2210 | A string that is not UTF-8 and an id that has not 16 bytes are refused |
| SseTypes.WsMessageRoundTrip | app/rust/src/frb_generated.rs:2795-2841 | Every server message with 16-byte ids, UTF-8 strings and lengths below 2^31 comes back with the bytes after it left over |
| SseTypes.RtcStatusRoundTrip | app/rust/src/frb_generated.rs:2725-2760 | So does every session status |
| SseTypes.HttpErrorRoundTrip | app/rust/src/frb_generated.rs:2663-2697 | So does every client error |
| SseTypes.UploadRequestRoundTrip | app/rust/src/frb_generated.rs:4220-4228 | So does an upload request: registration, then its map of files in whatever order it is iterated |

## Left out

- SendTask.SendOffer: fails on a Pair reply with a reason of its own, because the pairing dialogue that follows it there has no counterpart: no receiver in the repository sends Pair.
- SendTask.SendFileListAndFiles: the same.
- ReceiveTask.AcceptOffer: asks of the serialiser only that the empty text is no offer; error texts are left out, because nothing reads them.
- Rooms.SignalingServer.Request: that the connection ends after a refused request is not required of histories, so they include more than the server's.
- Delivery.DeliveredViewIsRight: speaks of deliveries in which each peer's own messages keep their order; a broadcast that is aborted half-way is not modelled.
- SseCodec.SseSerializer.WriteVec: item encoders are functions from values to bytes, so a failed write inside an item is not modelled; in-memory writes do not fail.
- AnswerRegistry.CalledExactly: asks that each registration brings its own closure, as a `FnOnce` is.
- Connection setup (ICE, SDP, DTLS), timeouts, buffer waiting and channel failures while sending: library and timing; a peer's end closes the channel.
- The bounded queues between tasks: only their order is modelled, not their back-pressure.
- The compression of session descriptions: a library call.
- The origin of relayed offers: it is captured at connect and not refreshed, so only its id would be reliable.
- Abort of a connection's tasks: rooms are proved about addressed messages, delivery only about reorderings.
- The mapping of JSON texts to documents: one lawful serialiser per type stands for it.
- The parsing of public keys: PEM libraries; which key a peer expects is a parameter.
- Certificates, HTTP routing, DTO conversions, URL building: thin wrappers.
- Opaque handles and stream sinks in the generated codec, and its remaining records: pointers of a foreign runtime, or further sequences of fields of the same kinds.
- User interface, platform runners, command-line and build code.
