/** The nested types of the binary codec, field by field in the generated order. */
module SseTypes {
  import opened Prelude
  import opened Endian
  import opened SseCodec

  datatype DeviceType = Mobile | Desktop | Web | Headless | Server

  datatype ProtocolType = Http | Https

  datatype ClientInfo = ClientInfo(
    id: Bytes, alias: Utf8, version: Utf8, deviceModel: Option<Utf8>, deviceType: Option<DeviceType>, token: Utf8)

  datatype SdpMessage = SdpMessage(peer: ClientInfo, sessionId: Utf8, sdp: Utf8)

  datatype WsServerMessage =
    | Hello(client: ClientInfo, peers: seq<ClientInfo>)
    | Join(peer: ClientInfo)
    | Update(peer: ClientInfo)
    | Left(peerId: Bytes)
    | Offer(offer: SdpMessage)
    | Answer(answer: SdpMessage)
    | Error(code: nat)

  datatype RTCStatus =
    | SdpExchanged | Connected | PinRequired | TooManyAttempts | Declined | Sending | Finished
    | RtcError(text: Utf8)

  datatype RsHttpClientError =
    | StatusCode(status: nat, message: Option<Utf8>)
    | Reqwest(text: Utf8) | Json(text: Utf8) | Io(text: Utf8) | Other(text: Utf8)

  datatype Metadata = Metadata(modified: Option<Utf8>, accessed: Option<Utf8>)

  datatype File = File(
    id: Utf8, fileName: Utf8, size: nat, fileType: Utf8, sha256: Option<Utf8>, preview: Option<Utf8>, metadata: Option<Metadata>)

  datatype RegisterDto = RegisterDto(
    alias: Utf8, version: Utf8, deviceModel: Option<Utf8>, deviceType: Option<DeviceType>, token: Utf8,
    port: nat, protocol: ProtocolType, hasWebInterface: bool)

  // ---- Leaves ----

  function ByteOf(n: nat): Option<byte> {
    if n < 256 then Some(n as byte) else None
  }

  function ByteNumber(b: byte): nat {
    b
  }

  function Byte(p: Platform): Codec<byte> {
    View(Unsigned(p, 1), ByteOf, ByteNumber)
  }

  function Blob(p: Platform): Codec<Bytes> {
    Vec(p, Byte(p))
  }

  /** A value that is its own bytes, if they pass a check. */
  function Checked(p: Platform, valid: Bytes -> bool): Codec<Bytes> {
    View(Blob(p), CheckWith(valid), Same)
  }

  function CheckWith(valid: Bytes -> bool): Bytes -> Option<Bytes> {
    b => if valid(b) then Some(b) else None
  }

  function Same(b: Bytes): Bytes {
    b
  }

  /** `String::from_utf8(..).unwrap()` after the bytes. */
  function Str(p: Platform): Codec<Utf8> {
    Checked(p, p.utf8)
  }

  function SixteenLong(b: Bytes): bool {
    |b| == 16
  }

  function Uuid(p: Platform): Codec<Bytes> {
    Checked(p, SixteenLong)
  }

  function SignedOf(n: nat): Option<int> {
    Some(FromBits(n))
  }

  function I32(p: Platform): Codec<int> {
    View(Unsigned(p, 4), SignedOf, ToBits)
  }

  lemma CheckedExact(p: Platform, valid: Bytes -> bool)
    ensures Exact(Checked(p, valid))
  {
    hide Exact;
    UnsignedExact(p, 1);
    ViewExact(Unsigned(p, 1), ByteOf, ByteNumber);
    VecIsExact(p, Byte(p));
    ViewExact(Blob(p), CheckWith(valid), Same);
  }

  lemma LeavesExact(p: Platform)
    ensures Exact(Str(p)) && Exact(Uuid(p)) && Exact(I32(p))
  {
    hide Exact;
    CheckedExact(p, p.utf8);
    CheckedExact(p, SixteenLong);
    UnsignedExact(p, 4);
    ViewExact(Unsigned(p, 4), SignedOf, ToBits);
  }

  function DeviceFromTag(n: int): Option<DeviceType> {
    match n case 0 => Some(Mobile) case 1 => Some(Desktop) case 2 => Some(Web) case 3 => Some(Headless) case 4 => Some(Server) case _ => None
  }

  function DeviceToTag(d: DeviceType): int {
    match d case Mobile => 0 case Desktop => 1 case Web => 2 case Headless => 3 case Server => 4
  }

  function Device(p: Platform): Codec<DeviceType> {
    View(I32(p), DeviceFromTag, DeviceToTag)
  }

  function ProtocolFromTag(n: int): Option<ProtocolType> {
    match n case 0 => Some(Http) case 1 => Some(Https) case _ => None
  }

  function ProtocolToTag(t: ProtocolType): int {
    match t case Http => 0 case Https => 1
  }

  function Protocol(p: Platform): Codec<ProtocolType> {
    View(I32(p), ProtocolFromTag, ProtocolToTag)
  }

  function U16(p: Platform): Codec<nat> {
    Unsigned(p, 2)
  }

  function U64(p: Platform): Codec<nat> {
    Unsigned(p, 8)
  }

  lemma EnumsExact(p: Platform)
    ensures Exact(Device(p)) && Exact(Protocol(p)) && Exact(Optional(p, Str(p))) && Exact(Optional(p, Device(p)))
  {
    hide Exact;
    LeavesExact(p);
    ViewExact(I32(p), DeviceFromTag, DeviceToTag);
    ViewExact(I32(p), ProtocolFromTag, ProtocolToTag);
    OptionalExact(p, Str(p));
    OptionalExact(p, Device(p));
  }

  // ---- Records ----

  type ClientFields = (Bytes, (Utf8, (Utf8, (Option<Utf8>, (Option<DeviceType>, Utf8)))))

  function ToClient(x: ClientFields): Option<ClientInfo> {
    Some(ClientInfo(x.0, x.1.0, x.1.1.0, x.1.1.1.0, x.1.1.1.1.0, x.1.1.1.1.1))
  }

  function FromClient(c: ClientInfo): ClientFields {
    (c.id, (c.alias, (c.version, (c.deviceModel, (c.deviceType, c.token)))))
  }

  function ClientFieldsCodec(p: Platform): Codec<ClientFields> {
    Pair(Uuid(p), Pair(Str(p), Pair(Str(p), Pair(Optional(p, Str(p)), Pair(Optional(p, Device(p)), Str(p))))))
  }

  function Client(p: Platform): Codec<ClientInfo> {
    View(ClientFieldsCodec(p), ToClient, FromClient)
  }

  lemma ClientExact(p: Platform)
    ensures Exact(Client(p)) && Exact(Vec(p, Client(p)))
  {
    hide Exact;
    LeavesExact(p);
    EnumsExact(p);
    var c5 := Pair(Optional(p, Device(p)), Str(p));
    PairExact(Optional(p, Device(p)), Str(p));
    var c4 := Pair(Optional(p, Str(p)), c5);
    PairExact(Optional(p, Str(p)), c5);
    var c3 := Pair(Str(p), c4);
    PairExact(Str(p), c4);
    var c2 := Pair(Str(p), c3);
    PairExact(Str(p), c3);
    PairExact(Uuid(p), c2);
    ViewExact(ClientFieldsCodec(p), ToClient, FromClient);
    VecIsExact(p, Client(p));
  }

  function ToSdp(x: (ClientInfo, (Utf8, Utf8))): Option<SdpMessage> {
    Some(SdpMessage(x.0, x.1.0, x.1.1))
  }

  function FromSdp(m: SdpMessage): (ClientInfo, (Utf8, Utf8)) {
    (m.peer, (m.sessionId, m.sdp))
  }

  function Sdp(p: Platform): Codec<SdpMessage> {
    View(Pair(Client(p), Pair(Str(p), Str(p))), ToSdp, FromSdp)
  }

  lemma SdpExact(p: Platform)
    ensures Exact(Sdp(p))
  {
    hide Exact;
    LeavesExact(p);
    ClientExact(p);
    PairExact(Str(p), Str(p));
    PairExact(Client(p), Pair(Str(p), Str(p)));
    ViewExact(Pair(Client(p), Pair(Str(p), Str(p))), ToSdp, FromSdp);
  }

  type FileFields = (Utf8, (Utf8, (nat, (Utf8, (Option<Utf8>, (Option<Utf8>, Option<Metadata>))))))

  function ToMetadata(x: (Option<Utf8>, Option<Utf8>)): Option<Metadata> {
    Some(Metadata(x.0, x.1))
  }

  function FromMetadata(m: Metadata): (Option<Utf8>, Option<Utf8>) {
    (m.modified, m.accessed)
  }

  function MetadataCodec(p: Platform): Codec<Metadata> {
    View(Pair(Optional(p, Str(p)), Optional(p, Str(p))), ToMetadata, FromMetadata)
  }

  function ToFile(x: FileFields): Option<File> {
    Some(File(x.0, x.1.0, x.1.1.0, x.1.1.1.0, x.1.1.1.1.0, x.1.1.1.1.1.0, x.1.1.1.1.1.1))
  }

  function FromFile(f: File): FileFields {
    (f.id, (f.fileName, (f.size, (f.fileType, (f.sha256, (f.preview, f.metadata))))))
  }

  function FileFieldsCodec(p: Platform): Codec<FileFields> {
    Pair(Str(p), Pair(Str(p), Pair(U64(p), Pair(Str(p),
      Pair(Optional(p, Str(p)), Pair(Optional(p, Str(p)), Optional(p, MetadataCodec(p))))))))
  }

  function FileCodec(p: Platform): Codec<File> {
    View(FileFieldsCodec(p), ToFile, FromFile)
  }

  lemma FileExact(p: Platform)
    ensures Exact(FileCodec(p))
  {
    hide Exact;
    LeavesExact(p);
    EnumsExact(p);
    UnsignedExact(p, 8);
    var text := Optional(p, Str(p));
    PairExact(text, text);
    ViewExact(Pair(text, text), ToMetadata, FromMetadata);
    OptionalExact(p, MetadataCodec(p));
    var c6 := Pair(text, Optional(p, MetadataCodec(p)));
    PairExact(text, Optional(p, MetadataCodec(p)));
    var c5 := Pair(text, c6);
    PairExact(text, c6);
    var c4 := Pair(Str(p), c5);
    PairExact(Str(p), c5);
    var c3 := Pair(U64(p), c4);
    PairExact(U64(p), c4);
    var c2 := Pair(Str(p), c3);
    PairExact(Str(p), c3);
    PairExact(Str(p), c2);
    ViewExact(FileFieldsCodec(p), ToFile, FromFile);
  }

  type RegisterFields = (Utf8, (Utf8, (Option<Utf8>, (Option<DeviceType>, (Utf8, (nat, (ProtocolType, bool)))))))

  function ToRegister(x: RegisterFields): Option<RegisterDto> {
    Some(RegisterDto(x.0, x.1.0, x.1.1.0, x.1.1.1.0, x.1.1.1.1.0, x.1.1.1.1.1.0, x.1.1.1.1.1.1.0, x.1.1.1.1.1.1.1))
  }

  function FromRegister(r: RegisterDto): RegisterFields {
    (r.alias, (r.version, (r.deviceModel, (r.deviceType, (r.token, (r.port, (r.protocol, r.hasWebInterface)))))))
  }

  function RegisterFieldsCodec(p: Platform): Codec<RegisterFields> {
    Pair(Str(p), Pair(Str(p), Pair(Optional(p, Str(p)), Pair(Optional(p, Device(p)),
      Pair(Str(p), Pair(U16(p), Pair(Protocol(p), Bool(p))))))))
  }

  function Register(p: Platform): Codec<RegisterDto> {
    View(RegisterFieldsCodec(p), ToRegister, FromRegister)
  }

  lemma RegisterExact(p: Platform)
    ensures Exact(Register(p))
  {
    hide Exact;
    LeavesExact(p);
    EnumsExact(p);
    BoolExact(p);
    UnsignedExact(p, 2);
    var c7 := Pair(Protocol(p), Bool(p));
    PairExact(Protocol(p), Bool(p));
    var c6 := Pair(U16(p), c7);
    PairExact(U16(p), c7);
    var c5 := Pair(Str(p), c6);
    PairExact(Str(p), c6);
    var c4 := Pair(Optional(p, Device(p)), c5);
    PairExact(Optional(p, Device(p)), c5);
    var c3 := Pair(Optional(p, Str(p)), c4);
    PairExact(Optional(p, Str(p)), c4);
    var c2 := Pair(Str(p), c3);
    PairExact(Str(p), c3);
    PairExact(Str(p), c2);
    ViewExact(RegisterFieldsCodec(p), ToRegister, FromRegister);
  }

  /** `PrepareUploadRequestDto`: the registration, then the files in whatever order the hash map yields them. */
  function EncodeUploadRequest(p: Platform, info: RegisterDto, entries: seq<(Utf8, File)>): Bytes {
    Register(p).enc(info) + EncodeVec(p, Pair(Str(p), FileCodec(p)), entries)
  }

  function DecodeUploadRequest(p: Platform, bytes: Bytes): Option<((RegisterDto, map<Utf8, File>), Bytes)> {
    match Register(p).dec(bytes)
    case None => None
    case Some((info, rest)) =>
      match DecodeVec(p, Pair(Str(p), FileCodec(p)), rest)
      case None => None
      case Some((entries, left)) => Some(((info, Collect(entries)), left))
  }

  // ---- Tagged unions ----

  /** The tag of a value selects how the rest is read; an unknown tag is `unimplemented!`. */
  function Tagged<T>(p: Platform, tag: T -> int, branch: int -> Option<Codec<T>>): Codec<T> {
    Codec(
      x => PutTagged(p, tag, branch, x),
      bytes => TakeTagged(p, branch, bytes),
      x => I32(p).ok(tag(x)) && branch(tag(x)).Some? && branch(tag(x)).value.ok(x))
  }

  function PutTagged<T>(p: Platform, tag: T -> int, branch: int -> Option<Codec<T>>, x: T): Bytes {
    I32(p).enc(tag(x)) + match branch(tag(x)) case None => [] case Some(c) => c.enc(x)
  }

  function TakeTagged<T>(p: Platform, branch: int -> Option<Codec<T>>, bytes: Bytes): Option<(T, Bytes)> {
    match I32(p).dec(bytes)
    case None => None
    case Some((n, rest)) => match branch(n) case None => None case Some(c) => c.dec(rest)
  }

  lemma TaggedRoundTrip<T(!new)>(p: Platform, tag: T -> int, branch: int -> Option<Codec<T>>, x: T, rest: Bytes)
    requires I32(p).ok(tag(x)) && branch(tag(x)).Some?
    requires Decodes(branch(tag(x)).value, x, rest)
    ensures TakeTagged(p, branch, PutTagged(p, tag, branch, x) + rest) == Some((x, rest))
  {
    hide Exact, I32;
    LeavesExact(p);
    var body := branch(tag(x)).value.enc(x);
    ExactMeans(I32(p), tag(x), body + rest);
    assert PutTagged(p, tag, branch, x) + rest == I32(p).enc(tag(x)) + (body + rest);
  }

  lemma TaggedMeans<T>(p: Platform, tag: T -> int, branch: int -> Option<Codec<T>>, x: T)
    ensures Tagged(p, tag, branch).ok(x) <==> I32(p).ok(tag(x)) && branch(tag(x)).Some? && branch(tag(x)).value.ok(x)
  {
  }

  lemma TaggedExact<T(!new)>(p: Platform, tag: T -> int, branch: int -> Option<Codec<T>>)
    requires forall n :: branch(n).Some? ==> Exact(branch(n).value)
    ensures Exact(Tagged(p, tag, branch))
  {
    hide Exact, I32, PutTagged, TakeTagged;
    var c := Tagged(p, tag, branch);
    forall x, rest | c.ok(x) ensures Decodes(c, x, rest) {
      var n := tag(x);
      TaggedMeans(p, tag, branch, x);
      assert Exact(branch(n).value);
      ExactMeans(branch(n).value, x, rest);
      TaggedRoundTrip(p, tag, branch, x, rest);
    }
    ExactFrom(c);
  }

  const NO_CLIENT: ClientInfo := ClientInfo([], [], [], None, None, [])
  const NO_SDP: SdpMessage := SdpMessage(NO_CLIENT, [], [])

  function WsTag(m: WsServerMessage): int {
    match m
    case Hello(_, _) => 0
    case Join(_) => 1
    case Update(_) => 2
    case Left(_) => 3
    case Offer(_) => 4
    case Answer(_) => 5
    case Error(_) => 6
  }

  type HelloFields = (ClientInfo, seq<ClientInfo>)

  function ToHello(x: HelloFields): Option<WsServerMessage> { Some(Hello(x.0, x.1)) }

  function FromHello(m: WsServerMessage): HelloFields { if m.Hello? then (m.client, m.peers) else (NO_CLIENT, []) }

  function ToJoin(c: ClientInfo): Option<WsServerMessage> { Some(Join(c)) }

  function ToUpdate(c: ClientInfo): Option<WsServerMessage> { Some(Update(c)) }

  function FromPeer(m: WsServerMessage): ClientInfo { if m.Join? || m.Update? then m.peer else NO_CLIENT }

  function ToLeft(id: Bytes): Option<WsServerMessage> { Some(Left(id)) }

  function FromLeft(m: WsServerMessage): Bytes { if m.Left? then m.peerId else [] }

  function ToOffer(s: SdpMessage): Option<WsServerMessage> { Some(Offer(s)) }

  function ToAnswer(s: SdpMessage): Option<WsServerMessage> { Some(Answer(s)) }

  function FromSdpMessage(m: WsServerMessage): SdpMessage {
    if m.Offer? then m.offer else if m.Answer? then m.answer else NO_SDP
  }

  function ToError(code: nat): Option<WsServerMessage> { Some(Error(code)) }

  function FromError(m: WsServerMessage): nat { if m.Error? then m.code else 0 }

  function WsBranch(p: Platform, n: int): Option<Codec<WsServerMessage>> {
    match n
    case 0 => Some(View(Pair(Client(p), Vec(p, Client(p))), ToHello, FromHello))
    case 1 => Some(View(Client(p), ToJoin, FromPeer))
    case 2 => Some(View(Client(p), ToUpdate, FromPeer))
    case 3 => Some(View(Uuid(p), ToLeft, FromLeft))
    case 4 => Some(View(Sdp(p), ToOffer, FromSdpMessage))
    case 5 => Some(View(Sdp(p), ToAnswer, FromSdpMessage))
    case 6 => Some(View(U16(p), ToError, FromError))
    case _ => None
  }

  function WsBranches(p: Platform): int -> Option<Codec<WsServerMessage>> {
    n => WsBranch(p, n)
  }

  function WsMessage(p: Platform): Codec<WsServerMessage> {
    Tagged(p, WsTag, WsBranches(p))
  }

  lemma WsMessageExact(p: Platform)
    ensures Exact(WsMessage(p))
  {
    hide Exact;
    LeavesExact(p);
    ClientExact(p);
    SdpExact(p);
    UnsignedExact(p, 2);
    PairExact(Client(p), Vec(p, Client(p)));
    ViewExact(Pair(Client(p), Vec(p, Client(p))), ToHello, FromHello);
    ViewExact(Client(p), ToJoin, FromPeer);
    ViewExact(Client(p), ToUpdate, FromPeer);
    ViewExact(Uuid(p), ToLeft, FromLeft);
    ViewExact(Sdp(p), ToOffer, FromSdpMessage);
    ViewExact(Sdp(p), ToAnswer, FromSdpMessage);
    ViewExact(U16(p), ToError, FromError);
    TaggedExact(p, WsTag, WsBranches(p));
  }

  function RtcTag(s: RTCStatus): int {
    match s
    case SdpExchanged => 0
    case Connected => 1
    case PinRequired => 2
    case TooManyAttempts => 3
    case Declined => 4
    case Sending => 5
    case Finished => 6
    case RtcError(_) => 7
  }

  function RtcPlain(n: int): RTCStatus {
    match n
    case 0 => SdpExchanged
    case 1 => Connected
    case 2 => PinRequired
    case 3 => TooManyAttempts
    case 4 => Declined
    case 5 => Sending
    case _ => Finished
  }

  function ToPlain(n: int): (()) -> Option<RTCStatus> {
    u => Some(RtcPlain(n))
  }

  function FromPlain(s: RTCStatus): () { () }

  function ToRtcError(text: Utf8): Option<RTCStatus> { Some(RtcError(text)) }

  function FromRtcError(s: RTCStatus): Utf8 { if s.RtcError? then s.text else [] }

  function RtcBranch(p: Platform, n: int): Option<Codec<RTCStatus>> {
    if 0 <= n <= 6 then Some(View(Nothing(), ToPlain(n), FromPlain))
    else if n == 7 then Some(View(Str(p), ToRtcError, FromRtcError))
    else None
  }

  function RtcBranches(p: Platform): int -> Option<Codec<RTCStatus>> {
    n => RtcBranch(p, n)
  }

  function RtcStatus(p: Platform): Codec<RTCStatus> {
    Tagged(p, RtcTag, RtcBranches(p))
  }

  lemma RtcStatusExact(p: Platform)
    ensures Exact(RtcStatus(p))
  {
    hide Exact;
    LeavesExact(p);
    NothingExact();
    forall n ensures Exact(View(Nothing(), ToPlain(n), FromPlain)) {
      ViewExact(Nothing(), ToPlain(n), FromPlain);
    }
    ViewExact(Str(p), ToRtcError, FromRtcError);
    TaggedExact(p, RtcTag, RtcBranches(p));
  }

  function HttpErrorTag(e: RsHttpClientError): int {
    match e
    case StatusCode(_, _) => 0
    case Reqwest(_) => 1
    case Json(_) => 2
    case Io(_) => 3
    case Other(_) => 4
  }

  function ToStatusCode(x: (nat, Option<Utf8>)): Option<RsHttpClientError> { Some(StatusCode(x.0, x.1)) }

  function FromStatusCode(e: RsHttpClientError): (nat, Option<Utf8>) {
    if e.StatusCode? then (e.status, e.message) else (0, None)
  }

  function ToReqwest(text: Utf8): Option<RsHttpClientError> { Some(Reqwest(text)) }

  function ToJson(text: Utf8): Option<RsHttpClientError> { Some(Json(text)) }

  function ToIo(text: Utf8): Option<RsHttpClientError> { Some(Io(text)) }

  function ToOther(text: Utf8): Option<RsHttpClientError> { Some(Other(text)) }

  function FromHttpText(e: RsHttpClientError): Utf8 { if e.StatusCode? then [] else e.text }

  function HttpErrorBranch(p: Platform, n: int): Option<Codec<RsHttpClientError>> {
    match n
    case 0 => Some(View(Pair(U16(p), Optional(p, Str(p))), ToStatusCode, FromStatusCode))
    case 1 => Some(View(Str(p), ToReqwest, FromHttpText))
    case 2 => Some(View(Str(p), ToJson, FromHttpText))
    case 3 => Some(View(Str(p), ToIo, FromHttpText))
    case 4 => Some(View(Str(p), ToOther, FromHttpText))
    case _ => None
  }

  function HttpErrorBranches(p: Platform): int -> Option<Codec<RsHttpClientError>> {
    n => HttpErrorBranch(p, n)
  }

  function HttpError(p: Platform): Codec<RsHttpClientError> {
    Tagged(p, HttpErrorTag, HttpErrorBranches(p))
  }

  lemma HttpErrorExact(p: Platform)
    ensures Exact(HttpError(p))
  {
    hide Exact;
    LeavesExact(p);
    EnumsExact(p);
    UnsignedExact(p, 2);
    PairExact(U16(p), Optional(p, Str(p)));
    ViewExact(Pair(U16(p), Optional(p, Str(p))), ToStatusCode, FromStatusCode);
    ViewExact(Str(p), ToReqwest, FromHttpText);
    ViewExact(Str(p), ToJson, FromHttpText);
    ViewExact(Str(p), ToIo, FromHttpText);
    ViewExact(Str(p), ToOther, FromHttpText);
    TaggedExact(p, HttpErrorTag, HttpErrorBranches(p));
  }

  // ---- What can be carried ----

  predicate StrFits(p: Platform, s: Utf8) {
    |s| < I32_LIMIT && p.utf8(s)
  }

  predicate ClientFits(p: Platform, c: ClientInfo) {
    && |c.id| == 16 && StrFits(p, c.alias) && StrFits(p, c.version) && MaybeFits(p, c.deviceModel)
    && StrFits(p, c.token)
  }

  predicate MessageFits(p: Platform, m: WsServerMessage) {
    match m
    case Hello(c, peers) => ClientFits(p, c) && |peers| < I32_LIMIT && forall i :: 0 <= i < |peers| ==> ClientFits(p, peers[i])
    case Join(c) => ClientFits(p, c)
    case Update(c) => ClientFits(p, c)
    case Left(id) => |id| == 16
    case Offer(s) => ClientFits(p, s.peer) && StrFits(p, s.sessionId) && StrFits(p, s.sdp)
    case Answer(s) => ClientFits(p, s.peer) && StrFits(p, s.sessionId) && StrFits(p, s.sdp)
    case Error(code) => code < 0x1_0000
  }

  predicate MaybeFits(p: Platform, s: Option<Utf8>) {
    s.Some? ==> StrFits(p, s.value)
  }

  predicate RegisterFits(p: Platform, r: RegisterDto) {
    && StrFits(p, r.alias) && StrFits(p, r.version) && MaybeFits(p, r.deviceModel) && StrFits(p, r.token)
    && r.port < 0x1_0000
  }

  predicate FileFits(p: Platform, f: File) {
    && StrFits(p, f.id) && StrFits(p, f.fileName) && f.size < WORD && StrFits(p, f.fileType)
    && MaybeFits(p, f.sha256) && MaybeFits(p, f.preview)
    && (f.metadata.Some? ==> MaybeFits(p, f.metadata.value.modified) && MaybeFits(p, f.metadata.value.accessed))
  }

  predicate RtcFits(p: Platform, s: RTCStatus) {
    s.RtcError? ==> StrFits(p, s.text)
  }

  predicate HttpErrorFits(p: Platform, e: RsHttpClientError) {
    if e.StatusCode? then e.status < 0x1_0000 && MaybeFits(p, e.message) else StrFits(p, e.text)
  }

  lemma ByteOk(p: Platform, x: byte)
    ensures Byte(p).ok(x)
  {
    assert Power256(1) == 256 * Power256(0);
    ViewOk(Unsigned(p, 1), ByteOf, ByteNumber, x);
  }

  lemma BytesOk(p: Platform, b: Bytes)
    ensures AreOk(Byte(p), b)
  {
    hide Byte;
    forall i | 0 <= i < |b| ensures Byte(p).ok(b[i]) {
      ByteOk(p, b[i]);
    }
  }

  lemma StrOk(p: Platform, s: Utf8)
    requires StrFits(p, s)
    ensures Str(p).ok(s)
  {
    hide Byte;
    BytesOk(p, s);
    ViewOk(Blob(p), CheckWith(p.utf8), Same, s);
  }

  lemma UuidOk(p: Platform, b: Bytes)
    requires |b| == 16
    ensures Uuid(p).ok(b)
  {
    hide Byte;
    BytesOk(p, b);
    ViewOk(Blob(p), CheckWith(SixteenLong), Same, b);
  }

  lemma TagOk(p: Platform, n: int)
    requires 0 <= n < I32_LIMIT
    ensures I32(p).ok(n)
  {
    hide Power256;
    FourBytes();
    ViewOk(Unsigned(p, 4), SignedOf, ToBits, n);
  }

  lemma DeviceOk(p: Platform, d: DeviceType)
    ensures Device(p).ok(d)
  {
    TagOk(p, DeviceToTag(d));
    ViewOk(I32(p), DeviceFromTag, DeviceToTag, d);
    hide I32;
  }

  lemma TextOk(p: Platform, s: Option<Utf8>)
    requires MaybeFits(p, s)
    ensures Optional(p, Str(p)).ok(s)
  {
    hide Str;
    if s.Some? {
      StrOk(p, s.value);
    }
  }

  lemma ClientOk(p: Platform, c: ClientInfo)
    requires ClientFits(p, c)
    ensures Client(p).ok(c)
  {
    TextOk(p, c.deviceModel);
    hide Str, Uuid, Device;
    UuidOk(p, c.id);
    StrOk(p, c.alias);
    StrOk(p, c.version);
    StrOk(p, c.token);
    if c.deviceType.Some? {
      DeviceOk(p, c.deviceType.value);
    }
    hide View, Pair;
    assert Optional(p, Device(p)).ok(c.deviceType);
    hide Optional;
    var c5 := Pair(Optional(p, Device(p)), Str(p));
    PairOk(Optional(p, Device(p)), Str(p), c.deviceType, c.token);
    var c4 := Pair(Optional(p, Str(p)), c5);
    PairOk(Optional(p, Str(p)), c5, c.deviceModel, (c.deviceType, c.token));
    var c3 := Pair(Str(p), c4);
    PairOk(Str(p), c4, c.version, (c.deviceModel, (c.deviceType, c.token)));
    PairOk(Str(p), c3, c.alias, (c.version, (c.deviceModel, (c.deviceType, c.token))));
    PairOk(Uuid(p), Pair(Str(p), c3), c.id, (c.alias, (c.version, (c.deviceModel, (c.deviceType, c.token)))));
    ViewOk(ClientFieldsCodec(p), ToClient, FromClient, c);
  }

  lemma SdpOk(p: Platform, s: SdpMessage)
    requires ClientFits(p, s.peer) && StrFits(p, s.sessionId) && StrFits(p, s.sdp)
    ensures Sdp(p).ok(s)
  {
    hide Str, Client;
    ClientOk(p, s.peer);
    StrOk(p, s.sessionId);
    StrOk(p, s.sdp);
    hide View, Pair;
    PairOk(Str(p), Str(p), s.sessionId, s.sdp);
    PairOk(Client(p), Pair(Str(p), Str(p)), s.peer, (s.sessionId, s.sdp));
    ViewOk(Pair(Client(p), Pair(Str(p), Str(p))), ToSdp, FromSdp, s);
  }

  lemma ClientsOk(p: Platform, peers: seq<ClientInfo>)
    requires |peers| < I32_LIMIT
    requires forall i :: 0 <= i < |peers| ==> ClientFits(p, peers[i])
    ensures Vec(p, Client(p)).ok(peers)
  {
    hide Client, ClientFits;
    forall i | 0 <= i < |peers| ensures Client(p).ok(peers[i]) {
      ClientOk(p, peers[i]);
    }
  }

  lemma MessageOk(p: Platform, m: WsServerMessage)
    requires MessageFits(p, m)
    ensures WsMessage(p).ok(m)
  {
    hide Client, Sdp, Uuid, ClientFits, I32, View, Pair, AreOk, AllOk;
    TagOk(p, WsTag(m));
    TaggedMeans(p, WsTag, WsBranches(p), m);
    match m {
      case Hello(c, peers) =>
        ClientOk(p, c);
        ClientsOk(p, peers);
        PairOk(Client(p), Vec(p, Client(p)), c, peers);
        ViewOk(Pair(Client(p), Vec(p, Client(p))), ToHello, FromHello, m);
      case Join(c) =>
        ClientOk(p, c);
        ViewOk(Client(p), ToJoin, FromPeer, m);
      case Update(c) =>
        ClientOk(p, c);
        ViewOk(Client(p), ToUpdate, FromPeer, m);
      case Left(id) =>
        UuidOk(p, id);
        ViewOk(Uuid(p), ToLeft, FromLeft, m);
      case Offer(s) =>
        SdpOk(p, s);
        ViewOk(Sdp(p), ToOffer, FromSdpMessage, m);
      case Answer(s) =>
        SdpOk(p, s);
        ViewOk(Sdp(p), ToAnswer, FromSdpMessage, m);
      case Error(code) =>
        ShortOk(p, code);
        ViewOk(U16(p), ToError, FromError, m);
    }
  }

  /** Every server message with 16-byte ids, UTF-8 strings and vectors below 2^31 is decoded with the bytes after it left over, on either byte order. */
  lemma WsMessageRoundTrip(p: Platform, m: WsServerMessage, rest: Bytes)
    requires MessageFits(p, m)
    ensures WsMessage(p).dec(WsMessage(p).enc(m) + rest) == Some((m, rest))
  {
    hide WsMessage, MessageFits;
    WsMessageExact(p);
    MessageOk(p, m);
    assert Decodes(WsMessage(p), m, rest);
  }

  /** So does every session status. */
  lemma RtcStatusRoundTrip(p: Platform, s: RTCStatus, rest: Bytes)
    requires RtcFits(p, s)
    ensures RtcStatus(p).dec(RtcStatus(p).enc(s) + rest) == Some((s, rest))
  {
    RtcStatusExact(p);
    TagOk(p, RtcTag(s));
    hide Exact, I32, Str, View;
    TaggedMeans(p, RtcTag, RtcBranches(p), s);
    if s.RtcError? {
      StrOk(p, s.text);
      ViewOk(Str(p), ToRtcError, FromRtcError, s);
    } else {
      ViewOk(Nothing(), ToPlain(RtcTag(s)), FromPlain, s);
    }
    ExactMeans(RtcStatus(p), s, rest);
  }

  /** So does every client error. */
  lemma HttpErrorRoundTrip(p: Platform, e: RsHttpClientError, rest: Bytes)
    requires HttpErrorFits(p, e)
    ensures HttpError(p).dec(HttpError(p).enc(e) + rest) == Some((e, rest))
  {
    HttpErrorExact(p);
    HttpErrorOk(p, e);
    hide HttpError;
    ExactMeans(HttpError(p), e, rest);
  }

  lemma HttpErrorOk(p: Platform, e: RsHttpClientError)
    requires HttpErrorFits(p, e)
    ensures HttpError(p).ok(e)
  {
    TagOk(p, HttpErrorTag(e));
    hide Exact, I32, Str, View, Pair, Optional;
    TaggedMeans(p, HttpErrorTag, HttpErrorBranches(p), e);
    match e {
      case StatusCode(n, text) =>
        TextOk(p, text);
        ShortOk(p, n);
        PairOk(U16(p), Optional(p, Str(p)), n, text);
        ViewOk(Pair(U16(p), Optional(p, Str(p))), ToStatusCode, FromStatusCode, e);
      case Reqwest(text) =>
        StrOk(p, text);
        ViewOk(Str(p), ToReqwest, FromHttpText, e);
      case Json(text) =>
        StrOk(p, text);
        ViewOk(Str(p), ToJson, FromHttpText, e);
      case Io(text) =>
        StrOk(p, text);
        ViewOk(Str(p), ToIo, FromHttpText, e);
      case Other(text) =>
        StrOk(p, text);
        ViewOk(Str(p), ToOther, FromHttpText, e);
    }
  }

  lemma ShortOk(p: Platform, n: nat)
    requires n < 0x1_0000
    ensures U16(p).ok(n)
  {
    assert Power256(2) == 256 * (256 * Power256(0));
  }

  lemma EnumOk(p: Platform, d: Option<DeviceType>, t: ProtocolType, flag: bool)
    ensures Optional(p, Device(p)).ok(d) && Protocol(p).ok(t) && Bool(p).ok(flag)
  {
    TagOk(p, ProtocolToTag(t));
    ViewOk(I32(p), ProtocolFromTag, ProtocolToTag, t);
    hide I32, Device;
    if d.Some? {
      DeviceOk(p, d.value);
    }
  }

  lemma RegisterOk(p: Platform, r: RegisterDto)
    requires RegisterFits(p, r)
    ensures Register(p).ok(r)
  {
    StrOk(p, r.alias);
    StrOk(p, r.version);
    StrOk(p, r.token);
    TextOk(p, r.deviceModel);
    ShortOk(p, r.port);
    EnumOk(p, r.deviceType, r.protocol, r.hasWebInterface);
    hide Str, Device, Protocol, U16, View, Pair, Optional, Bool, StrFits, MaybeFits;
    var x7 := (r.protocol, r.hasWebInterface);
    var x5 := (r.token, (r.port, x7));
    var c7 := Pair(Protocol(p), Bool(p));
    PairOk(Protocol(p), Bool(p), r.protocol, r.hasWebInterface);
    var c6 := Pair(U16(p), c7);
    PairOk(U16(p), c7, r.port, x7);
    var c5 := Pair(Str(p), c6);
    PairOk(Str(p), c6, r.token, (r.port, x7));
    var c4 := Pair(Optional(p, Device(p)), c5);
    PairOk(Optional(p, Device(p)), c5, r.deviceType, x5);
    var c3 := Pair(Optional(p, Str(p)), c4);
    PairOk(Optional(p, Str(p)), c4, r.deviceModel, (r.deviceType, x5));
    var c2 := Pair(Str(p), c3);
    PairOk(Str(p), c3, r.version, (r.deviceModel, (r.deviceType, x5)));
    PairOk(Str(p), c2, r.alias, (r.version, (r.deviceModel, (r.deviceType, x5))));
    ViewOk(RegisterFieldsCodec(p), ToRegister, FromRegister, r);
  }

  lemma MetadataOk(p: Platform, m: Metadata)
    requires MaybeFits(p, m.modified) && MaybeFits(p, m.accessed)
    ensures MetadataCodec(p).ok(m)
  {
    TextOk(p, m.modified);
    TextOk(p, m.accessed);
    hide Optional, Pair, View;
    PairOk(Optional(p, Str(p)), Optional(p, Str(p)), m.modified, m.accessed);
    ViewOk(Pair(Optional(p, Str(p)), Optional(p, Str(p))), ToMetadata, FromMetadata, m);
  }

  lemma FileOk(p: Platform, f: File)
    requires FileFits(p, f)
    ensures FileCodec(p).ok(f)
  {
    StrOk(p, f.id);
    StrOk(p, f.fileName);
    StrOk(p, f.fileType);
    TextOk(p, f.sha256);
    TextOk(p, f.preview);
    WordIsEightBytes();
    assert U64(p).ok(f.size);
    hide Str, U64, View, Pair, MetadataCodec;
    if f.metadata.Some? {
      MetadataOk(p, f.metadata.value);
    }
    assert Optional(p, MetadataCodec(p)).ok(f.metadata);
    hide Optional;
    var text := Optional(p, Str(p));
    var c6 := Pair(text, Optional(p, MetadataCodec(p)));
    PairOk(text, Optional(p, MetadataCodec(p)), f.preview, f.metadata);
    var c5 := Pair(text, c6);
    PairOk(text, c6, f.sha256, (f.preview, f.metadata));
    var c4 := Pair(Str(p), c5);
    var x4 := (f.fileType, (f.sha256, (f.preview, f.metadata)));
    PairOk(Str(p), c5, f.fileType, x4.1);
    var c3 := Pair(U64(p), c4);
    PairOk(U64(p), c4, f.size, x4);
    var c2 := Pair(Str(p), c3);
    PairOk(Str(p), c3, f.fileName, (f.size, x4));
    PairOk(Str(p), c2, f.id, (f.fileName, (f.size, x4)));
    ViewOk(FileFieldsCodec(p), ToFile, FromFile, f);
  }

  lemma EntriesOk(p: Platform, files: map<Utf8, File>, entries: seq<(Utf8, File)>)
    requires Iterates(entries, files)
    requires forall k :: k in files ==> StrFits(p, k) && FileFits(p, files[k])
    ensures AllOk(Pair(Str(p), FileCodec(p)), entries)
  {
    hide Str, FileCodec, StrFits, FileFits, Pair;
    forall i | 0 <= i < |entries| ensures Pair(Str(p), FileCodec(p)).ok(entries[i]) {
      var (k, f) := entries[i];
      StrOk(p, k);
      FileOk(p, f);
      PairOk(Str(p), FileCodec(p), k, f);
    }
  }

  /** The request comes back with the bytes after it, whatever order the encoder's hash map yields its files in. */
  lemma UploadRequestRoundTrip(p: Platform, info: RegisterDto, files: map<Utf8, File>, entries: seq<(Utf8, File)>, rest: Bytes)
    requires RegisterFits(p, info) && Iterates(entries, files) && |entries| < I32_LIMIT
    requires forall k :: k in files ==> StrFits(p, k) && FileFits(p, files[k])
    ensures DecodeUploadRequest(p, EncodeUploadRequest(p, info, entries) + rest) == Some(((info, files), rest))
  {
    hide Register, Str, FileCodec, EncodeVec, DecodeVec, Collect, Iterates, AllOk, Pair, Exact, RegisterFits, StrFits, FileFits;
    RegisterOk(p, info);
    EntriesOk(p, files, entries);
    LeavesExact(p);
    RegisterExact(p);
    FileExact(p);
    var more := EncodeVec(p, Pair(Str(p), FileCodec(p)), entries) + rest;
    assert EncodeUploadRequest(p, info, entries) + rest == Register(p).enc(info) + more;
    ExactMeans(Register(p), info, more);
    MapRoundTrip(p, Str(p), FileCodec(p), files, entries, rest);
  }

  // ---- The bytes themselves ----

  lemma {:induction false} RawBytes(p: Platform, b: Bytes)
    ensures EncodeAll(Byte(p), b) == b
  {
    if b != [] {
      hide Unsigned, View;
      RawBytes(p, b[1..]);
      RawByte(p, b[0]);
      assert b == [b[0]] + b[1..];
    }
  }

  lemma RawByte(p: Platform, x: byte)
    ensures Byte(p).enc(x) == [x]
    {
    NumberBytes(p, x);
    hide PutUnsigned;
    ViewEnc(Unsigned(p, 1), ByteOf, ByteNumber, x);
  }

  /** A string and an id are their length in 32 bits and their bytes. */
  lemma StrBytes(p: Platform, s: Bytes)
    ensures Str(p).enc(s) == PutUnsigned(p, 4, |s| % 0x1_0000_0000) + s
    ensures Uuid(p).enc(s) == PutUnsigned(p, 4, |s| % 0x1_0000_0000) + s
  {
    RawBytes(p, s);
    hide Byte, PutUnsigned;
    ViewEnc(Blob(p), CheckWith(p.utf8), Same, s);
    ViewEnc(Blob(p), CheckWith(SixteenLong), Same, s);
  }

  lemma TagBytes(p: Platform, n: int)
    requires 0 <= n < I32_LIMIT
    ensures I32(p).enc(n) == PutUnsigned(p, 4, n)
  {
    hide PutUnsigned;
    ViewEnc(Unsigned(p, 4), SignedOf, ToBits, n);
  }

  /** The variants by number. */
  lemma EnumBytes(p: Platform, d: DeviceType, t: ProtocolType)
    ensures Device(p).enc(d)
         == PutUnsigned(p, 4, match d case Mobile => 0 case Desktop => 1 case Web => 2 case Headless => 3 case Server => 4)
    ensures Protocol(p).enc(t) == PutUnsigned(p, 4, match t case Http => 0 case Https => 1)
  {
    TagBytes(p, DeviceToTag(d));
    TagBytes(p, ProtocolToTag(t));
    hide I32, PutUnsigned;
  }

  /** The fields of the records in their order. */
  lemma ClientBytes(p: Platform, c: ClientInfo)
    ensures Client(p).enc(c)
         == Uuid(p).enc(c.id) + (Str(p).enc(c.alias) + (Str(p).enc(c.version) + (Optional(p, Str(p)).enc(c.deviceModel)
            + (Optional(p, Device(p)).enc(c.deviceType) + Str(p).enc(c.token)))))
    {
    hide Uuid, Str, Device, Optional, View, Pair;
    var text, device := Optional(p, Str(p)), Optional(p, Device(p));
    var c5 := Pair(device, Str(p));
    PairEnc(device, Str(p), c.deviceType, c.token);
    var c4 := Pair(text, c5);
    PairEnc(text, c5, c.deviceModel, (c.deviceType, c.token));
    var c3 := Pair(Str(p), c4);
    PairEnc(Str(p), c4, c.version, (c.deviceModel, (c.deviceType, c.token)));
    PairEnc(Str(p), c3, c.alias, (c.version, (c.deviceModel, (c.deviceType, c.token))));
    PairEnc(Uuid(p), Pair(Str(p), c3), c.id, (c.alias, (c.version, (c.deviceModel, (c.deviceType, c.token)))));
    ViewEnc(ClientFieldsCodec(p), ToClient, FromClient, c);
  }

  lemma SdpBytes(p: Platform, m: SdpMessage)
    ensures Sdp(p).enc(m) == Client(p).enc(m.peer) + (Str(p).enc(m.sessionId) + Str(p).enc(m.sdp))
    {
    hide Client, Str, View, Pair;
    PairEnc(Str(p), Str(p), m.sessionId, m.sdp);
    PairEnc(Client(p), Pair(Str(p), Str(p)), m.peer, (m.sessionId, m.sdp));
    ViewEnc(Pair(Client(p), Pair(Str(p), Str(p))), ToSdp, FromSdp, m);
  }

  lemma MetadataBytes(p: Platform, m: Metadata)
    ensures MetadataCodec(p).enc(m) == Optional(p, Str(p)).enc(m.modified) + Optional(p, Str(p)).enc(m.accessed)
  {
    hide Str, Optional, View, Pair;
    PairEnc(Optional(p, Str(p)), Optional(p, Str(p)), m.modified, m.accessed);
    ViewEnc(Pair(Optional(p, Str(p)), Optional(p, Str(p))), ToMetadata, FromMetadata, m);
  }

  lemma FileBytes(p: Platform, f: File)
    ensures FileCodec(p).enc(f)
         == Str(p).enc(f.id) + (Str(p).enc(f.fileName) + (PutUnsigned(p, 8, f.size) + (Str(p).enc(f.fileType)
            + (Optional(p, Str(p)).enc(f.sha256) + (Optional(p, Str(p)).enc(f.preview) + Optional(p, MetadataCodec(p)).enc(f.metadata))))))
  {
    hide PutUnsigned;
    assert U64(p).enc(f.size) == PutUnsigned(p, 8, f.size);
    hide Str, Optional, MetadataCodec, U64, View, Pair;
    var text := Optional(p, Str(p));
    var c6 := Pair(text, Optional(p, MetadataCodec(p)));
    PairEnc(text, Optional(p, MetadataCodec(p)), f.preview, f.metadata);
    var c5 := Pair(text, c6);
    PairEnc(text, c6, f.sha256, (f.preview, f.metadata));
    var c4 := Pair(Str(p), c5);
    var x4 := (f.fileType, (f.sha256, (f.preview, f.metadata)));
    PairEnc(Str(p), c5, f.fileType, x4.1);
    var c3 := Pair(U64(p), c4);
    PairEnc(U64(p), c4, f.size, x4);
    var c2 := Pair(Str(p), c3);
    PairEnc(Str(p), c3, f.fileName, (f.size, x4));
    PairEnc(Str(p), c2, f.id, (f.fileName, (f.size, x4)));
    ViewEnc(FileFieldsCodec(p), ToFile, FromFile, f);
  }

  lemma RegisterBytes(p: Platform, r: RegisterDto)
    ensures Register(p).enc(r)
         == Str(p).enc(r.alias) + (Str(p).enc(r.version) + (Optional(p, Str(p)).enc(r.deviceModel)
            + (Optional(p, Device(p)).enc(r.deviceType) + (Str(p).enc(r.token) + (PutUnsigned(p, 2, r.port)
            + (Protocol(p).enc(r.protocol) + PutBool(p, r.hasWebInterface)))))))
    {
    hide PutUnsigned, PutBool;
    assert U16(p).enc(r.port) == PutUnsigned(p, 2, r.port) && Bool(p).enc(r.hasWebInterface) == PutBool(p, r.hasWebInterface);
    hide Str, Device, Protocol, U16, View, Pair, Optional, Bool;
    var text, device := Optional(p, Str(p)), Optional(p, Device(p));
    var x7 := (r.protocol, r.hasWebInterface);
    var x5 := (r.token, (r.port, x7));
    var c7 := Pair(Protocol(p), Bool(p));
    PairEnc(Protocol(p), Bool(p), r.protocol, r.hasWebInterface);
    var c6 := Pair(U16(p), c7);
    PairEnc(U16(p), c7, r.port, x7);
    var c5 := Pair(Str(p), c6);
    PairEnc(Str(p), c6, r.token, (r.port, x7));
    var c4 := Pair(device, c5);
    PairEnc(device, c5, r.deviceType, x5);
    var c3 := Pair(text, c4);
    PairEnc(text, c4, r.deviceModel, (r.deviceType, x5));
    var c2 := Pair(Str(p), c3);
    PairEnc(Str(p), c3, r.version, (r.deviceModel, (r.deviceType, x5)));
    PairEnc(Str(p), c2, r.alias, (r.version, (r.deviceModel, (r.deviceType, x5))));
    ViewEnc(RegisterFieldsCodec(p), ToRegister, FromRegister, r);
  }

  lemma TaggedEnc<T>(p: Platform, tag: T -> int, branch: int -> Option<Codec<T>>, x: T)
    requires 0 <= tag(x) < I32_LIMIT && branch(tag(x)).Some?
    ensures Tagged(p, tag, branch).enc(x) == PutUnsigned(p, 4, tag(x)) + branch(tag(x)).value.enc(x)
  {
    TagBytes(p, tag(x));
    hide I32, PutUnsigned;
  }

  /** Four bytes read as a signed number. */
  lemma TagRead(p: Platform, n: nat, rest: Bytes)
    requires n < 0x1_0000_0000
    ensures I32(p).dec(PutUnsigned(p, 4, n) + rest) == Some((if n < 0x8000_0000 then n else n - 0x1_0000_0000, rest))
  {
    FourBytes();
    UnsignedRoundTrip(p, 4, n, rest);
    hide PutUnsigned, TakeUnsigned, Power256, View;
    ViewDec(Unsigned(p, 4), SignedOf, ToBits, PutUnsigned(p, 4, n) + rest, n, rest);
  }

  lemma TaggedRefuses<T>(p: Platform, tag: T -> int, branch: int -> Option<Codec<T>>, n: nat, rest: Bytes)
    requires n < 0x1_0000_0000 && branch(if n < 0x8000_0000 then n else n - 0x1_0000_0000).None?
    ensures Tagged(p, tag, branch).dec(PutUnsigned(p, 4, n) + rest) == None
  {
    TagRead(p, n, rest);
    hide I32, PutUnsigned;
  }

  lemma EnumRefuses<T>(p: Platform, to: int -> Option<T>, from: T -> int, n: nat, rest: Bytes)
    requires n < 0x1_0000_0000 && to(if n < 0x8000_0000 then n else n - 0x1_0000_0000).None?
    ensures View(I32(p), to, from).dec(PutUnsigned(p, 4, n) + rest) == None
  {
    TagRead(p, n, rest);
    hide I32, PutUnsigned, View;
    ViewDec(I32(p), to, from, PutUnsigned(p, 4, n) + rest, if n < 0x8000_0000 then n else n - 0x1_0000_0000, rest);
  }

  /** A server message is the number of its variant in 32 bits, then its fields. */
  lemma WsMessageBytes(p: Platform, m: WsServerMessage)
    ensures WsMessage(p).enc(m) == match m
              case Hello(c, peers) => PutUnsigned(p, 4, 0) + (Client(p).enc(c) + EncodeVec(p, Client(p), peers))
              case Join(c) => PutUnsigned(p, 4, 1) + Client(p).enc(c)
              case Update(c) => PutUnsigned(p, 4, 2) + Client(p).enc(c)
              case Left(id) => PutUnsigned(p, 4, 3) + Uuid(p).enc(id)
              case Offer(s) => PutUnsigned(p, 4, 4) + Sdp(p).enc(s)
              case Answer(s) => PutUnsigned(p, 4, 5) + Sdp(p).enc(s)
              case Error(code) => PutUnsigned(p, 4, 6) + PutUnsigned(p, 2, code)
    {
    TaggedEnc(p, WsTag, WsBranches(p), m);
    assert U16(p).enc == Unsigned(p, 2).enc;
    hide Tagged, I32, Client, Uuid, Sdp, PutUnsigned, EncodeVec, View, Pair;
    match m {
      case Hello(c, peers) =>
        PairEnc(Client(p), Vec(p, Client(p)), c, peers);
        ViewEnc(Pair(Client(p), Vec(p, Client(p))), ToHello, FromHello, m);
      case Join(c) => ViewEnc(Client(p), ToJoin, FromPeer, m);
      case Update(c) => ViewEnc(Client(p), ToUpdate, FromPeer, m);
      case Left(id) => ViewEnc(Uuid(p), ToLeft, FromLeft, m);
      case Offer(s) => ViewEnc(Sdp(p), ToOffer, FromSdpMessage, m);
      case Answer(s) => ViewEnc(Sdp(p), ToAnswer, FromSdpMessage, m);
      case Error(code) => ViewEnc(U16(p), ToError, FromError, m);
    }
  }

  lemma RtcStatusBytes(p: Platform, s: RTCStatus)
    ensures RtcStatus(p).enc(s) == match s
              case SdpExchanged => PutUnsigned(p, 4, 0)
              case Connected => PutUnsigned(p, 4, 1)
              case PinRequired => PutUnsigned(p, 4, 2)
              case TooManyAttempts => PutUnsigned(p, 4, 3)
              case Declined => PutUnsigned(p, 4, 4)
              case Sending => PutUnsigned(p, 4, 5)
              case Finished => PutUnsigned(p, 4, 6)
              case RtcError(text) => PutUnsigned(p, 4, 7) + Str(p).enc(text)
    {
    TaggedEnc(p, RtcTag, RtcBranches(p), s);
    hide Tagged, I32, Str, PutUnsigned, View;
    if s.RtcError? {
      ViewEnc(Str(p), ToRtcError, FromRtcError, s);
    } else {
      ViewEnc(Nothing(), ToPlain(RtcTag(s)), FromPlain, s);
      assert PutUnsigned(p, 4, RtcTag(s)) + [] == PutUnsigned(p, 4, RtcTag(s));
    }
  }

  lemma HttpErrorBytes(p: Platform, e: RsHttpClientError)
    ensures HttpError(p).enc(e) == match e
              case StatusCode(n, text) => PutUnsigned(p, 4, 0) + (PutUnsigned(p, 2, n) + Optional(p, Str(p)).enc(text))
              case Reqwest(text) => PutUnsigned(p, 4, 1) + Str(p).enc(text)
              case Json(text) => PutUnsigned(p, 4, 2) + Str(p).enc(text)
              case Io(text) => PutUnsigned(p, 4, 3) + Str(p).enc(text)
              case Other(text) => PutUnsigned(p, 4, 4) + Str(p).enc(text)
    {
    TaggedEnc(p, HttpErrorTag, HttpErrorBranches(p), e);
    hide Tagged, I32, Str, PutUnsigned, Optional, View, Pair;
    match e {
      case StatusCode(n, text) =>
        PairEnc(U16(p), Optional(p, Str(p)), n, text);
        ViewEnc(Pair(U16(p), Optional(p, Str(p))), ToStatusCode, FromStatusCode, e);
      case Reqwest(_) => ViewEnc(Str(p), ToReqwest, FromHttpText, e);
      case Json(_) => ViewEnc(Str(p), ToJson, FromHttpText, e);
      case Io(_) => ViewEnc(Str(p), ToIo, FromHttpText, e);
      case Other(_) => ViewEnc(Str(p), ToOther, FromHttpText, e);
    }
  }

  // ---- What is refused ----

  /** Four bytes that name no variant, as a signed number, are refused, whatever follows. */
  lemma UnknownTagRefused(p: Platform, n: nat, rest: Bytes)
    requires n < 0x1_0000_0000
    ensures n >= 7 ==> WsMessage(p).dec(PutUnsigned(p, 4, n) + rest) == None
    ensures n >= 8 ==> RtcStatus(p).dec(PutUnsigned(p, 4, n) + rest) == None
    ensures n >= 5 ==> HttpError(p).dec(PutUnsigned(p, 4, n) + rest) == None && Device(p).dec(PutUnsigned(p, 4, n) + rest) == None
    ensures n >= 2 ==> Protocol(p).dec(PutUnsigned(p, 4, n) + rest) == None
  {
    hide I32, PutUnsigned, View, Tagged;
    if n >= 7 {
      TaggedRefuses(p, WsTag, WsBranches(p), n, rest);
    }
    if n >= 8 {
      TaggedRefuses(p, RtcTag, RtcBranches(p), n, rest);
    }
    if n >= 5 {
      TaggedRefuses(p, HttpErrorTag, HttpErrorBranches(p), n, rest);
      EnumRefuses(p, DeviceFromTag, DeviceToTag, n, rest);
    }
    if n >= 2 {
      EnumRefuses(p, ProtocolFromTag, ProtocolToTag, n, rest);
    }
  }

  /** Bytes that are not UTF-8 are refused as a string, and an id of another length than 16. */
  lemma BadBytesRefused(p: Platform, b: Bytes, rest: Bytes)
    requires |b| < I32_LIMIT
    ensures !p.utf8(b) ==> Str(p).dec(PutUnsigned(p, 4, |b|) + b + rest) == None
    ensures |b| != 16 ==> Uuid(p).dec(PutUnsigned(p, 4, |b|) + b + rest) == None
  {
    hide Byte, PutUnsigned, Exact, Blob, View;
    CheckedRefuses(p, p.utf8, b, rest);
    CheckedRefuses(p, SixteenLong, b, rest);
  }

  lemma CheckedRefuses(p: Platform, valid: Bytes -> bool, b: Bytes, rest: Bytes)
    requires |b| < I32_LIMIT
    ensures !valid(b) ==> Checked(p, valid).dec(PutUnsigned(p, 4, |b|) + b + rest) == None
  {
    BlobExact(p);
    BytesOk(p, b);
    RawBytes(p, b);
    hide Byte, PutUnsigned, Exact;
    assert Blob(p).enc(b) == PutUnsigned(p, 4, |b|) + b && Blob(p).ok(b);
    hide Blob, View, AreOk, AllOk;
    if !valid(b) {
      assert CheckWith(valid)(b).None?;
      ViewRefuses(Blob(p), CheckWith(valid), Same, b, rest);
    }
  }

  lemma BlobExact(p: Platform)
    ensures Exact(Blob(p))
  {
    hide Exact;
    UnsignedExact(p, 1);
    ViewExact(Unsigned(p, 1), ByteOf, ByteNumber);
    VecIsExact(p, Byte(p));
  }

  function EntryBytes(p: Platform, entries: seq<(Utf8, File)>): Bytes {
    if entries == [] then []
    else Str(p).enc(entries[0].0) + FileCodec(p).enc(entries[0].1) + EntryBytes(p, entries[1..])
  }

  lemma {:induction false} EntriesEnc(p: Platform, entries: seq<(Utf8, File)>)
    ensures EncodeAll(Pair(Str(p), FileCodec(p)), entries) == EntryBytes(p, entries)
  {
    hide Str, FileCodec, Pair;
    if entries != [] {
      PairEnc(Str(p), FileCodec(p), entries[0].0, entries[0].1);
      EntriesEnc(p, entries[1..]);
    }
  }

  /** An upload request is the registration, then the count of its files and each name with its file. */
  lemma UploadRequestBytes(p: Platform, info: RegisterDto, entries: seq<(Utf8, File)>)
    ensures EncodeUploadRequest(p, info, entries)
         == Register(p).enc(info) + (PutUnsigned(p, 4, |entries| % 0x1_0000_0000) + EntryBytes(p, entries))
  {
    hide Register, Str, FileCodec, PutUnsigned, Pair;
    EntriesEnc(p, entries);
  }
}
