/** Messages on the data channel, and the documents the two peers exchange. */
module Wire {
  import opened Prelude

  /** A data channel keeps the distinction between text and binary messages (section 6.6 of RFC 8831). */
  datatype Message = Text(data: Bytes) | Binary(data: Bytes)

  /** The text "0": an empty message would not arrive. */
  const DELIMITER: Message := Text([48])

  predicate IsDelimiter(m: Message) {
    m.Text? && |m.data| <= 1
  }

  type u64 = x: int | 0 <= x < 0x1_0000_0000_0000_0000

  type u8 = x: int | 0 <= x < 256

  datatype FileMetadata = FileMetadata(modified: Option<string>, accessed: Option<string>)

  datatype FileDto = FileDto(
    id: string, fileName: string, size: u64, fileType: string,
    sha256: Option<string>, preview: Option<string>, metadata: Option<FileMetadata>)

  datatype NonceMessage = NonceMessage(nonce: string)

  datatype TokenRequest = TokenRequest(token: string)

  datatype TokenResponse = TokenOk(token: string) | TokenPinRequired(token: string) | TokenInvalidSignature

  datatype PinMessage = PinMessage(pin: string)

  datatype PinReceivingResponse = ReceivingOk | ReceivingPinRequired | ReceivingTooManyAttempts

  datatype PinSendingResponse = SendingOk(files: seq<FileDto>) | SendingPinRequired | SendingTooManyAttempts

  datatype FileListResponse = ListOk(files: map<string, string>) | ListPair(publicKey: string) | ListDeclined | ListInvalidSignature

  datatype SendFileHeader = SendFileHeader(id: string, token: string)

  datatype SendFileResponse = SendFileResponse(id: string, success: bool, error: Option<string>)

  /** Why a peer gives up. */
  datatype Failure =
    | BadNonce | BadTokenMessage | TokenRefusedByPeer | TokenRefused | TokenPanic | NoPinGiven | BadPinReply | PinRefusedByPeer
    | BadPinMessage | PinRefused | BadFileList | PairNotModelled | BadOffer | BadFileHeader

  datatype Attempt<+T> = Success(value: T) | Failed(why: Failure)

  /** `serde_json` for one type of document. */
  datatype Serde<!T(!new)> = Serde(show: T -> Bytes, parse: Bytes -> Option<T>) {
    /** What is shown parses back, and a document, being a JSON object, takes at least two bytes. */
    ghost predicate Lawful() {
      && (forall x :: parse(show(x)) == Some(x))
      && (forall b :: parse(b).Some? ==> |b| >= 2)
    }
  }

  /** The serialisers of all documents of the protocol; no relation between different types is assumed. */
  datatype Codecs = Codecs(
    nonce: Serde<NonceMessage>,
    tokenRequest: Serde<TokenRequest>,
    tokenResponse: Serde<TokenResponse>,
    pin: Serde<PinMessage>,
    pinReceiving: Serde<PinReceivingResponse>,
    pinSending: Serde<PinSendingResponse>,
    fileList: Serde<FileListResponse>,
    header: Serde<SendFileHeader>,
    response: Serde<SendFileResponse>)
  {
    ghost predicate Lawful() {
      && nonce.Lawful() && tokenRequest.Lawful() && tokenResponse.Lawful()
      && pin.Lawful() && pinReceiving.Lawful() && pinSending.Lawful()
      && fileList.Lawful() && header.Lawful() && response.Lawful()
    }
  }

  /**
   * One end of the data channel as a task sees it: `inbox` is what will still arrive before the
   * channel closes, `sent` is what it has sent so far.
   */
  class DataChannel {
    var inbox: seq<Message>
    var sent: seq<Message>

    constructor (inbox: seq<Message>)
      ensures this.inbox == inbox && sent == []
    {
      this.inbox := inbox;
      sent := [];
    }

    method Recv() returns (m: Option<Message>)
      modifies this`inbox
      ensures old(inbox) == [] ==> m == None && inbox == []
      ensures old(inbox) != [] ==> m == Some(old(inbox)[0]) && inbox == old(inbox)[1..]
    {
      if inbox == [] {
        m := None;
      } else {
        m := Some(inbox[0]);
        inbox := inbox[1..];
      }
    }

    method Send(m: Message)
      modifies this`sent
      ensures sent == old(sent) + [m]
    {
      sent := sent + [m];
    }
  }
}
