/** Sessions whose peers check each other's tokens: what the nonce exchange buys. */
module TokenSession {
  import opened Prelude
  import opened Network
  import opened Sender
  import opened Receiver
  import opened Session
  import opened Wire
  import opened Fields
  import Token

  /** The check a peer makes when it was given a key for the other one. */
  ghost predicate ChecksWith(expects: Option<(string, Bytes) -> Token.Check>, sha: Bytes -> Bytes, key: Token.VerifyingKey) {
    && expects.Some?
    && forall token, nonce :: expects.value(token, nonce) == Token.VerifyTokenNonce(sha, key, token, nonce)
  }

  ghost predicate SignsWith(make: Bytes -> string, sha: Bytes -> Bytes, key: Token.SigningKey) {
    forall nonce :: make(nonce) == Token.GenerateTokenNonce(sha, key, nonce)
  }

  /** Two peers that know each other's keys never fail over tokens: only PINs and users decide the ending. */
  lemma KnownPeersPass(w: Codecs, s: SenderConfig, r: ReceiverConfig, sha: Bytes -> Bytes,
                       mine: Token.SigningKey, minePublic: Token.VerifyingKey,
                       theirs: Token.SigningKey, theirsPublic: Token.VerifyingKey)
    requires Honest(w, s, r)
    requires Token.Belongs(minePublic, mine) && SignsWith(s.token, sha, mine) && ChecksWith(r.expects, sha, minePublic)
    requires Token.Belongs(theirsPublic, theirs) && SignsWith(r.token, sha, theirs) && ChecksWith(s.expects, sha, theirsPublic)
    ensures exists end ::
      AlwaysEndsIn(Peers(w, s, r), Start(w, s), end) && Describes(w, s, r, ByReceiverPin(s, r, s.nonce + r.nonce), end)
  {
    hide Token.GenerateTokenNonce, Token.VerifyTokenNonce, AlwaysEndsIn, Describes, ByReceiverPin;
    var nonce := s.nonce + r.nonce;
    Token.NonceRoundTrip(sha, mine, minePublic, nonce, nonce);
    Token.NonceRoundTrip(sha, theirs, theirsPublic, nonce, nonce);
    SessionEnds(w, s, r);
  }

  /**
   * A token some key accepted for another pair of nonces is worth nothing here: whoever holds which keys,
   * every interleaving ends with both peers failed and no file handed out.
   */
  lemma ReplayedTokenFails(w: Codecs, s: SenderConfig, r: ReceiverConfig, sha: Bytes -> Bytes,
                           key: Token.VerifyingKey, key': Token.VerifyingKey, nonce': Bytes)
    requires Honest(w, s, r) && ChecksWith(r.expects, sha, key)
    requires nonce' != s.nonce + r.nonce
    requires Token.VerifyTokenNonce(sha, key', s.token(s.nonce + r.nonce), nonce').Accepted?
    ensures exists end :: AlwaysEndsIn(Peers(w, s, r), Start(w, s), end) && Describes(w, s, r, HandshakeFails, end)
    ensures forall d :: Reaches(Peers(w, s, r), Start(w, s), d) ==> RxOf(d.right).delivered == []
  {
    hide Token.VerifyTokenNonce, AlwaysEndsIn, Describes, Reaches;
    var nonce := s.nonce + r.nonce;
    var token := s.token(nonce);
    if Token.VerifyTokenNonce(sha, key, token, nonce).Accepted? {
      Token.OneNonce(sha, key, key', token, nonce, nonce');
    }
    assert EndingOf(s, r) == HandshakeFails;
    SessionEnds(w, s, r);
    forall d | Reaches(Peers(w, s, r), Start(w, s), d) ensures RxOf(d.right).delivered == [] {
      AgreementOnTheWay(w, s, r, d);
    }
  }

  /** Peers without expected keys never fail over tokens, whatever the tokens are. */
  lemma OpenPeersPass(w: Codecs, s: SenderConfig, r: ReceiverConfig)
    requires Honest(w, s, r) && s.expects.None? && r.expects.None?
    ensures exists end ::
      AlwaysEndsIn(Peers(w, s, r), Start(w, s), end) && Describes(w, s, r, ByReceiverPin(s, r, s.nonce + r.nonce), end)
  {
    hide AlwaysEndsIn, Describes, ByReceiverPin;
    SessionEnds(w, s, r);
  }

  /** If only the receiver expects a key, its check of the sender's token decides. */
  lemma ReceiverDecides(w: Codecs, s: SenderConfig, r: ReceiverConfig)
    requires Honest(w, s, r) && s.expects.None? && r.expects.Some?
    ensures var nonce := s.nonce + r.nonce;
            var e := if r.expects.value(s.token(nonce), nonce).Accepted? then ByReceiverPin(s, r, nonce) else HandshakeFails;
            exists end :: AlwaysEndsIn(Peers(w, s, r), Start(w, s), end) && Describes(w, s, r, e, end)
  {
    hide AlwaysEndsIn, Describes, ByReceiverPin;
    SessionEnds(w, s, r);
  }

  /** If only the sender does, its check of the receiver's token decides. */
  lemma SenderDecides(w: Codecs, s: SenderConfig, r: ReceiverConfig)
    requires Honest(w, s, r) && s.expects.Some? && r.expects.None?
    ensures var nonce := s.nonce + r.nonce;
            var e := if s.expects.value(r.token(nonce), nonce).Accepted? then ByReceiverPin(s, r, nonce) else HandshakeFails;
            exists end :: AlwaysEndsIn(Peers(w, s, r), Start(w, s), end) && Describes(w, s, r, e, end)
  {
    hide AlwaysEndsIn, Describes, ByReceiverPin;
    SessionEnds(w, s, r);
  }

  /**
   * Nor is its signature: a token that carries the signature of one accepted for other nonces fails in every
   * interleaving, whatever its other fields, if hashes do not collide and a signature fits one message.
   */
  lemma AlteredTokenFails(w: Codecs, s: SenderConfig, r: ReceiverConfig, sha: Bytes -> Bytes, key: Token.VerifyingKey,
                          captured: string, nonce': Bytes)
    requires Honest(w, s, r) && ChecksWith(r.expects, sha, key) && nonce' != s.nonce + r.nonce
    requires forall x, y :: sha(x) == sha(y) ==> x == y
    requires forall m, m', signature :: key.verify(m, signature) && key.verify(m', signature) ==> m == m'
    requires Token.VerifyTokenNonce(sha, key, captured, nonce').Accepted?
    requires var parts := Split(s.token(s.nonce + r.nonce), '.'); |parts| >= 5 && parts[4] == Split(captured, '.')[4]
    ensures exists end :: AlwaysEndsIn(Peers(w, s, r), Start(w, s), end) && Describes(w, s, r, HandshakeFails, end)
  {
    Token.VerifyExact(sha, key, captured, salt => salt == nonce');
    hide Token.VerifyTokenNonce, AlwaysEndsIn, Describes, Split;
    var nonce := s.nonce + r.nonce;
    if Token.VerifyTokenNonce(sha, key, s.token(nonce), nonce).Accepted? {
      Token.SignatureBindsNonce(sha, key, s.token(nonce), captured, nonce, nonce');
    }
    assert EndingOf(s, r) == HandshakeFails;
    SessionEnds(w, s, r);
  }
}
