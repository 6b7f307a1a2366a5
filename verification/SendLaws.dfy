/// What the bytes of a transfer say: the repository's own readers recover every value, and
/// the signed document determines all of them.

module SendLaws {
  import opened GoInts
  import opened Protobuf
  import opened MessageLaws
  import opened Wrappers
  import opened SendTx

  /// One message at a time.

  lemma {:induction false} ReadCoin(denom: seq<byte>, amount: uint64)
    requires |Encode(CoinMsg(denom, amount))| <= MAX_SLICE
    ensures GetBytes(Encode(CoinMsg(denom, amount)), 1) == Some(denom)
    ensures GetBytes(Encode(CoinMsg(denom, amount)), 2) == Some(Decimal.Format(amount))
  {
    GetAt(CoinMsg(denom, amount), 0);
    GetAt(CoinMsg(denom, amount), 1);
  }

  lemma {:induction false} ReadAny(url: seq<byte>, value: seq<byte>)
    requires |Encode(AnyMsg(url, value))| <= MAX_SLICE
    ensures GetBytes(Encode(AnyMsg(url, value)), 1) == Some(url)
    ensures GetBytes(Encode(AnyMsg(url, value)), 2) == Some(value)
  {
    GetAt(AnyMsg(url, value), 0);
    GetAt(AnyMsg(url, value), 1);
  }

  lemma {:induction false} ReadSend(s: Send)
    requires |Encode(SendMsg(s))| <= MAX_SLICE
    ensures GetBytes(Encode(SendMsg(s)), 1) == Some(s.from)
    ensures GetBytes(Encode(SendMsg(s)), 2) == Some(s.to)
    ensures GetBytes(Encode(SendMsg(s)), 3) == Some(Encode(CoinMsg(s.denom, s.amount)))
  {
    GetAt(SendMsg(s), 0);
    GetAt(SendMsg(s), 1);
    GetAt(SendMsg(s), 2);
  }

  lemma {:induction false} ReadBody(s: Send)
    requires |Encode(BodyMsg(s))| <= MAX_SLICE
    ensures GetBytes(Encode(BodyMsg(s)), 1) == Some(Encode(AnyMsg(Ascii(MSG_SEND), Encode(SendMsg(s)))))
    ensures GetBytes(Encode(BodyMsg(s)), 2) == if s.memo == [] then None else Some(s.memo)
  {
    GetAt(BodyMsg(s), 0);
    if s.memo == [] {
      NoMemo(s);
    } else {
      GetAt(BodyMsg(s), 1);
    }
  }

  lemma {:induction false} NoMemo(s: Send)
    requires s.memo == [] && |Encode(BodyMsg(s))| <= MAX_SLICE
    ensures GetBytes(Encode(BodyMsg(s)), 2) == None
  {
    GetOfEncode(BodyMsg(s), 2);
    assert BodyMsg(s)[1..] == [];
  }

  lemma {:induction false} ReadKey(s: Send)
    requires |Encode(KeyMsg(s))| <= MAX_SLICE
    ensures GetBytes(Encode(KeyMsg(s)), 1) == Some(s.pubKey)
  {
    GetAt(KeyMsg(s), 0);
  }

  lemma {:induction false} ReadMode()
    requires |Encode(ModeMsg())| <= MAX_SLICE && |Encode(SingleMsg())| <= MAX_SLICE
    ensures GetBytes(Encode(ModeMsg()), 1) == Some(Encode(SingleMsg()))
    ensures GetNumber(Encode(SingleMsg()), 1) == Figure(SIGN_MODE_DIRECT)
  {
    GetAt(ModeMsg(), 0);
    GetAt(SingleMsg(), 0);
  }

  lemma {:induction false} ReadSigner(s: Send)
    requires |Encode(SignerMsg(s))| <= MAX_SLICE
    ensures GetBytes(Encode(SignerMsg(s)), 1) == Some(Encode(AnyMsg(Ascii(PUB_KEY), Encode(KeyMsg(s)))))
    ensures GetBytes(Encode(SignerMsg(s)), 2) == Some(Encode(ModeMsg()))
    ensures GetNumber(Encode(SignerMsg(s)), 3) == Figure(s.sequence)
  {
    GetAt(SignerMsg(s), 0);
    GetAt(SignerMsg(s), 1);
    GetAt(SignerMsg(s), 2);
  }

  lemma {:induction false} ReadFee(s: Send)
    requires |Encode(FeeMsg(s))| <= MAX_SLICE
    ensures GetBytes(Encode(FeeMsg(s)), 1) == Some(Encode(CoinMsg(s.denom, s.fee)))
    ensures GetNumber(Encode(FeeMsg(s)), 2) == Figure(s.gas)
  {
    GetAt(FeeMsg(s), 0);
    GetAt(FeeMsg(s), 1);
  }

  lemma {:induction false} ReadAuth(s: Send)
    requires |Encode(AuthMsg(s))| <= MAX_SLICE
    ensures GetBytes(Encode(AuthMsg(s)), 1) == Some(Encode(SignerMsg(s)))
    ensures GetBytes(Encode(AuthMsg(s)), 2) == Some(Encode(FeeMsg(s)))
  {
    GetAt(AuthMsg(s), 0);
    GetAt(AuthMsg(s), 1);
  }

  lemma {:induction false} ReadDocFields(body: seq<byte>, auth: seq<byte>, chainID: seq<byte>, accountNumber: uint64)
    requires |Encode(DocFields(body, auth, chainID, accountNumber))| <= MAX_SLICE
    ensures GetBytes(Encode(DocFields(body, auth, chainID, accountNumber)), 1) == Some(body)
    ensures GetBytes(Encode(DocFields(body, auth, chainID, accountNumber)), 2) == Some(auth)
    ensures GetBytes(Encode(DocFields(body, auth, chainID, accountNumber)), 3) == Some(chainID)
    ensures GetNumber(Encode(DocFields(body, auth, chainID, accountNumber)), 4) == Figure(accountNumber)
  {
    var fs := DocFields(body, auth, chainID, accountNumber);
    GetAt(fs, 0);
    GetAt(fs, 1);
    GetAt(fs, 2);
    GetAt(fs, 3);
  }

  lemma {:induction false} ReadRawFields(body: seq<byte>, auth: seq<byte>, sig: seq<byte>)
    requires |Encode(RawFields(body, auth, sig))| <= MAX_SLICE
    ensures GetBytes(Encode(RawFields(body, auth, sig)), 1) == Some(body)
    ensures GetBytes(Encode(RawFields(body, auth, sig)), 2) == Some(auth)
    ensures GetBytes(Encode(RawFields(body, auth, sig)), 3) == Some(sig)
  {
    var fs := RawFields(body, auth, sig);
    GetAt(fs, 0);
    GetAt(fs, 1);
    GetAt(fs, 2);
  }

  lemma {:induction false} ReadDoc(s: Send)
    requires |SignDoc(s)| <= MAX_SLICE
    ensures GetBytes(SignDoc(s), 1) == Some(Encode(BodyMsg(s)))
    ensures GetBytes(SignDoc(s), 2) == Some(Encode(AuthMsg(s)))
    ensures GetBytes(SignDoc(s), 3) == Some(s.chainID)
    ensures GetNumber(SignDoc(s), 4) == Figure(s.accountNumber)
  {
    ReadDocFields(Encode(BodyMsg(s)), Encode(AuthMsg(s)), s.chainID, s.accountNumber);
  }

  lemma {:induction false} ReadRaw(s: Send, sig: seq<byte>)
    requires |Encode(RawMsg(s, sig))| <= MAX_SLICE
    ensures GetBytes(Encode(RawMsg(s, sig)), 1) == Some(Encode(BodyMsg(s)))
    ensures GetBytes(Encode(RawMsg(s, sig)), 2) == Some(Encode(AuthMsg(s)))
    ensures GetBytes(Encode(RawMsg(s, sig)), 3) == Some(sig)
  {
    ReadRawFields(Encode(BodyMsg(s)), Encode(AuthMsg(s)), sig);
  }

  /// Whole documents.

  /** `pbBytesField`, with a missing field read as the nil slice. */
  function BytesIn(buf: buffer, num: nat): (r: buffer) {
    match GetBytes(buf, num)
    case Some(val) => val
    case None => []
  }

  /** `pbVarintField`. */
  function NumberIn(buf: buffer, num: nat): uint64 {
    match GetNumber(buf, num)
    case Figure(v) => v
    case FigurePanic => 0
  }

  /** The transfer that a body and an auth-info message describe, by the repository's readers. */
  function ReadParts(body: buffer, auth: buffer, chainID: seq<byte>, accountNumber: uint64): Send {
    var msg, signer, fee := BytesIn(BytesIn(body, 1), 2), BytesIn(auth, 1), BytesIn(auth, 2);
    var coin := BytesIn(msg, 3);
    Send(BytesIn(msg, 1), BytesIn(BytesIn(BytesIn(signer, 1), 2), 1), BytesIn(msg, 2), BytesIn(coin, 1),
         Decimal.Parse(BytesIn(coin, 2)), Decimal.Parse(BytesIn(BytesIn(fee, 1), 2)), NumberIn(fee, 2),
         chainID, accountNumber, NumberIn(signer, 3), BytesIn(body, 2))
  }

  /** Body and auth info name the two message types, the fee's denomination and the sign mode. */
  predicate WellTyped(body: buffer, auth: buffer, s: Send) {
    && BytesIn(BytesIn(body, 1), 1) == Ascii("/cosmos.bank.v1beta1.MsgSend")
    && BytesIn(BytesIn(BytesIn(auth, 1), 1), 1) == Ascii("/cosmos.crypto.secp256k1.PubKey")
    && NumberIn(BytesIn(BytesIn(BytesIn(auth, 1), 2), 1), 1) == 1
    && BytesIn(BytesIn(BytesIn(auth, 2), 1), 1) == s.denom
    && (GetBytes(body, 2) == None <==> s.memo == [])
  }

  function ReadDocument(doc: buffer): Send {
    ReadParts(BytesIn(doc, 1), BytesIn(doc, 2), BytesIn(doc, 3), NumberIn(doc, 4))
  }

  lemma {:induction false} BodyReads(s: Send)
    requires |Encode(BodyMsg(s))| <= MAX_SLICE
    ensures var body := Encode(BodyMsg(s));
            var msg := BytesIn(BytesIn(body, 1), 2);
            && BytesIn(BytesIn(body, 1), 1) == Ascii(MSG_SEND)
            && BytesIn(msg, 1) == s.from && BytesIn(msg, 2) == s.to
            && BytesIn(BytesIn(msg, 3), 1) == s.denom && BytesIn(BytesIn(msg, 3), 2) == Decimal.Format(s.amount)
            && BytesIn(body, 2) == s.memo && (GetBytes(body, 2) == None <==> s.memo == [])
  {
    ReadBody(s);
    ReadAny(Ascii(MSG_SEND), Encode(SendMsg(s)));
    ReadSend(s);
    ReadCoin(s.denom, s.amount);
  }

  lemma {:induction false} SignerReads(s: Send)
    requires |Encode(SignerMsg(s))| <= MAX_SLICE
    ensures var signer := Encode(SignerMsg(s));
            && BytesIn(BytesIn(signer, 1), 1) == Ascii(PUB_KEY)
            && BytesIn(BytesIn(BytesIn(signer, 1), 2), 1) == s.pubKey
            && NumberIn(BytesIn(BytesIn(signer, 2), 1), 1) == SIGN_MODE_DIRECT
            && NumberIn(signer, 3) == s.sequence
  {
    ReadSigner(s);
    ReadAny(Ascii(PUB_KEY), Encode(KeyMsg(s)));
    ReadKey(s);
    InnerLength(Encode(ModeMsg()), Encode(SignerMsg(s)), 2);
    GetAt(ModeMsg(), 0);
    ReadMode();
  }

  lemma {:induction false} InnerLength(inner: seq<byte>, buf: buffer, num: nat)
    requires GetBytes(buf, num) == Some(inner)
    ensures |inner| <= |buf|
  {}

  lemma {:induction false} FeeReads(s: Send)
    requires |Encode(FeeMsg(s))| <= MAX_SLICE
    ensures var fee := Encode(FeeMsg(s));
            && BytesIn(BytesIn(fee, 1), 1) == s.denom && BytesIn(BytesIn(fee, 1), 2) == Decimal.Format(s.fee) && NumberIn(fee, 2) == s.gas
  {
    ReadFee(s);
    ReadCoin(s.denom, s.fee);
  }

  lemma {:induction false} PartsRead(s: Send)
    requires |Encode(BodyMsg(s))| <= MAX_SLICE && |Encode(AuthMsg(s))| <= MAX_SLICE
    ensures ReadParts(Encode(BodyMsg(s)), Encode(AuthMsg(s)), s.chainID, s.accountNumber) == s
    ensures WellTyped(Encode(BodyMsg(s)), Encode(AuthMsg(s)), s)
  {
    BodyReads(s);
    ReadAuth(s);
    SignerReads(s);
    FeeReads(s);
    Decimal.ParseOfFormat(s.amount);
    Decimal.ParseOfFormat(s.fee);
  }

  /** Reading back the signed document gives exactly the transfer it was built from. */
  lemma {:induction false} DocumentReadBack(s: Send)
    requires |SignDoc(s)| <= MAX_SLICE
    ensures ReadDocument(SignDoc(s)) == s
    ensures WellTyped(BytesIn(SignDoc(s), 1), BytesIn(SignDoc(s), 2), s)
  {
    ReadDoc(s);
    PartsRead(s);
  }

  /** The signed bytes determine the whole transfer. */
  lemma {:induction false} DocumentDetermines(s: Send, t: Send)
    requires |SignDoc(s)| <= MAX_SLICE && SignDoc(s) == SignDoc(t)
    ensures s == t
  {
    DocumentReadBack(s);
    DocumentReadBack(t);
  }

  /**
   * The broadcast transaction carries the two messages that were signed and the signature over
   * them; reading it gives every value of the transfer that is not part of the chain's context.
   */
  lemma {:induction false} TransactionReadBack(s: Send, sign: seq<byte> -> seq<byte>)
    requires |TxRaw(s, sign)| <= MAX_SLICE && |SignDoc(s)| <= MAX_SLICE
    ensures var tx: buffer := TxRaw(s, sign);
            && ReadParts(BytesIn(tx, 1), BytesIn(tx, 2), s.chainID, s.accountNumber) == s
            && WellTyped(BytesIn(tx, 1), BytesIn(tx, 2), s)
            && BytesIn(tx, 1) == BytesIn(SignDoc(s), 1) && BytesIn(tx, 2) == BytesIn(SignDoc(s), 2)
            && BytesIn(tx, 3) == sign(SignDoc(s))
  {
    ReadRaw(s, sign(SignDoc(s)));
    ReadDoc(s);
    PartsRead(s);
  }

  /** An ASCII string is written as its character codes. */
  lemma {:induction false} AsciiCodes(s: string)
    requires forall i :: 0 <= i < |s| ==> s[i] as int < 0x80
    ensures |Ascii(s)| == |s| && forall i :: 0 <= i < |s| ==> Ascii(s)[i] as char == s[i]
  {}

  /// The layout of a transfer.

  lemma {:induction false} CoinShape(denom: seq<byte>, amount: uint64)
    requires |Encode(CoinMsg(denom, amount))| <= MAX_SLICE
    ensures LaidOut(Encode(CoinMsg(denom, amount)), [(1, 2), (2, 2)])
  {
    LayoutOfEncode(CoinMsg(denom, amount));
    assert Shape(CoinMsg(denom, amount)) == [(1, 2), (2, 2)];
  }

  lemma {:induction false} AnyShape(url: seq<byte>, value: seq<byte>)
    requires |Encode(AnyMsg(url, value))| <= MAX_SLICE
    ensures LaidOut(Encode(AnyMsg(url, value)), [(1, 2), (2, 2)])
  {
    LayoutOfEncode(AnyMsg(url, value));
    assert Shape(AnyMsg(url, value)) == [(1, 2), (2, 2)];
  }

  lemma {:induction false} SendShape(s: Send)
    requires |Encode(SendMsg(s))| <= MAX_SLICE
    ensures LaidOut(Encode(SendMsg(s)), [(1, 2), (2, 2), (3, 2)])
  {
    LayoutOfEncode(SendMsg(s));
    assert Shape(SendMsg(s)) == [(1, 2), (2, 2), (3, 2)];
  }

  lemma {:induction false} BodyShape(s: Send)
    requires |Encode(BodyMsg(s))| <= MAX_SLICE
    ensures LaidOut(Encode(BodyMsg(s)), if s.memo == [] then [(1, 2)] else [(1, 2), (2, 2)])
  {
    LayoutOfEncode(BodyMsg(s));
    assert Shape(BodyMsg(s)) == if s.memo == [] then [(1, 2)] else [(1, 2), (2, 2)];
  }

  lemma {:induction false} KeyShape(s: Send)
    requires |Encode(KeyMsg(s))| <= MAX_SLICE
    ensures LaidOut(Encode(KeyMsg(s)), [(1, 2)])
  {
    LayoutOfEncode(KeyMsg(s));
    assert Shape(KeyMsg(s)) == [(1, 2)];
  }

  lemma {:induction false} ModeShape()
    requires |Encode(ModeMsg())| <= MAX_SLICE && |Encode(SingleMsg())| <= MAX_SLICE
    ensures LaidOut(Encode(ModeMsg()), [(1, 2)]) && LaidOut(Encode(SingleMsg()), [(1, 0)])
  {
    LayoutOfEncode(ModeMsg());
    LayoutOfEncode(SingleMsg());
    assert Shape(ModeMsg()) == [(1, 2)] && Shape(SingleMsg()) == [(1, 0)];
  }

  lemma {:induction false} SignerShape(s: Send)
    requires |Encode(SignerMsg(s))| <= MAX_SLICE
    ensures LaidOut(Encode(SignerMsg(s)), [(1, 2), (2, 2), (3, 0)])
  {
    LayoutOfEncode(SignerMsg(s));
    assert Shape(SignerMsg(s)) == [(1, 2), (2, 2), (3, 0)];
  }

  lemma {:induction false} FeeShape(s: Send)
    requires |Encode(FeeMsg(s))| <= MAX_SLICE
    ensures LaidOut(Encode(FeeMsg(s)), [(1, 2), (2, 0)])
  {
    LayoutOfEncode(FeeMsg(s));
    assert Shape(FeeMsg(s)) == [(1, 2), (2, 0)];
  }

  lemma {:induction false} AuthShape(s: Send)
    requires |Encode(AuthMsg(s))| <= MAX_SLICE
    ensures LaidOut(Encode(AuthMsg(s)), [(1, 2), (2, 2)])
  {
    LayoutOfEncode(AuthMsg(s));
    assert Shape(AuthMsg(s)) == [(1, 2), (2, 2)];
  }

  lemma {:induction false} DocShape(body: seq<byte>, auth: seq<byte>, chainID: seq<byte>, accountNumber: uint64)
    requires |Encode(DocFields(body, auth, chainID, accountNumber))| <= MAX_SLICE
    ensures LaidOut(Encode(DocFields(body, auth, chainID, accountNumber)), [(1, 2), (2, 2), (3, 2), (4, 0)])
  {
    LayoutOfEncode(DocFields(body, auth, chainID, accountNumber));
    assert Shape(DocFields(body, auth, chainID, accountNumber)) == [(1, 2), (2, 2), (3, 2), (4, 0)];
  }

  lemma {:induction false} RawShape(body: seq<byte>, auth: seq<byte>, sig: seq<byte>)
    requires |Encode(RawFields(body, auth, sig))| <= MAX_SLICE
    ensures LaidOut(Encode(RawFields(body, auth, sig)), [(1, 2), (2, 2), (3, 2)])
  {
    LayoutOfEncode(RawFields(body, auth, sig));
    assert Shape(RawFields(body, auth, sig)) == [(1, 2), (2, 2), (3, 2)];
  }

  /** A body: one message, a MsgSend with one coin, and a memo if there is one; nothing else. */
  predicate BodyLaidOut(body: buffer, memo: bool) {
    var any := BytesIn(body, 1);
    var msg := BytesIn(any, 2);
    && LaidOut(body, if memo then [(1, 2), (2, 2)] else [(1, 2)])
    && LaidOut(any, [(1, 2), (2, 2)])
    && LaidOut(msg, [(1, 2), (2, 2), (3, 2)])
    && LaidOut(BytesIn(msg, 3), [(1, 2), (2, 2)])
  }

  /** One signer, with key, mode and sequence. */
  predicate SignerLaidOut(signer: buffer) {
    var any := BytesIn(signer, 1);
    && LaidOut(signer, [(1, 2), (2, 2), (3, 0)])
    && LaidOut(any, [(1, 2), (2, 2)]) && LaidOut(BytesIn(any, 2), [(1, 2)])
    && LaidOut(BytesIn(signer, 2), [(1, 2)]) && LaidOut(BytesIn(BytesIn(signer, 2), 1), [(1, 0)])
  }

  /** One signer and a fee of one coin and a gas limit. */
  predicate AuthLaidOut(auth: buffer) {
    var fee := BytesIn(auth, 2);
    && LaidOut(auth, [(1, 2), (2, 2)]) && SignerLaidOut(BytesIn(auth, 1))
    && LaidOut(fee, [(1, 2), (2, 0)]) && LaidOut(BytesIn(fee, 1), [(1, 2), (2, 2)])
  }

  lemma {:induction false} BodyOnce(s: Send)
    requires |Encode(BodyMsg(s))| <= MAX_SLICE
    ensures BodyLaidOut(Encode(BodyMsg(s)), s.memo != [])
  {
    BodyShape(s);
    ReadBody(s);
    AnyShape(Ascii(MSG_SEND), Encode(SendMsg(s)));
    ReadAny(Ascii(MSG_SEND), Encode(SendMsg(s)));
    SendShape(s);
    ReadSend(s);
    CoinShape(s.denom, s.amount);
  }

  lemma {:induction false} SignerOnce(s: Send)
    requires |Encode(SignerMsg(s))| <= MAX_SLICE
    ensures SignerLaidOut(Encode(SignerMsg(s)))
  {
    SignerShape(s);
    ReadSigner(s);
    AnyShape(Ascii(PUB_KEY), Encode(KeyMsg(s)));
    ReadAny(Ascii(PUB_KEY), Encode(KeyMsg(s)));
    KeyShape(s);
    InnerLength(Encode(ModeMsg()), Encode(SignerMsg(s)), 2);
    GetAt(ModeMsg(), 0);
    ModeShape();
  }

  lemma {:induction false} AuthOnce(s: Send)
    requires |Encode(AuthMsg(s))| <= MAX_SLICE
    ensures AuthLaidOut(Encode(AuthMsg(s)))
  {
    AuthShape(s);
    ReadAuth(s);
    SignerOnce(s);
    FeeShape(s);
    ReadFee(s);
    CoinShape(s.denom, s.fee);
  }

  /**
   * The signed document and the transaction, and every message inside them, hold exactly the fields
   * listed, in this order, each once: one MsgSend with one coin, one signer, one fee.
   */
  lemma {:induction false} TransferOnce(s: Send, sign: seq<byte> -> seq<byte>)
    requires |TxRaw(s, sign)| <= MAX_SLICE && |SignDoc(s)| <= MAX_SLICE
    ensures var doc: buffer := SignDoc(s);
            var tx: buffer := TxRaw(s, sign);
            && LaidOut(doc, [(1, 2), (2, 2), (3, 2), (4, 0)]) && LaidOut(tx, [(1, 2), (2, 2), (3, 2)])
            && BodyLaidOut(BytesIn(doc, 1), s.memo != []) && BodyLaidOut(BytesIn(tx, 1), s.memo != [])
            && AuthLaidOut(BytesIn(doc, 2)) && AuthLaidOut(BytesIn(tx, 2))
  {
    DocShape(Encode(BodyMsg(s)), Encode(AuthMsg(s)), s.chainID, s.accountNumber);
    RawShape(Encode(BodyMsg(s)), Encode(AuthMsg(s)), sign(SignDoc(s)));
    ReadDoc(s);
    ReadRaw(s, sign(SignDoc(s)));
    BodyOnce(s);
    AuthOnce(s);
  }
}
