/// The signed bank transfer of `internal/chain`: five levels of nested messages.

module SendTx {
  import opened GoInts
  import opened Protobuf
  import Decimal

  /** Everything a withdrawal transaction says. */
  datatype Send = Send(
    from: seq<byte>, pubKey: seq<byte>, to: seq<byte>, denom: seq<byte>,
    amount: uint64, fee: uint64, gas: uint64,
    chainID: seq<byte>, accountNumber: uint64, sequence: uint64, memo: seq<byte>)

  /** An opened account: the public identity and the signing function of its key. */
  datatype Account = Account(operatorAddr: seq<byte>, pubKey: seq<byte>, sign: seq<byte> -> seq<byte>)

  /** The bytes of an ASCII string. */
  function Ascii(s: string): seq<byte> {
    seq(|s|, i requires 0 <= i < |s| => s[i] as int % 0x100)
  }

  const MSG_SEND: string := "/cosmos.bank.v1beta1.MsgSend"
  const PUB_KEY: string := "/cosmos.crypto.secp256k1.PubKey"
  const SIGN_MODE_DIRECT := 1

  /// The messages.

  function CoinMsg(denom: seq<byte>, amount: uint64): seq<Field> {
    [Bytes(1, denom), Bytes(2, Decimal.Format(amount))]
  }

  function AnyMsg(url: seq<byte>, value: seq<byte>): seq<Field> {
    [Bytes(1, url), Bytes(2, value)]
  }

  function SendMsg(s: Send): seq<Field> {
    [Bytes(1, s.from), Bytes(2, s.to), Bytes(3, Encode(CoinMsg(s.denom, s.amount)))]
  }

  function BodyMsg(s: Send): seq<Field> {
    [Bytes(1, Encode(AnyMsg(Ascii(MSG_SEND), Encode(SendMsg(s)))))] + if s.memo != [] then [Bytes(2, s.memo)] else []
  }

  function KeyMsg(s: Send): seq<Field> {
    [Bytes(1, s.pubKey)]
  }

  function SingleMsg(): seq<Field> {
    [Number(1, SIGN_MODE_DIRECT)]
  }

  function ModeMsg(): seq<Field> {
    [Bytes(1, Encode(SingleMsg()))]
  }

  function SignerMsg(s: Send): seq<Field> {
    [Bytes(1, Encode(AnyMsg(Ascii(PUB_KEY), Encode(KeyMsg(s))))), Bytes(2, Encode(ModeMsg())), Number(3, s.sequence)]
  }

  function FeeMsg(s: Send): seq<Field> {
    [Bytes(1, Encode(CoinMsg(s.denom, s.fee))), Number(2, s.gas)]
  }

  function AuthMsg(s: Send): seq<Field> {
    [Bytes(1, Encode(SignerMsg(s))), Bytes(2, Encode(FeeMsg(s)))]
  }

  function DocFields(body: seq<byte>, auth: seq<byte>, chainID: seq<byte>, accountNumber: uint64): seq<Field> {
    [Bytes(1, body), Bytes(2, auth), Bytes(3, chainID), Number(4, accountNumber)]
  }

  function RawFields(body: seq<byte>, auth: seq<byte>, sig: seq<byte>): seq<Field> {
    [Bytes(1, body), Bytes(2, auth), Bytes(3, sig)]
  }

  function DocMsg(s: Send): seq<Field> {
    DocFields(Encode(BodyMsg(s)), Encode(AuthMsg(s)), s.chainID, s.accountNumber)
  }

  function RawMsg(s: Send, sig: seq<byte>): seq<Field> {
    RawFields(Encode(BodyMsg(s)), Encode(AuthMsg(s)), sig)
  }

  /** The bytes that are signed. */
  function SignDoc(s: Send): seq<byte> {
    Encode(DocMsg(s))
  }

  /** The transaction that is broadcast. */
  function TxRaw(s: Send, sign: seq<byte> -> seq<byte>): seq<byte> {
    Encode(RawMsg(s, sign(SignDoc(s))))
  }

  /// The builder.

  method Coin(denom: seq<byte>, amount: uint64) returns (b: seq<byte>)
    ensures b == Encode(CoinMsg(denom, amount))
  {
    var w := new Pb();
    w.BytesField(1, denom);
    w.BytesField(2, Decimal.Format(amount));
    assert w.fields == CoinMsg(denom, amount);
    return w.b;
  }

  method WrapAny(url: seq<byte>, value: seq<byte>) returns (b: seq<byte>)
    ensures b == Encode(AnyMsg(url, value))
  {
    var w := new Pb();
    w.BytesField(1, url);
    w.BytesField(2, value);
    assert w.fields == AnyMsg(url, value);
    return w.b;
  }

  method BuildBody(s: Send) returns (b: seq<byte>)
    ensures b == Encode(BodyMsg(s))
  {
    var msg := new Pb();
    msg.BytesField(1, s.from);
    msg.BytesField(2, s.to);
    var coin := Coin(s.denom, s.amount);
    msg.BytesField(3, coin);
    assert msg.fields == SendMsg(s);
    var msgAny := WrapAny(Ascii(MSG_SEND), msg.b);
    var body := new Pb();
    body.BytesField(1, msgAny);
    if s.memo != [] {
      body.BytesField(2, s.memo);
    }
    assert body.fields == BodyMsg(s);
    return body.b;
  }

  method BuildModeInfo() returns (b: seq<byte>)
    ensures b == Encode(ModeMsg())
  {
    var single := new Pb();
    single.Uint64Field(1, SIGN_MODE_DIRECT);
    assert single.fields == SingleMsg();
    var modeInfo := new Pb();
    modeInfo.BytesField(1, single.b);
    assert modeInfo.fields == ModeMsg();
    return modeInfo.b;
  }

  method BuildSignerInfo(s: Send) returns (b: seq<byte>)
    ensures b == Encode(SignerMsg(s))
  {
    var pk := new Pb();
    pk.BytesField(1, s.pubKey);
    assert pk.fields == KeyMsg(s);
    var pkAny := WrapAny(Ascii(PUB_KEY), pk.b);
    var modeInfo := BuildModeInfo();
    var si := new Pb();
    si.BytesField(1, pkAny);
    si.BytesField(2, modeInfo);
    si.Uint64Field(3, s.sequence);
    assert si.fields == SignerMsg(s);
    return si.b;
  }

  method BuildFee(s: Send) returns (b: seq<byte>)
    ensures b == Encode(FeeMsg(s))
  {
    var feeMsg := new Pb();
    var coin := Coin(s.denom, s.fee);
    feeMsg.BytesField(1, coin);
    feeMsg.Uint64Field(2, s.gas);
    assert feeMsg.fields == FeeMsg(s);
    return feeMsg.b;
  }

  method BuildAuthInfo(s: Send) returns (b: seq<byte>)
    ensures b == Encode(AuthMsg(s))
  {
    var si := BuildSignerInfo(s);
    var fee := BuildFee(s);
    var ai := new Pb();
    ai.BytesField(1, si);
    ai.BytesField(2, fee);
    assert ai.fields == AuthMsg(s);
    return ai.b;
  }

  method BuildSignDoc(bodyBytes: seq<byte>, authInfoBytes: seq<byte>, chainID: seq<byte>, accountNumber: uint64)
    returns (b: seq<byte>)
    ensures b == Encode(DocFields(bodyBytes, authInfoBytes, chainID, accountNumber))
  {
    var sd := new Pb();
    sd.BytesField(1, bodyBytes);
    sd.BytesField(2, authInfoBytes);
    sd.BytesField(3, chainID);
    sd.Uint64Field(4, accountNumber);
    assert sd.fields == DocFields(bodyBytes, authInfoBytes, chainID, accountNumber);
    return sd.b;
  }

  method BuildTxRaw(bodyBytes: seq<byte>, authInfoBytes: seq<byte>, sig: seq<byte>) returns (b: seq<byte>)
    ensures b == Encode(RawFields(bodyBytes, authInfoBytes, sig))
  {
    var raw := new Pb();
    raw.BytesField(1, bodyBytes);
    raw.BytesField(2, authInfoBytes);
    raw.BytesField(3, sig);
    assert raw.fields == RawFields(bodyBytes, authInfoBytes, sig);
    return raw.b;
  }

  method BuildSignedSend(acct: Account, chainID: seq<byte>, to: seq<byte>, denom: seq<byte>,
                         amount: uint64, fee: uint64, gas: uint64,
                         accountNumber: uint64, sequence: uint64, memo: seq<byte>)
    returns (tx: seq<byte>)
    ensures tx == TxRaw(Send(acct.operatorAddr, acct.pubKey, to, denom, amount, fee, gas,
                             chainID, accountNumber, sequence, memo), acct.sign)
  {
    var s := Send(acct.operatorAddr, acct.pubKey, to, denom, amount, fee, gas, chainID, accountNumber, sequence, memo);
    var bodyBytes := BuildBody(s);
    var authInfoBytes := BuildAuthInfo(s);
    var doc := BuildSignDoc(bodyBytes, authInfoBytes, chainID, accountNumber);
    var sig := acct.sign(doc);
    tx := BuildTxRaw(bodyBytes, authInfoBytes, sig);
  }
}
