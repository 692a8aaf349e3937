/** The messages of the WebRTC data channel: JSON objects with optional fields, the
    frames that carry them, and the decision chain that classifies them. */
module RtcMessages {
  import opened Wrappers

  datatype FileDto = FileDto(id: string, fileName: string, size: int, sha256: string)

  /** A field of a decoded object, as far as the protocol can tell values apart. */
  datatype Field =
    | Missing
    | Null
    | Str(s: string)
    | Bool(b: bool)
    | Files(files: seq<FileDto>)
    | Tokens(tokens: map<string, string>)
    | Other

  /** The status texts of the protocol, by name. */
  datatype StatusText = OK | PIN_REQUIRED | TOO_MANY_ATTEMPTS | INVALID_SIGNATURE | PAIR | PAIR_DECLINED | DECLINED
                      | UnknownStatus(text: string)

  datatype StatusField = NoStatus | StatusIs(text: StatusText) | StatusNotText

  /** The error texts the receiver reports, by name. */
  datatype ErrorText = SizeMismatch | SaveFailed | ChecksumMismatch | InvalidNonce | UnknownError(text: string)

  datatype ErrorField = NoError | ErrorIs(text: ErrorText) | ErrorNotText

  datatype Json = Json(nonce: Field, id: Field, token: Field, status: StatusField, files: Field,
                       publicKey: Field, pin: Field, success: Field, error: ErrorField)

  const Blank := Json(Missing, Missing, Missing, NoStatus, Missing, Missing, Missing, Missing, NoError)

  // ---------- json.Unmarshal into typed fields ----------

  /** Decoding into a string field: absent and null leave it empty, another type is an error. */
  function AsString(f: Field): Option<string> {
    match f
    case Missing => Some("")
    case Null => Some("")
    case Str(s) => Some(s)
    case _ => None
  }

  function AsBool(f: Field): Option<bool> {
    match f
    case Missing => Some(false)
    case Null => Some(false)
    case Bool(b) => Some(b)
    case _ => None
  }

  function AsFiles(f: Field): Option<seq<FileDto>> {
    match f
    case Missing => Some([])
    case Null => Some([])
    case Files(files) => Some(files)
    case _ => None
  }

  function AsTokens(f: Field): Option<map<string, string>> {
    match f
    case Missing => Some(map[])
    case Null => Some(map[])
    case Tokens(tokens) => Some(tokens)
    case _ => None
  }

  // ---------- ParseRTCMessage ----------

  datatype Msg =
    | Nonce(nonce: string)
    | FileHeader(id: string, token: string)
    | FileList(files: seq<FileDto>)
    | PairResponse(status: StatusText, publicKey: string)
    | Status(status: StatusText)
    | TokenRequest(token: string)
    | Pin(pin: string)
    | FileResponse(id: string, success: bool, error: Option<ErrorText>)

  function ParseRTCMessage(j: Json): Option<Msg> {
    var id, token := AsString(j.id), AsString(j.token);
    if AsString(j.nonce).Some? && AsString(j.nonce).value != "" then Some(Nonce(AsString(j.nonce).value))
    else if id.Some? && token.Some? && id.value != "" && token.value != "" then Some(FileHeader(id.value, token.value))
    else if j.status.StatusIs? then Some(ParseStatus(j, j.status.text))
    else if token.Some? && token.value != "" then Some(TokenRequest(token.value))
    else if j.pin.Str? then Some(Pin(j.pin.s))
    else if id.Some? && id.value != "" && AsBool(j.success).Some? && !j.error.ErrorNotText? then
      Some(FileResponse(id.value, AsBool(j.success).value, if j.error.ErrorIs? then Some(j.error.text) else None))
    else None
  }

  function ParseStatus(j: Json, status: StatusText): Msg {
    if !j.files.Missing? && AsFiles(j.files).Some? then FileList(AsFiles(j.files).value)
    else if !j.publicKey.Missing? && status != PAIR && j.files.Missing? && AsString(j.publicKey).Some? then
      PairResponse(status, AsString(j.publicKey).value)
    else Status(status)
  }

  // ---------- What the two peers marshal (omitempty fields left out when empty) ----------

  function NonEmpty(s: string): Field { if s == "" then Missing else Str(s) }

  function NonceMessage(nonce: string): Json { Blank.(nonce := Str(nonce)) }

  function TokenRequestMessage(token: string): Json { Blank.(token := Str(token)) }

  function TokenResponseMessage(status: StatusText, token: string): Json {
    Blank.(status := StatusIs(status), token := NonEmpty(token))
  }

  function PinMessage(pin: string): Json { Blank.(pin := Str(pin)) }

  function PinReceivingMessage(status: StatusText): Json { Blank.(status := StatusIs(status)) }

  function PinSendingMessage(status: StatusText, files: seq<FileDto>): Json {
    Blank.(status := StatusIs(status), files := if files == [] then Missing else Files(files))
  }

  function FileListResponseMessage(status: StatusText, tokens: map<string, string>, publicKey: string): Json {
    Blank.(status := StatusIs(status), files := if tokens == map[] then Missing else Tokens(tokens),
           publicKey := NonEmpty(publicKey))
  }

  function PairResponseMessage(status: StatusText, publicKey: string): Json {
    Blank.(status := StatusIs(status), publicKey := NonEmpty(publicKey))
  }

  function FileHeaderMessage(id: string, token: string): Json {
    Blank.(id := Str(id), token := Str(token))
  }

  /** The error field is a pointer, present exactly for failures. */
  function FileResponseMessage(id: string, success: bool, error: ErrorText): Json {
    Blank.(id := Str(id), success := Bool(success), error := if success then NoError else ErrorIs(error))
  }

  function ErrorMessage(error: ErrorText): Json { Blank.(error := ErrorIs(error)) }

  /** Each message a peer marshals is classified as what it is meant to be.  The token
      map of an acceptance does not decode as a file list, so the acceptance stays a
      status; a PAIR request keeps its status although it carries a key. */
  lemma PeerMessagesClassified()
    ensures forall n {:trigger NonceMessage(n)} :: n != "" ==> ParseRTCMessage(NonceMessage(n)) == Some(Nonce(n))
    ensures forall t {:trigger TokenRequestMessage(t)} ::
              t != "" ==> ParseRTCMessage(TokenRequestMessage(t)) == Some(TokenRequest(t))
    ensures forall s, t {:trigger TokenResponseMessage(s, t)} ::
              ParseRTCMessage(TokenResponseMessage(s, t)) == Some(Status(s))
    ensures forall p {:trigger PinMessage(p)} :: ParseRTCMessage(PinMessage(p)) == Some(Pin(p))
    ensures forall s {:trigger PinReceivingMessage(s)} :: ParseRTCMessage(PinReceivingMessage(s)) == Some(Status(s))
    ensures forall s, fs {:trigger PinSendingMessage(s, fs)} ::
              ParseRTCMessage(PinSendingMessage(s, fs)) == Some(if fs == [] then Status(s) else FileList(fs))
    ensures forall s, m, k {:trigger FileListResponseMessage(s, m, k)} ::
              (k == "" || s == PAIR || m != map[]) ==>
                ParseRTCMessage(FileListResponseMessage(s, m, k)) == Some(Status(s))
    ensures forall s, k {:trigger PairResponseMessage(s, k)} :: s != PAIR ==>
              ParseRTCMessage(PairResponseMessage(s, k)) == Some(if k == "" then Status(s) else PairResponse(s, k))
    ensures forall i, t {:trigger FileHeaderMessage(i, t)} :: i != "" && t != "" ==>
              ParseRTCMessage(FileHeaderMessage(i, t)) == Some(FileHeader(i, t))
    ensures forall i, ok, e {:trigger FileResponseMessage(i, ok, e)} :: i != "" ==>
              ParseRTCMessage(FileResponseMessage(i, ok, e)) == Some(FileResponse(i, ok, if ok then None else Some(e)))
  {
  }

  // ---------- Frames ----------

  datatype Frame = TextFrame(data: Bytes) | BinaryFrame(data: Bytes)

  /** JSON encoding and decoding of whole messages. */
  datatype Codec = Codec(encode: Json -> Bytes, decode: Bytes -> Option<Json>)

  const OpenBrace: bv8 := 123
  const DelimiterText: Bytes := [48]   // the text "0"
  const Delimiter := TextFrame(DelimiterText)

  /** Encoded objects start with '{' and decode to themselves. */
  ghost predicate Faithful(c: Codec) {
    forall j {:trigger c.encode(j)} ::
      |c.encode(j)| > 0 && c.encode(j)[0] == OpenBrace && c.decode(c.encode(j)) == Some(j)
  }

  /** What a handler takes a complete message for, if it is one at all. */
  function Classify(c: Codec, data: Bytes): Option<(Msg, Json)> {
    match c.decode(data)
    case None => None
    case Some(j) => match ParseRTCMessage(j) case None => None case Some(msg) => Some((msg, j))
  }

  function SendJSON(c: Codec, j: Json): Frame { TextFrame(c.encode(j)) }

  // ---------- Shared by both peers ----------

  const MaxPINAttempts := 3

  /** Token signatures and nonce encoding.  A key is identified with its PEM text. */
  datatype Crypto = Crypto(
    sign: (string, Bytes) -> string,
    verify: (string, string, Bytes) -> bool,
    keyParses: string -> bool,
    encodeNonce: Bytes -> string,
    decodeNonce: string -> Option<Bytes>)

  /** Signatures verify under their own key, and nonces survive their text form. */
  ghost predicate IdealCrypto(x: Crypto) {
    && (forall key, nonce {:trigger x.sign(key, nonce)} ::
          x.sign(key, nonce) != "" && x.verify(key, x.sign(key, nonce), nonce))
    && (forall nonce {:trigger x.encodeNonce(nonce)} :: |nonce| == 32 ==>
          x.encodeNonce(nonce) != "" && x.decodeNonce(x.encodeNonce(nonce)) == Some(nonce))
  }
}
