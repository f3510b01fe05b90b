/**
 The key-holding extension one request at a time: the sequential specification, the
 Go and TypeScript handlers that are proved to follow it, and the conditions under
 which the two implementations cannot be told apart.

 Decryption is the answer of the TEE node, given with the request. Hashing and ECDSA
 are one function from key and message to a signature.
 */
module KeyService {
  import opened ByteStrings
  import opened Wrappers
  import opened HexStrings
  import opened Dispatch
  import opened Scalars
  import AbiCodec

  /** The names of the operation type and of the two commands, as UTF-8 bytes. */
  datatype OpNames = OpNames(key: Bytes, update: Bytes, sign: Bytes) {
    predicate Distinct() {
      IsName(key) && IsName(update) && IsName(sign) && update != sign && update != [] && sign != []
    }
  }

  /** KEY, UPDATE and SIGN. */
  const OP_NAMES := OpNames([75, 69, 89], [85, 80, 68, 65, 84, 69], [83, 73, 71, 78])

  lemma OpNamesAreDistinct()
    ensures OP_NAMES.Distinct()
  {
    assert OP_NAMES.update[0] != OP_NAMES.sign[0];
  }

  /** What both servers are built from: the signing library and the operation names. */
  datatype Setup = Setup(signer: (nat, Bytes) -> ValidSignature, ops: OpNames)

  /** What the sequential object is built on: how a key is parsed, and the answer to a SIGN request. */
  datatype Library = Library(parse: Bytes -> ScalarResult, sign: (nat, Bytes) -> Bytes)

  /** The ABI encoding of the message and its 65-byte signature. */
  function SignedData(setup: Setup, key: nat, message: Bytes): Bytes {
    AbiCodec.EncodeTwo(message, SignatureBytes(setup.signer(key, message)))
  }

  /** A Go slice this short has an encoding that is a Go slice too. */
  const MESSAGE_LIMIT := 0x4000_0000_0000_0000

  /** The client decodes data to the message and to 65 bytes that hold r, s and v of the signature. */
  predicate Delivers(data: Bytes, message: Bytes, sig: ValidSignature) {
    |data| < TWO_63 &&
    var decoded := AbiCodec.DecodeTwo(data);
    decoded.Parts? && decoded.a == message && Carries(decoded.b, sig)
  }

  /** From delivered data the end-to-end test recovers the message, r, s and the recovery id. */
  lemma DeliveredIsRecovered(data: Bytes, message: Bytes, sig: ValidSignature)
    requires Delivers(data, message, sig)
    ensures AbiCodec.DecodeTwo(data).a == message
    ensures var v := NormalizeV(AbiCodec.DecodeTwo(data).b);
            |v| == 65 && Value(v[..32]) == sig.r && Value(v[32..64]) == sig.s && v[64] == sig.recovery
  {
    NormalizedCarries(AbiCodec.DecodeTwo(data).b, sig);
  }

  lemma SignedDataDelivers(setup: Setup, key: nat, message: Bytes)
    requires |message| < MESSAGE_LIMIT
    ensures Delivers(SignedData(setup, key, message), message, setup.signer(key, message))
  {
    var sig := setup.signer(key, message);
    SignatureCarries(sig);
    AbiCodec.CeilIsRoundUp(|message|);
    AbiCodec.CeilIsRoundUp(65);
    AbiCodec.RoundTrip(message, SignatureBytes(sig));
  }

  function LibraryOf(setup: Setup): Library {
    Library(b => GoParseKey(b), (key, message) => SignedData(setup, key, message))
  }

  // ----- the sequential specification

  /** plain is what the node's decrypt call answers, None if it fails. */
  datatype Request = Update(message: Bytes, plain: Option<Bytes>) | Sign(message: Bytes) | ReadState

  datatype Failure = EmptyMessage | DecryptionFailed | InvalidKey(error: KeyError) | NoKey

  datatype Response = Failed(why: Failure) | Updated | Signed(data: Bytes) | HasKey(held: bool)

  /** The key an UPDATE installs, or why it fails. */
  function NewKey(lib: Library, message: Bytes, plain: Option<Bytes>): (Option<nat>, Response) {
    if message == [] then (None, Failed(EmptyMessage))
    else if plain == None then (None, Failed(DecryptionFailed))
    else
      match lib.parse(plain.value)
      case Refused(e) => (None, Failed(InvalidKey(e)))
      case Scalar(n) => (Some(n), Updated)
  }

  function SignAnswer(lib: Library, key: Option<nat>, message: Bytes): Response {
    if key == None then Failed(NoKey)
    else if message == [] then Failed(EmptyMessage)
    else Signed(lib.sign(key.value, message))
  }

  /** One request of the sequential object: the new key and the response. */
  function Handle(lib: Library, key: Option<nat>, req: Request): (Option<nat>, Response) {
    match req
    case Update(message, plain) =>
      var (parsed, response) := NewKey(lib, message, plain);
      (if parsed.Some? then parsed else key, response)
    case Sign(message) => (key, SignAnswer(lib, key, message))
    case ReadState => (key, HasKey(key.Some?))
  }

  // ----- the wire

  /** The fields of an instruction as they arrive: hex texts. */
  datatype Instruction = Instruction(opType: string, opCommand: string, message: string)

  /** data is absent when there is none; why is absent on success. */
  datatype ActionResult = ActionResult(opType: string, opCommand: string, status: nat, data: Option<Bytes>, why: Option<Failure>)

  /** HTTP status and, with status 200, the action result. */
  datatype Http = Http(code: nat, result: Option<ActionResult>)

  function Accepted(i: Instruction, r: Response): Http
    requires !r.HasKey?
  {
    Http(200, Some(match r
                   case Failed(why) => ActionResult(i.opType, i.opCommand, 0, None, Some(why))
                   case Updated => ActionResult(i.opType, i.opCommand, 1, None, None)
                   case Signed(data) => ActionResult(i.opType, i.opCommand, 1, Some(data), None)))
  }

  datatype Route = ToUpdate | ToSign

  /** A 32-byte hash in JSON: hex with its prefix, and exactly 64 digits. */
  predicate IsHash(h: string) {
    IsGoHex(h) && |h| == 66
  }

  /** The texts of exactly 32 bytes. */
  lemma HashExactlyWhen(h: string)
    ensures IsHash(h) <==> IsGoHex(h) && |GoBytes(h)| == 32
  {
    if IsGoHex(h) {
      FromHexLength(h[2..]);
    }
  }

  /** The fixed data Go decodes: two hashes, and a message that is hex with its prefix, or absent. */
  predicate GoDecodes(i: Instruction) {
    IsHash(i.opType) && IsHash(i.opCommand) && (i.message == "" || IsGoHex(i.message))
  }

  /** Go compares the decoded 32-byte values. */
  function GoRoute(ops: OpNames, i: Instruction): Option<Route> {
    if GoBytes(i.opType) != Bytes32(ops.key) then None
    else if GoBytes(i.opCommand) == Bytes32(ops.update) then Some(ToUpdate)
    else if GoBytes(i.opCommand) == Bytes32(ops.sign) then Some(ToSign)
    else None
  }

  // ----- Go

  /** The mutable state of the Go extension, and its handlers without interleaving. */
  class Extension {
    const setup: Setup
    var privateKey: Option<nat>

    constructor (setup: Setup)
      ensures this.setup == setup && privateKey == None
    {
      this.setup, privateKey := setup, None;
    }

    method processKeyUpdate(message: Bytes, plain: Option<Bytes>) returns (r: Response)
      modifies this
      ensures (privateKey, r) == Handle(LibraryOf(setup), old(privateKey), Update(message, plain))
    {
      if |message| == 0 {
        return Failed(EmptyMessage);
      }
      if plain.None? {
        return Failed(DecryptionFailed);
      }
      var parsed := GoParseKey(plain.value);
      if parsed.Refused? {
        return Failed(InvalidKey(parsed.error));
      }
      privateKey := Some(parsed.n);
      return Updated;
    }

    method processKeySign(message: Bytes) returns (r: Response)
      ensures (privateKey, r) == Handle(LibraryOf(setup), privateKey, Sign(message))
      ensures r.Signed? <==> privateKey.Some? && message != []
      ensures r.Signed? && |message| < MESSAGE_LIMIT ==> Delivers(r.data, message, setup.signer(privateKey.value, message))
    {
      var key := privateKey;
      if key == None {
        return Failed(NoKey);
      }
      if |message| == 0 {
        return Failed(EmptyMessage);
      }
      var sig := goSignatureBytes(setup.signer(key.value, message));
      var encoded := AbiCodec.abiEncodeTwo(message, sig);
      AbiCodec.EncodeTwoMeetsTheStandard(message, sig);
      if |message| < MESSAGE_LIMIT {
        SignedDataDelivers(setup, key.value, message);
      }
      return Signed(encoded);
    }

    method stateHandler() returns (r: Response)
      ensures (privateKey, r) == Handle(LibraryOf(setup), privateKey, ReadState)
      ensures r == HasKey(privateKey != None)
    {
      return HasKey(privateKey != None);
    }

    /** processAction and processKey; None is a body that is not an action, or whose message holds no JSON. */
    method processAction(action: Option<Instruction>, plain: Option<Bytes>) returns (answer: Http)
      modifies this
      ensures (privateKey, answer) == GoAnswer(setup, old(privateKey), action, plain)
    {
      if action == None || !GoDecodes(action.value) {
        return Http(400, None);
      }
      var i := action.value;
      if GoBytes(i.opType) != Bytes32(setup.ops.key) {
        return Http(501, None);
      }
      var message := GoBytes(i.message);
      if GoBytes(i.opCommand) == Bytes32(setup.ops.update) {
        var r := processKeyUpdate(message, plain);
        return Accepted(i, r);
      }
      if GoBytes(i.opCommand) == Bytes32(setup.ops.sign) {
        var r := processKeySign(message);
        return Accepted(i, r);
      }
      return Http(501, None);
    }
  }

  function GoAnswer(setup: Setup, key: Option<nat>, action: Option<Instruction>, plain: Option<Bytes>): (Option<nat>, Http)
  {
    if action == None || !GoDecodes(action.value) then (key, Http(400, None))
    else
      var i := action.value;
      match GoRoute(setup.ops, i)
      case None => (key, Http(501, None))
      case Some(ToUpdate) =>
        var (k, r) := Handle(LibraryOf(setup), key, Update(GoBytes(i.message), plain)); (k, Accepted(i, r))
      case Some(ToSign) =>
        var (k, r) := Handle(LibraryOf(setup), key, Sign(GoBytes(i.message))); (k, Accepted(i, r))
  }

  // ----- TypeScript

  /** What the TypeScript handlers are built on; keys are 32-byte strings there. */
  datatype TsLibrary = TsLibrary(parse: Bytes -> ParsedKey, sign: (Bytes, string) -> Bytes)

  function TsLibraryOf(setup: Setup): TsLibrary {
    TsLibrary(b => ParseKey(b), (key, text) => SignedData(setup, Value(key), HexToBytes(text)))
  }

  /** handleKeyUpdate: the text is tested for emptiness, not the bytes it stands for. */
  function TsUpdate(lib: TsLibrary, key: Option<Bytes>, message: string, plain: Option<Bytes>): (Option<Bytes>, Response) {
    if message == [] then (key, Failed(EmptyMessage))
    else if plain == None then (key, Failed(DecryptionFailed))
    else
      match lib.parse(plain.value)
      case Rejected(e) => (key, Failed(InvalidKey(e)))
      case Key(bytes) => (Some(bytes), Updated)
  }

  function TsSign(lib: TsLibrary, key: Option<Bytes>, message: string): Response {
    if key == None then Failed(NoKey)
    else if message == [] then Failed(EmptyMessage)
    else Signed(lib.sign(key.value, message))
  }

  /** The module variables of handlers.ts. The decrypt call has settled when the update handler goes on. */
  class Handlers {
    const setup: Setup
    var privateKey: Option<Bytes>

    constructor (setup: Setup)
      ensures this.setup == setup && privateKey == None
    {
      this.setup, privateKey := setup, None;
    }

    method handleKeyUpdate(msg: string, plain: Option<Bytes>) returns (r: Response)
      modifies this
      ensures (privateKey, r) == TsUpdate(TsLibraryOf(setup), old(privateKey), msg, plain)
    {
      if msg == [] {
        return Failed(EmptyMessage);
      }
      if plain == None {
        return Failed(DecryptionFailed);
      }
      var validated := parsePrivateKey(plain.value);
      if validated.Rejected? {
        return Failed(InvalidKey(validated.error));
      }
      privateKey := Some(validated.bytes);
      return Updated;
    }

    /** viem's encoding of (bytes,bytes) is the standard's. */
    method handleKeySign(msg: string) returns (r: Response)
      ensures r == TsSign(TsLibraryOf(setup), privateKey, msg)
      ensures r.Signed? <==> privateKey.Some? && msg != ""
      ensures r.Signed? && |HexToBytes(msg)| < MESSAGE_LIMIT ==>
                Delivers(r.data, HexToBytes(msg), setup.signer(Value(privateKey.value), HexToBytes(msg)))
    {
      if privateKey == None {
        return Failed(NoKey);
      }
      if msg == [] {
        return Failed(EmptyMessage);
      }
      var msgBytes := HexToBytes(msg);
      var sig := tsSignatureBytes(setup.signer(Value(privateKey.value), msgBytes));
      AbiCodec.EncodeTwoMeetsTheStandard(msgBytes, sig);
      if |msgBytes| < MESSAGE_LIMIT {
        SignedDataDelivers(setup, Value(privateKey.value), msgBytes);
      }
      return Signed(AbiCodec.Enc(AbiCodec.Tuple([AbiCodec.BytesOf(msgBytes), AbiCodec.BytesOf(sig)])));
    }

    method reportState() returns (r: Response)
      ensures r == HasKey(privateKey.Some?)
    {
      return HasKey(privateKey != None);
    }
  }

  /** register: the two handlers in the order they are pushed. */
  function TsEntries(ops: OpNames): seq<Entry<Route>> {
    [Entry(NameToHex(ops.key), NameToHex(ops.update), ToUpdate), Entry(NameToHex(ops.key), NameToHex(ops.sign), ToSign)]
  }

  method register(framework: Framework<Route>, ops: OpNames)
    modifies framework
    ensures framework.handlers == old(framework.handlers) + TsEntries(ops)
  {
    framework.handle(ops.key, ops.update, ToUpdate);
    framework.handle(ops.key, ops.sign, ToSign);
  }

  function TsRoute(ops: OpNames, i: Instruction): Option<Route> {
    FirstMatch(TsEntries(ops), i.opType, i.opCommand)
  }

  function TsAnswer(setup: Setup, key: Option<Bytes>, action: Option<Instruction>, plain: Option<Bytes>): (Option<Bytes>, Http)
  {
    if action == None then (key, Http(400, None))
    else
      var i := action.value;
      match TsRoute(setup.ops, i)
      case None => (key, Http(501, None))
      case Some(ToUpdate) => var (k, r) := TsUpdate(TsLibraryOf(setup), key, i.message, plain); (k, Accepted(i, r))
      case Some(ToSign) => (key, Accepted(i, TsSign(TsLibraryOf(setup), key, i.message)))
  }

  /** One call of the server's processAction with nothing else in the queue. */
  method processAction(framework: Framework<Route>, handlers: Handlers, action: Option<Instruction>, plain: Option<Bytes>) returns (answer: Http)
    requires framework.handlers == TsEntries(handlers.setup.ops)
    modifies handlers
    ensures (handlers.privateKey, answer) == TsAnswer(handlers.setup, old(handlers.privateKey), action, plain)
  {
    if action == None {
      return Http(400, None);
    }
    var i := action.value;
    var handler := framework.lookup(i.opType, i.opCommand);
    if handler == None {
      return Http(501, None);
    }
    var r;
    match handler.value {
      case ToUpdate => r := handlers.handleKeyUpdate(i.message, plain);
      case ToSign => r := handlers.handleKeySign(i.message);
    }
    return Accepted(i, r);
  }

  // ----- when the two implementations agree

  /** The two servers hold the same key. */
  predicate SameHeld(go: Option<nat>, ts: Option<Bytes>) {
    match (go, ts)
    case (None, None) => true
    case (Some(n), Some(b)) => Value(b) == n
    case _ => false
  }

  /** Same HTTP status, and the same result status and data if there is a result. */
  predicate SameOutcome(go: Http, ts: Http) {
    && go.code == ts.code
    && (go.result.Some? <==> ts.result.Some?)
    && (go.result.Some? ==> go.result.value.status == ts.result.value.status && go.result.value.data == ts.result.value.data)
  }

  predicate Agree(go: (Option<nat>, Http), ts: (Option<Bytes>, Http)) {
    SameHeld(go.0, ts.0) && SameOutcome(go.1, ts.1)
  }

  /** The form TypeScript writes a 32-byte value in: lower-case digits. */
  predicate IsCanonicalHash(h: string) {
    |h| == 66 && h == BytesToHex(HexToBytes(h))
  }

  predicate CanonicalOps(i: Instruction) {
    IsCanonicalHash(i.opType) && IsCanonicalHash(i.opCommand)
  }

  /** In plain terms: 0x and 64 lower-case digits. */
  lemma CanonicalExactlyWhen(h: string)
    ensures IsCanonicalHash(h) <==> |h| == 66 && "0x" <= h && forall i :: 2 <= i < 66 ==> IsLowerHex(h[i])
  {
    WrittenExactlyWhen(h);
  }

  lemma CanonicalIsHash(h: string)
    requires IsCanonicalHash(h)
    ensures IsHash(h) && GoBytes(h) == HexToBytes(h)
  {
    ToHexShape(HexToBytes(h));
  }

  lemma HexEquals(text: string, name: Bytes)
    ensures text == NameToHex(name) <==> IsCanonicalHash(text) && GoBytes(text) == Bytes32(name)
  {
    BytesRoundTrip(Bytes32(name));
    ToHexShape(Bytes32(name));
    if IsCanonicalHash(text) {
      CanonicalIsHash(text);
    }
  }

  lemma TsRouteCases(ops: OpNames, i: Instruction)
    requires ops.Distinct()
    ensures TsRoute(ops, i) ==
            if i.opType != NameToHex(ops.key) then None
            else if i.opCommand == NameToHex(ops.update) then Some(ToUpdate)
            else if i.opCommand == NameToHex(ops.sign) then Some(ToSign)
            else None
  {
    NamesAreDistinct(ops.update, []);
    NamesAreDistinct(ops.sign, []);
    TwoEntries(NameToHex(ops.key), NameToHex(ops.update), ToUpdate, NameToHex(ops.key), NameToHex(ops.sign), ToSign, i.opType, i.opCommand);
  }

  /** TypeScript compares texts: it routes exactly the operations Go routes that are written in its own lower-case form. */
  lemma TsRoutesCanonicalOps(ops: OpNames, i: Instruction)
    requires ops.Distinct()
    ensures TsRoute(ops, i) == if CanonicalOps(i) then GoRoute(ops, i) else None
  {
    TsRouteCases(ops, i);
    HexEquals(i.opType, ops.key);
    HexEquals(i.opCommand, ops.update);
    HexEquals(i.opCommand, ops.sign);
  }

  /** The keys the two parsers take for the same number, or both refuse. */
  predicate AgreeablePlain(plain: Option<Bytes>) {
    plain.Some? ==> |plain.value| > 32 || Value(plain.value) <= ORDER
  }

  /** A message without bytes that is not the empty text: Go refuses it, TypeScript only if its next step does. */
  predicate TsAcceptsEmpty(route: Route, text: string, ts: Option<Bytes>, plain: Option<Bytes>) {
    text != "" &&
    match route
    case ToUpdate => plain.Some? && ParseKey(plain.value).Key?
    case ToSign => ts.Some?
  }

  /**
   The exact condition for one request: Go decodes it, and either nothing is routed, or
   the operation is in canonical text and either the message stands for no bytes and
   TypeScript refuses it too, or it is not empty and an update brings a key at most the
   order.
   */
  predicate Agreeable(ops: OpNames, ts: Option<Bytes>, i: Instruction, plain: Option<Bytes>) {
    GoDecodes(i) &&
    (GoRoute(ops, i) == None ||
     (CanonicalOps(i) &&
      if GoBytes(i.message) == [] then !TsAcceptsEmpty(GoRoute(ops, i).value, i.message, ts, plain)
      else GoRoute(ops, i) == Some(ToUpdate) ==> AgreeablePlain(plain)))
  }

  /** Texts both sides read as the same bytes; an absent message arrives as the empty text. */
  predicate SharedText(text: string) {
    text == "" || WellFormed(text)
  }

  /** The outcome of a request both servers route shows the response, but not why it failed. */
  predicate SameResponse(go: Response, ts: Response) {
    go == ts || (go.Failed? && ts.Failed?)
  }

  lemma UpdatesAgree(setup: Setup, go: Option<nat>, ts: Option<Bytes>, text: string, plain: Option<Bytes>)
    requires SameHeld(go, ts) && SharedText(text)
    ensures var message := GoBytes(text);
            var (goKey, goResponse) := Handle(LibraryOf(setup), go, Update(message, plain));
            var (tsKey, tsResponse) := TsUpdate(TsLibraryOf(setup), ts, text, plain);
            && (SameHeld(goKey, tsKey) && (goResponse == Updated <==> tsResponse == Updated)
                <==> if message == [] then !TsAcceptsEmpty(ToUpdate, text, ts, plain) else AgreeablePlain(plain))
            && (goResponse.Failed? || goResponse.Updated?) && (tsResponse.Failed? || tsResponse.Updated?)
  {
    if plain.Some? {
      GoAgreesBelowOrder(plain.value);
    }
  }

  lemma SignsAgree(setup: Setup, go: Option<nat>, ts: Option<Bytes>, text: string)
    requires SameHeld(go, ts) && SharedText(text)
    ensures var message := GoBytes(text);
            var goResponse, tsResponse := SignAnswer(LibraryOf(setup), go, message), TsSign(TsLibraryOf(setup), ts, text);
            && (SameResponse(goResponse, tsResponse) <==> message != [] || !TsAcceptsEmpty(ToSign, text, ts, None))
            && (goResponse.Failed? || goResponse.Signed?) && (tsResponse.Failed? || tsResponse.Signed?)
  {
    SameBytes(text);
  }

  /** What Go does not decode it answers with 400, which TypeScript never does once it has the fields. */
  lemma UndecodableNeverAgrees(setup: Setup, go: Option<nat>, ts: Option<Bytes>, i: Instruction, plain: Option<Bytes>)
    requires !GoDecodes(i)
    ensures GoAnswer(setup, go, Some(i), plain) == (go, Http(400, None))
    ensures TsAnswer(setup, ts, Some(i), plain).1.code != 400
  {
  }

  predicate HasUpperPrefix(text: string) {
    |text| >= 2 && text[0] == '0' && text[1] == 'X'
  }

  lemma DecodedTexts(text: string)
    requires !HasUpperPrefix(text) && (text == "" || IsGoHex(text))
    ensures SharedText(text)
  {
  }

  /** On every instruction except those whose message has the prefix 0X. */
  lemma ImplementationsAgreeExactlyWhen(setup: Setup, go: Option<nat>, ts: Option<Bytes>, i: Instruction, plain: Option<Bytes>)
    requires setup.ops.Distinct() && SameHeld(go, ts) && !HasUpperPrefix(i.message)
    ensures Agree(GoAnswer(setup, go, Some(i), plain), TsAnswer(setup, ts, Some(i), plain)) <==> Agreeable(setup.ops, ts, i, plain)
  {
    if !GoDecodes(i) {
      UndecodableNeverAgrees(setup, go, ts, i, plain);
    } else {
      DecodedTexts(i.message);
      DecodedAgreeExactlyWhen(setup, go, ts, i, plain);
    }
  }

  lemma ResponsesDecide(go: Option<nat>, ts: Option<Bytes>, i: Instruction, goResponse: Response, tsResponse: Response)
    requires !goResponse.HasKey? && !tsResponse.HasKey?
    ensures Agree((go, Accepted(i, goResponse)), (ts, Accepted(i, tsResponse))) <==> SameHeld(go, ts) && SameResponse(goResponse, tsResponse)
  {
  }

  lemma UpdateCase(setup: Setup, go: Option<nat>, ts: Option<Bytes>, i: Instruction, plain: Option<Bytes>)
    requires SameHeld(go, ts) && GoDecodes(i) && SharedText(i.message)
    requires GoRoute(setup.ops, i) == TsRoute(setup.ops, i) == Some(ToUpdate)
    ensures Agree(GoAnswer(setup, go, Some(i), plain), TsAnswer(setup, ts, Some(i), plain))
            <==> if GoBytes(i.message) == [] then !TsAcceptsEmpty(ToUpdate, i.message, ts, plain) else AgreeablePlain(plain)
  {
    GoAnswersUpdate(setup, go, i, plain);
    TsAnswersUpdate(setup, ts, i, plain);
    UpdatesAgree(setup, go, ts, i.message, plain);
    var (goKey, goResponse) := Handle(LibraryOf(setup), go, Update(GoBytes(i.message), plain));
    var (tsKey, tsResponse) := TsUpdate(TsLibraryOf(setup), ts, i.message, plain);
    ResponsesDecide(goKey, tsKey, i, goResponse, tsResponse);
  }

  lemma SignCase(setup: Setup, go: Option<nat>, ts: Option<Bytes>, i: Instruction, plain: Option<Bytes>)
    requires SameHeld(go, ts) && GoDecodes(i) && SharedText(i.message)
    requires GoRoute(setup.ops, i) == TsRoute(setup.ops, i) == Some(ToSign)
    ensures Agree(GoAnswer(setup, go, Some(i), plain), TsAnswer(setup, ts, Some(i), plain))
            <==> GoBytes(i.message) != [] || !TsAcceptsEmpty(ToSign, i.message, ts, plain)
  {
    GoAnswersSign(setup, go, i, plain);
    TsAnswersSign(setup, ts, i, plain);
    SignsAgree(setup, go, ts, i.message);
    ResponsesDecide(go, ts, i, SignAnswer(LibraryOf(setup), go, GoBytes(i.message)), TsSign(TsLibraryOf(setup), ts, i.message));
  }

  /** Answers 200 and 501, or 501 twice. */
  lemma UnroutedCase(setup: Setup, go: Option<nat>, ts: Option<Bytes>, i: Instruction, plain: Option<Bytes>)
    requires SameHeld(go, ts) && GoDecodes(i) && TsRoute(setup.ops, i) == None
    ensures Agree(GoAnswer(setup, go, Some(i), plain), TsAnswer(setup, ts, Some(i), plain)) <==> GoRoute(setup.ops, i) == None
  {
    match GoRoute(setup.ops, i)
    case None =>
    case Some(ToUpdate) =>
    case Some(ToSign) =>
  }

  lemma DecodedAgreeExactlyWhen(setup: Setup, go: Option<nat>, ts: Option<Bytes>, i: Instruction, plain: Option<Bytes>)
    requires setup.ops.Distinct() && SameHeld(go, ts) && GoDecodes(i) && SharedText(i.message)
    ensures Agree(GoAnswer(setup, go, Some(i), plain), TsAnswer(setup, ts, Some(i), plain)) <==> Agreeable(setup.ops, ts, i, plain)
  {
    TsRoutesCanonicalOps(setup.ops, i);
    match TsRoute(setup.ops, i)
    case None => UnroutedCase(setup, go, ts, i, plain);
    case Some(ToUpdate) => UpdateCase(setup, go, ts, i, plain);
    case Some(ToSign) => SignCase(setup, go, ts, i, plain);
  }

  // ----- what a client gets

  lemma NamesDecode(ops: OpNames, command: Bytes, message: string)
    requires message == "" || IsGoHex(message)
    ensures var i := Instruction(NameToHex(ops.key), NameToHex(command), message);
            CanonicalOps(i) && GoDecodes(i) && GoBytes(i.opType) == Bytes32(ops.key) && GoBytes(i.opCommand) == Bytes32(command)
  {
    HexEquals(NameToHex(ops.key), ops.key);
    HexEquals(NameToHex(command), command);
    CanonicalIsHash(NameToHex(ops.key));
    CanonicalIsHash(NameToHex(command));
  }

  lemma SignIsRouted(ops: OpNames, message: string)
    requires ops.Distinct() && (message == "" || IsGoHex(message))
    ensures GoRoute(ops, Instruction(NameToHex(ops.key), NameToHex(ops.sign), message)) == Some(ToSign)
  {
    NamesDecode(ops, ops.sign, message);
    NamesAreDistinct(ops.update, ops.sign);
  }

  lemma UpdateIsRouted(ops: OpNames, message: string)
    requires message == "" || IsGoHex(message)
    ensures GoRoute(ops, Instruction(NameToHex(ops.key), NameToHex(ops.update), message)) == Some(ToUpdate)
  {
    NamesDecode(ops, ops.update, message);
  }

  /** The answer to a request that was routed: it succeeded with this data, or it failed. */
  predicate Tells(http: Http, i: Instruction, success: bool) {
    && http.code == 200 && http.result.Some?
    && var r := http.result.value;
       r.opType == i.opType && r.opCommand == i.opCommand && r.status == (if success then 1 else 0)
  }

  /** An update message that is not empty and brings the bytes of a key, as far as both parsers go. */
  predicate BringsKey(plain: Option<Bytes>) {
    plain.Some? && 0 < |plain.value| <= 32
  }

  lemma AcceptedTells(i: Instruction, r: Response)
    requires !r.HasKey?
    ensures Tells(Accepted(i, r), i, !r.Failed?)
    ensures Accepted(i, r).result.value.data == if r.Signed? then Some(r.data) else None
  {
  }

  lemma GoAnswersUpdate(setup: Setup, key: Option<nat>, i: Instruction, plain: Option<Bytes>)
    requires GoDecodes(i) && GoRoute(setup.ops, i) == Some(ToUpdate)
    ensures var (next, r) := Handle(LibraryOf(setup), key, Update(GoBytes(i.message), plain));
            !r.HasKey? && GoAnswer(setup, key, Some(i), plain) == (next, Accepted(i, r))
  {
  }

  lemma GoAnswersSign(setup: Setup, key: Option<nat>, i: Instruction, plain: Option<Bytes>)
    requires GoDecodes(i) && GoRoute(setup.ops, i) == Some(ToSign)
    ensures var r := SignAnswer(LibraryOf(setup), key, GoBytes(i.message));
            !r.HasKey? && GoAnswer(setup, key, Some(i), plain) == (key, Accepted(i, r))
  {
  }

  lemma GoUpdateResponds(setup: Setup, key: Option<nat>, message: Bytes, plain: Option<Bytes>)
    ensures var (next, r) := Handle(LibraryOf(setup), key, Update(message, plain));
            if message != [] && BringsKey(plain) && Value(plain.value) % ORDER != 0
            then r == Updated && next == Some(Value(plain.value) % ORDER)
            else r.Failed? && next == key
  {
    if BringsKey(plain) {
      GoParsesModuloOrder(plain.value);
    }
  }

  lemma GoSignResponds(setup: Setup, key: Option<nat>, message: Bytes)
    requires |message| < MESSAGE_LIMIT
    ensures var r := SignAnswer(LibraryOf(setup), key, message);
            if key.Some? && message != [] then r.Signed? && Delivers(r.data, message, setup.signer(key.value, message))
            else r.Failed?
  {
    if key.Some? {
      SignedDataDelivers(setup, key.value, message);
    }
  }

  /** UPDATE in Go: status 1 installs the decrypted number modulo the order, status 0 changes nothing. */
  lemma GoUpdateMeans(setup: Setup, key: Option<nat>, i: Instruction, plain: Option<Bytes>)
    requires i.opType == NameToHex(setup.ops.key) && i.opCommand == NameToHex(setup.ops.update)
    requires i.message == "" || IsGoHex(i.message)
    ensures var (next, http) := GoAnswer(setup, key, Some(i), plain);
            var success := GoBytes(i.message) != [] && BringsKey(plain) && Value(plain.value) % ORDER != 0;
            && Tells(http, i, success) && http.result.value.data == None
            && next == if success then Some(Value(plain.value) % ORDER) else key
  {
    NamesDecode(setup.ops, setup.ops.update, i.message);
    GoAnswersUpdate(setup, key, i, plain);
    GoUpdateResponds(setup, key, GoBytes(i.message), plain);
    AcceptedTells(i, Handle(LibraryOf(setup), key, Update(GoBytes(i.message), plain)).1);
  }

  /** SIGN in Go: status 1 exactly for a message under a stored key, and then the data delivers both. */
  lemma GoSignMeans(setup: Setup, key: Option<nat>, i: Instruction, plain: Option<Bytes>)
    requires setup.ops.Distinct() && i.opType == NameToHex(setup.ops.key) && i.opCommand == NameToHex(setup.ops.sign)
    requires (i.message == "" || IsGoHex(i.message)) && |GoBytes(i.message)| < MESSAGE_LIMIT
    ensures var (next, http) := GoAnswer(setup, key, Some(i), plain);
            var success := key.Some? && GoBytes(i.message) != [];
            && next == key && Tells(http, i, success)
            && var data := http.result.value.data;
               if success then data.Some? && Delivers(data.value, GoBytes(i.message), setup.signer(key.value, GoBytes(i.message)))
               else data == None
  {
    NamesDecode(setup.ops, setup.ops.sign, i.message);
    SignIsRouted(setup.ops, i.message);
    GoAnswersSign(setup, key, i, plain);
    GoSignResponds(setup, key, GoBytes(i.message));
    AcceptedTells(i, SignAnswer(LibraryOf(setup), key, GoBytes(i.message)));
  }

  /** What Go cannot decode is answered 400, and what is neither KEY UPDATE nor KEY SIGN 501. */
  lemma GoRefuses(setup: Setup, key: Option<nat>, action: Option<Instruction>, plain: Option<Bytes>)
    ensures action == None || !GoDecodes(action.value) ==> GoAnswer(setup, key, action, plain) == (key, Http(400, None))
    ensures action.Some? && GoDecodes(action.value) &&
            (GoBytes(action.value.opType) != Bytes32(setup.ops.key) ||
             GoBytes(action.value.opCommand) !in {Bytes32(setup.ops.update), Bytes32(setup.ops.sign)})
            ==> GoAnswer(setup, key, action, plain) == (key, Http(501, None))
  {
  }

  lemma TsAnswersUpdate(setup: Setup, key: Option<Bytes>, i: Instruction, plain: Option<Bytes>)
    requires TsRoute(setup.ops, i) == Some(ToUpdate)
    ensures var (next, r) := TsUpdate(TsLibraryOf(setup), key, i.message, plain);
            !r.HasKey? && TsAnswer(setup, key, Some(i), plain) == (next, Accepted(i, r))
  {
  }

  lemma TsAnswersSign(setup: Setup, key: Option<Bytes>, i: Instruction, plain: Option<Bytes>)
    requires TsRoute(setup.ops, i) == Some(ToSign)
    ensures var r := TsSign(TsLibraryOf(setup), key, i.message);
            !r.HasKey? && TsAnswer(setup, key, Some(i), plain) == (key, Accepted(i, r))
  {
  }

  lemma TsUpdateResponds(setup: Setup, key: Option<Bytes>, text: string, plain: Option<Bytes>)
    ensures var (next, r) := TsUpdate(TsLibraryOf(setup), key, text, plain);
            if text != "" && BringsKey(plain) && 0 < Value(plain.value) < ORDER
            then r == Updated && next.Some? && |next.value| == 32 && Value(next.value) == Value(plain.value)
            else r.Failed? && next == key
  {
    if BringsKey(plain) && 0 < Value(plain.value) < ORDER {
      ScalarWord(Value(plain.value));
    }
  }

  lemma TsSignResponds(setup: Setup, key: Option<Bytes>, text: string)
    requires |HexToBytes(text)| < MESSAGE_LIMIT
    ensures var r := TsSign(TsLibraryOf(setup), key, text);
            if key.Some? && text != "" then r.Signed? && Delivers(r.data, HexToBytes(text), setup.signer(Value(key.value), HexToBytes(text)))
            else r.Failed?
  {
    if key.Some? {
      SignedDataDelivers(setup, Value(key.value), HexToBytes(text));
    }
  }

  /** UPDATE in TypeScript: the same number, but what the order excludes is refused. */
  lemma TsUpdateMeans(setup: Setup, key: Option<Bytes>, i: Instruction, plain: Option<Bytes>)
    requires setup.ops.Distinct() && i.opType == NameToHex(setup.ops.key) && i.opCommand == NameToHex(setup.ops.update)
    ensures var (next, http) := TsAnswer(setup, key, Some(i), plain);
            var success := i.message != "" && BringsKey(plain) && 0 < Value(plain.value) < ORDER;
            && Tells(http, i, success) && http.result.value.data == None
            && if success then next.Some? && |next.value| == 32 && Value(next.value) == Value(plain.value) else next == key
  {
    TsRouteCases(setup.ops, i);
    TsAnswersUpdate(setup, key, i, plain);
    TsUpdateResponds(setup, key, i.message, plain);
    AcceptedTells(i, TsUpdate(TsLibraryOf(setup), key, i.message, plain).1);
  }

  /** SIGN in TypeScript. */
  lemma TsSignMeans(setup: Setup, key: Option<Bytes>, i: Instruction, plain: Option<Bytes>)
    requires setup.ops.Distinct() && i.opType == NameToHex(setup.ops.key) && i.opCommand == NameToHex(setup.ops.sign)
    requires |HexToBytes(i.message)| < MESSAGE_LIMIT
    ensures var (next, http) := TsAnswer(setup, key, Some(i), plain);
            var success := key.Some? && i.message != "";
            && next == key && Tells(http, i, success)
            && var data := http.result.value.data;
               if success then data.Some? && Delivers(data.value, HexToBytes(i.message), setup.signer(Value(key.value), HexToBytes(i.message)))
               else data == None
  {
    TsRouteCases(setup.ops, i);
    NamesAreDistinct(setup.ops.update, setup.ops.sign);
    TsAnswersSign(setup, key, i, plain);
    TsSignResponds(setup, key, i.message);
    AcceptedTells(i, TsSign(TsLibraryOf(setup), key, i.message));
  }

  /** Without an action TypeScript answers 400, and every other pair of texts 501. */
  lemma TsRefuses(setup: Setup, key: Option<Bytes>, action: Option<Instruction>, plain: Option<Bytes>)
    requires setup.ops.Distinct()
    ensures action == None ==> TsAnswer(setup, key, action, plain) == (key, Http(400, None))
    ensures action.Some? &&
            (action.value.opType != NameToHex(setup.ops.key) ||
             action.value.opCommand !in {NameToHex(setup.ops.update), NameToHex(setup.ops.sign)})
            ==> TsAnswer(setup, key, action, plain) == (key, Http(501, None))
  {
    if action.Some? {
      TsRouteCases(setup.ops, action.value);
    }
  }

  // ----- requests that tell the two apart

  /** With a key stored, a SIGN of the text 0x is signed by TypeScript and refused by Go. */
  lemma EmptyMessageTellsThemApart(setup: Setup)
    requires setup.ops.Distinct()
    ensures var i := Instruction(NameToHex(setup.ops.key), NameToHex(setup.ops.sign), "0x");
            && SameHeld(Some(1), Some(Word(1)))
            && !Agree(GoAnswer(setup, Some(1), Some(i), None), TsAnswer(setup, Some(Word(1)), Some(i), None))
  {
    SmallKey();
    SignIsRouted(setup.ops, "0x");
    var text := "0x";
    assert text[2..] == "" && GoBytes(text) == [];
    EmptySignDisagrees(setup, Instruction(NameToHex(setup.ops.key), NameToHex(setup.ops.sign), text), Some(1), Some(Word(1)));
  }

  lemma EmptySignDisagrees(setup: Setup, i: Instruction, go: Option<nat>, ts: Option<Bytes>)
    requires setup.ops.Distinct() && SameHeld(go, ts) && ts.Some?
    requires GoRoute(setup.ops, i) == Some(ToSign)
    requires i.message != "" && !HasUpperPrefix(i.message) && GoBytes(i.message) == []
    ensures !Agree(GoAnswer(setup, go, Some(i), None), TsAnswer(setup, ts, Some(i), None))
  {
    ImplementationsAgreeExactlyWhen(setup, go, ts, i, None);
  }

  lemma SmallKey()
    ensures SameHeld(Some(1), Some(Word(1)))
  {
    PowerConstants();
    WordValue(1);
  }

  /** An update to any key above the order installs a smaller one in Go and is refused by TypeScript. */
  lemma KeyAboveOrderTellsThemApart(setup: Setup, plain: Bytes)
    requires setup.ops.Distinct() && |plain| <= 32 && Value(plain) > ORDER
    ensures var i := Instruction(NameToHex(setup.ops.key), NameToHex(setup.ops.update), "0x00");
            !Agree(GoAnswer(setup, None, Some(i), Some(plain)), TsAnswer(setup, None, Some(i), Some(plain)))
  {
    ZeroByteText();
    UpdateIsRouted(setup.ops, "0x00");
    LargeUpdateDisagrees(setup, Instruction(NameToHex(setup.ops.key), NameToHex(setup.ops.update), "0x00"), plain);
  }

  lemma ZeroByteText()
    ensures IsGoHex("0x00") && !HasUpperPrefix("0x00") && GoBytes("0x00") != []
  {
    var text := "0x00";
    assert text[1] == 'x' && text[2] == '0' && text[3] == '0';
    assert text[2..][0] == '0' && text[2..][1] == '0';
  }

  lemma LargeUpdateDisagrees(setup: Setup, i: Instruction, plain: Bytes)
    requires setup.ops.Distinct() && |plain| <= 32 && Value(plain) > ORDER
    requires GoRoute(setup.ops, i) == Some(ToUpdate) && !HasUpperPrefix(i.message) && GoBytes(i.message) != []
    ensures !Agree(GoAnswer(setup, None, Some(i), Some(plain)), TsAnswer(setup, None, Some(i), Some(plain)))
  {
    assert !Agreeable(setup.ops, None, i, Some(plain));
    ImplementationsAgreeExactlyWhen(setup, None, None, i, Some(plain));
  }

  /** Operation fields that are not 32 bytes: Go answers 400, TypeScript 501. */
  lemma ShortFieldsTellThemApart(setup: Setup)
    requires setup.ops.Distinct()
    ensures var i := Instruction("0x12", "0x12", "0xab");
            && GoAnswer(setup, None, Some(i), None).1.code == 400
            && TsAnswer(setup, None, Some(i), None).1.code == 501
  {
    var i := Instruction("0x12", "0x12", "0xab");
    TsRoutesCanonicalOps(setup.ops, i);
  }

  // ----- whole histories

  datatype Call = Call(instruction: Instruction, plain: Option<Bytes>)

  /** A message both sides read alike: some bytes, or the empty text. */
  predicate OrdinaryText(text: string) {
    SharedText(text) && text != "0x"
  }

  predicate OrdinaryPlain(plain: Option<Bytes>) {
    plain.Some? ==> |plain.value| > 32 || Value(plain.value) < ORDER
  }

  /** On such a message and key the TypeScript update is that of the sequential object, failures included. */
  lemma UpdateIsHandle(setup: Setup, go: Option<nat>, ts: Option<Bytes>, text: string, plain: Option<Bytes>)
    requires SameHeld(go, ts) && OrdinaryText(text) && OrdinaryPlain(plain)
    ensures var (goKey, goResponse) := Handle(LibraryOf(setup), go, Update(HexToBytes(text), plain));
            var (tsKey, tsResponse) := TsUpdate(TsLibraryOf(setup), ts, text, plain);
            SameHeld(goKey, tsKey) && goResponse == tsResponse
  {
    OrdinaryBytes(text);
    if plain.Some? {
      SameResult(plain.value);
    }
  }

  lemma SignIsHandle(setup: Setup, go: Option<nat>, ts: Option<Bytes>, text: string)
    requires SameHeld(go, ts) && OrdinaryText(text)
    ensures SignAnswer(LibraryOf(setup), go, HexToBytes(text)) == TsSign(TsLibraryOf(setup), ts, text)
  {
    OrdinaryBytes(text);
  }

  lemma OrdinaryBytes(text: string)
    requires OrdinaryText(text)
    ensures HexToBytes(text) == [] <==> text == ""
  {
    if text != "" {
      WellFormedLength(text);
    }
  }

  predicate OrdinaryCall(c: Call) {
    CanonicalOps(c.instruction) && OrdinaryText(c.instruction.message) && OrdinaryPlain(c.plain)
  }

  /** A server run over a list of calls, given what it does with one. */
  function Run<K>(step: (K, Call) -> (K, Http), key: K, calls: seq<Call>): (K, seq<Http>)
    decreases |calls|
  {
    if calls == [] then (key, [])
    else
      var (next, answer) := step(key, calls[0]);
      var (last, answers) := Run(step, next, calls[1..]);
      (last, [answer] + answers)
  }

  function GoStep(setup: Setup): (Option<nat>, Call) -> (Option<nat>, Http) {
    (key, c: Call) => GoAnswer(setup, key, Some(c.instruction), c.plain)
  }

  function TsStep(setup: Setup): (Option<Bytes>, Call) -> (Option<Bytes>, Http) {
    (key, c: Call) => TsAnswer(setup, key, Some(c.instruction), c.plain)
  }

  lemma OrdinaryCallsAgree(setup: Setup, go: Option<nat>, ts: Option<Bytes>, c: Call)
    requires setup.ops.Distinct() && SameHeld(go, ts) && OrdinaryCall(c)
    ensures Agree(GoAnswer(setup, go, Some(c.instruction), c.plain), TsAnswer(setup, ts, Some(c.instruction), c.plain))
  {
    var i := c.instruction;
    CanonicalIsHash(i.opType);
    CanonicalIsHash(i.opCommand);
    if i.message != "" {
      WellFormedLength(i.message);
      SameBytes(i.message);
    }
    DecodedAgreeExactlyWhen(setup, go, ts, i, c.plain);
  }

  lemma {:induction false} RunsAgree(go: (Option<nat>, Call) -> (Option<nat>, Http), ts: (Option<Bytes>, Call) -> (Option<Bytes>, Http),
                                     n: Option<nat>, b: Option<Bytes>, calls: seq<Call>)
    requires SameHeld(n, b) && forall i :: 0 <= i < |calls| ==> OrdinaryCall(calls[i])
    requires forall k, l, c {:trigger go(k, c), ts(l, c)} :: SameHeld(k, l) && OrdinaryCall(c) ==> Agree(go(k, c), ts(l, c))
    ensures SameHeld(Run(go, n, calls).0, Run(ts, b, calls).0)
    ensures |Run(go, n, calls).1| == |Run(ts, b, calls).1| == |calls|
    ensures forall i :: 0 <= i < |calls| ==> SameOutcome(Run(go, n, calls).1[i], Run(ts, b, calls).1[i])
    decreases |calls|
  {
    if calls != [] {
      assert Agree(go(n, calls[0]), ts(b, calls[0]));
      RunsAgree(go, ts, go(n, calls[0]).0, ts(b, calls[0]).0, calls[1..]);
    }
  }

  /** Bisimulation: on ordinary calls the two servers give the same outcomes and hold the same key throughout. */
  lemma ServersAreBisimilar(setup: Setup, n: Option<nat>, b: Option<Bytes>, calls: seq<Call>)
    requires setup.ops.Distinct() && SameHeld(n, b)
    requires forall i :: 0 <= i < |calls| ==> OrdinaryCall(calls[i])
    ensures SameHeld(Run(GoStep(setup), n, calls).0, Run(TsStep(setup), b, calls).0)
    ensures |Run(GoStep(setup), n, calls).1| == |Run(TsStep(setup), b, calls).1| == |calls|
    ensures forall i :: 0 <= i < |calls| ==> SameOutcome(Run(GoStep(setup), n, calls).1[i], Run(TsStep(setup), b, calls).1[i])
  {
    forall k, l, c | SameHeld(k, l) && OrdinaryCall(c) ensures Agree(GoStep(setup)(k, c), TsStep(setup)(l, c)) {
      OrdinaryCallsAgree(setup, k, l, c);
    }
    RunsAgree(GoStep(setup), TsStep(setup), n, b, calls);
  }

  /** KEY, UPDATE and SIGN are such names: from the start on, with no key held, the two servers cannot be told apart. */
  lemma DeployedServersAreBisimilar(signer: (nat, Bytes) -> ValidSignature, calls: seq<Call>)
    requires forall i :: 0 <= i < |calls| ==> OrdinaryCall(calls[i])
    ensures var setup := Setup(signer, OP_NAMES);
            && SameHeld(Run(GoStep(setup), None, calls).0, Run(TsStep(setup), None, calls).0)
            && |Run(GoStep(setup), None, calls).1| == |Run(TsStep(setup), None, calls).1| == |calls|
            && forall i :: 0 <= i < |calls| ==> SameOutcome(Run(GoStep(setup), None, calls).1[i], Run(TsStep(setup), None, calls).1[i])
  {
    OpNamesAreDistinct();
    ServersAreBisimilar(Setup(signer, OP_NAMES), None, None, calls);
  }
}
