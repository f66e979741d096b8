/**
 Canonical wire bytes, version 1 and version 2: twelve encoders and a line-splitting
 decoder that inverts all of them. Accepted fields are ASCII, so bytes are characters.
 */
module Wire {
  import opened Wrappers
  import opened Text

  type I64 = x: int | -0x8000_0000_0000_0000 <= x < 0x8000_0000_0000_0000
  type U64 = x: int | 0 <= x < 0x1_0000_0000_0000_0000

  const MIN_NONCE_LEN := 32
  const MAX_NONCE_LEN := 128

  datatype Version = V1 | V2

  datatype Message =
    | Register(publicKeyHex: string, org: string, name: string, nonce: string, ts: I64)
    | TransferIntent(sender: string, recipient: string, size: U64, mime: string, filename: string, nonce: string, ts: I64)
    | DataTicket(transfer: string, recipient: string, dataPlane: string, expires: I64, nonce: string)
    | RotateKey(agent: string, oldPub: string, newPub: string, nonce: string, ts: I64)
    | TransferReceipt(recipient: string, transfer: string, action: string, nonce: string, ts: I64)
    | DecisionRequest(recipient: string, transfer: string, decision: string, eta: U64, nonce: string, ts: I64)
    | DecisionResponse(recipient: string, transfer: string, decision: string, outcome: string, reason: string, nonce: string, ts: I64)

  /** The two decision messages exist in version 2 only. */
  predicate Defined(v: Version, m: Message) {
    m.DecisionRequest? || m.DecisionResponse? ==> v.V2?
  }

  datatype WireError = BadField(name: string) | BadNonce | SameKey | BadAction | BadOutcome

  // ---------- validators ----------

  predicate LineChar(c: char) { c < '\U{80}' && c != '\n' && c != '\r' && c != '\0' }

  predicate OptionalLine(s: string) { forall c | c in s :: LineChar(c) }

  predicate AsciiLine(s: string) { s != "" && OptionalLine(s) }

  predicate HexDigit(c: char) { '0' <= c <= '9' || 'a' <= c <= 'f' || 'A' <= c <= 'F' }

  predicate ValidNonce(s: string) {
    MIN_NONCE_LEN <= |s| <= MAX_NONCE_LEN && forall c | c in s :: HexDigit(c)
  }

  predicate KnownAction(s: string) { s in ["download", "ack", "inbox", "request_ticket"] }

  predicate KnownOutcome(s: string) { s in ["accepted", "rejected"] }

  /** The first check in `checks` that fails, in order. */
  function FirstFailure(checks: seq<(bool, WireError)>): Option<WireError> {
    if checks == [] then None
    else if !checks[0].0 then Some(checks[0].1)
    else FirstFailure(checks[1..])
  }

  function Checks(m: Message): seq<(bool, WireError)> {
    match m
    case Register(pub, org, name, nonce, _) =>
      [(AsciiLine(pub), BadField("public_key_hex")), (AsciiLine(org), BadField("org")),
       (AsciiLine(name), BadField("name")), (ValidNonce(nonce), BadNonce)]
    case TransferIntent(sender, recipient, _, mime, filename, nonce, _) =>
      [(AsciiLine(sender), BadField("sender_agent_id")), (AsciiLine(recipient), BadField("recipient")),
       (OptionalLine(mime), BadField("declared_mime")), (OptionalLine(filename), BadField("filename")),
       (ValidNonce(nonce), BadNonce)]
    case DataTicket(transfer, recipient, dataPlane, _, nonce) =>
      [(AsciiLine(transfer), BadField("transfer_id")), (AsciiLine(recipient), BadField("recipient_agent_id")),
       (AsciiLine(dataPlane), BadField("data_plane_url")), (ValidNonce(nonce), BadNonce)]
    case RotateKey(agent, oldPub, newPub, nonce, _) =>
      [(AsciiLine(agent), BadField("agent_id")), (AsciiLine(oldPub), BadField("old_public_key_hex")),
       (AsciiLine(newPub), BadField("new_public_key_hex")), (ValidNonce(nonce), BadNonce), (oldPub != newPub, SameKey)]
    case TransferReceipt(recipient, transfer, action, nonce, _) =>
      [(AsciiLine(recipient), BadField("recipient_agent_id")), (AsciiLine(transfer), BadField("transfer_id")),
       (AsciiLine(action), BadField("action")), (ValidNonce(nonce), BadNonce),
       (KnownAction(action), BadAction)]
    case DecisionRequest(recipient, transfer, decision, _, nonce, _) =>
      [(AsciiLine(recipient), BadField("recipient_agent_id")), (AsciiLine(transfer), BadField("transfer_id")),
       (AsciiLine(decision), BadField("decision_id")), (ValidNonce(nonce), BadNonce)]
    case DecisionResponse(recipient, transfer, decision, outcome, reason, nonce, _) =>
      [(AsciiLine(recipient), BadField("recipient_agent_id")), (AsciiLine(transfer), BadField("transfer_id")),
       (AsciiLine(decision), BadField("decision_id")), (AsciiLine(outcome), BadField("outcome")),
       (OptionalLine(reason), BadField("reason")), (ValidNonce(nonce), BadNonce),
       (KnownOutcome(outcome), BadOutcome)]
  }

  // ---------- encoders ----------

  function Brand(v: Version): string { if v.V1? then "spize-" else "aex-" }

  function Suffix(v: Version): string { if v.V1? then ":v1" else ":v2" }

  datatype Kind = KRegister | KIntent | KTicket | KRotate | KReceipt | KRequest | KResponse

  function KindOf(m: Message): Kind {
    match m
    case Register(_, _, _, _, _) => KRegister
    case TransferIntent(_, _, _, _, _, _, _) => KIntent
    case DataTicket(_, _, _, _, _) => KTicket
    case RotateKey(_, _, _, _, _) => KRotate
    case TransferReceipt(_, _, _, _, _) => KReceipt
    case DecisionRequest(_, _, _, _, _, _) => KRequest
    case DecisionResponse(_, _, _, _, _, _, _) => KResponse
  }

  function KindName(k: Kind): string {
    match k
    case KRegister => "register"
    case KIntent => "transfer-intent"
    case KTicket => "data-ticket"
    case KRotate => "rotate-key"
    case KReceipt => "transfer-receipt"
    case KRequest => "decision-request"
    case KResponse => "decision-response"
  }

  function Arity(k: Kind): nat {
    match k
    case KIntent | KResponse => 7
    case KRequest => 6
    case _ => 5
  }

  /** The line prefixes after the header, in order. */
  function Keys(k: Kind): (keys: seq<string>)
    ensures |keys| == Arity(k)
  {
    match k
    case KRegister => ["pub=", "org=", "name=", "nonce=", "ts="]
    case KIntent => ["sender=", "recipient=", "size=", "mime=", "filename=", "nonce=", "ts="]
    case KTicket => ["transfer=", "recipient=", "data_plane=", "expires=", "nonce="]
    case KRotate => ["agent=", "old_pub=", "new_pub=", "nonce=", "ts="]
    case KReceipt => ["recipient=", "transfer=", "action=", "nonce=", "ts="]
    case KRequest => ["recipient=", "transfer=", "decision=", "eta_secs=", "nonce=", "ts="]
    case KResponse => ["recipient=", "transfer=", "decision=", "outcome=", "reason=", "nonce=", "ts="]
  }

  /** The values printed after them. */
  function Values(m: Message): (vs: seq<string>)
    ensures |vs| == Arity(KindOf(m))
  {
    match m
    case Register(pub, org, name, nonce, ts) => [pub, org, name, nonce, PrintInt(ts)]
    case TransferIntent(sender, recipient, size, mime, filename, nonce, ts) =>
      [sender, recipient, PrintInt(size), mime, filename, nonce, PrintInt(ts)]
    case DataTicket(transfer, recipient, dataPlane, expires, nonce) =>
      [transfer, recipient, dataPlane, PrintInt(expires), nonce]
    case RotateKey(agent, oldPub, newPub, nonce, ts) => [agent, oldPub, newPub, nonce, PrintInt(ts)]
    case TransferReceipt(recipient, transfer, action, nonce, ts) =>
      [recipient, transfer, action, nonce, PrintInt(ts)]
    case DecisionRequest(recipient, transfer, decision, eta, nonce, ts) =>
      [recipient, transfer, decision, PrintInt(eta), nonce, PrintInt(ts)]
    case DecisionResponse(recipient, transfer, decision, outcome, reason, nonce, ts) =>
      [recipient, transfer, decision, outcome, reason, nonce, PrintInt(ts)]
  }

  function Header(v: Version, k: Kind): string { Brand(v) + KindName(k) + Suffix(v) }

  function Lines(v: Version, m: Message): seq<string> {
    var keys, vs := Keys(KindOf(m)), Values(m);
    [Header(v, KindOf(m))] + seq(|keys|, i requires 0 <= i < |keys| => keys[i] + vs[i])
  }

  /** All twelve encoders: validate the fields, then print one line per field. */
  function Encode(v: Version, m: Message): Result<string, WireError>
    requires Defined(v, m)
  {
    match FirstFailure(Checks(m))
    case Some(error) => Err(error)
    case None => Ok(Join('\n', Lines(v, m)))
  }

  // ---------- the decoder ----------

  function KindNamed(name: string): Option<Kind> {
    if name == "register" then Some(KRegister)
    else if name == "transfer-intent" then Some(KIntent)
    else if name == "data-ticket" then Some(KTicket)
    else if name == "rotate-key" then Some(KRotate)
    else if name == "transfer-receipt" then Some(KReceipt)
    else if name == "decision-request" then Some(KRequest)
    else if name == "decision-response" then Some(KResponse)
    else None
  }

  function ReadHeader(s: string): Option<(Version, Kind)> {
    var v := if "s" <= s then V1 else V2;
    var n := |Brand(v)|;
    if Brand(v) <= s && |s| >= n + 3 && s[|s| - 3..] == Suffix(v) then
      match KindNamed(s[n..|s| - 3])
      case Some(k) => Some((v, k))
      case None => None
    else None
  }

  function ReadValues(keys: seq<string>, lines: seq<string>): (vs: Option<seq<string>>)
    ensures vs.Some? <==> |keys| == |lines| && forall i | 0 <= i < |keys| :: keys[i] <= lines[i]
    ensures vs.Some? ==> |vs.value| == |keys| && forall i | 0 <= i < |keys| :: lines[i] == keys[i] + vs.value[i]
  {
    if |keys| == |lines| && forall i | 0 <= i < |keys| :: keys[i] <= lines[i]
    then Some(seq(|keys|, i requires 0 <= i < |keys| => lines[i][|keys[i]|..]))
    else None
  }

  function ReadI64(s: string): Option<I64> {
    match ReadInt(s)
    case Some(i) => if -0x8000_0000_0000_0000 <= i < 0x8000_0000_0000_0000 then Some(i) else None
    case None => None
  }

  function ReadU64(s: string): Option<U64> {
    match ReadInt(s)
    case Some(i) => if 0 <= i < 0x1_0000_0000_0000_0000 then Some(i) else None
    case None => None
  }

  function Build(k: Kind, vs: seq<string>): Option<Message>
    requires |vs| == Arity(k)
  {
    match k
    case KRegister =>
      var ts := ReadI64(vs[4]);
      if ts.None? then None else Some(Register(vs[0], vs[1], vs[2], vs[3], ts.value))
    case KIntent =>
      var size, ts := ReadU64(vs[2]), ReadI64(vs[6]);
      if size.None? || ts.None? then None
      else Some(TransferIntent(vs[0], vs[1], size.value, vs[3], vs[4], vs[5], ts.value))
    case KTicket =>
      var expires := ReadI64(vs[3]);
      if expires.None? then None else Some(DataTicket(vs[0], vs[1], vs[2], expires.value, vs[4]))
    case KRotate =>
      var ts := ReadI64(vs[4]);
      if ts.None? then None else Some(RotateKey(vs[0], vs[1], vs[2], vs[3], ts.value))
    case KReceipt =>
      var ts := ReadI64(vs[4]);
      if ts.None? then None else Some(TransferReceipt(vs[0], vs[1], vs[2], vs[3], ts.value))
    case KRequest =>
      var eta, ts := ReadU64(vs[3]), ReadI64(vs[5]);
      if eta.None? || ts.None? then None
      else Some(DecisionRequest(vs[0], vs[1], vs[2], eta.value, vs[4], ts.value))
    case KResponse =>
      var ts := ReadI64(vs[6]);
      if ts.None? then None else Some(DecisionResponse(vs[0], vs[1], vs[2], vs[3], vs[4], vs[5], ts.value))
  }

  function Decode(s: string): Option<(Version, Message)> { DecodeLines(Split('\n', s)) }

  function DecodeLines(lines: seq<string>): Option<(Version, Message)>
    requires lines != []
  {
    match ReadHeader(lines[0])
    case None => None
    case Some((v, k)) =>
      match ReadValues(Keys(k), lines[1..])
      case None => None
      case Some(vs) =>
        match Build(k, vs)
        case None => None
        case Some(m) => if Defined(v, m) && FirstFailure(Checks(m)).None? then Some((v, m)) else None
  }

  // ---------- decoding inverts encoding ----------

  lemma NameReadsBack(k: Kind)
    ensures KindNamed(KindName(k)) == Some(k)
    ensures '\n' !in KindName(k)
  {
    var name := KindName(k);
    assert |name| == 16 ==> name[0] == (if k.KReceipt? then 't' else 'd');
  }

  lemma HeaderReadsBack(v: Version, k: Kind)
    ensures ReadHeader(Header(v, k)) == Some((v, k))
    ensures '\n' !in Header(v, k)
  {
    NameReadsBack(k);
    hide KindNamed;
    hide KindName;
    var s := Header(v, k);
    var n := |Brand(v)|;
    assert s[0] == Brand(v)[0];
    assert s[n..|s| - 3] == KindName(k) && s[|s| - 3..] == Suffix(v) && s[..n] == Brand(v);
  }

  lemma NameOnlyFrom(name: string)
    requires KindNamed(name).Some?
    ensures name == KindName(KindNamed(name).value)
  {
  }

  lemma HeaderOnlyFrom(s: string)
    requires ReadHeader(s).Some?
    ensures var (v, k) := ReadHeader(s).value; s == Header(v, k)
  {
    hide KindNamed;
    hide KindName;
    var (v, k) := ReadHeader(s).value;
    var n := |Brand(v)|;
    NameOnlyFrom(s[n..|s| - 3]);
    assert s == s[..n] + s[n..|s| - 3] + s[|s| - 3..];
  }

  lemma BuildReadsBack(m: Message)
    ensures Build(KindOf(m), Values(m)) == Some(m)
  {
    hide ReadInt;
    hide PrintInt;
    match m
    case DataTicket(_, _, _, expires, _) => PrintThenReadInt(expires);
    case TransferIntent(_, _, size, _, _, _, ts) => PrintThenReadInt(size); PrintThenReadInt(ts);
    case DecisionRequest(_, _, _, eta, _, ts) => PrintThenReadInt(eta); PrintThenReadInt(ts);
    case _ => PrintThenReadInt(m.ts);
  }

  lemma BuildOnlyFrom(k: Kind, vs: seq<string>)
    requires |vs| == Arity(k) && Build(k, vs).Some?
    ensures var m := Build(k, vs).value; KindOf(m) == k && Values(m) == vs
  {
    hide ReadInt;
    hide PrintInt;
    match k {
      case KTicket => ReadThenPrintInt(vs[3]);
      case KIntent => ReadThenPrintInt(vs[2]); ReadThenPrintInt(vs[6]);
      case KRequest => ReadThenPrintInt(vs[3]); ReadThenPrintInt(vs[5]);
      case _ => ReadThenPrintInt(vs[|vs| - 1]);
    }
  }

  /** No line of an accepted message contains a line feed. */
  lemma LinesAreSingle(v: Version, m: Message)
    requires FirstFailure(Checks(m)).None?
    ensures forall line | line in Lines(v, m) :: '\n' !in line
  {
    HeaderReadsBack(v, KindOf(m));
    var keys, vs, lines := Keys(KindOf(m)), Values(m), Lines(v, m);
    ValuesAreSingle(m);
    hide Checks;
    hide Values;
    hide Keys;
    hide Header;
    forall i | 0 <= i < |lines| ensures '\n' !in lines[i] {
      if i > 0 {
        assert lines[i] == keys[i - 1] + vs[i - 1];
        KeysAreSingle(KindOf(m), i - 1);
        assert vs[i - 1] in vs;
      }
    }
  }

  lemma KeysAreSingle(k: Kind, i: nat)
    requires i < |Keys(k)|
    ensures '\n' !in Keys(k)[i]
  {
  }

  lemma ValuesAreSingle(m: Message)
    requires FirstFailure(Checks(m)).None?
    ensures forall value | value in Values(m) :: '\n' !in value
  {
    var checks := Checks(m);
    NoFailure(checks);
    hide FirstFailure;
    assert |checks| > 3 && checks[0].0 && checks[1].0 && checks[2].0 && checks[3].0;
    assert |checks| > 4 ==> checks[4].0;
    assert |checks| > 5 ==> checks[5].0;
  }

  lemma {:induction false} NoFailure(checks: seq<(bool, WireError)>)
    ensures FirstFailure(checks).None? <==> forall i | 0 <= i < |checks| :: checks[i].0
  {
    if checks != [] {
      NoFailure(checks[1..]);
      assert forall i | 1 <= i < |checks| :: checks[i] == checks[1..][i - 1];
    }
  }

  /** Only the MIME type and file name of an intent and the reason of a response may be empty. */
  predicate MayBeEmpty(k: Kind, i: nat) { (k.KIntent? && (i == 3 || i == 4)) || (k.KResponse? && i == 4) }

  predicate LineOk(k: Kind, i: nat, value: string) { OptionalLine(value) && (value == "" ==> MayBeEmpty(k, i)) }

  /** What the encoders accept, said of the printed lines and the message as a whole. */
  predicate Acceptable(m: Message) {
    && (forall i: nat | i < |Values(m)| :: LineOk(KindOf(m), i, Values(m)[i]))
    && ValidNonce(m.nonce)
    && (m.RotateKey? ==> m.oldPub != m.newPub)
    && (m.TransferReceipt? ==> KnownAction(m.action))
    && (m.DecisionResponse? ==> KnownOutcome(m.outcome))
  }

  lemma DecimalIsLine(i: int)
    ensures AsciiLine(PrintInt(i))
  {
    hide PrintInt;
  }

  lemma NonceIsLine(s: string)
    requires ValidNonce(s)
    ensures AsciiLine(s)
  {
  }

  /** Numbers and nonces always print as lines. */
  lemma PrintedAreLines(m: Message)
    requires ValidNonce(m.nonce)
    ensures AsciiLine(m.nonce)
    ensures match m
            case DataTicket(_, _, _, expires, _) => AsciiLine(PrintInt(expires))
            case TransferIntent(_, _, size, _, _, _, ts) => AsciiLine(PrintInt(size)) && AsciiLine(PrintInt(ts))
            case DecisionRequest(_, _, _, eta, _, ts) => AsciiLine(PrintInt(eta)) && AsciiLine(PrintInt(ts))
            case _ => AsciiLine(PrintInt(m.ts))
  {
    NonceIsLine(m.nonce);
    match m
    case DataTicket(_, _, _, expires, _) => DecimalIsLine(expires);
    case TransferIntent(_, _, size, _, _, _, ts) => DecimalIsLine(size); DecimalIsLine(ts);
    case DecisionRequest(_, _, _, eta, _, ts) => DecimalIsLine(eta); DecimalIsLine(ts);
    case _ => DecimalIsLine(m.ts);
  }

  lemma CheckedIsAcceptable(m: Message)
    requires forall i | 0 <= i < |Checks(m)| :: Checks(m)[i].0
    ensures Acceptable(m)
  {
    var checks := Checks(m);
    hide PrintInt;
    hide OptionalLine;
    hide ValidNonce;
    hide KnownAction;
    hide KnownOutcome;
    assert checks[0].0 && checks[1].0 && checks[2].0 && checks[3].0;
    assert |checks| > 4 ==> checks[4].0;
    assert |checks| > 5 ==> checks[5].0;
    assert |checks| > 6 ==> checks[6].0;
    PrintedAreLines(m);
  }

  lemma AcceptableIsChecked(m: Message)
    requires Acceptable(m)
    ensures forall i | 0 <= i < |Checks(m)| :: Checks(m)[i].0
  {
    hide PrintInt;
    hide OptionalLine;
    hide ValidNonce;
    hide KnownAction;
    hide KnownOutcome;
    var k, vs := KindOf(m), Values(m);
    assert LineOk(k, 0, vs[0]) && LineOk(k, 1, vs[1]) && LineOk(k, 2, vs[2]) && LineOk(k, 3, vs[3]) && LineOk(k, 4, vs[4]);
    PrintedAreLines(m);
  }

  /** Each of the twelve encoders accepts exactly the acceptable messages. */
  lemma EncodesExactlyAcceptable(v: Version, m: Message)
    requires Defined(v, m)
    ensures Encode(v, m).Ok? <==> Acceptable(m)
  {
    NoFailure(Checks(m));
    hide Checks;
    hide Acceptable;
    hide Lines;
    if Acceptable(m) { AcceptableIsChecked(m); }
    if FirstFailure(Checks(m)).None? { CheckedIsAcceptable(m); }
  }

  lemma ValuesReadBack(keys: seq<string>, vs: seq<string>, lines: seq<string>)
    requires |keys| == |vs| == |lines| && forall i | 0 <= i < |keys| :: lines[i] == keys[i] + vs[i]
    ensures ReadValues(keys, lines) == Some(vs)
  {
    var r := ReadValues(keys, lines).value;
    forall i | 0 <= i < |keys| ensures r[i] == vs[i] {
      assert vs[i] == lines[i][|keys[i]|..];
    }
    assert r == vs;
  }

  lemma LinesReadBack(v: Version, m: Message)
    requires Defined(v, m) && FirstFailure(Checks(m)).None?
    ensures DecodeLines(Lines(v, m)) == Some((v, m))
  {
    hide Checks;
    var lines := Lines(v, m);
    HeaderReadsBack(v, KindOf(m));
    BuildReadsBack(m);
    hide Build;
    hide Values;
    hide Keys;
    hide Header;
    hide ReadHeader;
    assert lines[0] == Header(v, KindOf(m));
    ValuesReadBack(Keys(KindOf(m)), Values(m), lines[1..]);
  }

  /** Decoding an encoded message returns its version and every field. */
  lemma DecodeInvertsEncode(v: Version, m: Message)
    requires Defined(v, m) && Encode(v, m).Ok?
    ensures Decode(Encode(v, m).value) == Some((v, m))
  {
    hide Checks;
    LinesAreSingle(v, m);
    JoinThenSplit('\n', Lines(v, m));
    LinesReadBack(v, m);
  }

  lemma LinesOnlyFrom(lines: seq<string>)
    requires lines != [] && DecodeLines(lines).Some?
    ensures var (v, m) := DecodeLines(lines).value;
            Defined(v, m) && FirstFailure(Checks(m)).None? && lines == Lines(v, m)
  {
    hide Build;
    hide Values;
    hide Keys;
    hide Header;
    hide ReadHeader;
    hide Checks;
    var (v, k) := ReadHeader(lines[0]).value;
    var vs := ReadValues(Keys(k), lines[1..]).value;
    HeaderOnlyFrom(lines[0]);
    BuildOnlyFrom(k, vs);
    var m := Build(k, vs).value;
    var printed := Lines(v, m);
    forall i | 0 <= i < |lines| ensures lines[i] == printed[i] {
      if i > 0 { assert lines[i] == lines[1..][i - 1] == Keys(k)[i - 1] + vs[i - 1]; }
    }
  }

  /** The decoder accepts nothing but encoder output. */
  lemma DecodeOnlyFromEncode(s: string)
    requires Decode(s).Some?
    ensures var (v, m) := Decode(s).value; Defined(v, m) && Encode(v, m) == Ok(s)
  {
    LinesOnlyFrom(Split('\n', s));
    SplitThenJoin('\n', s);
  }

  /** Equal bytes mean the same version, the same message type and the same fields. */
  lemma EncodeInjective(v: Version, m: Message, w: Version, n: Message)
    requires Defined(v, m) && Defined(w, n) && Encode(v, m).Ok? && Encode(v, m) == Encode(w, n)
    ensures v == w && m == n
  {
    DecodeInvertsEncode(v, m);
    DecodeInvertsEncode(w, n);
  }
}
