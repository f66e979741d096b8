/** When a ledger holds the same key bytes twice: exactly when two of its texts differ in letter case only. */
module KeyRepetition {
  import opened Wrappers
  import opened Hex
  import opened KeyLedger
  import opened KeyTables
  import opened KeyRotation
  import opened KeyProvenance
  import AgentIds
  import Wire

  /** In every interleaving two rows hold the same key bytes iff their texts have the same digits. */
  lemma RepeatedKeysExactly(c: Config, states: seq<State>, steps: seq<Step>, i: nat, a: string, j: nat, k: nat)
    requires IsRun(c, states, steps) && i < |states| && a in states[i].tables.keys
    requires j < |states[i].tables.keys[a]| && k < |states[i].tables.keys[a]|
    ensures var rows := states[i].tables.keys[a];
            rows[j].publicKey == rows[k].publicKey <==> SameDigits(rows[j].hex, rows[k].hex)
  {
    hide IsRun;
    StoredKeysAreUsable(c, states, steps, i, a, j);
    StoredKeysAreUsable(c, states, steps, i, a, k);
    SameBytesIffSameDigits(states[i].tables.keys[a][j].hex, states[i].tables.keys[a][k].hex);
    hide Hex.Decode;
    hide SameDigits;
  }

  /**
   In every interleaving a committed rotation changed the key bytes iff the text it
   asked for differs from the text it read in more than letter case.
   */
  lemma CommitChangesKeyExactly(c: Config, states: seq<State>, steps: seq<Step>, i: nat, n: nat)
    requires IsRun(c, states, steps) && i < |states| && n < |states[i].commits|
    ensures var k := states[i].commits[n];
            var rows := RowsOf(states[i].tables.keys, k.rot.agent);
            && k.index + 1 < |rows|
            && (rows[k.index + 1].publicKey != rows[k.index].publicKey <==> !SameDigits(k.current.hex, k.rot.newHex))
  {
    RunKeepsInv(c, states, steps, i);
    hide IsRun;
    var k := states[i].commits[n];
    assert Authorised(c, states[i], k);
    hide SignedBy;
    hide DecodeExact;
    hide SameDigits;
    RepeatedKeysExactly(c, states, steps, i, k.rot.agent, k.index, k.index + 1);
  }

  // ---------- it happens ----------

  /** Every reading of the clock gave `at`. */
  predicate AllReadAt(steps: seq<Step>, at: int) {
    forall i | 0 <= i < |steps| && steps[i].ReadClock? :: steps[i].now == at
  }

  lemma Do(c: Config, states: seq<State>, steps: seq<Step>, step: Step, s': State) returns (ss: seq<State>, ts: seq<Step>)
    requires IsRun(c, states, steps) && Next(c, states[|steps|], step, s')
    ensures IsRun(c, ss, ts) && ts == steps + [step] && ss[|ts|] == s'
    ensures forall at | AllReadAt(steps, at) && (step.ReadClock? ==> step.now == at) :: AllReadAt(ts, at)
  {
    hide Next;
    ss, ts := states + [s'], steps + [step];
    forall i | 0 <= i < |ts| ensures Next(c, ss[i], ts[i], ss[i + 1]) {
      if i < |steps| { assert Next(c, states[i], steps[i], states[i + 1]); }
    }
  }

  lemma NothingRead(at: int)
    ensures AllReadAt([], at)
  {
  }

  /** A registration that passes every check goes through from the start. */
  lemma RunRegisters(c: Config, reg: RegisterRequest, key: seq<Byte>, nowUnix: int, at: int)
    returns (states: seq<State>, steps: seq<Step>)
    requires RegisterChecked(c, reg, key, nowUnix)
    ensures IsRun(c, states, steps) && AllReadAt(steps, at)
    ensures var s := states[|steps|];
            && s.tasks == map[0 := Done] && s.tables.rotationNonces == {} && s.commits == []
            && s.tables.keys == map[AgentIdFor(c, reg, key) := [KeyRow(Hex.Encode(key), key, at, None)]]
  {
    hide AgentIdFor;
    hide Hex.Encode;
    var decoded := DecodeExact(reg.publicKeyHex, 32);
    assert decoded == Some(key);
    hide DecodeExact;
    hide RegisterChecked;
    hide AllReadAt;
    states, steps := [Initial], [];
    assert AllReadAt(steps, at) by { NothingRead(at); }
    var s := Moved(Initial, 0, RegisterReady(reg, key));
    states, steps := Do(c, states, steps, Register(0, reg, nowUnix), s);
    s := Moved(s, 0, RegisterNonceUsed(reg, key)).(tables := s.tables.(registrationNonces := {reg.nonce}));
    states, steps := Do(c, states, steps, UseRegisterNonce(0), s);
    s := Moved(s, 0, RegisterTimed(reg, key, at));
    states, steps := Do(c, states, steps, ReadClock(0, at), s);
    InsertedExactly(s.tables, AgentIdFor(c, reg, key), key, at);
    s := Moved(s, 0, Done).(tables := AgentInserted(s.tables, AgentIdFor(c, reg, key), key, at).value,
                            registered := s.registered[AgentIdFor(c, reg, key) := reg]);
    states, steps := Do(c, states, steps, InsertAgent(0), s);
  }

  /** A rotation that passes every check and meets no rival commits. */
  lemma RunRotates(c: Config, states: seq<State>, steps: seq<Step>, rot: RotateRequest, newKey: seq<Byte>, current: KeyRow,
    nowUnix: int, at: int) returns (ss: seq<State>, ts: seq<Step>)
    requires IsRun(c, states, steps) && AllReadAt(steps, at) && 1 !in states[|steps|].tasks
    requires rot.nonce !in states[|steps|].tables.rotationNonces
    requires RotateChecked(c, rot, current, newKey, nowUnix)
    requires var rows := RowsOf(states[|steps|].tables.keys, rot.agent);
             rows != [] && CurrentKey(rows) == Some(current) && Rotate(rows, current.hex, rot.newHex, newKey, at).Ok?
    ensures IsRun(c, ss, ts) && AllReadAt(ts, at)
    ensures RowsOf(ss[|ts|].tables.keys, rot.agent)
            == Rotate(RowsOf(states[|steps|].tables.keys, rot.agent), current.hex, rot.newHex, newKey, at).value
  {
    hide RotateChecked;
    hide CurrentKey;
    hide Rotate;
    hide Next;
    hide AllReadAt;
    ss, ts := RunReadsClock(c, states, steps, rot, newKey, current, nowUnix, at);
    var s, rows := ss[|ts|], RowsOf(states[|steps|].tables.keys, rot.agent);
    var after := Rotate(rows, current.hex, rot.newHex, newKey, at).value;
    s := Moved(s, 1, Done).(tables := s.tables.(keys := s.tables.keys[rot.agent := after]),
                            commits := s.commits + [Commit(rot, current, |rows| - 1, at)]);
    ss, ts := CommitsAs(c, ss, ts, rot, newKey, current, at, rows, after, s);
  }

  lemma RunReadsClock(c: Config, states: seq<State>, steps: seq<Step>, rot: RotateRequest, newKey: seq<Byte>, current: KeyRow,
    nowUnix: int, at: int) returns (ss: seq<State>, ts: seq<Step>)
    requires IsRun(c, states, steps) && AllReadAt(steps, at) && 1 !in states[|steps|].tasks
    requires rot.nonce !in states[|steps|].tables.rotationNonces
    requires RotateChecked(c, rot, current, newKey, nowUnix)
    requires CurrentKey(RowsOf(states[|steps|].tables.keys, rot.agent)) == Some(current)
    ensures IsRun(c, ss, ts) && AllReadAt(ts, at)
    ensures var s := ss[|ts|];
            && s.tables.keys == states[|steps|].tables.keys
            && 1 in s.tasks && s.tasks[1] == RotateTimed(rot, newKey, current, at)
  {
    assert DecodeExact(rot.newHex, 32) == Some(newKey);
    hide RotateChecked;
    hide DecodeExact;
    hide CurrentKey;
    hide Rotated;
    hide IsRun;
    hide AllReadAt;
    var s := states[|steps|];
    s := Moved(s, 1, RotateReady(rot, newKey, current));
    ss, ts := Do(c, states, steps, ReadCurrent(1, rot, nowUnix), s);
    s := Moved(s, 1, RotateNonceUsed(rot, newKey, current))
         .(tables := s.tables.(rotationNonces := s.tables.rotationNonces + {rot.nonce}));
    ss, ts := Do(c, ss, ts, UseRotateNonce(1), s);
    s := Moved(s, 1, RotateTimed(rot, newKey, current, at));
    ss, ts := Do(c, ss, ts, ReadClock(1, at), s);
  }

  lemma CommitsAs(c: Config, states: seq<State>, steps: seq<Step>, rot: RotateRequest, newKey: seq<Byte>, current: KeyRow,
    at: int, rows: seq<KeyRow>, after: seq<KeyRow>, s': State) returns (ss: seq<State>, ts: seq<Step>)
    requires IsRun(c, states, steps) && AllReadAt(steps, at)
    requires var s := states[|steps|];
             && 1 in s.tasks && s.tasks[1] == RotateTimed(rot, newKey, current, at)
             && rows == RowsOf(s.tables.keys, rot.agent) && rows != []
             && Rotate(rows, current.hex, rot.newHex, newKey, at) == Ok(after)
             && s' == Moved(s, 1, Done).(tables := s.tables.(keys := s.tables.keys[rot.agent := after]),
                                         commits := s.commits + [Commit(rot, current, |rows| - 1, at)])
    ensures IsRun(c, ss, ts) && AllReadAt(ts, at) && ss[|ts|] == s'
  {
    hide Rotate;
    hide IsRun;
    ss, ts := Do(c, states, steps, CommitRotation(1), s');
  }

  lemma RotatesToSelf(rot: RotateRequest, key: seq<Byte>, current: KeyRow, at: int)
    requires current.publicKey == key && IsOpen(current) && current.hex != rot.newHex
    ensures CurrentKey([current]) == Some(current)
    ensures var r := Rotate([current], current.hex, rot.newHex, key, at);
            r.Ok? && |r.value| == 2 && r.value[0].publicKey == r.value[1].publicKey == key && r.value[1].hex == rot.newHex
  {
    assert Chain([current]);
    RotateExtendsChain([current], current.hex, rot.newHex, key, at);
    hide Rotate;
    hide Chain;
  }

  lemma OneReadingInOrder(steps: seq<Step>, at: int)
    requires AllReadAt(steps, at)
    ensures ReadingsInOrder(steps)
  {
  }

  /** Any rotation to the same key that passes the handler's checks commits: the ledger then holds the key twice. */
  lemma RunRepeatsKey(c: Config, reg: RegisterRequest, key: seq<Byte>, rot: RotateRequest, nowUnix: int, at: int)
    returns (states: seq<State>, steps: seq<Step>)
    requires RegisterChecked(c, reg, key, nowUnix) && rot.agent == AgentIdFor(c, reg, key)
    requires RotateChecked(c, rot, KeyRow(Hex.Encode(key), key, at, None), key, nowUnix)
    ensures IsRun(c, states, steps) && ReadingsInOrder(steps)
    ensures var rows := RowsOf(states[|steps|].tables.keys, rot.agent);
            |rows| == 2 && rows[0].publicKey == rows[1].publicKey == key && rows[1].hex == rot.newHex
  {
    states, steps := RunRegisters(c, reg, key, nowUnix, at);
    var current := KeyRow(Hex.Encode(key), key, at, None);
    assert rot.newHex != current.hex;
    hide AgentIdFor;
    hide Hex.Encode;
    hide IsRun;
    hide RegisterChecked;
    hide RotateChecked;
    hide AllReadAt;
    RotatesToSelf(rot, key, current, at);
    hide Rotate;
    hide CurrentKey;
    states, steps := RunRotates(c, states, steps, rot, key, current, nowUnix, at);
    OneReadingInOrder(steps, at);
  }

  function Repeated(c: char, n: nat): (s: string)
    ensures |s| == n && forall x | x in s :: x == c
  {
    seq(n, _ => c)
  }

  function SameBytes(b: Byte, n: nat): (s: seq<Byte>)
    ensures |s| == n && forall i | 0 <= i < n :: s[i] == b
  {
    seq(n, _ => b)
  }

  lemma {:induction false} DecodeRepeated(c: char, n: nat)
    requires DigitOf(c).Some?
    ensures Hex.Decode(Repeated(c, 2 * n)) == Some(SameBytes(17 * DigitOf(c).value, n))
  {
    var s := Repeated(c, 2 * n);
    if n > 0 {
      DecodeRepeated(c, n - 1);
      assert s[2..] == Repeated(c, 2 * (n - 1));
      var b: Byte := 17 * DigitOf(c).value;
      assert SameBytes(b, n) == [b] + SameBytes(b, n - 1);
    }
  }

  lemma {:induction false} EncodeRepeated(n: nat)
    ensures Hex.Encode(SameBytes(0xaa, n)) == Repeated('a', 2 * n)
  {
    var bytes := SameBytes(0xaa, n);
    if n > 0 {
      EncodeRepeated(n - 1);
      assert bytes[1..] == SameBytes(0xaa, n - 1);
      assert Repeated('a', 2 * n) == ['a', 'a'] + Repeated('a', 2 * (n - 1));
    }
  }

  /** When every signature verifies, well-formed requests pass all checks. */
  lemma RegisterPasses(c: Config, reg: RegisterRequest, key: seq<Byte>)
    requires c.isKey(key) && forall text, signature :: c.verifies(key, text, signature)
    requires ValidLabel(reg.org) && ValidLabel(reg.name) && Wire.ValidNonce(reg.nonce) && Wire.AsciiLine(reg.publicKeyHex)
    requires DecodeExact(reg.publicKeyHex, 32) == Some(key) && DecodeExact(reg.signatureHex, 64).Some?
    ensures RegisterChecked(c, reg, key, reg.issuedAt)
  {
    hide DecodeExact;
    var m := Wire.Register(reg.publicKeyHex, reg.org, reg.name, reg.nonce, reg.issuedAt);
    assert Wire.AsciiLine(reg.org) && Wire.AsciiLine(reg.name);
    Wire.PrintedAreLines(m);
    hide Wire.OptionalLine;
    hide Wire.ValidNonce;
    assert Wire.Acceptable(m);
    Wire.EncodesExactlyAcceptable(Wire.V1, m);
    hide Wire.Encode;
  }

  lemma RotatePasses(c: Config, rot: RotateRequest, current: KeyRow, newKey: seq<Byte>)
    requires c.isKey(current.publicKey) && c.isKey(newKey)
    requires forall text, signature :: c.verifies(current.publicKey, text, signature)
    requires AgentIds.ValidAgentId(rot.agent) && Wire.ValidNonce(rot.nonce)
    requires Wire.AsciiLine(current.hex) && Wire.AsciiLine(rot.newHex) && current.hex != rot.newHex
    requires |current.publicKey| == 32 && DecodeExact(rot.newHex, 32) == Some(newKey) && DecodeExact(rot.signatureHex, 64).Some?
    ensures RotateChecked(c, rot, current, newKey, rot.issuedAt)
  {
    hide DecodeExact;
    var m := Wire.RotateKey(rot.agent, current.hex, rot.newHex, rot.nonce, rot.issuedAt);
    assert Wire.AsciiLine(rot.agent);
    Wire.PrintedAreLines(m);
    hide Wire.OptionalLine;
    hide Wire.ValidNonce;
    hide AgentIds.ValidAgentId;
    assert Wire.Acceptable(m);
    Wire.EncodesExactlyAcceptable(Wire.V1, m);
    hide Wire.Encode;
  }

  lemma ExactRepeated(c: char, n: nat)
    requires DigitOf(c).Some? && c < '\U{80}' && n > 0
    ensures DecodeExact(Repeated(c, 2 * n), n) == Some(SameBytes(17 * DigitOf(c).value, n))
    ensures Wire.AsciiLine(Repeated(c, 2 * n)) && Repeated(c, 2 * n)[0] == c
  {
    DecodeRepeated(c, n);
    hide Hex.Decode;
  }

  lemma SampleFields()
    ensures ValidLabel("o") && ValidLabel("n") && AgentIds.ValidAgentId("spize:o/n:f")
    ensures Wire.ValidNonce(Repeated('0', 32)) && DecodeExact(Repeated('0', 128), 64).Some?
  {
    assert "spize:o/n:f"[5] == ':';
    ExactRepeated('0', 64);
    hide DecodeExact;
  }

  /** Both spellings of the key are hex lines for it, and the lower-case one is what registration stores. */
  lemma SampleKey()
    ensures var key, lower, upper := SameBytes(0xaa, 32), Repeated('a', 64), Repeated('A', 64);
            && DecodeExact(lower, 32) == Some(key) && DecodeExact(upper, 32) == Some(key) && Hex.Encode(key) == lower
            && Wire.AsciiLine(lower) && Wire.AsciiLine(upper) && lower != upper
  {
    ExactRepeated('a', 32);
    ExactRepeated('A', 32);
    EncodeRepeated(32);
    hide DecodeExact;
    hide Hex.Encode;
    hide Wire.AsciiLine;
    assert Repeated('a', 64)[0] != Repeated('A', 64)[0];
  }

  lemma SampleAgent(c: Config, reg: RegisterRequest, key: seq<Byte>)
    requires reg.org == "o" && reg.name == "n" && c.fingerprint(key) == "f"
    ensures AgentIdFor(c, reg, key) == "spize:o/n:f"
  {
  }

  /** The key of 32 bytes 0xaa, registered in lower case and rotated to in upper case. */
  lemma UpperCaseRequestsPass() returns (c: Config, reg: RegisterRequest, key: seq<Byte>, rot: RotateRequest)
    ensures RegisterChecked(c, reg, key, 0) && rot.agent == AgentIdFor(c, reg, key)
    ensures RotateChecked(c, rot, KeyRow(Hex.Encode(key), key, 0, None), key, 0)
  {
    hide DecodeExact;
    hide Hex.Encode;
    hide Repeated;
    hide SameBytes;
    hide ValidLabel;
    hide AgentIds.ValidAgentId;
    hide Wire.ValidNonce;
    hide Wire.AsciiLine;
    hide AgentIdFor;
    hide RegisterChecked;
    hide RotateChecked;
    SampleFields();
    SampleKey();
    c := Config(_ => true, (_, _, _) => true, _ => "f");
    key := SameBytes(0xaa, 32);
    var nonce, signature := Repeated('0', 32), Repeated('0', 128);
    reg := RegisterRequest(Repeated('a', 64), "o", "n", nonce, 0, signature);
    RegisterPasses(c, reg, key);
    SampleAgent(c, reg, key);
    rot := RotateRequest(AgentIdFor(c, reg, key), Repeated('A', 64), nonce, 0, signature);
    RotatePasses(c, rot, KeyRow(Hex.Encode(key), key, 0, None), key);
  }

  /** So the handlers do let the input in: a run from the start whose ledger holds one key twice. */
  lemma UpperCaseRotationRepeatsKey() returns (c: Config, states: seq<State>, steps: seq<Step>, a: string)
    ensures IsRun(c, states, steps) && ReadingsInOrder(steps)
    ensures var rows := RowsOf(states[|steps|].tables.keys, a);
            |rows| == 2 && rows[0].publicKey == rows[1].publicKey
  {
    hide RegisterChecked;
    hide RotateChecked;
    hide AgentIdFor;
    hide IsRun;
    hide ReadingsInOrder;
    var cfg, reg, key, rot := UpperCaseRequestsPass();
    c := cfg;
    states, steps := RunRepeatsKey(c, reg, key, rot, 0, 0);
    a := rot.agent;
  }
}
