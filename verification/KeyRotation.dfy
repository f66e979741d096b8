/** The key ledger of an agent: rotation as compare-and-swap, and which keys are valid when. */
module KeyLedger {
  import opened Wrappers
  import opened Hex

  /** Times are microseconds, the precision of the stored timestamps. */
  const ROTATION_GRACE := 24 * 60 * 60 * 1_000_000

  datatype KeyRow = KeyRow(hex: string, publicKey: seq<Byte>, validFrom: int, validTo: Option<int>)

  datatype DbError = RowNotFound | UniqueViolation(constraint: string)

  predicate IsOpen(row: KeyRow) { row.validTo.None? }

  /** The rows the closing update selects. */
  predicate Matches(row: KeyRow, hex: string) { row.hex == hex && IsOpen(row) }

  function Close(row: KeyRow, hex: string, at: int): KeyRow {
    if Matches(row, hex) then row.(validTo := Some(at)) else row
  }

  function CloseAll(rows: seq<KeyRow>, hex: string, at: int): seq<KeyRow> {
    seq(|rows|, i requires 0 <= i < |rows| => Close(rows[i], hex, at))
  }

  /** The rotation transaction on the rows of one agent; an error leaves them as they were. */
  function Rotate(rows: seq<KeyRow>, expected: string, newHex: string, newKey: seq<Byte>, now: int)
    : Result<seq<KeyRow>, DbError>
  {
    if !exists i | 0 <= i < |rows| :: Matches(rows[i], expected) then Err(RowNotFound)
    else
      var closed := CloseAll(rows, expected, now + ROTATION_GRACE);
      if exists i | 0 <= i < |closed| :: closed[i].hex == newHex then Err(UniqueViolation("agent_key"))
      else if exists i | 0 <= i < |closed| :: IsOpen(closed[i]) then Err(UniqueViolation("active_key_race"))
      else Ok(closed + [KeyRow(newHex, newKey, now, None)])
  }

  /** The current key: the row without an end. */
  function CurrentKey(rows: seq<KeyRow>): (r: Option<KeyRow>)
    ensures r.Some? ==> r.value in rows && IsOpen(r.value)
    ensures r.None? ==> forall row | row in rows :: !IsOpen(row)
  {
    if rows == [] then None else if IsOpen(rows[0]) then Some(rows[0]) else CurrentKey(rows[1..])
  }

  // ---------- the chain of keys ----------

  /** Keys in order, each closed 24 hours after its successor starts, the last one open, no key twice. */
  ghost predicate Chain(rows: seq<KeyRow>) {
    && rows != []
    && IsOpen(rows[|rows| - 1])
    && (forall i | 0 <= i < |rows| - 1 :: rows[i].validTo == Some(rows[i + 1].validFrom + ROTATION_GRACE))
    && (forall i, j | 0 <= i < j < |rows| :: rows[i].hex != rows[j].hex)
  }

  lemma ChainCurrent(rows: seq<KeyRow>)
    requires Chain(rows)
    ensures CurrentKey(rows) == Some(rows[|rows| - 1])
    ensures forall i | 0 <= i < |rows| :: IsOpen(rows[i]) <==> i == |rows| - 1
  {
    hide CurrentKey;
    var last := |rows| - 1;
    forall i | 0 <= i < last ensures !IsOpen(rows[i]) {
      assert rows[i].validTo == Some(rows[i + 1].validFrom + ROTATION_GRACE);
    }
    hide Chain;
    assert rows[last] in rows;
    var i :| 0 <= i < |rows| && rows[i] == CurrentKey(rows).value;
  }

  /**
   On a chain the swap succeeds exactly when the expected key is still the newest
   and the new key is new; it closes that key alone and extends the chain.
   */
  lemma RotateExtendsChain(rows: seq<KeyRow>, expected: string, newHex: string, newKey: seq<Byte>, now: int)
    requires Chain(rows)
    ensures var last := |rows| - 1;
            var r := Rotate(rows, expected, newHex, newKey, now);
            && (r.Ok? <==> rows[last].hex == expected && forall i | 0 <= i < |rows| :: rows[i].hex != newHex)
            && (r.Ok? ==> && r.value == rows[..last] + [rows[last].(validTo := Some(now + 86_400_000_000))]
                                        + [KeyRow(newHex, newKey, now, None)]
                          && Chain(r.value))
            && (r.Err? ==> r.error == if rows[last].hex != expected then RowNotFound else UniqueViolation("agent_key"))
  {
    ChainCurrent(rows);
    var last := |rows| - 1;
    if rows[last].hex == expected {
      assert Matches(rows[last], expected);
      var closed := CloseAll(rows, expected, now + ROTATION_GRACE);
      assert closed == rows[..last] + [rows[last].(validTo := Some(now + ROTATION_GRACE))];
      assert |closed| == |rows| && forall i | 0 <= i < |rows| :: closed[i].hex == rows[i].hex;
      if forall i | 0 <= i < |rows| :: rows[i].hex != newHex {
        ExtendedChain(rows, newHex, newKey, now);
      }
    }
  }

  lemma ExtendedChain(rows: seq<KeyRow>, newHex: string, newKey: seq<Byte>, now: int)
    requires Chain(rows) && forall i | 0 <= i < |rows| :: rows[i].hex != newHex
    ensures var last := |rows| - 1;
            Chain(rows[..last] + [rows[last].(validTo := Some(now + ROTATION_GRACE))] + [KeyRow(newHex, newKey, now, None)])
  {
    var last := |rows| - 1;
    var r := rows[..last] + [rows[last].(validTo := Some(now + ROTATION_GRACE))] + [KeyRow(newHex, newKey, now, None)];
    assert forall i | 0 <= i < |rows| :: r[i].hex == rows[i].hex && r[i].validFrom == rows[i].validFrom;
  }

  // ---------- keys as bytes ----------

  /** Every row's text stands for its bytes. */
  predicate RowsDecode(rows: seq<KeyRow>) {
    forall i | 0 <= i < |rows| :: Hex.Decode(rows[i].hex) == Some(rows[i].publicKey)
  }

  /**
   Keys are compared as text. A committed rotation brings in bytes the ledger already
   holds exactly when the new text agrees with an old one digit by digit.
   */
  lemma RotationRepeatsExactly(rows: seq<KeyRow>, expected: string, newHex: string, newKey: seq<Byte>, now: int, i: nat)
    requires Chain(rows) && RowsDecode(rows) && Hex.Decode(newHex) == Some(newKey) && i < |rows|
    requires Rotate(rows, expected, newHex, newKey, now).Ok?
    ensures var rows' := Rotate(rows, expected, newHex, newKey, now).value;
            && |rows'| == |rows| + 1 && RowsDecode(rows')
            && (rows'[|rows|].publicKey == rows'[i].publicKey <==> SameDigits(rows[i].hex, newHex))
  {
    RotateExtendsChain(rows, expected, newHex, newKey, now);
    SameBytesIffSameDigits(rows[i].hex, newHex);
    hide Chain;
    hide Rotate;
    hide Hex.Decode;
    hide SameDigits;
  }

  /** So rotating to the current key written with other letter cases commits. */
  lemma SameKeyInOtherCase(rows: seq<KeyRow>, newHex: string, newKey: seq<Byte>, now: int)
    requires Chain(rows) && RowsDecode(rows) && Hex.Decode(newHex) == Some(newKey)
    requires SameDigits(rows[|rows| - 1].hex, newHex) && forall i | 0 <= i < |rows| :: rows[i].hex != newHex
    ensures var r := Rotate(rows, rows[|rows| - 1].hex, newHex, newKey, now);
            r.Ok? && |r.value| == |rows| + 1 && r.value[|rows|].publicKey == r.value[|rows| - 1].publicKey
  {
    RotateExtendsChain(rows, rows[|rows| - 1].hex, newHex, newKey, now);
    hide Chain;
    hide Rotate;
    hide RowsDecode;
    RotationRepeatsExactly(rows, rows[|rows| - 1].hex, newHex, newKey, now, |rows| - 1);
  }

  // ---------- validity windows ----------

  predicate ValidAt(row: KeyRow, t: int) {
    row.validFrom <= t && (row.validTo.None? || row.validTo.value > t)
  }

  /** Whatever the clock did, some key is valid at every time from the first start on. */
  lemma SomeKeyAlwaysValid(rows: seq<KeyRow>, t: int)
    requires Chain(rows) && rows[0].validFrom <= t
    ensures exists i | 0 <= i < |rows| :: ValidAt(rows[i], t)
  {
    var i := NewestStarted(rows, t, |rows|);
    if i + 1 < |rows| {
      assert rows[i].validTo == Some(rows[i + 1].validFrom + ROTATION_GRACE) && rows[i + 1].validFrom > t;
    }
    assert ValidAt(rows[i], t);
  }

  /** The last row among the first `n` that started by `t`. */
  lemma {:induction false} NewestStarted(rows: seq<KeyRow>, t: int, n: nat) returns (i: nat)
    requires 0 < n <= |rows| && rows[0].validFrom <= t
    ensures i < n && rows[i].validFrom <= t && forall j | i < j < n :: rows[j].validFrom > t
  {
    if rows[n - 1].validFrom <= t { i := n - 1; } else { i := NewestStarted(rows, t, n - 1); }
  }

  ghost predicate StartsInOrder(rows: seq<KeyRow>) {
    forall i, j | 0 <= i < j < |rows| :: rows[i].validFrom <= rows[j].validFrom
  }

  predicate IsNewest(rows: seq<KeyRow>, t: int, i: nat)
    requires i < |rows|
  {
    rows[i].validFrom <= t && (i + 1 < |rows| ==> rows[i + 1].validFrom > t)
  }

  predicate InGrace(rows: seq<KeyRow>, t: int, i: nat)
    requires i < |rows|
  {
    i + 1 < |rows| && t - 86_400_000_000 < rows[i + 1].validFrom <= t
  }

  /** With a clock that never steps back: the newest key, and those superseded within the last 24 hours. */
  lemma ValidKeysExactly(rows: seq<KeyRow>, t: int, i: nat)
    requires Chain(rows) && StartsInOrder(rows) && i < |rows|
    ensures ValidAt(rows[i], t) <==> IsNewest(rows, t, i) || InGrace(rows, t, i)
  {
  }

  /** So the number of valid keys is one plus the number of rotations in the last 24 hours. */
  lemma ValidKeyCount(rows: seq<KeyRow>, t: int)
    requires Chain(rows) && StartsInOrder(rows) && rows[0].validFrom <= t
    ensures |set i: nat | i < |rows| && ValidAt(rows[i], t)| == 1 + |set i: nat | i < |rows| && InGrace(rows, t, i)|
  {
    var newest := NewestStarted(rows, t, |rows|);
    var valid := set i: nat | i < |rows| && ValidAt(rows[i], t);
    var grace := set i: nat | i < |rows| && InGrace(rows, t, i);
    forall i: nat | i < |rows| ensures i in valid <==> i == newest || i in grace {
      ValidKeysExactly(rows, t, i);
    }
    assert valid == grace + {newest};
  }

  // ---------- verification under the valid keys ----------

  /** `verifies(key, message, signature)`; false when the key bytes are no curve point. */
  type Verifier = (seq<Byte>, string, seq<Byte>) -> bool

  datatype VerifyError = SignatureLength | NoActiveKey | NotVerified

  predicate KeyAccepts(v: Verifier, row: KeyRow, text: string, signature: seq<Byte>) {
    |row.publicKey| == 32 && v(row.publicKey, text, signature)
  }

  /** All valid rows, newest start first. */
  method ValidKeysAt(rows: seq<KeyRow>, t: int) returns (r: seq<KeyRow>)
    ensures forall row :: row in r <==> row in rows && ValidAt(row, t)
    ensures forall i, j | 0 <= i < j < |r| :: r[i].validFrom >= r[j].validFrom
    ensures |r| <= |rows|
  {
    r := [];
    for n := 0 to |rows|
      invariant |r| <= n
      invariant forall row :: row in r <==> row in rows[..n] && ValidAt(row, t)
      invariant forall i, j | 0 <= i < j < |r| :: r[i].validFrom >= r[j].validFrom
    {
      assert rows[..n + 1] == rows[..n] + [rows[n]];
      if ValidAt(rows[n], t) {
        r := InsertNewestFirst(r, rows[n]);
      }
    }
    assert rows[..|rows|] == rows;
  }

  method InsertNewestFirst(rows: seq<KeyRow>, row: KeyRow) returns (r: seq<KeyRow>)
    requires forall i, j | 0 <= i < j < |rows| :: rows[i].validFrom >= rows[j].validFrom
    ensures forall x :: x in r <==> x in rows || x == row
    ensures forall i, j | 0 <= i < j < |r| :: r[i].validFrom >= r[j].validFrom
    ensures |r| == |rows| + 1
  {
    var k := 0;
    while k < |rows| && rows[k].validFrom >= row.validFrom
      invariant 0 <= k <= |rows|
      invariant forall i | 0 <= i < k :: rows[i].validFrom >= row.validFrom
    {
      k := k + 1;
    }
    assert rows == rows[..k] + rows[k..];
    r := rows[..k] + [row] + rows[k..];
  }

  /** Accepts exactly the signatures of keys valid at `t`, in whatever order they are tried. */
  method VerifyWithValidKeys(v: Verifier, rows: seq<KeyRow>, t: int, text: string, signature: seq<Byte>)
    returns (r: Result<(), VerifyError>)
    ensures r.Ok? <==> |signature| == 64 && exists row | row in rows ::
              && row.validFrom <= t && (row.validTo.None? || t < row.validTo.value)
              && |row.publicKey| == 32 && v(row.publicKey, text, signature)
    ensures r == Err(SignatureLength) <==> |signature| != 64
    ensures r == Err(NoActiveKey) <==> |signature| == 64 && forall row | row in rows :: !ValidAt(row, t)
  {
    if |signature| != 64 { return Err(SignatureLength); }
    var candidates := ValidKeysAt(rows, t);
    if candidates == [] {
      assert forall row | row in rows :: ValidAt(row, t) ==> row in candidates;
      return Err(NoActiveKey);
    }
    assert candidates[0] in candidates;
    for n := 0 to |candidates|
      invariant forall i | 0 <= i < n :: !KeyAccepts(v, candidates[i], text, signature)
    {
      assert candidates[n] in candidates;
      if |candidates[n].publicKey| == 32 && v(candidates[n].publicKey, text, signature) {
        return Ok(());
      }
    }
    r := Err(NotVerified);
  }

  /** For a chain with starts in order, acceptance in terms of rotations alone. */
  lemma AcceptedKeysExactly(v: Verifier, rows: seq<KeyRow>, t: int, text: string, signature: seq<Byte>)
    requires Chain(rows) && StartsInOrder(rows)
    ensures (exists row | row in rows :: ValidAt(row, t) && KeyAccepts(v, row, text, signature)) <==>
            (exists i: nat | i < |rows| ::
               (IsNewest(rows, t, i) || InGrace(rows, t, i)) && KeyAccepts(v, rows[i], text, signature))
  {
    forall i: nat | i < |rows|
      ensures rows[i] in rows && (ValidAt(rows[i], t) <==> IsNewest(rows, t, i) || InGrace(rows, t, i))
    {
      ValidKeysExactly(rows, t, i);
    }
  }
}

/** The tables behind registration and rotation, and the statements that change them. */
module KeyTables {
  import opened Wrappers
  import opened Hex
  import opened KeyLedger

  datatype Tables = Tables(
    agents: map<string, seq<Byte>>, keys: map<string, seq<KeyRow>>,
    registrationNonces: set<string>, rotationNonces: set<string>)

  function RowsOf(keys: map<string, seq<KeyRow>>, agent: string): seq<KeyRow> {
    if agent in keys then keys[agent] else []
  }

  /** The constraint an insertion into the ledger `rows` of one agent violates, if any. */
  function LedgerConflict(rows: seq<KeyRow>, hex: string): Option<DbError> {
    if exists i | 0 <= i < |rows| :: rows[i].hex == hex then Some(UniqueViolation("agent_key"))
    else if exists i | 0 <= i < |rows| :: IsOpen(rows[i]) then Some(UniqueViolation("active_key_race"))
    else None
  }

  /** The registration transaction; an error leaves the tables as they were. */
  function AgentInserted(s: Tables, agent: string, key: seq<Byte>, createdAt: int): Result<Tables, DbError> {
    if agent in s.agents then Err(UniqueViolation("agent_id"))
    else if key in s.agents.Values then Err(UniqueViolation("public_key"))
    else
      var rows := RowsOf(s.keys, agent);
      match LedgerConflict(rows, Hex.Encode(key))
      case Some(error) => Err(error)
      case None => Ok(s.(agents := s.agents[agent := key],
                         keys := s.keys[agent := rows + [KeyRow(Hex.Encode(key), key, createdAt, None)]]))
  }

  /** While agents and ledgers have the same keys, a new agent's ledger starts with its one open key. */
  lemma InsertedExactly(s: Tables, agent: string, key: seq<Byte>, createdAt: int)
    requires s.keys.Keys == s.agents.Keys
    ensures var r := AgentInserted(s, agent, key, createdAt);
            && (r.Ok? <==> agent !in s.agents && key !in s.agents.Values)
            && (r.Err? ==> r.error == UniqueViolation(if agent in s.agents then "agent_id" else "public_key"))
            && (r.Ok? ==> r.value == s.(agents := s.agents[agent := key],
                                        keys := s.keys[agent := [KeyRow(Hex.Encode(key), key, createdAt, None)]]))
  {
    hide Hex.Encode;
    if agent !in s.agents {
      var row := KeyRow(Hex.Encode(key), key, createdAt, None);
      assert RowsOf(s.keys, agent) == [] && [] + [row] == [row];
    }
  }

  function Rotated(s: Tables, agent: string, expected: string, newHex: string, newKey: seq<Byte>, now: int)
    : Result<Tables, DbError>
  {
    match Rotate(RowsOf(s.keys, agent), expected, newHex, newKey, now)
    case Ok(rows) => Ok(s.(keys := s.keys[agent := rows]))
    case Err(error) => Err(error)
  }

  class Database {
    var tables: Tables

    constructor ()
      ensures tables == Tables(map[], map[], {}, {})
    {
      tables := Tables(map[], map[], {}, {});
    }

    method ConsumeRotateNonce(nonce: string) returns (fresh_: bool)
      modifies this
      ensures fresh_ <==> nonce !in old(tables).rotationNonces
      ensures tables == old(tables).(rotationNonces := old(tables).rotationNonces + {nonce})
    {
      fresh_ := nonce !in tables.rotationNonces;
      tables := tables.(rotationNonces := tables.rotationNonces + {nonce});
    }

    /**
     Two inserts in one transaction: when the second fails the first is rolled back, so
     agents and ledgers never come apart, and an agent comes with one open key.
     */
    method InsertAgent(agent: string, key: seq<Byte>, createdAt: int) returns (r: Result<(), DbError>)
      modifies this
      ensures match AgentInserted(old(tables), agent, key, createdAt)
              case Ok(s) => tables == s && r == Ok(())
              case Err(error) => tables == old(tables) && r == Err(error)
      ensures old(tables).keys.Keys == old(tables).agents.Keys ==>
                && tables.keys.Keys == tables.agents.Keys
                && (r.Ok? <==> agent !in old(tables).agents && key !in old(tables).agents.Values)
                && (r.Ok? ==> && tables.agents == old(tables).agents[agent := key]
                              && tables.keys[agent] == [KeyRow(Hex.Encode(key), key, createdAt, None)]
                              && tables.keys - {agent} == old(tables).keys)
    {
      hide Hex.Encode;
      var begun := tables;
      if begun.keys.Keys == begun.agents.Keys { InsertedExactly(begun, agent, key, createdAt); }
      var inserted := InsertAgentRow(agent, key);
      if inserted.Err? { return inserted; }
      r := InsertKeyRow(agent, KeyRow(Hex.Encode(key), key, createdAt, None));
      if r.Err? { tables := begun; }
    }

    method InsertAgentRow(agent: string, key: seq<Byte>) returns (r: Result<(), DbError>)
      modifies this
      ensures r == if agent in old(tables).agents then Err(UniqueViolation("agent_id"))
                   else if key in old(tables).agents.Values then Err(UniqueViolation("public_key")) else Ok(())
      ensures tables == if r.Ok? then old(tables).(agents := old(tables).agents[agent := key]) else old(tables)
    {
      if agent in tables.agents { return Err(UniqueViolation("agent_id")); }
      if key in tables.agents.Values { return Err(UniqueViolation("public_key")); }
      tables := tables.(agents := tables.agents[agent := key]);
      r := Ok(());
    }

    method InsertKeyRow(agent: string, row: KeyRow) returns (r: Result<(), DbError>)
      requires IsOpen(row)
      modifies this
      ensures match LedgerConflict(RowsOf(old(tables).keys, agent), row.hex)
              case Some(error) => r == Err(error) && tables == old(tables)
              case None =>
                && r == Ok(())
                && tables == old(tables).(keys := old(tables).keys[agent := RowsOf(old(tables).keys, agent) + [row]])
    {
      var rows := RowsOf(tables.keys, agent);
      if exists i | 0 <= i < |rows| :: rows[i].hex == row.hex { return Err(UniqueViolation("agent_key")); }
      if exists i | 0 <= i < |rows| :: IsOpen(rows[i]) { return Err(UniqueViolation("active_key_race")); }
      tables := tables.(keys := tables.keys[agent := rows + [row]]);
      r := Ok(());
    }

    /** Update, count, insert: committed as a whole or not at all. */
    method InsertRotation(agent: string, expected: string, newHex: string, newKey: seq<Byte>, now: int)
      returns (r: Result<KeyRow, DbError>)
      modifies this
      ensures match Rotated(old(tables), agent, expected, newHex, newKey, now)
              case Ok(s) => tables == s && r == Ok(KeyRow(newHex, newKey, now, None))
              case Err(error) => tables == old(tables) && r == Err(error)
    {
      var begun := tables;
      var rows := RowsOf(tables.keys, agent);
      var closed, after := CloseMatching(rows, expected, now + ROTATION_GRACE);
      if closed == 0 { return Err(RowNotFound); }
      tables := tables.(keys := tables.keys[agent := after]);
      var row := KeyRow(newHex, newKey, now, None);
      var inserted := InsertKeyRow(agent, row);
      if inserted.Err? {
        tables := begun;
        return Err(inserted.error);
      }
      r := Ok(row);
    }
  }

  method CloseMatching(rows: seq<KeyRow>, hex: string, at: int) returns (closed: nat, after: seq<KeyRow>)
    ensures after == CloseAll(rows, hex, at)
    ensures closed == 0 <==> !exists i | 0 <= i < |rows| :: Matches(rows[i], hex)
  {
    closed, after := 0, [];
    for n := 0 to |rows|
      invariant |after| == n && forall i | 0 <= i < n :: after[i] == Close(rows[i], hex, at)
      invariant closed == 0 <==> forall i | 0 <= i < n :: !Matches(rows[i], hex)
    {
      if Matches(rows[n], hex) { closed := closed + 1; }
      after := after + [Close(rows[n], hex, at)];
    }
  }
}

/** Registration and rotation requests as interleaved steps over the shared tables. */
module KeyRotation {
  import opened Wrappers
  import opened Hex
  import opened KeyLedger
  import opened KeyTables
  import AgentIds
  import Wire

  const MAX_CLOCK_SKEW_SECS := 300
  const MAX_LABEL_LEN := 64

  datatype RegisterRequest = RegisterRequest(
    publicKeyHex: string, org: string, name: string, nonce: string, issuedAt: Wire.I64, signatureHex: string)

  datatype RotateRequest = RotateRequest(
    agent: string, newHex: string, nonce: string, issuedAt: Wire.I64, signatureHex: string)

  /** Foreign code: curve points, signatures, and the fingerprint in an agent id. */
  datatype Config = Config(
    isKey: seq<Byte> -> bool, verifies: Verifier, fingerprint: seq<Byte> -> string)

  predicate ValidLabel(s: string) {
    0 < |s| <= MAX_LABEL_LEN
    && forall c | c in s :: 'a' <= c <= 'z' || 'A' <= c <= 'Z' || '0' <= c <= '9' || c == '-' || c == '_'
  }

  predicate WithinSkew(nowUnix: int, issuedAt: int) {
    -MAX_CLOCK_SKEW_SECS <= nowUnix - issuedAt <= MAX_CLOCK_SKEW_SECS
  }

  function AgentIdFor(c: Config, r: RegisterRequest, key: seq<Byte>): string {
    "spize:" + r.org + "/" + r.name + ":" + c.fingerprint(key)
  }

  /** The checks of `register` up to and including the signature. */
  predicate RegisterChecked(c: Config, r: RegisterRequest, key: seq<Byte>, nowUnix: int) {
    && ValidLabel(r.org) && ValidLabel(r.name) && Wire.ValidNonce(r.nonce)
    && DecodeExact(r.publicKeyHex, 32) == Some(key) && DecodeExact(r.signatureHex, 64).Some?
    && WithinSkew(nowUnix, r.issuedAt)
    && var text := Wire.Encode(Wire.V1, Wire.Register(r.publicKeyHex, r.org, r.name, r.nonce, r.issuedAt));
       text.Ok? && c.isKey(key) && c.verifies(key, text.value, DecodeExact(r.signatureHex, 64).value)
  }

  /** The request carries a signature by `current` over the challenge naming it and the new key. */
  predicate SignedBy(c: Config, r: RotateRequest, current: KeyRow) {
    var text := Wire.Encode(Wire.V1, Wire.RotateKey(r.agent, current.hex, r.newHex, r.nonce, r.issuedAt));
    var signature := DecodeExact(r.signatureHex, 64);
    text.Ok? && signature.Some? && c.verifies(current.publicKey, text.value, signature.value)
  }

  /** The checks of `rotate_key` up to and including the new key's own. */
  predicate RotateChecked(c: Config, r: RotateRequest, current: KeyRow, newKey: seq<Byte>, nowUnix: int) {
    && AgentIds.ValidAgentId(r.agent) && Wire.ValidNonce(r.nonce)
    && DecodeExact(r.newHex, 32) == Some(newKey)
    && WithinSkew(nowUnix, r.issuedAt)
    && current.hex != r.newHex
    && |current.publicKey| == 32 && c.isKey(current.publicKey)
    && SignedBy(c, r, current)
    && c.isKey(newKey)
  }

  /** Where a request stands between two database statements. */
  datatype Task =
    | RegisterReady(reg: RegisterRequest, key: seq<Byte>)
    | RegisterNonceUsed(reg: RegisterRequest, key: seq<Byte>)
    | RegisterTimed(reg: RegisterRequest, key: seq<Byte>, now: int)
    | RotateReady(rot: RotateRequest, newKey: seq<Byte>, current: KeyRow)
    | RotateNonceUsed(rot: RotateRequest, newKey: seq<Byte>, current: KeyRow)
    | RotateTimed(rot: RotateRequest, newKey: seq<Byte>, current: KeyRow, now: int)
    | Done

  predicate Rotating(task: Task) { task.RotateReady? || task.RotateNonceUsed? || task.RotateTimed? }

  /** A committed rotation: the key at `index` of the agent's ledger was closed. */
  datatype Commit = Commit(rot: RotateRequest, current: KeyRow, index: nat, now: int)

  /** `commits` and `registered` are history: every rotation, and the request behind every agent. */
  datatype State = State(
    tables: Tables, tasks: map<nat, Task>, commits: seq<Commit>, registered: map<string, RegisterRequest>)

  datatype Step =
    | Register(t: nat, reg: RegisterRequest, nowUnix: int)
    | UseRegisterNonce(t: nat)
    | ReadClock(t: nat, now: int)
    | InsertAgent(t: nat)
    | ReadCurrent(t: nat, rot: RotateRequest, nowUnix: int)
    | UseRotateNonce(t: nat)
    | CommitRotation(t: nat)

  function Moved(s: State, t: nat, task: Task): State { s.(tasks := s.tasks[t := task]) }

  ghost predicate Next(c: Config, s: State, step: Step, s': State) {
    match step
    case Register(t, reg, nowUnix) =>
      && t !in s.tasks
      && var key := DecodeExact(reg.publicKeyHex, 32);
         if key.Some? && RegisterChecked(c, reg, key.value, nowUnix)
         then s' == Moved(s, t, RegisterReady(reg, key.value))
         else s' == Moved(s, t, Done)
    case UseRegisterNonce(t) =>
      && t in s.tasks && s.tasks[t].RegisterReady?
      && var RegisterReady(reg, key) := s.tasks[t];
         s' == Moved(s, t, if reg.nonce in s.tables.registrationNonces then Done else RegisterNonceUsed(reg, key))
               .(tables := s.tables.(registrationNonces := s.tables.registrationNonces + {reg.nonce}))
    case ReadClock(t, now) =>
      && t in s.tasks && (s.tasks[t].RegisterNonceUsed? || s.tasks[t].RotateNonceUsed?)
      && (match s.tasks[t]
          case RegisterNonceUsed(reg, key) => s' == Moved(s, t, RegisterTimed(reg, key, now))
          case RotateNonceUsed(rot, newKey, current) => s' == Moved(s, t, RotateTimed(rot, newKey, current, now)))
    case InsertAgent(t) =>
      && t in s.tasks && s.tasks[t].RegisterTimed?
      && var RegisterTimed(reg, key, createdAt) := s.tasks[t];
         (match AgentInserted(s.tables, AgentIdFor(c, reg, key), key, createdAt)
          case Ok(tables) =>
            s' == Moved(s, t, Done).(tables := tables, registered := s.registered[AgentIdFor(c, reg, key) := reg])
          case Err(_) => s' == Moved(s, t, Done))
    case ReadCurrent(t, rot, nowUnix) =>
      && t !in s.tasks
      && var current, newKey := CurrentKey(RowsOf(s.tables.keys, rot.agent)), DecodeExact(rot.newHex, 32);
         if current.Some? && newKey.Some? && RotateChecked(c, rot, current.value, newKey.value, nowUnix)
         then s' == Moved(s, t, RotateReady(rot, newKey.value, current.value))
         else s' == Moved(s, t, Done)
    case UseRotateNonce(t) =>
      && t in s.tasks && s.tasks[t].RotateReady?
      && var RotateReady(rot, newKey, current) := s.tasks[t];
         s' == Moved(s, t, if rot.nonce in s.tables.rotationNonces then Done else RotateNonceUsed(rot, newKey, current))
               .(tables := s.tables.(rotationNonces := s.tables.rotationNonces + {rot.nonce}))
    case CommitRotation(t) =>
      && t in s.tasks && s.tasks[t].RotateTimed?
      && var RotateTimed(rot, newKey, current, now) := s.tasks[t];
         (match Rotated(s.tables, rot.agent, current.hex, rot.newHex, newKey, now)
          case Ok(tables) =>
            s' == Moved(s, t, Done).(tables := tables,
              commits := s.commits + [Commit(rot, current, |RowsOf(s.tables.keys, rot.agent)| - 1, now)])
          case Err(_) => s' == Moved(s, t, Done))
  }

  const Initial := State(Tables(map[], map[], {}, {}), map[], [], map[])

  ghost predicate IsRun(c: Config, states: seq<State>, steps: seq<Step>) {
    && |states| == |steps| + 1
    && states[0] == Initial
    && forall i | 0 <= i < |steps| :: Next(c, states[i], steps[i], states[i + 1])
  }

  // ---------- invariants ----------

  /** Every registered agent has a ledger, and every ledger is a chain. */
  ghost predicate LedgersChain(s: State) {
    && s.tables.keys.Keys == s.tables.agents.Keys
    && forall a | a in s.tables.keys :: Chain(s.tables.keys[a])
  }

  /** The rotation nonce a task has consumed and not yet spent. */
  predicate Holds(s: State, t: nat, nonce: string) {
    t in s.tasks && (s.tasks[t].RotateNonceUsed? || s.tasks[t].RotateTimed?) && s.tasks[t].rot.nonce == nonce
  }

  predicate Spent(s: State, k: nat, nonce: string) { k < |s.commits| && s.commits[k].rot.nonce == nonce }

  /** A consumed nonce is held by one task or backs one commit, never both. */
  ghost predicate NoncesOnce(s: State) {
    && (forall t, nonce :: Holds(s, t, nonce) ==> nonce in s.tables.rotationNonces)
    && (forall k, nonce :: Spent(s, k, nonce) ==> nonce in s.tables.rotationNonces)
    && (forall t, u, nonce :: Holds(s, t, nonce) && Holds(s, u, nonce) ==> t == u)
    && (forall j, k, nonce :: Spent(s, j, nonce) && Spent(s, k, nonce) ==> j == k)
    && (forall t, k, nonce :: !(Holds(s, t, nonce) && Spent(s, k, nonce)))
  }

  /** Same key, read while it was open. */
  predicate SameKey(row: KeyRow, read: KeyRow) { row.(validTo := None) == read }

  predicate Pending(c: Config, s: State, task: Task) {
    Rotating(task) ==>
      && SignedBy(c, task.rot, task.current)
      && DecodeExact(task.rot.newHex, 32) == Some(task.newKey)
      && exists i: nat | i < |RowsOf(s.tables.keys, task.rot.agent)| ::
           SameKey(RowsOf(s.tables.keys, task.rot.agent)[i], task.current)
  }

  /** The commit closed the very key its signature was checked under, and opened the key it names. */
  predicate Authorised(c: Config, s: State, k: Commit) {
    var rows := RowsOf(s.tables.keys, k.rot.agent);
    && k.index + 1 < |rows|
    && SignedBy(c, k.rot, k.current)
    && SameKey(rows[k.index], k.current)
    && rows[k.index].validTo == Some(k.now + ROTATION_GRACE)
    && rows[k.index + 1].hex == k.rot.newHex
    && rows[k.index + 1].validFrom == k.now
    && DecodeExact(k.rot.newHex, 32) == Some(rows[k.index + 1].publicKey)
  }

  /** Key number `i` of agent `a` came from a commit. */
  ghost predicate HasCommit(s: State, a: string, i: nat) {
    exists k | 0 <= k < |s.commits| :: s.commits[k].rot.agent == a && s.commits[k].index + 1 == i
  }

  /** The commits of one agent close its keys in order, each key once. */
  ghost predicate CommitsOrdered(s: State) {
    forall j, k | 0 <= j < k < |s.commits| && s.commits[j].rot.agent == s.commits[k].rot.agent ::
      s.commits[j].index < s.commits[k].index
  }

  ghost predicate Inv(c: Config, s: State) {
    && LedgersChain(s)
    && NoncesOnce(s)
    && (forall t | t in s.tasks :: Pending(c, s, s.tasks[t]))
    && (forall k | 0 <= k < |s.commits| :: Authorised(c, s, s.commits[k]))
    && CommitsOrdered(s)
    && (forall a, i: nat | a in s.tables.keys && 0 < i < |s.tables.keys[a]| :: HasCommit(s, a, i))
  }

  /** Ledgers only grow: closed rows are final, and an open row may only gain an end. */
  ghost predicate Grown(rows: seq<KeyRow>, rows': seq<KeyRow>) {
    && |rows| <= |rows'|
    && (forall i | 0 <= i < |rows| :: rows'[i].(validTo := None) == rows[i].(validTo := None))
    && forall i | 0 <= i < |rows| - 1 :: rows'[i] == rows[i]
  }

  lemma LedgerStep(c: Config, s: State, step: Step, s': State)
    requires LedgersChain(s) && Next(c, s, step, s')
    ensures LedgersChain(s')
    ensures forall a :: Grown(RowsOf(s.tables.keys, a), RowsOf(s'.tables.keys, a))
  {
    if step.CommitRotation? && s'.tables.keys != s.tables.keys {
      CommitLedger(c, s, step.t, s');
    } else if step.InsertAgent? && s'.tables.keys != s.tables.keys {
      InsertLedger(c, s, step.t, s');
    } else {
      hide RegisterChecked;
      hide RotateChecked;
      hide Rotate;
      hide Chain;
      assert s'.tables.keys == s.tables.keys && s'.tables.agents == s.tables.agents;
    }
  }

  lemma InsertLedger(c: Config, s: State, t: nat, s': State)
    requires LedgersChain(s) && Next(c, s, InsertAgent(t), s')
    ensures LedgersChain(s')
    ensures forall a :: Grown(RowsOf(s.tables.keys, a), RowsOf(s'.tables.keys, a))
  {
    hide AgentIdFor;
    hide Chain;
    hide Hex.Encode;
    var RegisterTimed(reg, key, createdAt) := s.tasks[t];
    SingleKeyChain(Hex.Encode(key), key, createdAt);
    var a := AgentIdFor(c, reg, key);
    InsertedExactly(s.tables, a, key, createdAt);
    hide AgentInserted;
  }

  lemma CommitLedger(c: Config, s: State, t: nat, s': State)
    requires LedgersChain(s) && Next(c, s, CommitRotation(t), s') && s'.tables.keys != s.tables.keys
    ensures LedgersChain(s')
    ensures forall a :: Grown(RowsOf(s.tables.keys, a), RowsOf(s'.tables.keys, a))
  {
    var a := CommitEffect(c, s, t, s');
    hide Next;
    hide Chain;
    assert forall b | b != a :: RowsOf(s'.tables.keys, b) == RowsOf(s.tables.keys, b);
    hide LedgersChain;
  }

  /** A commit that took effect replaced the ledger of one agent by an extended chain. */
  lemma CommitEffect(c: Config, s: State, t: nat, s': State) returns (a: string)
    requires LedgersChain(s) && Next(c, s, CommitRotation(t), s') && s'.tables.keys != s.tables.keys
    ensures a in s.tables.keys && a in s'.tables.keys && s'.tables.agents == s.tables.agents
    ensures Chain(s'.tables.keys[a]) && s'.tables.keys == s.tables.keys[a := s'.tables.keys[a]]
    ensures Grown(s.tables.keys[a], s'.tables.keys[a])
  {
    var RotateTimed(rot, newKey, current, now) := s.tasks[t];
    a := rot.agent;
    assert a in s.tables.keys;
    RotateExtendsChain(s.tables.keys[a], current.hex, rot.newHex, newKey, now);
    hide Chain;
    hide Rotate;
  }

  lemma SingleKeyChain(hex: string, key: seq<Byte>, now: int)
    ensures Chain([KeyRow(hex, key, now, None)])
  {
  }

  /** The key a task has read stays in its agent's ledger. */
  lemma PendingStays(c: Config, s: State, s': State, task: Task)
    requires Pending(c, s, task)
    requires forall a :: Grown(RowsOf(s.tables.keys, a), RowsOf(s'.tables.keys, a))
    ensures Pending(c, s', task)
  {
    hide SignedBy;
    hide DecodeExact;
    hide RowsOf;
    if Rotating(task) {
      var rows, rows' := RowsOf(s.tables.keys, task.rot.agent), RowsOf(s'.tables.keys, task.rot.agent);
      assert Grown(rows, rows');
      var i: nat :| i < |rows| && SameKey(rows[i], task.current);
      assert SameKey(rows'[i], task.current);
    }
  }

  /** A step either leaves a task with what it had read, or has just read the current key for it. */
  lemma PendingStep(c: Config, s: State, step: Step, s': State, t: nat)
    requires Next(c, s, step, s') && t in s'.tasks
    requires t in s.tasks ==> Pending(c, s, s.tasks[t])
    ensures Pending(c, s, s'.tasks[t])
  {
    hide RegisterChecked;
    hide SignedBy;
    hide Rotated;
    hide AgentInserted;
    hide DecodeExact;
    hide CurrentKey;
    var task := s'.tasks[t];
    if step.ReadCurrent? && step.t == t && task.RotateReady? {
      var rows := RowsOf(s.tables.keys, task.rot.agent);
      var i: nat :| i < |rows| && rows[i] == task.current;
      assert SameKey(rows[i], task.current);
    }
  }

  lemma AuthorisedStays(c: Config, s: State, s': State, k: Commit)
    requires Authorised(c, s, k) && Grown(RowsOf(s.tables.keys, k.rot.agent), RowsOf(s'.tables.keys, k.rot.agent))
    ensures Authorised(c, s', k)
  {
    hide SignedBy;
    hide DecodeExact;
    var rows, rows' := RowsOf(s.tables.keys, k.rot.agent), RowsOf(s'.tables.keys, k.rot.agent);
    assert rows'[k.index] == rows[k.index];
    assert rows'[k.index + 1].(validTo := None) == rows[k.index + 1].(validTo := None);
  }

  /** A commit closes the key that was read: the ledger still ends in it. */
  lemma NewCommitAuthorised(c: Config, s: State, t: nat, s': State)
    requires LedgersChain(s) && Next(c, s, CommitRotation(t), s') && Pending(c, s, s.tasks[t])
    requires |s'.commits| > |s.commits|
    ensures Authorised(c, s', s'.commits[|s.commits|])
  {
    hide SignedBy;
    hide DecodeExact;
    var RotateTimed(rot, newKey, current, now) := s.tasks[t];
    var rows := RowsOf(s.tables.keys, rot.agent);
    assert rows != [];
    RotateExtendsChain(rows, current.hex, rot.newHex, newKey, now);
    var i: nat :| i < |rows| && SameKey(rows[i], current);
    assert i == |rows| - 1;
    hide Chain;
    hide Rotate;
  }

  lemma CommitsStep(c: Config, s: State, step: Step, s': State)
    requires LedgersChain(s) && Next(c, s, step, s') && forall t | t in s.tasks :: Pending(c, s, s.tasks[t])
    requires forall a :: Grown(RowsOf(s.tables.keys, a), RowsOf(s'.tables.keys, a))
    requires forall k | 0 <= k < |s.commits| :: Authorised(c, s, s.commits[k])
    ensures forall k | 0 <= k < |s'.commits| :: Authorised(c, s', s'.commits[k])
  {
    hide Next;
    hide Authorised;
    hide LedgersChain;
    hide Pending;
    hide Grown;
    hide RowsOf;
    CommitsGrow(c, s, step, s');
    forall k | 0 <= k < |s'.commits| ensures Authorised(c, s', s'.commits[k]) {
      if k < |s.commits| {
        AuthorisedStays(c, s, s', s.commits[k]);
      } else {
        NewCommitAuthorised(c, s, step.t, s');
      }
    }
  }

  lemma OrderStep(c: Config, s: State, step: Step, s': State)
    requires Next(c, s, step, s') && CommitsOrdered(s)
    requires forall k | 0 <= k < |s.commits| :: Authorised(c, s, s.commits[k])
    ensures CommitsOrdered(s')
  {
    CommitsGrow(c, s, step, s');
    hide Next;
    hide Authorised;
    var n := |s.commits|;
    forall j | 0 <= j < n < |s'.commits| && s'.commits[j].rot.agent == s'.commits[n].rot.agent
      ensures s'.commits[j].index < s'.commits[n].index
    {
      IndexBelow(c, s, s.commits[j]);
    }
  }

  lemma IndexBelow(c: Config, s: State, k: Commit)
    requires Authorised(c, s, k)
    ensures k.index < |RowsOf(s.tables.keys, k.rot.agent)| - 1
  {
  }

  lemma CommitsGrow(c: Config, s: State, step: Step, s': State)
    requires Next(c, s, step, s')
    ensures s.commits <= s'.commits && |s'.commits| <= |s.commits| + 1
    ensures |s'.commits| > |s.commits| ==>
              && step.CommitRotation? && step.t in s.tasks && s.tasks[step.t].RotateTimed?
              && var new_ := s'.commits[|s.commits|];
                 new_.rot == s.tasks[step.t].rot && new_.index == |RowsOf(s.tables.keys, new_.rot.agent)| - 1
  {
    hide RegisterChecked;
    hide RotateChecked;
  }

  lemma HistoryStep(c: Config, s: State, step: Step, s': State)
    requires LedgersChain(s) && Next(c, s, step, s')
    requires forall a, i: nat | a in s.tables.keys && 0 < i < |s.tables.keys[a]| :: HasCommit(s, a, i)
    ensures forall a, i: nat | a in s'.tables.keys && 0 < i < |s'.tables.keys[a]| :: HasCommit(s', a, i)
  {
    CommitsGrow(c, s, step, s');
    forall a, i: nat | a in s'.tables.keys && 0 < i < |s'.tables.keys[a]| ensures HasCommit(s', a, i) {
      if a in s.tables.keys && i < |s.tables.keys[a]| {
        assert HasCommit(s, a, i);
        var k :| 0 <= k < |s.commits| && s.commits[k].rot.agent == a && s.commits[k].index + 1 == i;
        assert s'.commits[k] == s.commits[k];
      } else {
        NewRowHasCommit(c, s, step, s', a, i);
      }
    }
  }

  lemma NewRowHasCommit(c: Config, s: State, step: Step, s': State, a: string, i: nat)
    requires LedgersChain(s) && Next(c, s, step, s')
    requires a in s'.tables.keys && 0 < i < |s'.tables.keys[a]| && !(a in s.tables.keys && i < |s.tables.keys[a]|)
    ensures HasCommit(s', a, i)
  {
    hide RegisterChecked;
    hide RotateChecked;
    assert step.CommitRotation?;
    var RotateTimed(rot, newKey, current, now) := s.tasks[step.t];
    var rows := RowsOf(s.tables.keys, rot.agent);
    assert rows != [];
    RotateExtendsChain(rows, current.hex, rot.newHex, newKey, now);
    assert s'.commits[|s.commits|].rot.agent == a && s'.commits[|s.commits|].index + 1 == i;
  }

  /** Only consuming an unseen nonce starts a hold, and only a held nonce is spent. */
  lemma NonceFrame(c: Config, s: State, step: Step, s': State)
    requires Next(c, s, step, s')
    ensures s.tables.rotationNonces <= s'.tables.rotationNonces
    ensures forall t, nonce :: Holds(s', t, nonce) ==>
              || Holds(s, t, nonce)
              || (step == UseRotateNonce(t) && nonce !in s.tables.rotationNonces && nonce in s'.tables.rotationNonces)
    ensures forall k, nonce :: Spent(s', k, nonce) ==>
              || Spent(s, k, nonce)
              || (step.CommitRotation? && k == |s.commits| && Holds(s, step.t, nonce) && !Holds(s', step.t, nonce))
  {
    hide RegisterChecked;
    hide RotateChecked;
    hide Rotate;
  }

  lemma NonceStep(c: Config, s: State, step: Step, s': State)
    requires NoncesOnce(s) && Next(c, s, step, s')
    ensures NoncesOnce(s')
  {
    NonceFrame(c, s, step, s');
    hide Next;
  }

  // ---------- every run ----------

  lemma StepKeepsInv(c: Config, s: State, step: Step, s': State)
    requires Inv(c, s) && Next(c, s, step, s')
    ensures Inv(c, s')
  {
    LedgerStep(c, s, step, s');
    NonceStep(c, s, step, s');
    CommitsStep(c, s, step, s');
    OrderStep(c, s, step, s');
    HistoryStep(c, s, step, s');
    forall t | t in s'.tasks ensures Pending(c, s', s'.tasks[t]) {
      PendingStep(c, s, step, s', t);
      PendingStays(c, s, s', s'.tasks[t]);
    }
  }

  lemma {:induction false} RunKeepsInv(c: Config, states: seq<State>, steps: seq<Step>, i: nat)
    requires IsRun(c, states, steps) && i < |states|
    ensures Inv(c, states[i])
  {
    if i > 0 {
      RunKeepsInv(c, states, steps, i - 1);
      StepKeepsInv(c, states[i - 1], steps[i - 1], states[i]);
    }
  }

  /** In every interleaving each registered agent has exactly one open key, at the end of one chain. */
  lemma OneOpenKey(c: Config, states: seq<State>, steps: seq<Step>, i: nat, a: string)
    requires IsRun(c, states, steps) && i < |states| && a in states[i].tables.agents
    ensures a in states[i].tables.keys
    ensures var rows := states[i].tables.keys[a];
            Chain(rows) && forall j | 0 <= j < |rows| :: IsOpen(rows[j]) <==> j == |rows| - 1
  {
    RunKeepsInv(c, states, steps, i);
    ChainCurrent(states[i].tables.keys[a]);
  }

  /**
   In every interleaving every key after an agent's first was brought in by a commit
   whose request was signed under the key before it, over a challenge naming both.
   */
  lemma EveryKeyAuthorised(c: Config, states: seq<State>, steps: seq<Step>, i: nat, a: string, j: nat)
    requires IsRun(c, states, steps) && i < |states|
    requires a in states[i].tables.keys && 0 < j < |states[i].tables.keys[a]|
    ensures exists k | 0 <= k < |states[i].commits| ::
              && states[i].commits[k].rot.agent == a && states[i].commits[k].index + 1 == j
              && Authorised(c, states[i], states[i].commits[k])
  {
    RunKeepsInv(c, states, steps, i);
    hide Authorised;
    assert HasCommit(states[i], a, j);
  }

  /** No nonce backs two commits. */
  lemma NoncesBackOneCommit(c: Config, states: seq<State>, steps: seq<Step>, i: nat)
    requires IsRun(c, states, steps) && i < |states|
    ensures forall j, k | 0 <= j < k < |states[i].commits| ::
              states[i].commits[j].rot.nonce != states[i].commits[k].rot.nonce
  {
    RunKeepsInv(c, states, steps, i);
    var s := states[i];
    forall j: nat, k: nat | j < k < |s.commits| ensures s.commits[j].rot.nonce != s.commits[k].rot.nonce {
      assert Spent(s, j, s.commits[j].rot.nonce) && Spent(s, k, s.commits[k].rot.nonce);
    }
  }

  /** Of the requests that read the same current key, at most one commits. */
  lemma RacesHaveOneWinner(c: Config, states: seq<State>, steps: seq<Step>, i: nat, j: nat, k: nat)
    requires IsRun(c, states, steps) && i < |states| && j < |states[i].commits| && k < |states[i].commits|
    requires states[i].commits[j].rot.agent == states[i].commits[k].rot.agent
    requires states[i].commits[j].current.hex == states[i].commits[k].current.hex
    ensures j == k
  {
    RunKeepsInv(c, states, steps, i);
    var s := states[i];
    assert Authorised(c, s, s.commits[j]) && Authorised(c, s, s.commits[k]);
    assert Chain(s.tables.keys[s.commits[j].rot.agent]);
  }

  /** From registration on, at any time and under any clock, every agent has a valid key. */
  lemma RegisteredAgentsCanAlwaysVerify(c: Config, states: seq<State>, steps: seq<Step>, i: nat, a: string, t: int)
    requires IsRun(c, states, steps) && i < |states| && a in states[i].tables.agents
    ensures a in states[i].tables.keys && states[i].tables.keys[a] != []
    ensures states[i].tables.keys[a][0].validFrom <= t ==>
              exists row | row in states[i].tables.keys[a] :: ValidAt(row, t)
  {
    RunKeepsInv(c, states, steps, i);
    var rows := states[i].tables.keys[a];
    if rows[0].validFrom <= t {
      SomeKeyAlwaysValid(rows, t);
      var j :| 0 <= j < |rows| && ValidAt(rows[j], t);
      assert rows[j] in rows;
    }
  }

  // ---------- clocks ----------

  /** The clock never steps back: requests may still commit in another order than they read it. */
  ghost predicate ReadingsInOrder(steps: seq<Step>) {
    forall m, n | 0 <= m < n < |steps| && steps[m].ReadClock? && steps[n].ReadClock? :: steps[m].now <= steps[n].now
  }

  /** `row` is what the timed task appends to the ledger `rows` of `a`. */
  predicate WroteRow(task: Task, a: string, rows: seq<KeyRow>, row: KeyRow) {
    match task
    case RegisterTimed(_, _, now) => rows == [] && row.validFrom == now
    case RotateTimed(rot, _, current, now) =>
      rot.agent == a && rows != [] && rows[|rows| - 1].hex == current.hex && row.validFrom == now
    case _ => false
  }

  /** A ledger gains at most one row, which starts at the reading of the task that wrote it. */
  lemma RowsGained(c: Config, s: State, step: Step, s': State, a: string)
    requires LedgersChain(s) && Next(c, s, step, s')
    ensures var rows, rows' := RowsOf(s.tables.keys, a), RowsOf(s'.tables.keys, a);
            && |rows| <= |rows'| <= |rows| + 1
            && (forall j | 0 <= j < |rows| :: rows'[j].validFrom == rows[j].validFrom)
            && (|rows'| > |rows| ==> && (step.InsertAgent? || step.CommitRotation?) && step.t in s.tasks
                                     && WroteRow(s.tasks[step.t], a, rows, rows'[|rows|]))
  {
    hide RegisterChecked;
    hide RotateChecked;
    hide AgentIdFor;
    hide Chain;
    hide Hex.Encode;
    if step.CommitRotation? {
      var RotateTimed(rot, newKey, current, now) := s.tasks[step.t];
      if rot.agent in s.tables.keys {
        RotateExtendsChain(s.tables.keys[rot.agent], current.hex, rot.newHex, newKey, now);
      }
      hide Rotate;
    }
  }

  /** Nothing the state holds was read off the clock later than `t`. */
  predicate TaskReadBy(task: Task, t: int) {
    && (task.RegisterTimed? || task.RotateTimed? ==> task.now <= t)
    && (Rotating(task) ==> task.current.validFrom <= t)
  }

  ghost predicate ReadBy(s: State, t: int) {
    && (forall a, j: nat | j < |RowsOf(s.tables.keys, a)| :: RowsOf(s.tables.keys, a)[j].validFrom <= t)
    && forall u | u in s.tasks :: TaskReadBy(s.tasks[u], t)
  }

  lemma TaskReadByStep(c: Config, s: State, step: Step, s': State, u: nat, t: int)
    requires Next(c, s, step, s') && ReadBy(s, t) && u in s'.tasks
    requires step.ReadClock? ==> step.now <= t
    ensures TaskReadBy(s'.tasks[u], t)
  {
    hide RegisterChecked;
    hide RotateChecked;
    hide Rotated;
    hide AgentInserted;
    hide CurrentKey;
    hide DecodeExact;
    if u in s.tasks { assert TaskReadBy(s.tasks[u], t); }
    if step.ReadCurrent? {
      var rows := RowsOf(s.tables.keys, step.rot.agent);
      var current := CurrentKey(rows);
      if current.Some? {
        var j: nat :| j < |rows| && rows[j] == current.value;
        assert rows[j].validFrom <= t;
      }
    }
  }

  lemma ReadByStep(c: Config, s: State, step: Step, s': State, t: int)
    requires LedgersChain(s) && Next(c, s, step, s') && ReadBy(s, t)
    requires step.ReadClock? ==> step.now <= t
    ensures ReadBy(s', t)
  {
    hide Next;
    hide LedgersChain;
    forall u | u in s'.tasks ensures TaskReadBy(s'.tasks[u], t) {
      TaskReadByStep(c, s, step, s', u, t);
    }
    forall a, j: nat | j < |RowsOf(s'.tables.keys, a)| ensures RowsOf(s'.tables.keys, a)[j].validFrom <= t {
      RowsGained(c, s, step, s', a);
      hide RowsOf;
      var rows := RowsOf(s.tables.keys, a);
      if j < |rows| { assert rows[j].validFrom <= t; } else { assert TaskReadBy(s.tasks[step.t], t); }
    }
  }

  lemma {:induction false} RunReadBy(c: Config, states: seq<State>, steps: seq<Step>, i: nat, t: int)
    requires IsRun(c, states, steps) && i < |states|
    requires forall m | 0 <= m < i && steps[m].ReadClock? :: steps[m].now <= t
    ensures ReadBy(states[i], t)
  {
    hide Next;
    if i > 0 {
      RunReadBy(c, states, steps, i - 1, t);
      RunKeepsInv(c, states, steps, i - 1);
      hide ReadBy;
      ReadByStep(c, states[i - 1], steps[i - 1], states[i], t);
    }
  }

  /** A rotation reads the clock after the key it will close had been started. */
  predicate Timely(task: Task) { task.RotateTimed? ==> task.current.validFrom <= task.now }

  lemma TimelyStep(c: Config, s: State, step: Step, s': State, u: nat)
    requires Next(c, s, step, s') && u in s'.tasks
    requires u in s.tasks ==> Timely(s.tasks[u])
    requires step.ReadClock? ==> ReadBy(s, step.now)
    ensures Timely(s'.tasks[u])
  {
    hide RegisterChecked;
    hide RotateChecked;
    hide Rotated;
    hide AgentInserted;
    hide CurrentKey;
    hide DecodeExact;
    hide RowsOf;
    if u in s.tasks && step.ReadClock? { assert TaskReadBy(s.tasks[u], step.now); }
  }

  /** The compare-and-swap closes the key that was read, so the new start is no earlier than the last. */
  lemma StartsStep(c: Config, s: State, step: Step, s': State, a: string)
    requires LedgersChain(s) && Next(c, s, step, s') && StartsInOrder(RowsOf(s.tables.keys, a))
    requires forall t | t in s.tasks :: Pending(c, s, s.tasks[t]) && Timely(s.tasks[t])
    ensures StartsInOrder(RowsOf(s'.tables.keys, a))
  {
    hide Next;
    hide SignedBy;
    hide DecodeExact;
    RowsGained(c, s, step, s', a);
    var rows, rows' := RowsOf(s.tables.keys, a), RowsOf(s'.tables.keys, a);
    if |rows'| > |rows| && rows != [] {
      var task := s.tasks[step.t];
      assert Pending(c, s, task) && Timely(task);
      assert Chain(rows);
      hide LedgersChain;
      LastKeyWasRead(rows, task.current);
      hide Chain;
      hide Pending;
      hide RowsOf;
      assert rows'[|rows|].validFrom >= rows[|rows| - 1].validFrom;
    }
  }

  lemma LastKeyWasRead(rows: seq<KeyRow>, read: KeyRow)
    requires Chain(rows) && rows[|rows| - 1].hex == read.hex
    requires exists i: nat | i < |rows| :: SameKey(rows[i], read)
    ensures SameKey(rows[|rows| - 1], read)
  {
    var i: nat :| i < |rows| && SameKey(rows[i], read);
    assert i == |rows| - 1;
  }

  /** With a clock that never steps back, every ledger lists its keys by start time, in every interleaving. */
  lemma {:induction false} StartsFollowClock(c: Config, states: seq<State>, steps: seq<Step>, i: nat)
    requires IsRun(c, states, steps) && ReadingsInOrder(steps) && i < |states|
    ensures forall a :: StartsInOrder(RowsOf(states[i].tables.keys, a))
    ensures forall t | t in states[i].tasks :: Timely(states[i].tasks[t])
  {
    hide Next;
    if i > 0 {
      var s, step, s' := states[i - 1], steps[i - 1], states[i];
      StartsFollowClock(c, states, steps, i - 1);
      RunKeepsInv(c, states, steps, i - 1);
      if step.ReadClock? { RunReadBy(c, states, steps, i - 1, step.now); }
      hide StartsInOrder;
      hide Timely;
      hide RowsOf;
      hide ReadBy;
      forall t | t in s'.tasks ensures Timely(s'.tasks[t]) { TimelyStep(c, s, step, s', t); }
      forall a ensures StartsInOrder(RowsOf(s'.tables.keys, a)) { StartsStep(c, s, step, s', a); }
    }
  }

  /** So at any time the accepted signatures are those of the newest key and of keys in their grace. */
  lemma RunAcceptsExactly(c: Config, states: seq<State>, steps: seq<Step>, i: nat, a: string, t: int, text: string, signature: seq<Byte>)
    requires IsRun(c, states, steps) && ReadingsInOrder(steps) && i < |states| && a in states[i].tables.agents
    ensures a in states[i].tables.keys
    ensures var rows := states[i].tables.keys[a];
            (exists row | row in rows :: ValidAt(row, t) && KeyAccepts(c.verifies, row, text, signature)) <==>
            (exists j: nat | j < |rows| ::
               (IsNewest(rows, t, j) || InGrace(rows, t, j)) && KeyAccepts(c.verifies, rows[j], text, signature))
  {
    RunKeepsInv(c, states, steps, i);
    StartsFollowClock(c, states, steps, i);
    var rows := RowsOf(states[i].tables.keys, a);
    assert StartsInOrder(rows);
    AcceptedKeysExactly(c.verifies, rows, t, text, signature);
  }
}
