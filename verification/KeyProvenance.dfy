/** What stands behind every key: registration by its owner, and keys that verification can use. */
module KeyProvenance {
  import opened Wrappers
  import opened Hex
  import opened KeyLedger
  import opened KeyTables
  import opened KeyRotation
  import AgentIds
  import Wire

  /** A registration request signed with the very key it registers. */
  predicate SelfSigned(c: Config, r: RegisterRequest, key: seq<Byte>) {
    var text := Wire.Encode(Wire.V1, Wire.Register(r.publicKeyHex, r.org, r.name, r.nonce, r.issuedAt));
    var signature := DecodeExact(r.signatureHex, 64);
    && DecodeExact(r.publicKeyHex, 32) == Some(key)
    && text.Ok? && signature.Some? && c.verifies(key, text.value, signature.value)
  }

  /** A key that verification can use: it parses, and its text stands for its bytes. */
  predicate Usable(c: Config, hex: string, key: seq<Byte>) {
    |key| == 32 && c.isKey(key) && Hex.Decode(hex) == Some(key)
  }

  predicate TaskBacked(c: Config, task: Task) {
    match task
    case RegisterReady(reg, key) => SelfSigned(c, reg, key) && Usable(c, reg.publicKeyHex, key)
    case RegisterNonceUsed(reg, key) => SelfSigned(c, reg, key) && Usable(c, reg.publicKeyHex, key)
    case RegisterTimed(reg, key, _) => SelfSigned(c, reg, key) && Usable(c, reg.publicKeyHex, key)
    case RotateReady(rot, newKey, _) => Usable(c, rot.newHex, newKey)
    case RotateNonceUsed(rot, newKey, _) => Usable(c, rot.newHex, newKey)
    case RotateTimed(rot, newKey, _, _) => Usable(c, rot.newHex, newKey)
    case Done => true
  }

  /** The first key of `a` is the one its registration was signed with, and the id is derived from it. */
  predicate AgentBacked(c: Config, s: State, a: string) {
    && a in s.tables.agents && a in s.registered && RowsOf(s.tables.keys, a) != []
    && var key := s.tables.agents[a];
       && RowsOf(s.tables.keys, a)[0].publicKey == key
       && SelfSigned(c, s.registered[a], key) && a == AgentIdFor(c, s.registered[a], key)
  }

  ghost predicate DistinctKeys(agents: map<string, seq<Byte>>) {
    forall a, b | a in agents && b in agents && agents[a] == agents[b] :: a == b
  }

  predicate RowsUsable(c: Config, rows: seq<KeyRow>) {
    forall i | 0 <= i < |rows| :: Usable(c, rows[i].hex, rows[i].publicKey)
  }

  ghost predicate Backed(c: Config, s: State) {
    && (forall t | t in s.tasks :: TaskBacked(c, s.tasks[t]))
    && (forall a | a in s.tables.agents :: AgentBacked(c, s, a))
    && DistinctKeys(s.tables.agents)
    && (forall a :: RowsUsable(c, RowsOf(s.tables.keys, a)))
  }

  lemma TaskBackedStep(c: Config, s: State, step: Step, s': State, t: nat)
    requires Next(c, s, step, s') && t in s'.tasks
    requires t in s.tasks ==> TaskBacked(c, s.tasks[t])
    ensures TaskBacked(c, s'.tasks[t])
  {
    hide Rotated;
    hide AgentInserted;
    hide CurrentKey;
    hide Wire.Encode;
    hide Hex.Decode;
    hide SignedBy;
    hide Wire.ValidNonce;
    hide AgentIds.ValidAgentId;
  }

  /** What a step does to agents, ledgers and registrations. */
  datatype Effect =
    | Nothing
    | Registered(a: string, reg: RegisterRequest, key: seq<Byte>)
    | Extended(a: string, hex: string, key: seq<Byte>)

  ghost predicate SameKeys(rows: seq<KeyRow>, rows': seq<KeyRow>) {
    |rows| <= |rows'| && forall i | 0 <= i < |rows| :: rows'[i].hex == rows[i].hex && rows'[i].publicKey == rows[i].publicKey
  }

  ghost predicate Does(s: State, e: Effect, s': State) {
    match e
    case Nothing =>
      s'.tables.agents == s.tables.agents && s'.tables.keys == s.tables.keys && s'.registered == s.registered
    case Registered(a, reg, key) =>
      && a !in s.tables.agents && key !in s.tables.agents.Values
      && s'.tables.agents == s.tables.agents[a := key] && s'.registered == s.registered[a := reg]
      && (forall b | b != a :: RowsOf(s'.tables.keys, b) == RowsOf(s.tables.keys, b))
      && |RowsOf(s'.tables.keys, a)| == 1
      && RowsOf(s'.tables.keys, a)[0].hex == Hex.Encode(key) && RowsOf(s'.tables.keys, a)[0].publicKey == key
    case Extended(a, hex, key) =>
      && s'.tables.agents == s.tables.agents && s'.registered == s.registered
      && (forall b | b != a :: RowsOf(s'.tables.keys, b) == RowsOf(s.tables.keys, b))
      && var rows, rows' := RowsOf(s.tables.keys, a), RowsOf(s'.tables.keys, a);
         && |rows'| == |rows| + 1 && SameKeys(rows, rows')
         && rows'[|rows|].hex == hex && rows'[|rows|].publicKey == key
  }

  /** Every effect is that of a task whose checks have passed. */
  ghost predicate Justified(c: Config, e: Effect) {
    match e
    case Nothing => true
    case Registered(a, reg, key) => a == AgentIdFor(c, reg, key) && SelfSigned(c, reg, key) && |key| == 32 && c.isKey(key)
    case Extended(_, hex, key) => Usable(c, hex, key)
  }

  lemma EffectOf(c: Config, s: State, step: Step, s': State) returns (e: Effect)
    requires LedgersChain(s) && Next(c, s, step, s') && forall t | t in s.tasks :: TaskBacked(c, s.tasks[t])
    ensures Does(s, e, s') && Justified(c, e)
  {
    e := Nothing;
    if step.InsertAgent? {
      e := InsertEffect(c, s, step.t, s');
    } else if step.CommitRotation? {
      e := RotationEffect(c, s, step.t, s');
    } else {
      hide RegisterChecked;
      hide RotateChecked;
      hide TaskBacked;
      hide LedgersChain;
    }
  }

  lemma InsertEffect(c: Config, s: State, t: nat, s': State) returns (e: Effect)
    requires LedgersChain(s) && Next(c, s, InsertAgent(t), s') && TaskBacked(c, s.tasks[t])
    ensures Does(s, e, s') && Justified(c, e)
  {
    hide SelfSigned;
    hide AgentIdFor;
    hide Hex.Decode;
    hide Hex.Encode;
    var RegisterTimed(reg, key, createdAt) := s.tasks[t];
    var a := AgentIdFor(c, reg, key);
    InsertedExactly(s.tables, a, key, createdAt);
    e := if AgentInserted(s.tables, a, key, createdAt).Ok? then Registered(a, reg, key) else Nothing;
  }

  lemma RotationEffect(c: Config, s: State, t: nat, s': State) returns (e: Effect)
    requires LedgersChain(s) && Next(c, s, CommitRotation(t), s') && TaskBacked(c, s.tasks[t])
    ensures Does(s, e, s') && Justified(c, e)
  {
    hide Usable;
    hide Rotate;
    hide Chain;
    var RotateTimed(rot, newKey, current, now) := s.tasks[t];
    e := Nothing;
    if s'.tables.keys != s.tables.keys {
      e := Extended(rot.agent, rot.newHex, newKey);
      assert rot.agent in s.tables.keys by { NoRowsNoRotation(current.hex, rot.newHex, newKey, now); }
      RotatedKeys(s.tables.keys[rot.agent], current.hex, rot.newHex, newKey, now);
      hide SameKeys;
      hide LedgersChain;
    }
  }

  lemma NoRowsNoRotation(expected: string, newHex: string, newKey: seq<Byte>, now: int)
    ensures Rotate([], expected, newHex, newKey, now).Err?
  {
  }

  /** A rotation keeps every key in its place and adds the new one. */
  lemma RotatedKeys(rows: seq<KeyRow>, expected: string, newHex: string, newKey: seq<Byte>, now: int)
    requires Chain(rows) && Rotate(rows, expected, newHex, newKey, now).Ok?
    ensures var rows' := Rotate(rows, expected, newHex, newKey, now).value;
            && |rows'| == |rows| + 1 && SameKeys(rows, rows')
            && rows'[|rows|].hex == newHex && rows'[|rows|].publicKey == newKey
  {
    RotateExtendsChain(rows, expected, newHex, newKey, now);
    hide Chain;
    hide Rotate;
  }

  lemma RowsStayUsable(c: Config, s: State, e: Effect, s': State, a: string)
    requires Does(s, e, s') && Justified(c, e) && RowsUsable(c, RowsOf(s.tables.keys, a))
    ensures RowsUsable(c, RowsOf(s'.tables.keys, a))
  {
    hide RowsOf;
    hide SelfSigned;
    hide AgentIdFor;
    hide Hex.Decode;
    hide Hex.Encode;
    if e.Registered? { Hex.EncodeThenDecode(e.key); }
  }

  lemma AgentStaysBacked(c: Config, s: State, e: Effect, s': State, a: string)
    requires Does(s, e, s') && Justified(c, e) && a in s'.tables.agents
    requires a in s.tables.agents ==> AgentBacked(c, s, a)
    ensures AgentBacked(c, s', a)
  {
    hide RowsOf;
    hide SelfSigned;
    hide AgentIdFor;
    hide Usable;
  }

  lemma StepKeepsBacked(c: Config, s: State, step: Step, s': State)
    requires Backed(c, s) && LedgersChain(s) && Next(c, s, step, s')
    ensures Backed(c, s')
  {
    hide Next;
    hide LedgersChain;
    hide TaskBacked;
    hide AgentBacked;
    hide RowsUsable;
    hide DistinctKeys;
    hide Does;
    hide Justified;
    forall t | t in s'.tasks ensures TaskBacked(c, s'.tasks[t]) {
      TaskBackedStep(c, s, step, s', t);
    }
    var e := EffectOf(c, s, step, s');
    EffectKeepsBacked(c, s, e, s');
  }

  lemma EffectKeepsBacked(c: Config, s: State, e: Effect, s': State)
    requires Backed(c, s) && Does(s, e, s') && Justified(c, e)
    ensures forall a | a in s'.tables.agents :: AgentBacked(c, s', a)
    ensures DistinctKeys(s'.tables.agents)
    ensures forall a :: RowsUsable(c, RowsOf(s'.tables.keys, a))
  {
    hide TaskBacked;
    hide AgentBacked;
    hide RowsUsable;
    hide RowsOf;
    hide Justified;
    hide SameKeys;
    forall a ensures RowsUsable(c, RowsOf(s'.tables.keys, a)) {
      RowsStayUsable(c, s, e, s', a);
    }
    forall a | a in s'.tables.agents ensures AgentBacked(c, s', a) {
      AgentStaysBacked(c, s, e, s', a);
    }
  }

  lemma {:induction false} RunKeepsBacked(c: Config, states: seq<State>, steps: seq<Step>, i: nat)
    requires IsRun(c, states, steps) && i < |states|
    ensures Backed(c, states[i])
  {
    if i > 0 {
      RunKeepsBacked(c, states, steps, i - 1);
      KeyRotation.RunKeepsInv(c, states, steps, i - 1);
      StepKeepsBacked(c, states[i - 1], steps[i - 1], states[i]);
    }
  }

  /** In every interleaving an agent's first key signed its own registration, and no two agents registered one key. */
  lemma FirstKeysAreProven(c: Config, states: seq<State>, steps: seq<Step>, i: nat, a: string)
    requires IsRun(c, states, steps) && i < |states| && a in states[i].tables.agents
    ensures var s := states[i];
            && a in s.registered && a in s.tables.keys && s.tables.keys[a] != []
            && var key := s.tables.keys[a][0].publicKey;
               && SelfSigned(c, s.registered[a], key) && a == AgentIdFor(c, s.registered[a], key)
               && forall b | b in s.tables.agents && b != a ::
                    b in s.tables.keys && s.tables.keys[b] != [] && s.tables.keys[b][0].publicKey != key
  {
    RunKeepsBacked(c, states, steps, i);
    hide SelfSigned;
    hide RowsUsable;
    var s := states[i];
    assert AgentBacked(c, s, a);
    forall b | b in s.tables.agents && b != a
      ensures b in s.tables.keys && s.tables.keys[b] != [] && s.tables.keys[b][0].publicKey != s.tables.agents[a]
    {
      assert AgentBacked(c, s, b);
    }
  }

  /** In every interleaving verification never has to skip a stored key: all of them parse. */
  lemma StoredKeysAreUsable(c: Config, states: seq<State>, steps: seq<Step>, i: nat, a: string, j: nat)
    requires IsRun(c, states, steps) && i < |states|
    requires a in states[i].tables.keys && j < |states[i].tables.keys[a]|
    ensures var row := states[i].tables.keys[a][j];
            |row.publicKey| == 32 && c.isKey(row.publicKey) && Hex.Decode(row.hex) == Some(row.publicKey)
  {
    RunKeepsBacked(c, states, steps, i);
    assert RowsUsable(c, RowsOf(states[i].tables.keys, a));
  }

  /**
   With clock readings that never step back, in every interleaving the signatures accepted
   for an agent at `t` are exactly those its newest key verifies, or a key whose successor
   started within the last 24 hours: no stored key is unusable.
   */
  lemma RunAcceptsSignatures(
    c: Config, states: seq<State>, steps: seq<Step>, i: nat, a: string, t: int, text: string, signature: seq<Byte>)
    requires IsRun(c, states, steps) && ReadingsInOrder(steps) && i < |states| && a in states[i].tables.agents
    ensures a in states[i].tables.keys
    ensures var rows := states[i].tables.keys[a];
            (exists row | row in rows ::
               && row.validFrom <= t && (row.validTo.None? || t < row.validTo.value)
               && |row.publicKey| == 32 && c.verifies(row.publicKey, text, signature)) <==>
            (exists j: nat | j < |rows| ::
               && (IsNewest(rows, t, j) || InGrace(rows, t, j))
               && c.verifies(rows[j].publicKey, text, signature))
  {
    RunAcceptsExactly(c, states, steps, i, a, t, text, signature);
    hide IsRun;
    hide ReadingsInOrder;
    var rows := states[i].tables.keys[a];
    forall j: nat | j < |rows| ensures |rows[j].publicKey| == 32 {
      StoredKeysAreUsable(c, states, steps, i, a, j);
    }
    hide IsNewest;
    hide InGrace;
    assert forall row | row in rows :: ValidAt(row, t) && KeyAccepts(c.verifies, row, text, signature) <==>
        && row.validFrom <= t && (row.validTo.None? || t < row.validTo.value)
        && |row.publicKey| == 32 && c.verifies(row.publicKey, text, signature);
  }
}
