/** Which requests the registration and rotation handlers let in, and when; nonces over runs. */
module KeyAdmission {
  import opened Wrappers
  import opened Hex
  import opened KeyLedger
  import opened KeyTables
  import opened KeyRotation
  import AgentIds
  import Text
  import Wire
  import WireText

  /** The request is at most five minutes older or newer than the clock. */
  predicate InTime(nowUnix: int, issuedAt: int) { nowUnix - 300 <= issuedAt <= nowUnix + 300 }

  /** One to 64 letters, digits, hyphens and underscores. */
  predicate Label(s: string) {
    1 <= |s| <= 64
    && forall c | c in s :: 'a' <= c <= 'z' || 'A' <= c <= 'Z' || '0' <= c <= '9' || c == '-' || c == '_'
  }

  predicate DecodesTo(hex: string, n: nat, bytes: seq<Byte>) { Hex.Decode(hex) == Some(bytes) && |bytes| == n }

  lemma {:induction false} DecodableIsLine(s: string)
    requires Hex.Decode(s).Some?
    ensures WireText.LineOrEmpty(s)
  {
    if s != "" {
      DecodableIsLine(s[2..]);
      assert s == [s[0], s[1]] + s[2..];
    }
  }

  lemma KeyTextIsLine(hex: string, n: nat, bytes: seq<Byte>)
    requires DecodesTo(hex, n, bytes) && n > 0
    ensures WireText.Line(hex)
  {
    DecodableIsLine(hex);
  }

  // ---------- registration ----------

  function RegisterText(r: RegisterRequest): string {
    "spize-register:v1" + "\npub=" + r.publicKeyHex + "\norg=" + r.org + "\nname=" + r.name
    + "\nnonce=" + r.nonce + "\nts=" + Text.PrintInt(r.issuedAt)
  }

  /** What the handler asks of a registration, in the terms of its documentation. */
  ghost predicate RegisterAdmissible(c: Config, r: RegisterRequest, key: seq<Byte>, nowUnix: int) {
    && Label(r.org) && Label(r.name) && WireText.Nonce(r.nonce)
    && InTime(nowUnix, r.issuedAt)
    && DecodesTo(r.publicKeyHex, 32, key) && c.isKey(key)
    && exists signature :: DecodesTo(r.signatureHex, 64, signature) && c.verifies(key, RegisterText(r), signature)
  }

  lemma RegisterCheckedExactly(c: Config, r: RegisterRequest, key: seq<Byte>, nowUnix: int)
    ensures RegisterChecked(c, r, key, nowUnix) <==> RegisterAdmissible(c, r, key, nowUnix)
  {
    WireText.RegistrationEncodes(Wire.V1, r.publicKeyHex, r.org, r.name, r.nonce, r.issuedAt);
    WireText.FieldsMean(r.nonce);
    if DecodesTo(r.publicKeyHex, 32, key) { KeyTextIsLine(r.publicKeyHex, 32, key); }
    LabelIsLine(r.org);
    LabelIsLine(r.name);
    SignatureExactly(r.signatureHex, 64);
    SignatureExactly(r.publicKeyHex, 32);
    hide DecodeExact;
    hide DecodesTo;
    hide Wire.Encode;
    hide WireText.Nonce;
    hide WireText.Line;
    hide Wire.ValidNonce;
    hide Text.PrintInt;
    hide Label;
    hide ValidLabel;
  }

  lemma LabelIsLine(s: string)
    ensures Label(s) <==> ValidLabel(s)
    ensures Label(s) ==> WireText.Line(s)
  {
  }

  lemma SignatureExactly(hex: string, n: nat)
    ensures forall bytes :: DecodesTo(hex, n, bytes) <==> DecodeExact(hex, n) == Some(bytes)
  {
    hide Hex.Decode;
  }

  /** A registration is let in iff it is admissible; nothing else about the state matters. */
  lemma RegisterAdmits(c: Config, s: State, t: nat, r: RegisterRequest, nowUnix: int, s': State)
    requires Next(c, s, Register(t, r, nowUnix), s')
    ensures t in s'.tasks && s'.tables == s.tables
    ensures forall key :: s'.tasks[t] == RegisterReady(r, key) <==> RegisterAdmissible(c, r, key, nowUnix)
    ensures s'.tasks[t] == Done || exists key :: s'.tasks[t] == RegisterReady(r, key)
  {
    forall key ensures RegisterChecked(c, r, key, nowUnix) <==> RegisterAdmissible(c, r, key, nowUnix) {
      RegisterCheckedExactly(c, r, key, nowUnix);
    }
    assert forall key | RegisterAdmissible(c, r, key, nowUnix) :: DecodeExact(r.publicKeyHex, 32) == Some(key);
    hide RegisterChecked;
    hide RegisterAdmissible;
    hide DecodeExact;
  }

  // ---------- rotation ----------

  /** Up to 256 visible ASCII characters with a colon among them. */
  predicate AgentId(s: string) { 1 <= |s| <= 256 && (forall c | c in s :: 33 <= c as int <= 126) && ':' in s }

  function RotateText(r: RotateRequest, oldHex: string): string {
    "spize-rotate-key:v1" + "\nagent=" + r.agent + "\nold_pub=" + oldHex + "\nnew_pub=" + r.newHex
    + "\nnonce=" + r.nonce + "\nts=" + Text.PrintInt(r.issuedAt)
  }

  /** What the handler asks of a rotation away from `current`. */
  ghost predicate RotateAdmissible(c: Config, r: RotateRequest, current: KeyRow, newKey: seq<Byte>, nowUnix: int) {
    && AgentId(r.agent) && WireText.Nonce(r.nonce)
    && InTime(nowUnix, r.issuedAt)
    && DecodesTo(r.newHex, 32, newKey) && c.isKey(newKey)
    && |current.publicKey| == 32 && c.isKey(current.publicKey)
    && current.hex != r.newHex && WireText.Line(current.hex)
    && exists signature ::
         DecodesTo(r.signatureHex, 64, signature) && c.verifies(current.publicKey, RotateText(r, current.hex), signature)
  }

  lemma RotateCheckedExactly(c: Config, r: RotateRequest, current: KeyRow, newKey: seq<Byte>, nowUnix: int)
    ensures RotateChecked(c, r, current, newKey, nowUnix) <==> RotateAdmissible(c, r, current, newKey, nowUnix)
  {
    WireText.KeyRotationEncodes(Wire.V1, r.agent, current.hex, r.newHex, r.nonce, r.issuedAt);
    WireText.FieldsMean(r.nonce);
    AgentIdMeans(r.agent);
    if DecodesTo(r.newHex, 32, newKey) { KeyTextIsLine(r.newHex, 32, newKey); }
    SignatureExactly(r.signatureHex, 64);
    SignatureExactly(r.newHex, 32);
    hide DecodeExact;
    hide DecodesTo;
    hide Wire.Encode;
    hide WireText.Nonce;
    hide WireText.Line;
    hide Wire.ValidNonce;
    hide AgentId;
    hide AgentIds.ValidAgentId;
    hide Text.PrintInt;
  }

  lemma AgentIdMeans(s: string)
    ensures AgentId(s) <==> AgentIds.ValidAgentId(s)
    ensures AgentId(s) ==> WireText.Line(s)
  {
  }

  /** A rotation is let in iff it is admissible away from the newest key of its agent. */
  lemma RotateAdmits(c: Config, s: State, t: nat, r: RotateRequest, nowUnix: int, s': State)
    requires LedgersChain(s) && Next(c, s, ReadCurrent(t, r, nowUnix), s')
    ensures t in s'.tasks && s'.tables == s.tables
    ensures var rows := RowsOf(s.tables.keys, r.agent);
            forall current, newKey :: s'.tasks[t] == RotateReady(r, newKey, current) <==>
              rows != [] && current == rows[|rows| - 1] && RotateAdmissible(c, r, current, newKey, nowUnix)
    ensures s'.tasks[t] == Done || exists current, newKey :: s'.tasks[t] == RotateReady(r, newKey, current)
  {
    var rows := RowsOf(s.tables.keys, r.agent);
    if rows != [] { ChainCurrent(rows); }
    forall current, newKey
      ensures RotateChecked(c, r, current, newKey, nowUnix) <==> RotateAdmissible(c, r, current, newKey, nowUnix)
    {
      RotateCheckedExactly(c, r, current, newKey, nowUnix);
    }
    assert forall current, newKey | RotateAdmissible(c, r, current, newKey, nowUnix) ::
        DecodeExact(r.newHex, 32) == Some(newKey);
    assert rows == [] ==> CurrentKey(rows) == None;
    hide RotateChecked;
    hide RotateAdmissible;
    hide DecodeExact;
    hide CurrentKey;
    hide Chain;
    hide LedgersChain;
  }

  // ---------- over runs ----------

  /** The request a task works for came in by an earlier step, in time. */
  ghost predicate CameIn(steps: seq<Step>, i: nat, task: Task)
    requires i <= |steps|
  {
    && (Registering(task) ==> exists j: nat | j < i ::
          steps[j].Register? && steps[j].reg == task.reg && InTime(steps[j].nowUnix, task.reg.issuedAt))
    && (Rotating(task) ==> exists j: nat | j < i ::
          steps[j].ReadCurrent? && steps[j].rot == task.rot && InTime(steps[j].nowUnix, task.rot.issuedAt))
  }

  predicate Registering(task: Task) { task.RegisterReady? || task.RegisterNonceUsed? || task.RegisterTimed? }

  /** A step moves a task on with its request, or lets a request in, in time. */
  lemma TaskStep(c: Config, s: State, step: Step, s': State, t: nat)
    requires Next(c, s, step, s') && t in s'.tasks
    ensures Registering(s'.tasks[t]) ==>
              || (t in s.tasks && Registering(s.tasks[t]) && s.tasks[t].reg == s'.tasks[t].reg)
              || (step.Register? && step.reg == s'.tasks[t].reg && InTime(step.nowUnix, step.reg.issuedAt))
    ensures Rotating(s'.tasks[t]) ==>
              || (t in s.tasks && Rotating(s.tasks[t]) && s.tasks[t].rot == s'.tasks[t].rot)
              || (step.ReadCurrent? && step.rot == s'.tasks[t].rot && InTime(step.nowUnix, step.rot.issuedAt))
  {
    hide Rotated;
    hide AgentInserted;
    hide CurrentKey;
    hide DecodeExact;
    hide Wire.Encode;
    hide Wire.ValidNonce;
    hide SignedBy;
    hide AgentIds.ValidAgentId;
    hide ValidLabel;
  }

  lemma {:induction false} TasksCameIn(c: Config, states: seq<State>, steps: seq<Step>, i: nat, t: nat)
    requires IsRun(c, states, steps) && i < |states| && t in states[i].tasks
    ensures CameIn(steps, i, states[i].tasks[t])
  {
    assert i > 0;
    var s, step, s' := states[i - 1], steps[i - 1], states[i];
    TaskStep(c, s, step, s', t);
    hide Next;
    if t in s.tasks { TasksCameIn(c, states, steps, i - 1, t); }
  }

  /** Every committed rotation was asked for by a request that was in time when it came in. */
  lemma {:induction false} CommitsCameInTime(c: Config, states: seq<State>, steps: seq<Step>, i: nat, n: nat)
    requires IsRun(c, states, steps) && i < |states| && n < |states[i].commits|
    ensures var rot := states[i].commits[n].rot;
            exists j: nat | j < i ::
              && steps[j].ReadCurrent? && steps[j].rot == rot
              && steps[j].nowUnix - 300 <= rot.issuedAt <= steps[j].nowUnix + 300
  {
    assert i > 0;
    var s, step, s' := states[i - 1], steps[i - 1], states[i];
    CommitsGrow(c, s, step, s');
    hide Next;
    if n < |s.commits| {
      CommitsCameInTime(c, states, steps, i - 1, n);
    } else {
      TasksCameIn(c, states, steps, i - 1, step.t);
    }
  }

  lemma RegisteredStep(c: Config, s: State, step: Step, s': State, a: string)
    requires Next(c, s, step, s') && a in s'.registered
    ensures || (a in s.registered && s.registered[a] == s'.registered[a])
            || (step.InsertAgent? && step.t in s.tasks && s.tasks[step.t].RegisterTimed? && s.tasks[step.t].reg == s'.registered[a])
  {
    hide RegisterChecked;
    hide RotateChecked;
    hide AgentInserted;
    hide Rotated;
    hide AgentIdFor;
  }

  /** Every registered agent was asked for by a request that was in time when it came in. */
  lemma {:induction false} RegistrationsCameInTime(c: Config, states: seq<State>, steps: seq<Step>, i: nat, a: string)
    requires IsRun(c, states, steps) && i < |states| && a in states[i].registered
    ensures var reg := states[i].registered[a];
            exists j: nat | j < i ::
              && steps[j].Register? && steps[j].reg == reg
              && steps[j].nowUnix - 300 <= reg.issuedAt <= steps[j].nowUnix + 300
  {
    assert i > 0;
    var s, step, s' := states[i - 1], steps[i - 1], states[i];
    RegisteredStep(c, s, step, s', a);
    hide Next;
    if a in s.registered && s.registered[a] == s'.registered[a] {
      RegistrationsCameInTime(c, states, steps, i - 1, a);
    } else {
      TasksCameIn(c, states, steps, i - 1, step.t);
    }
  }

  // ---------- nonces ----------

  /** The registration nonce a task has consumed and not yet spent. */
  predicate HoldsRegistration(s: State, t: nat, nonce: string) {
    t in s.tasks && (s.tasks[t].RegisterNonceUsed? || s.tasks[t].RegisterTimed?) && s.tasks[t].reg.nonce == nonce
  }

  predicate SpentOn(s: State, a: string, nonce: string) { a in s.registered && s.registered[a].nonce == nonce }

  /** A consumed registration nonce is held by one task or backs one agent, never both. */
  ghost predicate RegistrationNoncesOnce(s: State) {
    && (forall t, nonce :: HoldsRegistration(s, t, nonce) ==> nonce in s.tables.registrationNonces)
    && (forall a, nonce :: SpentOn(s, a, nonce) ==> nonce in s.tables.registrationNonces)
    && (forall t, u, nonce :: HoldsRegistration(s, t, nonce) && HoldsRegistration(s, u, nonce) ==> t == u)
    && (forall a, b, nonce :: SpentOn(s, a, nonce) && SpentOn(s, b, nonce) ==> a == b)
    && (forall t, a, nonce :: !(HoldsRegistration(s, t, nonce) && SpentOn(s, a, nonce)))
  }

  lemma RegistrationFrame(c: Config, s: State, step: Step, s': State)
    requires Next(c, s, step, s')
    ensures s.tables.registrationNonces <= s'.tables.registrationNonces
    ensures forall t, nonce :: HoldsRegistration(s', t, nonce) ==>
              || HoldsRegistration(s, t, nonce)
              || (step == UseRegisterNonce(t) && nonce !in s.tables.registrationNonces && nonce in s'.tables.registrationNonces)
    ensures forall a, nonce :: SpentOn(s', a, nonce) ==>
              || SpentOn(s, a, nonce)
              || (step.InsertAgent? && HoldsRegistration(s, step.t, nonce) && !HoldsRegistration(s', step.t, nonce)
                  && forall b | b != a :: SpentOn(s', b, nonce) ==> SpentOn(s, b, nonce))
  {
    hide RegisterChecked;
    hide RotateChecked;
    hide Rotate;
    hide AgentIdFor;
    hide LedgerConflict;
  }

  lemma {:induction false} RunRegistrationNonces(c: Config, states: seq<State>, steps: seq<Step>, i: nat)
    requires IsRun(c, states, steps) && i < |states|
    ensures RegistrationNoncesOnce(states[i])
  {
    if i > 0 {
      RunRegistrationNonces(c, states, steps, i - 1);
      RegistrationFrame(c, states[i - 1], steps[i - 1], states[i]);
      hide Next;
      hide HoldsRegistration;
      hide SpentOn;
    }
  }

  /** No registration nonce backs two agents. */
  lemma NonceRegistersOneAgent(c: Config, states: seq<State>, steps: seq<Step>, i: nat, a: string, b: string)
    requires IsRun(c, states, steps) && i < |states| && a in states[i].registered && b in states[i].registered
    requires states[i].registered[a].nonce == states[i].registered[b].nonce
    ensures a == b
  {
    RunRegistrationNonces(c, states, steps, i);
    assert SpentOn(states[i], a, states[i].registered[a].nonce) && SpentOn(states[i], b, states[i].registered[a].nonce);
  }

  /** Step `j` presented the nonce. */
  ghost predicate Presented(states: seq<State>, steps: seq<Step>, j: nat, nonce: string)
    requires j < |steps| < |states|
  {
    steps[j].UseRotateNonce? && steps[j].t in states[j].tasks && states[j].tasks[steps[j].t].RotateReady?
    && states[j].tasks[steps[j].t].rot.nonce == nonce
  }

  lemma NonceStored(c: Config, s: State, step: Step, s': State, nonce: string)
    requires Next(c, s, step, s')
    ensures nonce in s'.tables.rotationNonces <==>
            || nonce in s.tables.rotationNonces
            || (step.UseRotateNonce? && s.tasks[step.t].RotateReady? && s.tasks[step.t].rot.nonce == nonce)
    ensures step.UseRotateNonce? ==> step.t in s.tasks && s.tasks[step.t].RotateReady?
    ensures step.UseRotateNonce? ==>
              (s'.tasks[step.t].RotateNonceUsed? <==> s.tasks[step.t].rot.nonce !in s.tables.rotationNonces)
  {
    hide RegisterChecked;
    hide RotateChecked;
    hide Rotate;
    hide AgentIdFor;
    hide LedgerConflict;
  }

  lemma {:induction false} NoncesExactly(c: Config, states: seq<State>, steps: seq<Step>, i: nat, nonce: string)
    requires IsRun(c, states, steps) && i < |states|
    ensures nonce in states[i].tables.rotationNonces <==> exists j: nat | j < i :: Presented(states, steps, j, nonce)
  {
    if i > 0 {
      NoncesExactly(c, states, steps, i - 1, nonce);
      NonceStored(c, states[i - 1], steps[i - 1], states[i], nonce);
      hide Next;
      if j: nat :| j < i && Presented(states, steps, j, nonce) {
        if j < i - 1 { assert Presented(states, steps, j, nonce); }
      }
      if steps[i - 1].UseRotateNonce? && states[i - 1].tasks[steps[i - 1].t].rot.nonce == nonce {
        assert Presented(states, steps, i - 1, nonce);
      }
    }
  }

  /** A rotation passes the replay check iff no earlier request presented its nonce. */
  lemma ReplayCheckExactly(c: Config, states: seq<State>, steps: seq<Step>, i: nat)
    requires IsRun(c, states, steps) && i < |steps| && steps[i].UseRotateNonce?
    ensures var t := steps[i].t;
            && t in states[i].tasks && states[i].tasks[t].RotateReady? && t in states[i + 1].tasks
            && (states[i + 1].tasks[t].RotateNonceUsed? <==>
                  !exists j: nat | j < i :: Presented(states, steps, j, states[i].tasks[t].rot.nonce))
  {
    assert Next(c, states[i], steps[i], states[i + 1]);
    NonceStored(c, states[i], steps[i], states[i + 1], "");
    NoncesExactly(c, states, steps, i, states[i].tasks[steps[i].t].rot.nonce);
    hide RegisterChecked;
    hide RotateChecked;
    hide IsRun;
  }
}
