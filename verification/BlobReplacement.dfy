/**
 What replacing stored blobs does to scanning, over every interleaving: a request reads
 the blob once to scan it and again to send it, and the verdict is cached in between.
 */
module BlobReplacement {
  import opened Wrappers
  import opened Scanner
  import opened Tickets
  import opened DataPlane
  import Hex
  import Wire

  // ---------- the blobs put so far ----------

  datatype Put = Put(id: string, blob: Blob)

  function PutOf(step: Step): seq<Put> {
    match step
    case PutBlob(id, blob) => [Put(id, blob)]
    case _ => []
  }

  /** The puts of a run, in order. */
  function Puts(steps: seq<Step>): seq<Put> {
    if steps == [] then [] else Puts(steps[..|steps| - 1]) + PutOf(steps[|steps| - 1])
  }

  predicate WasPut(c: Config, puts: seq<Put>, id: string, blocked: bool) {
    exists j: nat | j < |puts| :: puts[j].id == id && Blocks(c, puts[j].blob) == blocked
  }

  /** Under this id no blob with verdict `blocked` is followed by one of the other verdict. */
  predicate Keeps(c: Config, puts: seq<Put>, id: string, blocked: bool) {
    forall j, k | 0 <= j < k < |puts| && puts[j].id == id && puts[k].id == id ::
      Blocks(c, puts[j].blob) == blocked ==> Blocks(c, puts[k].blob) == blocked
  }

  /** All blobs put under this id get the same verdict. */
  predicate Agree(c: Config, puts: seq<Put>, id: string) {
    forall j, k | 0 <= j < |puts| && 0 <= k < |puts| && puts[j].id == id && puts[k].id == id ::
      Blocks(c, puts[j].blob) == Blocks(c, puts[k].blob)
  }

  lemma AgreeIffKeepsBoth(c: Config, puts: seq<Put>, id: string)
    ensures Agree(c, puts, id) <==> Keeps(c, puts, id, false) && Keeps(c, puts, id, true)
  {
    hide Blocks;
    if Keeps(c, puts, id, false) && Keeps(c, puts, id, true) {
      forall j, k | 0 <= j < |puts| && 0 <= k < |puts| && puts[j].id == id && puts[k].id == id
        ensures Blocks(c, puts[j].blob) == Blocks(c, puts[k].blob)
      {
        if j > k { assert puts[k].id == puts[j].id; }
      }
    }
  }

  lemma WasPutGrows(c: Config, puts: seq<Put>, more: seq<Put>, id: string, blocked: bool)
    requires WasPut(c, puts, id, blocked)
    ensures WasPut(c, puts + more, id, blocked)
  {
    hide Blocks;
    var j: nat :| j < |puts| && puts[j].id == id && Blocks(c, puts[j].blob) == blocked;
    assert (puts + more)[j] == puts[j];
  }

  /** The pipeline's decision depends on the bytes alone. */
  lemma BlocksIgnoresMetadata(c: Config, a: Metadata, b: Metadata, bytes: seq<Hex.Byte>)
    ensures Blocks(c, Blob(a, bytes)) == Blocks(c, Blob(b, bytes))
  {
    hide Scan;
    if c.scanner.Some? {
      PipelineBlocksExactly(c.scanner.value, ScanInput(bytes, Some(a.filename), Some(a.mime)));
      PipelineBlocksExactly(c.scanner.value, ScanInput(bytes, Some(b.filename), Some(b.mime)));
    }
  }

  // ---------- every verdict stems from a blob that was put ----------

  predicate PhaseEvidence(c: Config, puts: seq<Put>, id: string, phase: Phase) {
    match phase
    case Judged(_, verdict) => c.scanner.Some? && WasPut(c, puts, id, Blocking(verdict))
    case Cleared(_) => c.scanner.Some? ==> WasPut(c, puts, id, false)
    case Blocked(verdict) => Blocking(verdict) && WasPut(c, puts, id, true)
    case _ => true
  }

  predicate CacheEvidence(c: Config, puts: seq<Put>, id: string, cached: CachedVerdict) {
    match cached
    case CachedClean => WasPut(c, puts, id, false)
    case CachedBlocked(reason) => Blocking(reason) && WasPut(c, puts, id, true)
  }

  ghost predicate Evidence(c: Config, puts: seq<Put>, s: State) {
    && (forall id | id in s.blobs :: WasPut(c, puts, id, Blocks(c, s.blobs[id])))
    && (forall id | id in s.cache :: CacheEvidence(c, puts, id, s.cache[id]))
    && forall t | t in s.tasks && s.tasks[t].Request? :: PhaseEvidence(c, puts, s.tasks[t].id, s.tasks[t].phase)
  }

  lemma EvidenceGrows(c: Config, puts: seq<Put>, more: seq<Put>, s: State)
    requires Evidence(c, puts, s)
    ensures Evidence(c, puts + more, s)
  {
    hide Blocks;
    hide WasPut;
    forall id, blocked | WasPut(c, puts, id, blocked) ensures WasPut(c, puts + more, id, blocked) {
      WasPutGrows(c, puts, more, id, blocked);
    }
  }

  lemma PutEvidence(c: Config, puts: seq<Put>, s: State, step: Step)
    requires Evidence(c, puts, s) && step.PutBlob?
    ensures Evidence(c, puts + PutOf(step), Next(c, s, step))
  {
    EvidenceGrows(c, puts, PutOf(step), s);
    hide Blocks;
    assert (puts + PutOf(step))[|puts|] == Put(step.id, step.blob);
    assert WasPut(c, puts + PutOf(step), step.id, Blocks(c, step.blob));
    hide WasPut;
  }

  lemma ScanEvidence(c: Config, puts: seq<Put>, s: State, step: Step)
    requires Evidence(c, puts, s) && Enabled(s, step) && step.ScanBytes?
    ensures Evidence(c, puts, Next(c, s, step))
  {
    hide Scan;
    hide WasPut;
    var Request(id, _, _, Missed(metadata)) := s.tasks[step.t];
    if id in s.blobs {
      BlocksIgnoresMetadata(c, metadata, s.blobs[id].metadata, s.blobs[id].bytes);
    }
  }

  lemma StepEvidence(c: Config, puts: seq<Put>, s: State, step: Step)
    requires Evidence(c, puts, s) && Enabled(s, step)
    ensures Evidence(c, puts + PutOf(step), Next(c, s, step))
  {
    if step.PutBlob? {
      PutEvidence(c, puts, s, step);
    } else {
      assert puts + PutOf(step) == puts;
      if step.ScanBytes? { ScanEvidence(c, puts, s, step); } else { PassedOnEvidence(c, puts, s, step); }
    }
  }

  /** All other steps only pass verdicts on, between cache and requests. */
  lemma PassedOnEvidence(c: Config, puts: seq<Put>, s: State, step: Step)
    requires Evidence(c, puts, s) && Enabled(s, step) && !step.PutBlob? && !step.ScanBytes?
    ensures Evidence(c, puts, Next(c, s, step))
  {
    hide Admit;
    hide Blocks;
    hide WasPut;
    hide Scan;
  }

  lemma {:induction false} RunEvidence(c: Config, states: seq<State>, steps: seq<Step>, i: nat)
    requires IsRun(c, states, steps) && i < |states|
    ensures Evidence(c, Puts(steps[..i]), states[i])
  {
    hide Next;
    hide Enabled;
    if i > 0 {
      RunEvidence(c, states, steps, i - 1);
      hide Evidence;
      StepEvidence(c, Puts(steps[..i - 1]), states[i - 1], steps[i - 1]);
      assert steps[..i][..i - 1] == steps[..i - 1];
    }
  }

  // ---------- the stored blob while verdicts do not change back ----------

  /** Once a blob with that verdict was put under the id, what is stored there has it too. */
  ghost predicate StoredKeeps(c: Config, puts: seq<Put>, s: State, id: string, blocked: bool) {
    id in s.blobs && WasPut(c, puts, id, blocked) ==> Blocks(c, s.blobs[id]) == blocked
  }

  lemma StepStoredKeeps(c: Config, puts: seq<Put>, s: State, step: Step, id: string, blocked: bool)
    requires StoredKeeps(c, puts, s, id, blocked) && Enabled(s, step) && Keeps(c, puts + PutOf(step), id, blocked)
    ensures StoredKeeps(c, puts + PutOf(step), Next(c, s, step), id, blocked)
  {
    hide Admit;
    hide Blocks;
    hide Scan;
    var all := puts + PutOf(step);
    if step.PutBlob? {
      assert all[|puts|] == Put(step.id, step.blob);
      if WasPut(c, all, id, blocked) {
        var j: nat :| j < |all| && all[j].id == id && Blocks(c, all[j].blob) == blocked;
        if step.id == id {
          assert Blocks(c, all[|puts|].blob) == blocked;
        } else {
          assert puts[j] == all[j];
        }
      }
    } else {
      assert all == puts;
    }
  }

  lemma KeepsPrefix(c: Config, puts: seq<Put>, more: seq<Put>, id: string, blocked: bool)
    requires Keeps(c, puts + more, id, blocked)
    ensures Keeps(c, puts, id, blocked)
  {
    hide Blocks;
    var all := puts + more;
    assert forall j | 0 <= j < |puts| :: all[j] == puts[j];
  }

  lemma {:induction false} PutsPrefix(steps: seq<Step>, i: nat) returns (rest: seq<Put>)
    requires i <= |steps|
    ensures Puts(steps) == Puts(steps[..i]) + rest
    decreases |steps|
  {
    if i == |steps| {
      assert steps[..i] == steps;
      rest := [];
    } else {
      var front := steps[..|steps| - 1];
      rest := PutsPrefix(front, i);
      assert front[..i] == steps[..i];
      rest := rest + PutOf(steps[|steps| - 1]);
    }
  }

  lemma {:induction false} RunStoredKeeps(c: Config, states: seq<State>, steps: seq<Step>, i: nat, id: string, blocked: bool)
    requires IsRun(c, states, steps) && i < |states| && Keeps(c, Puts(steps), id, blocked)
    ensures StoredKeeps(c, Puts(steps[..i]), states[i], id, blocked)
  {
    hide Next;
    hide Enabled;
    hide Blocks;
    if i > 0 {
      RunStoredKeeps(c, states, steps, i - 1, id, blocked);
      var rest := PutsPrefix(steps, i);
      KeepsPrefix(c, Puts(steps[..i]), rest, id, blocked);
      assert steps[..i][..i - 1] == steps[..i - 1];
      hide StoredKeeps;
      hide Keeps;
      StepStoredKeeps(c, Puts(steps[..i - 1]), states[i - 1], steps[i - 1], id, blocked);
    }
  }

  // ---------- what is served, what is refused ----------

  /** No payload handed out under this id is one the scanner blocks. */
  ghost predicate ServedClean(c: Config, s: State, id: string) {
    forall t | t in s.tasks && s.tasks[t].Request? && s.tasks[t].id == id && s.tasks[t].phase.Served? ::
      !Blocks(c, Blob(s.tasks[t].phase.metadata, s.tasks[t].phase.bytes))
  }

  /** A request for this id is refused as blocked only while what is stored for it is blocked. */
  ghost predicate RefusedRightly(c: Config, s: State, s': State, id: string) {
    forall t | t in s.tasks && t in s'.tasks && s.tasks[t].Request? && s'.tasks[t].Request? && s.tasks[t].id == id ::
      !s.tasks[t].phase.Blocked? && s'.tasks[t].phase.Blocked? && id in s.blobs ==> Blocks(c, s.blobs[id])
  }

  lemma StepServesClean(c: Config, puts: seq<Put>, s: State, step: Step, id: string)
    requires ServedClean(c, s, id) && Evidence(c, puts, s) && StoredKeeps(c, puts, s, id, false) && Enabled(s, step)
    ensures ServedClean(c, Next(c, s, step), id)
  {
    hide Admit;
    hide Scan;
    hide WasPut;
    if step.Fetch? && s.tasks[step.t].id == id && id in s.blobs {
      assert PhaseEvidence(c, puts, id, s.tasks[step.t].phase);
      BlocksIgnoresMetadata(c, s.tasks[step.t].phase.metadata, s.blobs[id].metadata, s.blobs[id].bytes);
    }
  }

  lemma {:induction false} RunServesClean(c: Config, states: seq<State>, steps: seq<Step>, i: nat, id: string)
    requires IsRun(c, states, steps) && i < |states| && Keeps(c, Puts(steps), id, false)
    ensures ServedClean(c, states[i], id)
  {
    hide Next;
    hide Enabled;
    hide Blocks;
    if i > 0 {
      RunServesClean(c, states, steps, i - 1, id);
      RunEvidence(c, states, steps, i - 1);
      RunStoredKeeps(c, states, steps, i - 1, id, false);
      hide Evidence;
      hide StoredKeeps;
      hide Keeps;
      hide ServedClean;
      StepServesClean(c, Puts(steps[..i - 1]), states[i - 1], steps[i - 1], id);
    }
  }

  lemma StepRefusesRightly(c: Config, puts: seq<Put>, s: State, step: Step, id: string)
    requires Evidence(c, puts, s) && StoredKeeps(c, puts, s, id, true) && Enabled(s, step)
    ensures RefusedRightly(c, s, Next(c, s, step), id)
  {
    hide Admit;
    hide Blocks;
    hide WasPut;
    hide Scan;
    if (step.LookUp? || step.Record?) && s.tasks[step.t].id == id {
      assert PhaseEvidence(c, puts, id, s.tasks[step.t].phase);
      assert id in s.cache ==> CacheEvidence(c, puts, id, s.cache[id]);
    }
  }

  lemma RunRefusesRightly(c: Config, states: seq<State>, steps: seq<Step>, i: nat, id: string)
    requires IsRun(c, states, steps) && i < |steps| && Keeps(c, Puts(steps), id, true)
    ensures RefusedRightly(c, states[i], states[i + 1], id)
  {
    RunEvidence(c, states, steps, i);
    RunStoredKeeps(c, states, steps, i, id, true);
    StepRefusesRightly(c, Puts(steps[..i]), states[i], steps[i], id);
  }

  // ---------- runs that go wrong ----------

  predicate CanBeAsked(c: Config, id: string, ticket: Ticket, now: Wire.I64) {
    Check(c.verifier, ticket, now).Ok? && ticket.transferId == id
  }

  /** The run has these puts and ends in `s`. */
  ghost predicate Ends(c: Config, states: seq<State>, steps: seq<Step>, puts: seq<Put>, s: State) {
    IsRun(c, states, steps) && Puts(steps) == puts && states[|steps|] == s
  }

  lemma Do(c: Config, states: seq<State>, steps: seq<Step>, puts: seq<Put>, s: State, step: Step)
    returns (ss: seq<State>, ts: seq<Step>)
    requires Ends(c, states, steps, puts, s) && Enabled(s, step)
    ensures Ends(c, ss, ts, puts + PutOf(step), Next(c, s, step)) && states <= ss && |ts| == |steps| + 1
  {
    hide Next;
    hide Enabled;
    ss, ts := states + [Next(c, s, step)], steps + [step];
    assert ts[..|steps|] == steps;
    forall i | 0 <= i < |ts| ensures Enabled(ss[i], ts[i]) && ss[i + 1] == Next(c, ss[i], ts[i]) {
      if i < |steps| { assert ss[i] == states[i] && ss[i + 1] == states[i + 1]; }
    }
  }

  /** A step that puts nothing. */
  lemma DoQuietly(c: Config, states: seq<State>, steps: seq<Step>, puts: seq<Put>, s: State, step: Step, s': State)
    returns (ss: seq<State>, ts: seq<Step>)
    requires Ends(c, states, steps, puts, s) && Enabled(s, step) && s' == Next(c, s, step) && !step.PutBlob?
    ensures Ends(c, ss, ts, puts, s') && states <= ss && |ts| == |steps| + 1
  {
    hide Ends;
    hide Next;
    ss, ts := Do(c, states, steps, puts, s, step);
    assert puts + PutOf(step) == puts;
  }

  function PutAll(blobs: map<string, Blob>, puts: seq<Put>): map<string, Blob> {
    if puts == [] then blobs
    else PutAll(blobs, puts[..|puts| - 1])[puts[|puts| - 1].id := puts[|puts| - 1].blob]
  }

  lemma {:induction false} DoPuts(c: Config, states: seq<State>, steps: seq<Step>, before: seq<Put>, s: State, puts: seq<Put>)
    returns (ss: seq<State>, ts: seq<Step>)
    requires Ends(c, states, steps, before, s)
    ensures Ends(c, ss, ts, before + puts, s.(blobs := PutAll(s.blobs, puts))) && states <= ss && |steps| <= |ts|
  {
    hide Ends;
    if puts == [] {
      ss, ts := states, steps;
      assert before + puts == before;
    } else {
      var last := |puts| - 1;
      ss, ts := DoPuts(c, states, steps, before, s, puts[..last]);
      var stored := s.(blobs := PutAll(s.blobs, puts[..last]));
      ss, ts := Do(c, ss, ts, before + puts[..last], stored, PutBlob(puts[last].id, puts[last].blob));
      assert before + puts[..last] + [puts[last]] == before + puts;
    }
  }

  /** A request whose blob is stored, in the phase before each of its steps. */
  ghost predicate Asks(s: State, id: string, ticket: Ticket, now: Wire.I64, phase: Phase) {
    s.tasks == map[0 := Request(id, ticket, now, phase)]
  }

  lemma ArriveState(c: Config, s: State, id: string, ticket: Ticket, now: Wire.I64) returns (s': State)
    requires s.tasks == map[] && s.used == {} && CanBeAsked(c, id, ticket, now)
    ensures s' == Next(c, s, Arrive(0, id, Some(ticket), now))
    ensures Asks(s', id, ticket, now, Admitted) && s'.blobs == s.blobs && s'.cache == s.cache
  {
    CheckNames(c, ticket, now);
    hide Check;
    s' := Next(c, s, Arrive(0, id, Some(ticket), now));
  }

  lemma ScanState(c: Config, s: State, id: string, ticket: Ticket, now: Wire.I64) returns (s1: State, s2: State, s3: State)
    requires Asks(s, id, ticket, now, Admitted) && s.cache == map[] && id in s.blobs && c.scanner.Some?
    ensures Enabled(s, Describe(0)) && s1 == Next(c, s, Describe(0))
    ensures Enabled(s1, LookUp(0)) && s2 == Next(c, s1, LookUp(0))
    ensures Enabled(s2, ScanBytes(0)) && s3 == Next(c, s2, ScanBytes(0))
    ensures Asks(s3, id, ticket, now, Judged(s.blobs[id].metadata, VerdictOf(c.scanner.value, s.blobs[id])))
    ensures s3.cache == map[] && s3.blobs == s.blobs
  {
    hide Scan;
    hide Admit;
    s1 := Next(c, s, Describe(0));
    s2 := Next(c, s1, LookUp(0));
    s3 := Next(c, s2, ScanBytes(0));
  }

  /** One request scans the blob of put number `p`. */
  lemma RunScans(c: Config, puts: seq<Put>, p: nat, ticket: Ticket, now: Wire.I64)
    returns (states: seq<State>, steps: seq<Step>, s: State)
    requires c.scanner.Some? && p < |puts| && CanBeAsked(c, puts[p].id, ticket, now)
    ensures Ends(c, states, steps, puts[..p + 1], s) && s.cache == map[]
    ensures Asks(s, puts[p].id, ticket, now, Judged(puts[p].blob.metadata, VerdictOf(c.scanner.value, puts[p].blob)))
  {
    hide VerdictOf;
    var id := puts[p].id;
    states, steps := [Initial], [];
    assert Ends(c, states, steps, [], Initial);
    hide Ends;
    states, steps := DoPuts(c, states, steps, [], Initial, puts[..p + 1]);
    assert [] + puts[..p + 1] == puts[..p + 1];
    s := Initial.(blobs := PutAll(map[], puts[..p + 1]));
    assert puts[..p + 1][p] == puts[p];
    assert id in s.blobs && s.blobs[id] == puts[p].blob;
    hide PutAll;
    var arrived := ArriveState(c, s, id, ticket, now);
    var s1, s2, s3 := ScanState(c, arrived, id, ticket, now);
    assert Enabled(s, Arrive(0, id, Some(ticket), now));
    hide Next;
    hide Enabled;
    states, steps := DoQuietly(c, states, steps, puts[..p + 1], s, Arrive(0, id, Some(ticket), now), arrived);
    states, steps := DoQuietly(c, states, steps, puts[..p + 1], arrived, Describe(0), s1);
    states, steps := DoQuietly(c, states, steps, puts[..p + 1], s1, LookUp(0), s2);
    states, steps := DoQuietly(c, states, steps, puts[..p + 1], s2, ScanBytes(0), s3);
    s := s3;
  }

  lemma RecordClean(c: Config, s: State, put: Put, ticket: Ticket, now: Wire.I64) returns (s': State)
    requires c.scanner.Some? && !Blocks(c, put.blob)
    requires Asks(s, put.id, ticket, now, Judged(put.blob.metadata, VerdictOf(c.scanner.value, put.blob)))
    ensures Enabled(s, Record(0)) && s' == Next(c, s, Record(0))
    ensures Asks(s', put.id, ticket, now, Cleared(put.blob.metadata))
  {
    hide Scan;
    s' := Next(c, s, Record(0));
  }

  lemma FetchServes(c: Config, s: State, m: Metadata, put: Put, ticket: Ticket, now: Wire.I64) returns (s': State)
    requires Asks(s, put.id, ticket, now, Cleared(m)) && put.id in s.blobs && s.blobs[put.id] == put.blob
    requires Blocks(c, put.blob)
    ensures Enabled(s, Fetch(0)) && s' == Next(c, s, Fetch(0)) && !ServedClean(c, s', put.id)
  {
    s' := Next(c, s, Fetch(0));
    assert s'.tasks[0] == Request(put.id, ticket, now, Served(m, put.blob.bytes));
    BlocksIgnoresMetadata(c, m, put.blob.metadata, put.blob.bytes);
    hide Blocks;
  }

  lemma RecordRefuses(c: Config, s: State, scanned: Put, stored: Put, ticket: Ticket, now: Wire.I64) returns (s': State)
    requires Blocks(c, scanned.blob) && !Blocks(c, stored.blob) && scanned.id == stored.id
    requires Asks(s, stored.id, ticket, now, Judged(scanned.blob.metadata, VerdictOf(c.scanner.value, scanned.blob)))
    requires stored.id in s.blobs && s.blobs[stored.id] == stored.blob
    ensures Enabled(s, Record(0)) && s' == Next(c, s, Record(0)) && !RefusedRightly(c, s, s', stored.id)
  {
    hide Scan;
    s' := Next(c, s, Record(0));
    assert 0 in s.tasks && s'.tasks[0].phase.Blocked?;
  }

  /** A clean blob followed by a blocked one: scanned before the second put, fetched after it. */
  lemma BlockedAfterCleanIsServed(c: Config, puts: seq<Put>, p: nat, q: nat, ticket: Ticket, now: Wire.I64)
    returns (states: seq<State>, steps: seq<Step>, i: nat)
    requires p < q < |puts| && puts[p].id == puts[q].id && CanBeAsked(c, puts[p].id, ticket, now)
    requires !Blocks(c, puts[p].blob) && Blocks(c, puts[q].blob)
    ensures IsRun(c, states, steps) && Puts(steps) == puts && i < |states| && !ServedClean(c, states[i], puts[p].id)
  {
    assert c.scanner.Some?;
    hide Blocks;
    hide VerdictOf;
    hide CanBeAsked;
    hide Next;
    hide Enabled;
    hide Asks;
    hide ServedClean;
    hide Ends;
    var s: State;
    states, steps, s := RunScans(c, puts, p, ticket, now);
    var s' := RecordClean(c, s, puts[p], ticket, now);
    states, steps := DoQuietly(c, states, steps, puts[..p + 1], s, Record(0), s');
    var front, stored := StoreUpTo(c, states, steps, puts, p, q, s');
    states, steps := front.0, front.1;
    AsksKept(s', stored, puts[p].id, ticket, now, Cleared(puts[p].blob.metadata));
    s := FetchServes(c, stored, puts[p].blob.metadata, puts[q], ticket, now);
    states, steps := DoQuietly(c, states, steps, puts[..q + 1], stored, Fetch(0), s);
    i := LastState(c, states, steps, puts[..q + 1], s);
    states, steps := StoreRest(c, states, steps, puts, q, s);
  }

  /** A blocked blob followed by a clean one: scanned before the second put, recorded after it. */
  lemma CleanAfterBlockedIsRefused(c: Config, puts: seq<Put>, p: nat, q: nat, ticket: Ticket, now: Wire.I64)
    returns (states: seq<State>, steps: seq<Step>, i: nat)
    requires p < q < |puts| && puts[p].id == puts[q].id && CanBeAsked(c, puts[p].id, ticket, now)
    requires Blocks(c, puts[p].blob) && !Blocks(c, puts[q].blob)
    ensures IsRun(c, states, steps) && Puts(steps) == puts && i < |steps|
    ensures !RefusedRightly(c, states[i], states[i + 1], puts[p].id)
  {
    assert c.scanner.Some?;
    hide Blocks;
    hide VerdictOf;
    hide CanBeAsked;
    hide Next;
    hide Enabled;
    hide Asks;
    hide RefusedRightly;
    hide Ends;
    var s: State;
    states, steps, s := RunScans(c, puts, p, ticket, now);
    var front, stored := StoreUpTo(c, states, steps, puts, p, q, s);
    states, steps := front.0, front.1;
    AsksKept(s, stored, puts[p].id, ticket, now, Judged(puts[p].blob.metadata, VerdictOf(c.scanner.value, puts[p].blob)));
    s := RecordRefuses(c, stored, puts[p], puts[q], ticket, now);
    i := LastState(c, states, steps, puts[..q + 1], stored);
    states, steps := DoQuietly(c, states, steps, puts[..q + 1], stored, Record(0), s);
    var j := LastState(c, states, steps, puts[..q + 1], s);
    states, steps := StoreRest(c, states, steps, puts, q, s);
  }

  lemma LastState(c: Config, states: seq<State>, steps: seq<Step>, puts: seq<Put>, s: State) returns (i: nat)
    requires Ends(c, states, steps, puts, s)
    ensures i == |steps| && |states| == |steps| + 1 && states[i] == s
  {
    i := |steps|;
  }

  lemma AsksKept(s: State, s': State, id: string, ticket: Ticket, now: Wire.I64, phase: Phase)
    requires Asks(s, id, ticket, now, phase) && s'.tasks == s.tasks
    ensures Asks(s', id, ticket, now, phase)
  {
  }

  lemma StoreUpTo(c: Config, states: seq<State>, steps: seq<Step>, puts: seq<Put>, p: nat, q: nat, s: State)
    returns (run: (seq<State>, seq<Step>), s': State)
    requires p < q < |puts| && Ends(c, states, steps, puts[..p + 1], s)
    ensures Ends(c, run.0, run.1, puts[..q + 1], s') && s'.tasks == s.tasks
    ensures puts[q].id in s'.blobs && s'.blobs[puts[q].id] == puts[q].blob
  {
    hide Ends;
    var middle := puts[p + 1..q + 1];
    var ss, ts := DoPuts(c, states, steps, puts[..p + 1], s, middle);
    assert puts[..p + 1] + middle == puts[..q + 1];
    assert middle[|middle| - 1] == puts[q];
    run, s' := (ss, ts), s.(blobs := PutAll(s.blobs, middle));
  }

  lemma StoreRest(c: Config, states: seq<State>, steps: seq<Step>, puts: seq<Put>, q: nat, s: State)
    returns (ss: seq<State>, ts: seq<Step>)
    requires q < |puts| && Ends(c, states, steps, puts[..q + 1], s)
    ensures IsRun(c, ss, ts) && Puts(ts) == puts && states <= ss && |steps| <= |ts|
  {
    ss, ts := DoPuts(c, states, steps, puts[..q + 1], s, puts[q + 1..]);
    assert puts[..q + 1] + puts[q + 1..] == puts;
  }

  // ---------- exactly when ----------

  /** In every run with these puts no payload handed out is one the scanner blocks. */
  ghost predicate AlwaysServesClean(c: Config, puts: seq<Put>) {
    forall states, steps | IsRun(c, states, steps) && Puts(steps) == puts ::
      forall i, id | 0 <= i < |states| :: ServedClean(c, states[i], id)
  }

  ghost predicate RefusedAt(c: Config, states: seq<State>, i: nat, id: string)
    requires i + 1 < |states|
  {
    RefusedRightly(c, states[i], states[i + 1], id)
  }

  /** In every run with these puts requests are refused only while what is stored is blocked. */
  ghost predicate AlwaysRefusesRightly(c: Config, puts: seq<Put>) {
    forall states, steps | IsRun(c, states, steps) && Puts(steps) == puts ::
      forall i: nat, id | i < |steps| :: RefusedAt(c, states, i, id)
  }

  /** Some ticket for the transfer passes every check at some time. */
  ghost predicate Askable(c: Config, id: string) { exists ticket, now :: CanBeAsked(c, id, ticket, now) }

  /** Only such transfers are ever requested. */
  lemma RequestedIsAskable(c: Config, states: seq<State>, steps: seq<Step>, i: nat, t: nat)
    requires IsRun(c, states, steps) && i < |states| && t in states[i].tasks && states[i].tasks[t].Request?
    ensures Askable(c, states[i].tasks[t].id)
  {
    RunKeepsTickets(c, states, steps, i);
    hide IsRun;
    hide Check;
    assert Holding(states[i], t).Some?;
    assert CanBeAsked(c, states[i].tasks[t].id, states[i].tasks[t].ticket, states[i].tasks[t].at);
  }

  /** Only payloads the scanner passes leave iff no transfer that can be asked for gets a blocked blob after a clean one. */
  lemma ServesCleanExactly(c: Config, puts: seq<Put>)
    ensures AlwaysServesClean(c, puts) <==> forall id | Askable(c, id) :: Keeps(c, puts, id, false)
  {
    hide Blocks;
    hide CanBeAsked;
    hide IsRun;
    if forall id | Askable(c, id) :: Keeps(c, puts, id, false) {
      hide Keeps;
      hide Askable;
      forall states: seq<State>, steps: seq<Step>, i: nat, id: string
        | IsRun(c, states, steps) && Puts(steps) == puts && i < |states|
        ensures ServedClean(c, states[i], id)
      {
        forall t | t in states[i].tasks && states[i].tasks[t].Request? ensures Askable(c, states[i].tasks[t].id) {
          RequestedIsAskable(c, states, steps, i, t);
        }
        if Askable(c, id) { RunServesClean(c, states, steps, i, id); }
      }
    } else {
      hide ServedClean;
      var id :| Askable(c, id) && !Keeps(c, puts, id, false);
      var p, q :| 0 <= p < q < |puts| && puts[p].id == id == puts[q].id && !Blocks(c, puts[p].blob) && Blocks(c, puts[q].blob);
      var ticket, now :| CanBeAsked(c, id, ticket, now);
      var states, steps, i := BlockedAfterCleanIsServed(c, puts, p, q, ticket, now);
    }
  }

  /** Refusals are never about another blob iff no transfer that can be asked for gets a clean blob after a blocked one. */
  lemma RefusesRightlyExactly(c: Config, puts: seq<Put>)
    ensures AlwaysRefusesRightly(c, puts) <==> forall id | Askable(c, id) :: Keeps(c, puts, id, true)
  {
    hide Blocks;
    hide CanBeAsked;
    if forall id | Askable(c, id) :: Keeps(c, puts, id, true) {
      hide Keeps;
      hide Askable;
      forall states: seq<State>, steps: seq<Step>, i: nat, id: string
        | IsRun(c, states, steps) && Puts(steps) == puts && i < |steps|
        ensures RefusedAt(c, states, i, id)
      {
        forall t | t in states[i].tasks && states[i].tasks[t].Request? ensures Askable(c, states[i].tasks[t].id) {
          RequestedIsAskable(c, states, steps, i, t);
        }
        if Askable(c, id) { RunRefusesRightly(c, states, steps, i, id); }
      }
    } else {
      hide RefusedRightly;
      var id :| Askable(c, id) && !Keeps(c, puts, id, true);
      var p, q :| 0 <= p < q < |puts| && puts[p].id == id == puts[q].id && Blocks(c, puts[p].blob) && !Blocks(c, puts[q].blob);
      var ticket, now :| CanBeAsked(c, id, ticket, now);
      var states, steps, i := CleanAfterBlockedIsRefused(c, puts, p, q, ticket, now);
      assert !RefusedAt(c, states, i, id);
    }
  }

  /** Both hold in every interleaving iff all blobs put under one askable id get the same verdict. */
  lemma ScanningIsSoundExactly(c: Config, puts: seq<Put>)
    ensures AlwaysServesClean(c, puts) && AlwaysRefusesRightly(c, puts) <==>
            forall id | Askable(c, id) :: Agree(c, puts, id)
  {
    ServesCleanExactly(c, puts);
    RefusesRightlyExactly(c, puts);
    hide AlwaysServesClean;
    hide AlwaysRefusesRightly;
    hide Askable;
    hide Keeps;
    hide Agree;
    forall id ensures Agree(c, puts, id) <==> Keeps(c, puts, id, false) && Keeps(c, puts, id, true) {
      AgreeIffKeepsBoth(c, puts, id);
    }
  }

  /**
   End to end: under an ideal signature every payload handed out was asked for with an
   unexpired ticket issued for that very transfer and this data plane, whose nonce no
   other admitted request carries; and with the shipped pipeline, if its transfer got no
   blocked blob after a clean one, it is within the size limit and free of the EICAR bytes.
   */
  lemma DeliveriesAreAuthorisedAndScanned(
    c: Config, issued: set<(Wire.Version, Wire.Message)>, states: seq<State>, steps: seq<Step>, i: nat, t: nat)
    requires IsRun(c, states, steps) && i < |states| && SignedOnly(c.verifier, issued)
    requires t in states[i].tasks && states[i].tasks[t].Request? && states[i].tasks[t].phase.Served?
    ensures var Request(id, ticket, at, Served(metadata, bytes)) := states[i].tasks[t];
            && (Wire.V1, Wire.DataTicket(id, ticket.recipient, c.verifier.url, ticket.expires, ticket.nonce)) in issued
            && (MIN_I64 <= ticket.expires + c.verifier.skew ==> at <= ticket.expires + c.verifier.skew)
            && (forall u | u in states[i].tasks && u != t && states[i].tasks[u].Request? ::
                  states[i].tasks[u].ticket.nonce != ticket.nonce)
            && (c.scanner.Some? && Keeps(c, Puts(steps), id, false) ==>
                  && |bytes| <= c.scanner.value.maxBytes
                  && !exists a, b :: bytes == a + EICAR_SIGNATURE + b)
  {
    DeliveriesAreAuthorised(c, issued, states, steps, i, t);
    hide IsRun;
    hide SignedOnly;
    var Request(id, _, _, Served(metadata, bytes)) := states[i].tasks[t];
    if c.scanner.Some? && Keeps(c, Puts(steps), id, false) {
      RunServesClean(c, states, steps, i, id);
      hide Scan;
      PipelineBlocksExactly(c.scanner.value, ScanInput(bytes, Some(metadata.filename), Some(metadata.mime)));
    }
  }
}
