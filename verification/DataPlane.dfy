/** Data-plane tickets: signed capabilities, each accepted at most once. */
module Tickets {
  import opened Wrappers
  import Hex
  import opened Wire

  type Byte = Hex.Byte

  datatype Ticket = Ticket(
    transferId: string, recipient: string, dataPlaneUrl: string, expires: I64, nonce: string, signature: string)

  datatype VerifiedTicket = VerifiedTicket(transferId: string, recipient: string, expires: I64, nonce: string)

  datatype TicketError =
    | Encoding
    | BadSignature
    | Expired(expires: I64, now: I64)
    | WrongAudience(ticket: string, ours: string)
    | NonceReplay
    | Canon(error: WireError)

  /** `verifies(text, signature)` is the signature check under the control plane's key. */
  datatype Verifier = Verifier(url: string, skew: I64, verifies: (string, seq<Byte>) -> bool)

  const DEFAULT_SKEW: I64 := 60

  const MIN_I64: I64 := -0x8000_0000_0000_0000
  const MAX_I64: I64 := 0x7fff_ffff_ffff_ffff

  /** Two's-complement wrap-around of 64-bit addition. */
  function Wrap(x: int): I64 { (x + 0x8000_0000_0000_0000) % 0x1_0000_0000_0000_0000 - 0x8000_0000_0000_0000 }

  predicate ExpiredAt(v: Verifier, expires: I64, now: I64) { Wrap(expires + v.skew) < now }

  function MessageOf(ticket: Ticket): Message {
    DataTicket(ticket.transferId, ticket.recipient, ticket.dataPlaneUrl, ticket.expires, ticket.nonce)
  }

  /** Every check but the replay check. */
  function Check(v: Verifier, ticket: Ticket, now: I64): Result<VerifiedTicket, TicketError> {
    if ticket.dataPlaneUrl != v.url then Err(WrongAudience(ticket.dataPlaneUrl, v.url))
    else if ExpiredAt(v, ticket.expires, now) then Err(Expired(ticket.expires, now))
    else
      match Hex.DecodeExact(ticket.signature, 64)
      case None => Err(Encoding)
      case Some(signature) =>
        match Encode(V1, MessageOf(ticket))
        case Err(error) => Err(Canon(error))
        case Ok(text) =>
          if !v.verifies(text, signature) then Err(BadSignature)
          else Ok(VerifiedTicket(ticket.transferId, ticket.recipient, ticket.expires, ticket.nonce))
  }

  /** The verdict and the used nonces after one call. */
  function Verify(v: Verifier, used: set<string>, ticket: Ticket, now: I64)
    : (Result<VerifiedTicket, TicketError>, set<string>)
  {
    var r := Check(v, ticket, now);
    if r.Err? then (r, used)
    else if ticket.nonce in used then (Err(NonceReplay), used)
    else (r, used + {ticket.nonce})
  }

  class TicketVerifier {
    const config: Verifier
    var usedNonces: set<string>

    constructor (config: Verifier)
      ensures this.config == config && usedNonces == {}
    {
      this.config := config;
      usedNonces := {};
    }

    method Accept(ticket: Ticket, now: I64) returns (r: Result<VerifiedTicket, TicketError>)
      modifies this
      ensures (r, usedNonces) == Verify(config, old(usedNonces), ticket, now)
    {
      if ticket.dataPlaneUrl != config.url { return Err(WrongAudience(ticket.dataPlaneUrl, config.url)); }
      if Wrap(ticket.expires + config.skew) < now { return Err(Expired(ticket.expires, now)); }
      var signature := Hex.Decode(ticket.signature);
      if signature.None? || |signature.value| != 64 { return Err(Encoding); }
      var text := Encode(V1, MessageOf(ticket));
      if text.Err? { return Err(Canon(text.error)); }
      if !config.verifies(text.value, signature.value) { return Err(BadSignature); }
      if ticket.nonce in usedNonces { return Err(NonceReplay); }
      usedNonces := usedNonces + {ticket.nonce};
      r := Ok(VerifiedTicket(ticket.transferId, ticket.recipient, ticket.expires, ticket.nonce));
    }
  }

  // ---------- expiry ----------

  /** The wrapped test agrees with exact arithmetic at every clock reading iff the sum fits in 64 bits. */
  lemma ExpiryExactIffSumFits(v: Verifier, expires: I64)
    ensures (forall now: I64 :: ExpiredAt(v, expires, now) <==> expires + v.skew < now) <==>
            MIN_I64 <= expires + v.skew <= MAX_I64
  {
    var sum := expires + v.skew;
    if sum > MAX_I64 {
      assert ExpiredAt(v, expires, MAX_I64);
    } else if sum < MIN_I64 {
      assert !ExpiredAt(v, expires, MIN_I64);
    }
  }

  /** No expired ticket passes at any clock reading iff the sum does not fall below the range. */
  lemma NoExpiredPassesIffNoUnderflow(v: Verifier, expires: I64)
    ensures (forall now: I64 :: !ExpiredAt(v, expires, now) ==> now <= expires + v.skew) <==>
            MIN_I64 <= expires + v.skew
  {
    if expires + v.skew < MIN_I64 {
      assert !ExpiredAt(v, expires, MIN_I64);
    }
  }

  /** With the default skew a ticket that expires at the end of time passes only in its first minute. */
  lemma FarFutureTicketRefused(v: Verifier, now: I64)
    requires v.skew == DEFAULT_SKEW
    ensures ExpiredAt(v, MAX_I64, now) <==> now >= MIN_I64 + DEFAULT_SKEW
  {
  }

  // ---------- any sequence of calls ----------

  datatype Call = Call(ticket: Ticket, now: I64)

  function UsedAfter(v: Verifier, calls: seq<Call>): set<string> {
    if calls == [] then {}
    else
      var n := |calls| - 1;
      Verify(v, UsedAfter(v, calls[..n]), calls[n].ticket, calls[n].now).1
  }

  /** What call number `i` answers. */
  function Answer(v: Verifier, calls: seq<Call>, i: nat): Result<VerifiedTicket, TicketError>
    requires i < |calls|
  {
    Verify(v, UsedAfter(v, calls[..i]), calls[i].ticket, calls[i].now).0
  }

  /**
   The ideal signature: whatever verifies is the canonical text of a message the
   control plane signed, of any type and version.
   */
  ghost predicate SignedOnly(v: Verifier, issued: set<(Version, Message)>) {
    forall text, signature | v.verifies(text, signature) ::
      exists w, m :: (w, m) in issued && Defined(w, m) && Encode(w, m) == Ok(text)
  }

  lemma CheckedIsIssued(v: Verifier, issued: set<(Version, Message)>, ticket: Ticket, now: I64)
    requires SignedOnly(v, issued) && Check(v, ticket, now).Ok?
    ensures (V1, MessageOf(ticket)) in issued
    ensures ticket.dataPlaneUrl == v.url
    ensures MIN_I64 <= ticket.expires + v.skew ==> now <= ticket.expires + v.skew
    ensures var r := Check(v, ticket, now).value;
            r.transferId == ticket.transferId && r.recipient == ticket.recipient
            && r.expires == ticket.expires && r.nonce == ticket.nonce
  {
    hide Hex.DecodeExact;
    hide Encode;
    var signature := Hex.DecodeExact(ticket.signature, 64).value;
    var text := Encode(V1, MessageOf(ticket)).value;
    var w, m :| (w, m) in issued && Defined(w, m) && Encode(w, m) == Ok(text);
    EncodeInjective(V1, MessageOf(ticket), w, m);
  }

  ghost predicate AcceptedBefore(v: Verifier, calls: seq<Call>, i: nat, nonce: string)
    requires i <= |calls|
  {
    exists j: nat | j < i :: Answer(v, calls, j).Ok? && calls[j].ticket.nonce == nonce
  }

  /** The set of used nonces is exactly the nonces of the calls accepted so far. */
  lemma {:induction false} UsedAreAccepted(v: Verifier, calls: seq<Call>, i: nat, nonce: string)
    requires i <= |calls|
    ensures nonce in UsedAfter(v, calls[..i]) <==> AcceptedBefore(v, calls, i, nonce)
  {
    hide Check;
    if i > 0 {
      UsedAreAccepted(v, calls, i - 1, nonce);
      assert calls[..i][..i - 1] == calls[..i - 1];
      if AcceptedBefore(v, calls, i, nonce) {
        var j: nat :| j < i && Answer(v, calls, j).Ok? && calls[j].ticket.nonce == nonce;
        if j < i - 1 { assert AcceptedBefore(v, calls, i - 1, nonce); }
      }
    }
  }

  /** A call succeeds iff its ticket passes every check and no earlier accepted call carried its nonce. */
  lemma AcceptedIffCheckedAndNew(v: Verifier, calls: seq<Call>, i: nat)
    requires i < |calls|
    ensures Answer(v, calls, i).Ok? <==>
            && Check(v, calls[i].ticket, calls[i].now).Ok?
            && !AcceptedBefore(v, calls, i, calls[i].ticket.nonce)
  {
    UsedAreAccepted(v, calls, i, calls[i].ticket.nonce);
    hide Check;
    hide UsedAfter;
    hide AcceptedBefore;
  }

  /** Over any sequence of calls: accepted tickets were issued, for this data plane, unexpired, each nonce once. */
  lemma AcceptedTicketsAreIssued(v: Verifier, issued: set<(Version, Message)>, calls: seq<Call>, i: nat)
    requires SignedOnly(v, issued) && i < |calls| && Answer(v, calls, i).Ok?
    ensures var ticket := calls[i].ticket;
            && (V1, MessageOf(ticket)) in issued
            && ticket.dataPlaneUrl == v.url
            && (MIN_I64 <= ticket.expires + v.skew ==> calls[i].now <= ticket.expires + v.skew)
            && Answer(v, calls, i).value
               == VerifiedTicket(ticket.transferId, ticket.recipient, ticket.expires, ticket.nonce)
    ensures forall j: nat | j < |calls| && j != i && Answer(v, calls, j).Ok? ::
              calls[j].ticket.nonce != calls[i].ticket.nonce
  {
    hide UsedAfter;
    AcceptedIffCheckedAndNew(v, calls, i);
    CheckedIsIssued(v, issued, calls[i].ticket, calls[i].now);
    hide Check;
    forall j: nat | j < |calls| && j != i && Answer(v, calls, j).Ok?
      ensures calls[j].ticket.nonce != calls[i].ticket.nonce
    {
      AcceptedIffCheckedAndNew(v, calls, j);
      hide Answer;
      if j < i { assert !AcceptedBefore(v, calls, i, calls[i].ticket.nonce); }
      else { assert !AcceptedBefore(v, calls, j, calls[j].ticket.nonce); }
    }
  }
}

/** Serving blobs behind tickets and a cached scan, as interleaved requests. */
module DataPlane {
  import opened Wrappers
  import opened Tickets
  import opened Scanner
  import Hex
  import Wire

  datatype Metadata = Metadata(size: Wire.U64, mime: string, filename: string)

  datatype Blob = Blob(metadata: Metadata, bytes: seq<Hex.Byte>)

  datatype CachedVerdict = CachedClean | CachedBlocked(reason: PipelineVerdict)

  datatype Config = Config(verifier: Verifier, scanner: Option<Pipeline>)

  datatype ServeError =
    | NoTicket
    | TicketRefused(error: TicketError)
    | TransferMismatch(ticket: string, url: string)
    | BlobNotFound
    | ScannerBlocked(verdict: PipelineVerdict)

  function ScanBlob(p: Pipeline, metadata: Metadata, bytes: seq<Hex.Byte>): PipelineVerdict {
    Scan(p, ScanInput(bytes, Some(metadata.filename), Some(metadata.mime)))
  }

  function VerdictOf(p: Pipeline, blob: Blob): PipelineVerdict { ScanBlob(p, blob.metadata, blob.bytes) }

  /** A scanner is configured and blocks the blob. */
  predicate Blocks(c: Config, blob: Blob) { c.scanner.Some? && Blocking(VerdictOf(c.scanner.value, blob)) }

  /** What the cache says is what scanning the blob would say. */
  predicate Matches(c: Config, cached: CachedVerdict, blob: Blob) {
    match cached
    case CachedClean => !Blocks(c, blob)
    case CachedBlocked(reason) => Blocks(c, blob) && reason == VerdictOf(c.scanner.value, blob)
  }

  // ---------- one request at a time ----------

  /** The ticket part of a request; an accepted ticket for another transfer is spent all the same. */
  function Admit(c: Config, used: set<string>, id: string, ticket: Option<Ticket>, now: Wire.I64)
    : (Result<VerifiedTicket, ServeError>, set<string>)
  {
    if ticket.None? then (Err(NoTicket), used)
    else
      var (r, used') := Verify(c.verifier, used, ticket.value, now);
      if r.Err? then (Err(TicketRefused(r.error)), used')
      else if r.value.transferId != id then (Err(TransferMismatch(r.value.transferId, id)), used')
      else (Ok(r.value), used')
  }

  /** The answer with no cache at all: every request scans. */
  function Rescanned(c: Config, used: set<string>, blobs: map<string, Blob>, id: string, ticket: Option<Ticket>, now: Wire.I64)
    : Result<Blob, ServeError>
  {
    var admitted := Admit(c, used, id, ticket, now).0;
    if admitted.Err? then Err(admitted.error)
    else if id !in blobs then Err(BlobNotFound)
    else if Blocks(c, blobs[id]) then Err(ScannerBlocked(VerdictOf(c.scanner.value, blobs[id])))
    else Ok(blobs[id])
  }

  class Server {
    const config: Config
    var verifier: TicketVerifier
    var blobs: map<string, Blob>
    var scanCache: map<string, CachedVerdict>

    ghost predicate Valid()
      reads this, verifier
    {
      verifier.config == config.verifier
    }

    /** Every cached verdict about a stored blob is the verdict scanning it would give. */
    ghost predicate Honest()
      reads this
    {
      forall id | id in scanCache && id in blobs :: Matches(config, scanCache[id], blobs[id])
    }

    constructor (config: Config)
      ensures Valid() && Honest() && fresh(verifier) && this.config == config
      ensures verifier.usedNonces == {} && blobs == map[] && scanCache == map[]
    {
      this.config := config;
      verifier := new TicketVerifier(config.verifier);
      blobs, scanCache := map[], map[];
    }

    /** A later insert replaces the blob and leaves its cached verdict behind. */
    method Insert(id: string, blob: Blob)
      modifies this`blobs
      ensures blobs == old(blobs)[id := blob]
      ensures old(Honest()) ==> (Honest() <==> (id in scanCache ==> Matches(config, scanCache[id], blob)))
    {
      blobs := blobs[id := blob];
    }

    method Remove(id: string)
      modifies this`blobs
      ensures blobs == old(blobs) - {id}
      ensures old(Honest()) ==> Honest()
    {
      blobs := blobs - {id};
    }

    /** From an honest cache the answer is that of scanning every time, and the cache stays honest. */
    method Serve(id: string, ticket: Option<Ticket>, now: Wire.I64) returns (r: Result<Blob, ServeError>)
      requires Valid()
      modifies this`scanCache, verifier
      ensures Valid()
      ensures verifier.usedNonces == Admit(config, old(verifier.usedNonces), id, ticket, now).1
      ensures old(Honest()) ==>
                && Honest()
                && r == Rescanned(config, old(verifier.usedNonces), blobs, id, ticket, now)
      ensures forall other | other != id :: other in scanCache <==> other in old(scanCache)
      ensures forall other | other in old(scanCache) :: other in scanCache && scanCache[other] == old(scanCache)[other]
    {
      if ticket.None? { return Err(NoTicket); }
      var verified := verifier.Accept(ticket.value, now);
      if verified.Err? { return Err(TicketRefused(verified.error)); }
      if verified.value.transferId != id { return Err(TransferMismatch(verified.value.transferId, id)); }
      if id !in blobs { return Err(BlobNotFound); }
      if config.scanner.Some? {
        if id in scanCache {
          if scanCache[id].CachedBlocked? { return Err(ScannerBlocked(scanCache[id].reason)); }
        } else {
          var verdict := RunPipeline(config.scanner.value,
            ScanInput(blobs[id].bytes, Some(blobs[id].metadata.filename), Some(blobs[id].metadata.mime)));
          if Blocking(verdict) {
            scanCache := scanCache[id := CachedBlocked(verdict)];
            return Err(ScannerBlocked(verdict));
          }
          scanCache := scanCache[id := CachedClean];
        }
      }
      r := Ok(blobs[id]);
    }
  }

  // ---------- interleaved requests ----------

  /** Where a request stands between two awaits. */
  datatype Phase =
    | Admitted
    | Described(metadata: Metadata)
    | Missed(metadata: Metadata)
    | Judged(metadata: Metadata, verdict: PipelineVerdict)
    | Cleared(metadata: Metadata)
    | Served(metadata: Metadata, bytes: seq<Hex.Byte>)
    | Blocked(verdict: PipelineVerdict)
    | NotFound

  /** `at` is the clock reading when the ticket was checked. */
  datatype Task = Rejected(error: ServeError) | Request(id: string, ticket: Ticket, at: Wire.I64, phase: Phase)

  datatype State = State(
    used: set<string>, blobs: map<string, Blob>, cache: map<string, CachedVerdict>, tasks: map<nat, Task>)

  datatype Step =
    | Arrive(t: nat, id: string, ticket: Option<Ticket>, now: Wire.I64)
    | Describe(t: nat)
    | LookUp(t: nat)
    | ScanBytes(t: nat)
    | Record(t: nat)
    | Fetch(t: nat)
    | PutBlob(id: string, blob: Blob)
    | RemoveBlob(id: string)

  const Initial := State({}, map[], map[], map[])

  function Moved(s: State, t: nat, phase: Phase): State
    requires t in s.tasks && s.tasks[t].Request?
  {
    s.(tasks := s.tasks[t := s.tasks[t].(phase := phase)])
  }

  function AfterLookUp(c: Config, s: State, id: string, metadata: Metadata): Phase {
    if c.scanner.None? then Cleared(metadata)
    else if id !in s.cache then Missed(metadata)
    else
      match s.cache[id]
      case CachedClean => Cleared(metadata)
      case CachedBlocked(reason) => Blocked(reason)
  }

  predicate Enabled(s: State, step: Step) {
    match step
    case Arrive(t, _, _, _) => t !in s.tasks
    case Describe(t) => t in s.tasks && s.tasks[t].Request? && s.tasks[t].phase.Admitted?
    case LookUp(t) => t in s.tasks && s.tasks[t].Request? && s.tasks[t].phase.Described?
    case ScanBytes(t) => t in s.tasks && s.tasks[t].Request? && s.tasks[t].phase.Missed?
    case Record(t) => t in s.tasks && s.tasks[t].Request? && s.tasks[t].phase.Judged?
    case Fetch(t) => t in s.tasks && s.tasks[t].Request? && s.tasks[t].phase.Cleared?
    case PutBlob(_, _) => true
    case RemoveBlob(_) => true
  }

  function Next(c: Config, s: State, step: Step): State
    requires Enabled(s, step)
  {
    match step
    case Arrive(t, id, ticket, now) =>
      var (r, used) := Admit(c, s.used, id, ticket, now);
      var task := if r.Ok? then Request(id, ticket.value, now, Admitted) else Rejected(r.error);
      s.(used := used, tasks := s.tasks[t := task])
    case Describe(t) =>
      var id := s.tasks[t].id;
      Moved(s, t, if id in s.blobs then Described(s.blobs[id].metadata) else NotFound)
    case LookUp(t) => Moved(s, t, AfterLookUp(c, s, s.tasks[t].id, s.tasks[t].phase.metadata))
    case ScanBytes(t) =>
      var Request(id, _, _, Missed(metadata)) := s.tasks[t];
      if id in s.blobs && c.scanner.Some?
      then Moved(s, t, Judged(metadata, ScanBlob(c.scanner.value, metadata, s.blobs[id].bytes)))
      else Moved(s, t, NotFound)
    case Record(t) =>
      var Request(id, _, _, Judged(metadata, verdict)) := s.tasks[t];
      if Blocking(verdict)
      then Moved(s, t, Blocked(verdict)).(cache := s.cache[id := CachedBlocked(verdict)])
      else Moved(s, t, Cleared(metadata)).(cache := s.cache[id := CachedClean])
    case Fetch(t) =>
      var Request(id, _, _, Cleared(metadata)) := s.tasks[t];
      Moved(s, t, if id in s.blobs then Served(metadata, s.blobs[id].bytes) else NotFound)
    case PutBlob(id, blob) => s.(blobs := s.blobs[id := blob])
    case RemoveBlob(id) => s.(blobs := s.blobs - {id})
  }

  ghost predicate IsRun(c: Config, states: seq<State>, steps: seq<Step>) {
    && |states| == |steps| + 1
    && states[0] == Initial
    && forall i | 0 <= i < |steps| :: Enabled(states[i], steps[i]) && states[i + 1] == Next(c, states[i], steps[i])
  }

  // ---------- tickets ----------

  /** The ticket task `t` was admitted with, and when. */
  function Holding(s: State, t: nat): Option<(string, Ticket, Wire.I64)> {
    if t in s.tasks && s.tasks[t].Request? then Some((s.tasks[t].id, s.tasks[t].ticket, s.tasks[t].at)) else None
  }

  /** Each request holds a used nonce no other request holds, and its ticket passed every check. */
  ghost predicate TicketsHeld(c: Config, s: State) {
    && (forall t: nat | Holding(s, t).Some? ::
          var (id, ticket, at) := Holding(s, t).value;
          ticket.nonce in s.used && ticket.transferId == id && Check(c.verifier, ticket, at).Ok?)
    && forall t: nat, u: nat | Holding(s, t).Some? && Holding(s, u).Some? && t != u ::
         Holding(s, t).value.1.nonce != Holding(s, u).value.1.nonce
  }

  /** Only an arrival brings in a ticket, and then an unused one that passed every check. */
  lemma TicketFrame(c: Config, s: State, step: Step)
    requires Enabled(s, step)
    ensures var s' := Next(c, s, step);
            && s.used <= s'.used
            && (forall t: nat | !(step.Arrive? && t == step.t) :: Holding(s', t) == Holding(s, t))
            && (step.Arrive? && Holding(s', step.t).Some? ==>
                  var (id, ticket, at) := Holding(s', step.t).value;
                  && ticket.nonce !in s.used && ticket.nonce in s'.used
                  && ticket.transferId == id && Check(c.verifier, ticket, at).Ok?)
  {
    hide Check;
    hide Scan;
    var s' := Next(c, s, step);
    if step.Arrive? && s'.tasks[step.t].Request? {
      CheckNames(c, step.ticket.value, step.now);
    }
  }

  lemma StepKeepsTickets(c: Config, s: State, step: Step)
    requires TicketsHeld(c, s) && Enabled(s, step)
    ensures TicketsHeld(c, Next(c, s, step))
  {
    hide Next;
    hide Enabled;
    hide Check;
    hide Holding;
    TicketFrame(c, s, step);
  }

  lemma {:induction false} RunKeepsTickets(c: Config, states: seq<State>, steps: seq<Step>, i: nat)
    requires IsRun(c, states, steps) && i < |states|
    ensures TicketsHeld(c, states[i])
  {
    if i > 0 {
      RunKeepsTickets(c, states, steps, i - 1);
      StepKeepsTickets(c, states[i - 1], steps[i - 1]);
    }
  }

  // ---------- the scan cache ----------

  /** Every blob put under an id is the same blob. */
  ghost predicate NeverReplaced(steps: seq<Step>, content: string -> Blob) {
    forall i | 0 <= i < |steps| && steps[i].PutBlob? :: steps[i].blob == content(steps[i].id)
  }

  /** What a request has learnt so far agrees with scanning the blob of its transfer. */
  predicate PhaseHonest(c: Config, blob: Blob, phase: Phase) {
    match phase
    case Admitted => true
    case Described(metadata) => metadata == blob.metadata
    case Missed(metadata) => metadata == blob.metadata
    case Judged(metadata, verdict) =>
      metadata == blob.metadata && c.scanner.Some? && verdict == VerdictOf(c.scanner.value, blob)
    case Cleared(metadata) => metadata == blob.metadata && !Blocks(c, blob)
    case Served(metadata, bytes) => blob == Blob(metadata, bytes) && !Blocks(c, blob)
    case Blocked(verdict) => Blocks(c, blob) && verdict == VerdictOf(c.scanner.value, blob)
    case NotFound => true
  }

  ghost predicate Honest(c: Config, content: string -> Blob, s: State) {
    && (forall id | id in s.blobs :: s.blobs[id] == content(id))
    && (forall id | id in s.cache :: Matches(c, s.cache[id], content(id)))
    && forall t | t in s.tasks && s.tasks[t].Request? :: PhaseHonest(c, content(s.tasks[t].id), s.tasks[t].phase)
  }

  lemma StepKeepsHonest(c: Config, content: string -> Blob, s: State, step: Step)
    requires Honest(c, content, s) && Enabled(s, step)
    requires step.PutBlob? ==> step.blob == content(step.id)
    ensures Honest(c, content, Next(c, s, step))
  {
    hide Admit;
    hide Scan;
  }

  lemma {:induction false} RunKeepsHonest(c: Config, content: string -> Blob, states: seq<State>, steps: seq<Step>, i: nat)
    requires IsRun(c, states, steps) && NeverReplaced(steps, content) && i < |states|
    ensures Honest(c, content, states[i])
  {
    if i > 0 {
      RunKeepsHonest(c, content, states, steps, i - 1);
      StepKeepsHonest(c, content, states[i - 1], steps[i - 1]);
    }
  }

  /**
   While no blob is replaced, in every interleaving with the cache a finished
   request is served or blocked exactly as scanning its own blob would decide.
   */
  lemma CachedAsRescanned(c: Config, content: string -> Blob, states: seq<State>, steps: seq<Step>, i: nat, t: nat)
    requires IsRun(c, states, steps) && NeverReplaced(steps, content) && i < |states|
    requires t in states[i].tasks && states[i].tasks[t].Request?
    ensures var blob := content(states[i].tasks[t].id);
            match states[i].tasks[t].phase
            case Served(metadata, bytes) => blob == Blob(metadata, bytes) && !Blocks(c, blob)
            case Blocked(verdict) => Blocks(c, blob) && verdict == VerdictOf(c.scanner.value, blob)
            case _ => true
  {
    RunKeepsHonest(c, content, states, steps, i);
  }

  /**
   Under an ideal signature every payload handed out was asked for with an unexpired
   ticket issued for that very transfer and this data plane, and no other request was
   admitted with the same nonce.
   */
  lemma DeliveriesAreAuthorised(
    c: Config, issued: set<(Wire.Version, Wire.Message)>, states: seq<State>, steps: seq<Step>, i: nat, t: nat)
    requires IsRun(c, states, steps) && i < |states| && SignedOnly(c.verifier, issued)
    requires t in states[i].tasks && states[i].tasks[t].Request?
    ensures var Request(id, ticket, at, _) := states[i].tasks[t];
            && (Wire.V1, Wire.DataTicket(id, ticket.recipient, c.verifier.url, ticket.expires, ticket.nonce)) in issued
            && (MIN_I64 <= ticket.expires + c.verifier.skew ==> at <= ticket.expires + c.verifier.skew)
            && forall u | u in states[i].tasks && u != t && states[i].tasks[u].Request? ::
                 states[i].tasks[u].ticket.nonce != ticket.nonce
  {
    hide Check;
    hide Next;
    RunKeepsTickets(c, states, steps, i);
    assert Holding(states[i], t).Some?;
    assert forall u: nat | u in states[i].tasks && states[i].tasks[u].Request? :: Holding(states[i], u).Some?;
    CheckedIsIssued(c.verifier, issued, states[i].tasks[t].ticket, states[i].tasks[t].at);
  }

  // ---------- a request nobody interrupts ----------

  /** What a finished request was answered. */
  function AnswerOf(task: Task): Option<Result<Blob, ServeError>> {
    match task
    case Rejected(error) => Some(Err(error))
    case Request(_, _, _, Served(metadata, bytes)) => Some(Ok(Blob(metadata, bytes)))
    case Request(_, _, _, Blocked(verdict)) => Some(Err(ScannerBlocked(verdict)))
    case Request(_, _, _, NotFound) => Some(Err(BlobNotFound))
    case _ => None
  }

  function StepsLeft(phase: Phase): nat {
    match phase
    case Admitted => 5
    case Described(_) => 4
    case Missed(_) => 3
    case Judged(_, _) => 2
    case Cleared(_) => 1
    case _ => 0
  }

  function NextOf(t: nat, phase: Phase): Step
    requires StepsLeft(phase) > 0
  {
    match phase
    case Admitted => Describe(t)
    case Described(_) => LookUp(t)
    case Missed(_) => ScanBytes(t)
    case Judged(_, _) => Record(t)
    case Cleared(_) => Fetch(t)
  }

  /** Takes request `t` to its end, one step after the other. */
  function Alone(c: Config, s: State, t: nat): State
    requires t in s.tasks
    decreases if s.tasks[t].Request? then StepsLeft(s.tasks[t].phase) else 0
  {
    if s.tasks[t].Rejected? || StepsLeft(s.tasks[t].phase) == 0 then s
    else Alone(c, Next(c, s, NextOf(t, s.tasks[t].phase)), t)
  }

  /** What is left of a request is answered as scanning its stored blob would. */
  lemma {:induction false} AloneFinishes(c: Config, s: State, t: nat)
    requires t in s.tasks && s.tasks[t].Request? && StepsLeft(s.tasks[t].phase) > 0
    requires var id := s.tasks[t].id;
             id in s.blobs ==> && PhaseHonest(c, s.blobs[id], s.tasks[t].phase)
                               && (id in s.cache ==> Matches(c, s.cache[id], s.blobs[id]))
    requires s.tasks[t].phase.Missed? ==> c.scanner.Some?
    ensures var id, end := s.tasks[t].id, Alone(c, s, t);
            && t in end.tasks
            && (id in s.blobs ==>
                  AnswerOf(end.tasks[t]) == Some(if Blocks(c, s.blobs[id])
                                                 then Err(ScannerBlocked(VerdictOf(c.scanner.value, s.blobs[id])))
                                                 else Ok(s.blobs[id])))
            && (id !in s.blobs && s.tasks[t].phase.Admitted? ==> AnswerOf(end.tasks[t]) == Some(Err(BlobNotFound)))
    decreases StepsLeft(s.tasks[t].phase)
  {
    hide Scan;
    hide Admit;
    var next := Next(c, s, NextOf(t, s.tasks[t].phase));
    if StepsLeft(next.tasks[t].phase) > 0 { AloneFinishes(c, next, t); }
  }

  /** With nobody else in between the machine answers as the server above: as if every request scanned. */
  lemma UninterruptedIsRescanned(c: Config, s: State, t: nat, id: string, ticket: Option<Ticket>, now: Wire.I64)
    requires t !in s.tasks && (id in s.cache && id in s.blobs ==> Matches(c, s.cache[id], s.blobs[id]))
    ensures var end := Alone(c, Next(c, s, Arrive(t, id, ticket, now)), t);
            && t in end.tasks
            && AnswerOf(end.tasks[t]) == Some(Rescanned(c, s.used, s.blobs, id, ticket, now))
  {
    hide Scan;
    hide Check;
    var arrived := Next(c, s, Arrive(t, id, ticket, now));
    if arrived.tasks[t].Request? { AloneFinishes(c, arrived, t); }
  }

  /** Replacing a scanned blob defeats the cache: the run below hands out a blob the scanner blocks. */
  lemma ReplacedBlobEscapesScan(c: Config, first: Ticket, second: Ticket, now: Wire.I64, clean: Blob, bad: Blob)
    returns (states: seq<State>, steps: seq<Step>)
    requires c.scanner.Some? && !Blocks(c, clean) && Blocks(c, bad)
    requires Check(c.verifier, first, now).Ok? && Check(c.verifier, second, now).Ok?
    requires first.nonce != second.nonce && first.transferId == second.transferId
    ensures IsRun(c, states, steps)
    ensures exists t | t in states[|steps|].tasks ::
              states[|steps|].tasks[t] == Request(first.transferId, second, now, Served(bad.metadata, bad.bytes))
  {
    hide Check;
    hide Scan;
    var id := first.transferId;
    CheckNames(c, first, now);
    CheckNames(c, second, now);
    steps := [PutBlob(id, clean), Arrive(0, id, Some(first), now), Describe(0), LookUp(0), ScanBytes(0), Record(0),
              PutBlob(id, bad), Arrive(1, id, Some(second), now), Describe(1), LookUp(1), Fetch(1)];
    var s1 := Next(c, Initial, steps[0]);
    var s2 := Next(c, s1, steps[1]);
    var s3 := Next(c, s2, steps[2]);
    var s4 := Next(c, s3, steps[3]);
    var s5 := Next(c, s4, steps[4]);
    var s6 := Next(c, s5, steps[5]);
    var s7 := Next(c, s6, steps[6]);
    var s8 := Next(c, s7, steps[7]);
    var s9 := Next(c, s8, steps[8]);
    var s10 := Next(c, s9, steps[9]);
    states := [Initial, s1, s2, s3, s4, s5, s6, s7, s8, s9, s10, Next(c, s10, steps[10])];
    assert states[11].tasks[1] == Request(id, second, now, Served(bad.metadata, bad.bytes));
  }

  lemma CheckNames(c: Config, ticket: Ticket, now: Wire.I64)
    requires Check(c.verifier, ticket, now).Ok?
    ensures Check(c.verifier, ticket, now).value.transferId == ticket.transferId
  {
    hide Hex.DecodeExact;
    hide Wire.Encode;
  }
}
