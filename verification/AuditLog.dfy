/** Audit events, the bytes hashed for them, and when those bytes determine the event. */
module AuditEvent {
  import opened Wrappers
  import opened CanonicalJson
  import opened Text

  datatype EventKind =
    | AgentRegistered | AgentRevoked | TransferInitiated | TransferPolicyDecision
    | TransferScannerVerdict | TransferAccepted | TransferDelivered | TransferRejected
    | TransferExpired | DeferredDecisionRequested | SignedDecisionReceipt

  function AsStr(k: EventKind): string {
    match k
    case AgentRegistered => "agent_registered"
    case AgentRevoked => "agent_revoked"
    case TransferInitiated => "transfer_initiated"
    case TransferPolicyDecision => "transfer_policy_decision"
    case TransferScannerVerdict => "transfer_scanner_verdict"
    case TransferAccepted => "transfer_accepted"
    case TransferDelivered => "transfer_delivered"
    case TransferRejected => "transfer_rejected"
    case TransferExpired => "transfer_expired"
    case DeferredDecisionRequested => "deferred_decision_requested"
    case SignedDecisionReceipt => "signed_decision_receipt"
  }

  datatype Event = Event(kind: EventKind, actor: string, subject: string, payload: Json)

  /** A timestamp is its RFC 3339 text; the formatter rejects years outside its range. */
  datatype Timestamp = Formatted(rfc3339: string) | Unformattable

  datatype AuditError =
    | InvalidEvent
    | ChainBroken(position: nat, expected: string, found: string)
    | HashMismatch(storedPosition: nat, stored: string, recomputed: string)
    | Serialization
    | Io

  // The canonical bytes, field by field from the right.

  function PrevPart(prev: string): string { ",\"prev\":" + (JsonString(prev) + "}") }

  function TsPart(ts: string, prev: string): string { ",\"ts\":" + (JsonString(ts) + PrevPart(prev)) }

  function PayloadPart(payload: Json, ts: string, prev: string): string {
    ",\"payload\":" + (Canonical(payload) + TsPart(ts, prev))
  }

  function SubjectPart(e: Event, ts: string, prev: string): string {
    ",\"subject\":" + (JsonString(e.subject) + PayloadPart(e.payload, ts, prev))
  }

  function ActorPart(e: Event, ts: string, prev: string): string {
    "\",\"actor\":" + (JsonString(e.actor) + SubjectPart(e, ts, prev))
  }

  function EventText(e: Event, ts: string, prev: string): string {
    "{\"kind\":\"" + (AsStr(e.kind) + ActorPart(e, ts, prev))
  }

  function CanonicalText(e: Event, ts: Timestamp, prev: string): Result<string, AuditError> {
    if !e.payload.Object? || ts.Unformattable? then Err(InvalidEvent) else Ok(EventText(e, ts.rfc3339, prev))
  }

  method CanonicalBytes(e: Event, ts: Timestamp, prev: string) returns (r: Result<string, AuditError>)
    ensures r == CanonicalText(e, ts, prev)
    ensures r == Err(InvalidEvent) <==> !e.payload.Object? || ts.Unformattable?
    ensures r.Err? ==> r.error == InvalidEvent
  {
    if !e.payload.Object? || ts.Unformattable? { return Err(InvalidEvent); }
    var out := new Buffer();
    assert "" + EventText(e, ts.rfc3339, prev) == EventText(e, ts.rfc3339, prev);
    WriteField(out, "{\"kind\":\"", AsStr(e.kind), ActorPart(e, ts.rfc3339, prev));
    WriteField(out, "\",\"actor\":", JsonString(e.actor), SubjectPart(e, ts.rfc3339, prev));
    WriteField(out, ",\"subject\":", JsonString(e.subject), PayloadPart(e.payload, ts.rfc3339, prev));
    var payload := new Buffer();
    WriteCanonical(e.payload, payload);
    assert payload.text == Canonical(e.payload);
    WriteField(out, ",\"payload\":", payload.text, TsPart(ts.rfc3339, prev));
    WriteField(out, ",\"ts\":", JsonString(ts.rfc3339), PrevPart(prev));
    WriteField(out, ",\"prev\":", JsonString(prev), "}");
    out.Push("}");
    r := Ok(out.text);
  }

  /** Pushes a literal and a value; with the text still to come, the whole is unchanged. */
  method WriteField(out: Buffer, name: string, value: string, ghost rest: string)
    modifies out
    ensures out.text + rest == old(out.text) + (name + (value + rest))
  {
    Regroup(out.text, name, value, rest);
    out.Push(name);
    out.Push(value);
  }

  // ---------- equal bytes come from equal fields ----------

  function KindOf(s: string): Option<EventKind> {
    if s == "agent_registered" then Some(AgentRegistered)
    else if s == "agent_revoked" then Some(AgentRevoked)
    else if s == "transfer_initiated" then Some(TransferInitiated)
    else if s == "transfer_policy_decision" then Some(TransferPolicyDecision)
    else if s == "transfer_scanner_verdict" then Some(TransferScannerVerdict)
    else if s == "transfer_accepted" then Some(TransferAccepted)
    else if s == "transfer_delivered" then Some(TransferDelivered)
    else if s == "transfer_rejected" then Some(TransferRejected)
    else if s == "transfer_expired" then Some(TransferExpired)
    else if s == "deferred_decision_requested" then Some(DeferredDecisionRequested)
    else if s == "signed_decision_receipt" then Some(SignedDecisionReceipt)
    else None
  }

  lemma KindReadsBack(k: EventKind)
    ensures KindOf(AsStr(k)) == Some(k)
    ensures '"' !in AsStr(k)
  {
    // Names of equal length differ at index 0 or 9.
    var s := AsStr(k);
    match k
    case AgentRegistered => assert s[0] == 'a';
    case TransferExpired => assert s[0] == 't';
    case TransferAccepted => assert s[9] == 'a';
    case TransferRejected => assert s[9] == 'r';
    case TransferInitiated => assert s[9] == 'i';
    case TransferDelivered => assert s[9] == 'd';
    case TransferPolicyDecision => assert s[9] == 'p';
    case TransferScannerVerdict => assert s[9] == 's';
    case _ =>
  }

  lemma KindUnambiguous(j: EventKind, k: EventKind, rj: string, rk: string)
    requires '"' !in AsStr(j) && '"' !in AsStr(k)
    requires rj != "" && rj[0] == '"' && rk != "" && rk[0] == '"'
    requires AsStr(j) + rj == AsStr(k) + rk
    ensures AsStr(j) == AsStr(k) && rj == rk
  {
    var s := AsStr(j) + rj;
    if |AsStr(j)| < |AsStr(k)| {
      LongerPrefix(AsStr(j), rj, AsStr(k), rk);
    } else if |AsStr(k)| < |AsStr(j)| {
      LongerPrefix(AsStr(k), rk, AsStr(j), rj);
    }
    assert AsStr(j) == s[..|AsStr(j)|] && AsStr(k) == s[..|AsStr(k)|];
    Cancel(AsStr(j), rj, rk);
  }

  /** Equal canonical bytes determine kind, actor, subject, payload, timestamp text and previous hash. */
  lemma EventTextUnambiguous(a: Event, ta: string, pa: string, b: Event, tb: string, pb: string)
    requires EventText(a, ta, pa) == EventText(b, tb, pb)
    ensures a == b && ta == tb && pa == pb
  {
    Cancel("{\"kind\":\"", AsStr(a.kind) + ActorPart(a, ta, pa), AsStr(b.kind) + ActorPart(b, tb, pb));
    KindReadsBack(a.kind);
    KindReadsBack(b.kind);
    KindUnambiguous(a.kind, b.kind, ActorPart(a, ta, pa), ActorPart(b, tb, pb));
    ActorPartUnambiguous(a, ta, pa, b, tb, pb);
  }

  lemma ActorPartUnambiguous(a: Event, ta: string, pa: string, b: Event, tb: string, pb: string)
    requires ActorPart(a, ta, pa) == ActorPart(b, tb, pb)
    ensures a.actor == b.actor && a.subject == b.subject && a.payload == b.payload && ta == tb && pa == pb
  {
    Cancel("\",\"actor\":", JsonString(a.actor) + SubjectPart(a, ta, pa), JsonString(b.actor) + SubjectPart(b, tb, pb));
    JsonStringUnambiguous(a.actor, b.actor, SubjectPart(a, ta, pa), SubjectPart(b, tb, pb));
    var x, y := PayloadPart(a.payload, ta, pa), PayloadPart(b.payload, tb, pb);
    Cancel(",\"subject\":", JsonString(a.subject) + x, JsonString(b.subject) + y);
    JsonStringUnambiguous(a.subject, b.subject, x, y);
    PayloadPartUnambiguous(a.payload, ta, pa, b.payload, tb, pb);
  }

  lemma PayloadPartUnambiguous(a: Json, ta: string, pa: string, b: Json, tb: string, pb: string)
    requires PayloadPart(a, ta, pa) == PayloadPart(b, tb, pb)
    ensures a == b && ta == tb && pa == pb
  {
    Cancel(",\"payload\":", Canonical(a) + TsPart(ta, pa), Canonical(b) + TsPart(tb, pb));
    Unambiguous(a, b, TsPart(ta, pa), TsPart(tb, pb));
    Cancel(",\"ts\":", JsonString(ta) + PrevPart(pa), JsonString(tb) + PrevPart(pb));
    JsonStringUnambiguous(ta, tb, PrevPart(pa), PrevPart(pb));
    Cancel(",\"prev\":", JsonString(pa) + "}", JsonString(pb) + "}");
    JsonStringUnambiguous(pa, pb, "}", "}");
  }
}

/** Hash chains of stored events: what verification accepts and what an accepted head commits to. */
module AuditChain {
  import opened Wrappers
  import opened AuditEvent

  /** The hash function, hex-encoded. It is a parameter; premises about it are stated where used. */
  type Hash = string -> string

  const GENESIS_HEAD := "0000000000000000000000000000000000000000000000000000000000000000"

  datatype StoredEvent = StoredEvent(
    position: nat, eventId: string, timestamp: Timestamp, prevHash: string, thisHash: string, event: Event)

  function ComputeHash(h: Hash, e: Event, ts: Timestamp, prev: string): Result<string, AuditError> {
    match CanonicalText(e, ts, prev)
    case Ok(text) => Ok(h(text))
    case Err(error) => Err(error)
  }

  function VerifyHash(h: Hash, s: StoredEvent): Result<(), AuditError> {
    match ComputeHash(h, s.event, s.timestamp, s.prevHash)
    case Err(error) => Err(error)
    case Ok(recomputed) =>
      if recomputed != s.thisHash then Err(HashMismatch(s.position, s.thisHash, recomputed)) else Ok(())
  }

  /** The chain head after `events`. */
  function Head(events: seq<StoredEvent>): string {
    if events == [] then GENESIS_HEAD else events[|events| - 1].thisHash
  }

  /** The check verification makes at index `i`: the link first, then the hash. */
  function CheckAt(h: Hash, events: seq<StoredEvent>, i: nat): Result<(), AuditError>
    requires i < |events|
  {
    var expected := Head(events[..i]);
    if events[i].prevHash != expected then Err(ChainBroken(i, expected, events[i].prevHash))
    else VerifyHash(h, events[i])
  }

  /** The check spelled out: what links to what, from which genesis value, and what each failure reports. */
  lemma CheckAtExactly(h: Hash, events: seq<StoredEvent>, i: nat)
    requires i < |events|
    ensures var s := events[i];
            var expected := if i == 0 then "0000000000000000000000000000000000000000000000000000000000000000"
                            else events[i - 1].thisHash;
            CheckAt(h, events, i) ==
              if s.prevHash != expected then Err(ChainBroken(i, expected, s.prevHash))
              else match CanonicalText(s.event, s.timestamp, s.prevHash)
                   case Err(error) => Err(error)
                   case Ok(text) =>
                     if h(text) != s.thisHash then Err(HashMismatch(s.position, s.thisHash, h(text))) else Ok(())
  {
    hide CanonicalText;
  }

  ghost predicate Accepted(h: Hash, events: seq<StoredEvent>) {
    forall i | 0 <= i < |events| :: CheckAt(h, events, i).Ok?
  }

  /** `error` is what the first failing check reports. */
  ghost predicate FirstError(h: Hash, events: seq<StoredEvent>, error: AuditError) {
    exists i | 0 <= i < |events| :: CheckAt(h, events, i) == Err(error) && Accepted(h, events[..i])
  }

  lemma CheckAtPrefix(h: Hash, events: seq<StoredEvent>, n: nat)
    requires n <= |events|
    ensures forall i | 0 <= i < n :: CheckAt(h, events[..n], i) == CheckAt(h, events, i)
  {
    forall i | 0 <= i < n ensures CheckAt(h, events[..n], i) == CheckAt(h, events, i) {
      assert events[..n][..i] == events[..i];
    }
  }

  lemma AcceptedPrefix(h: Hash, events: seq<StoredEvent>, n: nat)
    requires Accepted(h, events) && n <= |events|
    ensures Accepted(h, events[..n])
  {
    CheckAtPrefix(h, events, n);
  }

  lemma AcceptedSnoc(h: Hash, events: seq<StoredEvent>, s: StoredEvent)
    ensures Accepted(h, events + [s]) <==>
            Accepted(h, events) && s.prevHash == Head(events) && VerifyHash(h, s).Ok?
  {
    var longer := events + [s];
    CheckAtPrefix(h, longer, |events|);
    assert longer[..|events|] == events;
    assert CheckAt(h, longer, |events|).Ok? <==> s.prevHash == Head(events) && VerifyHash(h, s).Ok?;
    if Accepted(h, events) && CheckAt(h, longer, |events|).Ok? {
      forall i | 0 <= i < |longer| ensures CheckAt(h, longer, i).Ok? {
        if i < |events| { assert CheckAt(h, events, i).Ok?; }
      }
    }
  }

  // ---------- an accepted head commits to the whole chain ----------

  /** Equal on everything the hash covers; `position` and `event_id` are not hashed. */
  predicate SameHashed(a: StoredEvent, b: StoredEvent) {
    a.event == b.event && a.timestamp == b.timestamp && a.prevHash == b.prevHash && a.thisHash == b.thisHash
  }

  predicate Agree(a: seq<StoredEvent>, b: seq<StoredEvent>) {
    |a| == |b| && forall i | 0 <= i < |a| :: SameHashed(a[i], b[i])
  }

  function HashedText(s: StoredEvent): Result<string, AuditError> {
    CanonicalText(s.event, s.timestamp, s.prevHash)
  }

  /** A hash collision between texts recorded in the two chains. */
  ghost predicate Collides(a: seq<StoredEvent>, b: seq<StoredEvent>) {
    exists i, j | 0 <= i < |a| && 0 <= j < |b| ::
      HashedText(a[i]) != HashedText(b[j]) && a[i].thisHash == b[j].thisHash
  }

  /** A recorded text that hashes to the genesis value. */
  ghost predicate HitsGenesis(events: seq<StoredEvent>) {
    exists i | 0 <= i < |events| :: events[i].thisHash == GENESIS_HEAD
  }

  lemma SameTextSameEvent(x: StoredEvent, y: StoredEvent)
    requires HashedText(x).Ok? && HashedText(x) == HashedText(y) && x.thisHash == y.thisHash
    ensures SameHashed(x, y)
  {
    EventTextUnambiguous(x.event, x.timestamp.rfc3339, x.prevHash, y.event, y.timestamp.rfc3339, y.prevHash);
  }

  lemma NoCollisionPrefix(a: seq<StoredEvent>, b: seq<StoredEvent>, m: nat, n: nat)
    requires m <= |a| && n <= |b| && !Collides(a, b) && !HitsGenesis(a) && !HitsGenesis(b)
    ensures !Collides(a[..m], b[..n]) && !HitsGenesis(a[..m]) && !HitsGenesis(b[..n])
  {
    forall i, j | 0 <= i < m && 0 <= j < n
      ensures HashedText(a[..m][i]) == HashedText(b[..n][j]) || a[..m][i].thisHash != b[..n][j].thisHash
    {
      assert a[..m][i] == a[i] && b[..n][j] == b[j];
    }
  }

  /**
   Two accepted chains with the same head agree event by event, unless the two
   chains themselves exhibit a collision or a preimage of the genesis value.
   */
  lemma {:induction false} TamperEvident(h: Hash, a: seq<StoredEvent>, b: seq<StoredEvent>)
    requires Accepted(h, a) && Accepted(h, b) && Head(a) == Head(b)
    requires !HitsGenesis(a) && !HitsGenesis(b) && !Collides(a, b)
    ensures Agree(a, b)
    decreases |a|
  {
    hide EventText;
    if a != [] && b != [] {
      var m, n := |a| - 1, |b| - 1;
      assert CheckAt(h, a, m).Ok? && CheckAt(h, b, n).Ok?;
      SameTextSameEvent(a[m], b[n]);
      AcceptedPrefix(h, a, m);
      AcceptedPrefix(h, b, n);
      NoCollisionPrefix(a, b, m, n);
      TamperEvident(h, a[..m], b[..n]);
    }
  }

  /** The same for a hash without collisions that never yields the genesis value. */
  lemma TamperEvidentIdeal(h: Hash, a: seq<StoredEvent>, b: seq<StoredEvent>)
    requires forall x, y :: h(x) == h(y) ==> x == y
    requires forall x :: h(x) != GENESIS_HEAD
    requires Accepted(h, a) && Accepted(h, b) && Head(a) == Head(b)
    ensures Agree(a, b)
  {
    RecordedHash(h, a);
    RecordedHash(h, b);
    TamperEvident(h, a, b);
  }

  lemma RecordedHash(h: Hash, a: seq<StoredEvent>)
    requires Accepted(h, a)
    ensures forall i | 0 <= i < |a| :: HashedText(a[i]).Ok? && a[i].thisHash == h(HashedText(a[i]).value)
  {
    forall i | 0 <= i < |a| ensures HashedText(a[i]).Ok? && a[i].thisHash == h(HashedText(a[i]).value) {
      assert CheckAt(h, a, i).Ok?;
    }
  }

  // ---------- the memory log ----------

  datatype EventReceipt = EventReceipt(eventId: string, position: nat, timestamp: Timestamp, chainHead: string)

  /** The entry an append makes on top of a log of length `len` with head `head`. */
  function Entry(h: Hash, len: nat, head: string, e: Event, ts: Timestamp, id: string): Result<StoredEvent, AuditError> {
    match ComputeHash(h, e, ts, head)
    case Ok(hash) => Ok(StoredEvent(len, id, ts, head, hash, e))
    case Err(error) => Err(error)
  }

  lemma EntryExactly(h: Hash, len: nat, head: string, e: Event, ts: Timestamp, id: string)
    ensures var r := Entry(h, len, head, e, ts, id);
            && (r.Ok? <==> e.payload.Object? && ts.Formatted?)
            && (r.Err? ==> r.error == InvalidEvent)
            && (r.Ok? ==> CanonicalText(e, ts, head).Ok?
                          && r.value == StoredEvent(len, id, ts, head, h(CanonicalText(e, ts, head).value), e))
  {
    hide EventText;
  }

  function Receipt(s: StoredEvent): EventReceipt {
    EventReceipt(s.eventId, s.position, s.timestamp, s.thisHash)
  }

  class MemoryAuditLog {
    const hash: Hash
    var events: seq<StoredEvent>

    constructor (hash: Hash)
      ensures this.hash == hash && events == []
    {
      this.hash := hash;
      events := [];
    }

    /** Appending keeps the chain accepted, whatever event, clock reading and id come in. */
    method Append(e: Event, ts: Timestamp, id: string) returns (r: Result<EventReceipt, AuditError>)
      modifies this
      ensures match Entry(hash, |old(events)|, Head(old(events)), e, ts, id)
              case Ok(s) => events == old(events) + [s] && r == Ok(Receipt(s))
              case Err(error) => events == old(events) && r == Err(error)
      ensures Accepted(hash, old(events)) ==> Accepted(hash, events)
      ensures r.Ok? <==> e.payload.Object? && ts.Formatted?
      ensures r.Ok? ==>
                var text := CanonicalText(e, ts, Head(old(events)));
                && events == old(events)
                   + [StoredEvent(|old(events)|, id, ts, Head(old(events)), hash(text.value), e)]
                && r.value == EventReceipt(id, |old(events)|, ts, Head(events))
    {
      hide EventText;
      var position := |events|;
      var prevHash := Head(events);
      var thisHash := ComputeHash(hash, e, ts, prevHash);
      if thisHash.Err? { return Err(thisHash.error); }
      var stored := StoredEvent(position, id, ts, prevHash, thisHash.value, e);
      AcceptedSnoc(hash, events, stored);
      events := events + [stored];
      r := Ok(Receipt(stored));
    }

    method VerifyChain() returns (r: Result<(), AuditError>)
      ensures r.Ok? <==> Accepted(hash, events)
      ensures r.Err? ==> FirstError(hash, events, r.error)
    {
      var expectedPrev := GENESIS_HEAD;
      for i := 0 to |events|
        invariant expectedPrev == Head(events[..i])
        invariant Accepted(hash, events[..i])
      {
        var ev := events[i];
        assert events[..i + 1] == events[..i] + [ev];
        AcceptedSnoc(hash, events[..i], ev);
        if ev.prevHash != expectedPrev {
          assert CheckAt(hash, events, i) == Err(ChainBroken(i, expectedPrev, ev.prevHash));
          return Err(ChainBroken(i, expectedPrev, ev.prevHash));
        }
        var ok := VerifyHash(hash, ev);
        if ok.Err? {
          assert CheckAt(hash, events, i) == Err(ok.error);
          return ok;
        }
        expectedPrev := ev.thisHash;
      }
      assert events[..|events|] == events;
      r := Ok(());
    }
  }
}

/** The file log: replay, append, reopen, and its agreement with the memory log. */
module AuditFile {
  import opened Wrappers
  import opened AuditEvent
  import opened AuditChain

  /** A line of the log file: whitespace only, a stored event, or text that does not parse. */
  datatype Line = Blank | Record(event: StoredEvent) | Unparsable

  function Records(lines: seq<Line>): seq<StoredEvent> {
    if lines == [] then [] else
      var last := lines[|lines| - 1];
      var front := Records(lines[..|lines| - 1]);
      if last.Record? then front + [last.event] else front
  }

  /** What replaying a file yields: the head and the number of events, if it is accepted. */
  ghost function Replayed(h: Hash, lines: seq<Line>): Option<(string, nat)> {
    if Unparsable !in lines && Accepted(h, Records(lines))
    then Some((Head(Records(lines)), |Records(lines)|))
    else None
  }

  lemma RecordsSnoc(lines: seq<Line>, line: Line)
    ensures Records(lines + [line]) == if line.Record? then Records(lines) + [line.event] else Records(lines)
  {
    assert (lines + [line])[..|lines|] == lines;
  }

  /** Blank lines change nothing, wherever they stand. */
  lemma {:induction false} BlankLinesIgnored(h: Hash, before: seq<Line>, after: seq<Line>)
    ensures Records(before + [Blank] + after) == Records(before + after)
    ensures Replayed(h, before + [Blank] + after) == Replayed(h, before + after)
    decreases |after|
  {
    var withBlank, without := before + [Blank] + after, before + after;
    if after == [] {
      RecordsSnoc(before, Blank);
      assert withBlank == before + [Blank] && without == before;
    } else {
      var front, last := after[..|after| - 1], after[|after| - 1];
      BlankLinesIgnored(h, before, front);
      RecordsSnoc(before + [Blank] + front, last);
      RecordsSnoc(before + front, last);
      assert withBlank == before + [Blank] + front + [last] && without == before + front + [last];
    }
    assert Unparsable in withBlank <==> Unparsable in without;
  }

  /** The check replay makes on line `i`, given the events before it. */
  function LineCheck(h: Hash, lines: seq<Line>, i: nat): Result<(), AuditError>
    requires i < |lines|
  {
    match lines[i]
    case Blank => Ok(())
    case Unparsable => Err(Serialization)
    case Record(s) =>
      var done := Records(lines[..i]);
      CheckAt(h, done + [s], |done|)
  }

  /** Replay succeeds exactly on accepted files and otherwise reports the first bad line. */
  method Replay(h: Hash, file: Option<seq<Line>>) returns (r: Result<(string, nat), AuditError>)
    ensures r.Ok? <==> Replayed(h, if file.Some? then file.value else []).Some?
    ensures r.Ok? ==> Replayed(h, if file.Some? then file.value else []) == Some(r.value)
    ensures r.Err? ==> file.Some? && exists i | 0 <= i < |file.value| ::
                         LineCheck(h, file.value, i) == Err(r.error) && Replayed(h, file.value[..i]).Some?
  {
    if file.None? { return Ok((GENESIS_HEAD, 0)); }
    var lines := file.value;
    var head, len := GENESIS_HEAD, 0;
    assert Replayed(h, lines[..0]) == Some((head, len));
    hide CanonicalText;
    hide Records;
    for i := 0 to |lines|
      invariant Replayed(h, lines[..i]) == Some((head, len))
    {
      var line := lines[i];
      assert lines[..i + 1] == lines[..i] + [line];
      RecordsSnoc(lines[..i], line);
      assert Unparsable in lines[..i + 1] <==> Unparsable in lines[..i] || line.Unparsable?;
      match line
      case Blank =>
      case Unparsable =>
        assert LineCheck(h, lines, i) == Err(Serialization);
        return Err(Serialization);
      case Record(stored) =>
        AcceptedSnoc(h, Records(lines[..i]), stored);
        assert (Records(lines[..i]) + [stored])[..len] == Records(lines[..i]);
        if stored.prevHash != head {
          RejectedPrefix(h, lines, i + 1);
          assert LineCheck(h, lines, i) == Err(ChainBroken(len, head, stored.prevHash));
          return Err(ChainBroken(len, head, stored.prevHash));
        }
        var ok := VerifyHash(h, stored);
        if ok.Err? {
          RejectedPrefix(h, lines, i + 1);
          assert LineCheck(h, lines, i) == Err(ok.error);
          return Err(ok.error);
        }
        head, len := stored.thisHash, len + 1;
    }
    assert lines[..|lines|] == lines;
    r := Ok((head, len));
  }

  lemma {:induction false} RecordsPrefix(lines: seq<Line>, n: nat)
    requires n <= |lines|
    ensures Records(lines[..n]) <= Records(lines)
    decreases |lines|
  {
    if n == |lines| {
      assert lines[..n] == lines;
    } else {
      var front := lines[..|lines| - 1];
      RecordsPrefix(front, n);
      assert front[..n] == lines[..n];
    }
  }

  lemma RejectedPrefix(h: Hash, lines: seq<Line>, n: nat)
    requires n <= |lines| && !Accepted(h, Records(lines[..n]))
    ensures Replayed(h, lines).None?
  {
    RecordsPrefix(lines, n);
    var shorter, all := Records(lines[..n]), Records(lines);
    assert shorter == all[..|shorter|];
    if Accepted(h, all) { AcceptedPrefix(h, all, |shorter|); }
  }

  class FileAuditLog {
    const hash: Hash
    var file: seq<Line>
    var head: string
    var len: nat

    ghost predicate Valid()
      reads this
    {
      Replayed(hash, file) == Some((head, len))
    }

    constructor (hash: Hash, file: seq<Line>, head: string, len: nat)
      ensures this.hash == hash && this.file == file && this.head == head && this.len == len
    {
      this.hash, this.file, this.head, this.len := hash, file, head, len;
    }

    /** Opening succeeds exactly on files that replay, creating a missing one. */
    static method Open(hash: Hash, file: Option<seq<Line>>) returns (r: Result<FileAuditLog, AuditError>)
      ensures var lines := if file.Some? then file.value else [];
              && (r.Ok? <==> Replayed(hash, lines).Some?)
              && (r.Ok? ==> fresh(r.value) && r.value.hash == hash && r.value.file == lines && r.value.Valid())
    {
      var state := Replay(hash, file);
      if state.Err? { return Err(state.error); }
      var log := new FileAuditLog(hash, if file.Some? then file.value else [], state.value.0, state.value.1);
      r := Ok(log);
    }

    /** `written` tells whether the whole line reached the file. */
    method Append(e: Event, ts: Timestamp, id: string, written: bool) returns (r: Result<EventReceipt, AuditError>)
      requires Valid()
      modifies this
      ensures Valid()
      ensures (file, head, len) == Appended(hash, old(file), old(head), old(len), e, ts, id, written)
      ensures r == match Entry(hash, old(len), old(head), e, ts, id)
                   case Err(error) => Err(error)
                   case Ok(s) => if written then Ok(Receipt(s)) else Err(Io)
      ensures r.Ok? <==> e.payload.Object? && ts.Formatted? && written
      ensures r.Ok? ==>
                var text := CanonicalText(e, ts, old(head));
                && file == old(file) + [Record(StoredEvent(old(len), id, ts, old(head), hash(text.value), e))]
                && r.value == EventReceipt(id, old(len), ts, head) && head == hash(text.value) && len == old(len) + 1
    {
      EntryExactly(hash, len, head, e, ts, id);
      hide CanonicalText;
      hide Replayed;
      var prevHash := head;
      var thisHash := ComputeHash(hash, e, ts, prevHash);
      if thisHash.Err? { return Err(thisHash.error); }
      var stored := StoredEvent(len, id, ts, prevHash, thisHash.value, e);
      if !written { return Err(Io); }
      AppendKeepsReplay(hash, file, head, len, stored);
      file := file + [Record(stored)];
      head := thisHash.value;
      len := len + 1;
      r := Ok(EventReceipt(stored.eventId, stored.position, ts, thisHash.value));
    }

    /** Reports success exactly when the file on disk replays to the state in memory. */
    method VerifyChain() returns (r: Result<(), AuditError>)
      ensures r.Ok? <==> Valid()
      ensures var disk := Replayed(hash, file);
              disk.Some? && !Valid() ==> r == Err(ChainBroken(disk.value.1, head, disk.value.0))
    {
      var state := Replay(hash, Some(file));
      if state.Err? { return Err(state.error); }
      if state.value != (head, len) { return Err(ChainBroken(state.value.1, head, state.value.0)); }
      r := Ok(());
    }
  }

  lemma AppendKeepsReplay(h: Hash, file: seq<Line>, head: string, len: nat, s: StoredEvent)
    requires Replayed(h, file) == Some((head, len)) && s.prevHash == head && VerifyHash(h, s).Ok?
    ensures Replayed(h, file + [Record(s)]) == Some((s.thisHash, len + 1))
    ensures Accepted(h, Records(file) + [s])
  {
    hide EventText;
    RecordsSnoc(file, Record(s));
    assert Unparsable !in file + [Record(s)];
    AcceptedSnoc(h, Records(file), s);
  }

  // ---------- runs ----------

  function Appended(h: Hash, file: seq<Line>, head: string, len: nat, e: Event, ts: Timestamp, id: string, written: bool)
    : (seq<Line>, string, nat)
  {
    match Entry(h, len, head, e, ts, id)
    case Ok(s) => if written then (file + [Record(s)], s.thisHash, len + 1) else (file, head, len)
    case Err(_) => (file, head, len)
  }

  /** A file log next to a memory log that is fed the same written events. */
  datatype Logs = Logs(file: seq<Line>, head: string, len: nat, memory: seq<StoredEvent>)

  datatype Op =
    | Append(event: Event, ts: Timestamp, id: string, written: bool)
    | Reopen
    | BlankLine

  ghost function Step(h: Hash, s: Logs, op: Op): Logs {
    match op
    case Append(e, ts, id, written) =>
      var (file, head, len) := Appended(h, s.file, s.head, s.len, e, ts, id, written);
      var memory := match Entry(h, |s.memory|, Head(s.memory), e, ts, id)
                    case Ok(entry) => if written then s.memory + [entry] else s.memory
                    case Err(_) => s.memory;
      Logs(file, head, len, memory)
    case Reopen =>
      (match Replayed(h, s.file)
       case Some((head, len)) => s.(head := head, len := len)
       case None => s.(head := "", len := 0))
    case BlankLine => s.(file := s.file + [Blank])
  }

  ghost function Run(h: Hash, ops: seq<Op>): Logs {
    if ops == [] then Logs([], GENESIS_HEAD, 0, []) else Step(h, Run(h, ops[..|ops| - 1]), ops[|ops| - 1])
  }

  /** The file replays to the state in memory and holds exactly the memory log's accepted chain. */
  ghost predicate Consistent(h: Hash, s: Logs) {
    && Replayed(h, s.file) == Some((s.head, s.len))
    && Records(s.file) == s.memory
    && Accepted(h, s.memory)
  }

  lemma StepKeepsConsistent(h: Hash, s: Logs, op: Op)
    requires Consistent(h, s)
    ensures Consistent(h, Step(h, s, op))
  {
    hide CanonicalText;
    hide Accepted;
    match op
    case Append(e, ts, id, written) =>
      var entry := Entry(h, s.len, s.head, e, ts, id);
      if entry.Ok? && written {
        AppendKeepsReplay(h, s.file, s.head, s.len, entry.value);
        RecordsSnoc(s.file, Record(entry.value));
      }
    case Reopen =>
    case BlankLine =>
      RecordsSnoc(s.file, Blank);
  }

  /** Every serial run of append, reopen and stray blank lines stays consistent. */
  lemma {:induction false} RunsStayConsistent(h: Hash, ops: seq<Op>)
    ensures Consistent(h, Run(h, ops))
    decreases |ops|
  {
    if ops != [] {
      RunsStayConsistent(h, ops[..|ops| - 1]);
      StepKeepsConsistent(h, Run(h, ops[..|ops| - 1]), ops[|ops| - 1]);
    }
  }

  /**
   The point of the log: after any run, whatever lines replace the file, if verification
   still succeeds the records agree with what was appended, unless the two chains
   themselves show a collision or a preimage of the genesis value.
   */
  lemma TamperedFilesAreDetected(h: Hash, ops: seq<Op>, lines: seq<Line>)
    requires var s := Run(h, ops);
             && Replayed(h, lines) == Some((s.head, s.len))
             && !HitsGenesis(Records(lines)) && !HitsGenesis(s.memory) && !Collides(Records(lines), s.memory)
    ensures Agree(Records(lines), Run(h, ops).memory)
  {
    RunsStayConsistent(h, ops);
    TamperEvident(h, Records(lines), Run(h, ops).memory);
  }
}
