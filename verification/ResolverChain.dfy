/** The resolver cache: lookups, TTL extension, and bounded insertion. */
module ResolverCache {
  import opened Wrappers

  type Instant = nat

  datatype ResolvedAgent = ResolvedAgent(
    agentId: string, fingerprint: string, capabilities: set<string>, etag: Option<string>)

  datatype CacheEntry = CacheEntry(record: ResolvedAgent, inserted: Instant)

  type Cache = map<string, CacheEntry>

  function Elapsed(since: Instant, now: Instant): nat { if since <= now then now - since else 0 }

  function GetAny(cache: Cache, h: string): Option<ResolvedAgent> {
    if h in cache then Some(cache[h].record) else None
  }

  function GetFresh(cache: Cache, h: string, now: Instant, ttl: nat): Option<ResolvedAgent> {
    if h in cache && Elapsed(cache[h].inserted, now) < ttl then Some(cache[h].record) else None
  }

  function Etag(cache: Cache, h: string): Option<string> {
    if h in cache then cache[h].record.etag else None
  }

  function Extended(cache: Cache, h: string, now: Instant): Cache {
    if h in cache then cache[h := cache[h].(inserted := now)] else cache
  }

  /**
   What an insertion may leave: the entry joins, nothing else changes but for
   evictions, the size is capped, and everything evicted is no newer than
   everything kept.
   */
  ghost predicate Inserted(before: Cache, key: string, entry: CacheEntry, capacity: nat, after: Cache) {
    var full := before[key := entry];
    && after.Keys <= full.Keys
    && (forall k | k in after :: after[k] == full[k])
    && |after| == (if |full| <= capacity then |full| else capacity)
    && forall gone, kept | gone in full && gone !in after && kept in after ::
         full[gone].inserted <= full[kept].inserted
  }

  predicate SortedByAge(cache: Cache, ks: seq<string>)
    requires forall k | k in ks :: k in cache
  {
    forall i, j | 0 <= i < j < |ks| :: cache[ks[i]].inserted <= cache[ks[j]].inserted
  }

  predicate Distinct(ks: seq<string>) { forall i, j | 0 <= i < j < |ks| :: ks[i] != ks[j] }

  class CacheStore {
    const capacity: nat
    var cache: Cache
    /** Handles being fetched, each with the notifier of its leader. */
    var inflight: map<string, nat>

    constructor (capacity: nat)
      ensures this.capacity == capacity && cache == map[] && inflight == map[]
    {
      this.capacity := capacity;
      cache, inflight := map[], map[];
    }

    /** Takes the slot of `h`, or gives the notifier of the task that holds it. */
    method Claim(h: string, notifier: nat) returns (held: Option<nat>)
      modifies this`inflight
      ensures held.None? <==> h !in old(inflight)
      ensures held.Some? ==> held.value == old(inflight)[h] && inflight == old(inflight)
      ensures held.None? ==> inflight == old(inflight)[h := notifier]
    {
      if h in inflight { return Some(inflight[h]); }
      inflight := inflight[h := notifier];
      held := None;
    }

    method Release(h: string) returns (notifier: Option<nat>)
      modifies this`inflight
      ensures inflight == old(inflight) - {h}
      ensures notifier == if h in old(inflight) then Some(old(inflight)[h]) else None
    {
      notifier := if h in inflight then Some(inflight[h]) else None;
      inflight := inflight - {h};
    }

    method Extend(h: string, now: Instant) returns (r: Option<ResolvedAgent>)
      modifies this`cache
      ensures cache == Extended(old(cache), h, now)
      ensures r == GetAny(old(cache), h) == GetAny(cache, h)
    {
      if h !in cache { return None; }
      cache := cache[h := cache[h].(inserted := now)];
      r := Some(cache[h].record);
    }

    method Invalidate(h: string)
      modifies this`cache
      ensures cache == old(cache) - {h}
    {
      cache := cache - {h};
    }

    /** Inserts, then drops the oldest entries until the capacity holds again. */
    method Insert(key: string, entry: CacheEntry)
      modifies this`cache
      ensures Inserted(old(cache), key, entry, capacity, cache)
    {
      cache := cache[key := entry];
      if |cache| > capacity {
        var excess := |cache| - capacity;
        var byAge := SortByAge(cache);
        KeysCounted(byAge, cache.Keys);
        var kept := DropFirst(cache, byAge, excess);
        OldestGone(cache, byAge, excess, kept);
        cache := kept;
      }
    }
  }

  method DropFirst(full: Cache, ks: seq<string>, n: nat) returns (cache: Cache)
    requires (forall i | 0 <= i < |ks| :: ks[i] in full) && Distinct(ks) && n <= |ks|
    ensures cache.Keys == full.Keys - First(ks, n) && |cache| == |full| - n
    ensures forall k | k in cache :: cache[k] == full[k]
  {
    cache := full;
    assert First(ks, 0) == {};
    hide First;
    hide Distinct;
    hide RemoveKey;
    for i := 0 to n
      invariant cache.Keys == full.Keys - First(ks, i) && |cache| == |full| - i
      invariant forall k | k in cache :: cache[k] == full[k]
    {
      PrefixGrows(ks, i);
      cache := RemoveKey(cache, ks[i]);
    }
  }

  function RemoveKey(m: Cache, k: string): (r: Cache)
    requires k in m
    ensures r.Keys == m.Keys - {k} && |r| == |m| - 1 && forall x | x in r :: r[x] == m[x]
  {
    assert (m - {k}).Keys == m.Keys - {k};
    m - {k}
  }

  ghost function First(ks: seq<string>, n: nat): set<string>
    requires n <= |ks|
  {
    set k | k in ks[..n]
  }

  lemma PrefixGrows(ks: seq<string>, i: nat)
    requires Distinct(ks) && i < |ks|
    ensures First(ks, i + 1) == First(ks, i) + {ks[i]} && ks[i] !in First(ks, i)
  {
    assert ks[..i + 1] == ks[..i] + [ks[i]];
  }

  lemma KeyInFirst(ks: seq<string>, n: nat, j: nat)
    requires j < n <= |ks|
    ensures ks[j] in First(ks, n)
  {
    assert ks[..n][j] == ks[j];
  }

  lemma OldestGone(full: Cache, ks: seq<string>, n: nat, after: Cache)
    requires (forall k :: k in ks <==> k in full) && SortedByAge(full, ks) && n <= |ks|
    requires after.Keys == full.Keys - First(ks, n)
    ensures forall gone, kept | gone in full && gone !in after && kept in after ::
              full[gone].inserted <= full[kept].inserted
  {
    forall gone, kept | gone in full && gone !in after && kept in after
      ensures full[gone].inserted <= full[kept].inserted
    {
      var i :| 0 <= i < n && ks[i] == gone;
      var j: nat :| j < |ks| && ks[j] == kept;
      if j < n { KeyInFirst(ks, n, j); }
    }
  }

  lemma {:induction false} KeysCounted(ks: seq<string>, keys: set<string>)
    requires Distinct(ks) && forall k :: k in ks <==> k in keys
    ensures |ks| == |keys|
  {
    if ks != [] {
      assert ks == [ks[0]] + ks[1..];
      KeysCounted(ks[1..], keys - {ks[0]});
    } else {
      assert keys == {};
    }
  }

  /** All keys, oldest entry first; the map's own order decides ties. */
  method SortByAge(cache: Cache) returns (ks: seq<string>)
    ensures forall k :: k in ks <==> k in cache
    ensures Distinct(ks) && SortedByAge(cache, ks)
  {
    ks := [];
    var left := cache.Keys;
    while left != {}
      invariant left <= cache.Keys
      invariant forall k :: k in ks <==> k in cache.Keys - left
      invariant Distinct(ks) && SortedByAge(cache, ks)
      decreases left
    {
      var k :| k in left;
      ks := InsertByAge(cache, ks, k);
      left := left - {k};
    }
  }

  method InsertByAge(cache: Cache, ks: seq<string>, k: string) returns (r: seq<string>)
    requires k in cache && k !in ks && forall x | x in ks :: x in cache
    requires Distinct(ks) && SortedByAge(cache, ks)
    ensures forall x :: x in r <==> x in ks || x == k
    ensures Distinct(r) && SortedByAge(cache, r)
  {
    var i := 0;
    while i < |ks| && cache[ks[i]].inserted <= cache[k].inserted
      invariant 0 <= i <= |ks|
      invariant forall j | 0 <= j < i :: cache[ks[j]].inserted <= cache[k].inserted
    {
      i := i + 1;
    }
    r := ks[..i] + [k] + ks[i..];
    assert ks == ks[..i] + ks[i..];
    InsertedInOrder(cache, ks, k, i, r);
  }

  lemma InsertedInOrder(cache: Cache, ks: seq<string>, k: string, i: nat, r: seq<string>)
    requires k in cache && k !in ks && (forall x | x in ks :: x in cache) && forall x | x in r :: x in cache
    requires Distinct(ks) && SortedByAge(cache, ks)
    requires i <= |ks| && r == ks[..i] + [k] + ks[i..]
    requires forall j | 0 <= j < i :: cache[ks[j]].inserted <= cache[k].inserted
    requires i < |ks| ==> cache[k].inserted < cache[ks[i]].inserted
    ensures Distinct(r) && SortedByAge(cache, r)
  {
    forall a, b | 0 <= a < b < |r|
      ensures r[a] != r[b] && cache[r[a]].inserted <= cache[r[b]].inserted
    {
      var a', b' := if a <= i then a else a - 1, if b <= i then b else b - 1;
      assert a != i ==> r[a] == ks[a'];
      assert b != i ==> r[b] == ks[b'];
      assert a == i ==> b' >= i && cache[ks[i]].inserted <= cache[ks[b']].inserted;
    }
  }
}

/** Single-flight resolution as a step machine over any number of tasks. */
module ResolverChain {
  import opened Wrappers
  import opened AgentIds
  import opened ResolverCache

  datatype Config = Config(resolvers: set<IdScheme>, ttl: nat, capacity: nat)

  datatype ResolverError =
    | InvalidHandle
    | NoResolverForScheme(scheme: IdScheme)
    | Underlying(reason: string)

  type Outcome = Result<ResolvedAgent, ResolverError>

  type TaskId = nat

  /** Where a `resolve` call stands between two critical sections. */
  datatype Task =
    | Entered(h: string)
    | Missed(h: string)
    | Subscribing(h: string, slot: TaskId)   // holds the leader's notifier, not yet listening
    | Waiting(h: string, slot: TaskId)
    | Woken(h: string, slot: TaskId)
    | Claimed(h: string)
    | Fetching(h: string, etag: Option<string>, seen: Option<ResolvedAgent>)
    | Received(h: string, entry: CacheEntry)
    | Unmodified(h: string, seen: Option<ResolvedAgent>)
    | Releasing(h: string, result: Outcome)
    | Notifying(h: string, result: Outcome)
    | Finished(h: string, result: Outcome)

  /** Between claiming the in-flight slot of `h` and releasing it. */
  predicate Leads(task: Task, h: string) {
    (task.Claimed? || task.Fetching? || task.Received? || task.Unmodified? || task.Releasing?) && task.h == h
  }

  /** A fresh reply: the resolver that gave it, the handle it was called on, the record. */
  datatype FreshReply = FreshReply(scheme: IdScheme, handle: string, record: ResolvedAgent)

  /**
   The shared maps, the tasks and the clock. A notifier is named by the task that
   created it. `replies` is history: every fresh reply ever given.
   */
  datatype State = State(
    cache: Cache, inflight: map<string, TaskId>, tasks: map<TaskId, Task>, now: Instant, replies: set<FreshReply>)

  datatype Reply = Fresh(record: ResolvedAgent) | NotModified | Failed(error: ResolverError)

  datatype Step =
    | Call(t: TaskId, handle: string)
    | FastRead(t: TaskId)
    | Claim(t: TaskId)
    | Subscribe(t: TaskId)
    | ReRead(t: TaskId)
    | ReadEtag(t: TaskId)
    | Answer(t: TaskId, reply: Reply)
    | Insert(t: TaskId, after: Cache)
    | Extend(t: TaskId)
    | Release(t: TaskId)
    | Notify(t: TaskId)
    | Invalidate(handle: string)
    | Tick(elapsed: nat)

  function Moved(s: State, t: TaskId, task: Task): State { s.(tasks := s.tasks[t := task]) }

  /** `notify_waiters`: wakes the tasks that are listening on `t` at this moment. */
  function Notified(tasks: map<TaskId, Task>, t: TaskId): map<TaskId, Task> {
    map w | w in tasks :: if tasks[w].Waiting? && tasks[w].slot == t then Woken(tasks[w].h, t) else tasks[w]
  }

  ghost predicate Next(c: Config, s: State, step: Step, s': State) {
    match step
    case Call(t, handle) =>
      && t !in s.tasks
      && s' == Moved(s, t, if ValidAgentId(handle) then Entered(handle) else Finished(handle, Err(InvalidHandle)))
    case FastRead(t) =>
      && t in s.tasks && s.tasks[t].Entered?
      && var h := s.tasks[t].h;
         s' == Moved(s, t, match GetFresh(s.cache, h, s.now, c.ttl)
                           case Some(record) => Finished(h, Ok(record))
                           case None => Missed(h))
    case Claim(t) =>
      && t in s.tasks && s.tasks[t].Missed?
      && var h := s.tasks[t].h;
         if h in s.inflight then s' == Moved(s, t, Subscribing(h, s.inflight[h]))
         else s' == Moved(s, t, Claimed(h)).(inflight := s.inflight[h := t])
    case Subscribe(t) =>
      && t in s.tasks && s.tasks[t].Subscribing?
      && s' == Moved(s, t, Waiting(s.tasks[t].h, s.tasks[t].slot))
    case ReRead(t) =>
      && t in s.tasks && s.tasks[t].Woken?
      && var h := s.tasks[t].h;
         s' == Moved(s, t, Finished(h, match GetAny(s.cache, h)
                                       case Some(record) => Ok(record)
                                       case None => Err(Underlying("inflight resolver failed"))))
    case ReadEtag(t) =>
      && t in s.tasks && s.tasks[t].Claimed?
      && var h := s.tasks[t].h;
         s' == Moved(s, t, if Scheme(h) in c.resolvers
                           then Fetching(h, Etag(s.cache, h), GetAny(s.cache, h))
                           else Releasing(h, Err(NoResolverForScheme(Scheme(h)))))
    case Answer(t, reply) =>
      && t in s.tasks && s.tasks[t].Fetching?
      && var h := s.tasks[t].h;
         (match reply
          case Fresh(record) =>
            s' == Moved(s, t, Received(h, CacheEntry(record, s.now)))
                  .(replies := s.replies + {FreshReply(Scheme(h), h, record)})
          case NotModified => s' == Moved(s, t, Unmodified(h, s.tasks[t].seen))
          case Failed(error) => s' == Moved(s, t, Releasing(h, Err(error))))
    case Insert(t, after) =>
      && t in s.tasks && s.tasks[t].Received?
      && var Received(h, entry) := s.tasks[t];
         && Inserted(s.cache, h, entry, c.capacity, after)
         && s' == Moved(s, t, Releasing(h, Ok(entry.record))).(cache := after)
    case Extend(t) =>
      && t in s.tasks && s.tasks[t].Unmodified?
      && var h := s.tasks[t].h;
         s' == Moved(s, t, Releasing(h, match GetAny(s.cache, h)
                                        case Some(record) => Ok(record)
                                        case None => Err(Underlying("304 returned with no cached entry"))))
               .(cache := Extended(s.cache, h, s.now))
    case Release(t) =>
      && t in s.tasks && s.tasks[t].Releasing?
      && var Releasing(h, result) := s.tasks[t];
         s' == Moved(s, t, Notifying(h, result)).(inflight := s.inflight - {h})
    case Notify(t) =>
      && t in s.tasks && s.tasks[t].Notifying?
      && var Notifying(h, result) := s.tasks[t];
         s' == s.(tasks := Notified(s.tasks, t)[t := Finished(h, result)])
    case Invalidate(handle) =>
      s' == if ValidAgentId(handle) then s.(cache := s.cache - {handle}) else s
    case Tick(elapsed) =>
      s' == s.(now := s.now + elapsed)
  }

  const Initial := State(map[], map[], map[], 0, {})

  /** Any interleaving of any number of `resolve` and `invalidate` calls. */
  ghost predicate IsRun(c: Config, states: seq<State>, steps: seq<Step>) {
    && |states| == |steps| + 1
    && states[0] == Initial
    && forall i | 0 <= i < |steps| :: Next(c, states[i], steps[i], states[i + 1])
  }

  // ---------- invariants ----------

  /** A handle is in flight exactly while one task leads it, and the slot names that task. */
  ghost predicate SingleFlight(s: State) {
    forall h, t :: LeadsAt(s, t, h) <==> h in s.inflight && s.inflight[h] == t
  }

  predicate LeadsAt(s: State, t: TaskId, h: string) { t in s.tasks && Leads(s.tasks[t], h) }

  /** The record was given fresh by the resolver registered for the handle's scheme, called on the handle. */
  predicate Genuine(c: Config, s: State, h: string, r: ResolvedAgent) {
    Scheme(h) in c.resolvers && FreshReply(Scheme(h), h, r) in s.replies
  }

  predicate TaskGenuine(c: Config, s: State, task: Task) {
    match task
    case Fetching(h, etag, seen) =>
      && Scheme(h) in c.resolvers
      && (seen.Some? ==> Genuine(c, s, h, seen.value))
      && etag == (if seen.Some? then seen.value.etag else None)
    case Unmodified(h, seen) => seen.Some? ==> Genuine(c, s, h, seen.value)
    case Received(h, entry) => Genuine(c, s, h, entry.record)
    case Releasing(h, result) => result.Ok? ==> Genuine(c, s, h, result.value)
    case Notifying(h, result) => result.Ok? ==> Genuine(c, s, h, result.value)
    case Finished(h, result) => result.Ok? ==> Genuine(c, s, h, result.value)
    case _ => true
  }

  ghost predicate AllGenuine(c: Config, s: State) {
    && (forall h | h in s.cache :: Genuine(c, s, h, s.cache[h].record))
    && (forall t | t in s.tasks :: TaskGenuine(c, s, s.tasks[t]))
  }

  /** While a leader revalidates, the cache holds what it saw at the ETag read, or nothing. */
  predicate SeenStillCached(s: State, task: Task) {
    (task.Fetching? || task.Unmodified?) && task.h in s.cache ==> task.seen == Some(s.cache[task.h].record)
  }

  ghost predicate Inv(c: Config, s: State) {
    && SingleFlight(s)
    && AllGenuine(c, s)
    && (forall t | t in s.tasks :: SeenStillCached(s, s.tasks[t]))
    && |s.cache| <= c.capacity
  }

  lemma SingleFlightStep(c: Config, s: State, step: Step, s': State)
    requires SingleFlight(s) && Next(c, s, step, s')
    ensures SingleFlight(s')
  {
    if step.Claim? || step.Release? {
      forall h, t ensures LeadsAt(s', t, h) <==> h in s'.inflight && s'.inflight[h] == t {
        assert LeadsAt(s, t, h) <==> h in s.inflight && s.inflight[h] == t;
        assert LeadsAt(s, step.t, h) <==> h in s.inflight && s.inflight[h] == step.t;
      }
    } else {
      forall h, t ensures LeadsAt(s', t, h) == LeadsAt(s, t, h) { OthersKeepLeading(c, s, step, s', h, t); }
    }
  }

  lemma OthersKeepLeading(c: Config, s: State, step: Step, s': State, h: string, t: TaskId)
    requires Next(c, s, step, s') && !step.Claim? && !step.Release?
    ensures LeadsAt(s', t, h) == LeadsAt(s, t, h)
  {
    hide Scheme;
    hide ValidAgentId;
    hide Inserted;
  }

  lemma GenuineStep(c: Config, s: State, step: Step, s': State)
    requires AllGenuine(c, s) && Next(c, s, step, s')
    ensures AllGenuine(c, s')
  {
    CacheGenuineStep(c, s, step, s');
    hide TaskGenuine;
    forall t | t in s'.tasks ensures TaskGenuine(c, s', s'.tasks[t]) {
      if t in s.tasks && s.tasks[t] == s'.tasks[t] {
        TaskStaysGenuine(c, s, s', s.tasks[t]);
      } else {
        MovedTaskGenuine(c, s, step, s', t);
      }
    }
  }

  lemma MovedTaskGenuine(c: Config, s: State, step: Step, s': State, t: TaskId)
    requires AllGenuine(c, s) && Next(c, s, step, s')
    requires t in s'.tasks && (t in s.tasks ==> s.tasks[t] != s'.tasks[t])
    ensures TaskGenuine(c, s', s'.tasks[t])
  {
    hide Scheme;
    hide ValidAgentId;
    hide Inserted;
    if t in s.tasks { assert TaskGenuine(c, s, s.tasks[t]); }
  }

  lemma TaskStaysGenuine(c: Config, s: State, s': State, task: Task)
    requires TaskGenuine(c, s, task) && s.replies <= s'.replies
    ensures TaskGenuine(c, s', task)
  {
  }

  lemma CacheGenuineStep(c: Config, s: State, step: Step, s': State)
    requires AllGenuine(c, s) && Next(c, s, step, s')
    ensures s.replies <= s'.replies
    ensures forall h | h in s'.cache :: Genuine(c, s', h, s'.cache[h].record)
  {
    RepliesGrow(c, s, step, s');
    forall h | h in s'.cache ensures Genuine(c, s', h, s'.cache[h].record) {
      RecordFrame(c, s, step, s', h);
      if step.Insert? && step.t in s.tasks { assert TaskGenuine(c, s, s.tasks[step.t]); }
      hide Next;
      hide Scheme;
    }
  }

  lemma RepliesGrow(c: Config, s: State, step: Step, s': State)
    requires Next(c, s, step, s')
    ensures s.replies <= s'.replies
  {
    hide Scheme;
    hide ValidAgentId;
    hide Inserted;
  }

  lemma SeenStep(c: Config, s: State, step: Step, s': State)
    requires SingleFlight(s) && Next(c, s, step, s')
    requires forall t | t in s.tasks :: SeenStillCached(s, s.tasks[t])
    ensures forall t | t in s'.tasks :: SeenStillCached(s', s'.tasks[t])
  {
    forall t | t in s'.tasks ensures SeenStillCached(s', s'.tasks[t]) {
      SeenStepAt(c, s, step, s', t);
    }
  }

  lemma SeenStepAt(c: Config, s: State, step: Step, s': State, t: TaskId)
    requires SingleFlight(s) && Next(c, s, step, s') && t in s'.tasks
    requires t in s.tasks ==> SeenStillCached(s, s.tasks[t])
    ensures SeenStillCached(s', s'.tasks[t])
  {
    if (s'.tasks[t].Fetching? || s'.tasks[t].Unmodified?) && s'.tasks[t].h in s'.cache {
      var h := s'.tasks[t].h;
      EarlierSeen(c, s, step, s', t);
      RecordFrame(c, s, step, s', h);
      hide Next;
      if step.Insert? && step.t in s.tasks {
        assert LeadsAt(s, step.t, h) <==> h in s.inflight && s.inflight[h] == step.t;
        assert LeadsAt(s, t, h) <==> h in s.inflight && s.inflight[h] == t;
      }
    }
  }

  /** A cached record changes only by an insertion for its own handle. */
  lemma RecordFrame(c: Config, s: State, step: Step, s': State, h: string)
    requires Next(c, s, step, s') && h in s'.cache
    ensures (h in s.cache && s'.cache[h].record == s.cache[h].record)
            || (step.Insert? && step.t in s.tasks && s.tasks[step.t].Received? && s.tasks[step.t].h == h
                && s'.cache[h].record == s.tasks[step.t].entry.record)
  {
    hide Scheme;
    hide ValidAgentId;
  }

  lemma CapacityStep(c: Config, s: State, step: Step, s': State)
    requires |s.cache| <= c.capacity && Next(c, s, step, s')
    ensures |s'.cache| <= c.capacity
  {
  }

  // ---------- every run ----------

  lemma {:induction false} RunKeepsInv(c: Config, states: seq<State>, steps: seq<Step>, i: nat)
    requires IsRun(c, states, steps) && i < |states|
    ensures Inv(c, states[i])
  {
    if i > 0 {
      RunKeepsInv(c, states, steps, i - 1);
      var s, step, s' := states[i - 1], steps[i - 1], states[i];
      assert Next(c, s, step, s');
      hide Next;
      SingleFlightStep(c, s, step, s');
      GenuineStep(c, s, step, s');
      SeenStep(c, s, step, s');
      CapacityStep(c, s, step, s');
    }
  }

  /** At most one resolver call per handle is outstanding, and the cache stays within capacity. */
  lemma AtMostOneFetch(c: Config, states: seq<State>, steps: seq<Step>, i: nat)
    requires IsRun(c, states, steps) && i < |states|
    ensures var s := states[i];
            && (forall h :: h in s.inflight <==> exists t :: LeadsAt(s, t, h))
            && (forall t, u | t in s.tasks && u in s.tasks && s.tasks[t].Fetching? && s.tasks[u].Fetching? ::
                  s.tasks[t].h == s.tasks[u].h ==> t == u)
            && |s.cache| <= c.capacity
  {
    RunKeepsInv(c, states, steps, i);
    var s := states[i];
    forall h | h in s.inflight ensures exists t :: LeadsAt(s, t, h) {
      assert LeadsAt(s, s.inflight[h], h);
    }
    forall t, u | t in s.tasks && u in s.tasks && s.tasks[t].Fetching? && s.tasks[u].Fetching? && s.tasks[t].h == s.tasks[u].h
      ensures t == u
    {
      assert LeadsAt(s, t, s.tasks[t].h) && LeadsAt(s, u, s.tasks[t].h);
    }
  }

  /** Step `j` is a fresh answer with record `r` to a call on `h`. */
  ghost predicate AnsweredFresh(states: seq<State>, steps: seq<Step>, j: nat, h: string, r: ResolvedAgent)
    requires j < |steps| < |states|
  {
    steps[j].Answer? && steps[j].reply == Fresh(r) && steps[j].t in states[j].tasks
    && states[j].tasks[steps[j].t].Fetching? && states[j].tasks[steps[j].t].h == h
  }

  lemma {:induction false} RepliesWereGiven(c: Config, states: seq<State>, steps: seq<Step>, i: nat, h: string, r: ResolvedAgent)
    requires IsRun(c, states, steps) && i < |states| && FreshReply(Scheme(h), h, r) in states[i].replies
    ensures exists j: nat | j < i :: AnsweredFresh(states, steps, j, h, r)
  {
    hide Scheme;
    assert i > 0;
    assert Next(c, states[i - 1], steps[i - 1], states[i]);
    if FreshReply(Scheme(h), h, r) in states[i - 1].replies {
      RepliesWereGiven(c, states, steps, i - 1, h, r);
    } else {
      assert AnsweredFresh(states, steps, i - 1, h, r);
    }
  }

  /** Whatever `resolve(h)` returns, on any path, an earlier fresh answer for `h` gave it. */
  lemma ResolvedRecordsAreGenuine(c: Config, states: seq<State>, steps: seq<Step>, i: nat, t: TaskId, h: string, r: ResolvedAgent)
    requires IsRun(c, states, steps) && i < |states|
    requires t in states[i].tasks && states[i].tasks[t] == Finished(h, Ok(r))
    ensures Scheme(h) in c.resolvers
    ensures exists j: nat | j < i :: AnsweredFresh(states, steps, j, h, r)
  {
    RunKeepsInv(c, states, steps, i);
    assert TaskGenuine(c, states[i], states[i].tasks[t]);
    RepliesWereGiven(c, states, steps, i, h, r);
  }

  /** Step `j` is where task `t` read the ETag of `h`, and `seen` was cached then. */
  ghost predicate ReadAt(states: seq<State>, steps: seq<Step>, j: nat, t: TaskId, h: string, seen: Option<ResolvedAgent>)
    requires j < |steps| < |states|
  {
    steps[j] == ReadEtag(t) && GetAny(states[j].cache, h) == seen
  }

  lemma {:induction false} SeenWasCached(c: Config, states: seq<State>, steps: seq<Step>, i: nat, t: TaskId)
    requires IsRun(c, states, steps) && i < |states| && t in states[i].tasks
    requires states[i].tasks[t].Fetching? || states[i].tasks[t].Unmodified?
    ensures var task := states[i].tasks[t];
            exists j: nat | j < i :: ReadAt(states, steps, j, t, task.h, task.seen)
  {
    assert i > 0;
    var before, step := states[i - 1], steps[i - 1];
    assert Next(c, before, step, states[i]);
    EarlierSeen(c, before, step, states[i], t);
    if step != ReadEtag(t) {
      SeenWasCached(c, states, steps, i - 1, t);
    } else {
      assert ReadAt(states, steps, i - 1, t, states[i].tasks[t].h, states[i].tasks[t].seen);
    }
  }

  lemma EarlierSeen(c: Config, s: State, step: Step, s': State, t: TaskId)
    requires Next(c, s, step, s') && t in s'.tasks && (s'.tasks[t].Fetching? || s'.tasks[t].Unmodified?)
    ensures step == ReadEtag(t) ==> s'.tasks[t].seen == GetAny(s.cache, s'.tasks[t].h)
    ensures step != ReadEtag(t) ==> t in s.tasks && (s.tasks[t].Fetching? || s.tasks[t].Unmodified?)
                                    && s.tasks[t].h == s'.tasks[t].h && s.tasks[t].seen == s'.tasks[t].seen
  {
    hide Scheme;
    hide ValidAgentId;
    hide Inserted;
  }

  /** A not-modified answer errors, or extends the very record cached when its ETag was read. */
  lemma NotModifiedExtendsSeen(c: Config, states: seq<State>, steps: seq<Step>, i: nat)
    requires IsRun(c, states, steps) && i < |steps| && steps[i].Extend?
    ensures var t := steps[i].t;
            && t in states[i + 1].tasks && states[i + 1].tasks[t].Releasing?
            && var Releasing(h, result) := states[i + 1].tasks[t];
               result.Ok? ==> && h in states[i + 1].cache
                              && states[i + 1].cache[h] == CacheEntry(result.value, states[i].now)
                              && exists j: nat | j < i :: ReadAt(states, steps, j, t, h, Some(result.value))
  {
    assert Next(c, states[i], steps[i], states[i + 1]);
    RunKeepsInv(c, states, steps, i);
    SeenWasCached(c, states, steps, i, steps[i].t);
    assert SeenStillCached(states[i], states[i].tasks[steps[i].t]);
  }

  // ---------- what a woken waiter returns ----------

  predicate Held(s: State, h: string, r: ResolvedAgent) { h in s.cache && s.cache[h].record == r }

  /** The step inserts a record for `h`. */
  predicate InsertsFor(s: State, step: Step, h: string) {
    step.Insert? && step.t in s.tasks && s.tasks[step.t].Received? && s.tasks[step.t].h == h
  }

  /** The step puts `r` into the cache for `h`, and it is not evicted at once. */
  predicate Stores(s: State, step: Step, h: string, r: ResolvedAgent) {
    InsertsFor(s, step, h) && s.tasks[step.t].entry.record == r && h in step.after
  }

  /** The step invalidates `h`, evicts it, or inserts another record for it. */
  predicate Disturbs(s: State, step: Step, h: string, r: ResolvedAgent) {
    || (step == Invalidate(h) && ValidAgentId(h))
    || (step.Insert? && h !in step.after)
    || (InsertsFor(s, step, h) && s.tasks[step.t].entry.record != r)
  }

  lemma HeldStep(c: Config, s: State, step: Step, s': State, h: string, r: ResolvedAgent)
    requires Next(c, s, step, s')
    ensures Held(s', h, r) <==> Stores(s, step, h, r) || (Held(s, h, r) && !Disturbs(s, step, h, r))
    ensures Stores(s, step, h, r) ==> !Disturbs(s, step, h, r)
  {
    if step.Insert? { HeldInsert(c, s, step, s', h, r); } else { HeldOther(c, s, step, s', h, r); }
    hide Next;
    hide Held;
  }

  lemma HeldInsert(c: Config, s: State, step: Step, s': State, h: string, r: ResolvedAgent)
    requires Next(c, s, step, s') && step.Insert?
    ensures Held(s', h, r) <==> Stores(s, step, h, r) || (Held(s, h, r) && !Disturbs(s, step, h, r))
  {
    var Received(own, entry) := s.tasks[step.t];
    assert Inserted(s.cache, own, entry, c.capacity, step.after) && s'.cache == step.after;
    hide Next;
    assert h in step.after ==> step.after[h] == if h == own then entry else s.cache[h];
    hide Inserted;
  }

  lemma HeldOther(c: Config, s: State, step: Step, s': State, h: string, r: ResolvedAgent)
    requires Next(c, s, step, s') && !step.Insert?
    ensures Held(s', h, r) <==> Held(s, h, r) && !(step == Invalidate(h) && ValidAgentId(h))
  {
    hide Scheme;
    hide ValidAgentId;
    hide Notified;
    hide GetFresh;
  }

  /** Step `m` stored the record and nothing before step `i` disturbed it. */
  ghost predicate KeptSince(states: seq<State>, steps: seq<Step>, m: nat, i: nat, h: string, r: ResolvedAgent)
    requires m < i <= |steps| < |states|
  {
    Stores(states[m], steps[m], h, r) && forall k | m < k < i :: !Disturbs(states[k], steps[k], h, r)
  }

  /** The cache holds a record exactly when some insertion stored it and nothing disturbed it since. */
  lemma {:induction false} HeldExactly(c: Config, states: seq<State>, steps: seq<Step>, i: nat, h: string, r: ResolvedAgent)
    requires IsRun(c, states, steps) && i < |states|
    ensures Held(states[i], h, r) <==> exists m: nat | m < i :: KeptSince(states, steps, m, i, h, r)
  {
    hide ValidAgentId;
    hide Next;
    hide Stores;
    hide Disturbs;
    if i > 0 {
      var n := i - 1;
      HeldExactly(c, states, steps, n, h, r);
      assert Next(c, states[n], steps[n], states[i]);
      HeldStep(c, states[n], steps[n], states[i], h, r);
      hide Held;
      hide IsRun;
      if m: nat :| m < n && KeptSince(states, steps, m, n, h, r) {
        if !Disturbs(states[n], steps[n], h, r) { assert KeptSince(states, steps, m, i, h, r); }
      }
      if Stores(states[n], steps[n], h, r) { assert KeptSince(states, steps, n, i, h, r); }
      if m: nat :| m < i && KeptSince(states, steps, m, i, h, r) {
        if m < n { assert KeptSince(states, steps, m, n, h, r); }
      }
    }
  }

  /**
   Whatever its leader's result was, a woken waiter returns `r` exactly when some
   insertion stored it and no invalidation, eviction or other record came since.
   */
  lemma WaiterReturnsExactly(c: Config, states: seq<State>, steps: seq<Step>, i: nat, w: TaskId, r: ResolvedAgent)
    requires IsRun(c, states, steps) && i < |steps| && steps[i] == ReRead(w)
    requires w in states[i].tasks
    ensures w in states[i + 1].tasks && states[i + 1].tasks[w].Finished?
    ensures var h := states[i].tasks[w].h;
            states[i + 1].tasks[w] == Finished(h, Ok(r)) <==> exists m: nat | m < i :: KeptSince(states, steps, m, i, h, r)
  {
    assert Next(c, states[i], steps[i], states[i + 1]);
    HeldExactly(c, states, steps, i, states[i].tasks[w].h, r);
    hide IsRun;
    hide KeptSince;
    hide ValidAgentId;
  }

  /** So a leader's record reaches its waiter if the leader's own insertion is undisturbed until the waiter looks. */
  lemma LeaderRecordReachesWaiter(c: Config, states: seq<State>, steps: seq<Step>, m: nat, i: nat, w: TaskId)
    requires IsRun(c, states, steps) && m < i < |steps| && steps[i] == ReRead(w) && w in states[i].tasks
    requires steps[m].Insert? && steps[m].t in states[m].tasks && states[m].tasks[steps[m].t].Received?
    requires var Received(h, entry) := states[m].tasks[steps[m].t];
             && states[i].tasks[w] == Woken(h, steps[m].t) && h in steps[m].after
             && forall k | m < k < i :: !Disturbs(states[k], steps[k], h, entry.record)
    ensures var Received(h, entry) := states[m].tasks[steps[m].t];
            w in states[i + 1].tasks && states[i + 1].tasks[w] == Finished(h, Ok(entry.record))
  {
    var Received(h, entry) := states[m].tasks[steps[m].t];
    hide ValidAgentId;
    hide Next;
    assert KeptSince(states, steps, m, i, h, entry.record);
    WaiterReturnsExactly(c, states, steps, i, w, entry.record);
  }

  /** With no capacity the entry is never in the cache, and every woken waiter fails. */
  lemma NoCapacityFailsWaiters(c: Config, states: seq<State>, steps: seq<Step>, i: nat, w: TaskId)
    requires IsRun(c, states, steps) && i < |steps| && steps[i] == ReRead(w) && c.capacity == 0
    ensures w in states[i + 1].tasks && states[i + 1].tasks[w].Finished? && states[i + 1].tasks[w].result.Err?
  {
    RunKeepsInv(c, states, steps, i);
    assert Next(c, states[i], steps[i], states[i + 1]);
    hide IsRun;
    assert states[i].cache == map[];
  }

  // ---------- a waiter can be left behind ----------

  /** A waiter that holds the notifier of a leader that has already finished. */
  predicate LeftBehind(s: State, w: TaskId) {
    && w in s.tasks && (s.tasks[w].Subscribing? || s.tasks[w].Waiting?)
    && s.tasks[w].slot in s.tasks && s.tasks[s.tasks[w].slot].Finished?
  }

  lemma LeftBehindStep(c: Config, s: State, step: Step, s': State, w: TaskId)
    requires Next(c, s, step, s') && LeftBehind(s, w)
    ensures LeftBehind(s', w)
  {
    hide Scheme;
    hide ValidAgentId;
    hide Inserted;
  }

  /** Such a waiter never returns, in any continuation of the run. */
  lemma {:induction false} LeftBehindForever(c: Config, states: seq<State>, steps: seq<Step>, i: nat, j: nat, w: TaskId)
    requires IsRun(c, states, steps) && i <= j < |states| && LeftBehind(states[i], w)
    ensures LeftBehind(states[j], w)
  {
    if i < j {
      LeftBehindForever(c, states, steps, i, j - 1, w);
      LeftBehindStep(c, states[j - 1], steps[j - 1], states[j], w);
    }
  }

  /** Notifying leaves a waiter behind exactly when it holds the notifier without listening yet. */
  lemma NotifyMisses(c: Config, s: State, t: TaskId, s': State, w: TaskId)
    requires Next(c, s, Notify(t), s') && w in s.tasks
    requires (s.tasks[w].Subscribing? || s.tasks[w].Waiting?) && s.tasks[w].slot == t
    ensures LeftBehind(s', w) <==> s.tasks[w].Subscribing?
    ensures s'.tasks[w] == Woken(s.tasks[w].h, t) <==> s.tasks[w].Waiting?
  {
  }

  lemma RunExtends(c: Config, states: seq<State>, steps: seq<Step>, step: Step, s': State)
    requires IsRun(c, states, steps) && Next(c, states[|states| - 1], step, s')
    ensures IsRun(c, states + [s'], steps + [step])
  {
    hide Next;
    var ss, ts := states + [s'], steps + [step];
    forall i | 0 <= i < |ts| ensures Next(c, ss[i], ts[i], ss[i + 1]) {
      if i < |steps| { assert Next(c, states[i], steps[i], states[i + 1]); }
    }
  }

  /** It happens: the leader succeeds and the second caller waits for ever, on any resolvable handle. */
  lemma SuccessCanLeaveWaiterBehind(c: Config, h: string, r: ResolvedAgent) returns (states: seq<State>, steps: seq<Step>)
    requires ValidAgentId(h) && Scheme(h) in c.resolvers && c.capacity > 0
    ensures IsRun(c, states, steps)
    ensures var s := states[|states| - 1];
            LeftBehind(s, 1) && s.tasks[1] == Subscribing(h, 0) && s.tasks[0] == Finished(h, Ok(r))
  {
    hide ValidAgentId;
    hide Scheme;
    var s := Initial;
    states, steps := [s], [];
    s := Moved(s, 0, Entered(h));
    states, steps := Do(c, states, steps, Call(0, h), s);
    s := Moved(s, 1, Entered(h));
    states, steps := Do(c, states, steps, Call(1, h), s);
    s := Moved(s, 0, Missed(h));
    states, steps := Do(c, states, steps, FastRead(0), s);
    s := Moved(s, 1, Missed(h));
    states, steps := Do(c, states, steps, FastRead(1), s);
    s := Moved(s, 0, Claimed(h)).(inflight := s.inflight[h := 0]);
    states, steps := Do(c, states, steps, Claim(0), s);
    s := Moved(s, 1, Subscribing(h, 0));
    states, steps := Do(c, states, steps, Claim(1), s);
    states, steps := LeaderCompletes(c, states, steps, h, r);
  }

  lemma LeaderCompletes(c: Config, states: seq<State>, steps: seq<Step>, h: string, r: ResolvedAgent)
    returns (ss: seq<State>, ts: seq<Step>)
    requires IsRun(c, states, steps) && Scheme(h) in c.resolvers && c.capacity > 0
    requires var s := states[|states| - 1];
             && s.cache == map[] && s.tasks.Keys == {0, 1}
             && s.tasks[0] == Claimed(h) && s.tasks[1] == Subscribing(h, 0)
    ensures IsRun(c, ss, ts)
    ensures var s := ss[|ss| - 1];
            LeftBehind(s, 1) && s.tasks[1] == Subscribing(h, 0) && s.tasks[0] == Finished(h, Ok(r))
  {
    hide Scheme;
    hide ValidAgentId;
    hide GetFresh;
    hide Extended;
    var s := states[|states| - 1];
    var entry := CacheEntry(r, s.now);
    s := Moved(s, 0, Fetching(h, None, None));
    ss, ts := Do(c, states, steps, ReadEtag(0), s);
    s := Moved(s, 0, Received(h, entry)).(replies := s.replies + {FreshReply(Scheme(h), h, r)});
    ss, ts := Do(c, ss, ts, Answer(0, Fresh(r)), s);
    var after: Cache := s.cache[h := entry];
    assert after.Keys == {h};
    assert Inserted(s.cache, h, entry, c.capacity, after);
    hide Inserted;
    s := Moved(s, 0, Releasing(h, Ok(r))).(cache := after);
    ss, ts := Do(c, ss, ts, Insert(0, after), s);
    ss, ts := LeaderLetsGo(c, ss, ts, h, r);
  }

  lemma LeaderLetsGo(c: Config, states: seq<State>, steps: seq<Step>, h: string, r: ResolvedAgent)
    returns (ss: seq<State>, ts: seq<Step>)
    requires IsRun(c, states, steps)
    requires var s := states[|states| - 1];
             s.tasks.Keys == {0, 1} && s.tasks[0] == Releasing(h, Ok(r)) && s.tasks[1] == Subscribing(h, 0)
    ensures IsRun(c, ss, ts)
    ensures var s := ss[|ss| - 1];
            LeftBehind(s, 1) && s.tasks[1] == Subscribing(h, 0) && s.tasks[0] == Finished(h, Ok(r))
  {
    var s := states[|states| - 1];
    s := Moved(s, 0, Notifying(h, Ok(r))).(inflight := s.inflight - {h});
    ss, ts := Do(c, states, steps, Release(0), s);
    s := s.(tasks := Notified(s.tasks, 0)[0 := Finished(h, Ok(r))]);
    ss, ts := Do(c, ss, ts, Notify(0), s);
  }

  lemma Do(c: Config, states: seq<State>, steps: seq<Step>, step: Step, s': State) returns (ss: seq<State>, ts: seq<Step>)
    requires IsRun(c, states, steps) && Next(c, states[|states| - 1], step, s')
    ensures IsRun(c, ss, ts) && ss[|ss| - 1] == s'
  {
    RunExtends(c, states, steps, step, s');
    ss, ts := states + [s'], steps + [step];
  }
}
