/** How old a record is: when cache entries are stamped, and what the fast path returns. */
module ResolverFreshness {
  import opened Wrappers
  import opened AgentIds
  import opened ResolverCache
  import opened ResolverChain

  // ---------- what a step does to the entry of `h` ----------

  /** The step inserts an entry for `h`, or extends the one there is. */
  predicate Stamps(s: State, step: Step, h: string) {
    || InsertsFor(s, step, h)
    || (step.Extend? && step.t in s.tasks && s.tasks[step.t].Unmodified? && s.tasks[step.t].h == h && h in s.cache)
  }

  /** The step invalidates or evicts the entry of `h`. */
  predicate Removes(step: Step, h: string) {
    || (step == Invalidate(h) && ValidAgentId(h))
    || (step.Insert? && h !in step.after)
  }

  /** Step `j` is the fresh answer that task `t` later inserts: its record, and the time. */
  ghost predicate Answered(states: seq<State>, steps: seq<Step>, j: nat, t: TaskId, h: string, r: ResolvedAgent)
    requires j < |steps| < |states|
  {
    steps[j] == Answer(t, Fresh(r)) && t in states[j].tasks && states[j].tasks[t].Fetching? && states[j].tasks[t].h == h
  }

  /**
   The entry of `h` at `i` is record `r`, put there by step `m` and untouched since, and
   stamped at step `j`: the answer that was inserted, or the extension itself.
   */
  ghost predicate Stamped(states: seq<State>, steps: seq<Step>, i: nat, h: string, r: ResolvedAgent, m: nat, j: nat)
    requires i <= |steps| < |states|
  {
    && j <= m < i
    && Stamps(states[m], steps[m], h) && !Removes(steps[m], h)
    && (forall k | m < k < i :: !Stamps(states[k], steps[k], h) && !Removes(steps[k], h))
    && (if steps[m].Extend? then j == m && Held(states[m], h, r)
        else j < m && Answered(states, steps, j, steps[m].t, h, r) && states[m].tasks[steps[m].t].entry.record == r
             && forall k | j < k < m && steps[k].Answer? :: steps[k].t != steps[m].t)
  }

  // ---------- entries and their stamps ----------

  lemma EntryStep(c: Config, s: State, step: Step, s': State, h: string)
    requires Next(c, s, step, s')
    ensures !Stamps(s, step, h) && !Removes(step, h) ==> (h in s'.cache <==> h in s.cache)
    ensures !Stamps(s, step, h) && !Removes(step, h) && h in s.cache ==> s'.cache[h] == s.cache[h]
    ensures Removes(step, h) ==> h !in s'.cache
    ensures Stamps(s, step, h) && !Removes(step, h) ==>
              && h in s'.cache
              && s'.cache[h] == if step.Extend? then s.cache[h].(inserted := s.now) else s.tasks[step.t].entry
    ensures s.now <= s'.now
  {
    if step.Insert? {
      EntryInserted(c, s, step, s', h);
    } else {
      EntryKept(c, s, step, s', h);
    }
    hide Next;
  }

  lemma EntryInserted(c: Config, s: State, step: Step, s': State, h: string)
    requires Next(c, s, step, s') && step.Insert?
    ensures s'.cache == step.after && s'.now == s.now
    ensures InsertsFor(s, step, h) && h in step.after ==> step.after[h] == s.tasks[step.t].entry
    ensures !InsertsFor(s, step, h) && h in step.after ==> h in s.cache && step.after[h] == s.cache[h]
  {
    var Received(own, entry) := s.tasks[step.t];
    assert Inserted(s.cache, own, entry, c.capacity, step.after);
    hide Next;
    assert step.after.Keys <= s.cache[own := entry].Keys;
    assert h in step.after ==> step.after[h] == s.cache[own := entry][h];
    hide Inserted;
  }

  lemma EntryKept(c: Config, s: State, step: Step, s': State, h: string)
    requires Next(c, s, step, s') && !step.Insert?
    ensures !Stamps(s, step, h) && !Removes(step, h) ==> (h in s'.cache <==> h in s.cache)
    ensures !Stamps(s, step, h) && !Removes(step, h) && h in s.cache ==> s'.cache[h] == s.cache[h]
    ensures Removes(step, h) ==> h !in s'.cache
    ensures Stamps(s, step, h) ==> h in s'.cache && s'.cache[h] == s.cache[h].(inserted := s.now)
    ensures s.now <= s'.now
  {
    hide Scheme;
    hide ValidAgentId;
    hide Notified;
    hide GetFresh;
  }

  /** A task that holds an entry to insert got it from its own last answer, stamped with the time of that. */
  lemma {:induction false} ReceivedWasAnswered(c: Config, states: seq<State>, steps: seq<Step>, i: nat, t: TaskId) returns (j: nat)
    requires IsRun(c, states, steps) && i < |states| && t in states[i].tasks && states[i].tasks[t].Received?
    ensures j < i && Answered(states, steps, j, t, states[i].tasks[t].h, states[i].tasks[t].entry.record)
    ensures states[i].tasks[t].entry.inserted == states[j].now
    ensures forall k | j < k < i && steps[k].Answer? :: steps[k].t != t
  {
    assert i > 0;
    assert Next(c, states[i - 1], steps[i - 1], states[i]);
    ReceivedStep(c, states[i - 1], steps[i - 1], states[i], t);
    hide Next;
    if steps[i - 1].Answer? && steps[i - 1].t == t {
      j := i - 1;
    } else {
      j := ReceivedWasAnswered(c, states, steps, i - 1, t);
    }
  }

  lemma ReceivedStep(c: Config, s: State, step: Step, s': State, t: TaskId)
    requires Next(c, s, step, s') && t in s'.tasks && s'.tasks[t].Received?
    ensures if step.Answer? && step.t == t
            then && t in s.tasks && s.tasks[t].Fetching? && s.tasks[t].h == s'.tasks[t].h
                 && step.reply == Fresh(s'.tasks[t].entry.record) && s'.tasks[t].entry.inserted == s.now
            else t in s.tasks && s.tasks[t] == s'.tasks[t]
  {
    hide Scheme;
    hide ValidAgentId;
    hide Inserted;
  }

  ghost predicate HasStamp(states: seq<State>, steps: seq<Step>, i: nat, h: string, r: ResolvedAgent, at: Instant)
    requires i <= |steps| < |states|
  {
    exists m: nat, j: nat :: Stamped(states, steps, i, h, r, m, j) && states[j].now == at
  }

  predicate Cached(s: State, h: string, r: ResolvedAgent, at: Instant) { h in s.cache && s.cache[h] == CacheEntry(r, at) }

  lemma StampedStays(states: seq<State>, steps: seq<Step>, n: nat, h: string, r: ResolvedAgent, m: nat, j: nat)
    requires n < |steps| < |states| && Stamped(states, steps, n, h, r, m, j)
    requires !Stamps(states[n], steps[n], h) && !Removes(steps[n], h)
    ensures Stamped(states, steps, n + 1, h, r, m, j)
  {
    hide Stamps;
    hide Removes;
    hide Answered;
  }

  lemma {:induction false} CachedIsStamped(c: Config, states: seq<State>, steps: seq<Step>, i: nat, h: string, r: ResolvedAgent, at: Instant)
    requires IsRun(c, states, steps) && i < |states| && Cached(states[i], h, r, at)
    ensures HasStamp(states, steps, i, h, r, at)
  {
    assert i > 0;
    var n := i - 1;
    var s, step, s' := states[n], steps[n], states[i];
    assert Next(c, s, step, s');
    EntryStep(c, s, step, s', h);
    hide Next;
    hide Answered;
    hide Removes;
    if !Stamps(s, step, h) {
      CachedIsStamped(c, states, steps, n, h, r, at);
      var m: nat, j: nat :| Stamped(states, steps, n, h, r, m, j) && states[j].now == at;
      StampedStays(states, steps, n, h, r, m, j);
    } else if step.Extend? {
      assert Stamped(states, steps, i, h, r, n, n);
    } else {
      var j := ReceivedWasAnswered(c, states, steps, n, step.t);
      assert Stamped(states, steps, i, h, r, n, j);
    }
  }

  lemma {:induction false} StampedIsCached(c: Config, states: seq<State>, steps: seq<Step>, i: nat, h: string, r: ResolvedAgent, m: nat, j: nat)
    requires IsRun(c, states, steps) && i < |states| && Stamped(states, steps, i, h, r, m, j)
    ensures Cached(states[i], h, r, states[j].now)
  {
    var n := i - 1;
    var s, step, s' := states[n], steps[n], states[i];
    assert Next(c, s, step, s');
    EntryStep(c, s, step, s', h);
    hide Next;
    if m < n {
      assert Stamped(states, steps, n, h, r, m, j);
      StampedIsCached(c, states, steps, n, h, r, m, j);
    } else if !step.Extend? {
      var own := ReceivedWasAnswered(c, states, steps, n, step.t);
      assert own == j;
    }
  }

  /** The cache holds `r` for `h`, stamped at `at`, exactly when the history says so. */
  lemma CachedExactly(c: Config, states: seq<State>, steps: seq<Step>, i: nat, h: string, r: ResolvedAgent, at: Instant)
    requires IsRun(c, states, steps) && i < |states|
    ensures Cached(states[i], h, r, at) <==> HasStamp(states, steps, i, h, r, at)
  {
    hide Next;
    if Cached(states[i], h, r, at) { CachedIsStamped(c, states, steps, i, h, r, at); }
    if HasStamp(states, steps, i, h, r, at) {
      var m: nat, j: nat :| Stamped(states, steps, i, h, r, m, j) && states[j].now == at;
      StampedIsCached(c, states, steps, i, h, r, m, j);
    }
  }

  lemma {:induction false} ClockNeverStepsBack(c: Config, states: seq<State>, steps: seq<Step>, j: nat, i: nat)
    requires IsRun(c, states, steps) && j <= i < |states|
    ensures states[j].now <= states[i].now
  {
    if j < i {
      ClockNeverStepsBack(c, states, steps, j, i - 1);
      assert Next(c, states[i - 1], steps[i - 1], states[i]);
      EntryStep(c, states[i - 1], steps[i - 1], states[i], "");
    }
  }

  lemma FastReadStep(c: Config, s: State, t: TaskId, s': State)
    requires Next(c, s, FastRead(t), s')
    ensures t in s.tasks && t in s'.tasks
    ensures var h := s.tasks[t].h;
            (h in s.cache ==> s.cache[h].inserted <= s.now) ==>
              s'.tasks[t] == if h in s.cache && s.now - s.cache[h].inserted < c.ttl then Finished(h, Ok(s.cache[h].record))
                             else Missed(h)
  {
  }

  /** Entries are never stamped in the future. */
  lemma StampIsPast(c: Config, states: seq<State>, steps: seq<Step>, i: nat, h: string)
    requires IsRun(c, states, steps) && i < |states| && h in states[i].cache
    ensures states[i].cache[h].inserted <= states[i].now
  {
    var r, at := states[i].cache[h].record, states[i].cache[h].inserted;
    CachedIsStamped(c, states, steps, i, h, r, at);
    var m: nat, j: nat :| Stamped(states, steps, i, h, r, m, j) && states[j].now == at;
    ClockNeverStepsBack(c, states, steps, j, i);
  }

  /**
   The fast path returns a record iff the cache holds it and the clock has advanced by
   less than the TTL since its stamp; otherwise the call goes on to fetch.
   */
  lemma FastReadExactly(c: Config, states: seq<State>, steps: seq<Step>, i: nat, t: TaskId)
    requires IsRun(c, states, steps) && i < |steps| && steps[i] == FastRead(t)
    ensures t in states[i].tasks && t in states[i + 1].tasks
    ensures var h := states[i].tasks[t].h;
            && (states[i + 1].tasks[t] == Missed(h) || exists r :: states[i + 1].tasks[t] == Finished(h, Ok(r)))
            && forall r :: states[i + 1].tasks[t] == Finished(h, Ok(r)) <==> YoungerThan(states, steps, i, h, r, c.ttl)
  {
    assert Next(c, states[i], FastRead(t), states[i + 1]);
    FastReadStep(c, states[i], t, states[i + 1]);
    hide Next;
    var s, h := states[i], states[i].tasks[t].h;
    if h in s.cache { StampIsPast(c, states, steps, i, h); }
    hide IsRun;
    forall r ensures states[i + 1].tasks[t] == Finished(h, Ok(r)) <==> YoungerThan(states, steps, i, h, r, c.ttl) {
      YoungerExactly(c, states, steps, i, h, r);
    }
    hide YoungerThan;
  }

  /** The cache holds `r` for `h`, and the clock has advanced by less than `ttl` since its stamp. */
  ghost predicate YoungerThan(states: seq<State>, steps: seq<Step>, i: nat, h: string, r: ResolvedAgent, ttl: nat)
    requires i <= |steps| < |states|
  {
    exists m: nat, j: nat :: Stamped(states, steps, i, h, r, m, j) && states[i].now - states[j].now < ttl
  }

  lemma YoungerExactly(c: Config, states: seq<State>, steps: seq<Step>, i: nat, h: string, r: ResolvedAgent)
    requires IsRun(c, states, steps) && i <= |steps|
    ensures var s := states[i];
            YoungerThan(states, steps, i, h, r, c.ttl) <==>
            h in s.cache && s.cache[h].record == r && s.now - s.cache[h].inserted < c.ttl
  {
    var s := states[i];
    hide Stamped;
    hide Next;
    if h in s.cache && s.cache[h].record == r {
      CachedIsStamped(c, states, steps, i, h, r, s.cache[h].inserted);
    }
    if m: nat, j: nat :| Stamped(states, steps, i, h, r, m, j) && states[i].now - states[j].now < c.ttl {
      StampedIsCached(c, states, steps, i, h, r, m, j);
    }
  }

  /** A conditional fetch sends the ETag of the record cached when it was read, or none. */
  lemma FetchSendsCachedEtag(c: Config, states: seq<State>, steps: seq<Step>, i: nat, t: TaskId)
    requires IsRun(c, states, steps) && i < |states| && t in states[i].tasks && states[i].tasks[t].Fetching?
    ensures var Fetching(h, etag, seen) := states[i].tasks[t];
            && (exists j: nat | j < i :: ReadAt(states, steps, j, t, h, seen))
            && etag == match seen case Some(r) => r.etag case None => None
  {
    RunKeepsInv(c, states, steps, i);
    SeenWasCached(c, states, steps, i, t);
    assert TaskGenuine(c, states[i], states[i].tasks[t]);
  }

  // ---------- what a leader returns ----------

  /** The step settles the result of the fetch that task `t` leads for `h`. */
  predicate Settles(c: Config, s: State, step: Step, t: TaskId, h: string, result: Outcome) {
    && t in s.tasks && s.tasks[t].h == h
    && match step
       case ReadEtag(u) => u == t && Scheme(h) !in c.resolvers && result == Err(NoResolverForScheme(Scheme(h)))
       case Answer(u, Failed(error)) => u == t && result == Err(error)
       case Insert(u, _) => u == t && s.tasks[t].Received? && result == Ok(s.tasks[t].entry.record)
       case Extend(u) =>
         u == t && if h in s.cache then result == Ok(s.cache[h].record)
                   else result == Err(Underlying("304 returned with no cached entry"))
       case _ => false
  }

  /** About to return: the result is settled. */
  predicate Returning(task: Task) { task.Releasing? || task.Notifying? }

  lemma ResultStep(c: Config, s: State, step: Step, s': State, t: TaskId)
    requires Next(c, s, step, s') && t in s'.tasks && Returning(s'.tasks[t])
    ensures || (t in s.tasks && Returning(s.tasks[t]) && s.tasks[t].h == s'.tasks[t].h && s.tasks[t].result == s'.tasks[t].result)
            || Settles(c, s, step, t, s'.tasks[t].h, s'.tasks[t].result)
  {
    hide Scheme;
    hide ValidAgentId;
    hide Inserted;
    hide GetFresh;
  }

  /**
   What a leader is about to return is its resolver's fresh record, its resolver's error,
   the record it extended on a not-modified answer, or the error of having nothing to
   extend or no resolver for the scheme; one step of its own settled which.
   */
  lemma {:induction false} LeaderResultExactly(c: Config, states: seq<State>, steps: seq<Step>, i: nat, t: TaskId) returns (j: nat)
    requires IsRun(c, states, steps) && i < |states| && t in states[i].tasks && Returning(states[i].tasks[t])
    ensures j < i && Settles(c, states[j], steps[j], t, states[i].tasks[t].h, states[i].tasks[t].result)
  {
    hide Settles;
    assert i > 0;
    var s, step, s' := states[i - 1], steps[i - 1], states[i];
    assert Next(c, s, step, s');
    hide Next;
    ResultStep(c, s, step, s', t);
    if Settles(c, s, step, t, s'.tasks[t].h, s'.tasks[t].result) {
      j := i - 1;
    } else {
      j := LeaderResultExactly(c, states, steps, i - 1, t);
    }
  }

  /** And when it notifies, that is what its caller gets. */
  lemma NotifyReturns(c: Config, s: State, t: TaskId, s': State)
    requires Next(c, s, Notify(t), s')
    ensures t in s.tasks && s.tasks[t].Notifying? && t in s'.tasks
    ensures s'.tasks[t] == Finished(s.tasks[t].h, s.tasks[t].result)
  {
  }
}
