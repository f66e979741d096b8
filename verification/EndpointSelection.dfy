/** Stable sorting by a numeric key, and what it means for the places elements came from. */
module Sorting {
  /** The numbers a key may be, in order; not-a-number has no place in it. */
  datatype Num = NegInf | Finite(value: real) | PosInf

  predicate Less(a: Num, b: Num) {
    match (a, b)
    case (Finite(x), Finite(y)) => x < y
    case (NegInf, _) => b != NegInf
    case (_, PosInf) => a != PosInf
    case _ => false
  }

  /** Inserts `x` after the last element with no greater key under `le`. */
  function Insert<T(!new)>(s: seq<T>, x: T, le: (T, T) -> bool): (r: seq<T>)
    ensures |r| == |s| + 1 && forall y :: y in r <==> y in s || y == x
  {
    if s == [] then [x]
    else
      var last := |s| - 1;
      assert s == s[..last] + [s[last]];
      if le(s[last], x) then s + [x] else Insert(s[..last], x, le) + [s[last]]
  }

  function StableSort<T(!new)>(s: seq<T>, le: (T, T) -> bool): (r: seq<T>)
    ensures |r| == |s| && forall x :: x in r <==> x in s
  {
    if s == [] then []
    else
      var last := |s| - 1;
      assert s == s[..last] + [s[last]];
      Insert(StableSort(s[..last], le), s[last], le)
  }

  function ByKey<T>(key: T -> Num): (T, T) -> bool { (a, b) => !Less(key(b), key(a)) }

  lemma {:induction false} SortedStays<T(!new)>(s: seq<T>, key: T -> Num)
    requires forall i, j | 0 <= i < j < |s| :: !Less(key(s[j]), key(s[i]))
    ensures StableSort(s, ByKey(key)) == s
  {
    if s != [] {
      SortedStays(s[..|s| - 1], key);
      assert s == s[..|s| - 1] + [s[|s| - 1]];
    }
  }

  // ---------- elements tagged with the place they came from ----------

  datatype Tagged<T> = Tagged(place: nat, item: T)

  function Untag<T>(s: seq<Tagged<T>>): (r: seq<T>)
    ensures |r| == |s| && forall i | 0 <= i < |s| :: r[i] == s[i].item
  {
    seq(|s|, i requires 0 <= i < |s| => s[i].item)
  }

  /** By key, then by place. */
  function Lex<T>(key: T -> Num): (Tagged<T>, Tagged<T>) -> bool {
    (a: Tagged<T>, b: Tagged<T>) => Less(key(a.item), key(b.item)) || (key(a.item) == key(b.item) && a.place <= b.place)
  }

  predicate Precedes<T>(key: T -> Num, a: Tagged<T>, b: Tagged<T>) {
    Less(key(a.item), key(b.item)) || (key(a.item) == key(b.item) && a.place < b.place)
  }

  predicate StrictlyOrdered<T>(key: T -> Num, s: seq<Tagged<T>>) {
    forall i, j | 0 <= i < j < |s| :: Precedes(key, s[i], s[j])
  }

  predicate Ascending<T>(s: seq<Tagged<T>>) { forall i, j | 0 <= i < j < |s| :: s[i].place < s[j].place }

  lemma {:induction false} InsertOrdered<T(!new)>(s: seq<Tagged<T>>, x: Tagged<T>, key: T -> Num)
    requires StrictlyOrdered(key, s) && forall y | y in s :: y.place < x.place
    ensures StrictlyOrdered(key, Insert(s, x, Lex(key)))
  {
    if s != [] {
      var last := |s| - 1;
      assert s[last] in s;
      if Lex(key)(s[last], x) {
        forall i | 0 <= i < |s| ensures Precedes(key, s[i], x) {
          assert s[i] in s;
          assert i < last ==> Precedes(key, s[i], s[last]);
        }
      } else {
        InsertOrdered(s[..last], x, key);
        var front := Insert(s[..last], x, Lex(key));
        hide Insert;
        forall i | 0 <= i < |front| ensures Precedes(key, front[i], s[last]) {
          assert front[i] in front;
        }
      }
    }
  }

  lemma {:induction false} InsertUntagged<T(!new)>(s: seq<Tagged<T>>, x: Tagged<T>, key: T -> Num)
    requires forall y | y in s :: y.place < x.place
    ensures Untag(Insert(s, x, Lex(key))) == Insert(Untag(s), x.item, ByKey(key))
  {
    if s != [] {
      var last := |s| - 1;
      assert s[last] in s;
      assert Untag(s)[..last] == Untag(s[..last]);
      if !Lex(key)(s[last], x) { InsertUntagged(s[..last], x, key); }
    }
  }

  /** Sorting by (key, place) is strict, and forgetting the places it is the stable sort by key. */
  lemma {:induction false} SortTagged<T(!new)>(s: seq<Tagged<T>>, key: T -> Num)
    requires Ascending(s)
    ensures StrictlyOrdered(key, StableSort(s, Lex(key)))
    ensures Untag(StableSort(s, Lex(key))) == StableSort(Untag(s), ByKey(key))
  {
    hide Lex;
    hide ByKey;
    hide Insert;
    if s != [] {
      var last := |s| - 1;
      SortTagged(s[..last], key);
      assert Untag(s)[..last] == Untag(s[..last]);
      InsertOrdered(StableSort(s[..last], Lex(key)), s[last], key);
      InsertUntagged(StableSort(s[..last], Lex(key)), s[last], key);
    }
  }
}

/** The sender's side: starting transports and publishing their endpoints. */
module Orchestrator {
  import opened Wrappers
  import opened Sorting
  import opened EndpointHealth

  datatype Entry = Entry(kind: string, priority: int)

  /** What a provider's start amounted to. */
  datatype StartReply = Up(url: string) | NoUrl | StartError(reason: string)

  datatype Outcome = Started(kind: string, url: string, priority: int) | Failed(kind: string, reason: string)

  function OutcomeOf(entry: Entry, reply: StartReply): Outcome {
    match reply
    case Up(url) => Started(entry.kind, url, entry.priority)
    case NoUrl => Failed(entry.kind, "provider returned no public_url after start")
    case StartError(reason) => Failed(entry.kind, reason)
  }

  function Priority(e: Endpoint): Num { Finite(e.priority as real) }

  function EndpointOf(o: Outcome): Endpoint
    requires o.Started?
  {
    Endpoint(o.kind, o.url, o.priority, None, None)
  }

  /** The started transports among the first `n` outcomes, with their places. */
  function Collected(outcomes: seq<Outcome>, n: nat): seq<Tagged<Endpoint>>
    requires n <= |outcomes|
  {
    if n == 0 then []
    else
      Collected(outcomes, n - 1) + if outcomes[n - 1].Started? then [Tagged(n - 1, EndpointOf(outcomes[n - 1]))] else []
  }

  function Ranked(outcomes: seq<Outcome>): seq<Tagged<Endpoint>> {
    StableSort(Collected(outcomes, |outcomes|), Lex(Priority))
  }

  class TunnelOrchestrator {
    const entries: seq<Entry>
    var outcomes: seq<Outcome>

    constructor (entries: seq<Entry>)
      ensures this.entries == entries && outcomes == []
    {
      this.entries := entries;
      outcomes := [];
    }

    /** A failing provider is recorded and does not stop the others. */
    method StartAll(replies: nat -> StartReply)
      modifies this
      ensures |outcomes| == |entries|
      ensures forall i: nat | i < |entries| :: outcomes[i] == OutcomeOf(entries[i], replies(i))
    {
      outcomes := [];
      for n := 0 to |entries|
        invariant |outcomes| == n
        invariant forall i: nat | i < n :: outcomes[i] == OutcomeOf(entries[i], replies(i))
      {
        match replies(n) {
          case Up(url) => outcomes := outcomes + [Started(entries[n].kind, url, entries[n].priority)];
          case NoUrl =>
            outcomes := outcomes + [Failed(entries[n].kind, "provider returned no public_url after start")];
          case StartError(reason) => outcomes := outcomes + [Failed(entries[n].kind, reason)];
        }
      }
    }

    method StopAll()
      modifies this
      ensures outcomes == []
    {
      outcomes := [];
    }

    method Endpoints() returns (r: seq<Endpoint>)
      ensures r == Untag(Ranked(outcomes))
    {
      var eps: seq<Tagged<Endpoint>> := [];
      for n := 0 to |outcomes|
        invariant eps == Collected(outcomes, n)
      {
        if outcomes[n].Started? { eps := eps + [Tagged(n, EndpointOf(outcomes[n]))]; }
      }
      eps := StableSort(eps, Lex(Priority));
      r := [];
      for n := 0 to |eps|
        invariant r == Untag(eps[..n])
      {
        r := r + [eps[n].item];
      }
      assert eps[..|eps|] == eps;
    }
  }

  ghost predicate IsStarted(outcomes: seq<Outcome>, n: nat, e: Tagged<Endpoint>)
    requires n <= |outcomes|
  {
    e.place < n && outcomes[e.place].Started? && e.item == EndpointOf(outcomes[e.place])
  }

  lemma {:induction false} CollectedExactly(outcomes: seq<Outcome>, n: nat)
    requires n <= |outcomes|
    ensures Ascending(Collected(outcomes, n))
    ensures forall e :: e in Collected(outcomes, n) <==> IsStarted(outcomes, n, e)
  {
    if n > 0 {
      CollectedExactly(outcomes, n - 1);
      var before := Collected(outcomes, n - 1);
      var last := if outcomes[n - 1].Started? then [Tagged(n - 1, EndpointOf(outcomes[n - 1]))] else [];
      assert Collected(outcomes, n) == before + last;
      hide Collected;
      forall k | 0 <= k < |before| ensures before[k].place < n - 1 {
        assert before[k] in before;
        assert IsStarted(outcomes, n - 1, before[k]);
      }
      forall e ensures e in before + last <==> IsStarted(outcomes, n, e) {
        assert e in before <==> IsStarted(outcomes, n - 1, e);
      }
      hide IsStarted;
      hide EndpointOf;
    }
  }

  /** The published list is exactly the started transports, by priority and then by start order. */
  lemma RankedExactly(outcomes: seq<Outcome>)
    ensures StrictlyOrdered(Priority, Ranked(outcomes))
    ensures forall j, k | 0 <= j < k < |Ranked(outcomes)| ::
              var a, b := Ranked(outcomes)[j], Ranked(outcomes)[k];
              a.item.priority < b.item.priority || (a.item.priority == b.item.priority && a.place < b.place)
    ensures forall e :: e in Ranked(outcomes) <==>
              && e.place < |outcomes| && outcomes[e.place].Started?
              && e.item == Endpoint(outcomes[e.place].kind, outcomes[e.place].url, outcomes[e.place].priority, None, None)
  {
    var all := Collected(outcomes, |outcomes|);
    CollectedExactly(outcomes, |outcomes|);
    SortTagged(all, Priority);
    hide Collected;
    hide StableSort;
    assert forall e :: e in Ranked(outcomes) <==> IsStarted(outcomes, |outcomes|, e);
    hide Ranked;
    PrecedesMeans(Ranked(outcomes));
    hide StrictlyOrdered;
  }

  lemma PrecedesMeans(s: seq<Tagged<Endpoint>>)
    requires StrictlyOrdered(Priority, s)
    ensures forall j, k | 0 <= j < k < |s| ::
              || s[j].item.priority < s[k].item.priority
              || (s[j].item.priority == s[k].item.priority && s[j].place < s[k].place)
  {
    forall j, k | 0 <= j < k < |s|
      ensures || s[j].item.priority < s[k].item.priority
              || (s[j].item.priority == s[k].item.priority && s[j].place < s[k].place)
    {
      assert Precedes(Priority, s[j], s[k]);
    }
  }

  /** What starting all entries records, and what of it is published: exactly the entries that came up. */
  lemma PublishedFromEntries(entries: seq<Entry>, replies: nat -> StartReply, outcomes: seq<Outcome>)
    requires |outcomes| == |entries| && forall i: nat | i < |entries| :: outcomes[i] == OutcomeOf(entries[i], replies(i))
    ensures forall i: nat | i < |entries| ::
              match replies(i)
              case Up(url) => outcomes[i] == Started(entries[i].kind, url, entries[i].priority)
              case NoUrl => outcomes[i] == Failed(entries[i].kind, "provider returned no public_url after start")
              case StartError(reason) => outcomes[i] == Failed(entries[i].kind, reason)
    ensures forall e :: e in Ranked(outcomes) <==>
              && e.place < |entries| && replies(e.place).Up?
              && e.item == Endpoint(entries[e.place].kind, replies(e.place).url, entries[e.place].priority, None, None)
  {
    RankedExactly(outcomes);
    hide Ranked;
  }
}

/** The recipient's side: walking the endpoints in the sender's order until one answers. */
module EndpointFallback {
  import opened Wrappers
  import opened Sorting

  /** Priorities are any numbers in order; two equal infinities differ by not-a-number, which sorts as equal. */
  datatype Endpoint = Endpoint(kind: string, url: string, priority: Num, healthHint: Option<int>)

  predicate IsKnownKind(ep: Endpoint) {
    ep.kind in ["cloudflare_quick", "cloudflare_named", "iroh", "tailscale_funnel", "frp"]
  }

  predicate IsHttpDialable(ep: Endpoint) {
    ep.kind in ["cloudflare_quick", "cloudflare_named", "tailscale_funnel", "frp"]
  }

  function Priority(e: Endpoint): Num { e.priority }

  function SortByPriority(endpoints: seq<Endpoint>): seq<Endpoint> { StableSort(endpoints, ByKey(Priority)) }

  datatype Attempt = Skipped(endpoint: Endpoint, reason: string) | Tried(endpoint: Endpoint, error: Option<string>)

  datatype Fallback<T> = Fallback(answer: Option<(T, Endpoint)>, attempts: seq<Attempt>)

  /** `attempt(n)` is what dialing the endpoint in place `n` of the walk comes to. */
  type Dial<T> = nat -> Result<T, string>

  predicate Dialed(ep: Endpoint) { IsKnownKind(ep) && IsHttpDialable(ep) }

  /** The entry left by an endpoint that did not answer. */
  function Unanswered<T>(ep: Endpoint, reply: Result<T, string>): Attempt {
    if !IsKnownKind(ep) then Skipped(ep, "unknown kind: '" + ep.kind + "'")
    else if !IsHttpDialable(ep) then Skipped(ep, ep.kind + " is not HTTP-dialable from this SDK yet")
    else Tried(ep, if reply.Err? then Some(reply.error) else None)
  }

  /** The kinds this client dials, the one it only knows, and what it notes about all others. */
  lemma DialedExactly<T>(ep: Endpoint, reply: Result<T, string>)
    ensures Dialed(ep) <==> ep.kind == "cloudflare_quick" || ep.kind == "cloudflare_named"
                            || ep.kind == "tailscale_funnel" || ep.kind == "frp"
    ensures Unanswered(ep, reply) ==
            if Dialed(ep) then Tried(ep, if reply.Err? then Some(reply.error) else None)
            else if ep.kind == "iroh" then Skipped(ep, ep.kind + " is not HTTP-dialable from this SDK yet")
            else Skipped(ep, "unknown kind: '" + ep.kind + "'")
  {
    KindsMean(ep);
    hide IsKnownKind;
    hide IsHttpDialable;
  }

  lemma KindsMean(ep: Endpoint)
    ensures IsHttpDialable(ep) <==> ep.kind == "cloudflare_quick" || ep.kind == "cloudflare_named"
                                    || ep.kind == "tailscale_funnel" || ep.kind == "frp"
    ensures IsKnownKind(ep) <==> IsHttpDialable(ep) || ep.kind == "iroh"
    ensures IsHttpDialable(ep) ==> ep.kind != "iroh"
  {
    assert IsHttpDialable(ep) ==> ep.kind[0] != 'i';
  }

  predicate Answers<T>(ep: Endpoint, reply: Result<T, string>) { Dialed(ep) && reply.Ok? }

  /** Nothing before place `n` answered, and each left its entry. */
  ghost predicate WalkedTo<T>(ordered: seq<Endpoint>, attempt: Dial<T>, attempts: seq<Attempt>, n: nat) {
    n <= |ordered| && n <= |attempts|
    && forall i: nat | i < n :: !Answers(ordered[i], attempt(i)) && attempts[i] == Unanswered(ordered[i], attempt(i))
  }

  /** The skips among the attempts, in order: what the skip callback is told. */
  function SkipsIn(attempts: seq<Attempt>): seq<(Endpoint, string)> {
    if attempts == [] then []
    else
      var last := attempts[|attempts| - 1];
      SkipsIn(attempts[..|attempts| - 1]) + if last.Skipped? then [(last.endpoint, last.reason)] else []
  }

  lemma SkipsSnoc(attempts: seq<Attempt>, a: Attempt)
    ensures SkipsIn(attempts + [a]) == SkipsIn(attempts) + if a.Skipped? then [(a.endpoint, a.reason)] else []
  {
    assert (attempts + [a])[..|attempts|] == attempts;
  }

  /** The walk stops at the first endpoint that answers; later ones are neither dialed nor recorded. */
  method TryEndpoints<T>(endpoints: seq<Endpoint>, attempt: Dial<T>) returns (r: Fallback<T>, skips: seq<(Endpoint, string)>)
    ensures var ordered := SortByPriority(endpoints);
            match r.answer
            case None => |r.attempts| == |ordered| && WalkedTo(ordered, attempt, r.attempts, |ordered|)
            case Some((value, chosen)) =>
              var n := |r.attempts| - 1;
              && 0 <= n < |ordered|
              && WalkedTo(ordered, attempt, r.attempts, n)
              && chosen == ordered[n] && Dialed(chosen) && attempt(n) == Ok(value)
              && r.attempts[n] == Tried(chosen, None)
    ensures skips == SkipsIn(r.attempts)
  {
    hide IsKnownKind;
    hide IsHttpDialable;
    hide SortByPriority;
    hide SkipsIn;
    var attempts: seq<Attempt> := [];
    skips := [];
    assert SkipsIn([]) == [] by { NothingSkipped(); }
    var ordered := SortByPriority(endpoints);
    for n := 0 to |ordered|
      invariant |attempts| == n && WalkedTo(ordered, attempt, attempts, n) && skips == SkipsIn(attempts)
    {
      var ep := ordered[n];
      SkipsSnoc(attempts, Unanswered(ep, attempt(n)));
      if !IsKnownKind(ep) {
        var reason := "unknown kind: '" + ep.kind + "'";
        attempts := attempts + [Skipped(ep, reason)];
        skips := skips + [(ep, reason)];
      } else if !IsHttpDialable(ep) {
        var reason := ep.kind + " is not HTTP-dialable from this SDK yet";
        attempts := attempts + [Skipped(ep, reason)];
        skips := skips + [(ep, reason)];
      } else {
        match attempt(n) {
          case Ok(value) =>
            r := Fallback(Some((value, ep)), attempts + [Tried(ep, None)]);
            return;
          case Err(message) => attempts := attempts + [Tried(ep, Some(message))];
        }
      }
    }
    r := Fallback(None, attempts);
  }

  lemma NothingSkipped()
    ensures SkipsIn([]) == []
  {
  }

  // ---------- the order of the walk ----------

  function Places(endpoints: seq<Endpoint>): seq<Tagged<Endpoint>> {
    seq(|endpoints|, i requires 0 <= i < |endpoints| => Tagged(i, endpoints[i]))
  }

  /** The walk with the places of the given list: by priority, then by place. */
  function Walk(endpoints: seq<Endpoint>): seq<Tagged<Endpoint>> { StableSort(Places(endpoints), Lex(Priority)) }

  lemma WalkExactly(endpoints: seq<Endpoint>)
    ensures Untag(Walk(endpoints)) == SortByPriority(endpoints)
    ensures StrictlyOrdered(Priority, Walk(endpoints))
    ensures forall j, k | 0 <= j < k < |Walk(endpoints)| ::
              var a, b := Walk(endpoints)[j], Walk(endpoints)[k];
              a.item.priority.Finite? && b.item.priority.Finite? ==>
                || a.item.priority.value < b.item.priority.value
                || (a.item.priority.value == b.item.priority.value && a.place < b.place)
    ensures forall e :: e in Walk(endpoints) <==> e.place < |endpoints| && e.item == endpoints[e.place]
  {
    var all := Places(endpoints);
    assert Untag(all) == endpoints;
    SortTagged(all, Priority);
    hide StableSort;
    forall j, k | 0 <= j < k < |Walk(endpoints)| ensures Precedes(Priority, Walk(endpoints)[j], Walk(endpoints)[k]) {
    }
    forall e: Tagged<Endpoint> | e.place < |endpoints| && e.item == endpoints[e.place] ensures e in all {
      assert all[e.place] == e;
    }
  }

  /**
   In terms of the given list: the chosen endpoint sits at a place that answers, every
   place before it by (priority, place) was visited once and did not answer, and no
   other place was visited.
   */
  lemma ChosenIsFirst<T>(endpoints: seq<Endpoint>, attempt: Dial<T>, attempts: seq<Attempt>, n: nat)
    requires n < |SortByPriority(endpoints)| && WalkedTo(SortByPriority(endpoints), attempt, attempts, n)
    requires Answers(SortByPriority(endpoints)[n], attempt(n))
    ensures var walk := Walk(endpoints);
            && |walk| == |SortByPriority(endpoints)|
            && var Tagged(place, chosen) := walk[n];
            && place < |endpoints| && endpoints[place] == chosen == SortByPriority(endpoints)[n]
            && (forall e :: e in walk[..n] <==>
                  e.place < |endpoints| && e.item == endpoints[e.place] && Precedes(Priority, e, walk[n]))
            && (forall j, k | 0 <= j < k < n :: walk[j].place != walk[k].place)
            && forall k: nat | k < n ::
                 !Answers(walk[k].item, attempt(k)) && attempts[k] == Unanswered(walk[k].item, attempt(k))
  {
    WalkExactly(endpoints);
    hide IsKnownKind;
    hide IsHttpDialable;
    hide SortByPriority;
    hide Walk;
    var walk := Walk(endpoints);
    assert walk[n] in walk;
    forall e ensures e in walk[..n] <==> e in walk && Precedes(Priority, e, walk[n]) {
      if e in walk && Precedes(Priority, e, walk[n]) {
        var k: nat :| k < |walk| && walk[k] == e;
        assert walk[..n][k] == e;
      }
    }
    forall j, k | 0 <= j < k < n ensures walk[j].place != walk[k].place {
      assert walk[j] in walk && walk[k] in walk && Precedes(Priority, walk[j], walk[k]);
    }
  }
}

/** Both sides together. */
module EndpointSelection {
  import opened Sorting
  import Orchestrator
  import EndpointHealth
  import EndpointFallback

  /** An endpoint as the SDK reads it from the wire. */
  function Received(e: EndpointHealth.Endpoint): EndpointFallback.Endpoint {
    EndpointFallback.Endpoint(e.kind, e.url, Finite(e.priority as real), e.healthHint)
  }

  function ReceivedAll(es: seq<EndpointHealth.Endpoint>): seq<EndpointFallback.Endpoint> {
    seq(|es|, i requires 0 <= i < |es| => Received(es[i]))
  }

  /** The recipient walks the published endpoints in the very order the sender published them. */
  lemma WalkFollowsPublished(outcomes: seq<Orchestrator.Outcome>)
    ensures var received := ReceivedAll(Untag(Orchestrator.Ranked(outcomes)));
            EndpointFallback.SortByPriority(received) == received
  {
    Orchestrator.RankedExactly(outcomes);
    hide Orchestrator.Ranked;
    var ranked := Orchestrator.Ranked(outcomes);
    var received := ReceivedAll(Untag(ranked));
    forall j, k | 0 <= j < k < |received| ensures !Less(received[k].priority, received[j].priority) {
      assert Precedes(Orchestrator.Priority, ranked[j], ranked[k]);
    }
    SortedStays(received, EndpointFallback.Priority);
  }
}
