/** The endpoint health debouncer, and the monitor loop that drives it. */
module EndpointHealth {
  import opened Wrappers

  type U8 = x: int | 0 <= x < 256

  datatype Status = Healthy | Unhealthy

  datatype Health = Health(status: Status, fails: U8, successes: U8, lastProbe: Option<int>)

  datatype Endpoint = Endpoint(kind: string, url: string, priority: int, healthHint: Option<int>, health: Option<Health>)

  const FAIL_THRESHOLD: U8 := 3
  const SUCCESS_THRESHOLD: U8 := 2

  function FreshHealthy(now: int): Health { Health(Healthy, 0, 0, Some(now)) }

  function SaturatingInc(x: U8): U8 { if x == 255 then 255 else x + 1 }

  function Capped(x: U8, cap: U8): U8 { if x > cap then cap else x }

  // ---------- one probe ----------

  function AfterSuccess(h: Health, now: int): Health {
    var n := SaturatingInc(h.successes);
    match h.status
    case Healthy => Health(Healthy, 0, Capped(n, SUCCESS_THRESHOLD), Some(now))
    case Unhealthy => if n >= SUCCESS_THRESHOLD then Health(Healthy, 0, 0, Some(now)) else Health(Unhealthy, 0, n, Some(now))
  }

  function AfterFailure(h: Health, now: int): Health {
    var n := SaturatingInc(h.fails);
    match h.status
    case Healthy => if n >= FAIL_THRESHOLD then Health(Unhealthy, 0, 0, Some(now)) else Health(Healthy, n, 0, Some(now))
    case Unhealthy => Health(Unhealthy, Capped(n, FAIL_THRESHOLD), 0, Some(now))
  }

  method OnProbeSuccess(h: Health, now: int) returns (r: Health)
    ensures r == AfterSuccess(h, now)
  {
    r := h.(lastProbe := Some(now));
    r := r.(fails := 0);
    r := r.(successes := SaturatingInc(r.successes));
    if r.status.Unhealthy? && r.successes >= SUCCESS_THRESHOLD {
      r := r.(status := Healthy);
      r := r.(successes := 0);
    }
    if r.status.Healthy? && r.successes > SUCCESS_THRESHOLD {
      r := r.(successes := SUCCESS_THRESHOLD);
    }
  }

  method OnProbeFailure(h: Health, now: int) returns (r: Health)
    ensures r == AfterFailure(h, now)
  {
    r := h.(lastProbe := Some(now));
    r := r.(successes := 0);
    r := r.(fails := SaturatingInc(r.fails));
    if r.status.Healthy? && r.fails >= FAIL_THRESHOLD {
      r := r.(status := Unhealthy);
      r := r.(fails := 0);
    }
    if r.status.Unhealthy? && r.fails > FAIL_THRESHOLD {
      r := r.(fails := FAIL_THRESHOLD);
    }
  }

  /** A probe outcome and the clock reading it is recorded at. */
  datatype Probe = Probe(ok: bool, now: int)

  function After(h: Health, p: Probe): Health { if p.ok then AfterSuccess(h, p.now) else AfterFailure(h, p.now) }

  function FoldHealth(ep: Endpoint, p: Probe): Endpoint {
    var current := if ep.health.Some? then ep.health.value else FreshHealthy(p.now);
    ep.(health := Some(After(current, p)))
  }

  /** Whatever the stored counters were, one probe restores the caps and clears one of them. */
  predicate Settled(h: Health) {
    && (h.status.Healthy? ==> h.fails < FAIL_THRESHOLD && h.successes <= SUCCESS_THRESHOLD)
    && (h.status.Unhealthy? ==> h.fails <= FAIL_THRESHOLD && h.successes < SUCCESS_THRESHOLD)
    && (h.fails == 0 || h.successes == 0)
  }

  lemma OneProbeSettles(h: Health, p: Probe)
    ensures Settled(After(h, p)) && After(h, p).lastProbe == Some(p.now)
  {
  }

  function Least(x: int, y: int): int { if x < y then x else y }

  /** One probe from any stored counters, in exact arithmetic: nothing wraps, and all that is not named is cleared. */
  lemma OneProbeExactly(h: Health, now: int)
    ensures After(h, Probe(true, now)) ==
            if h.status.Healthy? then Health(Healthy, 0, Least(h.successes + 1, 2), Some(now))
            else if h.successes + 1 >= 2 then Health(Healthy, 0, 0, Some(now))
            else Health(Unhealthy, 0, h.successes + 1, Some(now))
    ensures After(h, Probe(false, now)) ==
            if h.status.Unhealthy? then Health(Unhealthy, Least(h.fails + 1, 3), 0, Some(now))
            else if h.fails + 1 >= 3 then Health(Unhealthy, 0, 0, Some(now))
            else Health(Healthy, h.fails + 1, 0, Some(now))
  {
  }

  // ---------- any sequence of probes ----------

  function Run(h: Health, probes: seq<Probe>): Health {
    if probes == [] then h
    else After(Run(h, probes[..|probes| - 1]), probes[|probes| - 1])
  }

  function Outcomes(probes: seq<Probe>): (history: seq<bool>)
    ensures |history| == |probes| && forall i | 0 <= i < |probes| :: history[i] == probes[i].ok
  {
    seq(|probes|, i requires 0 <= i < |probes| => probes[i].ok)
  }

  predicate ThreeFailures(history: seq<bool>, i: nat) {
    i + 3 <= |history| && !history[i] && !history[i + 1] && !history[i + 2]
  }

  predicate TwoSuccesses(history: seq<bool>, i: nat) { i + 2 <= |history| && history[i] && history[i + 1] }

  /** Three consecutive failures with no two consecutive successes after them. */
  ghost predicate Down(history: seq<bool>) {
    exists i: nat :: ThreeFailures(history, i) && forall j: nat | j >= i + 3 :: !TwoSuccesses(history, j)
  }

  /** The length of the unbroken run of `ok` at the end. */
  function Trailing(history: seq<bool>, ok: bool): nat {
    if history == [] || history[|history| - 1] != ok then 0
    else 1 + Trailing(history[..|history| - 1], ok)
  }

  lemma TrailingMeans(history: seq<bool>, ok: bool)
    ensures var n, t := |history|, Trailing(history, ok);
            && (t >= 1 <==> n >= 1 && history[n - 1] == ok)
            && (t >= 2 <==> n >= 2 && history[n - 1] == ok && history[n - 2] == ok)
  {
    if |history| >= 1 {
      var front := history[..|history| - 1];
      assert Trailing(history, ok) == if history[|history| - 1] == ok then 1 + Trailing(front, ok) else 0;
    }
  }

  lemma DownAfterFailure(history: seq<bool>)
    ensures Down(history + [false]) <==> Down(history) || Trailing(history, false) >= 2
  {
    var n, next := |history|, history + [false];
    TrailingMeans(history, false);
    assert forall i: nat | i + 3 <= n :: ThreeFailures(next, i) == ThreeFailures(history, i);
    assert forall j: nat :: TwoSuccesses(next, j) == TwoSuccesses(history, j);
    if Trailing(history, false) >= 2 {
      assert ThreeFailures(next, n - 2);
    }
    if Down(history) {
      var i: nat :| ThreeFailures(history, i) && forall j: nat | j >= i + 3 :: !TwoSuccesses(history, j);
      assert ThreeFailures(next, i);
    }
    if Down(next) {
      var i: nat :| ThreeFailures(next, i) && forall j: nat | j >= i + 3 :: !TwoSuccesses(next, j);
      if i + 3 <= n { assert ThreeFailures(history, i); }
    }
  }

  lemma DownAfterSuccess(history: seq<bool>)
    ensures Down(history + [true]) <==> Down(history) && Trailing(history, true) == 0
  {
    var n, next := |history|, history + [true];
    TrailingMeans(history, true);
    assert forall i: nat :: ThreeFailures(next, i) == ThreeFailures(history, i);
    assert forall j: nat | j + 2 <= n :: TwoSuccesses(next, j) == TwoSuccesses(history, j);
    if Down(next) {
      var i: nat :| ThreeFailures(next, i) && forall j: nat | j >= i + 3 :: !TwoSuccesses(next, j);
      if Trailing(history, true) > 0 {
        assert history[n - 1] && !history[i + 2] && !history[i + 1] && !history[i];
        assert TwoSuccesses(next, n - 1);
      }
      assert forall j: nat | j >= i + 3 :: TwoSuccesses(history, j) ==> TwoSuccesses(next, j);
    }
    if Down(history) && Trailing(history, true) == 0 {
      var i: nat :| ThreeFailures(history, i) && forall j: nat | j >= i + 3 :: !TwoSuccesses(history, j);
      assert ThreeFailures(next, i);
      assert forall j: nat | j >= i + 3 :: TwoSuccesses(next, j) ==> TwoSuccesses(history, j);
    }
  }

  /** The counter that matters is the run length of the outcome that could flip the status. */
  ghost predicate Tracks(h: Health, history: seq<bool>) {
    && (h.status.Unhealthy? <==> Down(history))
    && (h.status.Healthy? ==> h.fails == Trailing(history, false) < FAIL_THRESHOLD)
    && (h.status.Unhealthy? ==> h.successes == Trailing(history, true) < SUCCESS_THRESHOLD)
  }

  lemma ProbeTracks(h: Health, history: seq<bool>, p: Probe)
    requires Tracks(h, history)
    ensures Tracks(After(h, p), history + [p.ok])
  {
    var next := history + [p.ok];
    assert next[..|next| - 1] == history;
    assert forall ok :: Trailing(next, ok) == if p.ok == ok then 1 + Trailing(history, ok) else 0;
    if p.ok { DownAfterSuccess(history); } else { DownAfterFailure(history); }
    hide Down;
    hide Trailing;
  }

  lemma {:induction false} RunTracks(now: int, probes: seq<Probe>)
    ensures Tracks(Run(FreshHealthy(now), probes), Outcomes(probes))
  {
    if probes != [] {
      var n := |probes| - 1;
      RunTracks(now, probes[..n]);
      ProbeTracks(Run(FreshHealthy(now), probes[..n]), Outcomes(probes[..n]), probes[n]);
      assert Outcomes(probes) == Outcomes(probes[..n]) + [probes[n].ok];
    }
  }

  /** From a fresh start the counters compute the history condition, for every sequence of probes. */
  lemma UnhealthyIffDown(now: int, probes: seq<Probe>)
    ensures Run(FreshHealthy(now), probes).status.Unhealthy? <==> Down(Outcomes(probes))
  {
    RunTracks(now, probes);
  }

  /** How many probes at the end confirmed the status without changing it. */
  function Confirming(h: Health, probes: seq<Probe>): nat {
    if probes == [] then 0
    else
      var n := |probes| - 1;
      var before, after := Run(h, probes[..n]).status, Run(h, probes).status;
      if before == after && (probes[n].ok <==> after.Healthy?) then 1 + Confirming(h, probes[..n]) else 0
  }

  /** The counter that cannot flip the status counts the confirming probes, up to its cap. */
  lemma {:induction false} OtherCounterExactly(now: int, probes: seq<Probe>)
    ensures var h := Run(FreshHealthy(now), probes);
            var k := Confirming(FreshHealthy(now), probes);
            && (h.status.Healthy? ==> h.successes == Least(k, 2))
            && (h.status.Unhealthy? ==> h.fails == Least(k, 3))
  {
    if probes != [] {
      OtherCounterExactly(now, probes[..|probes| - 1]);
    }
  }

  /** The same for an endpoint the monitor has not seen before. */
  lemma FoldedEndpoint(ep: Endpoint, probes: seq<Probe>)
    requires ep.health.None? && probes != []
    ensures var folded := Folded(ep, probes);
            && folded.(health := None) == ep
            && folded.health.Some?
            && (folded.health.value.status.Unhealthy? <==> Down(Outcomes(probes)))
  {
    FoldedIsRun(ep, probes);
    UnhealthyIffDown(probes[0].now, probes);
    hide Down;
  }

  function Folded(ep: Endpoint, probes: seq<Probe>): Endpoint {
    if probes == [] then ep else FoldHealth(Folded(ep, probes[..|probes| - 1]), probes[|probes| - 1])
  }

  lemma {:induction false} FoldedIsRun(ep: Endpoint, probes: seq<Probe>)
    requires ep.health.None? && probes != []
    ensures Folded(ep, probes) == ep.(health := Some(Run(FreshHealthy(probes[0].now), probes)))
  {
    if |probes| > 1 {
      FoldedIsRun(ep, probes[..|probes| - 1]);
    } else {
      assert probes[..0] == [];
      assert Run(FreshHealthy(probes[0].now), probes[..0]) == FreshHealthy(probes[0].now);
    }
  }

  // ---------- how often the status flips ----------

  /** Probes among the first `n` that flip the status to `to`. */
  function Flips(h: Health, probes: seq<Probe>, to: Status): nat {
    if probes == [] then 0
    else
      var n := |probes| - 1;
      var before := Run(h, probes[..n]);
      Flips(h, probes[..n], to) + if before.status != to && After(before, probes[n]).status == to then 1 else 0
  }

  /** Progress towards the next flip. */
  function Progress(h: Health): nat { if h.status.Healthy? then h.fails else h.successes }

  /** Each flip to Unhealthy costs three probes, each flip back two, and they alternate. */
  lemma {:induction false} FlipsAreBounded(now: int, probes: seq<Probe>)
    ensures var h := FreshHealthy(now);
            var u, r := Flips(h, probes, Unhealthy), Flips(h, probes, Healthy);
            && 3 * u + 2 * r + Progress(Run(h, probes)) <= |probes|
            && u == r + (if Run(h, probes).status.Unhealthy? then 1 else 0)
            && (Run(h, probes).status.Healthy? ==> Run(h, probes).fails < FAIL_THRESHOLD)
            && (Run(h, probes).status.Unhealthy? ==> Run(h, probes).successes < SUCCESS_THRESHOLD)
  {
    if probes != [] {
      FlipsAreBounded(now, probes[..|probes| - 1]);
    }
  }

  // ---------- arbitrary stored state ----------

  /** Two health records that no further probes can tell apart. */
  predicate Alike(a: Health, b: Health) {
    && a.status == b.status
    && (a.status.Healthy? ==> a.fails == b.fails)
    && (a.status.Unhealthy? ==> a.successes == b.successes)
  }

  lemma {:induction false} AlikeStays(a: Health, b: Health, probes: seq<Probe>)
    requires Alike(a, b)
    ensures Alike(Run(a, probes), Run(b, probes))
  {
    if probes != [] { AlikeStays(a, b, probes[..|probes| - 1]); }
  }

  lemma {:induction false} RunSplit(h: Health, front: seq<Probe>, back: seq<Probe>)
    ensures Run(h, front + back) == Run(Run(h, front), back)
  {
    var all := front + back;
    if back == [] {
      assert all == front;
    } else {
      RunSplit(h, front, back[..|back| - 1]);
      assert all[..|all| - 1] == front + back[..|back| - 1];
    }
  }

  predicate Decisive(window: seq<Probe>) {
    || (|window| == 2 && window[0].ok && window[1].ok)
    || (|window| == 3 && !window[0].ok && !window[1].ok && !window[2].ok)
  }

  lemma DecisiveWindowAligns(a: Health, b: Health, window: seq<Probe>)
    requires Decisive(window)
    ensures Alike(Run(a, window), Run(b, window))
  {
    var w := window;
    forall h: Health ensures
      Run(h, w) == if |w| == 2 then After(After(h, w[0]), w[1]) else After(After(After(h, w[0]), w[1]), w[2])
    {
      assert w[..2][..1] == w[..1] && w[..1] == [w[0]] && w[..0] == [];
      assert Run(h, w[..1]) == After(Run(h, w[..0]), w[0]);
      assert Run(h, w[..2]) == After(Run(h, w[..1]), w[1]);
      assert |w| == 2 ==> w[..2] == w;
    }
  }

  /**
   Whatever counters were stored, after two consecutive successes or three consecutive
   failures the status is the one a fresh record would have, for all probes that follow.
   */
  lemma StoredStateIsForgotten(h: Health, now: int, before: seq<Probe>, window: seq<Probe>, later: seq<Probe>)
    requires Decisive(window)
    ensures Run(h, before + window + later).status == Run(FreshHealthy(now), before + window + later).status
    ensures Run(h, before + window + later).status.Unhealthy? <==> Down(Outcomes(before + window + later))
  {
    var fresh_ := FreshHealthy(now);
    UnhealthyIffDown(now, before + window + later);
    RunSplit(h, before + window, later);
    RunSplit(fresh_, before + window, later);
    RunSplit(h, before, window);
    RunSplit(fresh_, before, window);
    DecisiveWindowAligns(Run(h, before), Run(fresh_, before), window);
    AlikeStays(Run(h, before + window), Run(fresh_, before + window), later);
    hide Run;
    hide Down;
  }

  // ---------- the monitor ----------

  datatype TickResult = Touched(transfers: nat) | PersistFailed

  /** Probe outcomes and persistence are external: `probe(row, i)` and `persists(row)`. */
  datatype World = World(now: int, probe: (nat, nat) -> bool, persists: nat -> bool)

  function Probed(w: World, row: nat, endpoints: seq<Endpoint>): seq<Endpoint> {
    seq(|endpoints|, i requires 0 <= i < |endpoints| => FoldHealth(endpoints[i], Probe(w.probe(row, i), w.now)))
  }

  /** The rows after the first `n` were handled. */
  function Ticked(w: World, rows: seq<seq<Endpoint>>, n: nat): seq<seq<Endpoint>>
    requires n <= |rows|
  {
    seq(|rows|, r requires 0 <= r < |rows| => if r < n then Probed(w, r, rows[r]) else rows[r])
  }

  function NonEmpty(rows: seq<seq<Endpoint>>): nat {
    if rows == [] then 0
    else NonEmpty(rows[..|rows| - 1]) + if rows[|rows| - 1] == [] then 0 else 1
  }

  /** Status changes of endpoints that already had a status. */
  predicate CountedFlip(before: Endpoint, after: Endpoint) {
    && before.health.Some? && after.health.Some?
    && before.health.value.status != after.health.value.status
  }

  ghost function RowFlips(w: World, row: nat, endpoints: seq<Endpoint>): nat {
    |set i: nat | i < |endpoints| && CountedFlip(endpoints[i], Probed(w, row, endpoints)[i])|
  }

  /** The counted flips of the first `n` rows. */
  ghost function TotalFlips(w: World, rows: seq<seq<Endpoint>>, n: nat): nat
    requires n <= |rows|
  {
    if n == 0 then 0
    else TotalFlips(w, rows, n - 1) + if rows[n - 1] == [] then 0 else RowFlips(w, n - 1, rows[n - 1])
  }

  lemma HandledRow(w: World, rows: seq<seq<Endpoint>>, row: nat)
    requires row < |rows|
    ensures |Ticked(w, rows, row)| == |rows|
    ensures Ticked(w, rows, row + 1) == Ticked(w, rows, row)[row := Probed(w, row, rows[row])]
    ensures rows[row] == [] ==> Ticked(w, rows, row + 1) == Ticked(w, rows, row)
    ensures NonEmpty(rows[..row + 1]) == NonEmpty(rows[..row]) + if rows[row] == [] then 0 else 1
  {
    assert rows[..row + 1][..row] == rows[..row];
    assert rows[row] == [] ==> Probed(w, row, rows[row]) == [];
  }

  class Monitor {
    /** The stored endpoints of each transfer in flight, in load order. */
    var stored: seq<seq<Endpoint>>
    var transitions: nat

    /** One pass: every endpoint gets exactly one probe folded in; a failed write stops the pass at its row. */
    method Tick(w: World) returns (r: TickResult)
      modifies this
      ensures match r
              case Touched(n) =>
                && stored == Ticked(w, old(stored), |old(stored)|)
                && n == NonEmpty(old(stored))
                && transitions == old(transitions) + TotalFlips(w, old(stored), |old(stored)|)
              case PersistFailed =>
                exists k: nat | k < |old(stored)| ::
                  && old(stored)[k] != [] && !w.persists(k)
                  && stored == Ticked(w, old(stored), k)
                  && transitions == old(transitions) + TotalFlips(w, old(stored), k + 1)
      ensures r.Touched? <==> forall k: nat | k < |old(stored)| && old(stored)[k] != [] :: w.persists(k)
    {
      hide Probed;
      hide RowFlips;
      var rows := stored;
      var touched := 0;
      assert stored == Ticked(w, rows, 0);
      for row := 0 to |rows|
        invariant stored == Ticked(w, rows, row)
        invariant touched == NonEmpty(rows[..row])
        invariant transitions == old(transitions) + TotalFlips(w, rows, row)
        invariant forall k: nat | k < row && rows[k] != [] :: w.persists(k)
      {
        HandledRow(w, rows, row);
        hide Ticked;
        hide NonEmpty;
        if rows[row] != [] {
          var updated, flips := ProbeRow(w, row, rows[row]);
          transitions := transitions + flips;
          if !w.persists(row) { return PersistFailed; }
          stored := stored[row := updated];
          touched := touched + 1;
        }
      }
      assert rows[..|rows|] == rows;
      r := Touched(touched);
    }
  }

  method ProbeRow(w: World, row: nat, endpoints: seq<Endpoint>) returns (updated: seq<Endpoint>, flips: nat)
    ensures updated == Probed(w, row, endpoints)
    ensures flips == RowFlips(w, row, endpoints)
    ensures flips == |set i: nat | i < |endpoints| && endpoints[i].health.Some? && updated[i].health.Some?
                                   && updated[i].health.value.status != endpoints[i].health.value.status|
  {
    updated, flips := [], 0;
    ghost var counted: set<nat> := {};
    for i := 0 to |endpoints|
      invariant updated == Probed(w, row, endpoints)[..i]
      invariant counted == set k: nat | k < i && CountedFlip(endpoints[k], Probed(w, row, endpoints)[k])
      invariant flips == |counted|
    {
      var next := FoldHealth(endpoints[i], Probe(w.probe(row, i), w.now));
      assert next == Probed(w, row, endpoints)[i];
      if endpoints[i].health.Some? && endpoints[i].health.value.status != next.health.value.status {
        flips := flips + 1;
        counted := counted + {i};
      }
      updated := updated + [next];
    }
    assert counted == set i: nat | i < |endpoints| && endpoints[i].health.Some? && updated[i].health.Some?
                                   && updated[i].health.value.status != endpoints[i].health.value.status;
  }

  /** Leaving the seeding probe out of the count loses nothing: it never changes the status. */
  lemma SeedNeverFlips(ep: Endpoint, p: Probe)
    requires ep.health.None?
    ensures FoldHealth(ep, p).health.value.status == FreshHealthy(p.now).status
  {
  }
}
