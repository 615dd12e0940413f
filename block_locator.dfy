/**
  The search for the execution-layer block closest to a point in time
  (GetELBlockHeaderForTime in shared/services/rewards/utils.go).

  The search starts halfway between the Rocket Pool deployment block and the
  latest block and moves left or right by a pivot that is halved (rounding up)
  on every probe, keeping the probed block whose timestamp is closest to the
  target. Once the pivot is 1 and a probe brings no improvement, it steps back
  one block at a time while the last probed block is later than the target.

  The execution client is a function from a block number to that block's
  timestamp or an error; a header the client returns is taken to carry the
  number it was requested by. Timestamps and the target are whole seconds and
  compared exactly.
*/
module BlockLocator {
  import opened Wrappers
  import opened GoInts

  /** An execution-layer block header: its number and its Unix timestamp. */
  datatype Header = Header(number: int, time: nat)

  datatype SearchError =
    | LatestHeaderError(cause: string)
    | DeployBlockError(cause: string)
    | BlockFetchError(cause: string)

  /** `HeaderByNumber`: the timestamp of block `n`, or the client's error. */
  type HeaderSource = int -> Result<nat, string>

  /** Result of the probing phase: where it stopped, or the failed fetch. */
  datatype ProbeOutcome = Stopped(best: Header, last: Header) | ProbeFailed(cause: string)

  /** The chain has no block below 0: the client fails for negative numbers. */
  ghost predicate NoBlockBelowZero(headerAt: HeaderSource)
  {
    forall n: int :: n < 0 ==> headerAt(n).Failure?
  }

  /** `|target - time|`, the distance the search minimises. */
  function Distance(target: int, time: nat): nat
  {
    if target < time then time - target else target - time
  }

  /**
    The first block probed: the latest block minus half (Euclidean division,
    as `big.Int.Div` does) of its distance from the deployment block.
  */
  function FirstCandidate(latest: nat, deploy: nat): (c: int)
    ensures deploy <= latest ==> deploy <= c <= latest && 0 <= (c - deploy) - (latest - c) <= 1
    ensures latest < deploy ==> latest < c <= deploy && 0 <= (c - latest) - (deploy - c) <= 1
  {
    latest - (latest - deploy) / 2
  }

  /** The first pivot: the number of the first probed block, as a `uint64`. */
  function StartPivot(latest: nat, deploy: nat): nat
  {
    U64(FirstCandidate(latest, deploy))
  }

  /** `uint64(math.Ceil(float64(p) / 2))`: half of `p`, rounded up. */
  function HalfUp(p: nat): (r: nat)
    ensures r <= p
    ensures p >= 1 ==> r >= 1
    ensures p > 1 ==> r < p
    ensures r + r == p || r + r == p + 1
  {
    (p + 1) / 2
  }

  /** The pivot after `k` halvings of `p0` (halving 0 or 1 leaves it unchanged). */
  function Pivot(p0: nat, k: nat): (p: nat)
    ensures p <= p0
    ensures p0 >= 1 ==> p >= 1
  {
    if k == 0 || p0 <= 1 then p0 else HalfUp(Pivot(p0, k - 1))
  }

  /** `latest.Uint64() - 1` in `uint64` arithmetic: 2^64 - 1 when the low 64 bits are 0. */
  function ClampLimit(latest: nat): (limit: nat)
    ensures limit < TwoTo64
    ensures (limit + 1) % TwoTo64 == U64(latest)
  {
    var u := U64(latest);
    if u == 0 then TwoTo64 - 1 else u - 1
  }

  /** Moving the candidate past the block before the latest puts it on that block. */
  function Clamp(c: int, latest: nat): int
  {
    var limit := ClampLimit(latest);
    if U64(c) > limit then limit else c
  }

  /** The block probed after `h`: `pivot` blocks towards the target, then clamped. */
  function Step(h: Header, target: int, pivot: nat, latest: nat): int
    requires pivot < TwoTo64
  {
    Clamp(if target - h.time < 0 then h.number - Int64(pivot) else h.number + Int64(pivot), latest)
  }

  /** The number of the block probed after `probes` (the first candidate when there are none). */
  function NextProbe(target: int, latest: nat, deploy: nat, probes: seq<Header>): int
  {
    if probes == [] then FirstCandidate(latest, deploy)
    else
      var p := Pivot(StartPivot(latest, deploy), |probes|);
      Step(probes[|probes| - 1], target, p, latest)
  }

  /** Every header in `hs` is what the client returns for its number. */
  predicate Probed(headerAt: HeaderSource, hs: seq<Header>)
  {
    forall k :: 0 <= k < |hs| ==> headerAt(hs[k].number) == Success(hs[k].time)
  }

  /**
    `hs` are the first `|hs|` probes of the search: each was fetched at the
    number the schedule gives after the probes before it.
  */
  predicate IsProbeTrace(target: int, latest: nat, deploy: nat, headerAt: HeaderSource, hs: seq<Header>)
    decreases |hs|
  {
    hs == [] ||
    (var prev := hs[..|hs| - 1];
     var h := hs[|hs| - 1];
     && IsProbeTrace(target, latest, deploy, headerAt, prev)
     && h.number == NextProbe(target, latest, deploy, prev)
     && headerAt(h.number) == Success(h.time))
  }

  /**
    The index of the first of `hs[0], ..., hs[n - 1]` with the smallest distance
    to `target`: the block the search keeps, since only a strictly smaller
    distance replaces it.
  */
  function Closest(target: int, hs: seq<Header>, n: nat): (i: nat)
    requires 0 < n <= |hs|
    ensures i < n
  {
    if n == 1 then 0
    else
      var i := Closest(target, hs, n - 1);
      if Distance(target, hs[n - 1].time) < Distance(target, hs[i].time) then n - 1 else i
  }

  /**
    Probe `k` replaces the block kept so far: it is the first probe, or it is
    strictly closer to the target than the closest earlier probe.
  */
  predicate Improves(target: int, hs: seq<Header>, k: nat)
    requires k < |hs|
  {
    k == 0 || Distance(target, hs[k].time) < Distance(target, hs[Closest(target, hs, k)].time)
  }

  /** After probe `k` the search goes on: it improved, or the pivot is not yet 1. */
  predicate Continues(target: int, p0: nat, hs: seq<Header>, k: nat)
    requires k < |hs|
  {
    Improves(target, hs, k) || Pivot(p0, k) != 1
  }

  /** The search went on after every probe of `hs`. */
  predicate WentOn(target: int, p0: nat, hs: seq<Header>)
    decreases |hs|
  {
    hs == [] || (WentOn(target, p0, hs[..|hs| - 1]) && Continues(target, p0, hs, |hs| - 1))
  }

  /** The probing phase ended normally after the last of `probes`. */
  predicate StoppedAfter(target: int, latest: nat, deploy: nat, probes: seq<Header>)
  {
    && |probes| >= 2
    && WentOn(target, StartPivot(latest, deploy), probes[..|probes| - 1])
    && !Continues(target, StartPivot(latest, deploy), probes, |probes| - 1)
  }

  /**
    `Closest` picks a header no farther from the target than any other of the
    first `n` and strictly closer than every header before it.
  */
  lemma {:induction false} ClosestIsFirstMinimum(target: int, hs: seq<Header>, n: nat)
    requires 0 < n <= |hs|
    ensures var i := Closest(target, hs, n);
            && (forall j :: 0 <= j < n ==> Distance(target, hs[i].time) <= Distance(target, hs[j].time))
            && (forall j :: 0 <= j < i ==> Distance(target, hs[i].time) < Distance(target, hs[j].time))
  {
    if n > 1 {
      ClosestIsFirstMinimum(target, hs, n - 1);
    }
  }

  /** The closest of the first `n` headers does not depend on the headers after them. */
  lemma {:induction false} ClosestOfPrefix(target: int, hs: seq<Header>, m: nat, n: nat)
    requires 0 < n <= m <= |hs|
    ensures Closest(target, hs[..m], n) == Closest(target, hs, n)
  {
    if n > 1 {
      ClosestOfPrefix(target, hs, m, n - 1);
      var i := Closest(target, hs, n - 1);
      assert hs[..m][n - 1] == hs[n - 1] && hs[..m][i] == hs[i];
    }
  }

  /**
    The backward scan from `start`: the blocks `start.number - 1, - 2, ...`
    were fetched in turn until one was not later than the target, which is the
    result, or until a fetch failed.
  */
  predicate ScannedBack(target: int, headerAt: HeaderSource, start: Header,
                        r: Result<Header, SearchError>, scanned: seq<Header>)
  {
    && Probed(headerAt, scanned)
    && (forall i :: 0 <= i < |scanned| ==> scanned[i].number == start.number - i - 1)
    && (forall i :: 0 <= i < |scanned| - 1 ==> scanned[i].time > target)
    && (r.Success? ==> scanned != [] && r.value == scanned[|scanned| - 1] && r.value.time <= target)
    && (r.Failure? ==>
          && (forall i :: 0 <= i < |scanned| ==> scanned[i].time > target)
          && r.error.BlockFetchError?
          && headerAt(start.number - |scanned| - 1) == Failure(r.error.cause))
  }

  /** A fetch during the probing phase failed, after `probes` all let the search go on. */
  predicate ProbeFetchFailed(target: int, latest: nat, deploy: nat, headerAt: HeaderSource,
                             r: Result<Header, SearchError>, probes: seq<Header>, scanned: seq<Header>)
  {
    && WentOn(target, StartPivot(latest, deploy), probes)
    && scanned == []
    && r.Failure? && r.error.BlockFetchError?
    && headerAt(NextProbe(target, latest, deploy, probes)) == Failure(r.error.cause)
  }

  /**
    The outcome of the search as the source writes it, once the latest and the
    deployment block numbers are known: the closest probe when the last probe is
    not later than the target, otherwise the result of scanning back from the
    last probe.
  */
  predicate SearchOutcome(target: int, latest: nat, deploy: nat, headerAt: HeaderSource,
                          r: Result<Header, SearchError>, probes: seq<Header>, scanned: seq<Header>)
  {
    && IsProbeTrace(target, latest, deploy, headerAt, probes)
    && if StoppedAfter(target, latest, deploy, probes) then
         var last := probes[|probes| - 1];
         if last.time <= target then scanned == [] && r == Success(probes[Closest(target, probes, |probes|)])
         else ScannedBack(target, headerAt, last, r, scanned)
       else
         ProbeFetchFailed(target, latest, deploy, headerAt, r, probes, scanned)
  }

  /**
    The outcome of the corrected search: the closest probe when it is not later
    than the target, otherwise the result of scanning back from that probe.
  */
  predicate CorrectedOutcome(target: int, latest: nat, deploy: nat, headerAt: HeaderSource,
                             r: Result<Header, SearchError>, probes: seq<Header>, scanned: seq<Header>)
  {
    && IsProbeTrace(target, latest, deploy, headerAt, probes)
    && if StoppedAfter(target, latest, deploy, probes) then
         var best := probes[Closest(target, probes, |probes|)];
         if best.time <= target then scanned == [] && r == Success(best)
         else ScannedBack(target, headerAt, best, r, scanned)
       else
         ProbeFetchFailed(target, latest, deploy, headerAt, r, probes, scanned)
  }

  /** A probe replaces the kept block exactly when it is closer than every earlier probe. */
  lemma ImprovesIffCloserThanAll(target: int, hs: seq<Header>, k: nat)
    requires k < |hs|
    ensures Improves(target, hs, k) <==>
            forall j :: 0 <= j < k ==> Distance(target, hs[k].time) < Distance(target, hs[j].time)
  {
    if k > 0 {
      ClosestIsFirstMinimum(target, hs, k);
    }
  }

  /** Every prefix of a probe trace is a probe trace. */
  lemma {:induction false} ProbeTracePrefix(target: int, latest: nat, deploy: nat, headerAt: HeaderSource,
                                            hs: seq<Header>, m: nat)
    requires IsProbeTrace(target, latest, deploy, headerAt, hs)
    requires m <= |hs|
    ensures IsProbeTrace(target, latest, deploy, headerAt, hs[..m])
    decreases |hs|
  {
    if m < |hs| {
      var prev := hs[..|hs| - 1];
      ProbeTracePrefix(target, latest, deploy, headerAt, prev, m);
      assert prev[..m] == hs[..m];
    } else {
      assert hs[..m] == hs;
    }
  }

  /**
    Probe `k` of a trace was fetched at the number the schedule gives after the
    `k` probes before it, and carries the timestamp the client returned.
  */
  lemma ProbeFetched(target: int, latest: nat, deploy: nat, headerAt: HeaderSource, hs: seq<Header>, k: nat)
    requires IsProbeTrace(target, latest, deploy, headerAt, hs)
    requires k < |hs|
    ensures hs[k].number == NextProbe(target, latest, deploy, hs[..k])
    ensures headerAt(hs[k].number) == Success(hs[k].time)
  {
    ProbeTracePrefix(target, latest, deploy, headerAt, hs, k + 1);
    var t := hs[..k + 1];
    assert t[..k] == hs[..k] && t[k] == hs[k];
  }

  /**
    With the deployment block at or below the latest block and block numbers
    below 2^63, every probe lies between block 0 and the latest block, and every
    probe after the first, having been clamped, lies below the latest block.
  */
  lemma {:induction false} ProbeWithinChain(target: int, latest: nat, deploy: nat, headerAt: HeaderSource,
                                            hs: seq<Header>, k: nat)
    requires NoBlockBelowZero(headerAt)
    requires IsProbeTrace(target, latest, deploy, headerAt, hs)
    requires 1 <= latest < TwoTo63 && deploy <= latest
    requires k < |hs|
    ensures 0 <= hs[k].number <= latest
    ensures k >= 1 ==> hs[k].number <= latest - 1
    decreases k
  {
    ProbeFetched(target, latest, deploy, headerAt, hs, k);
    if k > 0 {
      ProbeWithinChain(target, latest, deploy, headerAt, hs, k - 1);
      var prev := hs[..k];
      assert prev[|prev| - 1] == hs[k - 1];
      var p := Pivot(StartPivot(latest, deploy), k);
      assert p <= latest && Int64(p) == p;
      var c := if target - hs[k - 1].time < 0 then hs[k - 1].number - p else hs[k - 1].number + p;
      assert hs[k].number == Clamp(c, latest);
      assert c < TwoTo64 && ClampLimit(latest) == latest - 1;
    }
  }

  /** Whether the search goes on after probe `k` depends only on the probes up to `k`. */
  lemma ContinuesOfPrefix(target: int, p0: nat, hs: seq<Header>, m: nat, k: nat)
    requires k < m <= |hs|
    ensures Continues(target, p0, hs[..m], k) <==> Continues(target, p0, hs, k)
  {
    if k > 0 {
      ClosestOfPrefix(target, hs, m, k);
      assert hs[..m][Closest(target, hs, k)] == hs[Closest(target, hs, k)];
    }
  }

  /** The search went on after every probe of `hs` exactly when each probe let it go on. */
  lemma {:induction false} WentOnIndexed(target: int, p0: nat, hs: seq<Header>)
    ensures WentOn(target, p0, hs) <==> forall k :: 0 <= k < |hs| ==> Continues(target, p0, hs, k)
    decreases |hs|
  {
    if hs != [] {
      var prev := hs[..|hs| - 1];
      WentOnIndexed(target, p0, prev);
      forall k | 0 <= k < |prev|
        ensures Continues(target, p0, prev, k) <==> Continues(target, p0, hs, k)
      {
        ContinuesOfPrefix(target, p0, hs, |prev|, k);
      }
    }
  }

  /**
    The state of the probing loop at the top of a round: `probes` were fetched
    on schedule, the search went on after all but the last, `pivot` is the
    pivot for the last, and `best` and `minDistance` are the closest earlier
    probe and its distance (none before the first round).
  */
  predicate LoopState(target: int, latest: nat, deploy: nat, headerAt: HeaderSource,
                      probes: seq<Header>, best: Header, minDistance: Option<nat>, pivot: nat)
  {
    && |probes| >= 1
    && IsProbeTrace(target, latest, deploy, headerAt, probes)
    && pivot == Pivot(StartPivot(latest, deploy), |probes| - 1) && pivot >= 1
    && WentOn(target, StartPivot(latest, deploy), probes[..|probes| - 1])
    && (minDistance.None? <==> |probes| == 1)
    && (|probes| > 1 ==>
          best == probes[Closest(target, probes, |probes| - 1)] && minDistance == Some(Distance(target, best.time)))
  }

  /**
    Evaluating the last probe as the loop does: it is kept when there is no
    distance yet or it is strictly closer; otherwise the search stops when the
    pivot is 1.
  */
  lemma Evaluate(target: int, latest: nat, deploy: nat, headerAt: HeaderSource,
                 probes: seq<Header>, best: Header, minDistance: Option<nat>, pivot: nat)
    requires LoopState(target, latest, deploy, headerAt, probes, best, minDistance, pivot)
    ensures var last := probes[|probes| - 1];
            var improved := minDistance.None? || Distance(target, last.time) < minDistance.value;
            && (improved ==> last == probes[Closest(target, probes, |probes|)])
            && (!improved ==> best == probes[Closest(target, probes, |probes|)])
            && (Continues(target, StartPivot(latest, deploy), probes, |probes| - 1) <==> improved || pivot != 1)
  {
  }

  /**
    A round that goes on keeps the loop state: `best2` is the closest probe so
    far and `h`, fetched at the next scheduled number, becomes the last probe.
  */
  lemma Advance(target: int, latest: nat, deploy: nat, headerAt: HeaderSource,
                probes: seq<Header>, best: Header, minDistance: Option<nat>, pivot: nat,
                best2: Header, h: Header)
    requires LoopState(target, latest, deploy, headerAt, probes, best, minDistance, pivot)
    requires Continues(target, StartPivot(latest, deploy), probes, |probes| - 1)
    requires best2 == probes[Closest(target, probes, |probes|)]
    requires h.number == Step(probes[|probes| - 1], target, HalfUp(pivot), latest)
    requires headerAt(h.number) == Success(h.time)
    ensures LoopState(target, latest, deploy, headerAt, probes + [h], best2,
                      Some(Distance(target, best2.time)), HalfUp(pivot))
  {
    var hs := probes + [h];
    var p0 := StartPivot(latest, deploy);
    assert hs[..|probes|] == probes && hs[|hs| - 1] == h;
    assert Pivot(p0, |probes|) == HalfUp(pivot);
    assert NextProbe(target, latest, deploy, probes) == h.number;
    assert IsProbeTrace(target, latest, deploy, headerAt, hs);
    assert WentOn(target, p0, probes);
    ClosestOfPrefix(target, hs, |probes|, |probes|);
    var i := Closest(target, probes, |probes|);
    assert hs[i] == probes[i];
  }

  /** When a round goes on, the next number it fetches is the scheduled one. */
  lemma GoesOn(target: int, latest: nat, deploy: nat, headerAt: HeaderSource,
               probes: seq<Header>, best: Header, minDistance: Option<nat>, pivot: nat)
    requires LoopState(target, latest, deploy, headerAt, probes, best, minDistance, pivot)
    requires Continues(target, StartPivot(latest, deploy), probes, |probes| - 1)
    ensures WentOn(target, StartPivot(latest, deploy), probes)
    ensures NextProbe(target, latest, deploy, probes) == Step(probes[|probes| - 1], target, HalfUp(pivot), latest)
  {
  }

  /**
    The probing phase (the loop of the source up to the point where it stops or
    a fetch fails). `probes` lists the probed headers in order.
  */
  method ProbeSearch(target: int, latest: nat, deploy: nat, headerAt: HeaderSource)
    returns (outcome: ProbeOutcome, probes: seq<Header>)
    requires StartPivot(latest, deploy) != 0
    ensures IsProbeTrace(target, latest, deploy, headerAt, probes)
    ensures outcome.ProbeFailed? ==>
              && WentOn(target, StartPivot(latest, deploy), probes)
              && headerAt(NextProbe(target, latest, deploy, probes)) == Failure(outcome.cause)
    ensures outcome.Stopped? ==>
              && StoppedAfter(target, latest, deploy, probes)
              && outcome.last == probes[|probes| - 1]
              && outcome.best == probes[Closest(target, probes, |probes|)]
  {
    var number := FirstCandidate(latest, deploy);
    var fetched := headerAt(number);
    if fetched.Failure? {
      return ProbeFailed(fetched.error), [];
    }
    var candidate := Header(number, fetched.value);
    probes := [candidate];
    assert probes[..0] == [] && IsProbeTrace(target, latest, deploy, headerAt, []);
    var best := candidate;
    var pivot := U64(candidate.number);
    var minDistance: Option<nat> := None;
    while true
      invariant LoopState(target, latest, deploy, headerAt, probes, best, minDistance, pivot)
      invariant candidate == probes[|probes| - 1]
      decreases minDistance.None?, if minDistance.Some? then minDistance.value else 0, pivot
    {
      ghost var best0, minDistance0, pivot0 := best, minDistance, pivot;
      Evaluate(target, latest, deploy, headerAt, probes, best, minDistance, pivot);
      var distance := Distance(target, candidate.time);
      if minDistance.None? || distance < minDistance.value {
        minDistance := Some(distance);
        best := candidate;
      } else if pivot == 1 {
        return Stopped(best, candidate), probes;
      }
      GoesOn(target, latest, deploy, headerAt, probes, best0, minDistance0, pivot0);
      pivot := HalfUp(pivot);
      number := Step(candidate, target, pivot, latest);
      fetched := headerAt(number);
      if fetched.Failure? {
        return ProbeFailed(fetched.error), probes;
      }
      candidate := Header(number, fetched.value);
      Advance(target, latest, deploy, headerAt, probes, best0, minDistance0, pivot0, best, candidate);
      probes := probes + [candidate];
    }
  }

  /**
    The backward scan of the source: steps back from `start`, which is later
    than the target, one block at a time until a block is not later than it.
  */
  method ScanBack(target: int, start: Header, headerAt: HeaderSource)
    returns (r: Result<Header, SearchError>, scanned: seq<Header>)
    requires NoBlockBelowZero(headerAt)
    requires headerAt(start.number) == Success(start.time)
    requires start.time > target
    ensures ScannedBack(target, headerAt, start, r, scanned)
  {
    var candidate := start;
    scanned := [];
    while candidate.time > target
      invariant headerAt(candidate.number) == Success(candidate.time)
      invariant candidate.number >= 0
      invariant candidate.number == start.number - |scanned|
      invariant scanned == [] ==> candidate == start
      invariant scanned != [] ==> candidate == scanned[|scanned| - 1]
      invariant Probed(headerAt, scanned)
      invariant forall i :: 0 <= i < |scanned| ==> scanned[i].number == start.number - i - 1
      invariant forall i :: 0 <= i < |scanned| - 1 ==> scanned[i].time > target
      decreases candidate.number
    {
      var number := candidate.number - 1;
      var fetched := headerAt(number);
      if fetched.Failure? {
        return Failure(BlockFetchError(fetched.error)), scanned;
      }
      candidate := Header(number, fetched.value);
      scanned := scanned + [candidate];
    }
    r := Success(candidate);
  }

  /**
    GetELBlockHeaderForTime as written. `latest` and `deploy` are the outcomes
    of the queries for the latest block number and the deployment block; the
    result is returned with the probed and the scanned headers.
  */
  method GetELBlockHeaderForTime(target: int, latest: Result<nat, string>, deploy: Result<nat, string>,
                                 headerAt: HeaderSource)
    returns (r: Result<Header, SearchError>, probes: seq<Header>, scanned: seq<Header>)
    requires NoBlockBelowZero(headerAt)
    requires latest.Success? && deploy.Success? ==> StartPivot(latest.value, deploy.value) != 0
    ensures latest.Failure? ==>
              r == Failure(LatestHeaderError(latest.error)) && probes == [] && scanned == []
    ensures latest.Success? && deploy.Failure? ==>
              r == Failure(DeployBlockError(deploy.error)) && probes == [] && scanned == []
    ensures latest.Success? && deploy.Success? ==>
              SearchOutcome(target, latest.value, deploy.value, headerAt, r, probes, scanned)
  {
    scanned := [];
    if latest.Failure? {
      return Failure(LatestHeaderError(latest.error)), [], [];
    }
    if deploy.Failure? {
      return Failure(DeployBlockError(deploy.error)), [], [];
    }
    var outcome;
    outcome, probes := ProbeSearch(target, latest.value, deploy.value, headerAt);
    if outcome.ProbeFailed? {
      return Failure(BlockFetchError(outcome.cause)), probes, [];
    }
    if outcome.last.time > target {
      r, scanned := ScanBack(target, outcome.last, headerAt);
    } else {
      r := Success(outcome.best);
    }
  }

  /**
    The search with the backward scan starting from the block it keeps rather
    than from the last probe, so that it never returns a block later than the
    target.
  */
  method GetELBlockHeaderBeforeTime(target: int, latest: Result<nat, string>, deploy: Result<nat, string>,
                                    headerAt: HeaderSource)
    returns (r: Result<Header, SearchError>, probes: seq<Header>, scanned: seq<Header>)
    requires NoBlockBelowZero(headerAt)
    requires latest.Success? && deploy.Success? ==> StartPivot(latest.value, deploy.value) != 0
    ensures latest.Failure? ==>
              r == Failure(LatestHeaderError(latest.error)) && probes == [] && scanned == []
    ensures latest.Success? && deploy.Failure? ==>
              r == Failure(DeployBlockError(deploy.error)) && probes == [] && scanned == []
    ensures latest.Success? && deploy.Success? ==>
              CorrectedOutcome(target, latest.value, deploy.value, headerAt, r, probes, scanned)
    ensures r.Success? ==> r.value.time <= target && headerAt(r.value.number) == Success(r.value.time)
  {
    scanned := [];
    if latest.Failure? {
      return Failure(LatestHeaderError(latest.error)), [], [];
    }
    if deploy.Failure? {
      return Failure(DeployBlockError(deploy.error)), [], [];
    }
    var outcome;
    outcome, probes := ProbeSearch(target, latest.value, deploy.value, headerAt);
    if outcome.ProbeFailed? {
      return Failure(BlockFetchError(outcome.cause)), probes, [];
    }
    if outcome.best.time > target {
      ProbeFetched(target, latest.value, deploy.value, headerAt, probes, Closest(target, probes, |probes|));
      r, scanned := ScanBack(target, outcome.best, headerAt);
    } else {
      r := Success(outcome.best);
    }
    CorrectedBeforeTarget(target, latest.value, deploy.value, headerAt, r, probes, scanned);
  }

  /** Whenever the corrected search succeeds, its block is not later than the target. */
  lemma CorrectedBeforeTarget(target: int, latest: nat, deploy: nat, headerAt: HeaderSource,
                              r: Result<Header, SearchError>, probes: seq<Header>, scanned: seq<Header>)
    requires CorrectedOutcome(target, latest, deploy, headerAt, r, probes, scanned)
    ensures r.Success? ==> r.value.time <= target && headerAt(r.value.number) == Success(r.value.time)
  {
    if r.Success? && StoppedAfter(target, latest, deploy, probes) {
      var best := probes[Closest(target, probes, |probes|)];
      if best.time > target {
        assert r.value == scanned[|scanned| - 1];
      } else {
        ProbeFetched(target, latest, deploy, headerAt, probes, Closest(target, probes, |probes|));
      }
    }
  }

  /**
    A successful backward scan ends where the timestamps cross the target: the
    block returned is not later than the target and the block after it, which
    the search fetched, is later.
  */
  lemma {:induction false} ScanEndsAtCrossing(target: int, headerAt: HeaderSource, start: Header,
                                              r: Result<Header, SearchError>, scanned: seq<Header>)
    requires ScannedBack(target, headerAt, start, r, scanned)
    requires headerAt(start.number) == Success(start.time) && start.time > target
    requires r.Success?
    ensures r.value.time <= target
    ensures headerAt(r.value.number + 1).Success? && headerAt(r.value.number + 1).value > target
  {
    var n := |scanned|;
    assert r.value.number == start.number - n;
    if n >= 2 {
      assert scanned[n - 2].number == r.value.number + 1;
    }
  }

  /** Two blocks: block 0 at time 0 and block 1 at time 10. */
  function TwoBlocks(): HeaderSource
  {
    n => if n == 0 then Success(0) else if n == 1 then Success(10) else Failure("unknown block")
  }

  /** The search always goes on after its first probe. */
  lemma FirstProbeGoesOn(target: int, p0: nat, hs: seq<Header>)
    requires |hs| == 1
    ensures WentOn(target, p0, hs)
  {
    var prev := hs[..|hs| - 1];
    assert prev == [];
    assert WentOn(target, p0, prev);
    assert Continues(target, p0, hs, |hs| - 1);
  }

  /**
    Once the search stops after probe `k`, it did not go on past `k`: no longer
    prefix of the probes is one after which it went on.
  */
  lemma StopIsFinal(target: int, p0: nat, hs: seq<Header>, k: nat)
    requires k < |hs|
    requires !Continues(target, p0, hs, k)
    ensures forall m :: k < m <= |hs| ==> !WentOn(target, p0, hs[..m])
  {
    forall m | k < m <= |hs|
      ensures !WentOn(target, p0, hs[..m])
    {
      WentOnIndexed(target, p0, hs[..m]);
      ContinuesOfPrefix(target, p0, hs, m, k);
    }
  }

  /** The first probe on the two-block chain is block 1, at time 10. */
  lemma TwoBlockFirstProbe(probes: seq<Header>)
    requires IsProbeTrace(5, 1, 0, TwoBlocks(), probes)
    requires |probes| >= 1
    ensures probes[0] == Header(1, 10)
  {
    TwoBlockStart();
    ProbeFetched(5, 1, 0, TwoBlocks(), probes, 0);
    assert probes[..0] == [];
  }

  /**
    A search that does not go on after its second probe went on after its
    first and did not go on after any longer prefix of the probes.
  */
  lemma StopsAtSecond(target: int, p0: nat, hs: seq<Header>)
    requires |hs| >= 2
    requires !Continues(target, p0, hs, 1)
    ensures WentOn(target, p0, hs[..1])
    ensures !WentOn(target, p0, hs)
    ensures |hs| >= 3 ==> !WentOn(target, p0, hs[..|hs| - 1])
  {
    StopIsFinal(target, p0, hs, 1);
    assert hs[..|hs|] == hs;
    FirstProbeGoesOn(target, p0, hs[..1]);
  }

  /** The client of the two-block chain returns both blocks. */
  lemma TwoBlockHeaders()
    ensures TwoBlocks()(0) == Success(0) && TwoBlocks()(1) == Success(10)
  {
  }

  /** On the two-block chain the search starts at block 1 with pivot 1. */
  lemma TwoBlockStart()
    ensures FirstCandidate(1, 0) == 1 && StartPivot(1, 0) == 1
  {
  }

  /** A pivot of 1 stays 1. */
  lemma PivotOne()
    ensures Pivot(1, 1) == 1
  {
  }

  /** From block 1 at time 10 a pivot of 1 moves to block 0, towards the target 5. */
  lemma TwoBlockStep()
    ensures Step(Header(1, 10), 5, 1, 1) == 0
  {
  }

  /** After block 1 at time 10 the search probes block 0. */
  lemma TwoBlockSecondNumber(probes: seq<Header>)
    requires |probes| == 1 && probes[0] == Header(1, 10)
    ensures NextProbe(5, 1, 0, probes) == 0
  {
    TwoBlockStart();
    PivotOne();
    TwoBlockStep();
  }

  /** The second probe on the two-block chain is block 0, at time 0. */
  lemma TwoBlockSecondProbe(probes: seq<Header>)
    requires IsProbeTrace(5, 1, 0, TwoBlocks(), probes)
    requires |probes| >= 2
    ensures probes[1] == Header(0, 0)
  {
    TwoBlockFirstProbe(probes);
    ProbeFetched(5, 1, 0, TwoBlocks(), probes, 1);
    TwoBlockSecondNumber(probes[..1]);
    TwoBlockHeaders();
  }

  /** On the two-block chain no fetch of the probing phase fails before the second probe. */
  lemma TwoBlockFetches(probes: seq<Header>)
    requires IsProbeTrace(5, 1, 0, TwoBlocks(), probes)
    ensures |probes| <= 1 ==> TwoBlocks()(NextProbe(5, 1, 0, probes)).Success?
  {
    TwoBlockStart();
    TwoBlockHeaders();
    if |probes| == 1 {
      TwoBlockFirstProbe(probes);
      TwoBlockSecondNumber(probes);
    }
  }

  /**
    Block 0 at time 0 is no closer to the target 5 than block 1 at time 10, so
    the first is kept and, with the pivot at 1, the search does not go on.
  */
  lemma TwoBlockTie(probes: seq<Header>)
    requires |probes| >= 2 && probes[0] == Header(1, 10) && probes[1] == Header(0, 0)
    ensures Closest(5, probes, 2) == 0
    ensures !Continues(5, 1, probes, 1)
  {
  }

  /** On the two-block chain the search does not go on after its second probe. */
  lemma TwoBlockSecondStops(probes: seq<Header>)
    requires IsProbeTrace(5, 1, 0, TwoBlocks(), probes)
    requires |probes| >= 2
    ensures !Continues(5, StartPivot(1, 0), probes, 1)
  {
    TwoBlockStart();
    TwoBlockFirstProbe(probes);
    TwoBlockSecondProbe(probes);
    TwoBlockTie(probes);
  }

  /**
    A search that stopped, or went on after every probe, and did not go on
    after its second probe, stopped there.
  */
  lemma StoppedAtSecond(target: int, latest: nat, deploy: nat, probes: seq<Header>)
    requires StoppedAfter(target, latest, deploy, probes) || WentOn(target, StartPivot(latest, deploy), probes)
    requires |probes| >= 2
    requires !Continues(target, StartPivot(latest, deploy), probes, 1)
    ensures |probes| == 2 && StoppedAfter(target, latest, deploy, probes)
  {
    StopsAtSecond(target, StartPivot(latest, deploy), probes);
  }

  /**
    On the two-block chain the search, as written or corrected, neither fails
    nor stops before its second probe.
  */
  lemma TwoBlockAtLeastTwo(probes: seq<Header>)
    requires IsProbeTrace(5, 1, 0, TwoBlocks(), probes)
    requires StoppedAfter(5, 1, 0, probes) || TwoBlocks()(NextProbe(5, 1, 0, probes)).Failure?
    ensures |probes| >= 2
  {
    TwoBlockFetches(probes);
  }

  /**
    On the two-block chain the search, as written or corrected, stops after
    exactly two probes.
  */
  lemma TwoBlockExactlyTwo(probes: seq<Header>)
    requires IsProbeTrace(5, 1, 0, TwoBlocks(), probes)
    requires StoppedAfter(5, 1, 0, probes) || WentOn(5, StartPivot(1, 0), probes)
    requires |probes| >= 2
    ensures |probes| == 2 && StoppedAfter(5, 1, 0, probes)
  {
    TwoBlockSecondStops(probes);
    StoppedAtSecond(5, 1, 0, probes);
  }

  /** The two probes on the two-block chain: block 1, which is kept, and block 0. */
  lemma TwoBlockProbes(probes: seq<Header>)
    requires IsProbeTrace(5, 1, 0, TwoBlocks(), probes)
    requires |probes| == 2
    ensures probes[0] == Header(1, 10) && probes[1] == Header(0, 0) && Closest(5, probes, 2) == 0
  {
    TwoBlockFirstProbe(probes);
    TwoBlockSecondProbe(probes);
    TwoBlockTie(probes);
  }

  /**
    With the latest block 1, the deployment block 0 and the target time 5 on
    the two-block chain, the search returns block 1, created at time 10: after
    the target. Both probes are 5 seconds away; the first is kept, and as the
    last probe (block 0) is not later than the target no scan happens.
  */
  lemma ReturnsBlockAfterTarget(r: Result<Header, SearchError>, probes: seq<Header>, scanned: seq<Header>)
    requires SearchOutcome(5, 1, 0, TwoBlocks(), r, probes, scanned)
    ensures r == Success(Header(1, 10)) && r.value.time > 5
  {
    TwoBlockAtLeastTwo(probes);
    TwoBlockExactlyTwo(probes);
    TwoBlockProbes(probes);
  }

  /** On the same inputs the corrected search returns block 0, created at time 0. */
  lemma CorrectedReturnsBlockBeforeTarget(r: Result<Header, SearchError>, probes: seq<Header>, scanned: seq<Header>)
    requires CorrectedOutcome(5, 1, 0, TwoBlocks(), r, probes, scanned)
    ensures r == Success(Header(0, 0))
  {
    TwoBlockAtLeastTwo(probes);
    TwoBlockExactlyTwo(probes);
    TwoBlockProbes(probes);
    TwoBlockHeaders();
    if |scanned| >= 1 {
      assert scanned[0].number == 0;
    }
  }
}
