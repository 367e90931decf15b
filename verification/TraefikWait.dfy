/** Waiting for a queued Traefik recreate: a status loop, then a health loop, under one deadline. */
module TraefikWait {
  import opened Wrappers
  import opened Text

  datatype Status = Pending | Done | Failed(error: Option<string>) | Unknown

  datatype Result = Applied | SetupFailed(error: Option<string>) | Unconfirmed

  /** The options, in milliseconds. */
  datatype Options = Options(
    initialDelay: int, statusInterval: int, healthInterval: int, timeout: int, requestTimeout: nat)

  const MAX_UNKNOWN_POLLS := 10

  /** A request as it really goes: `latency` None never settles, `reply` None is a rejection. */
  datatype Raw<T> = Raw(latency: Option<nat>, reply: Option<T>)

  /** `withTimeout`: what the caller gets, and how long it waited. */
  function WithTimeout<T>(raw: Raw<T>, ms: nat): (r: (Option<T>, nat))
    ensures r.1 <= ms && (raw.latency.None? ==> r.1 == ms)
    ensures r.0.Some? <==> raw.reply.Some? && raw.latency.Some? && raw.latency.value <= ms
    ensures r.0.Some? ==> r.0 == raw.reply && Some(r.1) == raw.latency
  {
    if raw.latency.Some? && raw.latency.value <= ms then (raw.reply, raw.latency.value) else (None, ms)
  }

  /** Everything the wait meets: the reading of each `now()`, and how each status poll and each health probe goes. */
  datatype Script = Script(clock: nat -> int, status: nat -> Raw<Status>, health: nat -> Raw<bool>)

  /** What poll `i` answers: None when the request was rejected or timed out. */
  function Reply(sc: Script, o: Options, i: nat): Option<Status> { WithTimeout(sc.status(i), o.requestTimeout).0 }

  function Healthy(sc: Script, o: Options, j: nat): bool { WithTimeout(sc.health(j), o.requestTimeout).0 == Some(true) }

  function StatusTime(sc: Script, o: Options, i: nat): nat { WithTimeout(sc.status(i), o.requestTimeout).1 }

  function HealthTime(sc: Script, o: Options, j: nat): nat { WithTimeout(sc.health(j), o.requestTimeout).1 }

  // ---- The failure message.

  function FirstNonEmpty(parts: seq<string>): Option<string> {
    if parts == [] then None
    else if Trim(parts[0]) != "" then Some(Trim(parts[0]))
    else FirstNonEmpty(parts[1..])
  }

  /** `message.split(/\r?\n/)`, trimmed: a `\r` before the newline is trimmed away with the rest. */
  function FirstErrorLine(message: string): Option<string> {
    match FirstNonEmpty(Split(message, '\n'))
    case None => None
    case Some(line) => Some(if |line| > 300 then line[..300] else line)
  }

  // ---- The outcome, declared on the script.

  function Deadline(sc: Script, o: Options): int {
    sc.clock(0) + o.timeout
  }

  /** The check before poll `i` is before the deadline. */
  predicate Open(sc: Script, o: Options, i: nat) {
    sc.clock(i + 1) < Deadline(sc, o)
  }

  predicate IsUnknown(sc: Script, o: Options, i: nat) {
    Reply(sc, o, i) == Some(Unknown)
  }

  /** Poll `i` is the tenth unknown answer in a row. */
  predicate TenUnknown(sc: Script, o: Options, i: nat) {
    i + 1 >= MAX_UNKNOWN_POLLS && forall j :: i + 1 - MAX_UNKNOWN_POLLS <= j <= i ==> IsUnknown(sc, o, j)
  }

  predicate Answered(sc: Script, o: Options, i: nat) {
    Reply(sc, o, i).Some? && (Reply(sc, o, i).value.Done? || Reply(sc, o, i).value.Failed?)
  }

  /** The first `n` polls were made, and none of them decided anything. */
  predicate PollsOn(sc: Script, o: Options, n: nat) {
    forall i :: 0 <= i < n ==> Open(sc, o, i) && !Answered(sc, o, i) && !TenUnknown(sc, o, i)
  }

  predicate DoneAt(sc: Script, o: Options, n: nat) {
    PollsOn(sc, o, n) && Open(sc, o, n) && Reply(sc, o, n) == Some(Done)
  }

  predicate FailedAt(sc: Script, o: Options, n: nat) {
    PollsOn(sc, o, n) && Open(sc, o, n) && Reply(sc, o, n).Some? && Reply(sc, o, n).value.Failed?
  }

  predicate LostAt(sc: Script, o: Options, n: nat) {
    PollsOn(sc, o, n) && Open(sc, o, n) && TenUnknown(sc, o, n)
  }

  predicate ClosedAt(sc: Script, o: Options, n: nat) {
    PollsOn(sc, o, n) && !Open(sc, o, n)
  }

  /** With the run done at poll `d`, the check before probe `j` is before the deadline. */
  predicate ProbeOpen(sc: Script, o: Options, d: nat, j: nat) {
    sc.clock(d + 2 + j) < Deadline(sc, o)
  }

  predicate ProbesOn(sc: Script, o: Options, d: nat, n: nat) {
    forall j :: 0 <= j < n ==> ProbeOpen(sc, o, d, j) && !Healthy(sc, o, j)
  }

  predicate HealthyAt(sc: Script, o: Options, d: nat, h: nat) {
    DoneAt(sc, o, d) && ProbesOn(sc, o, d, h) && ProbeOpen(sc, o, d, h) && Healthy(sc, o, h)
  }

  predicate UnhealthyAt(sc: Script, o: Options, d: nat, h: nat) {
    DoneAt(sc, o, d) && ProbesOn(sc, o, d, h) && !ProbeOpen(sc, o, d, h)
  }

  /** Both loops end: the clock reaches the deadline, or an answer ends the loop before. */
  ghost predicate Ends(sc: Script, o: Options) {
    && (exists n: nat :: PollStops(sc, o, n))
    && (forall d: nat :: DoneAt(sc, o, d) ==> exists h: nat :: ProbeStops(sc, o, d, h))
  }

  ghost predicate PollStops(sc: Script, o: Options, n: nat) {
    !Open(sc, o, n) || Answered(sc, o, n) || TenUnknown(sc, o, n)
  }

  ghost predicate ProbeStops(sc: Script, o: Options, d: nat, h: nat) {
    !ProbeOpen(sc, o, d, h) || Healthy(sc, o, h)
  }

  // ---- The environment.

  class World {
    const script: Script
    var time: int
    var nows: nat
    var polls: nat
    var probes: nat
    var sleeps: seq<int>

    constructor (script: Script, time: int)
      ensures this.script == script && this.time == time && nows == polls == probes == 0 && sleeps == []
    {
      this.script, this.time, nows, polls, probes, sleeps := script, time, 0, 0, 0, [];
    }

    method Now() returns (t: int)
      modifies `nows
      ensures t == script.clock(old(nows)) && nows == old(nows) + 1
    {
      t := script.clock(nows);
      nows := nows + 1;
    }

    /** `withTimeout(getStatus(), ms)`, with a rejection caught. */
    method GetStatus(ms: nat) returns (s: Option<Status>)
      modifies `polls, `time
      ensures (s, time - old(time)) == WithTimeout(script.status(old(polls)), ms) && polls == old(polls) + 1
    {
      var (reply, took) := WithTimeout(script.status(polls), ms);
      s, polls, time := reply, polls + 1, time + took;
    }

    /** `withTimeout(isHealthy(), ms).catch(() => false)` */
    method IsHealthy(ms: nat) returns (h: bool)
      modifies `probes, `time
      ensures var (reply, took) := WithTimeout(script.health(old(probes)), ms);
              h == (reply == Some(true)) && time == old(time) + took && probes == old(probes) + 1
    {
      var (reply, took) := WithTimeout(script.health(probes), ms);
      h, probes, time := reply == Some(true), probes + 1, time + took;
    }

    method Sleep(ms: int)
      modifies `sleeps, `time
      ensures sleeps == old(sleeps) + [ms] && time == old(time) + Max(ms, 0)
    {
      sleeps, time := sleeps + [ms], time + Max(ms, 0);
    }
  }

  function Max(a: int, b: int): int { if a >= b then a else b }

  function Repeat(ms: int, n: nat): (r: seq<int>)
    ensures |r| == n
  {
    seq(n, _ => ms)
  }

  /** How many unknown answers in a row end with poll `n - 1`. */
  function UnknownRun(sc: Script, o: Options, n: nat): nat {
    if n > 0 && IsUnknown(sc, o, n - 1) then UnknownRun(sc, o, n - 1) + 1 else 0
  }

  lemma {:induction false} UnknownRunIsLongest(sc: Script, o: Options, n: nat)
    ensures var r := UnknownRun(sc, o, n);
            r <= n && (forall j :: n - r <= j < n ==> IsUnknown(sc, o, j)) && (r < n ==> !IsUnknown(sc, o, n - r - 1))
  {
    if n > 0 && IsUnknown(sc, o, n - 1) {
      UnknownRunIsLongest(sc, o, n - 1);
    }
  }

  lemma RunOfTen(sc: Script, o: Options, i: nat)
    ensures TenUnknown(sc, o, i) <==> UnknownRun(sc, o, i + 1) >= MAX_UNKNOWN_POLLS
  {
    var r := UnknownRun(sc, o, i + 1);
    UnknownRunIsLongest(sc, o, i + 1);
    if r < MAX_UNKNOWN_POLLS && r <= i {
      assert !IsUnknown(sc, o, i - r);
    }
  }

  lemma PollsOnMore(sc: Script, o: Options, n: nat)
    requires PollsOn(sc, o, n) && Open(sc, o, n) && !Answered(sc, o, n) && !TenUnknown(sc, o, n)
    ensures PollsOn(sc, o, n + 1)
  {
  }

  lemma RepeatMore(ms: int, n: nat)
    ensures Repeat(ms, n + 1) == Repeat(ms, n) + [ms]
  {
  }

  // ---- Real time.

  /**
   * The readings are the real time of a wait that begins at `start`: sleeps take exactly their stated
   * time, requests as long as they take, and nothing else takes any.
   */
  ghost predicate RealClock(sc: Script, o: Options, start: int) {
    && sc.clock(0) == start && sc.clock(1) == start + o.initialDelay
    && (forall i: nat :: PollTimed(sc, o, i))
    && (forall d: nat, j: nat :: ProbeTimed(sc, o, d, j))
  }

  /** A poll that decides nothing is followed by a sleep; one that finds the run done, by the first health check. */
  predicate PollTimed(sc: Script, o: Options, i: nat) {
    && (PollsOn(sc, o, i + 1) ==> sc.clock(i + 2) == sc.clock(i + 1) + StatusTime(sc, o, i) + o.statusInterval)
    && (DoneAt(sc, o, i) ==> sc.clock(i + 2) == sc.clock(i + 1) + StatusTime(sc, o, i))
  }

  predicate ProbeTimed(sc: Script, o: Options, d: nat, j: nat) {
    DoneAt(sc, o, d) && ProbesOn(sc, o, d, j + 1) ==>
      sc.clock(d + 2 + (j + 1)) == sc.clock(d + 2 + j) + HealthTime(sc, o, j) + o.healthInterval
  }

  predicate Sensible(o: Options) {
    o.initialDelay >= 0 && o.statusInterval > 0 && o.healthInterval > 0
  }

  /** Positive intervals, and a clock that tells the time. */
  ghost predicate OnTime(sc: Script, o: Options, start: int) {
    RealClock(sc, o, start) && Sensible(o)
  }

  lemma PollTakes(sc: Script, o: Options, start: int, i: nat)
    requires OnTime(sc, o, start)
    ensures PollsOn(sc, o, i + 1) ==> sc.clock(i + 2) == sc.clock(i + 1) + StatusTime(sc, o, i) + o.statusInterval
    ensures DoneAt(sc, o, i) ==> sc.clock(i + 2) == sc.clock(i + 1) + StatusTime(sc, o, i)
    ensures Open(sc, o, i) ==> sc.clock(i + 1) + StatusTime(sc, o, i) <= LatestReturn(o, start)
    ensures o.statusInterval > 0
  {
    assert PollTimed(sc, o, i);
  }

  lemma ProbeTakes(sc: Script, o: Options, start: int, d: nat, j: nat)
    requires OnTime(sc, o, start)
    ensures DoneAt(sc, o, d) && ProbesOn(sc, o, d, j + 1) ==>
              sc.clock(d + 3 + j) == sc.clock(d + 2 + j) + HealthTime(sc, o, j) + o.healthInterval
    ensures o.healthInterval > 0 && sc.clock(0) == start
  {
    assert ProbeTimed(sc, o, d, j);
  }

  lemma {:induction false} PollTime(sc: Script, o: Options, start: int, i: nat)
    requires OnTime(sc, o, start) && PollsOn(sc, o, i)
    ensures sc.clock(i + 1) >= start + o.initialDelay + i * o.statusInterval
  {
    if i > 0 {
      assert PollsOn(sc, o, i - 1);
      PollTime(sc, o, start, i - 1);
      assert i * o.statusInterval == (i - 1) * o.statusInterval + o.statusInterval;
      assert PollTimed(sc, o, i - 1);
    }
  }

  lemma {:induction false} ProbeTime(sc: Script, o: Options, start: int, d: nat, j: nat)
    requires OnTime(sc, o, start) && DoneAt(sc, o, d) && ProbesOn(sc, o, d, j)
    ensures sc.clock(d + 2 + j) >= start + j
  {
    if j == 0 {
      PollTime(sc, o, start, d);
      assert PollTimed(sc, o, d);
      assert d * o.statusInterval >= 0;
    } else {
      assert ProbesOn(sc, o, d, j - 1);
      ProbeTime(sc, o, start, d, j - 1);
      assert ProbeTimed(sc, o, d, j - 1);
    }
  }

  lemma FindPollStop(sc: Script, o: Options, start: int, i: nat) returns (n: nat)
    requires OnTime(sc, o, start) && PollsOn(sc, o, i)
    ensures PollStops(sc, o, n)
    decreases o.timeout - i
  {
    if PollStops(sc, o, i) {
      n := i;
    } else {
      PollTime(sc, o, start, i);
      assert i * o.statusInterval >= i;
      PollsOnMore(sc, o, i);
      n := FindPollStop(sc, o, start, i + 1);
    }
  }

  lemma FindProbeStop(sc: Script, o: Options, start: int, d: nat, j: nat) returns (h: nat)
    requires OnTime(sc, o, start) && DoneAt(sc, o, d) && ProbesOn(sc, o, d, j)
    ensures ProbeStops(sc, o, d, h)
    decreases o.timeout - j
  {
    if ProbeStops(sc, o, d, j) {
      h := j;
    } else {
      ProbeTime(sc, o, start, d, j);
      h := FindProbeStop(sc, o, start, d, j + 1);
    }
  }

  /** With positive intervals the wait ends, whatever the requests do: hang, fail or answer. */
  lemma TimedWaitEnds(sc: Script, o: Options, start: int)
    requires OnTime(sc, o, start)
    ensures Ends(sc, o)
  {
    var n := FindPollStop(sc, o, start, 0);
    forall d: nat | DoneAt(sc, o, d)
      ensures exists h: nat :: ProbeStops(sc, o, d, h)
    {
      var h := FindProbeStop(sc, o, start, d, 0);
    }
  }

  function LatestReturn(o: Options, start: int): int {
    start + Max(o.initialDelay, o.timeout + o.requestTimeout + Max(o.statusInterval, o.healthInterval))
  }

  lemma ClosedInTime(sc: Script, o: Options, start: int, n: nat)
    requires OnTime(sc, o, start) && ClosedAt(sc, o, n)
    ensures sc.clock(n + 1) <= LatestReturn(o, start)
  {
    if n > 0 {
      assert PollTimed(sc, o, n - 1) && Open(sc, o, n - 1);
    }
  }

  lemma UnhealthyInTime(sc: Script, o: Options, start: int, d: nat, h: nat)
    requires OnTime(sc, o, start) && UnhealthyAt(sc, o, d, h)
    ensures sc.clock(d + 2 + h) <= LatestReturn(o, start)
  {
    if h > 0 {
      assert ProbeTimed(sc, o, d, h - 1) && ProbeOpen(sc, o, d, h - 1);
    } else {
      assert PollTimed(sc, o, d);
    }
  }

  /** ceil(timeout / statusInterval) */
  function MostPolls(o: Options): int {
    if o.statusInterval <= 0 then 0 else (o.timeout + o.statusInterval - 1) / o.statusInterval
  }

  lemma PollCount(sc: Script, o: Options, start: int, polls: nat)
    requires OnTime(sc, o, start)
    requires polls > 0 && PollsOn(sc, o, polls - 1) && Open(sc, o, polls - 1)
    ensures polls <= MostPolls(o)
  {
    PollTime(sc, o, start, polls - 1);
    var k, s := polls - 1, o.statusInterval;
    assert 0 <= k * s < o.timeout;
    assert (k + 1) * s == k * s + s <= o.timeout + s - 1;
    DivideBound(k + 1, s, o.timeout + s - 1);
  }

  lemma MulMonotone(a: int, b: int, s: int)
    requires a >= b && s > 0
    ensures a * s >= b * s
  {
  }

  lemma DivideBound(n: nat, s: int, t: int)
    requires s > 0 && n * s <= t
    ensures n <= t / s
  {
    var k := t / s;
    assert t == s * k + t % s;
    assert (k + 1) * s == s * k + s;
    if n >= k + 1 {
      MulMonotone(n, k + 1, s);
    }
  }

  // ---- The wait.

  lemma NoPollsYet(sc: Script, o: Options)
    ensures PollsOn(sc, o, 0) && UnknownRun(sc, o, 0) == 0 && forall ms :: Repeat(ms, 0) == []
  {
  }

  /** After a poll that decided, the next check is never what ends the loop. */
  lemma DecidedIsNotClosed(sc: Script, o: Options, n: nat)
    ensures Answered(sc, o, n) || TenUnknown(sc, o, n) ==> !ClosedAt(sc, o, n + 1)
  {
    hide TenUnknown;
  }

  lemma UnknownRunStep(sc: Script, o: Options, n: nat)
    ensures UnknownRun(sc, o, n + 1) == if Reply(sc, o, n) == Some(Unknown) then UnknownRun(sc, o, n) + 1 else 0
  {
  }

  lemma DelayTakes(sc: Script, o: Options, start: int)
    requires OnTime(sc, o, start)
    ensures sc.clock(0) == start && sc.clock(1) == start + o.initialDelay && o.initialDelay >= 0
  {
  }

  datatype Polled = FoundDone | FoundFailure(error: Option<string>) | GaveUp | TimedOut

  /** The status loop. When the clock tells the time, `start` is the time the wait began. */
  method PollStatus(w: World, o: Options, deadline: int, ghost start: int) returns (r: Polled)
    requires w.nows == 1 && w.polls == w.probes == 0 && deadline == Deadline(w.script, o)
    requires OnTime(w.script, o, start) ==> w.time == w.script.clock(1)
    requires exists n: nat :: PollStops(w.script, o, n)
    modifies w`nows, w`polls, w`sleeps, w`time
    ensures OnTime(w.script, o, start) && r.FoundDone? ==> w.time == w.script.clock(w.nows)
    ensures OnTime(w.script, o, start) && !r.FoundDone? ==> w.time <= LatestReturn(o, start)
    ensures OnTime(w.script, o, start) && w.polls > 0 ==> w.polls <= MostPolls(o)
    ensures r.FoundDone? ==> w.polls > 0 && DoneAt(w.script, o, w.polls - 1) && w.nows == w.polls + 1
    ensures r.FoundFailure? ==> w.polls > 0 && FailedAt(w.script, o, w.polls - 1)
    ensures r.FoundFailure? ==> var e := Reply(w.script, o, w.polls - 1).value.error;
                                r.error == if e.Some? && e.value != "" then FirstErrorLine(e.value) else None
    ensures r.GaveUp? ==> w.polls > 0 && LostAt(w.script, o, w.polls - 1)
    ensures r.TimedOut? <==> ClosedAt(w.script, o, w.polls)
    ensures w.sleeps == old(w.sleeps) + Repeat(o.statusInterval, if r.TimedOut? then w.polls else w.polls - 1)
  {
    hide OnTime, Repeat, PollsOn, TenUnknown, UnknownRun, FirstErrorLine, LatestReturn, MostPolls, WithTimeout;
    NoPollsYet(w.script, o);
    var sc := w.script;
    var unknownPolls := 0;
    ghost var last: nat :| PollStops(sc, o, last);
    while true
      invariant PollsOn(sc, o, w.polls) && w.nows == w.polls + 1 && w.polls <= last
      invariant unknownPolls == UnknownRun(sc, o, w.polls) < MAX_UNKNOWN_POLLS
      invariant w.sleeps == old(w.sleeps) + Repeat(o.statusInterval, w.polls)
      invariant OnTime(sc, o, start) ==> w.time == sc.clock(w.nows)
      invariant OnTime(sc, o, start) && w.polls > 0 ==> w.polls <= MostPolls(o)
      decreases last - w.polls
    {
      ghost var n := w.polls;
      var t := w.Now();
      if t >= deadline {
        if OnTime(sc, o, start) { ClosedInTime(sc, o, start, n); }
        return TimedOut;
      }
      if OnTime(sc, o, start) {
        PollCount(sc, o, start, n + 1);
        PollTakes(sc, o, start, n);
      }
      DecidedIsNotClosed(sc, o, n);
      var status := w.GetStatus(o.requestTimeout);
      assert OnTime(sc, o, start) ==> w.time == sc.clock(n + 1) + StatusTime(sc, o, n);
      if status.Some? && status.value.Failed? {
        var e := status.value.error;
        return FoundFailure(if e.Some? && e.value != "" then FirstErrorLine(e.value) else None);
      }
      if status == Some(Done) { return FoundDone; }
      unknownPolls := if status == Some(Unknown) then unknownPolls + 1 else 0;
      RunOfTen(sc, o, n);
      UnknownRunStep(sc, o, n);
      if unknownPolls >= MAX_UNKNOWN_POLLS { return GaveUp; }
      PollsOnMore(sc, o, n);
      RepeatMore(o.statusInterval, n);
      w.Sleep(o.statusInterval);
    }
  }

  /** The health loop, once the run is done at poll `d`. */
  method ProbeHealth(w: World, o: Options, deadline: int, ghost start: int, ghost d: nat) returns (applied: bool)
    requires w.nows == d + 2 && w.polls == d + 1 && w.probes == 0 && deadline == Deadline(w.script, o)
    requires DoneAt(w.script, o, d) && exists h: nat :: ProbeStops(w.script, o, d, h)
    requires OnTime(w.script, o, start) ==> w.time == w.script.clock(d + 2)
    modifies w`nows, w`probes, w`sleeps, w`time
    ensures OnTime(w.script, o, start) ==> w.time <= LatestReturn(o, start)
    ensures applied ==> w.probes > 0 && HealthyAt(w.script, o, d, w.probes - 1)
    ensures !applied ==> UnhealthyAt(w.script, o, d, w.probes)
    ensures w.sleeps == old(w.sleeps) + Repeat(o.healthInterval, if applied then w.probes - 1 else w.probes)
  {
    hide OnTime, Repeat, DoneAt;
    var sc := w.script;
    ghost var last: nat :| ProbeStops(sc, o, d, last);
    while true
      invariant w.nows == d + 2 + w.probes && ProbesOn(sc, o, d, w.probes) && w.probes <= last
      invariant w.sleeps == old(w.sleeps) + Repeat(o.healthInterval, w.probes)
      invariant OnTime(sc, o, start) ==> w.time == sc.clock(w.nows)
      decreases last - w.probes
    {
      var t := w.Now();
      if t >= deadline {
        if OnTime(sc, o, start) { UnhealthyInTime(sc, o, start, d, w.probes); }
        return false;
      }
      if OnTime(sc, o, start) { ProbeTakes(sc, o, start, d, w.probes); }
      var healthy := w.IsHealthy(o.requestTimeout);
      if healthy { return true; }
      RepeatMore(o.healthInterval, w.probes - 1);
      w.Sleep(o.healthInterval);
    }
  }

  // ---- The outcome is determined by the script.

  ghost predicate AppliedSpec(sc: Script, o: Options) {
    exists d: nat, h: nat :: HealthyAt(sc, o, d, h)
  }

  ghost predicate FailedSpec(sc: Script, o: Options) {
    exists n: nat :: FailedAt(sc, o, n)
  }

  /** The deadline passed, ten unknown answers came in a row, or no probe before the deadline was healthy. */
  ghost predicate UnconfirmedSpec(sc: Script, o: Options) {
    (exists n: nat :: ClosedAt(sc, o, n) || LostAt(sc, o, n)) || (exists d: nat, h: nat :: UnhealthyAt(sc, o, d, h))
  }

  /** The status loop stops at one poll, for one reason. */
  lemma PollEndsOnce(sc: Script, o: Options, m: nat, n: nat)
    requires PollsOn(sc, o, m) && PollStops(sc, o, m) && PollsOn(sc, o, n) && PollStops(sc, o, n)
    ensures m == n
  {
  }

  lemma LostIsUnknown(sc: Script, o: Options, n: nat)
    requires LostAt(sc, o, n)
    ensures Reply(sc, o, n) == Some(Unknown)
  {
    assert IsUnknown(sc, o, n);
  }

  /** A poll that found the run done leaves room for no other end of the status loop, nor does a failed one. */
  lemma OneEnd(sc: Script, o: Options, m: nat, n: nat)
    ensures !(DoneAt(sc, o, m) && (FailedAt(sc, o, n) || ClosedAt(sc, o, n) || LostAt(sc, o, n)))
    ensures !(FailedAt(sc, o, m) && (ClosedAt(sc, o, n) || LostAt(sc, o, n)))
  {
    if LostAt(sc, o, n) { LostIsUnknown(sc, o, n); }
    if (DoneAt(sc, o, m) || FailedAt(sc, o, m)) && (FailedAt(sc, o, n) || ClosedAt(sc, o, n) || LostAt(sc, o, n)) {
      PollEndsOnce(sc, o, m, n);
    }
  }

  lemma HealthyOnce(sc: Script, o: Options, d: nat, h: nat, e: nat, k: nat)
    requires HealthyAt(sc, o, d, h)
    ensures !UnhealthyAt(sc, o, e, k)
  {
    if UnhealthyAt(sc, o, e, k) {
      PollEndsOnce(sc, o, d, e);
    }
  }

  /** The three outcomes exclude each other. */
  lemma OutcomesExclude(sc: Script, o: Options)
    ensures !(AppliedSpec(sc, o) && FailedSpec(sc, o))
    ensures !(AppliedSpec(sc, o) && UnconfirmedSpec(sc, o))
    ensures !(FailedSpec(sc, o) && UnconfirmedSpec(sc, o))
  {
    forall m: nat, n: nat
      ensures !(DoneAt(sc, o, m) && (FailedAt(sc, o, n) || ClosedAt(sc, o, n) || LostAt(sc, o, n)))
      ensures !(FailedAt(sc, o, m) && (ClosedAt(sc, o, n) || LostAt(sc, o, n)))
    {
      OneEnd(sc, o, m, n);
    }
    forall d: nat, h: nat, e: nat, k: nat | HealthyAt(sc, o, d, h)
      ensures !UnhealthyAt(sc, o, e, k)
    {
      HealthyOnce(sc, o, d, h, e, k);
    }
  }

  /**
   * The result, and the polls, probes and sleeps that led to it; and when the clock tells the time, the
   * latest moment it returns, and how many polls it makes at most.
   */
  method WaitForTraefikSetup(w: World, o: Options) returns (r: Result)
    requires w.nows == w.polls == w.probes == 0 && w.sleeps == []
    requires Ends(w.script, o)
    modifies w
    ensures r.Applied? <==> AppliedSpec(w.script, o)
    ensures r.SetupFailed? <==> FailedSpec(w.script, o)
    ensures r.Unconfirmed? <==> UnconfirmedSpec(w.script, o)
    ensures r.SetupFailed? ==> w.polls > 0 && w.probes == 0 && FailedAt(w.script, o, w.polls - 1)
    ensures r.SetupFailed? ==> var e := Reply(w.script, o, w.polls - 1).value.error;
                               r.error == if e.Some? && e.value != "" then FirstErrorLine(e.value) else None
    ensures r.Applied? ==> w.polls > 0 && w.probes > 0 && HealthyAt(w.script, o, w.polls - 1, w.probes - 1)
    ensures r.Unconfirmed? ==>
              || (w.probes == 0 && ClosedAt(w.script, o, w.polls))
              || (w.probes == 0 && w.polls > 0 && LostAt(w.script, o, w.polls - 1))
              || (w.polls > 0 && UnhealthyAt(w.script, o, w.polls - 1, w.probes))
    ensures var polled := if w.polls > 0 && !ClosedAt(w.script, o, w.polls) then w.polls - 1 else w.polls;
            var probed := if r.Applied? then w.probes - 1 else w.probes;
            w.sleeps == [o.initialDelay] + Repeat(o.statusInterval, polled) + Repeat(o.healthInterval, probed)
    ensures OnTime(w.script, o, old(w.time)) ==> w.time <= LatestReturn(o, old(w.time))
    ensures OnTime(w.script, o, old(w.time)) && w.polls > 0 ==> w.polls <= MostPolls(o)
  {
    hide OnTime, Repeat, PollsOn, DoneAt, FailedAt, LostAt, ClosedAt, HealthyAt, UnhealthyAt;
    hide LatestReturn, MostPolls, FirstErrorLine, WithTimeout;
    OutcomesExclude(w.script, o);
    NoPollsYet(w.script, o);
    if OnTime(w.script, o, w.time) { DelayTakes(w.script, o, w.time); }
    ghost var start := w.time;
    var now := w.Now();
    w.Sleep(o.initialDelay);
    var polled := PollStatus(w, o, now + o.timeout, start);
    if polled.FoundFailure? { return SetupFailed(polled.error); }
    if !polled.FoundDone? { return Unconfirmed; }
    var applied := ProbeHealth(w, o, now + o.timeout, start, w.polls - 1);
    return if applied then Applied else Unconfirmed;
  }

  // ---- What the outcomes mean for the requests, in so many words.

  /** The request resolved with this value, in time. */
  predicate Resolved<T(==)>(raw: Raw<T>, value: T, ms: nat) {
    raw.latency.Some? && raw.latency.value <= ms && raw.reply == Some(value)
  }

  /** Applied takes a poll that resolved as done, and behind it a probe that resolved as healthy, both in time. */
  lemma AppliedMeansAnswered(sc: Script, o: Options)
    requires AppliedSpec(sc, o)
    ensures exists d: nat :: Resolved(sc.status(d), Done, o.requestTimeout)
    ensures exists h: nat :: Resolved(sc.health(h), true, o.requestTimeout)
  {
    var d: nat, h: nat :| HealthyAt(sc, o, d, h);
    assert Resolved(sc.status(d), Done, o.requestTimeout) && Resolved(sc.health(h), true, o.requestTimeout);
  }

  /** Failed takes a poll that resolved as failed, in time. */
  lemma FailedMeansAnswered(sc: Script, o: Options)
    requires FailedSpec(sc, o)
    ensures exists n: nat, e :: Resolved(sc.status(n), Failed(e), o.requestTimeout)
  {
    var n: nat :| FailedAt(sc, o, n);
    assert Resolved(sc.status(n), Failed(Reply(sc, o, n).value.error), o.requestTimeout);
  }

  /** Nine unknown answers in a row are not yet the end: a done one and a healthy probe in time follow. */
  lemma NineUnknownsGoOn(sc: Script, o: Options)
    requires forall i: nat :: i < 9 ==> Resolved(sc.status(i), Unknown, o.requestTimeout)
    requires Resolved(sc.status(9), Done, o.requestTimeout) && Resolved(sc.health(0), true, o.requestTimeout)
    requires forall k: nat :: 1 <= k <= 11 ==> sc.clock(k) < sc.clock(0) + o.timeout
    ensures AppliedSpec(sc, o)
  {
    forall i: nat | i < 9
      ensures Open(sc, o, i) && !Answered(sc, o, i) && !TenUnknown(sc, o, i)
    {
      assert Resolved(sc.status(i), Unknown, o.requestTimeout);
    }
    assert DoneAt(sc, o, 9) && ProbeOpen(sc, o, 9, 0);
    assert HealthyAt(sc, o, 9, 0);
  }

  /** Ten unknown answers in a row, each asked in time, are. */
  lemma TenUnknownsGiveUp(sc: Script, o: Options)
    requires forall i: nat :: i < 10 ==> Resolved(sc.status(i), Unknown, o.requestTimeout)
    requires forall k: nat :: 1 <= k <= 10 ==> sc.clock(k) < sc.clock(0) + o.timeout
    ensures UnconfirmedSpec(sc, o)
  {
    forall i: nat | i < 10
      ensures Open(sc, o, i) && !Answered(sc, o, i) && IsUnknown(sc, o, i)
    {
      assert Resolved(sc.status(i), Unknown, o.requestTimeout);
    }
    assert PollsOn(sc, o, 9) && TenUnknown(sc, o, 9);
    assert LostAt(sc, o, 9);
  }

  /** The deadline is the first reading plus the timeout: at it nothing is asked any more, just before it is. */
  lemma DeadlineIsExact(sc: Script, o: Options)
    ensures sc.clock(1) >= sc.clock(0) + o.timeout ==> UnconfirmedSpec(sc, o)
    ensures forall e :: sc.clock(1) < sc.clock(0) + o.timeout && Resolved(sc.status(0), Failed(e), o.requestTimeout) ==>
              FailedSpec(sc, o)
  {
    assert sc.clock(1) >= sc.clock(0) + o.timeout ==> ClosedAt(sc, o, 0);
    forall e | sc.clock(1) < sc.clock(0) + o.timeout && Resolved(sc.status(0), Failed(e), o.requestTimeout)
      ensures FailedSpec(sc, o)
    {
      assert FailedAt(sc, o, 0);
    }
  }

  // ---- A clock that tells the time, for any requests.

  /** The first poll before `n` that answers done. */
  function FirstDone(sc: Script, o: Options, n: nat): (r: Option<nat>)
    ensures r.Some? ==> r.value < n && Reply(sc, o, r.value) == Some(Done)
    ensures forall i: nat :: i < (if r.Some? then r.value else n) ==> Reply(sc, o, i) != Some(Done)
  {
    if n == 0 then None
    else
      var d := FirstDone(sc, o, n - 1);
      if d.Some? then d else if Reply(sc, o, n - 1) == Some(Done) then Some(n - 1) else None
  }

  /** The time at reading `n` of a wait that begins at `start`. */
  function Reading(sc: Script, o: Options, start: int, n: nat): int {
    if n == 0 then start
    else if n == 1 then start + o.initialDelay
    else
      var before := Reading(sc, o, start, n - 1);
      match FirstDone(sc, o, n - 2)
      case Some(d) => before + HealthTime(sc, o, n - 3 - d) + o.healthInterval
      case None =>
        before + StatusTime(sc, o, n - 2) + if Reply(sc, o, n - 2) == Some(Done) then 0 else o.statusInterval
  }

  function WithRealClock(sc: Script, o: Options, start: int): Script {
    sc.(clock := (n: nat) => Reading(sc, o, start, n))
  }

  lemma NoneDoneBefore(sc: Script, o: Options, n: nat)
    requires PollsOn(sc, o, n)
    ensures FirstDone(sc, o, n) == None
  {
    var d := FirstDone(sc, o, n);
    assert d.Some? ==> Answered(sc, o, d.value);
  }

  lemma {:induction false} DoneFirst(sc: Script, o: Options, d: nat, n: nat)
    requires FirstDone(sc, o, d) == None && Reply(sc, o, d) == Some(Done) && d < n
    ensures FirstDone(sc, o, n) == Some(d)
  {
    if d < n - 1 {
      DoneFirst(sc, o, d, n - 1);
    }
  }

  lemma {:induction false} SameDone(sc: Script, o: Options, start: int, n: nat)
    ensures FirstDone(WithRealClock(sc, o, start), o, n) == FirstDone(sc, o, n)
  {
    if n > 0 {
      SameDone(sc, o, start, n - 1);
    }
  }

  lemma ReadsPolls(sc: Script, o: Options, start: int, i: nat)
    ensures PollTimed(WithRealClock(sc, o, start), o, i)
  {
    var timed := WithRealClock(sc, o, start);
    SameDone(sc, o, start, i);
    if PollsOn(timed, o, i) { NoneDoneBefore(timed, o, i); }
    if PollsOn(timed, o, i + 1) {
      assert PollsOn(timed, o, i) && !Answered(timed, o, i);
    }
  }

  lemma ReadsProbes(sc: Script, o: Options, start: int, d: nat, j: nat)
    ensures ProbeTimed(WithRealClock(sc, o, start), o, d, j)
  {
    hide PollsOn, ProbesOn, FirstDone;
    var timed := WithRealClock(sc, o, start);
    if DoneAt(timed, o, d) {
      NoneDoneBefore(timed, o, d);
      DoneFirst(timed, o, d, d + 1 + j);
      SameDone(sc, o, start, d + 1 + j);
      assert timed.clock(d + 3 + j) == timed.clock(d + 2 + j) + HealthTime(sc, o, j) + o.healthInterval;
    }
  }

  lemma RealClockExists(sc: Script, o: Options, start: int)
    ensures RealClock(WithRealClock(sc, o, start), o, start)
  {
    hide PollTimed, ProbeTimed;
    forall i: nat
      ensures PollTimed(WithRealClock(sc, o, start), o, i)
    {
      ReadsPolls(sc, o, start, i);
    }
    forall d: nat, j: nat
      ensures ProbeTimed(WithRealClock(sc, o, start), o, d, j)
    {
      ReadsProbes(sc, o, start, d, j);
    }
  }

  /** For any requests at all and positive intervals: the wait in real time ends, and in time. */
  method WaitInRealTime(o: Options, start: int, sc: Script) returns (r: Result, w: World)
    requires Sensible(o)
    ensures fresh(w) && w.script == WithRealClock(sc, o, start)
    ensures r.Applied? <==> AppliedSpec(w.script, o)
    ensures r.SetupFailed? <==> FailedSpec(w.script, o)
    ensures w.time <= LatestReturn(o, start)
    ensures w.polls > 0 ==> w.polls <= MostPolls(o)
  {
    w := new World(WithRealClock(sc, o, start), start);
    RealClockExists(sc, o, start);
    TimedWaitEnds(w.script, o, start);
    r := WaitForTraefikSetup(w, o);
  }

  // ---- The message shown for a failure.

  lemma {:induction false} FirstNonEmptyOfJoin(parts: seq<string>)
    requires |parts| >= 1 && forall p <- parts :: '\n' !in p
    ensures match FirstNonEmpty(parts)
            case None => Blank(Join(parts, '\n'))
            case Some(line) => line != "" && '\n' !in line && line <= TrimStart(Join(parts, '\n'))
  {
    var first, rest := parts[0], parts[1..];
    assert first in parts;
    TrimBlank(first);
    if |parts| == 1 {
      TrimBlank(first);
      assert FirstNonEmpty(rest) == None;
      assert Trim(first) <= TrimStart(first);
      var _ := TrimStartChars(first);
    } else {
      FirstNonEmptyOfJoin(rest);
      var tail := ['\n'] + Join(rest, '\n');
      assert Join(parts, '\n') == first + tail;
      if Blank(first) {
        assert Blank(['\n']);
        TrimStartSkips(first, tail);
        TrimStartSkips(['\n'], Join(rest, '\n'));
      } else {
        TrimStartAppend(first, tail);
        var _ := TrimStartChars(first);
      }
    }
  }

  /** No line is shown exactly for a blank message; otherwise the shown line starts the message's first visible text. */
  lemma FirstErrorLineIsFirst(message: string)
    ensures match FirstErrorLine(message)
            case None => Blank(message)
            case Some(line) => 0 < |line| <= 300 && '\n' !in line && line <= TrimStart(message)
  {
    JoinSplit(message, '\n');
    FirstNonEmptyOfJoin(Split(message, '\n'));
  }

  /**
   * The shown line is the first line that says anything, trimmed, up to its end or to 300 characters:
   * only blank lines come before it.
   */
  lemma FirstErrorLineIsWhole(message: string) returns (before: string, line: string, after: string)
    requires FirstErrorLine(message).Some?
    ensures message == before + line + after
    ensures Blank(before) && (before == "" || before[|before| - 1] == '\n')
    ensures '\n' !in line && (after == "" || after[0] == '\n')
    ensures var whole := Trim(line);
            whole != "" && FirstErrorLine(message) == Some(if |whole| > 300 then whole[..300] else whole)
  {
    JoinSplit(message, '\n');
    before, line, after := FirstNonEmptyIsLine(Split(message, '\n'));
  }

  lemma {:induction false} FirstNonEmptyIsLine(parts: seq<string>) returns (before: string, line: string, after: string)
    requires FirstNonEmpty(parts).Some? && forall p <- parts :: '\n' !in p
    ensures Join(parts, '\n') == before + line + after
    ensures Blank(before) && (before == "" || before[|before| - 1] == '\n')
    ensures '\n' !in line && (after == "" || after[0] == '\n')
    ensures Trim(line) != "" && FirstNonEmpty(parts) == Some(Trim(line))
  {
    hide IsSpace, TrimStart, TrimEnd;
    var first, rest := parts[0], parts[1..];
    assert first in parts;
    if Trim(first) != "" {
      before, line, after := "", first, if rest == [] then "" else "\n" + Join(rest, '\n');
    } else {
      before, line, after := FirstNonEmptyIsLine(rest);
      TrimBlank(first);
      NewlineIsSpace();
      before := first + "\n" + before;
    }
  }

  lemma NewlineIsSpace()
    ensures IsSpace('\n')
  {
  }
}
