/** One metrics collection at a time, one metric per service: the guard and the loop of the monitor. */
module ContainerMonitor {
  import opened Wrappers
  import opened Text

  // ---- Which containers are monitored, and under which name.

  datatype Config = Config(includeServices: seq<string>, excludeServices: seq<string>)

  /** The first loop of `ShouldMonitorContainer`, then the second: exclusion wins, an empty include list admits all. */
  method ShouldMonitorContainer(config: Option<Config>, name: string) returns (r: bool)
    ensures r == Monitored(config, name)
  {
    if config.None? { return false; }
    var excluded, included := config.value.excludeServices, config.value.includeServices;
    for i := 0 to |excluded|
      invariant forall j :: 0 <= j < i ==> !Contains(name, excluded[j])
    {
      if Contains(name, excluded[i]) { return false; }
    }
    if |included| > 0 {
      for i := 0 to |included|
        invariant forall j :: 0 <= j < i ==> !Contains(name, included[j])
      {
        if Contains(name, included[i]) { return true; }
      }
      return false;
    }
    return true;
  }

  predicate Monitored(config: Option<Config>, name: string) {
    && config.Some?
    && (forall e <- config.value.excludeServices :: !Contains(name, e))
    && (config.value.includeServices == [] || exists i <- config.value.includeServices :: Contains(name, i))
  }

  /** One of the words occurs in the name. */
  ghost predicate OneOccurs(name: string, words: seq<string>) {
    exists w <- words, i: nat :: OccursAt(name, w, i)
  }

  /** In substrings: an excluded word admits nothing, an empty include list everything else, another what it names. */
  lemma MonitoredInWords(config: Option<Config>, name: string)
    ensures config == None ==> !Monitored(config, name)
    ensures config.Some? && OneOccurs(name, config.value.excludeServices) ==> !Monitored(config, name)
    ensures config.Some? && !OneOccurs(name, config.value.excludeServices) && config.value.includeServices == [] ==>
              Monitored(config, name)
    ensures config.Some? && !OneOccurs(name, config.value.excludeServices) && config.value.includeServices != [] ==>
              (Monitored(config, name) <==> OneOccurs(name, config.value.includeServices))
  {
    hide OccursAt, Contains;
    forall word
      ensures Contains(name, word) <==> exists i: nat :: OccursAt(name, word, i)
    {
      ContainsMeansOccurs(name, word);
    }
  }

  /** The deduplication key: the name without its leading slash and without a swarm task suffix. */
  function GetServiceName(containerName: string): string {
    var name := if containerName != "" && containerName[0] == '/' then containerName[1..] else containerName;
    var dot := IndexOf(name, '.');
    if dot != -1 then name[..dot] else name
  }

  /** Replicas `service.1.x` and `service.2.y` share a key; names that differ before the dot do not. */
  lemma ServiceNameIsTaskPrefix(service: string, task: string)
    requires '.' !in service && (service == "" || service[0] != '/')
    ensures GetServiceName(service) == service
    ensures service != "" ==> GetServiceName(service + "." + task) == service
    ensures GetServiceName("/" + service + "." + task) == service
  {
    IndexOfAt(service, '.', task);
    var full := service + "." + task;
    assert full[..|service|] == service;
    assert ("/" + full)[1..] == full && "/" + service + "." + task == "/" + full;
  }

  // ---- One collection.

  /** What a line of `docker stats` is: `parse` gives the container name, None when the JSON is bad. */
  type Parse = string -> Option<string>

  /** The service a line is stored under, if it is stored at all. */
  function Service(config: Option<Config>, parse: Parse, line: string): Option<string> {
    if line == "" then None
    else
      match parse(line)
      case None => None
      case Some(name) => if Monitored(config, name) then Some(GetServiceName(name)) else None
  }

  /** Line `i` is the earliest of its service. */
  predicate Earliest(config: Option<Config>, parse: Parse, lines: seq<string>, i: nat)
    requires i < |lines|
  {
    var s := Service(config, parse, lines[i]);
    s.Some? && forall j :: 0 <= j < i ==> Service(config, parse, lines[j]) != s
  }

  /** The positions whose metrics are saved. */
  function Saved(config: Option<Config>, parse: Parse, lines: seq<string>, n: nat): (r: seq<nat>)
    requires n <= |lines|
    ensures forall a :: 0 <= a < |r| ==> r[a] < n
  {
    if n == 0 then []
    else Saved(config, parse, lines, n - 1) + if Earliest(config, parse, lines, n - 1) then [n - 1] else []
  }

  /** The loop over the lines: the positions that a save was attempted for. Whether a save fails changes nothing. */
  method CollectLines(config: Option<Config>, parse: Parse, lines: seq<string>) returns (saves: seq<nat>)
    ensures saves == Saved(config, parse, lines, |lines|)
  {
    saves := [];
    var seenServices: set<string> := {};
    for i := 0 to |lines|
      invariant saves == Saved(config, parse, lines, i)
      invariant forall s :: s in seenServices <==> exists j :: 0 <= j < i && Service(config, parse, lines[j]) == Some(s)
    {
      if lines[i] == "" { continue; }
      var name := parse(lines[i]);
      if name.None? { continue; }
      var monitored := ShouldMonitorContainer(config, name.value);
      if !monitored { continue; }
      var serviceName := GetServiceName(name.value);
      if serviceName in seenServices { continue; }
      seenServices := seenServices + {serviceName};
      saves := saves + [i];
    }
  }

  /** `collectMetrics` past the guard: a failing command or empty output saves nothing. */
  method CollectMetrics(config: Option<Config>, parse: Parse, commandFailed: bool, output: string)
    returns (saves: seq<nat>)
    ensures saves == if commandFailed then [] else Saved(config, parse, Split(output, '\n'), |Split(output, '\n')|)
  {
    if commandFailed { return []; }
    if output == "" {
      assert Split("", '\n') == [""];
      return [];
    }
    saves := CollectLines(config, parse, Split(output, '\n'));
  }

  lemma {:induction false} SavedPositions(config: Option<Config>, parse: Parse, lines: seq<string>, n: nat)
    requires n <= |lines|
    ensures forall i :: i in Saved(config, parse, lines, n) <==> 0 <= i < n && Earliest(config, parse, lines, i)
  {
    hide Earliest;
    if n > 0 {
      SavedPositions(config, parse, lines, n - 1);
    }
  }

  predicate Increasing(s: seq<nat>) {
    forall a, b :: 0 <= a < b < |s| ==> s[a] < s[b]
  }

  lemma {:induction false} SavedIncreasing(config: Option<Config>, parse: Parse, lines: seq<string>, n: nat)
    requires n <= |lines|
    ensures Increasing(Saved(config, parse, lines, n))
  {
    hide Earliest;
    if n > 0 {
      var front := Saved(config, parse, lines, n - 1);
      SavedIncreasing(config, parse, lines, n - 1);
      assert Increasing(front + [n - 1]);
      assert front + [] == front;
    }
  }

  lemma {:induction false} EarliestExists(config: Option<Config>, parse: Parse, lines: seq<string>, i: nat)
    returns (k: nat)
    requires i < |lines| && Service(config, parse, lines[i]).Some?
    ensures k <= i && Earliest(config, parse, lines, k)
    ensures Service(config, parse, lines[k]) == Service(config, parse, lines[i])
  {
    if Earliest(config, parse, lines, i) {
      k := i;
    } else {
      var j :| 0 <= j < i && Service(config, parse, lines[j]) == Service(config, parse, lines[i]);
      k := EarliestExists(config, parse, lines, j);
    }
  }

  /** The services of the saved lines, in order. */
  function SavedServices(config: Option<Config>, parse: Parse, lines: seq<string>): (r: seq<Option<string>>)
    ensures |r| == |Saved(config, parse, lines, |lines|)|
  {
    var saves := Saved(config, parse, lines, |lines|);
    seq(|saves|, a requires 0 <= a < |saves| => Service(config, parse, lines[saves[a]]))
  }

  lemma SavedServicesDiffer(config: Option<Config>, parse: Parse, lines: seq<string>, a: nat, b: nat)
    requires a < b < |SavedServices(config, parse, lines)|
    ensures SavedServices(config, parse, lines)[a] != SavedServices(config, parse, lines)[b]
  {
    var saves := Saved(config, parse, lines, |lines|);
    SavedIncreasing(config, parse, lines, |lines|);
    SavedPositions(config, parse, lines, |lines|);
    assert saves[b] in saves && saves[a] < saves[b];
  }

  lemma ServiceIsSaved(config: Option<Config>, parse: Parse, lines: seq<string>, i: nat)
    requires i < |lines| && Service(config, parse, lines[i]).Some?
    ensures Service(config, parse, lines[i]) in SavedServices(config, parse, lines)
  {
    var saves, services := Saved(config, parse, lines, |lines|), SavedServices(config, parse, lines);
    SavedPositions(config, parse, lines, |lines|);
    var k := EarliestExists(config, parse, lines, i);
    assert k in saves;
    var a :| 0 <= a < |saves| && saves[a] == k;
    assert services[a] == Service(config, parse, lines[i]);
  }

  /** One save for each service that has a monitored line: that of its earliest line, and no other. */
  lemma OneSavePerService(config: Option<Config>, parse: Parse, lines: seq<string>, service: string)
    ensures var services := SavedServices(config, parse, lines);
            && (forall a, b :: 0 <= a < b < |services| ==> services[a] != services[b])
            && (Some(service) in services <==> exists line <- lines :: Service(config, parse, line) == Some(service))
  {
    var saves, services := Saved(config, parse, lines, |lines|), SavedServices(config, parse, lines);
    forall a, b | 0 <= a < b < |services|
      ensures services[a] != services[b]
    {
      SavedServicesDiffer(config, parse, lines, a, b);
    }
    if a :| 0 <= a < |services| && services[a] == Some(service) {
      assert lines[saves[a]] in lines;
    }
    if i :| 0 <= i < |lines| && Service(config, parse, lines[i]) == Some(service) {
      ServiceIsSaved(config, parse, lines, i);
    }
  }

  // ---- The same on lines and names.

  /** The line names a monitored container of this service. */
  predicate Reports(config: Option<Config>, parse: Parse, line: string, service: string) {
    && line != "" && parse(line).Some? && Monitored(config, parse(line).value)
    && GetServiceName(parse(line).value) == service
  }

  /** A line is saved exactly when it names a monitored container and no earlier line does for the same service. */
  lemma SavedLines(config: Option<Config>, parse: Parse, lines: seq<string>, i: nat)
    requires i < |lines|
    ensures i in Saved(config, parse, lines, |lines|)
            <==> exists service :: Reports(config, parse, lines[i], service)
                                   && forall j :: 0 <= j < i ==> !Reports(config, parse, lines[j], service)
  {
    hide Monitored, GetServiceName, Saved;
    SavedPositions(config, parse, lines, |lines|);
    forall j: nat, service | j < |lines|
      ensures Reports(config, parse, lines[j], service) <==> Service(config, parse, lines[j]) == Some(service)
    {
    }
    var s := Service(config, parse, lines[i]);
    if s.Some? {
      assert Reports(config, parse, lines[i], s.value);
    }
  }

  /** Two replicas of a monitored service are stored once. */
  lemma ReplicasAreSavedOnce(
    config: Option<Config>, parse: Parse, a: string, b: string, service: string, x: string, y: string)
    requires a != "" && b != "" && '.' !in service && service != "" && service[0] != '/'
    requires parse(a) == Some(service + "." + x) && parse(b) == Some(service + "." + y)
    requires Monitored(config, service + "." + x) && Monitored(config, service + "." + y)
    ensures Saved(config, parse, [a, b], 2) == [0]
  {
    hide Monitored, GetServiceName;
    ServiceNameIsTaskPrefix(service, x);
    ServiceNameIsTaskPrefix(service, y);
    assert Service(config, parse, a) == Service(config, parse, b) == Some(service);
    assert Earliest(config, parse, [a, b], 0) && !Earliest(config, parse, [a, b], 1);
    assert Saved(config, parse, [a, b], 1) == [] + [0];
  }

  // ---- The guard.

  /** Where a goroutine is in `collectMetrics`. */
  datatype Pc =
    | Outside                // not in the call
    | Entering               // holds the mutex, has not looked at the flag
    | Skipping | Admitted    // holds the mutex, has looked
    | Collecting             // past the guard
    | Leaving                // the deferred function waits for the mutex
    | Clearing | Cleared     // holds the mutex again, before and after clearing the flag

  datatype Monitor = Monitor(owner: Option<nat>, isRunning: bool, pcs: seq<Pc>)

  /** One step of goroutine `t`; one that waits for the mutex stays where it is. */
  function Step(m: Monitor, t: nat): Monitor {
    if t >= |m.pcs| then m
    else
      match m.pcs[t]
      case Outside => if m.owner.Some? then m else m.(owner := Some(t), pcs := m.pcs[t := Entering])
      case Entering =>
        if m.isRunning then m.(pcs := m.pcs[t := Skipping]) else m.(isRunning := true, pcs := m.pcs[t := Admitted])
      case Skipping => m.(owner := None, pcs := m.pcs[t := Outside])
      case Admitted => m.(owner := None, pcs := m.pcs[t := Collecting])
      case Collecting => m.(pcs := m.pcs[t := Leaving])
      case Leaving => if m.owner.Some? then m else m.(owner := Some(t), pcs := m.pcs[t := Clearing])
      case Clearing => m.(isRunning := false, pcs := m.pcs[t := Cleared])
      case Cleared => m.(owner := None, pcs := m.pcs[t := Outside])
  }

  function Schedule(m: Monitor, turns: seq<nat>): Monitor
    decreases |turns|
  {
    if turns == [] then m else Schedule(Step(m, turns[0]), turns[1..])
  }

  function Idle(goroutines: nat): Monitor {
    Monitor(None, false, seq(goroutines, _ => Outside))
  }

  predicate Holds(pc: Pc) {
    pc.Entering? || pc.Skipping? || pc.Admitted? || pc.Clearing? || pc.Cleared?
  }

  /** The goroutine has set the flag and has not cleared it. */
  predicate Active(pc: Pc) {
    pc.Admitted? || pc.Collecting? || pc.Leaving? || pc.Clearing?
  }

  ghost predicate Inv(m: Monitor) {
    && (forall t :: 0 <= t < |m.pcs| ==> (Holds(m.pcs[t]) <==> m.owner == Some(t)))
    && (forall t, u :: 0 <= t < u < |m.pcs| ==> !(Active(m.pcs[t]) && Active(m.pcs[u])))
    && (m.isRunning <==> exists t :: 0 <= t < |m.pcs| && Active(m.pcs[t]))
  }

  lemma StepKeepsInv(m: Monitor, t: nat)
    requires Inv(m)
    ensures Inv(Step(m, t))
  {
    if t < |m.pcs| {
      var n := Step(m, t);
      assert forall u :: 0 <= u < |m.pcs| && u != t ==> n.pcs[u] == m.pcs[u];
      if m.isRunning {
        var u :| 0 <= u < |m.pcs| && Active(m.pcs[u]);
        assert u == t || Active(n.pcs[u]);
      }
      assert Active(n.pcs[t]) ==> n.isRunning;
    }
  }

  lemma {:induction false} ScheduleKeepsInv(m: Monitor, turns: seq<nat>)
    requires Inv(m)
    ensures Inv(Schedule(m, turns)) && |Schedule(m, turns).pcs| == |m.pcs|
    decreases |turns|
  {
    if turns != [] {
      StepKeepsInv(m, turns[0]);
      ScheduleKeepsInv(Step(m, turns[0]), turns[1..]);
    }
  }

  /**
   * Under any schedule of any number of callers, no two are past the guard at once, and the flag is
   * never left set: when nobody is active it is clear, and the next caller is admitted.
   */
  lemma CollectionsNeverOverlap(goroutines: nat, turns: seq<nat>)
    ensures var m := Schedule(Idle(goroutines), turns);
            && (forall t, u :: 0 <= t < u < |m.pcs| ==> !(m.pcs[t].Collecting? && m.pcs[u].Collecting?))
            && ((forall t :: 0 <= t < |m.pcs| ==> !Active(m.pcs[t])) ==> !m.isRunning)
            && (forall t: nat :: t < |m.pcs| && m.pcs[t].Entering? ==>
                  (Step(m, t).pcs[t].Admitted? <==> forall u :: 0 <= u < |m.pcs| ==> !Active(m.pcs[u])))
  {
    ScheduleKeepsInv(Idle(goroutines), turns);
  }

  lemma FlagMove(m: Monitor, t: nat)
    requires Inv(m) && t < |m.pcs|
    ensures var n := Step(m, t);
            && (!m.isRunning && n.isRunning <==> !Active(m.pcs[t]) && Active(n.pcs[t]))
            && (m.isRunning && !n.isRunning <==> Active(m.pcs[t]) && !Active(n.pcs[t]))
  {
    if m.pcs[t].Clearing? { assert Active(m.pcs[t]); }
  }

  /** Under any schedule the flag goes up exactly when a caller is admitted, and down exactly when it is done. */
  lemma OnlyAdmittedCallersMoveTheFlag(goroutines: nat, turns: seq<nat>, t: nat)
    requires t < goroutines
    ensures var m := Schedule(Idle(goroutines), turns);
            var n := Step(m, t);
            && t < |m.pcs| == |n.pcs|
            && (!m.isRunning && n.isRunning <==> !Active(m.pcs[t]) && Active(n.pcs[t]))
            && (m.isRunning && !n.isRunning <==> Active(m.pcs[t]) && !Active(n.pcs[t]))
  {
    ScheduleKeepsInv(Idle(goroutines), turns);
    FlagMove(Schedule(Idle(goroutines), turns), t);
  }

  // ---- Skipped callers.

  /** A turn of `t` that is not the one that admits it. */
  predicate Skips(m: Monitor, t: nat)
    requires t < |m.pcs|
  {
    m.pcs[t].Outside? || m.pcs[t].Skipping? || (m.pcs[t].Entering? && m.isRunning)
  }

  /** In the whole schedule `t` may call any number of times, and is skipped each time. */
  predicate OnlySkipped(m: Monitor, turns: seq<nat>, t: nat)
    requires t < |m.pcs|
    decreases |turns|
  {
    turns == [] || ((turns[0] == t ==> Skips(m, t)) && OnlySkipped(Step(m, turns[0]), turns[1..], t))
  }

  /** The schedule without the turns of `t`, and without the turns in which another caller only waited. */
  function WithoutCaller(m: Monitor, turns: seq<nat>, t: nat): seq<nat>
    decreases |turns|
  {
    if turns == [] then []
    else
      var rest := WithoutCaller(Step(m, turns[0]), turns[1..], t);
      if turns[0] == t || Step(m, turns[0]) == m then rest else [turns[0]] + rest
  }

  /** The two differ in caller `t` and the mutex it holds, and in nothing else. */
  predicate SameButFor(m: Monitor, n: Monitor, t: nat) {
    && |n.pcs| == |m.pcs| && n.isRunning == m.isRunning
    && n.owner == (if m.owner == Some(t) then None else m.owner)
    && t < |m.pcs| && n.pcs == m.pcs[t := Outside]
  }

  lemma SkippedStep(m: Monitor, n: Monitor, t: nat)
    requires Inv(m) && SameButFor(m, n, t) && Skips(m, t)
    ensures SameButFor(Step(m, t), n, t)
  {
    assert Step(m, t).pcs[t := Outside] == m.pcs[t := Outside];
  }

  lemma OtherStep(m: Monitor, n: Monitor, t: nat, u: nat)
    requires Inv(m) && SameButFor(m, n, t) && u != t
    ensures SameButFor(Step(m, u), if Step(m, u) == m then n else Step(n, u), t)
  {
    if u < |m.pcs| {
      var pc := Step(m, u).pcs[u];
      assert n.pcs[u] == m.pcs[u];
      assert m.pcs[u := pc][t := Outside] == m.pcs[t := Outside][u := pc];
      if Step(m, u) != m {
        assert Step(n, u).pcs[u] == pc;
      }
    }
  }

  lemma {:induction false} SkippedRun(m: Monitor, n: Monitor, turns: seq<nat>, t: nat)
    requires Inv(m) && SameButFor(m, n, t) && OnlySkipped(m, turns, t)
    ensures SameButFor(Schedule(m, turns), Schedule(n, WithoutCaller(m, turns, t)), t)
    ensures t !in WithoutCaller(m, turns, t)
    decreases |turns|
  {
    hide SameButFor, Inv, Step;
    if turns != [] {
      var u, rest := turns[0], turns[1..];
      var next := Step(m, u);
      StepKeepsInv(m, u);
      var later := WithoutCaller(next, rest, t);
      if u == t {
        SkippedStep(m, n, t);
        SkippedRun(next, n, rest, t);
      } else if next == m {
        SkippedRun(m, n, rest, t);
      } else {
        OtherStep(m, n, t, u);
        SkippedRun(next, Step(n, u), rest, t);
        assert ([u] + later)[1..] == later;
      }
    }
  }

  /**
   * Under any schedule, a caller that is only ever skipped changes nothing for anybody: the flag and
   * every other caller end up where a schedule without it leads, and so does everything once it is out.
   */
  lemma SkippedCallerChangesNothing(m: Monitor, turns: seq<nat>, t: nat)
    requires Inv(m) && t < |m.pcs| && m.pcs[t].Outside? && OnlySkipped(m, turns, t)
    ensures var with, without := Schedule(m, turns), Schedule(m, WithoutCaller(m, turns, t));
            && t !in WithoutCaller(m, turns, t)
            && with.isRunning == without.isRunning && |with.pcs| == |without.pcs| == |m.pcs|
            && (forall u :: 0 <= u < |m.pcs| && u != t ==> with.pcs[u] == without.pcs[u])
            && (with.pcs[t].Outside? ==> with == without)
  {
    assert m.pcs[t := Outside] == m.pcs;
    SkippedRun(m, m, turns, t);
    ScheduleKeepsInv(m, turns);
    var with := Schedule(m, turns);
    if with.pcs[t].Outside? {
      assert with.owner != Some(t);
      assert with.pcs[t := Outside] == with.pcs;
    }
  }
}
