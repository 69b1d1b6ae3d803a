/** The health state of a box (src/cli/src/health.rs, src/cli/src/boot.rs). */
module Health {
  import opened Common
  import opened Bytes

  /** Times in nanoseconds. */
  type Time = int

  type u64 = n: int | 0 <= n < 0x1_0000_0000_0000_0000

  const U32_MAX: u32 := 0xFFFF_FFFF
  const I64_MAX := 0x7FFF_FFFF_FFFF_FFFF

  datatype HealthCheck = HealthCheck(intervalSecs: u64, retries: u32, startPeriodSecs: u64)

  datatype Status = Disabled | Starting | Healthy | Unhealthy

  /** The fields of a box record that health tracking reads or writes. */
  datatype Record = Record(running: bool, healthCheck: Option<HealthCheck>, status: Status, retries: u32,
                           lastCheck: Option<Time>, startedAt: Option<Time>)

  /** `bounded_chrono_seconds`. */
  function Seconds(s: u64): Time {
    Min(s, I64_MAX) * 1_000_000_000
  }

  /** The least time between two probes. */
  function Gap(hc: HealthCheck): Time {
    Seconds(Max(1, hc.intervalSecs))
  }

  predicate ShouldProbe(r: Record, now: Time) {
    && r.healthCheck.Some? && r.running
    && (r.startedAt.Some? ==> now >= r.startedAt.value + Seconds(r.healthCheck.value.startPeriodSecs))
    && (r.lastCheck.Some? ==> now >= r.lastCheck.value + Gap(r.healthCheck.value))
  }

  function AfterProbe(r: Record, healthy: bool, at: Time): Record {
    if !r.running then r
    else if healthy then r.(status := Healthy, retries := 0, lastCheck := Some(at))
    else
      var n := Min(r.retries + 1, U32_MAX);
      var failed := r.(retries := n, lastCheck := Some(at));
      if r.healthCheck.Some? && n >= r.healthCheck.value.retries then failed.(status := Unhealthy) else failed
  }

  function AfterBoot(hc: Option<HealthCheck>, at: Time): Record {
    Record(true, hc, if hc.Some? then Starting else Disabled, 0, None, Some(at))
  }

  /** What a boot yields. */
  datatype BootResult = BootResult(pid: Option<u32>, execSocketPath: Option<string>, healthCheck: Option<HealthCheck>,
                                   stopSignal: Option<string>, anonymousVolumes: seq<string>)

  datatype RestartCountUpdate = Reset | Preserve | Increment

  /** `all` starts with `have`, holds exactly these and `more`, and repeats nothing new. */
  ghost predicate Merged(have: seq<string>, more: seq<string>, all: seq<string>) {
    && have <= all
    && (forall v :: v in all <==> v in have || v in more)
    && (NoDuplicates(have) ==> NoDuplicates(all))
  }

  class BoxRecord {
    var running: bool
    var healthCheck: Option<HealthCheck>
    var healthStatus: Status
    var healthRetries: u32
    var healthLastCheck: Option<Time>
    var startedAt: Option<Time>
    var anonymousVolumes: seq<string>
    var pid: Option<u32>
    var execSocketPath: string
    var stopSignal: Option<string>
    var stoppedByUser: bool
    var exitCode: Option<int>
    var restartCount: u32

    ghost function View(): Record
      reads this
    {
      Record(running, healthCheck, healthStatus, healthRetries, healthLastCheck, startedAt)
    }

    method ApplyProbeResult(healthy: bool, checkedAt: Time)
      modifies this`healthStatus, this`healthRetries, this`healthLastCheck
      ensures View() == AfterProbe(old(View()), healthy, checkedAt)
      ensures !running ==> View() == old(View())
    {
      if !running {
        return;
      }
      if healthy {
        healthStatus, healthRetries := Healthy, 0;
      } else {
        if healthRetries < U32_MAX {
          healthRetries := healthRetries + 1;
        }
        if healthCheck.Some? && healthRetries >= healthCheck.value.retries {
          healthStatus := Unhealthy;
        }
      }
      healthLastCheck := Some(checkedAt);
    }

    /** A boot starts a health run, forgets how the last run ended, and merges the anonymous
        volumes: the old ones stay first, every new one is there, and none is added twice.  The
        socket path is kept unless the boot names one.  The 32-bit restart count wraps. */
    method ApplyBootResult(result: BootResult, update: RestartCountUpdate, now: Time)
      modifies this
      ensures View() == AfterBoot(result.healthCheck, now)
      ensures running && healthCheck == result.healthCheck && healthRetries == 0 && healthLastCheck.None?
      ensures startedAt == Some(now) && healthStatus == if healthCheck.Some? then Starting else Disabled
      ensures pid == result.pid && stopSignal == result.stopSignal && !stoppedByUser && exitCode.None?
      ensures execSocketPath == if result.execSocketPath.Some? then result.execSocketPath.value else old(execSocketPath)
      ensures update == Reset ==> restartCount == 0
      ensures update == Preserve ==> restartCount == old(restartCount)
      ensures update == Increment ==> restartCount == if old(restartCount) == U32_MAX then 0 else old(restartCount) + 1
      ensures Merged(old(anonymousVolumes), result.anonymousVolumes, anonymousVolumes)
    {
      ForgetLastRun(result);
      StartHealthRun(result.healthCheck, now);
      anonymousVolumes := MergeVolumes(anonymousVolumes, result.anonymousVolumes);
      CountRestart(update);
    }

    method ForgetLastRun(result: BootResult)
      modifies this`pid, this`execSocketPath, this`stopSignal, this`stoppedByUser, this`exitCode
      ensures pid == result.pid && stopSignal == result.stopSignal && !stoppedByUser && exitCode.None?
      ensures execSocketPath == if result.execSocketPath.Some? then result.execSocketPath.value else old(execSocketPath)
    {
      pid := result.pid;
      if result.execSocketPath.Some? {
        execSocketPath := result.execSocketPath.value;
      }
      stopSignal, stoppedByUser, exitCode := result.stopSignal, false, None;
    }

    method CountRestart(update: RestartCountUpdate)
      modifies this`restartCount
      ensures update == Reset ==> restartCount == 0
      ensures update == Preserve ==> restartCount == old(restartCount)
      ensures update == Increment ==> restartCount == if old(restartCount) == U32_MAX then 0 else old(restartCount) + 1
    {
      match update {
        case Reset => restartCount := 0;
        case Preserve =>
        case Increment => restartCount := if restartCount == U32_MAX then 0 else restartCount + 1;
      }
    }

    method StartHealthRun(hc: Option<HealthCheck>, now: Time)
      modifies this`running, this`healthCheck, this`startedAt
      modifies this`healthStatus, this`healthRetries, this`healthLastCheck
      ensures View() == AfterBoot(hc, now)
    {
      running, healthCheck := true, hc;
      healthStatus := if hc.Some? then Starting else Disabled;
      healthRetries, healthLastCheck, startedAt := 0, None, Some(now);
    }
  }

  method MergeVolumes(have: seq<string>, more: seq<string>) returns (all: seq<string>)
    ensures Merged(have, more, all)
  {
    all := have;
    for i := 0 to |more|
      invariant have <= all
      invariant forall v :: v in all <==> v in have || v in more[..i]
      invariant NoDuplicates(have) ==> NoDuplicates(all)
    {
      if more[i] !in all {
        all := all + [more[i]];
      }
    }
  }

  // ---------------------------------------------------------------- every probe sequence

  datatype Probe = Probe(healthy: bool, at: Time)

  function After(hc: HealthCheck, boot: Time, probes: seq<Probe>, k: nat): Record
    requires k <= |probes|
  {
    if k == 0 then AfterBoot(Some(hc), boot)
    else AfterProbe(After(hc, boot, probes, k - 1), probes[k - 1].healthy, probes[k - 1].at)
  }

  /** How many probes in a row failed just before probe `k`. */
  function Trailing(probes: seq<Probe>, k: nat): nat
    requires k <= |probes|
  {
    if k == 0 || probes[k - 1].healthy then 0 else Trailing(probes, k - 1) + 1
  }

  ghost predicate AnyHealthy(probes: seq<Probe>, k: nat)
    requires k <= |probes|
  {
    exists i :: 0 <= i < k && probes[i].healthy
  }

  /** What the status means, as a function of the whole probe history since the boot. */
  ghost function StatusOf(hc: HealthCheck, probes: seq<Probe>, k: nat): Status
    requires k <= |probes|
  {
    if Trailing(probes, k) >= Max(1, hc.retries) then Unhealthy
    else if AnyHealthy(probes, k) then Healthy
    else Starting
  }

  /** After a boot with a health check, for every probe sequence on a running box, the retry
      counter is the number of trailing failures, capped, and the status is the one above. */
  lemma {:induction false} HealthIsHistory(hc: HealthCheck, boot: Time, probes: seq<Probe>, k: nat)
    requires k <= |probes|
    ensures var r := After(hc, boot, probes, k);
            && r.running && r.healthCheck == Some(hc) && r.startedAt == Some(boot)
            && r.retries == Min(Trailing(probes, k), U32_MAX)
            && r.status == StatusOf(hc, probes, k)
            && r.lastCheck == if k == 0 then None else Some(probes[k - 1].at)
  {
    if k > 0 {
      HealthIsHistory(hc, boot, probes, k - 1);
      if probes[k - 1].healthy {
        assert AnyHealthy(probes, k);
      } else {
        assert AnyHealthy(probes, k) <==> AnyHealthy(probes, k - 1);
      }
    }
  }

  // ---------------------------------------------------------------- probes gated by the clock

  /** One look of the monitor: it decides at `now` and, if due, applies the result at `checked`. */
  datatype Tick = Tick(now: Time, checked: Time, healthy: bool)

  function AfterTick(r: Record, t: Tick): Record {
    if ShouldProbe(r, t.now) then AfterProbe(r, t.healthy, t.checked) else r
  }

  ghost predicate IsRun(hc: HealthCheck, boot: Time, states: seq<Record>, ticks: seq<Tick>) {
    && |states| == |ticks| + 1 && states[0] == AfterBoot(Some(hc), boot)
    && forall i :: 0 <= i < |ticks| ==> states[i + 1] == AfterTick(states[i], ticks[i])
  }

  ghost predicate Monotone(ticks: seq<Tick>) {
    && (forall i :: 0 <= i < |ticks| ==> ticks[i].now <= ticks[i].checked)
    && (forall i, j :: 0 <= i < j < |ticks| ==> ticks[i].checked <= ticks[j].now)
  }

  lemma {:induction false} LastCheckAfter(hc: HealthCheck, boot: Time, states: seq<Record>, ticks: seq<Tick>,
                                          i: nat, k: nat)
    requires IsRun(hc, boot, states, ticks) && Monotone(ticks) && i < k <= |ticks|
    requires states[i].running && ShouldProbe(states[i], ticks[i].now)
    ensures states[k].lastCheck.Some? && states[k].lastCheck.value >= ticks[i].checked
  {
    if i < k - 1 {
      LastCheckAfter(hc, boot, states, ticks, i, k - 1);
    }
  }

  lemma {:induction false} RunKeepsSetup(hc: HealthCheck, boot: Time, states: seq<Record>, ticks: seq<Tick>, k: nat)
    requires IsRun(hc, boot, states, ticks) && k <= |ticks|
    ensures states[k].running && states[k].healthCheck == Some(hc) && states[k].startedAt == Some(boot)
  {
    if k > 0 {
      RunKeepsSetup(hc, boot, states, ticks, k - 1);
    }
  }

  /** Under a monotone clock any two probes are at least the interval apart, counted from the end
      of the first. */
  lemma ProbesAreSpaced(hc: HealthCheck, boot: Time, states: seq<Record>, ticks: seq<Tick>, i: nat, j: nat)
    requires IsRun(hc, boot, states, ticks) && Monotone(ticks) && i < j < |ticks|
    requires ShouldProbe(states[i], ticks[i].now) && ShouldProbe(states[j], ticks[j].now)
    ensures ticks[j].now >= ticks[i].checked + Gap(hc)
    ensures Gap(hc) >= 1_000_000_000
    ensures hc.intervalSecs <= I64_MAX ==> Gap(hc) == Max(1, hc.intervalSecs) * 1_000_000_000
  {
    RunKeepsSetup(hc, boot, states, ticks, i);
    RunKeepsSetup(hc, boot, states, ticks, j);
    LastCheckAfter(hc, boot, states, ticks, i, j);
  }

  /** The recorded check is that of the latest probe, if there was one. */
  lemma {:induction false} LastCheckIs(hc: HealthCheck, boot: Time, states: seq<Record>, ticks: seq<Tick>, k: nat)
    requires IsRun(hc, boot, states, ticks) && k <= |ticks|
    ensures states[k].lastCheck.Some? ==>
      exists i :: 0 <= i < k && ShouldProbe(states[i], ticks[i].now) && states[k].lastCheck == Some(ticks[i].checked)
  {
    if k > 0 {
      LastCheckIs(hc, boot, states, ticks, k - 1);
    }
  }

  /** Under a monotone clock a probe is due exactly when the start period is over and the interval
      has passed since the end of every earlier probe. */
  lemma DueExactlyWhen(hc: HealthCheck, boot: Time, states: seq<Record>, ticks: seq<Tick>, k: nat)
    requires IsRun(hc, boot, states, ticks) && Monotone(ticks) && k < |ticks|
    ensures ShouldProbe(states[k], ticks[k].now) <==>
      && ticks[k].now >= boot + Seconds(hc.startPeriodSecs)
      && forall i :: 0 <= i < k && ShouldProbe(states[i], ticks[i].now) ==> ticks[k].now >= ticks[i].checked + Gap(hc)
  {
    RunKeepsSetup(hc, boot, states, ticks, k);
    LastCheckIs(hc, boot, states, ticks, k);
    if ShouldProbe(states[k], ticks[k].now) {
      forall i | 0 <= i < k && ShouldProbe(states[i], ticks[i].now)
        ensures ticks[k].now >= ticks[i].checked + Gap(hc)
      {
        ProbesAreSpaced(hc, boot, states, ticks, i, k);
      }
    }
  }

  /** A box without a health check is never probed, and its status never becomes unhealthy; a box
      that is not running is not probed, and a late result leaves it as it is. */
  lemma NothingToProbe(r: Record, now: Time, healthy: bool)
    ensures r.healthCheck.None? || !r.running ==> !ShouldProbe(r, now)
    ensures r.healthCheck.None? && r.status != Unhealthy ==> AfterProbe(r, healthy, now).status != Unhealthy
    ensures !r.running ==> AfterProbe(r, healthy, now) == r
  {}
}
