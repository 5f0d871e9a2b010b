/**
  One call of `Pacer::wait`, written as the loop it is, while other threads act on the same pacer. The call is
  tied to the machine of `Pacing`: what it does to the shared deadline is a run of that machine.
 */
module PacerObjects {
  import opened Basics
  import opened Pacing

  const SLEEP_HEADROOM_NANOS: nat := 200_000
  const SLEEP_THRESHOLD_NANOS: nat := 1_000_000

  /** The steps of one thread. */
  function Own(steps: seq<Step>, t: nat): seq<Step> {
    if steps == [] then [] else
      var n := |steps| - 1;
      Own(steps[..n], t) + if steps[n].t == t then [steps[n]] else []
  }

  lemma OwnOneMore(steps: seq<Step>, s: Step, t: nat)
    ensures Own(steps + [s], t) == Own(steps, t) + if s.t == t then [s] else []
  {
    assert (steps + [s])[..|steps|] == steps;
  }

  /** Failed exchanges and then the one that succeeds. */
  predicate IsReservation(steps: seq<Step>, t: nat) {
    && steps != [] && steps[|steps| - 1] == Exchange(t)
    && forall k :: 0 <= k < |steps| - 1 ==> steps[k].Fail? && steps[k].t == t
  }

  /** The steps of one call, in order. */
  ghost predicate IsCall(steps: seq<Step>, t: nat, entered: U64, loaded: U64, at: U64) {
    exists reservation ::
      IsReservation(reservation, t) && steps == [Enter(t, entered, loaded)] + reservation + [Return(t, at)]
  }

  /**
    What happens around one exchange: other threads take steps first, the exchange may fail for no reason, and
    a failed exchange may report any value.
   */
  datatype Disturbance = Disturbance(others: seq<Step>, spurious: bool, reported: U64)

  const CALM: Disturbance := Disturbance([], false, 0)

  /** The thread holds its own grant. */
  predicate Granted(c: Config, t: nat, g: Grant) {
    && t in c.threads && c.threads[t].Holding? && c.threads[t].sent == g.sent
    && c.threads[t].grant < |c.grants| && c.grants[c.threads[t].grant] == g
  }

  /** The thread is where it was. */
  predicate SameThread(a: Config, b: Config, t: nat) {
    (t in a.threads <==> t in b.threads) && (t in a.threads ==> a.threads[t] == b.threads[t])
  }

  lemma StepOfOther(interval: U64, c: Config, s: Step, t: nat)
    requires Enabled(c, s) && s.t != t
    ensures SameThread(c, Next(interval, c, s), t) && c.grants <= Next(interval, c, s).grants
  {
  }

  /**
    The monotonic clock since the pacer was made. It may stand still for some readings, given by `stalls`, and
    a sleep may last longer than asked, by `late`. `readings` counts how often it was read.
   */
  class Clock {
    var now: U64
    var stalls: nat
    var late: seq<nat>
    ghost var readings: nat

    constructor (now: U64, stalls: nat, late: seq<nat>)
      ensures this.now == now && this.stalls == stalls && this.late == late && readings == 0
    {
      this.now, this.stalls, this.late, this.readings := now, stalls, late, 0;
    }

    method Read() returns (r: U64)
      modifies this
      ensures r == now && now == (if old(stalls) > 0 then old(now) else Min(old(now) + 1, U64_MAX))
      ensures stalls == Max(old(stalls) - 1, 0) && late == old(late) && readings == old(readings) + 1
    {
      readings := readings + 1;
      if stalls > 0 {
        stalls := stalls - 1;
      } else {
        now := Min(now + 1, U64_MAX);
      }
      r := now;
    }

    method Sleep(nanos: nat)
      modifies this
      ensures now == SaturatingAdd(old(now), nanos + if old(late) == [] then 0 else old(late)[0])
      ensures late == (if old(late) == [] then [] else old(late)[1..])
      ensures stalls == old(stalls) && readings == old(readings)
    {
      var extra := if late == [] then 0 else late[0];
      late := if late == [] then [] else late[1..];
      now := Min(now + nanos + extra, U64_MAX);
    }
  }

  /** What a thread has done when its reservation follows its entry. */
  lemma CallIs(before: seq<Step>, reserved: seq<Step>, t: nat, entered: U64, loaded: U64, at: U64)
    requires before + [Enter(t, entered, loaded)] <= reserved && IsReservation(reserved[|before| + 1..], t)
    ensures exists call :: reserved + [Return(t, at)] == before + call && IsCall(call, t, entered, loaded, at)
  {
    var reservation := reserved[|before| + 1..];
    var call := [Enter(t, entered, loaded)] + reservation + [Return(t, at)];
    assert reserved == before + [Enter(t, entered, loaded)] + reservation;
    assert reserved + [Return(t, at)] == before + call;
    assert IsCall(call, t, entered, loaded, at);
  }

  function Sum(late: seq<nat>): nat {
    if late == [] then 0 else late[0] + Sum(late[1..])
  }

  /** The pacer as all threads see it. `plan` says what the other threads do; after it, nobody interferes. */
  class SharedPacer {
    const interval: U64
    var config: Config
    var plan: seq<Disturbance>
    ghost var log: seq<Step>

    ghost predicate Valid()
      reads this
    {
      Execution(interval, log) && Final(interval, log) == config
    }

    constructor (interval: U64, plan: seq<Disturbance>)
      ensures Valid() && this.interval == interval && this.plan == plan && config == INITIAL && log == []
    {
      this.interval, this.config, this.plan, this.log := interval, INITIAL, plan, [];
    }

    /** One atomic step. */
    method Do(s: Step)
      requires Valid() && Enabled(config, s)
      modifies this`config, this`log
      ensures Valid() && config == Next(interval, old(config), s)
      ensures log == old(log) + [s]
      ensures forall t :: Own(log, t) == Own(old(log), t) + if s.t == t then [s] else []
    {
      hide Enabled, Next;
      OneMoreStep(interval, log, s);
      forall t ensures Own(log + [s], t) == Own(log, t) + if s.t == t then [s] else [] {
        OwnOneMore(log, s, t);
      }
      config := Next(interval, config, s);
      log := log + [s];
    }

    /** The other threads take those of the steps that are possible. */
    method LetOthers(t: nat, others: seq<Step>)
      requires Valid()
      modifies this`config, this`log
      ensures Valid() && Own(log, t) == old(Own(log, t))
      ensures SameThread(old(config), config, t) && old(config).grants <= config.grants
      ensures others == [] ==> config == old(config)
    {
      hide Execution;
      for k := 0 to |others|
        invariant Valid() && Own(log, t) == old(Own(log, t))
        invariant SameThread(old(config), config, t) && old(config).grants <= config.grants
        invariant others == [] ==> config == old(config)
      {
        if others[k].t != t && Enabled(config, others[k]) {
          StepOfOther(interval, config, others[k], t);
          Do(others[k]);
        }
      }
    }

    method TakePlan() returns (d: Disturbance)
      modifies this`plan
      ensures old(plan) == [] ==> d == CALM && plan == []
      ensures old(plan) != [] ==> d == old(plan)[0] && plan == old(plan)[1..]
    {
      if plan == [] {
        return CALM;
      }
      d := plan[0];
      plan := plan[1..];
    }

    method CompareExchangeWeak(t: nat, expected: U64, desired: U64) returns (r: Result<U64, U64>)
      requires Valid() && t in config.threads && config.threads[t].Trying? && config.threads[t].prev == expected
      requires desired == SaturatingAdd(Target(config.threads[t]), interval)
      modifies this
      ensures Valid() && t in config.threads && config.threads[t].sent == old(config.threads[t].sent)
      ensures old(plan) == [] ==> plan == []
      ensures old(plan) == [] && r.Err? ==> config.deadline == r.error && old(config).deadline != expected
      ensures old(plan) != [] ==> plan == old(plan)[1..]
      ensures r.Ok? ==> Own(log, t) == old(Own(log, t)) + [Exchange(t)] && config.deadline == desired
      ensures r.Ok? ==> var p := old(config.threads[t]); Granted(config, t, Grant(p.sent, p.now, Max(expected, p.now)))
      ensures r.Err? ==> Own(log, t) == old(Own(log, t)) + [Fail(t, r.error)]
      ensures r.Err? ==> config.threads[t] == old(config.threads[t]).(prev := r.error)
    {
      hide Execution;
      var d := TakePlan();
      LetOthers(t, d.others);
      if config.deadline == expected && !d.spurious {
        Do(Exchange(t));
        return Ok(expected);
      }
      var actual := if d == CALM then config.deadline else d.reported;
      Do(Fail(t, actual));
      r := Err(actual);
    }

    /** The second half of a call: until the clock shows the slot, it sleeps most of the time and then spins. */
    method SleepUntil(t: nat, slot: U64, clock: Clock, ghost given: Grant) returns (nowNs: U64)
      requires Valid() && Granted(config, t, given)
      modifies this, clock
      ensures Valid() && Own(log, t) == old(Own(log, t))
      ensures Granted(config, t, given) && config.threads[t] == old(config.threads[t])
      ensures nowNs == clock.now && slot <= nowNs && old(clock.now) <= nowNs
      ensures nowNs <= Max(slot, old(clock.now) + 1) + Sum(old(clock.late))
      ensures old(clock.late) == [] && old(clock.stalls) == 0 ==> clock.readings <= old(clock.readings) + 1_000_001
    {
      hide Execution, Enabled, Next, Own;
      nowNs := clock.Read();
      while nowNs < slot
        invariant Valid() && nowNs == clock.now && old(clock.now) <= nowNs
        invariant Own(log, t) == old(Own(log, t))
        invariant Granted(config, t, given) && config.threads[t] == old(config.threads[t])
        invariant Sum(clock.late) <= Sum(old(clock.late))
        invariant nowNs + Sum(clock.late) <= Max(slot, old(clock.now) + 1) + Sum(old(clock.late))
        invariant old(clock.late) == [] && old(clock.stalls) == 0 ==> clock.late == [] && clock.stalls == 0
        invariant old(clock.late) == [] && old(clock.stalls) == 0 ==>
                    clock.readings + Max(0, Min(slot - nowNs, 1_000_000)) <= old(clock.readings) + 1_000_001
        decreases slot - nowNs, clock.stalls
      {
        var remaining := slot - nowNs;
        if remaining > SLEEP_THRESHOLD_NANOS {
          clock.Sleep(remaining - SLEEP_HEADROOM_NANOS);
        }
        var d := TakePlan();
        LetOthers(t, d.others);
        nowNs := clock.Read();
      }
    }

    /** The clock reading and the load at the start of a call. */
    method Begin(t: nat, now: U64, loaded: U64)
      requires Valid() && t in config.threads && config.threads[t].Sent? && config.threads[t].sent <= now
      modifies this`config, this`log
      ensures Valid() && t in config.threads && config.threads[t] == Trying(old(config.threads[t].sent), now, loaded)
      ensures Own(log, t) == old(Own(log, t)) + [Enter(t, now, loaded)]
    {
      hide Execution;
      Do(Enter(t, now, loaded));
    }

    /** The clock reading that ends it. */
    method End(t: nat, at: U64)
      requires Valid() && t in config.threads && config.threads[t].Holding?
      requires config.threads[t].grant < |config.grants|
      requires config.grants[config.threads[t].grant].slot <= at
      modifies this`config, this`log
      ensures Valid() && t !in config.threads && config.grants == old(config.grants)
      ensures config.returned == old(config.returned)[old(config.threads[t].grant) := at]
      ensures Own(log, t) == old(Own(log, t)) + [Return(t, at)]
    {
      hide Execution;
      Do(Return(t, at));
    }

    /**
      However other threads interfere, during the exchanges and while this one sleeps, the call is a run of
      its own steps in order; its slot is the one granted to it, and it does not return before it. It returns as
      soon as the clock shows the slot, late only by what sleeps are late; and it does not read the clock more
      than a million times for it. Without an interval the call touches nothing.
     */
    method Wait(t: nat, clock: Clock, loaded: U64) returns (slot: U64, ghost grant: nat)
      requires Valid() && t in config.threads && config.threads[t].Sent? && config.threads[t].sent <= clock.now
      modifies this, clock
      ensures Valid()
      ensures interval == 0 ==> unchanged(this) && unchanged(clock)
      ensures interval > 0 ==>
                && t !in config.threads && grant < |config.grants| && grant in config.returned
                && slot == config.grants[grant].slot <= config.returned[grant] == clock.now
                && config.grants[grant].sent == old(config.threads[t].sent)
                && old(clock.now) <= config.grants[grant].now <= clock.now
                && exists call :: Own(log, t) == old(Own(log, t)) + call
                     && IsCall(call, t, config.grants[grant].now, loaded, clock.now)
      ensures clock.now <= Max(slot, old(clock.now) + 2) + Sum(old(clock.late))
      ensures old(clock.late) == [] && old(clock.stalls) == 0 ==>
                clock.readings <= old(clock.readings) + 1_000_002
    {
      hide Execution, IsCall, IsReservation, Enabled, Next;
      slot, grant := 0, 0;
      if interval == 0 {
        return;
      }
      var nowNs := clock.Read();
      Begin(t, nowNs, loaded);
      ghost var entered, before := nowNs, Own(log, t);
      slot := Reserve(t, nowNs, loaded);
      grant := config.threads[t].grant;
      ghost var reserved, given := Own(log, t), config.grants[grant];
      nowNs := SleepUntil(t, slot, clock, given);
      End(t, nowNs);
      CallIs(old(Own(log, t)), reserved, t, entered, loaded, nowNs);
    }

    /** The compare-and-swap loop, starting from a load that may be stale. */
    method Reserve(t: nat, nowNs: U64, loaded: U64) returns (slot: U64)
      requires Valid() && t in config.threads && config.threads[t].Trying?
      requires config.threads[t].now == nowNs && config.threads[t].prev == loaded
      modifies this
      ensures Valid() && t in config.threads
      ensures Granted(config, t, Grant(old(config.threads[t].sent), nowNs, slot)) && slot >= nowNs
      ensures config.deadline == SaturatingAdd(slot, interval)
      ensures Own(old(log), t) <= Own(log, t) && IsReservation(Own(log, t)[|Own(old(log), t)|..], t)
    {
      hide Execution;
      var prev := loaded;
      ghost var fails: seq<Step> := [];
      while true
        invariant Valid() && t in config.threads
        invariant config.threads[t] == Trying(old(config.threads[t].sent), nowNs, prev)
        invariant Own(log, t) == old(Own(log, t)) + fails
        invariant forall k :: 0 <= k < |fails| ==> fails[k].Fail? && fails[k].t == t
        decreases |plan|, config.deadline != prev
      {
        slot := Max(prev, nowNs);
        var desired := SaturatingAdd(slot, interval);
        var exchanged := CompareExchangeWeak(t, prev, desired);
        if exchanged.Ok? {
          return;
        }
        prev := exchanged.error;
        fails := fails + [Fail(t, prev)];
      }
    }
  }
}
