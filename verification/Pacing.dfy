/**
  The pacer that the file thread and the UDP thread share (`Pacer::wait`), as a machine of atomic steps: any
  number of threads, any interleaving, loads that may be stale and exchanges that may fail for no reason.
  Each call follows a packet that went out (`send_to_blocking`).
 */
module Pacing {
  import opened Basics

  type U64 = n: nat | n <= U64_MAX

  /**
    Where a thread is, from its packet to the end of the call that follows: `sent` is the clock when the packet
    went out. A grant is known by its place in the order of successful exchanges.
   */
  datatype Phase = Sent(sent: U64) | Trying(sent: U64, now: U64, prev: U64) | Holding(sent: U64, grant: nat)

  datatype Grant = Grant(sent: U64, now: U64, slot: U64)

  /** `threads` holds the calls under way; `returned` holds the clock reading at which each finished call returned. */
  datatype Config = Config(deadline: U64, threads: map<nat, Phase>, grants: seq<Grant>, returned: map<nat, U64>)

  const INITIAL: Config := Config(0, map[], [], map[])

  /**
    One atomic step of thread `t`: a packet goes out, the clock reading and the load at the start of the call,
    an exchange that succeeds, one that fails and reports some value, and the clock reading that ends the call.
   */
  datatype Step =
    | Send(t: nat, at: U64)
    | Enter(t: nat, now: U64, loaded: U64)
    | Exchange(t: nat)
    | Fail(t: nat, actual: U64)
    | Return(t: nat, at: U64)

  function Target(p: Phase): (target: U64)
    requires p.Trying?
  {
    Max(p.prev, p.now)
  }

  /**
    The step can happen. An exchange succeeds only on the value the thread expects, it may always fail, and
    the clock does not run backwards between a packet and the call that follows it.
   */
  predicate Enabled(c: Config, s: Step) {
    match s
    case Send(t, _) => t !in c.threads
    case Enter(t, now, _) => t in c.threads && c.threads[t].Sent? && c.threads[t].sent <= now
    case Exchange(t) => t in c.threads && c.threads[t].Trying? && c.threads[t].prev == c.deadline
    case Fail(t, _) => t in c.threads && c.threads[t].Trying?
    case Return(t, at) =>
      && t in c.threads && c.threads[t].Holding?
      && c.threads[t].grant < |c.grants| && c.grants[c.threads[t].grant].slot <= at
  }

  function Next(interval: U64, c: Config, s: Step): Config
    requires Enabled(c, s)
  {
    match s
    case Send(t, at) => c.(threads := c.threads[t := Sent(at)])
    case Enter(t, now, loaded) => c.(threads := c.threads[t := Trying(c.threads[t].sent, now, loaded)])
    case Exchange(t) =>
      var p := c.threads[t];
      Config(SaturatingAdd(Target(p), interval), c.threads[t := Holding(p.sent, |c.grants|)],
             c.grants + [Grant(p.sent, p.now, Target(p))], c.returned)
    case Fail(t, actual) => c.(threads := c.threads[t := c.threads[t].(prev := actual)])
    case Return(t, at) => c.(threads := c.threads - {t}, returned := c.returned[c.threads[t].grant := at])
  }

  /** The configuration after the steps; `None` if one of them could not happen. */
  function After(interval: U64, steps: seq<Step>): Option<Config> {
    if steps == [] then Some(INITIAL) else
      var n := |steps| - 1;
      var before := After(interval, steps[..n]);
      if before.None? || !Enabled(before.value, steps[n]) then None
      else Some(Next(interval, before.value, steps[n]))
  }

  /** The steps are an execution. */
  predicate Execution(interval: U64, steps: seq<Step>) {
    After(interval, steps).Some?
  }

  function Final(interval: U64, steps: seq<Step>): Config
    requires Execution(interval, steps)
  {
    After(interval, steps).value
  }

  lemma LastStep(interval: U64, steps: seq<Step>)
    requires steps != [] && Execution(interval, steps)
    ensures var n := |steps| - 1;
            && Execution(interval, steps[..n]) && Enabled(Final(interval, steps[..n]), steps[n])
            && Final(interval, steps) == Next(interval, Final(interval, steps[..n]), steps[n])
  {
    hide Enabled, Next;
  }

  lemma OneMoreStep(interval: U64, steps: seq<Step>, s: Step)
    requires Execution(interval, steps) && Enabled(Final(interval, steps), s)
    ensures Execution(interval, steps + [s])
    ensures Final(interval, steps + [s]) == Next(interval, Final(interval, steps), s)
  {
    assert (steps + [s])[..|steps|] == steps;
    hide Enabled, Next;
  }

  // ---- The machine refines a queue ----

  /** One caller after another: each gets the later of its own clock reading and the end of the slot before. */
  function SlotsInOrder(interval: U64, nows: seq<U64>): seq<U64> {
    if nows == [] then [] else
      var n := |nows| - 1;
      var before := SlotsInOrder(interval, nows[..n]);
      before + [Max(nows[n], DeadlineAfter(interval, before))]
  }

  /** The end of the last slot. */
  function DeadlineAfter(interval: U64, slots: seq<U64>): U64 {
    if slots == [] then 0 else SaturatingAdd(slots[|slots| - 1], interval)
  }

  function Nows(grants: seq<Grant>): seq<U64> {
    seq(|grants|, k requires 0 <= k < |grants| => grants[k].now)
  }

  function Slots(grants: seq<Grant>): (slots: seq<U64>)
    ensures |slots| == |grants| && forall k :: 0 <= k < |grants| ==> slots[k] == grants[k].slot
  {
    seq(|grants|, k requires 0 <= k < |grants| => grants[k].slot)
  }

  ghost predicate Ordered(interval: U64, c: Config) {
    && Slots(c.grants) == SlotsInOrder(interval, Nows(c.grants))
    && c.deadline == DeadlineAfter(interval, Slots(c.grants))
  }

  lemma StepOrdered(interval: U64, c: Config, s: Step)
    requires Ordered(interval, c) && Enabled(c, s)
    ensures Ordered(interval, Next(interval, c, s))
  {
    if s.Exchange? {
      var c' := Next(interval, c, s);
      var n := |c.grants|;
      assert Nows(c'.grants)[..n] == Nows(c.grants);
      assert Slots(c'.grants)[..n] == Slots(c.grants);
      assert Slots(c'.grants) == Slots(c.grants) + [c'.grants[n].slot];
    }
  }

  lemma {:induction false} AlwaysOrdered(interval: U64, steps: seq<Step>)
    requires Execution(interval, steps)
    ensures Ordered(interval, Final(interval, steps))
  {
    hide Ordered, Enabled, Next;
    if steps == [] {
      InitiallyOrdered(interval);
    } else {
      var n := |steps| - 1;
      LastStep(interval, steps);
      AlwaysOrdered(interval, steps[..n]);
      StepOrdered(interval, Final(interval, steps[..n]), steps[n]);
    }
  }

  lemma InitiallyOrdered(interval: U64)
    ensures Ordered(interval, INITIAL)
  {
  }

  /**
    However the threads interleave, the slots are those of a queue in the order of the successful exchanges:
    each caller gets the later of its clock reading and the end of the slot before it.
  */
  lemma RefinesQueue(interval: U64, steps: seq<Step>)
    requires Execution(interval, steps)
    ensures var grants := Final(interval, steps).grants; Slots(grants) == SlotsInOrder(interval, Nows(grants))
  {
    AlwaysOrdered(interval, steps);
  }

  // ---- Gaps ----

  lemma {:induction false} SlotAt(interval: U64, nows: seq<U64>, k: nat)
    requires k < |nows|
    ensures var slots := SlotsInOrder(interval, nows);
            |slots| == |nows| && slots[k] == Max(nows[k], DeadlineAfter(interval, slots[..k]))
  {
    hide DeadlineAfter;
    var n := |nows| - 1;
    var before := SlotsInOrder(interval, nows[..n]);
    if n > 0 {
      SlotAt(interval, nows[..n], if k < n then k else 0);
    }
    assert k < n ==> SlotsInOrder(interval, nows)[..k] == before[..k];
    assert SlotsInOrder(interval, nows)[..n] == before;
  }

  /** A later slot starts no earlier than the end of an earlier one, unless the end is beyond 64 bits. */
  lemma {:induction false} SlotsApart(interval: U64, nows: seq<U64>, i: nat, j: nat)
    requires i < j < |nows|
    ensures var slots := SlotsInOrder(interval, nows);
            |slots| == |nows| && slots[j] >= SaturatingAdd(slots[i], interval)
    decreases j
  {
    hide SlotsInOrder;
    SlotAt(interval, nows, j);
    if i < j - 1 {
      SlotsApart(interval, nows, i, j - 1);
    }
  }

  /**
    Two grants are at least the interval apart exactly when the first slot ends within 64 bits; and no slot
    lies before the clock reading of its caller.
  */
  lemma GapIsKept(interval: U64, steps: seq<Step>, i: nat, j: nat)
    requires Execution(interval, steps) && i < j < |Final(interval, steps).grants|
    ensures var grants := Final(interval, steps).grants;
            && (grants[j].slot - grants[i].slot >= interval <==> grants[i].slot + interval <= U64_MAX)
            && grants[j].slot >= grants[j].now && grants[i].slot >= grants[i].now
  {
    hide SlotsInOrder, After;
    RefinesQueue(interval, steps);
    var nows := Nows(Final(interval, steps).grants);
    SlotsApart(interval, nows, i, j);
    SlotAt(interval, nows, i);
    SlotAt(interval, nows, j);
  }

  /**
    No slot is later than it has to be: it is the clock reading of its caller, or lies one interval after the slot
    granted before it.
  */
  lemma SlotIsEarliest(interval: U64, steps: seq<Step>, k: nat)
    requires Execution(interval, steps) && k < |Final(interval, steps).grants|
    ensures var grants := Final(interval, steps).grants;
            || grants[k].slot == grants[k].now
            || (k > 0 && grants[k].slot == Min(grants[k - 1].slot + interval, U64_MAX))
  {
    hide SlotsInOrder, After;
    RefinesQueue(interval, steps);
    SlotAt(interval, Nows(Final(interval, steps).grants), k);
  }

  // ---- Rate ----

  /** The grants whose slots lie in a window. */
  ghost function Window(grants: seq<Grant>, lo: nat, hi: nat): set<nat> {
    set k | 0 <= k < |grants| && lo <= grants[k].slot <= hi
  }

  predicate Apart(interval: U64, grants: seq<Grant>) {
    forall i, j :: 0 <= i < j < |grants| ==> grants[j].slot >= SaturatingAdd(grants[i].slot, interval)
  }

  lemma WindowOneMore(grants: seq<Grant>, lo: nat, hi: nat)
    requires grants != []
    ensures var n := |grants| - 1;
            && Window(grants, lo, hi) == Window(grants[..n], lo, hi) + (if lo <= grants[n].slot <= hi then {n} else {})
            && n !in Window(grants[..n], lo, hi)
  {
  }

  /** The last of `c` slots in a window is at least `c - 1` intervals after its start. */
  lemma {:induction false} LastInWindow(interval: U64, grants: seq<Grant>, lo: nat, hi: nat) returns (last: nat)
    requires Apart(interval, grants) && hi + interval <= U64_MAX && Window(grants, lo, hi) != {}
    ensures last in Window(grants, lo, hi)
    ensures grants[last].slot >= lo + (|Window(grants, lo, hi)| - 1) * interval
    decreases |grants|
  {
    hide Apart, SaturatingAdd;
    var n := |grants| - 1;
    var before := Window(grants[..n], lo, hi);
    WindowOneMore(grants, lo, hi);
    ApartBefore(interval, grants);
    if n !in Window(grants, lo, hi) {
      last := LastInWindow(interval, grants[..n], lo, hi);
    } else {
      last := n;
      if before != {} {
        var previous := LastInWindow(interval, grants[..n], lo, hi);
        ApartFromLast(interval, grants, previous);
        Distribute(|before| - 1, interval);
      }
    }
  }

  lemma ApartBefore(interval: U64, grants: seq<Grant>)
    requires grants != [] && Apart(interval, grants)
    ensures Apart(interval, grants[..|grants| - 1])
  {
    hide SaturatingAdd;
  }

  lemma ApartFromLast(interval: U64, grants: seq<Grant>, k: nat)
    requires Apart(interval, grants) && k < |grants| - 1 && grants[k].slot + interval <= U64_MAX
    ensures grants[|grants| - 1].slot >= grants[k].slot + interval
  {
    assert grants[|grants| - 1].slot >= SaturatingAdd(grants[k].slot, interval);
  }

  lemma ProductGrows(a: nat, b: nat, factor: nat)
    requires a <= b
    ensures a * factor <= b * factor
  {
  }

  lemma CountFromGap(count: nat, interval: nat, length: nat)
    requires interval > 0 && count > 0 && (count - 1) * interval <= length
    ensures count <= length / interval + 1
  {
    var q := length / interval;
    assert length < (q + 1) * interval;
    if count - 1 >= q + 1 {
      ProductGrows(q + 1, count - 1, interval);
      assert false;
    }
  }

  lemma SlotsAreApart(interval: U64, steps: seq<Step>)
    requires Execution(interval, steps)
    ensures Apart(interval, Final(interval, steps).grants)
  {
    hide SlotsInOrder, After;
    RefinesQueue(interval, steps);
    var grants := Final(interval, steps).grants;
    forall i, j | 0 <= i < j < |grants| ensures grants[j].slot >= SaturatingAdd(grants[i].slot, interval) {
      SlotsApart(interval, Nows(grants), i, j);
    }
  }

  /** Any window of length `length` that ends within reach of 64 bits holds at most `length / interval + 1` slots. */
  lemma RateIsBounded(interval: U64, steps: seq<Step>, lo: nat, length: nat)
    requires Execution(interval, steps) && interval > 0 && lo + length + interval <= U64_MAX
    ensures |Window(Final(interval, steps).grants, lo, lo + length)| <= length / interval + 1
  {
    hide After;
    var grants := Final(interval, steps).grants;
    var window := Window(grants, lo, lo + length);
    SlotsAreApart(interval, steps);
    if window != {} {
      var last := LastInWindow(interval, grants, lo, lo + length);
      CountFromGap(|window|, interval, length);
    }
  }

  // ---- Packets on the wire ----

  /** Every call that got a grant has it for itself: it is still waiting for it, or has returned no earlier. */
  ghost predicate Owned(c: Config) {
    && (forall k :: k in c.returned ==> k < |c.grants| && c.grants[k].slot <= c.returned[k])
    && (forall t :: t in c.threads && c.threads[t].Holding? ==> HoldsOwn(c, t))
    && (forall t, u :: t in c.threads && u in c.threads && t != u && c.threads[t].Holding? && c.threads[u].Holding? ==>
          c.threads[t].grant != c.threads[u].grant)
  }

  ghost predicate HoldsOwn(c: Config, t: nat)
    requires t in c.threads && c.threads[t].Holding?
  {
    var p := c.threads[t];
    p.grant < |c.grants| && p.grant !in c.returned && c.grants[p.grant].sent == p.sent
  }

  /** No call is granted a slot before its packet went out. */
  ghost predicate Timely(c: Config) {
    && (forall t :: t in c.threads && c.threads[t].Trying? ==> c.threads[t].sent <= c.threads[t].now)
    && (forall k :: 0 <= k < |c.grants| ==> c.grants[k].sent <= c.grants[k].slot)
  }

  lemma StepOwned(interval: U64, c: Config, s: Step)
    requires Owned(c) && Timely(c) && Enabled(c, s)
    ensures Owned(Next(interval, c, s)) && Timely(Next(interval, c, s))
  {
  }

  lemma {:induction false} AlwaysOwned(interval: U64, steps: seq<Step>)
    requires Execution(interval, steps)
    ensures Owned(Final(interval, steps)) && Timely(Final(interval, steps))
  {
    hide Owned, Timely, Enabled, Next;
    if steps == [] {
      InitiallyOwned();
    } else {
      var n := |steps| - 1;
      LastStep(interval, steps);
      AlwaysOwned(interval, steps[..n]);
      StepOwned(interval, Final(interval, steps[..n]), steps[n]);
    }
  }

  lemma InitiallyOwned()
    ensures Owned(INITIAL) && Timely(INITIAL)
  {
  }

  /** How many packets went out between two clock readings. */
  function SendsIn(steps: seq<Step>, lo: nat, hi: nat): nat {
    if steps == [] then 0 else
      var n := |steps| - 1;
      SendsIn(steps[..n], lo, hi) + if steps[n].Send? && lo <= steps[n].at <= hi then 1 else 0
  }

  /** The packets of the window whose call has returned, by grant. */
  ghost function Finished(c: Config, lo: nat, hi: nat): set<nat> {
    set k | k in c.returned && k < |c.grants| && lo <= c.grants[k].sent <= hi
  }

  /** The packets of the window whose call has not returned, by thread. */
  ghost function Pending(c: Config, lo: nat, hi: nat): set<nat> {
    set t | t in c.threads && lo <= c.threads[t].sent <= hi
  }

  /** A packet is pending when it goes out. */
  lemma SendMovesPacket(interval: U64, c: Config, s: Step, lo: nat, hi: nat)
    requires s.Send? && Enabled(c, s)
    ensures var c' := Next(interval, c, s);
            && Finished(c', lo, hi) == Finished(c, lo, hi)
            && s.t !in Pending(c, lo, hi)
            && Pending(c', lo, hi) == Pending(c, lo, hi) + if lo <= s.at <= hi then {s.t} else {}
  {
  }

  /** It is finished when its call returns. */
  lemma ReturnMovesPacket(interval: U64, c: Config, s: Step, lo: nat, hi: nat)
    requires s.Return? && Enabled(c, s) && HoldsOwn(c, s.t)
    ensures var c' := Next(interval, c, s); var grant := c.threads[s.t].grant;
            var inside := lo <= c.grants[grant].sent <= hi;
            && grant !in Finished(c, lo, hi) && (s.t in Pending(c, lo, hi) <==> inside)
            && Finished(c', lo, hi) == Finished(c, lo, hi) + (if inside then {grant} else {})
            && Pending(c', lo, hi) == Pending(c, lo, hi) - {s.t}
  {
  }

  /** Nothing else moves it. */
  lemma OthersMoveNoPacket(interval: U64, c: Config, s: Step, lo: nat, hi: nat)
    requires !s.Return? && !s.Send? && Enabled(c, s) && Owned(c)
    ensures var c' := Next(interval, c, s);
            Finished(c', lo, hi) == Finished(c, lo, hi) && Pending(c', lo, hi) == Pending(c, lo, hi)
  {
    hide HoldsOwn;
  }

  lemma StepMovesPackets(interval: U64, c: Config, s: Step, lo: nat, hi: nat)
    requires Owned(c) && Enabled(c, s)
    ensures var c' := Next(interval, c, s);
            |Finished(c', lo, hi)| + |Pending(c', lo, hi)|
              == |Finished(c, lo, hi)| + |Pending(c, lo, hi)| + if s.Send? && lo <= s.at <= hi then 1 else 0
  {
    hide Next, Finished, Pending, HoldsOwn;
    if s.Send? {
      SendMovesPacket(interval, c, s, lo, hi);
    } else if s.Return? {
      ReturnMovesPacket(interval, c, s, lo, hi);
    } else {
      OthersMoveNoPacket(interval, c, s, lo, hi);
    }
  }

  lemma {:induction false} PacketsAccounted(interval: U64, steps: seq<Step>, lo: nat, hi: nat)
    requires Execution(interval, steps)
    ensures var c := Final(interval, steps); SendsIn(steps, lo, hi) == |Finished(c, lo, hi)| + |Pending(c, lo, hi)|
  {
    hide Enabled, Next, Owned, Finished, Pending;
    if steps == [] {
      NoPackets(lo, hi);
    } else {
      var n := |steps| - 1;
      LastStep(interval, steps);
      PacketsAccounted(interval, steps[..n], lo, hi);
      AlwaysOwned(interval, steps[..n]);
      StepMovesPackets(interval, Final(interval, steps[..n]), steps[n], lo, hi);
    }
  }

  lemma NoPackets(lo: nat, hi: nat)
    ensures Finished(INITIAL, lo, hi) == {} && Pending(INITIAL, lo, hi) == {}
  {
  }

  /** The threads that take part. */
  function ThreadsOf(steps: seq<Step>): set<nat> {
    set s | s in steps :: s.t
  }

  lemma {:induction false} OnlyTheseThreads(interval: U64, steps: seq<Step>)
    requires Execution(interval, steps)
    ensures Final(interval, steps).threads.Keys <= ThreadsOf(steps)
  {
    hide Next;
    if steps != [] {
      var n := |steps| - 1;
      LastStep(interval, steps);
      OnlyTheseThreads(interval, steps[..n]);
      StepKeepsThreads(interval, Final(interval, steps[..n]), steps[n]);
      assert steps[n] in steps;
    }
  }

  lemma StepKeepsThreads(interval: U64, c: Config, s: Step)
    requires Enabled(c, s)
    ensures Next(interval, c, s).threads.Keys <= c.threads.Keys + {s.t}
  {
  }

  /** No call has returned after the clock reading. */
  predicate ReturnsBy(steps: seq<Step>, time: nat) {
    forall k :: 0 <= k < |steps| && steps[k].Return? ==> steps[k].at <= time
  }

  ghost predicate AllBy(returned: map<nat, U64>, time: nat) {
    forall k :: k in returned ==> returned[k] <= time
  }

  lemma StepReturnedBy(interval: U64, c: Config, s: Step, time: nat)
    requires Enabled(c, s) && (s.Return? ==> s.at <= time) && AllBy(c.returned, time)
    ensures AllBy(Next(interval, c, s).returned, time)
  {
  }

  lemma {:induction false} ReturnedBy(interval: U64, steps: seq<Step>, time: nat)
    requires Execution(interval, steps) && ReturnsBy(steps, time)
    ensures AllBy(Final(interval, steps).returned, time)
  {
    hide Enabled, Next;
    if steps != [] {
      var n := |steps| - 1;
      LastStep(interval, steps);
      ReturnedBy(interval, steps[..n], time);
      StepReturnedBy(interval, Final(interval, steps[..n]), steps[n], time);
    }
  }

  /** A finished packet of the window had its slot in the window. */
  lemma FinishedInWindow(c: Config, lo: nat, hi: nat)
    requires Owned(c) && Timely(c) && AllBy(c.returned, hi)
    ensures Finished(c, lo, hi) <= Window(c.grants, lo, hi)
  {
    hide HoldsOwn;
  }

  /** A window observed to its end: no call has returned after it. */
  lemma WindowIsBounded(interval: U64, steps: seq<Step>, lo: nat, length: nat)
    requires Execution(interval, steps) && interval > 0 && lo + length + interval <= U64_MAX
    requires ReturnsBy(steps, lo + length)
    ensures SendsIn(steps, lo, lo + length) <= length / interval + 1 + |ThreadsOf(steps)|
  {
    hide After, Owned, Timely, AllBy, ReturnsBy, Window, SendsIn, ThreadsOf, Finished;
    var c, hi := Final(interval, steps), lo + length;
    PacketsAccounted(interval, steps, lo, hi);
    AlwaysOwned(interval, steps);
    ReturnedBy(interval, steps, hi);
    FinishedInWindow(c, lo, hi);
    SubsetSize(Finished(c, lo, hi), Window(c.grants, lo, hi));
    RateIsBounded(interval, steps, lo, length);
    OnlyTheseThreads(interval, steps);
    SubsetSize(Pending(c, lo, hi), ThreadsOf(steps));
  }

  /** Clock readings agree with the order of the steps: no packet goes out before an earlier return. */
  predicate InClockOrder(steps: seq<Step>) {
    forall i, j :: 0 <= i < j < |steps| && steps[i].Return? && steps[j].Send? ==> steps[i].at <= steps[j].at
  }

  /**
    The cap on the wire. In any window of length `length` of any execution, no more than
    `length / interval + 1` packets go out, and one more for each thread.
  */
  lemma {:induction false} WireIsBounded(interval: U64, steps: seq<Step>, lo: nat, length: nat)
    requires Execution(interval, steps) && interval > 0 && lo + length + interval <= U64_MAX
    requires InClockOrder(steps)
    ensures SendsIn(steps, lo, lo + length) <= length / interval + 1 + |ThreadsOf(steps)|
    decreases |steps|
  {
    hide Execution;
    if ReturnsBy(steps, lo + length) {
      WindowIsBounded(interval, steps, lo, length);
    } else {
      var n := |steps| - 1;
      LastStep(interval, steps);
      WireIsBounded(interval, steps[..n], lo, length);
      SubsetSize(ThreadsOf(steps[..n]), ThreadsOf(steps));
    }
  }

  function Returns(steps: seq<Step>): nat {
    if steps == [] then 0 else Returns(steps[..|steps| - 1]) + if steps[|steps| - 1].Return? then 1 else 0
  }

  lemma {:induction false} ReturnsAreCounted(interval: U64, steps: seq<Step>)
    requires Execution(interval, steps)
    ensures |Final(interval, steps).returned| == Returns(steps)
  {
    hide Enabled, Owned;
    if steps != [] {
      var n := |steps| - 1;
      LastStep(interval, steps);
      ReturnsAreCounted(interval, steps[..n]);
      AlwaysOwned(interval, steps[..n]);
      OneMoreReturned(interval, Final(interval, steps[..n]), steps[n]);
    }
  }

  lemma OneMoreReturned(interval: U64, c: Config, s: Step)
    requires Owned(c) && Enabled(c, s)
    ensures |Next(interval, c, s).returned| == |c.returned| + if s.Return? then 1 else 0
  {
    if s.Return? {
      assert HoldsOwn(c, s.t);
    }
  }

  /**
    If no call has returned after clock reading `time`, then no more than `time / interval + 1` calls have
    returned, whichever threads made them.
  */
  lemma ReturnsAreBounded(interval: U64, steps: seq<Step>, time: nat)
    requires Execution(interval, steps) && interval > 0 && time + interval <= U64_MAX
    requires ReturnsBy(steps, time)
    ensures Returns(steps) <= time / interval + 1
  {
    hide After, Returns, ReturnsBy, Timely;
    AlwaysOwned(interval, steps);
    ReturnsAreCounted(interval, steps);
    ReturnedBy(interval, steps, time);
    RateIsBounded(interval, steps, 0, time);
    var c := Final(interval, steps);
    SubsetSize(c.returned.Keys, Window(c.grants, 0, time));
  }
}
