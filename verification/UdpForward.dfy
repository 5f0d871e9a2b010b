/**
  The UDP forwarder (`forward_udp_packets`): fragments of datagrams are put together again and each complete
  datagram goes to the internal host. The clock is an input: every arrival carries its readings.
 */
module UdpForward {
  import opened Basics
  import opened Batches
  import opened Wire

  const UDP_MAX_FORWARD_BYTES: nat := 4 * 1024 * 1024
  const UDP_FLOW_TIMEOUT: nat := 2_000_000_000

  /**
    A packet with the clock readings of its handling, in nanoseconds: `checked` when the age of the flow in
    flight is taken, `stamped` when the packet is accepted.
   */
  datatype Incoming = Incoming(p: Packet, checked: nat, stamped: nat)

  /** `UdpForwardState`. The time of the last activity means something only while there is an id. */
  datatype Flow = Flow(id: Option<Bytes>, packet: Bytes, previousCount: nat, expectedSize: nat, lastActivity: nat)

  datatype Forwarder = Forwarder(flow: Flow, sent: seq<Bytes>)

  function IdOf(p: Packet): (id: Bytes)
    ensures |id| == 8
  {
    p.dataHash[..8]
  }

  /** The size the packet declares; the field is unreadable unless it is a number that fits `usize`. */
  function DeclaredSize(p: Packet): Option<nat> {
    ParseUnsigned(p.pathHash, U64_MAX)
  }

  function NoFlow(now: nat): Flow {
    Flow(None, [], 0, 0, now)
  }

  predicate Stale(f: Flow, a: Incoming) {
    a.checked - f.lastActivity > UDP_FLOW_TIMEOUT
  }

  /** What is in flight when it is complete goes out, and the flow is dropped. */
  function Completed(f: Flow): (Flow, Option<Bytes>) {
    if |f.packet| == f.expectedSize then (NoFlow(f.lastActivity), Some(f.packet)) else (f, None)
  }

  function FirstFragment(f: Flow, a: Incoming, size: nat): (Flow, Option<Bytes>) {
    if size == 0 || size > UDP_MAX_FORWARD_BYTES then (f, None)
    else if a.p.data == [] || |a.p.data| > CHUNK_SIZE || |a.p.data| > size then (f, None)
    else if f.id.Some? && f.id.value != IdOf(a.p) && !Stale(f, a) then (f, None)
    else Completed(Flow(Some(IdOf(a.p)), a.p.data, 0, size, a.stamped))
  }

  function NextFragment(f: Flow, a: Incoming, size: nat): (Flow, Option<Bytes>) {
    if f.id != Some(IdOf(a.p)) || a.p.count != f.previousCount + 1 then (f, None)
    else if size != f.expectedSize then (f, None)
    else if a.p.data == [] || |a.p.data| > CHUNK_SIZE || |a.p.data| > f.expectedSize - |f.packet| then
      (NoFlow(f.lastActivity), None)
    else
      Completed(f.(packet := f.packet + a.p.data, previousCount := a.p.count, lastActivity := a.stamped))
  }

  function Step(f: Flow, a: Incoming): (Flow, Option<Bytes>) {
    var size := DeclaredSize(a.p);
    if size.None? then (f, None)
    else if a.p.count == 0 then FirstFragment(f, a, size.value)
    else NextFragment(f, a, size.value)
  }

  function Sent(out: Option<Bytes>): seq<Bytes> {
    if out.Some? then [out.value] else []
  }

  function Run(f: Flow, arrivals: seq<Incoming>): Forwarder
    decreases |arrivals|
  {
    if arrivals == [] then Forwarder(f, []) else
      var before := Run(f, arrivals[..|arrivals| - 1]);
      var (flow, out) := Step(before.flow, arrivals[|arrivals| - 1]);
      Forwarder(flow, before.sent + Sent(out))
  }

  lemma RunLast(f: Flow, arrivals: seq<Incoming>, a: Incoming)
    ensures var before := Run(f, arrivals); var (flow, out) := Step(before.flow, a);
            Run(f, arrivals + [a]) == Forwarder(flow, before.sent + Sent(out))
  {
    assert (arrivals + [a])[..|arrivals|] == arrivals;
    hide Step;
  }

  lemma {:induction false} RunConcat(f: Flow, a: seq<Incoming>, b: seq<Incoming>)
    ensures var before := Run(f, a); var after := Run(before.flow, b);
            Run(f, a + b) == Forwarder(after.flow, before.sent + after.sent)
    decreases |b|
  {
    hide Step, Sent;
    if b == [] {
      assert a + b == a;
    } else {
      var n := |b| - 1;
      assert a + b == (a + b[..n]) + [b[n]];
      RunConcat(f, a, b[..n]);
      RunLast(f, a + b[..n], b[n]);
    }
  }

  // ---- Safety for arbitrary packets ----

  /** Between packets a live flow is never complete nor empty, and without a flow nothing is kept. */
  predicate Valid(f: Flow) {
    if f.id.None? then f == NoFlow(f.lastActivity)
    else |f.id.value| == 8 && f.previousCount < |f.packet| < f.expectedSize <= UDP_MAX_FORWARD_BYTES
  }

  lemma StepKeeps(f: Flow, a: Incoming)
    requires Valid(f)
    ensures Valid(Step(f, a).0)
  {
  }

  lemma {:induction false} RunKeeps(f: Flow, arrivals: seq<Incoming>)
    requires Valid(f)
    ensures Valid(Run(f, arrivals).flow)
    decreases |arrivals|
  {
    hide Step, Valid;
    if arrivals != [] {
      RunKeeps(f, arrivals[..|arrivals| - 1]);
      StepKeeps(Run(f, arrivals[..|arrivals| - 1]).flow, arrivals[|arrivals| - 1]);
    }
  }

  ghost predicate Increasing(picks: seq<nat>) {
    forall i, j :: 0 <= i < j < |picks| ==> picks[i] < picks[j]
  }

  ghost predicate Within(picks: seq<nat>, n: nat) {
    forall j :: 0 <= j < |picks| ==> picks[j] < n
  }

  /** The payloads of the chosen arrivals, in the order chosen. */
  ghost function Payloads(arrivals: seq<Incoming>, picks: seq<nat>): Bytes
    requires Within(picks, |arrivals|)
  {
    if picks == [] then []
    else Payloads(arrivals, picks[..|picks| - 1]) + arrivals[picks[|picks| - 1]].p.data
  }

  /** The chosen arrivals are fragments 0, 1, 2, ... of one id and one declared size. */
  ghost predicate Numbered(arrivals: seq<Incoming>, picks: seq<nat>, id: Bytes, size: nat)
    requires Within(picks, |arrivals|)
  {
    forall j :: 0 <= j < |picks| ==>
      var p := arrivals[picks[j]].p;
      p.count == j && IdOf(p) == id && DeclaredSize(p) == Some(size) && 1 <= |p.data| <= CHUNK_SIZE
  }

  /**
    The bytes are the payloads of arrivals with counts 0, 1, 2, ... that all carry the same id and declare
    the same size, in the order of arrival.
   */
  ghost predicate AssembledFrom(arrivals: seq<Incoming>, picks: seq<nat>, id: Bytes, size: nat, bytes: Bytes) {
    && picks != [] && Increasing(picks) && Within(picks, |arrivals|)
    && Numbered(arrivals, picks, id, size) && bytes == Payloads(arrivals, picks)
  }

  ghost predicate IsWhole(arrivals: seq<Incoming>, picks: seq<nat>, bytes: Bytes) {
    && 1 <= |bytes| <= UDP_MAX_FORWARD_BYTES
    && exists id :: AssembledFrom(arrivals, picks, id, |bytes|, bytes)
  }

  /** One pick list for each datagram sent; no arrival is used twice and the datagrams do not interleave. */
  ghost predicate Explains(arrivals: seq<Incoming>, history: seq<seq<nat>>, sent: seq<Bytes>) {
    && |history| == |sent|
    && (forall k :: 0 <= k < |sent| ==> IsWhole(arrivals, history[k], sent[k]))
    && (forall j, k :: 0 <= j < k < |sent| ==> Before(history[j], history[k]))
  }

  /** Everything in `a` comes before everything in `b`. */
  ghost predicate Before(a: seq<nat>, b: seq<nat>) {
    forall i, j :: 0 <= i < |a| && 0 <= j < |b| ==> a[i] < b[j]
  }

  ghost predicate InFlight(arrivals: seq<Incoming>, history: seq<seq<nat>>, picks: seq<nat>, f: Flow) {
    if f.id.None? then picks == []
    else
      && AssembledFrom(arrivals, picks, f.id.value, f.expectedSize, f.packet)
      && |picks| == f.previousCount + 1
      && forall k :: 0 <= k < |history| ==> Before(history[k], picks)
  }

  lemma {:induction false} PayloadsStay(arrivals: seq<Incoming>, a: Incoming, picks: seq<nat>)
    requires Within(picks, |arrivals|)
    ensures Within(picks, |arrivals + [a]|) && Payloads(arrivals + [a], picks) == Payloads(arrivals, picks)
  {
    if picks != [] {
      PayloadsStay(arrivals, a, picks[..|picks| - 1]);
    }
  }

  lemma NumberedStays(arrivals: seq<Incoming>, a: Incoming, picks: seq<nat>, id: Bytes, size: nat)
    requires Within(picks, |arrivals|) && Within(picks, |arrivals + [a]|) && Numbered(arrivals, picks, id, size)
    ensures Numbered(arrivals + [a], picks, id, size)
  {
    hide DeclaredSize, IdOf;
  }

  lemma AssemblyStays(arrivals: seq<Incoming>, a: Incoming, picks: seq<nat>, id: Bytes, size: nat, bytes: Bytes)
    requires AssembledFrom(arrivals, picks, id, size, bytes)
    ensures AssembledFrom(arrivals + [a], picks, id, size, bytes)
  {
    hide Payloads, Within, Numbered, Increasing;
    PayloadsStay(arrivals, a, picks);
    NumberedStays(arrivals, a, picks, id, size);
  }

  /** The new arrival is picked after the others. */
  lemma PicksGrow(picks: seq<nat>, n: nat)
    requires Within(picks, n)
    ensures Within(picks + [n], n + 1) && (Increasing(picks) ==> Increasing(picks + [n]))
  {
  }

  lemma PayloadsGrow(arrivals: seq<Incoming>, a: Incoming, picks: seq<nat>)
    requires Within(picks, |arrivals|) && Within(picks + [|arrivals|], |arrivals + [a]|)
    ensures Payloads(arrivals + [a], picks + [|arrivals|]) == Payloads(arrivals, picks) + a.p.data
  {
    PayloadsStay(arrivals, a, picks);
    assert (picks + [|arrivals|])[..|picks|] == picks;
  }

  lemma NumberedGrows(arrivals: seq<Incoming>, a: Incoming, picks: seq<nat>, id: Bytes, size: nat)
    requires Within(picks, |arrivals|) && Within(picks + [|arrivals|], |arrivals + [a]|)
    requires Numbered(arrivals, picks, id, size)
    requires a.p.count == |picks| && IdOf(a.p) == id && DeclaredSize(a.p) == Some(size) && 1 <= |a.p.data| <= CHUNK_SIZE
    ensures Numbered(arrivals + [a], picks + [|arrivals|], id, size)
  {
    hide DeclaredSize, IdOf;
  }

  lemma NothingPicked(arrivals: seq<Incoming>, id: Bytes, size: nat)
    ensures Increasing([]) && Within([], |arrivals|) && Numbered(arrivals, [], id, size) && Payloads(arrivals, []) == []
  {
  }

  /** An accepted fragment extends the assembly by its own payload. */
  lemma AssemblyGrows(arrivals: seq<Incoming>, a: Incoming, picks: seq<nat>, id: Bytes, size: nat, bytes: Bytes)
    requires picks == [] ==> bytes == []
    requires picks != [] ==> AssembledFrom(arrivals, picks, id, size, bytes)
    requires a.p.count == |picks| && IdOf(a.p) == id && DeclaredSize(a.p) == Some(size) && 1 <= |a.p.data| <= CHUNK_SIZE
    ensures AssembledFrom(arrivals + [a], picks + [|arrivals|], id, size, bytes + a.p.data)
  {
    hide DeclaredSize, IdOf, Increasing, Payloads, Within, Numbered;
    NothingPicked(arrivals, id, size);
    PicksGrow(picks, |arrivals|);
    PayloadsGrow(arrivals, a, picks);
    NumberedGrows(arrivals, a, picks, id, size);
  }

  lemma ExplainsStays(arrivals: seq<Incoming>, a: Incoming, history: seq<seq<nat>>, sent: seq<Bytes>)
    requires Explains(arrivals, history, sent)
    ensures Explains(arrivals + [a], history, sent)
  {
    hide AssembledFrom, Before;
    forall k | 0 <= k < |sent| ensures IsWhole(arrivals + [a], history[k], sent[k]) {
      var id :| AssembledFrom(arrivals, history[k], id, |sent[k]|, sent[k]);
      AssemblyStays(arrivals, a, history[k], id, |sent[k]|, sent[k]);
    }
  }

  lemma ExplainsGrows(arrivals: seq<Incoming>, history: seq<seq<nat>>, sent: seq<Bytes>, picks: seq<nat>, bytes: Bytes)
    requires Explains(arrivals, history, sent) && IsWhole(arrivals, picks, bytes)
    requires forall k :: 0 <= k < |history| ==> Before(history[k], picks)
    ensures Explains(arrivals, history + [picks], sent + [bytes])
  {
    hide IsWhole, Before;
  }

  /** What was there before a new arrival comes before it. */
  lemma HistoryBefore(arrivals: seq<Incoming>, history: seq<seq<nat>>, sent: seq<Bytes>, picks: seq<nat>)
    requires Explains(arrivals, history, sent)
    requires forall k :: 0 <= k < |history| ==> Before(history[k], picks)
    ensures forall k :: 0 <= k < |history| ==> Before(history[k], picks + [|arrivals|])
  {
    forall k | 0 <= k < |history| ensures Before(history[k], picks + [|arrivals|]) {
      assert IsWhole(arrivals, history[k], sent[k]);
      var id :| AssembledFrom(arrivals, history[k], id, |sent[k]|, sent[k]);
      assert Before(history[k], picks);
    }
  }

  /** The picks of the flow in flight after one more arrival was accepted into it. */
  ghost function NextPicks(picks: seq<nat>, arrivals: seq<Incoming>, a: Incoming): seq<nat> {
    (if a.p.count == 0 then [] else picks) + [|arrivals|]
  }

  /** What an accepting step does, before the check for completeness. */
  ghost function Accepted(f: Flow, a: Incoming): Option<Flow> {
    var size := DeclaredSize(a.p);
    if size.None? || a.p.data == [] || |a.p.data| > CHUNK_SIZE then None
    else if a.p.count == 0 then
      if size.value == 0 || size.value > UDP_MAX_FORWARD_BYTES || |a.p.data| > size.value then None
      else if f.id.Some? && f.id.value != IdOf(a.p) && !Stale(f, a) then None
      else Some(Flow(Some(IdOf(a.p)), a.p.data, 0, size.value, a.stamped))
    else if f.id != Some(IdOf(a.p)) || a.p.count != f.previousCount + 1 || size.value != f.expectedSize
            || |a.p.data| > f.expectedSize - |f.packet| then None
    else Some(f.(packet := f.packet + a.p.data, previousCount := a.p.count, lastActivity := a.stamped))
  }

  /** A packet is accepted, ends the flow, or changes nothing. */
  lemma StepCases(f: Flow, a: Incoming)
    requires Valid(f)
    ensures match Accepted(f, a)
            case Some(g) => Step(f, a) == Completed(g) && |g.packet| <= g.expectedSize <= UDP_MAX_FORWARD_BYTES
            case None => Step(f, a).1 == None && (Step(f, a).0 == f || Step(f, a).0 == NoFlow(f.lastActivity))
  {
    hide DeclaredSize;
  }

  lemma AcceptedAssembles(
    arrivals: seq<Incoming>, a: Incoming, history: seq<seq<nat>>, sent: seq<Bytes>, picks: seq<nat>, f: Flow)
    requires Explains(arrivals, history, sent) && InFlight(arrivals, history, picks, f)
    requires Accepted(f, a).Some?
    ensures InFlight(arrivals + [a], history, NextPicks(picks, arrivals, a), Accepted(f, a).value)
  {
    hide Explains, AssembledFrom, DeclaredSize, Before;
    var g := Accepted(f, a).value;
    var base := if a.p.count == 0 then [] else picks;
    AssemblyGrows(arrivals, a, base, IdOf(a.p), g.expectedSize, if a.p.count == 0 then [] else f.packet);
    assert [] + a.p.data == a.p.data;
    forall k | 0 <= k < |history| ensures Before(history[k], base) {
      NothingAfter(history[k]);
    }
    HistoryBefore(arrivals, history, sent, base);
  }

  lemma NothingAfter(a: seq<nat>)
    ensures Before(a, [])
  {
  }

  lemma StepExplained(
    arrivals: seq<Incoming>, a: Incoming, history: seq<seq<nat>>, sent: seq<Bytes>, picks: seq<nat>, f: Flow)
    returns (history': seq<seq<nat>>, picks': seq<nat>)
    requires Valid(f) && Explains(arrivals, history, sent) && InFlight(arrivals, history, picks, f)
    ensures var (g, out) := Step(f, a);
            Explains(arrivals + [a], history', sent + Sent(out)) && InFlight(arrivals + [a], history', picks', g)
  {
    hide Explains, AssembledFrom, Step, Accepted, Before, Valid;
    StepCases(f, a);
    ExplainsStays(arrivals, a, history, sent);
    history', picks' := history, [];
    assert sent + [] == sent;
    if Accepted(f, a).Some? {
      var g := Accepted(f, a).value;
      AcceptedAssembles(arrivals, a, history, sent, picks, f);
      AcceptedHasId(f, a);
      picks' := NextPicks(picks, arrivals, a);
      if |g.packet| == g.expectedSize {
        AcceptedNotEmpty(f, a);
        ExplainsGrows(arrivals + [a], history, sent, picks', g.packet);
        history', picks' := history + [picks'], [];
      }
    } else if Step(f, a).0.id.Some? {
      AssemblyStays(arrivals, a, picks, f.id.value, f.expectedSize, f.packet);
      picks' := picks;
    }
  }

  lemma AcceptedHasId(f: Flow, a: Incoming)
    requires Accepted(f, a).Some?
    ensures Accepted(f, a).value.id == Some(IdOf(a.p))
  {
  }

  lemma AcceptedNotEmpty(f: Flow, a: Incoming)
    requires Accepted(f, a).Some?
    ensures |Accepted(f, a).value.packet| >= 1
  {
  }

  lemma {:induction false} RunExplained(start: nat, arrivals: seq<Incoming>)
    returns (history: seq<seq<nat>>, picks: seq<nat>)
    ensures var r := Run(NoFlow(start), arrivals);
            Explains(arrivals, history, r.sent) && InFlight(arrivals, history, picks, r.flow)
    decreases |arrivals|
  {
    hide Step, Explains, AssembledFrom, Before, Valid;
    if arrivals == [] {
      history, picks := [], [];
      NothingExplained(arrivals);
    } else {
      var n := |arrivals| - 1;
      var before := Run(NoFlow(start), arrivals[..n]);
      history, picks := RunExplained(start, arrivals[..n]);
      FreshIsValid(start);
      RunKeeps(NoFlow(start), arrivals[..n]);
      history, picks := StepExplained(arrivals[..n], arrivals[n], history, before.sent, picks, before.flow);
      assert arrivals[..n] + [arrivals[n]] == arrivals;
    }
  }

  lemma FreshIsValid(start: nat)
    ensures Valid(NoFlow(start))
  {
  }

  lemma NothingExplained(arrivals: seq<Incoming>)
    ensures Explains(arrivals, [], [])
  {
  }

  /**
    Safety against any packets whatever: every datagram that is forwarded is put together from arrivals with
    counts 0, 1, 2, ..., one id and one declared size, in the order of arrival; it has exactly that size,
    between 1 byte and 4 MiB; and no arrival is used for two datagrams.
   */
  lemma OnlyWholeDatagrams(start: nat, arrivals: seq<Incoming>)
    ensures exists history :: Explains(arrivals, history, Run(NoFlow(start), arrivals).sent)
    ensures Valid(Run(NoFlow(start), arrivals).flow)
  {
    hide Run, Explains, InFlight, Valid;
    var history, picks := RunExplained(start, arrivals);
    FreshIsValid(start);
    RunKeeps(NoFlow(start), arrivals);
  }

  // ---- Non-interference ----

  /** A packet of another id that may not take over. */
  predicate Foreign(f: Flow, a: Incoming) {
    f.id.Some? && f.id.value != IdOf(a.p) && (a.p.count > 0 || !Stale(f, a))
  }

  lemma ForeignIgnored(f: Flow, a: Incoming)
    requires Foreign(f, a)
    ensures Step(f, a) == (f, None)
  {
    hide DeclaredSize, Completed;
  }

  /** The arrivals whose positions are not in `dropped`. */
  function Without(arrivals: seq<Incoming>, dropped: set<nat>): seq<Incoming> {
    if arrivals == [] then [] else
      var n := |arrivals| - 1;
      Without(arrivals[..n], dropped) + if n in dropped then [] else [arrivals[n]]
  }

  /**
    Non-interference: take away any packets of other ids that arrived while a flow was in flight (and was not
    stale, if they were first fragments). Neither what is sent nor the state of the forwarder changes.
   */
  lemma {:induction false} ForeignPacketsDoNotMatter(f: Flow, arrivals: seq<Incoming>, dropped: set<nat>)
    requires forall k :: k in dropped && k < |arrivals| ==> Foreign(Run(f, arrivals[..k]).flow, arrivals[k])
    ensures Run(f, Without(arrivals, dropped)) == Run(f, arrivals)
    decreases |arrivals|
  {
    hide Step, Foreign;
    if arrivals != [] {
      var n := |arrivals| - 1;
      assert forall k :: 0 <= k < n ==> arrivals[..n][..k] == arrivals[..k];
      ForeignPacketsDoNotMatter(f, arrivals[..n], dropped);
      if n in dropped {
        ForeignIgnored(Run(f, arrivals[..n]).flow, arrivals[n]);
        assert Without(arrivals, dropped) == Without(arrivals[..n], dropped);
      } else {
        RunLast(f, Without(arrivals[..n], dropped), arrivals[n]);
      }
    }
  }

  // ---- What a flow survives ----

  /** The next fragment of the flow in flight, as its numbers say; its payload may still be wrong. */
  predicate InTurn(f: Flow, a: Incoming) {
    && f.id == Some(IdOf(a.p)) && a.p.count > 0 && a.p.count == f.previousCount + 1
    && DeclaredSize(a.p) == Some(f.expectedSize)
  }

  /**
    A continuation does something to a flow exactly if it is the next fragment of that flow: a repeated one, one
    out of turn, one of another id or one with another declared size leaves it as it is.
  */
  lemma OutOfTurnChangesNothing(f: Flow, a: Incoming)
    requires Valid(f) && a.p.count > 0
    ensures Step(f, a) == (f, None) <==> !InTurn(f, a)
  {
    hide DeclaredSize, IdOf;
  }

  /** The next fragment is taken if its payload is between 1 and 940 bytes and not too long; else the flow is over. */
  lemma InTurnIsTakenOrFatal(f: Flow, a: Incoming)
    requires Valid(f) && InTurn(f, a)
    ensures var (g, out) := Step(f, a); var size := |f.packet| + |a.p.data|;
            if 1 <= |a.p.data| <= 940 && size <= f.expectedSize then
              if size == f.expectedSize then g.id == None && out == Some(f.packet + a.p.data)
              else
                && g == f.(packet := f.packet + a.p.data, previousCount := a.p.count, lastActivity := a.stamped)
                && out == None
            else g.id == None && out == None
  {
    hide DeclaredSize, IdOf;
  }

  /** A first fragment that could start a flow, whatever is in flight: sizes between 1 byte and 4 MiB. */
  predicate CouldStart(a: Incoming) {
    && a.p.count == 0 && DeclaredSize(a.p).Some?
    && 1 <= |a.p.data| <= 940 && |a.p.data| <= DeclaredSize(a.p).value <= 4_194_304
  }

  /**
    When a first fragment takes over, in clock readings: exactly if it could start a flow and nothing is in
    flight, or its own flow is, or more than two seconds have gone by since a fragment was last accepted. Else it
    changes nothing.
  */
  lemma TakesOverExactly(f: Flow, a: Incoming)
    requires Valid(f) && a.p.count == 0
    ensures var takes := CouldStart(a) &&
              (f.id.None? || f.id.value == IdOf(a.p) || a.checked > f.lastActivity + 2_000_000_000);
            var (g, out) := Step(f, a);
            if !takes then g == f && out == None
            else if |a.p.data| == DeclaredSize(a.p).value then g.id == None && out == Some(a.p.data)
            else g == Flow(Some(IdOf(a.p)), a.p.data, 0, DeclaredSize(a.p).value, a.stamped) && out == None
  {
    hide DeclaredSize, IdOf;
  }

  /** A packet whose size field is not a number changes nothing. */
  lemma UnreadableSizeIgnored(f: Flow, a: Incoming)
    requires DeclaredSize(a.p).None?
    ensures Step(f, a) == (f, None)
  {
  }
}
