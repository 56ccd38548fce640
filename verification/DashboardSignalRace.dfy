/** `signalClient` select by select, with any number of publishers at once, who hold
    `clientsMu` for reading only (internal/web/handlers/dashboard.go:444-458). */
module DashboardSignalRace {
  import opened Identifiers
  import opened DashboardUpdates
  import DashboardPipeline

  /** Why an update is sent, and what it asks for. */
  type Cause = DashboardPipeline.Cause

  function Asked(e: Cause): Update {
    DashboardPipeline.Asked(e)
  }

  type Events = multiset<Cause>

  /** An update with the multiset of causes that were merged into it, so that losing a
      cause, or delivering one twice, would show. The code has only the update. */
  datatype Item = Item(update: Update, events: Events)

  function ItemFor(e: Cause): Item {
    Item(Asked(e), multiset{e})
  }

  function Join(a: Item, b: Item): Item {
    Item(Merge(a.update, b.update), a.events + b.events)
  }

  /** Where a publisher is inside `signalClient`. The counters are history only:
      channel operations of other parties since this publisher's last select. */
  datatype PC =
    | Outside
    | BeforeOffer(item: Item)
    | BeforeTake(item: Item, taken: nat)     // the channel was full; items taken out by others since
    | BeforeReturn(item: Item, added: nat)   // holds a merged update; items put in by others since

  datatype State = State(
    queue: seq<Item>,
    publishers: seq<PC>,
    signalled: Events,
    delivered: seq<Item>,   // what the client received
    lost: Events
  )

  function Init(n: nat): State {
    State([], seq(n, _ => Outside), multiset{}, [], multiset{})
  }

  datatype Step =
    | Begin(p: nat, e: Cause)
    | Offer(p: nat)     // the outer select
    | Take(p: nat)      // the middle select
    | Return(p: nat)    // the inner select
    | Receive           // the client

  predicate Enabled(s: State, step: Step) {
    match step
    case Begin(p, e) => p < |s.publishers| && s.publishers[p].Outside? && Asked(e).sections != 0
    case Offer(p) => p < |s.publishers| && s.publishers[p].BeforeOffer?
    case Take(p) => p < |s.publishers| && s.publishers[p].BeforeTake?
    case Return(p) => p < |s.publishers| && s.publishers[p].BeforeReturn?
    case Receive => s.queue != []
  }

  function SeesTake(pc: PC): PC {
    if pc.BeforeTake? then pc.(taken := pc.taken + 1) else pc
  }

  function SeesAdd(pc: PC): PC {
    if pc.BeforeReturn? then pc.(added := pc.added + 1) else pc
  }

  /** An item leaves the channel; every publisher notes it. */
  function NoteTake(publishers: seq<PC>): seq<PC> {
    seq(|publishers|, i requires 0 <= i < |publishers| => SeesTake(publishers[i]))
  }

  /** An item enters the channel; every publisher notes it. */
  function NoteAdd(publishers: seq<PC>): seq<PC> {
    seq(|publishers|, i requires 0 <= i < |publishers| => SeesAdd(publishers[i]))
  }

  function Apply(s: State, step: Step): State
    requires Enabled(s, step)
  {
    match step
    case Begin(p, e) =>
      s.(publishers := s.publishers[p := BeforeOffer(ItemFor(e))], signalled := s.signalled + multiset{e})
    case Offer(p) =>
      var item := s.publishers[p].item;
      if |s.queue| < QUEUE_CAPACITY
      then s.(queue := s.queue + [item], publishers := NoteAdd(s.publishers)[p := Outside])
      else s.(publishers := s.publishers[p := BeforeTake(item, 0)])
    case Take(p) =>
      var item := s.publishers[p].item;
      if s.queue != []
      then s.(queue := s.queue[1..], publishers := NoteTake(s.publishers)[p := BeforeReturn(Join(s.queue[0], item), 0)])
      else s.(publishers := s.publishers[p := Outside], lost := s.lost + item.events)
    case Return(p) =>
      var item := s.publishers[p].item;
      if |s.queue| < QUEUE_CAPACITY
      then s.(queue := s.queue + [item], publishers := NoteAdd(s.publishers)[p := Outside])
      else s.(publishers := s.publishers[p := Outside], lost := s.lost + item.events)
    case Receive =>
      s.(queue := s.queue[1..], publishers := NoteTake(s.publishers), delivered := s.delivered + [s.queue[0]])
  }

  function Run(s: State, steps: seq<Step>): Option<State>
    decreases |steps|
  {
    if steps == [] then Some(s)
    else if Enabled(s, steps[0]) then Run(Apply(s, steps[0]), steps[1..])
    else None
  }

  // ---------------------------------------------------------------- conservation

  function Hand(pc: PC): Events {
    if pc.Outside? then multiset{} else pc.item.events
  }

  /** How often `e` was merged into these items. */
  function Count(items: seq<Item>, e: Cause): nat {
    if items == [] then 0 else items[0].events[e] + Count(items[1..], e)
  }

  /** How often `e` is in some publisher's hand. */
  function InHands(publishers: seq<PC>, e: Cause): nat {
    if publishers == [] then 0 else Hand(publishers[0])[e] + InHands(publishers[1..], e)
  }

  lemma {:induction false} CountAppend(items: seq<Item>, item: Item, e: Cause)
    ensures Count(items + [item], e) == Count(items, e) + item.events[e]
  {
    if items == [] {
      assert items + [item] == [item];
    } else {
      CountAppend(items[1..], item, e);
      assert (items + [item])[1..] == items[1..] + [item];
    }
  }

  lemma {:induction false} HandsUpdate(publishers: seq<PC>, p: nat, pc: PC, e: Cause)
    requires p < |publishers|
    ensures InHands(publishers[p := pc], e) == InHands(publishers, e) - Hand(publishers[p])[e] + Hand(pc)[e]
  {
    if p == 0 {
      assert publishers[0 := pc][1..] == publishers[1..];
    } else {
      HandsUpdate(publishers[1..], p - 1, pc, e);
      assert publishers[p := pc][1..] == publishers[1..][p - 1 := pc];
    }
  }

  lemma {:induction false} NotesKeepHands(publishers: seq<PC>, e: Cause)
    ensures InHands(NoteTake(publishers), e) == InHands(publishers, e) == InHands(NoteAdd(publishers), e)
  {
    if publishers != [] {
      NotesKeepHands(publishers[1..], e);
      assert NoteTake(publishers)[1..] == NoteTake(publishers[1..]);
      assert NoteAdd(publishers)[1..] == NoteAdd(publishers[1..]);
    }
  }

  /** Cause `e` is accounted for. */
  ghost predicate Conserved(s: State, e: Cause) {
    s.signalled[e] == Count(s.queue, e) + InHands(s.publishers, e) + Count(s.delivered, e) + s.lost[e]
  }

  /** Sending the item's update refreshes exactly what its causes ask for. */
  ghost predicate Exact(item: Item) {
    && item.events != multiset{} && WellFormed(item.update)
    && forall rows, region :: Refreshes(item.update, rows, region) <==> AskedBy(item.events, rows, region)
  }

  predicate AskedBy(events: Events, rows: set<UUID>, region: Region) {
    exists e :: e in events && region in DashboardPipeline.CauseRegions(e, rows)
  }

  lemma OneCauseIsExact(e: Cause)
    requires Asked(e).sections != 0
    ensures Exact(ItemFor(e))
  {
    if e.Mutation? {
      EventUpdatesAreWellFormed(e.event);
    }
    forall rows, region
      ensures Refreshes(Asked(e), rows, region) <==> AskedBy(multiset{e}, rows, region)
    {
      RenderingMeetsDemand(Asked(e), rows, region);
      DashboardPipeline.CauseAsksExactly(e, rows, region);
      assert e in multiset{e};
    }
  }

  lemma JoinIsExact(a: Item, b: Item)
    requires Exact(a) && Exact(b)
    ensures Exact(Join(a, b))
  {
    forall rows, region
      ensures Refreshes(Merge(a.update, b.update), rows, region) <==> AskedBy(a.events + b.events, rows, region)
    {
      RenderingIsAHomomorphism(a.update, b.update, rows, region);
      AskedByBoth(a.events, b.events, rows, region);
    }
    RenderingIsAHomomorphism(a.update, b.update, {}, ListRegion);
    var e :| e in a.events;
    assert e in a.events + b.events;
  }

  lemma AskedByBoth(a: Events, b: Events, rows: set<UUID>, region: Region)
    ensures AskedBy(a + b, rows, region) <==> AskedBy(a, rows, region) || AskedBy(b, rows, region)
  {
    assert forall e :: e in a + b <==> e in a || e in b;
  }

  ghost predicate AllExact(items: seq<Item>) {
    forall i :: 0 <= i < |items| ==> Exact(items[i])
  }

  ghost predicate HandsExact(publishers: seq<PC>) {
    forall p :: 0 <= p < |publishers| && !publishers[p].Outside? ==> Exact(publishers[p].item)
  }

  predicate PCInv(s: State, pc: PC) {
    && (pc.BeforeTake? ==> |s.queue| + pc.taken >= QUEUE_CAPACITY)
    && (pc.BeforeReturn? ==> |s.queue| <= QUEUE_CAPACITY - 1 + pc.added)
    && (pc.BeforeReturn? && |s.publishers| == 1 ==> pc.added == 0)
  }

  ghost predicate Inv(s: State) {
    && |s.queue| <= QUEUE_CAPACITY
    && (forall e :: Conserved(s, e))
    && AllExact(s.queue) && AllExact(s.delivered) && HandsExact(s.publishers)
    && (forall p :: 0 <= p < |s.publishers| ==> PCInv(s, s.publishers[p]))
  }

  lemma InitInv(n: nat)
    ensures Inv(Init(n))
  {
    forall e
      ensures Conserved(Init(n), e)
    {
      NoHands(Init(n).publishers, e);
    }
  }

  lemma {:induction false} NoHands(publishers: seq<PC>, e: Cause)
    requires forall p :: 0 <= p < |publishers| ==> publishers[p].Outside?
    ensures InHands(publishers, e) == 0
  {
    if publishers != [] {
      NoHands(publishers[1..], e);
    }
  }

  lemma StepConserves(s: State, step: Step, e: Cause)
    requires Conserved(s, e) && Enabled(s, step)
    ensures Conserved(Apply(s, step), e)
  {
    match step
    case Begin(p, c) => HandsUpdate(s.publishers, p, BeforeOffer(ItemFor(c)), e);
    case Offer(p) =>
      if |s.queue| < QUEUE_CAPACITY {
        PutConserves(s, p, e);
      } else {
        HandsUpdate(s.publishers, p, BeforeTake(s.publishers[p].item, 0), e);
      }
    case Take(p) =>
      if s.queue != [] {
        TakeConserves(s, p, e);
      } else {
        HandsUpdate(s.publishers, p, Outside, e);
      }
    case Return(p) =>
      if |s.queue| < QUEUE_CAPACITY {
        PutConserves(s, p, e);
      } else {
        HandsUpdate(s.publishers, p, Outside, e);
      }
    case Receive =>
      NotesKeepHands(s.publishers, e);
      CountAppend(s.delivered, s.queue[0], e);
  }

  lemma PutConserves(s: State, p: nat, e: Cause)
    requires p < |s.publishers| && !s.publishers[p].Outside?
    ensures Count(s.queue + [s.publishers[p].item], e) + InHands(NoteAdd(s.publishers)[p := Outside], e)
         == Count(s.queue, e) + InHands(s.publishers, e)
  {
    NotesKeepHands(s.publishers, e);
    CountAppend(s.queue, s.publishers[p].item, e);
    HandsUpdate(NoteAdd(s.publishers), p, Outside, e);
  }

  lemma TakeConserves(s: State, p: nat, e: Cause)
    requires p < |s.publishers| && !s.publishers[p].Outside? && s.queue != []
    ensures var held := BeforeReturn(Join(s.queue[0], s.publishers[p].item), 0);
            Count(s.queue[1..], e) + InHands(NoteTake(s.publishers)[p := held], e) == Count(s.queue, e) + InHands(s.publishers, e)
  {
    NotesKeepHands(s.publishers, e);
    HandsUpdate(NoteTake(s.publishers), p, BeforeReturn(Join(s.queue[0], s.publishers[p].item), 0), e);
  }

  lemma StepKeepsExact(s: State, step: Step)
    requires AllExact(s.queue) && AllExact(s.delivered) && HandsExact(s.publishers) && Enabled(s, step)
    ensures var t := Apply(s, step); AllExact(t.queue) && AllExact(t.delivered) && HandsExact(t.publishers)
  {
    if step.Begin? {
      OneCauseIsExact(step.e);
    } else if step.Take? && s.queue != [] {
      JoinIsExact(s.queue[0], s.publishers[step.p].item);
    }
  }

  lemma StepKeepsInv(s: State, step: Step)
    requires Inv(s) && Enabled(s, step)
    ensures Inv(Apply(s, step))
  {
    var t := Apply(s, step);
    forall e
      ensures Conserved(t, e)
    {
      StepConserves(s, step, e);
    }
    StepKeepsExact(s, step);
    forall p | 0 <= p < |t.publishers|
      ensures PCInv(t, t.publishers[p])
    {
      StepKeepsPC(s, step, p);
    }
  }

  lemma StepKeepsPC(s: State, step: Step, p: nat)
    requires |s.queue| <= QUEUE_CAPACITY && Enabled(s, step) && p < |s.publishers|
    requires PCInv(s, s.publishers[p])
    requires !step.Receive? ==> PCInv(s, s.publishers[step.p])
    ensures PCInv(Apply(s, step), Apply(s, step).publishers[p])
  {
  }

  lemma {:induction false} RunKeepsInv(s: State, steps: seq<Step>)
    requires Inv(s)
    ensures Run(s, steps).Some? ==>
              Inv(Run(s, steps).value) && |Run(s, steps).value.publishers| == |s.publishers|
    decreases |steps|
  {
    if steps != [] && Enabled(s, steps[0]) {
      StepKeepsInv(s, steps[0]);
      RunKeepsInv(Apply(s, steps[0]), steps[1..]);
    }
  }

  /** In every run: each event signalled is, exactly once, queued, in a publisher's
      hand, delivered, or counted as lost, and nothing else appears; the queue never
      exceeds its capacity. */
  lemma EventsAreConserved(n: nat, steps: seq<Step>, e: Cause)
    ensures Run(Init(n), steps).Some? ==>
              var s := Run(Init(n), steps).value;
              && |s.queue| <= 8
              && s.signalled[e] == Count(s.queue, e) + InHands(s.publishers, e) + Count(s.delivered, e) + s.lost[e]
  {
    if Run(Init(n), steps).Some? {
      InitInv(n);
      RunKeepsInv(Init(n), steps);
      assert Conserved(Run(Init(n), steps).value, e);
    }
  }

  /** However the selects interleave, what the client receives refreshes exactly what
      the events merged into it ask for, and these were signalled. */
  lemma DeliveredIsExact(n: nat, steps: seq<Step>, i: nat, rows: set<UUID>, region: Region)
    ensures Run(Init(n), steps).Some? && i < |Run(Init(n), steps).value.delivered| ==>
              var s := Run(Init(n), steps).value;
              && s.delivered[i].events <= s.signalled
              && (Refreshes(s.delivered[i].update, rows, region) <==> AskedBy(s.delivered[i].events, rows, region))
  {
    if Run(Init(n), steps).Some? && i < |Run(Init(n), steps).value.delivered| {
      InitInv(n);
      RunKeepsInv(Init(n), steps);
      var s := Run(Init(n), steps).value;
      assert Exact(s.delivered[i]);
      forall e
        ensures s.delivered[i].events[e] <= s.signalled[e]
      {
        assert Conserved(s, e);
        CountedAt(s.delivered, i, e);
      }
    }
  }

  lemma {:induction false} CountedAt(items: seq<Item>, i: nat, e: Cause)
    requires i < |items|
    ensures items[i].events[e] <= Count(items, e)
  {
    if i > 0 {
      CountedAt(items[1..], i - 1, e);
    }
  }

  // ---------------------------------------------------------------- when an update is lost

  /** The two inner `default` arms. */
  predicate DropsHere(s: State, step: Step)
    requires Enabled(s, step)
  {
    (step.Take? && s.queue == []) || (step.Return? && |s.queue| == QUEUE_CAPACITY)
  }

  /** An update is lost exactly at the two inner `default` arms. The middle one is
      reached only after others took at least eight items since the publisher found
      the channel full; the inner one only after another publisher refilled the slot
      that this one freed. */
  lemma LossExactly(n: nat, steps: seq<Step>, step: Step)
    ensures Run(Init(n), steps).Some? && Enabled(Run(Init(n), steps).value, step) ==>
              var s := Run(Init(n), steps).value;
              && (Apply(s, step).lost != s.lost <==> DropsHere(s, step))
              && (DropsHere(s, step) && step.Take? ==> s.publishers[step.p].taken >= 8)
              && (DropsHere(s, step) && step.Return? ==> s.publishers[step.p].added >= 1)
              && (DropsHere(s, step) && n == 1 ==> step.Take?)
  {
    if Run(Init(n), steps).Some? && Enabled(Run(Init(n), steps).value, step) {
      InitInv(n);
      RunKeepsInv(Init(n), steps);
      var s := Run(Init(n), steps).value;
      if step.Take? || step.Return? {
        assert PCInv(s, s.publishers[step.p]) && Exact(s.publishers[step.p].item);
        var events := s.publishers[step.p].item.events;
        assert |s.lost + events| == |s.lost| + |events|;
      }
    }
  }

  /** The selects that publisher `p` may still take. */
  function SelectsLeft(pc: PC): nat {
    match pc
    case Outside => 0
    case BeforeOffer(_) => 3
    case BeforeTake(_, _) => 2
    case BeforeReturn(_, _) => 1
  }

  predicate IsSelectOf(step: Step, p: nat) {
    step == Offer(p) || step == Take(p) || step == Return(p)
  }

  function SelectsOf(steps: seq<Step>, p: nat): nat {
    if steps == [] then 0 else SelectsOf(steps[1..], p) + if IsSelectOf(steps[0], p) then 1 else 0
  }

  function CallsOf(steps: seq<Step>, p: nat): nat {
    if steps == [] then 0 else CallsOf(steps[1..], p) + if steps[0].Begin? && steps[0].p == p then 1 else 0
  }

  /** Signalling never blocks. Inside a call, and only there, a select of it can be taken
      at once, whatever is queued; a call takes at most three, whatever the other
      parties do meanwhile; and when it has taken all it may, it is over. */
  lemma {:induction false} SignallingIsBounded(s: State, steps: seq<Step>, p: nat)
    ensures p < |s.publishers| && Run(s, steps).Some? ==>
              var t := Run(s, steps).value;
              && |t.publishers| == |s.publishers|
              && (t.publishers[p].Outside? <==> !Enabled(t, Offer(p)) && !Enabled(t, Take(p)) && !Enabled(t, Return(p)))
              && SelectsOf(steps, p) + SelectsLeft(t.publishers[p]) <= SelectsLeft(s.publishers[p]) + 3 * CallsOf(steps, p)
              && (SelectsOf(steps, p) >= SelectsLeft(s.publishers[p]) + 3 * CallsOf(steps, p) ==> t.publishers[p].Outside?)
    decreases |steps|
  {
    if p < |s.publishers| && Run(s, steps).Some? && steps != [] {
      SignallingStep(s, steps[0], p);
      SignallingIsBounded(Apply(s, steps[0]), steps[1..], p);
    }
  }

  lemma SignallingStep(s: State, step: Step, p: nat)
    requires p < |s.publishers| && Enabled(s, step)
    ensures |Apply(s, step).publishers| == |s.publishers|
    ensures SelectsLeft(Apply(s, step).publishers[p]) + (if IsSelectOf(step, p) then 1 else 0)
         <= SelectsLeft(s.publishers[p]) + if step.Begin? && step.p == p then 3 else 0
  {
  }

  /** With nobody else at the channel between its selects, the three selects are
      the atomic `Signal`, updates and all, and nothing is lost. */
  lemma UninterruptedIsAtomic(n: nat, before: seq<Step>, p: nat)
    ensures Run(Init(n), before).Some? && MayOffer(Run(Init(n), before).value, p) ==>
              var s := Run(Init(n), before).value;
              var steps := if |s.queue| < QUEUE_CAPACITY then [Offer(p)] else [Offer(p), Take(p), Return(p)];
              var t := Run(s, steps);
              && |s.queue| <= QUEUE_CAPACITY
              && t.Some?
              && t.value.queue == Signal(s.queue, s.publishers[p].item, Join)
              && t.value.lost == s.lost && t.value.signalled == s.signalled
  {
    if Run(Init(n), before).Some? && MayOffer(Run(Init(n), before).value, p) {
      InitInv(n);
      RunKeepsInv(Init(n), before);
      var s := Run(Init(n), before).value;
      if |s.queue| < QUEUE_CAPACITY {
        RunOne(s, Offer(p), []);
      } else {
        var s1 := Apply(s, Offer(p));
        var s2 := Apply(s1, Take(p));
        RunOne(s2, Return(p), []);
        RunOne(s1, Take(p), [Return(p)]);
        RunOne(s, Offer(p), [Take(p), Return(p)]);
      }
    }
  }

  predicate MayOffer(s: State, p: nat) {
    p < |s.publishers| && s.publishers[p].BeforeOffer?
  }

  lemma RunOne(s: State, step: Step, rest: seq<Step>)
    requires Enabled(s, step)
    ensures Run(s, [step] + rest) == Run(Apply(s, step), rest)
  {
    assert ([step] + rest)[1..] == rest;
  }

  lemma {:induction false} RunAppend(s: State, a: seq<Step>, b: seq<Step>)
    requires Run(s, a).Some?
    ensures Run(s, a + b) == Run(Run(s, a).value, b)
    decreases |a|
  {
    if a == [] {
      assert a + b == b;
    } else {
      assert (a + b)[1..] == a[1..] + b;
      RunAppend(Apply(s, a[0]), a[1..], b);
    }
  }
}
