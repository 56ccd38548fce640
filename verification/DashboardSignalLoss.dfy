/** Runs in which the three selects of `signalClient` lose an update
    (internal/web/handlers/dashboard.go:444-458). */
module DashboardSignalLoss {
  import opened DashboardUpdates
  import opened DashboardSignalRace
  import DashboardPipeline

  /** An update of the whole page. */
  function Page(k: nat): Cause {
    DashboardPipeline.Opening(k)
  }

  /** `k` updates signalled one after the other by publisher 0, none received. */
  lemma {:induction false} Fill(n: nat, k: nat) returns (steps: seq<Step>)
    requires n > 0 && k <= QUEUE_CAPACITY
    ensures Run(Init(n), steps).Some?
    ensures var s := Run(Init(n), steps).value;
            |s.queue| == k && s.lost == multiset{} && s.publishers == Init(n).publishers
  {
    steps := [];
    if k > 0 {
      var before := Fill(n, k - 1);
      var s := Run(Init(n), before).value;
      var s1 := Apply(s, Begin(0, Page(k)));
      var s2 := Apply(s1, Offer(0));
      assert s2.publishers == Init(n).publishers;
      steps := before + [Begin(0, Page(k)), Offer(0)];
      RunAppend(Init(n), before, [Begin(0, Page(k)), Offer(0)]);
      RunOne(s1, Offer(0), []);
      RunOne(s, Begin(0, Page(k)), [Offer(0)]);
    }
  }

  /** The client receives everything while publisher `p` waits between selects. */
  lemma {:induction false} Drain(s: State, p: nat) returns (steps: seq<Step>)
    requires p < |s.publishers| && s.publishers[p].BeforeTake?
    ensures Run(s, steps).Some?
    ensures var t := Run(s, steps).value;
            && t.queue == [] && t.lost == s.lost && |t.publishers| == |s.publishers|
            && t.publishers[p].BeforeTake? && t.publishers[p].item == s.publishers[p].item
    decreases |s.queue|
  {
    steps := [];
    if s.queue != [] {
      var rest := Drain(Apply(s, Receive), p);
      steps := [Receive] + rest;
      RunOne(s, Receive, rest);
    }
  }

  /** Both losses really happen. With one publisher, the client can drain the channel
      between the first two selects. */
  lemma LossByDraining() returns (steps: seq<Step>)
    ensures Run(Init(1), steps).Some? && Enabled(Run(Init(1), steps).value, Take(0))
    ensures DropsHere(Run(Init(1), steps).value, Take(0))
  {
    var full := Fill(1, QUEUE_CAPACITY);
    var s := Run(Init(1), full).value;
    var s1 := Apply(s, Begin(0, Page(9)));
    var s2 := Apply(s1, Offer(0));
    var drain := Drain(s2, 0);
    RunOne(s1, Offer(0), drain);
    RunOne(s, Begin(0, Page(9)), [Offer(0)] + drain);
    RunAppend(Init(1), full, [Begin(0, Page(9))] + ([Offer(0)] + drain));
    steps := full + ([Begin(0, Page(9))] + ([Offer(0)] + drain));
  }

  /** With two publishers, the second can refill the slot that the first one freed. */
  lemma LossByRefilling() returns (steps: seq<Step>)
    ensures Run(Init(2), steps).Some? && Enabled(Run(Init(2), steps).value, Return(0))
    ensures DropsHere(Run(Init(2), steps).value, Return(0))
  {
    var full := Fill(2, QUEUE_CAPACITY);
    var s := Run(Init(2), full).value;
    var tail := Refill(s);
    RunAppend(Init(2), full, tail);
    steps := full + tail;
  }

  lemma Refill(s: State) returns (tail: seq<Step>)
    requires |s.queue| == QUEUE_CAPACITY && s.publishers == [Outside, Outside]
    ensures Run(s, tail).Some?
    ensures var t := Run(s, tail).value; |t.queue| == QUEUE_CAPACITY && |t.publishers| == 2 && t.publishers[0].BeforeReturn?
  {
    var s1 := Apply(s, Begin(0, Page(9)));
    var s2 := Apply(s1, Begin(1, Page(10)));
    var s3 := Apply(s2, Offer(0));
    var s4 := Apply(s3, Take(0));
    RunOne(s4, Offer(1), []);
    RunOne(s3, Take(0), [Offer(1)]);
    RunOne(s2, Offer(0), [Take(0), Offer(1)]);
    RunOne(s1, Begin(1, Page(10)), [Offer(0), Take(0), Offer(1)]);
    RunOne(s, Begin(0, Page(9)), [Begin(1, Page(10)), Offer(0), Take(0), Offer(1)]);
    tail := [Begin(0, Page(9)), Begin(1, Page(10)), Offer(0), Take(0), Offer(1)];
  }
}
