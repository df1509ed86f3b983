/** All pages at once: a process has one connection and one daemon for all of them. When no application asks for a
    page while it holds another and none has terminated, everyone is served on every page; an application that does
    can wait for ever, with its daemon behind its own lock. */
module NestedLocks {
  import opened Bytes
  import opened PageProtocol
  import opened PageTheorems
  import opened LoopAsWritten
  import opened Cluster
  import opened Progress
  import opened ClusterProgress
  import Waiting

  // ---------------------------------------------------------------- a bound on the work

  /** Steps that ask for nothing new, on any page. */
  predicate FinishingStep(step: Step) {
    step.OnPage? && Finishing(step.l)
  }

  predicate AllFinishingSteps(run: seq<Step>) {
    forall k :: 0 <= k < |run| ==> FinishingStep(run[k])
  }

  /** The work of the first n pages. */
  ghost function TotalWork(c: Cluster, n: nat): nat
    requires Shaped(c) && n <= |c.homes|
  {
    if n == 0 then 0 else TotalWork(c, n - 1) + Work(PageOf(c, n - 1))
  }

  lemma WorkOn(c: Cluster, p: nat, l: Label, q: nat)
    requires ClusterReachable(c) && Shaped(c) && MayStep(c, OnPage(p, l)) && Finishing(l) && q < |c.homes|
    ensures var work, work' := Work(PageOf(c, q)), Work(PageOf(StepTo(c, OnPage(p, l)), q));
            if p == q then work' < work else work' == work
  {
    StepProjects(c, p, l, q);
    PagesOfReachable(c);
    if p == q { StepDescends(PageOf(c, p), l); }
  }

  /** On page q c' has the work of c left, and less on page p. */
  ghost predicate LessOn(c: Cluster, c': Cluster, p: nat, q: nat)
    requires Shaped(c) && Shaped(c') && |c'.homes| == |c.homes| && q < |c.homes|
  {
    if p == q then Work(PageOf(c', q)) < Work(PageOf(c, q)) else Work(PageOf(c', q)) == Work(PageOf(c, q))
  }

  lemma {:induction false} LessInAll(c: Cluster, c': Cluster, p: nat, n: nat)
    requires Shaped(c) && Shaped(c') && |c'.homes| == |c.homes| && n <= |c.homes|
    requires forall q :: 0 <= q < n ==> LessOn(c, c', p, q)
    ensures if p < n then TotalWork(c', n) < TotalWork(c, n) else TotalWork(c', n) == TotalWork(c, n)
  {
    if n > 0 {
      LessInAll(c, c', p, n - 1);
      assert LessOn(c, c', p, n - 1);
    }
  }

  lemma StepWork(c: Cluster, p: nat, l: Label)
    requires ClusterReachable(c) && Shaped(c) && MayStep(c, OnPage(p, l)) && Finishing(l)
    ensures TotalWork(StepTo(c, OnPage(p, l)), |c.homes|) < TotalWork(c, |c.homes|)
  {
    var c' := StepTo(c, OnPage(p, l));
    forall q | 0 <= q < |c.homes|
      ensures LessOn(c, c', p, q)
    {
      WorkOn(c, p, l, q);
    }
    LessInAll(c, c', p, |c.homes|);
  }

  /** No run of finishing steps is longer than the work of all pages. */
  lemma {:induction false} AllFinishingEnds(c: Cluster, run: seq<Step>)
    requires ClusterReachable(c) && Shaped(c) && MayRun(c, run) && AllFinishingSteps(run)
    ensures |run| + TotalWork(RunTo(c, run), |c.homes|) <= TotalWork(c, |c.homes|)
    decreases |run|
  {
    if run != [] {
      assert FinishingStep(run[0]);
      StepWork(c, run[0].p, run[0].l);
      ClusterStep(c, run[0]);
      AllFinishingEnds(StepTo(c, run[0]), run[1..]);
    }
  }

  // ---------------------------------------------------------------- without nested locks

  ghost predicate AllAtRest(c: Cluster)
    requires Shaped(c)
  {
    forall step :: FinishingStep(step) ==> !MayStep(c, step)
  }

  /** The application has not terminated, and waits for no page while it holds another. */
  predicate NotNested(n: Node) {
    && (forall q :: 0 <= q < |n.pages| ==> !n.pages[q].app.Gone?)
    && (forall p, q :: 0 <= p < |n.pages| && 0 <= q < |n.pages| && n.pages[p].app.Holding? ==> !n.pages[q].app.Waiting?)
  }

  lemma StepFirst(c: Cluster, step: Step, rest: seq<Step>)
    requires Shaped(c) && MayStep(c, step) && MayRun(StepTo(c, step), rest)
    requires FinishingStep(step) && AllFinishingSteps(rest)
    ensures AllFinishingSteps([step] + rest)
    ensures MayRun(c, [step] + rest) && RunTo(c, [step] + rest) == RunTo(StepTo(c, step), rest)
  {
    assert ([step] + rest)[1..] == rest;
  }

  /** They come to rest. */
  lemma {:induction false} AllComeToRest(c: Cluster) returns (run: seq<Step>)
    requires ClusterReachable(c) && Shaped(c)
    ensures MayRun(c, run) && AllFinishingSteps(run)
    ensures ClusterReachable(RunTo(c, run)) && AllAtRest(RunTo(c, run))
    decreases TotalWork(c, |c.homes|)
  {
    run := [];
    if !AllAtRest(c) {
      var step :| FinishingStep(step) && MayStep(c, step);
      StepWork(c, step.p, step.l);
      ClusterStep(c, step);
      var rest := AllComeToRest(StepTo(c, step));
      StepFirst(c, step, rest);
      run := [step] + rest;
    }
  }

  /** At rest such a process holds no lock, and no page it waits for has come. */
  lemma ThreadAtRest(c: Cluster, i: int, p: nat)
    requires ClusterReachable(c) && Shaped(c) && AllAtRest(c) && i in c.nodes && NotNested(c.nodes[i]) && p < |c.homes|
    ensures !c.nodes[i].pages[p].app.Holding? && !(c.nodes[i].pages[p].app.Waiting? && c.nodes[i].pages[p].uptodate)
  {
    assert FinishingStep(OnPage(p, Unlock(i))) && FinishingStep(OnPage(p, Wake(i)));
    var copy := c.nodes[i].pages[p];
    if copy.app.Waiting? && copy.uptodate { WaitMayEnd(c, i, p); }
    if copy.app.Holding? { ThreadGoesOn(c, i, p, 1, []); }
  }

  lemma MasterAtRest(c: Cluster)
    requires ClusterReachable(c) && Shaped(c) && AllAtRest(c)
    ensures c.busy.None?
  {
    PagesOfReachable(c);
    if c.busy.Some? {
      assert FinishingStep(OnPage(c.busy.value, MasterTurn)) && FinishingStep(OnPage(c.busy.value, MasterDone));
      MasterDrains(c, c.busy.value);
    }
  }

  /** Nothing is left on its connections. */
  lemma DaemonAtRest(c: Cluster, i: int)
    requires ClusterReachable(c) && Shaped(c) && AllAtRest(c) && i in c.nodes && NotNested(c.nodes[i])
    ensures c.nodes[i].acking.None? && c.nodes[i].inbox == [] && c.nodes[i].outbox == []
  {
    var n := c.nodes[i];
    PagesOfReachable(c);
    if n.acking.Some? {
      assert FinishingStep(OnPage(n.acking.value, SendAck(i)));
      AckGoesOut(c, i, n.acking.value);
    } else if n.inbox != [] {
      var p := n.inbox[0].page;
      ThreadAtRest(c, i, p);
      assert FinishingStep(OnPage(p, SlaveTaking(SlaveOn(n, p), i)));
      p := FrontStep(c, i);
    }
    MasterAtRest(c);
    if n.outbox != [] {
      MasterTakesFront(c, i);
      assert FinishingStep(OnPage(n.outbox[0].page, MasterTaking(SlaveOn(n, n.outbox[0].page), i)));
    }
  }
  /** So every page is at rest. */
  lemma PageAtRest(c: Cluster, p: nat)
    requires ClusterReachable(c) && Shaped(c) && AllAtRest(c) && p < |c.homes|
    requires forall i :: i in c.nodes ==> NotNested(c.nodes[i])
    ensures AtRest(PageOf(c, p))
  {
    var s := PageOf(c, p);
    MasterAtRest(c);
    forall l | Finishing(l)
      ensures !Enabled(s, l)
    {
      if !l.MasterTurn? && !l.MasterDone? && l.i in c.nodes {
        DaemonAtRest(c, l.i);
        ThreadAtRest(c, l.i, p);
        assert s.slaves[l.i] == SlaveOn(c.nodes[l.i], p);
      }
    }
  }

  /** And whoever still waits, for whatever page, has nothing under way for it: it was recalled while it waited. */
  lemma EveryoneIsServedEverywhere(c: Cluster, p: nat, i: int)
    requires ClusterReachable(c) && Shaped(c) && AllAtRest(c) && p < |c.homes|
    requires forall j :: j in c.nodes ==> NotNested(c.nodes[j])
    requires i in c.nodes && c.nodes[i].pages[p].app.Waiting?
    ensures !Waiting.Pending(PageOf(c, p), i)
  {
    PagesOfReachable(c);
    PageAtRest(c, p);
    if Waiting.Pending(PageOf(c, p), i) {
      var j := RestWaits(PageOf(c, p), i);
    }
  }
  // ---------------------------------------------------------------- with nested locks

  /** Process i holds page p and waits for page q, while its daemon has a message for p before it, which has to
      wait for the lock on p. */
  predicate Stuck(c: Cluster, i: int, p: nat, q: nat)
    requires Shaped(c)
  {
    && i in c.nodes && p < |c.homes| && q < |c.homes|
    && c.nodes[i].pages[p].app.Holding?
    && c.nodes[i].pages[q].app.Waiting? && !c.nodes[i].pages[q].uptodate
    && c.nodes[i].acking.None? && NextIs(c.nodes[i].inbox, p)
  }

  /** The steps that could free it are not possible. */
  lemma NotItsOwn(c: Cluster, i: int, p: nat, q: nat, r: nat, l: Label)
    requires Shaped(c) && Stuck(c, i, p, q) && MayStep(c, OnPage(r, l))
    ensures l != LockAgain(i) && l != Unlock(i) && l != Quit(i) && l != SendAck(i) && !(l.LockAsk? && l.i == i)
    ensures l != TakeInvalidate(i) && l != TakePage(i) && !(l.Store? && l.i == i)
    ensures l == Wake(i) ==> r != p && r != q
  {
    assert PageOf(c, r).slaves[i] == SlaveOn(c.nodes[i], r);
  }

  /** A step that is none of these leaves the front of its connection where it is. */
  lemma FrontStays(shared: seq<Packet>, r: nat, before: seq<PageMsg>, after: seq<PageMsg>, p: nat)
    requires NextIs(shared, p) && before <= after
    ensures NextIs(Carry(shared, r, before, after), p)
  {
  }

  lemma OtherCopy(s: System, l: Label, i: int)
    requires Enabled(s, l) && i in s.slaves && !l.Connect?
    requires l != LockAgain(i) && l != Unlock(i) && l != Quit(i) && l != SendAck(i) && !(l.LockAsk? && l.i == i)
    requires l != TakeInvalidate(i) && l != TakePage(i) && !(l.Store? && l.i == i)
    ensures var sl, sl' := s.slaves[i], After(s, l).slaves[i];
            && sl.inbox <= sl'.inbox && sl'.acking == sl.acking && sl'.uptodate == sl.uptodate
            && (l != Wake(i) ==> sl'.app == sl.app)
  {
  }

  lemma StuckStep(c: Cluster, i: int, p: nat, q: nat, step: Step)
    requires Shaped(c) && Stuck(c, i, p, q) && MayStep(c, step)
    ensures Stuck(StepTo(c, step), i, p, q)
  {
    if step.OnPage? {
      NotItsOwn(c, i, p, q, step.p, step.l);
      var s := PageOf(c, step.p);
      assert s.slaves[i] == SlaveOn(c.nodes[i], step.p);
      OtherCopy(s, step.l, i);
      FrontStays(c.nodes[i].inbox, step.p, s.slaves[i].inbox, After(s, step.l).slaves[i].inbox, p);
    }
  }

  /** It waits for ever, whatever happens next. */
  lemma {:induction false} StuckForEver(c: Cluster, i: int, p: nat, q: nat, run: seq<Step>)
    requires Shaped(c) && Stuck(c, i, p, q) && MayRun(c, run)
    ensures Stuck(RunTo(c, run), i, p, q)
    decreases |run|
  {
    if run != [] {
      StuckStep(c, i, p, q, run[0]);
      StuckForEver(StepTo(c, run[0]), i, p, q, run[1..]);
    }
  }
  /** The first slave holds the page to read, and the master is to let the second write it. */
  lemma WriterAsked(zero: bytes) returns (s: System)
    ensures Reachable(s) && s.draining
    ensures s.home == InitialHome(0, zero).(readers := [1], requests := [Request(2, 3)])
    ensures s.slaves == map[1 := Slave(Holding(1), true, 1, zero, false, [], []), 2 := NewSlave(zero).(app := App.Waiting(3))]
  {
    s := ReaderHolds(zero);
    s := Next(s, LockAsk(2, 3));
    s := Next(s, MasterTakeLock(2));
    assert s.home.requests == [Request(2, 3)] && s.slaves[2].outbox == [];
  }

  /** The first is to give its copy up. */
  lemma ReaderRecalled(zero: bytes) returns (s: System)
    ensures Reachable(s) && NobodyGone(s) && 1 in s.slaves
    ensures s.slaves[1] == Slave(Holding(1), true, 1, zero, false, [Invalidate], [])
  {
    s := WriterAsked(zero);
    assert DrainTurn(s.home) == Go(s.home.(invalidateSent := true), Broadcast([1]));
    assert Broadcast([1]) == [Post(1, Invalidate)] && Broadcast([1])[1..] == [];
    s := Next(s, MasterTurn);
    assert s.slaves[1].inbox == [] + [Invalidate] == [Invalidate];
  }

  /** It asks for the other page. */
  lemma AsksMeanwhile(c: Cluster)
    requires ClusterReachable(c) && OnlyOn(c, 0) && |c.homes| == 2 && 1 in c.nodes
    requires SlaveOn(c.nodes[1], 0).app.Holding? && SlaveOn(c.nodes[1], 0).inbox != [] && !SlaveOn(c.nodes[1], 0).acking
    ensures MayStep(c, OnPage(1, LockAsk(1, 1))) && Stuck(StepTo(c, OnPage(1, LockAsk(1, 1))), 1, 0, 1)
  {
    var n := c.nodes[1];
    assert OnlyWith(n, 0);
    AllOn(n.inbox, 0);
    var s := PageOf(c, 1);
    assert s.slaves[1] == SlaveOn(n, 1);
    FrontStays(n.inbox, 1, s.slaves[1].inbox, s.slaves[1].inbox, 0);
  }

  /** Two processes and two pages are enough: one reads the first page and asks for the second, while the other
      asks to write the first. */
  lemma StuckIsReached(zero: bytes) returns (c: Cluster)
    ensures ClusterReachable(c) && Shaped(c) && Stuck(c, 1, 0, 1)
  {
    var s := ReaderRecalled(zero);
    c := EveryPageStateIsReached(s, 2, 0);
    assert PageOf(c, 0).slaves[1] == SlaveOn(c.nodes[1], 0);
    AsksMeanwhile(c);
    ClusterStep(c, OnPage(1, LockAsk(1, 1)));
    c := StepTo(c, OnPage(1, LockAsk(1, 1)));
  }
}
