/** What the whole memory lets happen: sharing connections, daemons and the application thread among the pages
    shuts out nothing but what has to wait its turn. */
module ClusterProgress {
  import opened Bytes
  import opened PageProtocol
  import opened PageTheorems
  import opened Cluster
  import opened Progress

  /** The step of a call of lock_page: with an up-to-date copy the lock is held at once. */
  function Locking(c: Cluster, i: int, p: nat, rights: int): Label
    requires i in c.nodes && p < |c.nodes[i].pages|
  {
    if c.nodes[i].pages[p].uptodate then LockAgain(i) else LockAsk(i, rights)
  }

  /** The application thread waits for no page and has not begun to terminate. */
  predicate ThreadRuns(n: Node) {
    forall q :: 0 <= q < |n.pages| ==> !n.pages[q].app.Waiting? && !n.pages[q].app.Gone?
  }

  /** Once the page has come the wait can end. */
  lemma WaitMayEnd(c: Cluster, i: int, p: nat)
    requires ClusterReachable(c) && Shaped(c) && i in c.nodes && p < |c.homes|
    requires c.nodes[i].pages[p].app.Waiting? && c.nodes[i].pages[p].uptodate
    ensures MayStep(c, OnPage(p, Label.Wake(i)))
  {
    PagesOfReachable(c);
    assert PageOf(c, p).slaves[i] == SlaveOn(c.nodes[i], p);
    WaitEnds(PageOf(c, p), i);
  }

  /** A thread that runs can lock a page it has not locked, to read or to write, unlock one it has, store into one
      it holds to write, and begin to terminate. */
  lemma ThreadGoesOn(c: Cluster, i: int, p: nat, rights: int, d: bytes)
    requires ClusterReachable(c) && Shaped(c) && i in c.nodes && p < |c.homes| && (rights == 1 || rights == 3)
    requires ThreadRuns(c.nodes[i])
    ensures MayStep(c, OnPage(p, Quit(i)))
    ensures c.nodes[i].pages[p].app.Idle? ==> MayStep(c, OnPage(p, Locking(c, i, p, rights)))
    ensures c.nodes[i].pages[p].app.Holding? ==>
              && MayStep(c, OnPage(p, Label.Unlock(i)))
              && (c.nodes[i].pages[p].app.rights == 3 ==> MayStep(c, OnPage(p, Store(i, d))))
  {
    PagesOfReachable(c);
    var s := PageOf(c, p);
    assert s.slaves[i] == SlaveOn(c.nodes[i], p);
    if s.slaves[i].app.Idle? {
      IdleGoesOn(s, i, rights);
      IdleQuits(s, i);
    } else {
      HolderGoesOn(s, i, d);
    }
  }

  /** The step of taking the packet at the front. */
  lemma FrontStep(c: Cluster, i: int) returns (p: nat)
    requires ClusterReachable(c) && Shaped(c) && i in c.nodes && c.nodes[i].acking.None? && c.nodes[i].inbox != []
    requires c.nodes[i].inbox[0].page < |c.homes| ==> !MutexHeld(c.nodes[i].pages[c.nodes[i].inbox[0].page].app)
    ensures p == c.nodes[i].inbox[0].page < |c.homes|
    ensures SlaveOn(c.nodes[i], p).inbox != [] && SlaveOn(c.nodes[i], p).inbox[0] == c.nodes[i].inbox[0].msg
    ensures MayStep(c, OnPage(p, SlaveTaking(SlaveOn(c.nodes[i], p), i)))
    ensures c.nodes[i].inbox[0].msg == Invalidate || c.nodes[i].inbox[0].msg.GivePage?
  {
    PagesOfReachable(c);
    p := c.nodes[i].inbox[0].page;
    var s := PageOf(c, p);
    assert s.slaves[i] == SlaveOn(c.nodes[i], p);
    SlaveTakesFront(s, i);
  }

  /** Any process can join, and then has no copy of any page. */
  lemma AnyoneMayJoin(c: Cluster, i: int, zero: bytes, p: nat)
    requires Shaped(c) && i !in c.nodes && i != c.master && p < |c.homes|
    ensures MayStep(c, Join(i, zero))
    ensures var n := StepTo(c, Join(i, zero)).nodes[i];
            n.pages[p] == Copy(Idle, false, 0, zero) && n.inbox == [] && n.outbox == [] && n.acking.None?
  {
  }

  /** A slave acknowledges the page it has cleared. */
  lemma AckGoesOut(c: Cluster, i: int, p: nat)
    requires Shaped(c) && p < |c.homes| && i in c.nodes && c.nodes[i].acking == Some(p)
    ensures MayStep(c, OnPage(p, SendAck(i)))
  {
    assert PageOf(c, p).slaves[i] == SlaveOn(c.nodes[i], p);
  }

  /** The master's daemon takes whatever packet it finds when it drains no page, and goes on with the page it
      drains until it is done. */
  lemma MasterTakesFront(c: Cluster, i: int)
    requires ClusterReachable(c) && Shaped(c) && i in c.nodes && c.busy.None? && c.nodes[i].outbox != []
    ensures var p := c.nodes[i].outbox[0].page;
            && p < |c.homes| && SlaveOn(c.nodes[i], p).outbox != []
            && SlaveOn(c.nodes[i], p).outbox[0] == c.nodes[i].outbox[0].msg
            && MayStep(c, OnPage(p, MasterTaking(SlaveOn(c.nodes[i], p), i)))
  {
    PagesOfReachable(c);
    var s := PageOf(c, c.nodes[i].outbox[0].page);
    assert s.slaves[i] == SlaveOn(c.nodes[i], c.nodes[i].outbox[0].page);
    MasterGoesOn(s, i);
  }

  lemma MasterDrains(c: Cluster, p: nat)
    requires ClusterReachable(c) && Shaped(c) && p < |c.homes| && c.busy == Some(p)
    ensures MayStep(c, OnPage(p, MasterTurn)) || MayStep(c, OnPage(p, MasterDone))
    ensures MayStep(c, OnPage(p, MasterDone)) ==> StepTo(c, OnPage(p, MasterDone)).busy.None?
  {
    PagesOfReachable(c);
    MasterGoesOn(PageOf(c, p), c.master);
  }
  // ---------------------------------------------------------------- one page alone

  predicate AllOf(packets: seq<Packet>, p: nat) {
    forall k :: 0 <= k < |packets| ==> packets[k].page == p
  }

  /** Process n has only had to do with page p, and has not terminated. */
  predicate OnlyWith(n: Node, p: nat) {
    && (n.acking == None || n.acking == Some(p)) && AllOf(n.inbox, p) && AllOf(n.outbox, p)
    && (p < |n.pages| ==> !n.pages[p].app.Gone?)
    && forall q :: 0 <= q < |n.pages| && q != p ==> n.pages[q].app.Idle? && !n.pages[q].uptodate
  }

  /** Nothing has happened but on page p. */
  ghost predicate OnlyOn(c: Cluster, p: nat) {
    && Shaped(c) && p < |c.homes| && (c.busy == None || c.busy == Some(p))
    && forall i :: i in c.nodes ==> OnlyWith(c.nodes[i], p)
  }

  lemma {:induction false} AllOn(packets: seq<Packet>, p: nat)
    requires AllOf(packets, p)
    ensures On(packets, p) == [] <==> packets == []
  {
    if packets != [] { assert packets[0].page == p; }
  }

  lemma {:induction false} TagAll(p: nat, msgs: seq<PageMsg>)
    ensures AllOf(Tag(p, msgs), p)
  {
    if msgs != [] { TagAll(p, msgs[1..]); }
  }

  lemma CarryAll(shared: seq<Packet>, p: nat, before: seq<PageMsg>, after: seq<PageMsg>)
    requires AllOf(shared, p)
    ensures AllOf(Carry(shared, p, before, after), p)
  {
    if |before| <= |after| { TagAll(p, after[|before|..]); }
  }

  lemma NodeAlone(n: Node, p: nat, sl': Slave)
    requires p < |n.pages| && OnlyWith(n, p) && !sl'.app.Gone?
    ensures OnlyWith(NodeAfter(n, p, SlaveOn(n, p), sl'), p)
  {
    CarryAll(n.inbox, p, SlaveOn(n, p).inbox, sl'.inbox);
    CarryAll(n.outbox, p, SlaveOn(n, p).outbox, sl'.outbox);
  }

  /** Whatever page p could do by itself it then can do in the whole memory. */
  lemma PossibleAlone(c: Cluster, p: nat, l: Label)
    requires OnlyOn(c, p) && Enabled(PageOf(c, p), l) && !l.Connect?
    ensures MayStep(c, OnPage(p, l))
  {
    if !l.MasterTurn? && !l.MasterDone? {
      var n := c.nodes[l.i];
      assert PageOf(c, p).slaves[l.i] == SlaveOn(n, p) && OnlyWith(n, p);
      AllOn(n.inbox, p);
      AllOn(n.outbox, p);
    }
  }

  lemma StaysAlone(c: Cluster, p: nat, l: Label)
    requires OnlyOn(c, p) && MayStep(c, OnPage(p, l)) && !l.Quit?
    ensures OnlyOn(StepTo(c, OnPage(p, l)), p)
  {
    var s := PageOf(c, p);
    forall i | i in c.nodes
      ensures OnlyWith(StepTo(c, OnPage(p, l)).nodes[i], p)
    {
      assert s.slaves[i] == SlaveOn(c.nodes[i], p) && OnlyWith(c.nodes[i], p);
      NobodyLeaves(s, l, i);
      NodeAlone(c.nodes[i], p, After(s, l).slaves[i]);
    }
  }

  lemma NobodyLeaves(s: System, l: Label, i: int)
    requires Enabled(s, l) && !l.Quit? && i in s.slaves && !s.slaves[i].app.Gone?
    ensures !After(s, l).slaves[i].app.Gone?
  {
  }

  lemma JoinAlone(c: Cluster, p: nat, i: int, zero: bytes)
    requires OnlyOn(c, p) && MayStep(c, Join(i, zero))
    ensures OnlyOn(StepTo(c, Join(i, zero)), p)
  {
  }

  ghost predicate NobodyGone(s: System) {
    forall i :: i in s.slaves ==> !s.slaves[i].app.Gone?
  }

  lemma {:induction false} GoneForEver(s: System, run: seq<Label>, i: int)
    requires CanRun(s, run) && i in s.slaves && s.slaves[i].app.Gone?
    ensures !NobodyGone(Run(s, run))
    decreases |run|
  {
    if run != [] { GoneForEver(After(s, run[0]), run[1..], i); }
  }

  lemma StepAlone(c: Cluster, p: nat, l: Label) returns (c': Cluster)
    requires ClusterReachable(c) && OnlyOn(c, p) && Enabled(PageOf(c, p), l) && !l.Quit?
    ensures ClusterReachable(c') && OnlyOn(c', p) && |c'.homes| == |c.homes| && PageOf(c', p) == After(PageOf(c, p), l)
  {
    if l.Connect? {
      JoinAlone(c, p, l.i, l.zero);
      JoinProjects(c, l.i, l.zero, p);
      c' := StepTo(c, Join(l.i, l.zero));
      ClusterStep(c, Join(l.i, l.zero));
    } else {
      PossibleAlone(c, p, l);
      StaysAlone(c, p, l);
      StepProjects(c, p, l, p);
      c' := StepTo(c, OnPage(p, l));
      ClusterStep(c, OnPage(p, l));
    }
  }

  lemma {:induction false} RunAlone(c: Cluster, p: nat, run: seq<Label>) returns (c': Cluster)
    requires ClusterReachable(c) && OnlyOn(c, p) && CanRun(PageOf(c, p), run) && NobodyGone(Run(PageOf(c, p), run))
    ensures ClusterReachable(c') && OnlyOn(c', p) && |c'.homes| == |c.homes| && PageOf(c', p) == Run(PageOf(c, p), run)
    decreases |run|
  {
    c' := c;
    if run != [] {
      if run[0].Quit? { GoneForEver(After(PageOf(c, p), run[0]), run[1..], run[0].i); }
      c' := StepAlone(c, p, run[0]);
      c' := RunAlone(c', p, run[1..]);
    }
  }

  /** Every state that the protocol of one page reaches, and in which nobody has terminated, is the state of that
      page in a state that the whole memory reaches without anything having happened on its other pages. */
  lemma EveryPageStateIsReached(s: System, pageCount: nat, p: nat) returns (c: Cluster)
    requires Reachable(s) && NobodyGone(s) && p < pageCount
    ensures ClusterReachable(c) && OnlyOn(c, p) && |c.homes| == pageCount && PageOf(c, p) == s
  {
    var master, zero, run :| ReachedBy(s, master, zero, run);
    var c0 := InitialCluster(master, pageCount, zero);
    assert ClusterReachedBy(c0, master, pageCount, zero, []);
    assert PageOf(c0, p) == InitialSystem(master, zero);
    c := RunAlone(c0, p, run);
  }
}
