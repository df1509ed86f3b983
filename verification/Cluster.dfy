/** The whole shared memory: many pages over one connection per slave and direction, one daemon per process
    that handles one message at a time, one application thread per slave. Seen from any one page, it only
    does what the page protocol allows. */
module Cluster {
  import opened Bytes
  import opened PageProtocol
  import opened PageTheorems

  /** A message as it travels: it names its page. */
  datatype Packet = Packet(page: nat, msg: PageMsg)

  datatype Copy = Copy(app: App, uptodate: bool, protection: int, data: bytes)

  /** A slave process; `acking` is the page its daemon has cleared but not acknowledged. */
  datatype Node = Node(pages: seq<Copy>, acking: Option<nat>, inbox: seq<Packet>, outbox: seq<Packet>)

  /** `busy` is the page whose requests the master's daemon is draining. */
  datatype Cluster = Cluster(
    master: int, homes: seq<Home>, busy: Option<nat>, nodes: map<int, Node>,
    lastWrite: seq<bytes>, received: seq<seq<Request>>, granted: seq<seq<Request>>)

  predicate Shaped(c: Cluster) {
    && |c.lastWrite| == |c.received| == |c.granted| == |c.homes|
    && (forall i :: i in c.nodes ==> |c.nodes[i].pages| == |c.homes|)
  }

  // ---------------------------------------------------------------- one page of it

  function On(packets: seq<Packet>, p: nat): seq<PageMsg> {
    if packets == [] then []
    else (if packets[0].page == p then [packets[0].msg] else []) + On(packets[1..], p)
  }

  function SlaveOn(n: Node, p: nat): Slave
    requires p < |n.pages|
  {
    var copy := n.pages[p];
    Slave(copy.app, copy.uptodate, copy.protection, copy.data, n.acking == Some(p), On(n.inbox, p), On(n.outbox, p))
  }

  function PageOf(c: Cluster, p: nat): System
    requires Shaped(c) && p < |c.homes|
  {
    System(c.master, c.homes[p], c.busy == Some(p), map i | i in c.nodes :: SlaveOn(c.nodes[i], p),
           c.lastWrite[p], c.received[p], c.granted[p])
  }

  // ---------------------------------------------------------------- its steps

  /** Every process start-up, or one step concerning one page. */
  datatype Step = Join(i: int, zero: bytes) | OnPage(p: nat, l: Label)

  predicate ThreadFree(n: Node) {
    forall q :: 0 <= q < |n.pages| ==> !n.pages[q].app.Waiting?
  }

  predicate Running(n: Node) {
    forall q :: 0 <= q < |n.pages| ==> !n.pages[q].app.Gone?
  }

  predicate NextIs(packets: seq<Packet>, p: nat) {
    packets != [] && packets[0].page == p
  }

  /** What sharing adds to the conditions of a step on page p: the one application thread is not blocked on
      another page and has not begun to terminate, a daemon takes only the front message of its connection
      and finishes one message before the next. */
  predicate Possible(c: Cluster, p: nat, l: Label)
    requires Shaped(c) && p < |c.homes| && Enabled(PageOf(c, p), l)
  {
    match l
    case Connect(_, _) => false
    case LockAgain(i) => ThreadFree(c.nodes[i]) && Running(c.nodes[i])
    case LockAsk(i, _) => ThreadFree(c.nodes[i]) && Running(c.nodes[i])
    case Wake(_) => true
    case Store(i, _) => ThreadFree(c.nodes[i]) && Running(c.nodes[i])
    case Unlock(i) => ThreadFree(c.nodes[i]) && Running(c.nodes[i])
    case Quit(i) => ThreadFree(c.nodes[i])
    case TakeInvalidate(i) => c.nodes[i].acking.None? && NextIs(c.nodes[i].inbox, p)
    case TakePage(i) => c.nodes[i].acking.None? && NextIs(c.nodes[i].inbox, p)
    case SendAck(_) => true
    case MasterTakeLock(i) => c.busy.None? && NextIs(c.nodes[i].outbox, p)
    case MasterTakeAck(i) => c.busy.None? && NextIs(c.nodes[i].outbox, p)
    case MasterTakePage(i) => c.busy.None? && NextIs(c.nodes[i].outbox, p)
    case MasterTurn => true
    case MasterDone => true
  }

  predicate MayStep(c: Cluster, step: Step)
    requires Shaped(c)
  {
    match step
    case Join(i, _) => i !in c.nodes && i != c.master
    case OnPage(p, l) => p < |c.homes| && Enabled(PageOf(c, p), l) && Possible(c, p, l)
  }

  function Tag(p: nat, msgs: seq<PageMsg>): seq<Packet> {
    if msgs == [] then [] else [Packet(p, msgs[0])] + Tag(p, msgs[1..])
  }

  /** The shared connection moves as page p's part of it moves: its front message is taken, or messages are
      added at its end. */
  function Carry(shared: seq<Packet>, p: nat, before: seq<PageMsg>, after: seq<PageMsg>): seq<Packet> {
    if |after| < |before| && shared != [] then shared[1..]
    else if |before| <= |after| then shared + Tag(p, after[|before|..])
    else shared
  }

  function NodeAfter(n: Node, p: nat, sl: Slave, sl': Slave): Node
    requires p < |n.pages|
  {
    Node(n.pages[p := Copy(sl'.app, sl'.uptodate, sl'.protection, sl'.data)],
         if sl'.acking then Some(p) else if sl.acking then None else n.acking,
         Carry(n.inbox, p, sl.inbox, sl'.inbox),
         Carry(n.outbox, p, sl.outbox, sl'.outbox))
  }

  function NewNode(pageCount: nat, zero: bytes): Node {
    Node(seq(pageCount, _ => Copy(Idle, false, PROT_NONE, zero)), None, [], [])
  }

  /** Page p goes on to s'; everything else stays. */
  function Install(c: Cluster, p: nat, s': System): (c': Cluster)
    requires Shaped(c) && p < |c.homes| && s'.slaves.Keys == c.nodes.Keys
    ensures Shaped(c') && |c'.homes| == |c.homes|
  {
    Cluster(c.master, c.homes[p := s'.home],
            if s'.draining then Some(p) else if c.busy == Some(p) then None else c.busy,
            map i | i in c.nodes :: NodeAfter(c.nodes[i], p, SlaveOn(c.nodes[i], p), s'.slaves[i]),
            c.lastWrite[p := s'.lastWrite], c.received[p := s'.received], c.granted[p := s'.granted])
  }

  function StepTo(c: Cluster, step: Step): (c': Cluster)
    requires Shaped(c) && MayStep(c, step)
    ensures Shaped(c') && |c'.homes| == |c.homes|
  {
    match step
    case Join(i, zero) => c.(nodes := c.nodes[i := NewNode(|c.homes|, zero)])
    case OnPage(p, l) => Install(c, p, After(PageOf(c, p), l))
  }

  function InitialCluster(master: int, pageCount: nat, zero: bytes): (c: Cluster)
    ensures Shaped(c)
  {
    Cluster(master, seq(pageCount, _ => InitialHome(master, zero)), None, map[],
            seq(pageCount, _ => zero), seq(pageCount, _ => []), seq(pageCount, _ => []))
  }

  predicate MayRun(c: Cluster, run: seq<Step>)
    requires Shaped(c)
    decreases |run|
  {
    run == [] || (MayStep(c, run[0]) && MayRun(StepTo(c, run[0]), run[1..]))
  }

  function RunTo(c: Cluster, run: seq<Step>): (c': Cluster)
    requires Shaped(c) && MayRun(c, run)
    ensures Shaped(c') && |c'.homes| == |c.homes|
    decreases |run|
  {
    if run == [] then c else RunTo(StepTo(c, run[0]), run[1..])
  }

  // ---------------------------------------------------------------- the connections

  lemma {:induction false} OnConcat(a: seq<Packet>, b: seq<Packet>, p: nat)
    ensures On(a + b, p) == On(a, p) + On(b, p)
  {
    if a == [] {
      assert a + b == b;
    } else {
      assert (a + b)[1..] == a[1..] + b && (a + b)[0] == a[0];
      OnConcat(a[1..], b, p);
      var first := if a[0].page == p then [a[0].msg] else [];
      assert first + (On(a[1..], p) + On(b, p)) == first + On(a[1..], p) + On(b, p);
    }
  }

  lemma {:induction false} OnTag(p: nat, msgs: seq<PageMsg>, q: nat)
    ensures On(Tag(p, msgs), q) == if p == q then msgs else []
  {
    if msgs != [] {
      OnTag(p, msgs[1..], q);
      assert Tag(p, msgs)[1..] == Tag(p, msgs[1..]);
      assert msgs == [msgs[0]] + msgs[1..];
    }
  }

  /** after is before with its front taken, or with something added at its end. */
  predicate Moves(before: seq<PageMsg>, after: seq<PageMsg>) {
    (before != [] && after == before[1..]) || before <= after
  }

  lemma CarryOn(shared: seq<Packet>, p: nat, after: seq<PageMsg>, q: nat)
    requires Moves(On(shared, p), after)
    requires |after| < |On(shared, p)| ==> NextIs(shared, p)
    ensures On(Carry(shared, p, On(shared, p), after), q) == if p == q then after else On(shared, q)
  {
    var before := On(shared, p);
    if |before| <= |after| {
      OnConcat(shared, Tag(p, after[|before|..]), q);
      OnTag(p, after[|before|..], q);
      assert before <= after ==> after == before + after[|before|..];
    }
  }

  /** What a step does to the connections of slave i. */
  ghost predicate MovesBy(l: Label, i: int, sl: Slave, sl': Slave) {
    && Moves(sl.inbox, sl'.inbox) && Moves(sl.outbox, sl'.outbox)
    && (|sl'.inbox| < |sl.inbox| ==> l == TakeInvalidate(i) || l == TakePage(i))
    && (|sl'.outbox| < |sl.outbox| ==> l == MasterTakeLock(i) || l == MasterTakeAck(i) || l == MasterTakePage(i))
    && (sl'.acking && !sl.acking ==> l == TakeInvalidate(i))
  }

  predicate OfMaster(l: Label) {
    l.MasterTakeLock? || l.MasterTakeAck? || l.MasterTakePage? || l.MasterTurn? || l.MasterDone?
  }

  lemma TakerMoves(s: System, l: Label, i: int)
    requires Enabled(s, l) && i in s.slaves && (l.TakeInvalidate? || l.TakePage?)
    ensures MovesBy(l, i, s.slaves[i], After(s, l).slaves[i])
  {
  }

  lemma SenderMoves(s: System, l: Label, i: int)
    requires Enabled(s, l) && i in s.slaves && (l.LockAsk? || l.Unlock? || l.Quit? || l.SendAck?)
    ensures MovesBy(l, i, s.slaves[i], After(s, l).slaves[i])
  {
  }

  lemma SlaveMoves(s: System, l: Label, i: int)
    requires Enabled(s, l) && i in s.slaves && !OfMaster(l)
    ensures MovesBy(l, i, s.slaves[i], After(s, l).slaves[i])
  {
    if l.TakeInvalidate? || l.TakePage? {
      TakerMoves(s, l, i);
    } else if l.LockAsk? || l.Unlock? || l.Quit? || l.SendAck? {
      SenderMoves(s, l, i);
    }
  }

  lemma MasterMoves(s: System, l: Label, i: int)
    requires Enabled(s, l) && i in s.slaves && OfMaster(l)
    ensures MovesBy(l, i, s.slaves[i], After(s, l).slaves[i])
  {
  }

  lemma StepMoves(s: System, l: Label, i: int)
    requires Enabled(s, l) && i in s.slaves
    ensures MovesBy(l, i, s.slaves[i], After(s, l).slaves[i])
  {
    if OfMaster(l) { MasterMoves(s, l, i); } else { SlaveMoves(s, l, i); }
  }

  /** What page p's part of a process must satisfy to be installed. */
  predicate Fits(n: Node, p: nat, sl': Slave)
    requires p < |n.pages|
  {
    var sl := SlaveOn(n, p);
    && Moves(sl.inbox, sl'.inbox) && Moves(sl.outbox, sl'.outbox)
    && (|sl'.inbox| < |sl.inbox| ==> NextIs(n.inbox, p))
    && (|sl'.outbox| < |sl.outbox| ==> NextIs(n.outbox, p))
    && (sl'.acking ==> sl.acking || n.acking.None?)
  }

  lemma NodeProjects(n: Node, p: nat, sl': Slave, q: nat)
    requires p < |n.pages| && q < |n.pages| && Fits(n, p, sl')
    ensures SlaveOn(NodeAfter(n, p, SlaveOn(n, p), sl'), q) == if p == q then sl' else SlaveOn(n, q)
  {
    CarryOn(n.inbox, p, sl'.inbox, q);
    CarryOn(n.outbox, p, sl'.outbox, q);
  }

  lemma InstallProjects(c: Cluster, p: nat, s': System, q: nat)
    requires Shaped(c) && p < |c.homes| && q < |c.homes| && s'.slaves.Keys == c.nodes.Keys && s'.master == c.master
    requires forall i :: i in c.nodes ==> Fits(c.nodes[i], p, s'.slaves[i])
    requires s'.draining ==> c.busy == Some(p) || c.busy.None?
    ensures PageOf(Install(c, p, s'), q) == if p == q then s' else PageOf(c, q)
  {
    var c' := Install(c, p, s');
    forall i | i in c.nodes
      ensures SlaveOn(c'.nodes[i], q) == if p == q then s'.slaves[i] else SlaveOn(c.nodes[i], q)
    {
      NodeProjects(c.nodes[i], p, s'.slaves[i], q);
    }
    assert p == q ==> PageOf(c', q).slaves == s'.slaves;
    assert p != q ==> PageOf(c', q).slaves == PageOf(c, q).slaves;
  }

  lemma StepFits(c: Cluster, p: nat, l: Label, i: int)
    requires Shaped(c) && MayStep(c, OnPage(p, l)) && i in c.nodes
    ensures Fits(c.nodes[i], p, After(PageOf(c, p), l).slaves[i])
  {
    StepMoves(PageOf(c, p), l, i);
  }

  /** A step on page p is a step of the page protocol there, and no step at all on another page. */
  lemma StepProjects(c: Cluster, p: nat, l: Label, q: nat)
    requires Shaped(c) && MayStep(c, OnPage(p, l)) && q < |c.homes|
    ensures PageOf(StepTo(c, OnPage(p, l)), q) == if p == q then After(PageOf(c, p), l) else PageOf(c, q)
  {
    forall i | i in c.nodes
      ensures Fits(c.nodes[i], p, After(PageOf(c, p), l).slaves[i])
    {
      StepFits(c, p, l, i);
    }
    MasterKept(PageOf(c, p), l);
    MasterBusy(c, p, l);
    InstallProjects(c, p, After(PageOf(c, p), l), q);
  }

  lemma MasterKept(s: System, l: Label)
    requires Enabled(s, l)
    ensures After(s, l).master == s.master
    ensures !l.Connect? ==> After(s, l).slaves.Keys == s.slaves.Keys
  {
  }

  /** The master drains at most one page. */
  lemma MasterBusy(c: Cluster, p: nat, l: Label)
    requires Shaped(c) && MayStep(c, OnPage(p, l))
    ensures After(PageOf(c, p), l).draining ==> c.busy == Some(p) || c.busy.None?
  {
  }

  lemma JoinProjects(c: Cluster, i: int, zero: bytes, q: nat)
    requires Shaped(c) && MayStep(c, Join(i, zero)) && q < |c.homes|
    ensures Enabled(PageOf(c, q), Connect(i, zero))
    ensures PageOf(StepTo(c, Join(i, zero)), q) == After(PageOf(c, q), Connect(i, zero))
  {
    var c' := StepTo(c, Join(i, zero));
    assert SlaveOn(NewNode(|c.homes|, zero), q) == NewSlave(zero);
    assert PageOf(c', q).slaves == After(PageOf(c, q), Connect(i, zero)).slaves;
  }

  // ---------------------------------------------------------------- every page is safe

  ghost predicate PagesReachable(c: Cluster)
    requires Shaped(c)
  {
    forall p :: 0 <= p < |c.homes| ==> Reachable(PageOf(c, p))
  }

  lemma StepKeepsPages(c: Cluster, step: Step)
    requires Shaped(c) && PagesReachable(c) && MayStep(c, step)
    ensures PagesReachable(StepTo(c, step))
  {
    forall q | 0 <= q < |c.homes|
      ensures Reachable(PageOf(StepTo(c, step), q))
    {
      match step
      case Join(i, zero) =>
        JoinProjects(c, i, zero, q);
        ReachableStep(PageOf(c, q), Connect(i, zero));
      case OnPage(p, l) =>
        StepProjects(c, p, l, q);
        if p == q { ReachableStep(PageOf(c, p), l); }
    }
  }

  lemma {:induction false} RunKeepsPages(c: Cluster, run: seq<Step>)
    requires Shaped(c) && PagesReachable(c) && MayRun(c, run)
    ensures PagesReachable(RunTo(c, run))
    decreases |run|
  {
    if run != [] {
      StepKeepsPages(c, run[0]);
      RunKeepsPages(StepTo(c, run[0]), run[1..]);
    }
  }

  /** In every state the whole memory can reach, every page is in a state its own protocol can reach, so
      all that PageTheorems says of reachable states holds of every page. */
  lemma EveryPageReachable(master: int, pageCount: nat, zero: bytes, run: seq<Step>)
    requires MayRun(InitialCluster(master, pageCount, zero), run)
    ensures PagesReachable(RunTo(InitialCluster(master, pageCount, zero), run))
  {
    var c := InitialCluster(master, pageCount, zero);
    forall p | 0 <= p < pageCount
      ensures Reachable(PageOf(c, p))
    {
      assert PageOf(c, p) == InitialSystem(master, zero);
      assert ReachedBy(PageOf(c, p), master, zero, []);
    }
    RunKeepsPages(c, run);
  }

  /** c is where some run of the whole memory ends. */
  ghost predicate ClusterReachable(c: Cluster) {
    exists master: int, pageCount: nat, zero: bytes, run: seq<Step> :: ClusterReachedBy(c, master, pageCount, zero, run)
  }

  ghost predicate ClusterReachedBy(c: Cluster, master: int, pageCount: nat, zero: bytes, run: seq<Step>) {
    MayRun(InitialCluster(master, pageCount, zero), run) && c == RunTo(InitialCluster(master, pageCount, zero), run)
  }

  lemma {:induction false} StepsThenStep(c: Cluster, run: seq<Step>, step: Step)
    requires Shaped(c) && MayRun(c, run) && MayStep(RunTo(c, run), step)
    ensures MayRun(c, run + [step]) && RunTo(c, run + [step]) == StepTo(RunTo(c, run), step)
    decreases |run|
  {
    if run == [] {
      assert run + [step] == [step];
      assert [step][1..] == [];
    } else {
      assert (run + [step])[1..] == run[1..] + [step];
      StepsThenStep(StepTo(c, run[0]), run[1..], step);
    }
  }

  lemma ClusterStep(c: Cluster, step: Step)
    requires ClusterReachable(c) && Shaped(c) && MayStep(c, step)
    ensures ClusterReachable(StepTo(c, step))
  {
    var master, pageCount, zero, run :| ClusterReachedBy(c, master, pageCount, zero, run);
    StepsThenStep(InitialCluster(master, pageCount, zero), run, step);
    assert ClusterReachedBy(StepTo(c, step), master, pageCount, zero, run + [step]);
  }

  /** So is every page of a reachable state, and the packets and daemons name no other pages. */
  lemma PagesOfReachable(c: Cluster)
    requires ClusterReachable(c) && Shaped(c)
    ensures PagesReachable(c) && Addressed(c)
  {
    var master, pageCount, zero, run :| ClusterReachedBy(c, master, pageCount, zero, run);
    EveryPageReachable(master, pageCount, zero, run);
    RunKeepsAddressed(InitialCluster(master, pageCount, zero), run);
  }

  predicate InRange(packets: seq<Packet>, pageCount: nat) {
    forall k :: 0 <= k < |packets| ==> packets[k].page < pageCount
  }

  predicate IsPage(p: Option<nat>, pageCount: nat) {
    p.Some? ==> p.value < pageCount
  }

  ghost predicate Addressed(c: Cluster) {
    && IsPage(c.busy, |c.homes|)
    && forall i :: i in c.nodes ==>
         && InRange(c.nodes[i].inbox, |c.homes|) && InRange(c.nodes[i].outbox, |c.homes|)
         && IsPage(c.nodes[i].acking, |c.homes|)
  }

  lemma {:induction false} TagInRange(p: nat, msgs: seq<PageMsg>, pageCount: nat)
    requires p < pageCount
    ensures InRange(Tag(p, msgs), pageCount)
  {
    if msgs != [] { TagInRange(p, msgs[1..], pageCount); }
  }

  lemma CarryInRange(shared: seq<Packet>, p: nat, before: seq<PageMsg>, after: seq<PageMsg>, pageCount: nat)
    requires InRange(shared, pageCount) && p < pageCount
    ensures InRange(Carry(shared, p, before, after), pageCount)
  {
    if |before| <= |after| { TagInRange(p, after[|before|..], pageCount); }
  }

  lemma StepKeepsAddressed(c: Cluster, step: Step)
    requires Shaped(c) && MayStep(c, step) && Addressed(c)
    ensures Addressed(StepTo(c, step))
  {
    if step.OnPage? {
      var s' := After(PageOf(c, step.p), step.l);
      forall i | i in c.nodes
        ensures InRange(StepTo(c, step).nodes[i].inbox, |c.homes|)
        ensures InRange(StepTo(c, step).nodes[i].outbox, |c.homes|)
        ensures IsPage(StepTo(c, step).nodes[i].acking, |c.homes|)
      {
        var sl := SlaveOn(c.nodes[i], step.p);
        CarryInRange(c.nodes[i].inbox, step.p, sl.inbox, s'.slaves[i].inbox, |c.homes|);
        CarryInRange(c.nodes[i].outbox, step.p, sl.outbox, s'.slaves[i].outbox, |c.homes|);
      }
    }
  }

  lemma {:induction false} RunKeepsAddressed(c: Cluster, run: seq<Step>)
    requires Shaped(c) && MayRun(c, run) && Addressed(c)
    ensures Addressed(RunTo(c, run))
    decreases |run|
  {
    if run != [] {
      StepKeepsAddressed(c, run[0]);
      RunKeepsAddressed(StepTo(c, run[0]), run[1..]);
    }
  }

  lemma SingleWriterOnPage(c: Cluster, p: nat, i: int, j: int)
    requires Shaped(c) && PagesReachable(c) && p < |c.homes|
    requires i in c.nodes && j in c.nodes && i != j && CanWrite(c.nodes[i].pages[p].protection)
    ensures !c.homes[p].uptodate && !c.nodes[j].pages[p].uptodate
    ensures forall k :: 0 <= k < |c.nodes[j].inbox| && c.nodes[j].inbox[k].page == p ==> !c.nodes[j].inbox[k].msg.GivePage?
  {
    var s := PageOf(c, p);
    SingleWriter(s, i);
    assert s.slaves[j].inbox == On(c.nodes[j].inbox, p);
    forall k | 0 <= k < |c.nodes[j].inbox| && c.nodes[j].inbox[k].page == p
      ensures !c.nodes[j].inbox[k].msg.GivePage?
    {
      var m := OnHas(c.nodes[j].inbox, p, k);
    }
  }

  /** Single writer, for the whole memory. */
  lemma SingleWriterEverywhere(master: int, pageCount: nat, zero: bytes, run: seq<Step>, p: nat, i: int, j: int)
    requires MayRun(InitialCluster(master, pageCount, zero), run) && p < pageCount
    requires var c := RunTo(InitialCluster(master, pageCount, zero), run);
             i in c.nodes && j in c.nodes && i != j && CanWrite(c.nodes[i].pages[p].protection)
    ensures var c := RunTo(InitialCluster(master, pageCount, zero), run);
            && !c.homes[p].uptodate && !c.nodes[j].pages[p].uptodate
            && (forall k :: 0 <= k < |c.nodes[j].inbox| && c.nodes[j].inbox[k].page == p ==> !c.nodes[j].inbox[k].msg.GivePage?)
  {
    EveryPageReachable(master, pageCount, zero, run);
    SingleWriterOnPage(RunTo(InitialCluster(master, pageCount, zero), run), p, i, j);
  }

  lemma {:induction false} OnHas(packets: seq<Packet>, p: nat, k: nat) returns (m: nat)
    requires k < |packets| && packets[k].page == p
    ensures m < |On(packets, p)| && On(packets, p)[m] == packets[k].msg
  {
    if k == 0 {
      m := 0;
    } else {
      m := OnHas(packets[1..], p, k - 1);
      if packets[0].page == p { m := m + 1; }
    }
  }
}
