/** What the protocol lets happen. The handlers and the client calls are never shut out where the program goes
    on; and when the applications ask for nothing new and unlock what they hold, the processes do a bounded amount
    of work and come to rest, with nobody waiting but those recalled while they waited, unless a process has
    terminated inside a lock. */
module Progress {
  import opened Bytes
  import opened PageProtocol
  import opened PageInvariant
  import opened PageTheorems
  import opened LoopAsWritten
  import Waiting

  // ---------------------------------------------------------------- what each thread can do

  /** The bit of PROT_WRITE in mmap's rights. */
  lemma WriteBit(rights: nat)
    ensures CanWrite(rights) <==> rights % 4 == 2 || rights % 4 == 3
  {
  }

  /** Once the page has come the wait ends: the caller holds the lock with the rights it asked for, on the page
      that came, and may write exactly if it asked for that. */
  lemma WaitEnds(s: System, i: int)
    requires Reachable(s) && i in s.slaves && s.slaves[i].app.Waiting? && s.slaves[i].uptodate
    ensures Enabled(s, Wake(i))
    ensures var sl, sl' := s.slaves[i], After(s, Wake(i)).slaves[i];
            && sl'.app == Holding(sl.app.rights) && sl'.uptodate && sl'.data == sl.data
            && sl'.protection == sl.app.rights && (sl.app.rights == 1 || sl.app.rights == 3)
  {
    ReachableInv(s);
    assert SlaveOk(s.slaves[i], s.home.data, s.lastWrite);
  }

  /** A holder can unlock and quit; one that holds the lock to write can store any bytes, and sends the page
      home, as it then is, when it does either. */
  lemma HolderGoesOn(s: System, i: int, d: bytes)
    requires Reachable(s) && i in s.slaves && s.slaves[i].app.Holding?
    ensures Enabled(s, Unlock(i)) && Enabled(s, Quit(i))
    ensures s.slaves[i].app.rights == 3 ==>
              Enabled(s, Store(i, d)) && After(s, Store(i, d)).slaves[i] == s.slaves[i].(data := d)
    ensures var sl, sl' := s.slaves[i], After(s, Unlock(i)).slaves[i];
            && sl'.app == Idle
            && (if sl.app.rights == 3 then sl'.outbox == [GivePage(3, sl.data)] && !sl'.uptodate && sl'.protection == 0
                else sl.app.rights == 1 && sl' == sl.(app := Idle))
            && After(s, Unlock(i)).lastWrite == if sl.app.rights == 3 then sl.data else s.lastWrite
    ensures var sl, sl' := s.slaves[i], After(s, Quit(i)).slaves[i];
            && sl'.app == Gone(true)
            && (if sl.app.rights == 3 then sl'.outbox == [GivePage(3, sl.data)] && !sl'.uptodate && sl'.protection == 0
                else sl' == sl.(app := Gone(true)))
            && After(s, Quit(i)).lastWrite == if sl.app.rights == 3 then sl.data else s.lastWrite
  {
    ReachableInv(s);
    assert SlaveOk(s.slaves[i], s.home.data, s.lastWrite);
  }

  /** An application outside any lock locks at once to read when its copy is up to date, and otherwise can ask, to
      read or to write; and it can quit. */
  lemma IdleGoesOn(s: System, i: int, rights: int)
    requires i in s.slaves && s.slaves[i].app.Idle? && (rights == 1 || rights == 3)
    ensures s.slaves[i].uptodate ==>
              Enabled(s, LockAgain(i)) && After(s, LockAgain(i)).slaves[i] == s.slaves[i].(app := Holding(1))
    ensures !s.slaves[i].uptodate ==>
              && Enabled(s, LockAsk(i, rights))
              && var sl' := After(s, LockAsk(i, rights)).slaves[i];
                 sl'.app == App.Waiting(rights) && sl'.outbox == s.slaves[i].outbox + [LockPage(rights)]
  {
  }

  lemma IdleQuits(s: System, i: int)
    requires Reachable(s) && i in s.slaves && s.slaves[i].app.Idle?
    ensures Enabled(s, Quit(i)) && After(s, Quit(i)).slaves[i] == s.slaves[i].(app := Gone(false))
  {
    ReachableInv(s);
    assert SlaveOk(s.slaves[i], s.home.data, s.lastWrite);
  }

  /** Taking the message at the front. */
  function SlaveTaking(sl: Slave, i: int): Label
    requires sl.inbox != []
  {
    if sl.inbox[0].GivePage? then TakePage(i) else TakeInvalidate(i)
  }

  /** A slave's daemon that finds a message, has nothing to acknowledge and finds the mutex free takes the
      message: it installs the page it is given, or clears its copy. */
  lemma SlaveTakesFront(s: System, i: int)
    requires Reachable(s) && i in s.slaves && s.slaves[i].inbox != [] && !s.slaves[i].acking
    requires !s.slaves[i].app.Holding? && (s.slaves[i].app.Gone? ==> !s.slaves[i].app.locked)
    ensures Enabled(s, SlaveTaking(s.slaves[i], i))
    ensures var sl, sl' := s.slaves[i], After(s, SlaveTaking(s.slaves[i], i)).slaves[i];
            match sl.inbox[0]
            case GivePage(rights, data) =>
              sl' == sl.(inbox := sl.inbox[1..], uptodate := true, protection := rights, data := data)
            case m =>
              m == Invalidate && sl' == sl.(inbox := sl.inbox[1..], uptodate := false, protection := 0, acking := true)
  {
    ReachableInv(s);
    assert SlaveOk(s.slaves[i], s.home.data, s.lastWrite);
  }

  /** While the lock is held, or was when the process began to terminate, the daemon takes no message. */
  lemma LockKeepsDaemonOut(s: System, i: int)
    requires i in s.slaves && (s.slaves[i].app.Holding? || s.slaves[i].app == Gone(true))
    ensures !Enabled(s, TakeInvalidate(i)) && !Enabled(s, TakePage(i))
  {
  }

  /** A copy cleared is acknowledged. */
  lemma AckFollows(s: System, i: int)
    requires i in s.slaves && s.slaves[i].acking
    ensures Enabled(s, SendAck(i))
    ensures After(s, SendAck(i)).slaves[i] ==
            s.slaves[i].(acking := false, outbox := s.slaves[i].outbox + [InvalidateAck])
  {
  }

  /** A slave can join. */
  lemma AnyoneJoins(s: System, i: int, zero: bytes)
    requires i !in s.slaves && i != s.master
    ensures Enabled(s, Connect(i, zero)) && After(s, Connect(i, zero)).slaves[i] == Slave(Idle, false, 0, zero, false, [], [])
  {
  }

  function MasterTaking(sl: Slave, i: int): Label
    requires sl.outbox != []
  {
    match sl.outbox[0]
    case LockPage(_) => MasterTakeLock(i)
    case GivePage(_, _) => MasterTakePage(i)
    case _ => MasterTakeAck(i)
  }

  /** The master's daemon takes any message it finds when it does not drain, and then drains; and it can go on
      draining until it is done. */
  lemma MasterGoesOn(s: System, i: int)
    requires Reachable(s)
    ensures !s.draining && i in s.slaves && s.slaves[i].outbox != [] ==>
              && Enabled(s, MasterTaking(s.slaves[i], i))
              && var s' := After(s, MasterTaking(s.slaves[i], i));
                 s'.draining && s'.slaves[i].outbox == s.slaves[i].outbox[1..]
    ensures s.draining ==> (Enabled(s, MasterTurn) <==> !Enabled(s, MasterDone))
    ensures s.draining && Enabled(s, MasterDone) ==> !After(s, MasterDone).draining
  {
    if i in s.slaves && s.slaves[i].outbox != [] { FrontOfOutbox(s, i); }
    if s.home.requests != [] { NoRequestStuck(s); }
  }

  // ---------------------------------------------------------------- a bound on the work

  /** The steps of the daemons, the return from a wait, and unlocking: nothing new is asked for. */
  predicate Finishing(l: Label) {
    match l
    case Wake(_) => true
    case Unlock(_) => true
    case TakeInvalidate(_) => true
    case SendAck(_) => true
    case TakePage(_) => true
    case MasterTakeLock(_) => true
    case MasterTakeAck(_) => true
    case MasterTakePage(_) => true
    case MasterTurn => true
    case MasterDone => true
    case _ => false
  }

  /** The steps a message can lead to, on its way home or from there. */
  function MsgWork(m: PageMsg, homeward: bool): nat {
    match m
    case LockPage(_) => 13
    case Invalidate => 4
    case InvalidateAck => 2
    case GivePage(_, _) => if homeward then 2 else 5
  }

  function MsgsWork(msgs: seq<PageMsg>, homeward: bool): nat {
    if msgs == [] then 0 else MsgWork(msgs[0], homeward) + MsgsWork(msgs[1..], homeward)
  }

  function SlaveWork(sl: Slave): nat {
    MsgsWork(sl.inbox, false) + MsgsWork(sl.outbox, true) + (if sl.acking then 3 else 0)
    + if sl.app.Waiting? && sl.uptodate then 4 else if sl.app.Holding? then 3 else 0
  }

  function HomeWork(h: Home): nat {
    11 * |h.requests| + if h.invalidateSent then 0 else 5 * |h.readers|
  }

  ghost function SlavesWork(slaves: map<int, Slave>): nat
    decreases |slaves|
  {
    if exists i :: i in slaves then
      var i :| i in slaves;
      SlaveWork(slaves[i]) + SlavesWork(slaves - {i})
    else 0
  }

  /** A bound on the finishing steps that can follow. */
  ghost function Work(s: System): nat {
    SlavesWork(s.slaves) + HomeWork(s.home) + if s.draining then 1 else 0
  }

  lemma {:induction false} WorkOf(slaves: map<int, Slave>, i: int)
    requires i in slaves
    ensures SlavesWork(slaves) == SlaveWork(slaves[i]) + SlavesWork(slaves - {i})
    decreases |slaves|
  {
    var j :| j in slaves && SlavesWork(slaves) == SlaveWork(slaves[j]) + SlavesWork(slaves - {j});
    if i != j {
      WorkOf(slaves - {j}, i);
      WorkOf(slaves - {i}, j);
      assert slaves - {j} - {i} == slaves - {i} - {j};
    }
  }

  lemma WorkChanges(slaves: map<int, Slave>, i: int, sl: Slave)
    requires i in slaves
    ensures SlavesWork(slaves[i := sl]) + SlaveWork(slaves[i]) == SlavesWork(slaves) + SlaveWork(sl)
  {
    WorkOf(slaves, i);
    WorkOf(slaves[i := sl], i);
    assert slaves[i := sl] - {i} == slaves - {i};
  }

  lemma {:induction false} MsgsWorkSnoc(msgs: seq<PageMsg>, m: PageMsg, homeward: bool)
    ensures MsgsWork(msgs + [m], homeward) == MsgsWork(msgs, homeward) + MsgWork(m, homeward)
  {
    if msgs == [] {
      assert [m][1..] == [] && [] + [m] == [m];
    } else {
      assert (msgs + [m])[1..] == msgs[1..] + [m];
      MsgsWorkSnoc(msgs[1..], m, homeward);
    }
  }

  function PostsWork(posts: seq<Post>): nat {
    if posts == [] then 0 else MsgWork(posts[0].msg, false) + PostsWork(posts[1..])
  }

  /** Delivering messages adds their work. */
  lemma {:induction false} DeliveredWork(slaves: map<int, Slave>, posts: seq<Post>)
    requires forall k :: 0 <= k < |posts| ==> posts[k].to in slaves
    ensures SlavesWork(Deliver(slaves, posts)) == SlavesWork(slaves) + PostsWork(posts)
    decreases |posts|
  {
    if posts == [] {
      DeliverNothing(slaves);
    } else {
      var post, rest := posts[0], posts[1..];
      DeliverConcat(slaves, [post], rest);
      assert posts == [post] + rest;
      DeliveredWork(Deliver(slaves, [post]), rest);
      DeliveredOne(slaves, post);
    }
  }

  lemma DeliveredOne(slaves: map<int, Slave>, post: Post)
    requires post.to in slaves
    ensures SlavesWork(Deliver(slaves, [post])) == SlavesWork(slaves) + MsgWork(post.msg, false)
  {
    var i := post.to;
    var sl' := slaves[i].(inbox := slaves[i].inbox + [post.msg]);
    assert [post][1..] == [];
    assert Deliver(slaves, [post]) == slaves[i := sl'] by {
      forall j | j in slaves
        ensures Deliver(slaves, [post])[j] == slaves[i := sl'][j]
      {
        assert MsgsFor([post], j) == if j == i then [post.msg] else [];
        assert slaves[j].inbox + [] == slaves[j].inbox;
      }
    }
    MsgsWorkSnoc(slaves[i].inbox, post.msg, false);
    WorkChanges(slaves, i, sl');
  }

  lemma {:induction false} BroadcastWork(readers: seq<int>)
    ensures PostsWork(Broadcast(readers)) == 4 * |readers|
  {
    if readers != [] {
      assert Broadcast(readers)[1..] == Broadcast(readers[1..]);
      BroadcastWork(readers[1..]);
    }
  }

  /** A turn of the master turns the work of a request into that of its answer. */
  lemma TurnWork(h: Home)
    requires DrainTurn(h).Go? && (h.invalidateSent ==> CanWrite(h.requests[0].rights))
    ensures HomeWork(DrainTurn(h).home) + PostsWork(DrainTurn(h).posts) < HomeWork(h)
  {
    var posts := DrainTurn(h).posts;
    if h.requests[0].rights != PROT_READ && h.readers != [] {
      BroadcastWork(h.readers);
    } else {
      assert posts[1..] == [];
    }
  }

  lemma TurnReaches(s: System)
    requires Inv(s) && Enabled(s, MasterTurn)
    ensures forall k :: 0 <= k < |DrainTurn(s.home).posts| ==> DrainTurn(s.home).posts[k].to in s.slaves
  {
    assert QueuedOk(s, s.home.requests[0]);
  }

  lemma TurnDescends(s: System)
    requires Reachable(s) && Enabled(s, MasterTurn)
    ensures Work(After(s, MasterTurn)) < Work(s)
  {
    ReachableInv(s);
    TurnReaches(s);
    DeliveredWork(s.slaves, DrainTurn(s.home).posts);
    TurnWork(s.home);
  }

  /** A step of a slave. */
  lemma SlaveStepWork(sl: Slave, sl': Slave)
    requires
      || (sl.app.Waiting? && sl.uptodate && sl' == sl.(app := Holding(sl.app.rights)))
      || (sl.app.Holding? && sl' == AfterUnlock(sl))
      || (sl.acking && sl' == AfterSendAck(sl))
      || (sl.inbox != [] && sl.inbox[0].GivePage? && !sl.app.Holding? && sl' == AfterTakePage(sl))
      || (sl.inbox != [] && sl.inbox[0].Invalidate? && !sl.acking && sl' == AfterTakeInvalidate(sl))
    ensures SlaveWork(sl') < SlaveWork(sl)
  {
    MsgsWorkSnoc(sl.outbox, InvalidateAck, true);
    MsgsWorkSnoc(sl.outbox, GivePage(sl.protection, sl.data), true);
  }

  lemma SlaveDescends(s: System, l: Label)
    requires Enabled(s, l) && (l.Wake? || l.Unlock? || l.TakeInvalidate? || l.SendAck? || l.TakePage?)
    ensures Work(After(s, l)) < Work(s)
  {
    SlaveStepWork(s.slaves[l.i], After(s, l).slaves[l.i]);
    WorkChanges(s.slaves, l.i, After(s, l).slaves[l.i]);
  }

  lemma TakingDescends(s: System, l: Label)
    requires Enabled(s, l) && (l.MasterTakeLock? || l.MasterTakeAck? || l.MasterTakePage?)
    ensures Work(After(s, l)) < Work(s)
  {
    WorkChanges(s.slaves, l.i, After(s, l).slaves[l.i]);
  }

  lemma StepDescends(s: System, l: Label)
    requires Reachable(s) && Enabled(s, l) && Finishing(l)
    ensures Work(After(s, l)) < Work(s)
  {
    match l
    case MasterTurn => TurnDescends(s);
    case MasterDone =>
    case MasterTakeLock(_) => TakingDescends(s, l);
    case MasterTakeAck(_) => TakingDescends(s, l);
    case MasterTakePage(_) => TakingDescends(s, l);
    case _ => SlaveDescends(s, l);
  }

  predicate AllFinishing(run: seq<Label>) {
    forall k :: 0 <= k < |run| ==> Finishing(run[k])
  }

  /** They never go on without end: no run of finishing steps from s is longer than Work(s). */
  lemma {:induction false} FinishingEnds(s: System, run: seq<Label>)
    requires Reachable(s) && CanRun(s, run) && AllFinishing(run)
    ensures |run| + Work(Run(s, run)) <= Work(s)
    decreases |run|
  {
    if run != [] {
      assert Finishing(run[0]);
      StepDescends(s, run[0]);
      ReachableStep(s, run[0]);
      FinishingEnds(After(s, run[0]), run[1..]);
    }
  }

  // ---------------------------------------------------------------- at rest

  /** Only a new demand of an application can make the next step. */
  ghost predicate AtRest(s: System) {
    forall l :: Finishing(l) ==> !Enabled(s, l)
  }

  /** They come to rest. */
  lemma {:induction false} ComesToRest(s: System) returns (run: seq<Label>)
    requires Reachable(s)
    ensures CanRun(s, run) && AllFinishing(run) && AtRest(Run(s, run)) && Reachable(Run(s, run))
    decreases Work(s)
  {
    run := [];
    if !AtRest(s) {
      var l :| Finishing(l) && Enabled(s, l);
      StepDescends(s, l);
      ReachableStep(s, l);
      var rest := ComesToRest(After(s, l));
      run := [l] + rest;
      assert run[0] == l && run[1..] == rest;
    }
  }

  /** At rest nothing is on its way, but to a process that has terminated inside a lock. */
  lemma RestIs(s: System, i: int)
    requires Reachable(s) && AtRest(s) && i in s.slaves
    ensures !s.draining
    ensures var sl := s.slaves[i];
            && sl.outbox == [] && !sl.acking && !sl.app.Holding? && !(sl.app.Waiting? && sl.uptodate)
            && (sl.inbox != [] ==> sl.app == Gone(true))
  {
    var sl := s.slaves[i];
    assert !Enabled(s, MasterTurn) && !Enabled(s, MasterDone);
    assert !Enabled(s, SendAck(i)) && !Enabled(s, Wake(i)) && !Enabled(s, Unlock(i));
    assert sl.outbox != [] ==> !Enabled(s, MasterTaking(sl, i));
    assert sl.inbox != [] ==> !Enabled(s, SlaveTaking(sl, i));
    MasterGoesOn(s, i);
    if sl.inbox != [] && !sl.acking && !MutexHeld(sl.app) { SlaveTakesFront(s, i); }
  }

  /** Slave j has terminated inside a lock, and is to give its copy up. */
  predicate HoldsUp(s: System, j: int) {
    j in s.slaves && s.slaves[j].app == Gone(true) && s.slaves[j].inbox == [Invalidate]
  }

  /** At rest, a slave that waits and was not recalled while it waited waits for such a process. */
  lemma RestWaits(s: System, i: int) returns (j: int)
    requires Reachable(s) && AtRest(s) && Waiting.Waits(s, i) && Waiting.Pending(s, i)
    ensures HoldsUp(s, j)
  {
    ReachableInv(s);
    RestIs(s, i);
    assert s.home.requests != [];
    NoRequestStuck(s);
    InvalidationAccounting(s);
    j := if !s.home.uptodate then s.home.writeOwner else s.home.readers[0];
    RestIs(s, j);
    assert SlaveOk(s.slaves[j], s.home.data, s.lastWrite);
  }

  /** However a run comes to rest, every slave that then still waits was recalled while it waited, unless a process
      has terminated inside a lock. */
  lemma EveryoneIsServed(master: int, zero: bytes, run: seq<Label>, i: int)
    requires CanRun(InitialSystem(master, zero), run) && AtRest(Run(InitialSystem(master, zero), run))
    requires Waiting.Waits(Run(InitialSystem(master, zero), run), i)
    ensures || i in Waiting.MissedInRun(InitialSystem(master, zero), run, {})
            || exists j :: HoldsUp(Run(InitialSystem(master, zero), run), j)
  {
    var s := Run(InitialSystem(master, zero), run);
    assert ReachedBy(s, master, zero, run);
    if i !in Waiting.MissedInRun(InitialSystem(master, zero), run, {}) {
      Waiting.WaitingExactly(master, zero, run, i);
      var j := RestWaits(s, i);
    }
  }

  /** Any run can be finished so. */
  lemma AnyRunFinishes(master: int, zero: bytes, run: seq<Label>) returns (more: seq<Label>)
    requires CanRun(InitialSystem(master, zero), run)
    ensures CanRun(InitialSystem(master, zero), run + more) && AllFinishing(more)
    ensures AtRest(Run(InitialSystem(master, zero), run + more))
    ensures |more| <= Work(Run(InitialSystem(master, zero), run))
  {
    var s0 := InitialSystem(master, zero);
    assert ReachedBy(Run(s0, run), master, zero, run);
    more := ComesToRest(Run(s0, run));
    FinishingEnds(Run(s0, run), more);
    RunsJoin(s0, run, more);
  }

  lemma {:induction false} RunsJoin(s: System, run: seq<Label>, more: seq<Label>)
    requires CanRun(s, run) && CanRun(Run(s, run), more)
    ensures CanRun(s, run + more) && Run(s, run + more) == Run(Run(s, run), more)
    decreases |run|
  {
    if run == [] {
      assert [] + more == more;
    } else {
      assert (run + more)[1..] == run[1..] + more;
      RunsJoin(After(s, run[0]), run[1..], more);
    }
  }

  // ---------------------------------------------------------------- one writes, another reads

  /** The first slave has asked to write. */
  lemma WriteAsked(zero: bytes) returns (s: System)
    ensures Reachable(s) && s.draining && s.home == Home(true, 3, 0, zero, [Request(1, 3)], [], false)
    ensures s.slaves == map[1 := NewSlave(zero).(app := App.Waiting(3)), 2 := NewSlave(zero)]
  {
    s := BothJoined(zero);
    s := Next(s, LockAsk(1, 3));
    s := Next(s, MasterTakeLock(1));
    assert s.home.requests == [Request(1, 3)] && s.slaves[1].outbox == [];
  }

  /** It has been granted the page. */
  lemma WriteGranted(zero: bytes) returns (s: System)
    ensures Reachable(s) && !s.draining && s.home == Home(false, 0, 1, zero, [], [], false)
    ensures s.slaves ==
            map[1 := NewSlave(zero).(app := App.Waiting(3), inbox := [GivePage(3, zero)]), 2 := NewSlave(zero)]
  {
    s := WriteAsked(zero);
    var page := GivePage(3, zero);
    assert DrainTurn(s.home) == Go(Home(false, 0, 1, zero, [], [], false), [Post(1, page)]);
    s := Next(s, MasterTurn);
    assert MsgsFor([Post(1, page)], 1) == [page] && MsgsFor([Post(1, page)], 2) == [];
    assert s.slaves[1].inbox == [page] && s.slaves[2].inbox == [];
    s := Next(s, MasterDone);
  }

  /** It holds the lock. */
  lemma WriterHolds(zero: bytes) returns (s: System)
    ensures Reachable(s) && !s.draining && s.home == Home(false, 0, 1, zero, [], [], false)
    ensures s.slaves == map[1 := Slave(Holding(3), true, 3, zero, false, [], []), 2 := NewSlave(zero)]
  {
    s := WriteGranted(zero);
    s := Next(s, TakePage(1));
    assert s.slaves[1].inbox == [];
    s := Next(s, Wake(1));
  }

  /** It has written. */
  lemma Written(zero: bytes, d: bytes) returns (s: System)
    ensures Reachable(s) && !s.draining && s.home == Home(false, 0, 1, zero, [], [], false)
    ensures s.slaves == map[1 := Slave(Holding(3), true, 3, d, false, [], []), 2 := NewSlave(zero)]
  {
    s := WriterHolds(zero);
    s := Next(s, Store(1, d));
  }

  /** It has unlocked, and the page is home again. */
  lemma WrittenHome(zero: bytes, d: bytes) returns (s: System)
    ensures Reachable(s) && !s.draining && s.home == Home(true, 3, s.master, d, [], [], false)
    ensures s.slaves == map[1 := NewSlave(d), 2 := NewSlave(zero)]
  {
    s := Written(zero, d);
    s := Next(s, Unlock(1));
    assert s.slaves[1].outbox == [GivePage(3, d)];
    s := Next(s, MasterTakePage(1));
    assert s.slaves[1].outbox == [];
    s := Next(s, MasterDone);
  }

  /** The second slave has been granted its copy. */
  lemma CopyGranted(zero: bytes, d: bytes) returns (s: System)
    ensures Reachable(s) && 2 in s.slaves
    ensures s.slaves[2] == NewSlave(zero).(app := App.Waiting(1), inbox := [GivePage(1, d)])
  {
    s := WrittenHome(zero, d);
    s := Next(s, LockAsk(2, 1));
    s := Next(s, MasterTakeLock(2));
    assert s.home.requests == [Request(2, 1)] && s.slaves[2].outbox == [];
    var page := GivePage(1, d);
    assert DrainTurn(s.home) == Go(Home(true, 3, s.master, d, [], [2], false), [Post(2, page)]);
    s := Next(s, MasterTurn);
    assert MsgsFor([Post(2, page)], 2) == [page];
    assert s.slaves[2].inbox == [page];
  }

  /** A state can be reached in which one slave reads, under the lock, what another wrote. */
  lemma ReadsWhatWasWritten(zero: bytes, d: bytes) returns (s: System)
    ensures Reachable(s) && 2 in s.slaves && s.slaves[2].app == Holding(1) && s.slaves[2].uptodate
    ensures s.slaves[2].data == d == s.lastWrite
  {
    s := CopyGranted(zero, d);
    s := Next(s, TakePage(2));
    s := Next(s, Wake(2));
    Coherence(s, 2);
  }
  // ---------------------------------------------------------------- one quits, another waits

  /** The first slave holds the lock to read. */
  lemma ReaderHolds(zero: bytes) returns (s: System)
    ensures Reachable(s) && !s.draining && s.home == InitialHome(0, zero).(readers := [1])
    ensures s.slaves == map[1 := Slave(Holding(1), true, 1, zero, false, [], []), 2 := NewSlave(zero)]
  {
    s := ReadGranted(zero);
    s := Next(s, TakePage(1));
    assert s.slaves[1].inbox == [];
    s := Next(s, Wake(1));
  }

  /** It has terminated inside it. */
  lemma ReaderGone(zero: bytes) returns (s: System)
    ensures Reachable(s) && !s.draining && s.home == InitialHome(0, zero).(readers := [1])
    ensures s.slaves == map[1 := Slave(Gone(true), true, 1, zero, false, [], []), 2 := NewSlave(zero)]
  {
    s := ReaderHolds(zero);
    s := Next(s, Quit(1));
  }

  /** The exception is a real one: the second then waits for the first, which has nobody to unlock for it. */
  lemma HeldUpIsReached(zero: bytes) returns (s: System)
    ensures Reachable(s) && HoldsUp(s, 1) && Waiting.Waits(s, 2) && Waiting.Pending(s, 2)
  {
    s := ReaderGone(zero);
    s := Next(s, LockAsk(2, 3));
    s := Next(s, MasterTakeLock(2));
    assert s.home.requests == [Request(2, 3)] && s.home.requests[0].sockfd == 2;
    assert DrainTurn(s.home) == Go(s.home.(invalidateSent := true), Broadcast([1]));
    assert Broadcast([1]) == [Post(1, Invalidate)] && Broadcast([1])[1..] == [];
    s := Next(s, MasterTurn);
    assert s.slaves[1].inbox == [] + [Invalidate] == [Invalidate];
  }
}
