/** Why a slave waits in lock_page. It sends one request and then waits for its copy to be up to date; when the
    copy has come and been recalled again before it wakes, nothing will ever wake it. */
module Waiting {
  import opened Bytes
  import opened PageProtocol
  import opened PageInvariant
  import opened PageTheorems
  import opened LoopAsWritten

  predicate QueuedIn(requests: seq<Request>, i: int) {
    exists k :: 0 <= k < |requests| && requests[k].sockfd == i
  }

  /** The request of slave i, or its page, is under way: the request sent or queued, the page sent or held. */
  predicate Pending(s: System, i: int)
    requires i in s.slaves
  {
    HasLock(s.slaves[i]) || QueuedIn(s.home.requests, i) || CarriesPage(s.slaves[i].inbox) || s.slaves[i].uptodate
  }

  /** The slaves recalled while they waited, after a step. */
  function MissedAfter(s: System, l: Label, missed: set<int>): set<int>
    requires Enabled(s, l)
  {
    if l.TakeInvalidate? && s.slaves[l.i].app.Waiting? then missed + {l.i} else missed
  }

  function MissedInRun(s: System, run: seq<Label>, missed: set<int>): set<int>
    requires CanRun(s, run)
    decreases |run|
  {
    if run == [] then missed else MissedInRun(After(s, run[0]), run[1..], MissedAfter(s, run[0], missed))
  }

  predicate Waits(s: System, i: int) {
    i in s.slaves && s.slaves[i].app.Waiting?
  }

  /** A waiting slave has nothing under way exactly when it was recalled while it waited. */
  ghost predicate Accounted(s: System, missed: set<int>) {
    && (forall i :: i in missed ==> Waits(s, i))
    && (forall i :: Waits(s, i) ==> (Pending(s, i) <==> i !in missed))
  }

  /** s' has the same requests under way for slave j, and it waits in both or in neither. */
  ghost predicate SameFor(s: System, s': System, j: int) {
    && (Waits(s', j) <==> Waits(s, j))
    && (Waits(s, j) ==> (Pending(s', j) <==> Pending(s, j)))
  }

  lemma SameAccount(s: System, s': System, missed: set<int>)
    requires Accounted(s, missed) && forall j :: SameFor(s, s', j)
    ensures Accounted(s', missed)
  {
    forall i | i in missed
      ensures Waits(s', i)
    {
      assert SameFor(s, s', i);
    }
    forall i | Waits(s', i)
      ensures Pending(s', i) <==> i !in missed
    {
      assert SameFor(s, s', i);
    }
  }

  /** The steps of one slave that neither start nor end a wait, nor lose what is under way for it. */
  lemma SlaveKeepsAccount(s: System, l: Label, missed: set<int>)
    requires Inv(s) && Accounted(s, missed) && Enabled(s, l)
    requires l.LockAgain? || l.Store? || l.Unlock? || l.Quit? || l.SendAck? || l.TakePage? || l.Connect? || l.MasterDone?
    ensures Accounted(After(s, l), missed)
  {
    var s' := After(s, l);
    forall j
      ensures SameFor(s, s', j)
    {
      if j in s.slaves { OwnStep(s, l, j); }
    }
    SameAccount(s, s', missed);
  }

  lemma OwnStep(s: System, l: Label, j: int)
    requires Inv(s) && Enabled(s, l) && j in s.slaves
    requires l.LockAgain? || l.Store? || l.Unlock? || l.Quit? || l.SendAck? || l.TakePage? || l.Connect? || l.MasterDone?
    ensures SameFor(s, After(s, l), j)
  {
    var sl, sl' := s.slaves[j], After(s, l).slaves[j];
    assert SlaveOk(sl, s.home.data, s.lastWrite);
    if l.SendAck? && l.i == j {
      LockBefore(sl, InvalidateAck);
    } else if l.TakePage? && l.i == j {
      assert sl.inbox[0].GivePage? && sl'.uptodate;
    }
  }

  /** A message that is no request does not change whether one is sent. */
  lemma LockBefore(sl: Slave, m: PageMsg)
    requires !m.LockPage?
    ensures HasLock(sl.(outbox := sl.outbox + [m], acking := false)) <==> HasLock(sl)
  {
    var more := sl.outbox + [m];
    if k :| 0 <= k < |sl.outbox| && sl.outbox[k].LockPage? { assert more[k].LockPage?; }
    if k :| 0 <= k < |more| && more[k].LockPage? { assert k < |sl.outbox| && sl.outbox[k].LockPage?; }
  }

  /** A wait starts with a request sent. */
  lemma LockAskAccounted(s: System, i: int, rights: int, missed: set<int>)
    requires Inv(s) && Accounted(s, missed) && Enabled(s, LockAsk(i, rights))
    ensures Accounted(After(s, LockAsk(i, rights)), missed)
  {
    var s' := After(s, LockAsk(i, rights));
    var outbox := s'.slaves[i].outbox;
    assert outbox[|outbox| - 1].LockPage?;
    assert !Waits(s, i);
    forall j | Waits(s', j)
      ensures Pending(s', j) <==> j !in missed
    {
      if j != i { assert Waits(s, j); }
    }
  }

  /** A wait ends with the page held. */
  lemma WakeAccounted(s: System, i: int, missed: set<int>)
    requires Inv(s) && Accounted(s, missed) && Enabled(s, Wake(i))
    ensures Accounted(After(s, Wake(i)), missed)
  {
    var s' := After(s, Wake(i));
    assert Waits(s, i) && Pending(s, i);
    forall j | j in missed
      ensures Waits(s', j)
    {
      assert Waits(s, j);
    }
    forall j | Waits(s', j)
      ensures Pending(s', j) <==> j !in missed
    {
      assert Waits(s, j);
    }
  }

  /** A recall takes the copy; a slave that waits then has nothing under way. */
  lemma RecallAccounted(s: System, i: int, missed: set<int>)
    requires Inv(s) && Accounted(s, missed) && Enabled(s, TakeInvalidate(i))
    ensures Accounted(After(s, TakeInvalidate(i)), MissedAfter(s, TakeInvalidate(i), missed))
  {
    var s' := After(s, TakeInvalidate(i));
    var sl := s.slaves[i];
    assert SlaveOk(sl, s.home.data, s.lastWrite);
    assert StageOf(sl) == Doomed;
    assert !QueuedIn(s.home.requests, i) by {
      forall k | 0 <= k < |s.home.requests|
        ensures s.home.requests[k].sockfd != i
      {
        assert QueuedOk(s, s.home.requests[k]);
      }
    }
    assert !CarriesPage(s'.slaves[i].inbox) && !HasLock(s'.slaves[i]);
    forall j | Waits(s', j)
      ensures Pending(s', j) <==> j !in MissedAfter(s, TakeInvalidate(i), missed)
    {
      assert Waits(s, j);
    }
  }

  /** Taking a message from a slave moves a request from its connection to the queue. */
  lemma TakeAccounted(s: System, l: Label, missed: set<int>)
    requires Inv(s) && Accounted(s, missed) && Enabled(s, l)
    requires l.MasterTakeLock? || l.MasterTakeAck? || l.MasterTakePage?
    ensures Accounted(After(s, l), missed)
  {
    var s' := After(s, l);
    forall j
      ensures SameFor(s, s', j)
    {
      if j in s.slaves { TakeSame(s, l, j); }
    }
    SameAccount(s, s', missed);
  }

  lemma TakeSame(s: System, l: Label, j: int)
    requires Inv(s) && Enabled(s, l) && j in s.slaves
    requires l.MasterTakeLock? || l.MasterTakeAck? || l.MasterTakePage?
    ensures SameFor(s, After(s, l), j)
  {
    var s' := After(s, l);
    var queue, queue' := s.home.requests, s'.home.requests;
    if l.MasterTakeLock? {
      assert queue' == queue + [Request(l.i, s.slaves[l.i].outbox[0].rights)];
      assert queue'[|queue|].sockfd == l.i;
      if k :| 0 <= k < |queue| && queue[k].sockfd == j { assert queue'[k].sockfd == j; }
      if k :| 0 <= k < |queue'| && queue'[k].sockfd == j && j != l.i { assert queue[k].sockfd == j; }
    } else if j == l.i {
      LockBehind(s.slaves[j]);
    }
  }

  lemma LockBehind(sl: Slave)
    requires sl.outbox != [] && !sl.outbox[0].LockPage?
    ensures HasLock(sl.(outbox := sl.outbox[1..])) <==> HasLock(sl)
  {
    var rest := sl.outbox[1..];
    if k :| 0 <= k < |sl.outbox| && sl.outbox[k].LockPage? { assert rest[k - 1].LockPage?; }
    if k :| 0 <= k < |rest| && rest[k].LockPage? { assert sl.outbox[k + 1].LockPage?; }
  }

  /** A turn of the master answers the first request, or recalls copies. */
  lemma TurnAccounted(s: System, missed: set<int>)
    requires Inv(s) && Accounted(s, missed) && Enabled(s, MasterTurn)
    ensures Accounted(After(s, MasterTurn), missed)
  {
    var s' := After(s, MasterTurn);
    forall j
      ensures SameFor(s, s', j)
    {
      if j in s.slaves { TurnSame(s, j); }
    }
    SameAccount(s, s', missed);
  }

  lemma TurnSame(s: System, j: int)
    requires Inv(s) && Enabled(s, MasterTurn) && j in s.slaves
    ensures SameFor(s, After(s, MasterTurn), j)
  {
    if After(s, MasterTurn).home.requests == s.home.requests {
      RecallTurnSame(s, j);
    } else {
      GrantTurnSame(s, j);
    }
  }

  lemma RecallTurnSame(s: System, j: int)
    requires Inv(s) && Enabled(s, MasterTurn) && j in s.slaves
    requires After(s, MasterTurn).home.requests == s.home.requests
    ensures SameFor(s, After(s, MasterTurn), j)
  {
    RecallTurn(s, j);
    NoPageIn(s.slaves[j].inbox, if j in s.home.readers then [Invalidate] else []);
  }

  lemma GrantTurnSame(s: System, j: int)
    requires Inv(s) && Enabled(s, MasterTurn) && j in s.slaves
    requires After(s, MasterTurn).home.requests != s.home.requests
    ensures SameFor(s, After(s, MasterTurn), j)
  {
    var head := s.home.requests[0];
    HeadIsOut(s);
    GrantReaches(s);
    assert QueuedIn(s.home.requests, head.sockfd);
    if j == head.sockfd {
      assert After(s, MasterTurn).slaves[j].inbox[0].GivePage?;
    } else {
      PopQueued(s.home.requests, j);
    }
  }

  lemma NoPageIn(inbox: seq<PageMsg>, more: seq<PageMsg>)
    requires !CarriesPage(more)
    ensures CarriesPage(inbox + more) <==> CarriesPage(inbox)
  {
    var all := inbox + more;
    assert forall k :: |inbox| <= k < |all| ==> all[k] == more[k - |inbox|];
    if CarriesPage(inbox) {
      var k :| 0 <= k < |inbox| && inbox[k].GivePage?;
      assert all[k].GivePage?;
    } else {
      assert forall k :: 0 <= k < |inbox| ==> all[k] == inbox[k];
    }
  }

  lemma PopQueued(queue: seq<Request>, j: int)
    requires queue != [] && j != queue[0].sockfd
    ensures QueuedIn(queue[1..], j) <==> QueuedIn(queue, j)
  {
    var rest := queue[1..];
    if k :| 0 <= k < |queue| && queue[k].sockfd == j { assert rest[k - 1].sockfd == j; }
    if k :| 0 <= k < |rest| && rest[k].sockfd == j { assert queue[k + 1].sockfd == j; }
  }

  lemma StepAccounted(s: System, l: Label, missed: set<int>)
    requires Inv(s) && Accounted(s, missed) && Enabled(s, l)
    ensures Accounted(After(s, l), MissedAfter(s, l, missed))
  {
    match l
    case LockAsk(i, rights) => LockAskAccounted(s, i, rights, missed);
    case Wake(i) => WakeAccounted(s, i, missed);
    case TakeInvalidate(i) => RecallAccounted(s, i, missed);
    case MasterTakeLock(_) => TakeAccounted(s, l, missed);
    case MasterTakeAck(_) => TakeAccounted(s, l, missed);
    case MasterTakePage(_) => TakeAccounted(s, l, missed);
    case MasterTurn => TurnAccounted(s, missed);
    case _ => SlaveKeepsAccount(s, l, missed);
  }

  lemma {:induction false} RunAccounted(s: System, run: seq<Label>, missed: set<int>)
    requires Inv(s) && Accounted(s, missed) && CanRun(s, run)
    ensures Inv(Run(s, run)) && Accounted(Run(s, run), MissedInRun(s, run, missed))
    ensures missed <= MissedInRun(s, run, missed)
    decreases |run|
  {
    if run != [] {
      StepKeepsInv(s, run[0]);
      StepAccounted(s, run[0], missed);
      RunAccounted(After(s, run[0]), run[1..], MissedAfter(s, run[0], missed));
    }
  }

  /** After any run a waiting slave has its request sent or queued, or its page sent or held, if and only if it
      was not recalled while it waited. */
  lemma WaitingExactly(master: int, zero: bytes, run: seq<Label>, i: int)
    requires CanRun(InitialSystem(master, zero), run) && Waits(Run(InitialSystem(master, zero), run), i)
    ensures Pending(Run(InitialSystem(master, zero), run), i) <==>
            i !in MissedInRun(InitialSystem(master, zero), run, {})
  {
    InitialInv(master, zero);
    RunAccounted(InitialSystem(master, zero), run, {});
  }

  /** And one that was recalled while it waited waits for ever, whatever happens next. */
  lemma MissedForEver(master: int, zero: bytes, run: seq<Label>, more: seq<Label>, i: int)
    requires CanRun(InitialSystem(master, zero), run)
    requires i in MissedInRun(InitialSystem(master, zero), run, {})
    requires CanRun(Run(InitialSystem(master, zero), run), more)
    ensures var s := Run(Run(InitialSystem(master, zero), run), more);
            Waits(s, i) && !Pending(s, i) && !Enabled(s, Wake(i))
  {
    InitialInv(master, zero);
    RunAccounted(InitialSystem(master, zero), run, {});
    var missed := MissedInRun(InitialSystem(master, zero), run, {});
    RunAccounted(Run(InitialSystem(master, zero), run), more, missed);
  }

  /** The master has the second slave's request to write, and recalls the first slave's copy. */
  lemma RecallSent(zero: bytes) returns (s: System)
    ensures Reachable(s) && 1 in s.slaves
    ensures s.slaves[1] == NewSlave(zero).(app := PageProtocol.Waiting(PROT_READ), inbox := [GivePage(PROT_READ, zero), Invalidate])
    ensures s.home.requests == [Request(2, PROT_READ_WRITE)]
  {
    s := ReadGranted(zero);
    s := Next(s, LockAsk(2, PROT_READ_WRITE));
    s := Next(s, MasterTakeLock(2));
    assert s.home.requests == [Request(2, PROT_READ_WRITE)];
    assert DrainTurn(s.home) == Go(s.home.(invalidateSent := true), Broadcast([1]));
    var before := s.slaves[1];
    s := Next(s, MasterTurn);
    assert MsgsFor(Broadcast([1]), 1) == [Invalidate] by {
      assert Broadcast([1]) == [Post(1, Invalidate)] && Broadcast([1])[1..] == [];
    }
    assert s.slaves[1].inbox == before.inbox + [Invalidate];
  }

  /** One reader and one writer are enough: the reader's copy comes and is recalled before the reader wakes, and
      nothing is under way for it any more. */
  lemma MissedIsReached(zero: bytes) returns (s: System)
    ensures Reachable(s) && Waits(s, 1) && !Pending(s, 1)
  {
    s := RecallSent(zero);
    s := Next(s, TakePage(1));
    s := Next(s, TakeInvalidate(1));
    assert s.slaves[1].inbox == [] && s.slaves[1].outbox == [];
  }
}
