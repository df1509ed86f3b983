/** The inductive invariant of the page protocol, and that every transition keeps it. */
module PageInvariant {
  import opened Bytes
  import opened LinkedList
  import opened PageProtocol

  /** How far a slave is in the life of its copy, read off its own state and its two connections:
      no copy; a read grant on its way (Doomed: with an invalidation behind it); a read copy (Doomed: to be
      invalidated); copy cleared but not acknowledged; acknowledgement on its way; a write grant on its
      way; the writable copy; the page on its way home. */
  datatype Stage =
    Out | ReadComing | DoomedComing | Reading | Doomed | Acking | Acked | WriteComing | Writing | Returning

  function StageOf(sl: Slave): Stage {
    if sl.inbox != [] && sl.inbox[0].GivePage? then
      if CanWrite(sl.inbox[0].rights) then WriteComing
      else if Invalidate in sl.inbox then DoomedComing else ReadComing
    else if sl.uptodate then
      if CanWrite(sl.protection) then Writing
      else if sl.inbox != [] then Doomed else Reading
    else if sl.acking then Acking
    else if InvalidateAck in sl.outbox then Acked
    else if sl.outbox != [] && sl.outbox[0].GivePage? then Returning
    else Out
  }

  predicate CleanReader(st: Stage) { st == ReadComing || st == Reading }

  predicate Recalled(st: Stage) { st == DoomedComing || st == Doomed || st == Acking || st == Acked }

  predicate IsReader(st: Stage) { CleanReader(st) || Recalled(st) }

  predicate HasToken(st: Stage) { st == WriteComing || st == Writing || st == Returning }

  /** Stages in which a request of the slave may stand in the master's queue. */
  predicate MayQueue(st: Stage) { st == Out || st == Acking || st == Acked }

  /** msgs is at most the one LOCKPAGE the application waits for. */
  predicate LockTail(app: App, msgs: seq<PageMsg>) {
    msgs == [] || (app.Waiting? && LockRights(app.rights) && msgs == [LockPage(app.rights)])
  }

  predicate NoCopy(sl: Slave) {
    !sl.uptodate && sl.protection == PROT_NONE && !sl.app.Holding? && (sl.app.Waiting? ==> LockRights(sl.app.rights))
  }

  predicate ReadCopy(sl: Slave, d: bytes) {
    && sl.uptodate && sl.protection == PROT_READ && sl.data == d && !sl.acking && sl.outbox == []
    && (sl.app.Waiting? || sl.app.Holding? ==> sl.app.rights == PROT_READ)
  }

  predicate Expecting(sl: Slave, rights: int) {
    NoCopy(sl) && !sl.acking && sl.outbox == [] && sl.app == Waiting(rights)
  }

  /** A slave's state and connections agree with its stage; d is the master's copy, w the last returned write. */
  predicate SlaveOk(sl: Slave, d: bytes, w: bytes) {
    match StageOf(sl)
    case Out => NoCopy(sl) && sl.inbox == [] && !sl.acking && LockTail(sl.app, sl.outbox)
    case ReadComing => Expecting(sl, PROT_READ) && sl.inbox == [GivePage(PROT_READ, d)]
    case DoomedComing => Expecting(sl, PROT_READ) && sl.inbox == [GivePage(PROT_READ, d), Invalidate]
    case Reading => ReadCopy(sl, d) && sl.inbox == []
    case Doomed => ReadCopy(sl, d) && sl.inbox == [Invalidate]
    case Acking => NoCopy(sl) && sl.inbox == [] && sl.acking && LockTail(sl.app, sl.outbox)
    case Acked =>
      && NoCopy(sl) && sl.inbox == [] && !sl.acking
      && (|| (sl.outbox[0] == InvalidateAck && LockTail(sl.app, sl.outbox[1..]))
          || (|sl.outbox| == 2 && sl.outbox[1] == InvalidateAck && LockTail(sl.app, sl.outbox[..1])))
    case WriteComing => Expecting(sl, PROT_READ_WRITE) && sl.inbox == [GivePage(PROT_READ_WRITE, d)]
    case Writing =>
      && sl.uptodate && sl.protection == PROT_READ_WRITE && !sl.acking && sl.inbox == [] && sl.outbox == []
      && (sl.app == Holding(PROT_READ_WRITE) || (sl.app == Waiting(PROT_READ_WRITE) && sl.data == d))
    case Returning =>
      && NoCopy(sl) && sl.inbox == [] && !sl.acking
      && sl.outbox[0] == GivePage(PROT_READ_WRITE, w) && LockTail(sl.app, sl.outbox[1..])
  }

  predicate HasLock(sl: Slave) {
    exists k :: 0 <= k < |sl.outbox| && sl.outbox[k].LockPage?
  }

  ghost predicate SlavesOk(s: System) {
    forall i :: i in s.slaves ==> SlaveOk(s.slaves[i], s.home.data, s.lastWrite)
  }

  predicate Distinct<T(==)>(xs: seq<T>) {
    forall j, k :: 0 <= j < k < |xs| ==> xs[j] != xs[k]
  }

  /** The readers list holds exactly the slaves with a read copy not yet acknowledged away, once each. */
  ghost predicate ReadersOk(s: System) {
    && Distinct(s.home.readers)
    && (forall i :: i in s.home.readers ==> i in s.slaves)
    && (forall i :: i in s.slaves ==> (i in s.home.readers <==> IsReader(StageOf(s.slaves[i]))))
    && (forall i :: i in s.slaves && IsReader(StageOf(s.slaves[i])) ==>
          (Recalled(StageOf(s.slaves[i])) <==> s.home.invalidateSent))
  }

  /** A queued request belongs to a slave that waits for it and has no other request under way. */
  ghost predicate QueuedOk(s: System, r: Request) {
    && r.sockfd in s.slaves
    && LockRights(r.rights)
    && s.slaves[r.sockfd].app == Waiting(r.rights)
    && MayQueue(StageOf(s.slaves[r.sockfd]))
    && !HasLock(s.slaves[r.sockfd])
  }

  ghost predicate RequestsOk(s: System) {
    && (forall k :: 0 <= k < |s.home.requests| ==> QueuedOk(s, s.home.requests[k]))
    && (forall j, k :: 0 <= j < k < |s.home.requests| ==> s.home.requests[j].sockfd != s.home.requests[k].sockfd)
  }

  /** The right to write is at home, or with exactly the slave named by write_owner. */
  ghost predicate TokenOk(s: System) {
    if s.home.uptodate then
      && s.home.writeOwner == s.master && s.home.protection == PROT_READ_WRITE && s.home.data == s.lastWrite
      && (forall i :: i in s.slaves ==> !HasToken(StageOf(s.slaves[i])))
    else
      && s.home.writeOwner in s.slaves && s.home.protection == PROT_NONE && s.home.readers == []
      && (forall i :: i in s.slaves ==> (HasToken(StageOf(s.slaves[i])) <==> i == s.home.writeOwner))
      && (StageOf(s.slaves[s.home.writeOwner]) != Returning ==> s.home.data == s.lastWrite)
  }

  ghost predicate HomeOk(s: System) {
    && (s.home.invalidateSent ==> s.home.uptodate && s.home.requests != [] && CanWrite(s.home.requests[0].rights))
    && (!s.draining ==> DrainTurn(s.home).Stop?)
  }

  ghost predicate Inv(s: System) {
    && s.master !in s.slaves
    && SlavesOk(s)
    && ReadersOk(s)
    && RequestsOk(s)
    && TokenOk(s)
    && HomeOk(s)
    && s.received == s.granted + s.home.requests
  }

  // ---------------------------------------------------------------- steps of one slave

  /** A step of slave i that leaves the master alone keeps the invariant when the slave stays well formed,
      keeps its place among readers and token holders, and does not disturb its queued request. */
  lemma SlaveStep(s: System, i: int, sl': Slave)
    requires Inv(s) && i in s.slaves
    requires SlaveOk(sl', s.home.data, s.lastWrite)
    requires IsReader(StageOf(sl')) <==> IsReader(StageOf(s.slaves[i]))
    requires Recalled(StageOf(sl')) <==> Recalled(StageOf(s.slaves[i]))
    requires HasToken(StageOf(sl')) <==> HasToken(StageOf(s.slaves[i]))
    requires StageOf(sl') == Returning <==> StageOf(s.slaves[i]) == Returning
    requires forall r :: r in s.home.requests && r.sockfd == i ==>
               sl'.app == Waiting(r.rights) && MayQueue(StageOf(sl')) && !HasLock(sl')
    ensures Inv(s.(slaves := s.slaves[i := sl']))
  {
    var s' := s.(slaves := s.slaves[i := sl']);
    forall k | 0 <= k < |s.home.requests|
      ensures QueuedOk(s', s.home.requests[k])
    {
      assert QueuedOk(s, s.home.requests[k]);
    }
  }

  lemma KeepLockAgain(s: System, i: int)
    requires Inv(s) && Enabled(s, LockAgain(i))
    ensures Inv(After(s, LockAgain(i)))
  {
    SlaveStep(s, i, s.slaves[i].(app := Holding(PROT_READ)));
  }

  lemma KeepLockAsk(s: System, i: int, rights: int)
    requires Inv(s) && Enabled(s, LockAsk(i, rights))
    ensures Inv(After(s, LockAsk(i, rights)))
  {
    var sl := s.slaves[i];
    var sl' := sl.(app := Waiting(rights), outbox := sl.outbox + [LockPage(rights)]);
    assert SlaveOk(sl, s.home.data, s.lastWrite);
    SlaveStep(s, i, sl');
  }

  lemma KeepWake(s: System, i: int)
    requires Inv(s) && Enabled(s, Wake(i))
    ensures Inv(After(s, Wake(i)))
  {
    SlaveStep(s, i, s.slaves[i].(app := Holding(s.slaves[i].app.rights)));
  }

  lemma KeepStore(s: System, i: int, data: bytes)
    requires Inv(s) && Enabled(s, Store(i, data))
    ensures Inv(After(s, Store(i, data)))
  {
    SlaveStep(s, i, s.slaves[i].(data := data));
  }

  lemma KeepTakeInvalidate(s: System, i: int)
    requires Inv(s) && Enabled(s, TakeInvalidate(i))
    ensures Inv(After(s, TakeInvalidate(i)))
  {
    SlaveStep(s, i, AfterTakeInvalidate(s.slaves[i]));
  }

  lemma KeepSendAck(s: System, i: int)
    requires Inv(s) && Enabled(s, SendAck(i))
    ensures Inv(After(s, SendAck(i)))
  {
    SlaveStep(s, i, AfterSendAck(s.slaves[i]));
  }

  lemma KeepTakePage(s: System, i: int)
    requires Inv(s) && Enabled(s, TakePage(i))
    ensures Inv(After(s, TakePage(i)))
  {
    SlaveStep(s, i, AfterTakePage(s.slaves[i]));
  }

  /** The writer sends the page home: its bytes become the last returned write. */
  lemma ReturnStep(s: System, i: int, rights: int, app: App)
    requires Inv(s) && i in s.slaves && CanWrite(s.slaves[i].protection) && rights == PROT_READ_WRITE
    requires s.slaves[i].app.Holding? && (app.Idle? || app.Gone?)
    ensures Inv(s.(slaves := s.slaves[i := Surrender(s.slaves[i], rights, app)], lastWrite := s.slaves[i].data))
  {
    var sl := s.slaves[i];
    var sl' := Surrender(sl, rights, app);
    var s' := s.(slaves := s.slaves[i := sl'], lastWrite := sl.data);
    assert SlaveOk(sl, s.home.data, s.lastWrite);
    assert StageOf(sl) == Writing && StageOf(sl') == Returning;
    forall k | 0 <= k < |s.home.requests|
      ensures QueuedOk(s', s.home.requests[k])
    {
      assert QueuedOk(s, s.home.requests[k]);
    }
  }

  lemma KeepUnlock(s: System, i: int)
    requires Inv(s) && Enabled(s, Unlock(i))
    ensures Inv(After(s, Unlock(i)))
  {
    var sl := s.slaves[i];
    assert SlaveOk(sl, s.home.data, s.lastWrite);
    if CanWrite(sl.app.rights) {
      ReturnStep(s, i, sl.protection, Idle);
    } else {
      SlaveStep(s, i, sl.(app := Idle));
    }
  }

  lemma KeepQuit(s: System, i: int)
    requires Inv(s) && Enabled(s, Quit(i))
    ensures Inv(After(s, Quit(i)))
  {
    var sl := s.slaves[i];
    assert SlaveOk(sl, s.home.data, s.lastWrite);
    if CanWrite(sl.protection) {
      ReturnStep(s, i, PROT_READ_WRITE, Gone(sl.app.Holding?));
    } else {
      SlaveStep(s, i, sl.(app := Gone(sl.app.Holding?)));
    }
  }

  lemma KeepConnect(s: System, i: int, zero: bytes)
    requires Inv(s) && Enabled(s, Connect(i, zero))
    ensures Inv(After(s, Connect(i, zero)))
  {
    var s' := After(s, Connect(i, zero));
    forall k | 0 <= k < |s.home.requests|
      ensures QueuedOk(s', s.home.requests[k])
    {
      assert QueuedOk(s, s.home.requests[k]);
    }
  }

  // ---------------------------------------------------------------- steps of the master

  /** A request joins the queue. */
  lemma AddRequest(s: System, r: Request)
    requires Inv(s) && QueuedOk(s, r) && s.draining
    requires forall q :: q in s.home.requests ==> q.sockfd != r.sockfd
    ensures Inv(s.(home := QueueRequest(s.home, r.sockfd, r.rights), received := s.received + [r]))
  {
    var s' := s.(home := QueueRequest(s.home, r.sockfd, r.rights), received := s.received + [r]);
    forall k | 0 <= k < |s'.home.requests|
      ensures QueuedOk(s', s'.home.requests[k])
    {
      if k < |s.home.requests| { assert QueuedOk(s, s.home.requests[k]); }
    }
    assert s'.received == s'.granted + s'.home.requests;
  }

  lemma KeepMasterTakeLock(s: System, i: int)
    requires Inv(s) && Enabled(s, MasterTakeLock(i))
    ensures Inv(After(s, MasterTakeLock(i)))
  {
    var sl := s.slaves[i];
    var sl' := sl.(outbox := sl.outbox[1..]);
    assert SlaveOk(sl, s.home.data, s.lastWrite);
    assert HasLock(sl);
    SlaveStep(s, i, sl');
    var s1 := s.(slaves := s.slaves[i := sl'], draining := true);
    forall k | 0 <= k < |s.home.requests|
      ensures QueuedOk(s1, s.home.requests[k])
    {
      assert QueuedOk(s, s.home.requests[k]);
    }
    AddRequest(s1, Request(i, sl.outbox[0].rights));
  }

  lemma {:induction false} RemoveFirstDistinct(xs: seq<int>, x: int)
    requires Distinct(xs)
    ensures Distinct(RemoveFirst(xs, x))
    ensures forall y :: y in RemoveFirst(xs, x) <==> y in xs && y != x
  {
    if xs != [] {
      var rest := xs[1..];
      assert xs == [xs[0]] + rest;
      assert Distinct(rest) by {
        forall j, k | 0 <= j < k < |rest| ensures rest[j] != rest[k] {
          assert xs[j + 1] != xs[k + 1];
        }
      }
      assert xs[0] !in rest;
      if xs[0] != x {
        RemoveFirstDistinct(rest, x);
      }
    }
  }

  lemma AckReaches(s: System, i: int)
    requires Inv(s) && Enabled(s, MasterTakeAck(i))
    ensures var sl' := s.slaves[i].(outbox := s.slaves[i].outbox[1..]);
            SlaveOk(sl', s.home.data, s.lastWrite) && StageOf(sl') == Out
    ensures i in s.home.readers && s.home.invalidateSent
    ensures HasLock(s.slaves[i].(outbox := s.slaves[i].outbox[1..])) ==> HasLock(s.slaves[i])
  {
    assert SlaveOk(s.slaves[i], s.home.data, s.lastWrite);
  }

  lemma KeepMasterTakeAck(s: System, i: int)
    requires Inv(s) && Enabled(s, MasterTakeAck(i))
    ensures Inv(After(s, MasterTakeAck(i)))
  {
    var s' := After(s, MasterTakeAck(i));
    AckReaches(s, i);
    RemoveFirstDistinct(s.home.readers, i);
    forall k | 0 <= k < |s.home.requests|
      ensures QueuedOk(s', s.home.requests[k])
    {
      assert QueuedOk(s, s.home.requests[k]);
    }
  }

  /** The page comes home: nobody has a copy, so every slave is Out or about to be. */
  lemma ReturnReaches(s: System, i: int)
    requires Inv(s) && Enabled(s, MasterTakePage(i))
    ensures !s.home.uptodate && i == s.home.writeOwner
    ensures s.slaves[i].outbox[0] == GivePage(PROT_READ_WRITE, s.lastWrite)
    ensures var sl' := s.slaves[i].(outbox := s.slaves[i].outbox[1..]);
            StageOf(sl') == Out && NoCopy(sl') && sl'.inbox == [] && !sl'.acking && LockTail(sl'.app, sl'.outbox)
    ensures forall j :: j in s.slaves && j != i ==>
              StageOf(s.slaves[j]) == Out && SlaveOk(s.slaves[j], s.home.data, s.lastWrite)
    ensures forall k :: 0 <= k < |s.home.requests| ==> s.home.requests[k].sockfd != i
  {
    assert SlaveOk(s.slaves[i], s.home.data, s.lastWrite);
    assert StageOf(s.slaves[i]) == Returning;
    forall k | 0 <= k < |s.home.requests|
      ensures s.home.requests[k].sockfd != i
    {
      assert QueuedOk(s, s.home.requests[k]);
    }
    forall j | j in s.slaves && j != i
      ensures StageOf(s.slaves[j]) == Out
    {
      assert !IsReader(StageOf(s.slaves[j]));
      assert !HasToken(StageOf(s.slaves[j]));
    }
  }

  lemma ReturnQueued(s: System, i: int)
    requires Inv(s) && Enabled(s, MasterTakePage(i))
    ensures RequestsOk(After(s, MasterTakePage(i)))
  {
    ReturnReaches(s, i);
    var s' := After(s, MasterTakePage(i));
    forall k | 0 <= k < |s.home.requests|
      ensures QueuedOk(s', s.home.requests[k])
    {
      assert QueuedOk(s, s.home.requests[k]);
    }
  }

  lemma ReturnSlaves(s: System, i: int)
    requires Inv(s) && Enabled(s, MasterTakePage(i))
    ensures SlavesOk(After(s, MasterTakePage(i)))
    ensures forall j :: j in s.slaves ==> StageOf(After(s, MasterTakePage(i)).slaves[j]) == Out
  {
    ReturnReaches(s, i);
  }

  lemma KeepMasterTakePage(s: System, i: int)
    requires Inv(s) && Enabled(s, MasterTakePage(i))
    ensures Inv(After(s, MasterTakePage(i)))
  {
    var s' := After(s, MasterTakePage(i));
    ReturnReaches(s, i);
    ReturnQueued(s, i);
    ReturnSlaves(s, i);
    assert TokenOk(s') && ReadersOk(s');
  }

  lemma {:induction false} BroadcastTo(readers: seq<int>, i: int)
    requires Distinct(readers)
    ensures MsgsFor(Broadcast(readers), i) == if i in readers then [Invalidate] else []
  {
    if readers != [] {
      assert readers == [readers[0]] + readers[1..];
      assert Broadcast(readers)[1..] == Broadcast(readers[1..]);
      BroadcastTo(readers[1..], i);
    }
  }

  lemma {:induction false} BroadcastGrantsNothing(readers: seq<int>)
    ensures Grants(Broadcast(readers)) == []
  {
    if readers != [] {
      assert Broadcast(readers)[1..] == Broadcast(readers[1..]);
      BroadcastGrantsNothing(readers[1..]);
    }
  }

  lemma GrantTo(to: int, m: PageMsg, i: int)
    ensures MsgsFor([Post(to, m)], i) == if i == to then [m] else []
    ensures m.GivePage? ==> Grants([Post(to, m)]) == [Request(to, m.rights)]
  {
    assert [Post(to, m)][1..] == [];
  }

  /** A reader to which an invalidation is sent. */
  lemma RecallSlave(sl: Slave, d: bytes, w: bytes)
    requires SlaveOk(sl, d, w) && CleanReader(StageOf(sl))
    ensures var sl' := sl.(inbox := sl.inbox + [Invalidate]);
            SlaveOk(sl', d, w) && Recalled(StageOf(sl'))
  {
    var sl' := sl.(inbox := sl.inbox + [Invalidate]);
    assert sl'.inbox[|sl.inbox|] == Invalidate;
  }

  /** What the turn that recalls the readers does. */
  lemma RecallTurn(s: System, i: int)
    requires Inv(s) && Enabled(s, MasterTurn) && i in s.slaves
    requires CanWrite(s.home.requests[0].rights) && |s.home.readers| > 0
    ensures After(s, MasterTurn).home == s.home.(invalidateSent := true) && !s.home.invalidateSent
    ensures After(s, MasterTurn).granted == s.granted
    ensures var sl := s.slaves[i];
            After(s, MasterTurn).slaves[i] == sl.(inbox := sl.inbox + if i in s.home.readers then [Invalidate] else [])
  {
    BroadcastGrantsNothing(s.home.readers);
    BroadcastTo(s.home.readers, i);
  }

  /** The invalidations reach every reader once and nobody else. */
  lemma InvalidateReaches(s: System, i: int)
    requires Inv(s) && Enabled(s, MasterTurn) && i in s.slaves
    requires CanWrite(s.home.requests[0].rights) && |s.home.readers| > 0
    ensures After(s, MasterTurn).home == s.home.(invalidateSent := true) && !s.home.invalidateSent
    ensures After(s, MasterTurn).granted == s.granted
    ensures var sl := s.slaves[i];
            var sl' := After(s, MasterTurn).slaves[i];
            && SlaveOk(sl', s.home.data, s.lastWrite)
            && (IsReader(StageOf(sl)) ==> IsReader(StageOf(sl')) && Recalled(StageOf(sl')))
            && (!IsReader(StageOf(sl)) ==> sl' == sl)
            && sl'.app == sl.app && sl'.outbox == sl.outbox
  {
    RecallTurn(s, i);
    var sl := s.slaves[i];
    assert SlaveOk(sl, s.home.data, s.lastWrite);
    assert i in s.home.readers <==> IsReader(StageOf(sl));
    if IsReader(StageOf(sl)) {
      RecallSlave(sl, s.home.data, s.lastWrite);
    } else {
      assert sl.inbox + [] == sl.inbox;
    }
  }

  lemma InvalidateQueued(s: System, k: nat)
    requires Inv(s) && Enabled(s, MasterTurn) && k < |s.home.requests|
    requires CanWrite(s.home.requests[0].rights) && |s.home.readers| > 0
    ensures QueuedOk(After(s, MasterTurn), s.home.requests[k])
  {
    assert QueuedOk(s, s.home.requests[k]);
    InvalidateReaches(s, s.home.requests[k].sockfd);
    assert !IsReader(StageOf(s.slaves[s.home.requests[k].sockfd]));
  }

  /** Every reader has been recalled, nothing else has changed. */
  lemma RecallAll(s: System, s': System)
    requires Inv(s) && !s.home.invalidateSent && DrainTurn(s.home).Go? && s.draining
    requires CanWrite(s.home.requests[0].rights)
    requires s' == s.(home := s.home.(invalidateSent := true), slaves := s'.slaves) && s'.slaves.Keys == s.slaves.Keys
    requires forall i :: i in s.slaves ==>
               && SlaveOk(s'.slaves[i], s.home.data, s.lastWrite)
               && (IsReader(StageOf(s.slaves[i])) ==> Recalled(StageOf(s'.slaves[i])))
               && (!IsReader(StageOf(s.slaves[i])) ==> s'.slaves[i] == s.slaves[i])
    requires RequestsOk(s')
    ensures Inv(s')
  {
    assert TokenOk(s');
  }

  /** The turn that sends the invalidations. */
  lemma KeepInvalidateTurn(s: System)
    requires Inv(s) && Enabled(s, MasterTurn)
    requires CanWrite(s.home.requests[0].rights) && |s.home.readers| > 0
    ensures Inv(After(s, MasterTurn))
  {
    var s' := After(s, MasterTurn);
    InvalidateReaches(s, s.home.readers[0]);
    forall i | i in s.slaves
      ensures SlaveOk(s'.slaves[i], s.home.data, s.lastWrite)
      ensures IsReader(StageOf(s.slaves[i])) ==> Recalled(StageOf(s'.slaves[i]))
      ensures !IsReader(StageOf(s.slaves[i])) ==> s'.slaves[i] == s.slaves[i]
    {
      InvalidateReaches(s, i);
    }
    forall k | 0 <= k < |s.home.requests|
      ensures QueuedOk(s', s.home.requests[k])
    {
      InvalidateQueued(s, k);
    }
    RecallAll(s, s');
  }

  /** The slave at the head of the queue, when it can be granted, has no copy and nothing under way. */
  lemma HeadIsOut(s: System)
    requires Inv(s) && Enabled(s, MasterTurn)
    requires s.home.requests[0].rights == PROT_READ || |s.home.readers| == 0
    ensures var req := s.home.requests[0];
            && req.sockfd in s.slaves
            && StageOf(s.slaves[req.sockfd]) == Out
            && s.slaves[req.sockfd].outbox == [] && s.slaves[req.sockfd].inbox == []
            && s.slaves[req.sockfd].app == Waiting(req.rights)
            && req.sockfd !in s.home.readers
  {
    var i := s.home.requests[0].sockfd;
    assert QueuedOk(s, s.home.requests[0]);
    assert !IsReader(StageOf(s.slaves[i]));
    assert SlaveOk(s.slaves[i], s.home.data, s.lastWrite);
  }

  /** What a turn that grants the head of the queue does to the slaves. */
  lemma GrantReaches(s: System)
    requires s.draining && DrainTurn(s.home).Go?
    requires s.home.requests[0].rights == PROT_READ || |s.home.readers| == 0
    requires s.home.requests[0].sockfd in s.slaves && s.slaves[s.home.requests[0].sockfd].inbox == []
    ensures var req := s.home.requests[0];
            var s' := After(s, MasterTurn);
            && s'.granted == s.granted + [req]
            && (forall i :: i in s.slaves && i != req.sockfd ==> s'.slaves[i] == s.slaves[i])
            && s'.slaves[req.sockfd] == s.slaves[req.sockfd].(inbox := [GivePage(req.rights, s.home.data)])
  {
    var req := s.home.requests[0];
    var m := GivePage(req.rights, s.home.data);
    assert DrainTurn(s.home).posts == [Post(req.sockfd, m)];
    forall i | i in s.slaves
      ensures MsgsFor([Post(req.sockfd, m)], i) == if i == req.sockfd then [m] else []
    {
      GrantTo(req.sockfd, m, i);
    }
    GrantTo(req.sockfd, m, req.sockfd);
  }

  /** A request behind the granted one stays as it was. */
  lemma RestQueuedAt(s: System, k: nat)
    requires Inv(s) && Enabled(s, MasterTurn) && 0 < k < |s.home.requests|
    requires s.home.requests[0].rights == PROT_READ || |s.home.readers| == 0
    ensures QueuedOk(After(s, MasterTurn), s.home.requests[k])
  {
    HeadIsOut(s);
    GrantReaches(s);
    assert QueuedOk(s, s.home.requests[k]);
    assert s.home.requests[0].sockfd != s.home.requests[k].sockfd;
  }

  /** The grant moves the head of the queue to the end of the granted list. */
  lemma GrantRecorded(s: System)
    requires s.draining && DrainTurn(s.home).Go? && s.received == s.granted + s.home.requests
    requires s.home.requests[0].rights == PROT_READ || |s.home.readers| == 0
    ensures After(s, MasterTurn).received == After(s, MasterTurn).granted + After(s, MasterTurn).home.requests
  {
    var req := s.home.requests[0];
    var m := GivePage(req.rights, s.home.data);
    GrantTo(req.sockfd, m, req.sockfd);
    assert s.home.requests == [req] + s.home.requests[1..];
  }

  lemma RestQueued(s: System)
    requires Inv(s) && Enabled(s, MasterTurn)
    requires s.home.requests[0].rights == PROT_READ || |s.home.readers| == 0
    ensures RequestsOk(After(s, MasterTurn))
  {
    var s' := After(s, MasterTurn);
    forall k | 0 <= k < |s'.home.requests|
      ensures QueuedOk(s', s'.home.requests[k])
    {
      assert s'.home.requests[k] == s.home.requests[k + 1];
      RestQueuedAt(s, k + 1);
    }
  }

  lemma ReadTurnSlaves(s: System)
    requires Inv(s) && Enabled(s, MasterTurn) && s.home.requests[0].rights == PROT_READ
    ensures SlavesOk(After(s, MasterTurn))
    ensures StageOf(After(s, MasterTurn).slaves[s.home.requests[0].sockfd]) == ReadComing
    ensures forall j :: j in s.slaves && j != s.home.requests[0].sockfd ==>
              StageOf(After(s, MasterTurn).slaves[j]) == StageOf(s.slaves[j])
  {
    HeadIsOut(s);
    GrantReaches(s);
    var s' := After(s, MasterTurn);
    var i := s.home.requests[0].sockfd;
    forall j | j in s'.slaves
      ensures SlaveOk(s'.slaves[j], s'.home.data, s'.lastWrite)
    {
      if j != i { assert SlaveOk(s.slaves[j], s.home.data, s.lastWrite); }
    }
  }

  lemma ReadTurnReaders(s: System)
    requires Inv(s) && Enabled(s, MasterTurn) && s.home.requests[0].rights == PROT_READ
    ensures ReadersOk(After(s, MasterTurn))
  {
    HeadIsOut(s);
    ReadTurnSlaves(s);
  }

  lemma ReadTurnToken(s: System)
    requires Inv(s) && Enabled(s, MasterTurn) && s.home.requests[0].rights == PROT_READ
    ensures TokenOk(After(s, MasterTurn))
  {
    HeadIsOut(s);
    ReadTurnSlaves(s);
  }

  lemma KeepReadTurn(s: System)
    requires Inv(s) && Enabled(s, MasterTurn)
    requires s.home.requests[0].rights == PROT_READ
    ensures Inv(After(s, MasterTurn))
  {
    ReadTurnSlaves(s);
    ReadTurnReaders(s);
    ReadTurnToken(s);
    RestQueued(s);
    GrantRecorded(s);
  }

  lemma KeepWriteTurn(s: System)
    requires Inv(s) && Enabled(s, MasterTurn)
    requires CanWrite(s.home.requests[0].rights) && |s.home.readers| == 0
    ensures Inv(After(s, MasterTurn))
  {
    HeadIsOut(s);
    GrantReaches(s);
    RestQueued(s);
    GrantRecorded(s);
    var s' := After(s, MasterTurn);
    var i := s.home.requests[0].sockfd;
    assert QueuedOk(s, s.home.requests[0]);
    assert StageOf(s'.slaves[i]) == WriteComing;
    assert SlavesOk(s') by {
      forall j | j in s'.slaves ensures SlaveOk(s'.slaves[j], s'.home.data, s'.lastWrite) {
        if j != i { assert SlaveOk(s.slaves[j], s.home.data, s.lastWrite); }
      }
    }
    assert ReadersOk(s') && TokenOk(s');
  }

  lemma KeepMasterTurn(s: System)
    requires Inv(s) && Enabled(s, MasterTurn)
    ensures Inv(After(s, MasterTurn))
  {
    assert QueuedOk(s, s.home.requests[0]);
    if s.home.requests[0].rights == PROT_READ {
      KeepReadTurn(s);
    } else if |s.home.readers| == 0 {
      KeepWriteTurn(s);
    } else {
      KeepInvalidateTurn(s);
    }
  }

  // ---------------------------------------------------------------- runs

  lemma InitialInv(master: int, zero: bytes)
    ensures Inv(InitialSystem(master, zero))
  {
  }

  lemma StepKeepsInv(s: System, l: Label)
    requires Inv(s) && Enabled(s, l)
    ensures Inv(After(s, l))
  {
    match l
    case Connect(i, zero) => KeepConnect(s, i, zero);
    case LockAgain(i) => KeepLockAgain(s, i);
    case LockAsk(i, rights) => KeepLockAsk(s, i, rights);
    case Wake(i) => KeepWake(s, i);
    case Store(i, data) => KeepStore(s, i, data);
    case Unlock(i) => KeepUnlock(s, i);
    case Quit(i) => KeepQuit(s, i);
    case TakeInvalidate(i) => KeepTakeInvalidate(s, i);
    case SendAck(i) => KeepSendAck(s, i);
    case TakePage(i) => KeepTakePage(s, i);
    case MasterTakeLock(i) => KeepMasterTakeLock(s, i);
    case MasterTakeAck(i) => KeepMasterTakeAck(s, i);
    case MasterTakePage(i) => KeepMasterTakePage(s, i);
    case MasterTurn => KeepMasterTurn(s);
    case MasterDone =>
  }

  lemma {:induction false} RunKeepsInv(s: System, run: seq<Label>)
    requires Inv(s) && CanRun(s, run)
    ensures Inv(Run(s, run))
    decreases |run|
  {
    if run != [] {
      StepKeepsInv(s, run[0]);
      RunKeepsInv(After(s, run[0]), run[1..]);
    }
  }
}
