/** What holds in every state the page protocol can reach. */
module PageTheorems {
  import opened Bytes
  import opened PageProtocol
  import opened PageInvariant

  /** s is where some run from the initial state ends. */
  ghost predicate Reachable(s: System) {
    exists master: int, zero: bytes, run: seq<Label> :: ReachedBy(s, master, zero, run)
  }

  ghost predicate ReachedBy(s: System, master: int, zero: bytes, run: seq<Label>) {
    CanRun(InitialSystem(master, zero), run) && s == Run(InitialSystem(master, zero), run)
  }

  lemma ReachableInv(s: System)
    requires Reachable(s)
    ensures Inv(s)
  {
    var master, zero, run :| ReachedBy(s, master, zero, run);
    InitialInv(master, zero);
    RunKeepsInv(InitialSystem(master, zero), run);
  }

  lemma {:induction false} RunThenStep(s: System, run: seq<Label>, l: Label)
    requires CanRun(s, run) && Enabled(Run(s, run), l)
    ensures CanRun(s, run + [l]) && Run(s, run + [l]) == After(Run(s, run), l)
    decreases |run|
  {
    if run == [] {
      assert run + [l] == [l];
      assert [l][1..] == [];
    } else {
      assert (run + [l])[1..] == run[1..] + [l];
      RunThenStep(After(s, run[0]), run[1..], l);
    }
  }

  lemma ReachableStep(s: System, l: Label)
    requires Reachable(s) && Enabled(s, l)
    ensures Reachable(After(s, l))
  {
    var master, zero, run :| ReachedBy(s, master, zero, run);
    RunThenStep(InitialSystem(master, zero), run, l);
    assert ReachedBy(After(s, l), master, zero, run + [l]);
  }

  predicate CarriesPage(msgs: seq<PageMsg>) {
    exists k :: 0 <= k < |msgs| && msgs[k].GivePage?
  }

  /** While a slave may write, nobody else has a copy or is about to get one, the master included. */
  lemma SingleWriter(s: System, i: int)
    requires Reachable(s) && i in s.slaves && CanWrite(s.slaves[i].protection)
    ensures !s.home.uptodate && s.home.writeOwner == i
    ensures !CarriesPage(s.slaves[i].inbox) && !CarriesPage(s.slaves[i].outbox)
    ensures forall j :: j in s.slaves && j != i ==>
              && !s.slaves[j].uptodate && s.slaves[j].protection == PROT_NONE
              && !CarriesPage(s.slaves[j].inbox) && !CarriesPage(s.slaves[j].outbox)
  {
    ReachableInv(s);
    assert SlaveOk(s.slaves[i], s.home.data, s.lastWrite);
    forall j | j in s.slaves && j != i
      ensures && !s.slaves[j].uptodate && s.slaves[j].protection == PROT_NONE
              && !CarriesPage(s.slaves[j].inbox) && !CarriesPage(s.slaves[j].outbox)
    {
      assert SlaveOk(s.slaves[j], s.home.data, s.lastWrite);
      assert StageOf(s.slaves[j]) == Out;
    }
  }

  /** A read copy, held or on its way, is the master's copy and the last returned write; a write grant
      carries exactly the last returned write; so does a page on its way home. */
  lemma Coherence(s: System, i: int)
    requires Reachable(s) && i in s.slaves
    ensures s.slaves[i].uptodate && !CanWrite(s.slaves[i].protection) ==>
              s.home.uptodate && s.slaves[i].data == s.home.data == s.lastWrite
    ensures forall k :: 0 <= k < |s.slaves[i].inbox| && s.slaves[i].inbox[k].GivePage? ==>
              && s.slaves[i].inbox[k].data == s.home.data == s.lastWrite
              && (s.home.uptodate <==> s.slaves[i].inbox[k].rights == PROT_READ)
    ensures forall k :: 0 <= k < |s.slaves[i].outbox| && s.slaves[i].outbox[k].GivePage? ==>
              s.slaves[i].outbox[k].data == s.lastWrite
    ensures s.home.uptodate ==> s.home.data == s.lastWrite
  {
    ReachableInv(s);
    assert SlaveOk(s.slaves[i], s.home.data, s.lastWrite);
  }

  /** Invalidations of this slave under way: asked for, being carried out, or acknowledged. */
  function Outstanding(sl: Slave): nat {
    multiset(sl.inbox)[Invalidate] + (if sl.acking then 1 else 0) + multiset(sl.outbox)[InvalidateAck]
  }

  /** invalidate_sent means: a writer is next and every reader, each listed once, has one invalidation
      under way; otherwise none is. */
  lemma InvalidationAccounting(s: System)
    requires Reachable(s)
    ensures Distinct(s.home.readers) && forall i :: i in s.home.readers ==> i in s.slaves
    ensures s.home.invalidateSent ==> s.home.requests != [] && CanWrite(s.home.requests[0].rights)
    ensures forall i :: i in s.slaves ==>
              Outstanding(s.slaves[i]) == if s.home.invalidateSent && i in s.home.readers then 1 else 0
  {
    ReachableInv(s);
    forall i | i in s.slaves
      ensures Outstanding(s.slaves[i]) == if Recalled(StageOf(s.slaves[i])) then 1 else 0
    {
      OutstandingByStage(s.slaves[i], s.home.data, s.lastWrite);
    }
  }

  lemma CountIn(msgs: seq<PageMsg>, m: PageMsg)
    ensures m !in msgs ==> multiset(msgs)[m] == 0
    ensures |msgs| > 0 && msgs[0] == m && m !in msgs[1..] ==> multiset(msgs)[m] == 1
    ensures |msgs| == 2 && msgs[1] == m && m !in msgs[..1] ==> multiset(msgs)[m] == 1
  {
    if |msgs| > 0 { assert msgs == [msgs[0]] + msgs[1..]; }
    if |msgs| == 2 { assert msgs == msgs[..1] + [msgs[1]]; }
  }

  lemma OutboxByStage(sl: Slave, d: bytes, w: bytes)
    requires SlaveOk(sl, d, w)
    ensures multiset(sl.outbox)[InvalidateAck] == if StageOf(sl) == Acked then 1 else 0
  {
    CountIn(sl.outbox, InvalidateAck);
    if sl.outbox != [] { assert sl.outbox == [sl.outbox[0]] + sl.outbox[1..]; }
  }

  lemma InboxByStage(sl: Slave, d: bytes, w: bytes)
    requires SlaveOk(sl, d, w)
    ensures multiset(sl.inbox)[Invalidate] == if StageOf(sl) == DoomedComing || StageOf(sl) == Doomed then 1 else 0
  {
    CountIn(sl.inbox, Invalidate);
  }

  lemma OutstandingByStage(sl: Slave, d: bytes, w: bytes)
    requires SlaveOk(sl, d, w)
    ensures Outstanding(sl) == if Recalled(StageOf(sl)) then 1 else 0
  {
    OutboxByStage(sl, d, w);
    InboxByStage(sl, d, w);
  }

  /** An acknowledgement in flight comes from a listed reader while a recall is under way. */
  lemma AckMeansRecall(s: System, i: int)
    requires Reachable(s) && i in s.slaves && InvalidateAck in s.slaves[i].outbox
    ensures s.home.invalidateSent && i in s.home.readers
  {
    ReachableInv(s);
    assert SlaveOk(s.slaves[i], s.home.data, s.lastWrite);
  }

  /** A slave sends the master requests, acknowledgements and pages, and nothing else. */
  lemma FrontOfOutbox(s: System, i: int)
    requires Reachable(s) && i in s.slaves && s.slaves[i].outbox != []
    ensures !s.slaves[i].outbox[0].Invalidate?
  {
    ReachableInv(s);
    assert SlaveOk(s.slaves[i], s.home.data, s.lastWrite);
  }

  /** First come, first served. */
  lemma GrantsInOrder(s: System)
    requires Reachable(s)
    ensures s.received == s.granted + s.home.requests
  {
    ReachableInv(s);
  }

  /** Where the right to write is. */
  datatype Place = AtHome | ToSlave(i: int) | AtSlave(i: int) | ToHome(i: int)

  ghost predicate TokenAt(s: System, p: Place) {
    match p
    case AtHome => s.home.uptodate
    case ToSlave(i) =>
      && i in s.slaves
      && exists k :: 0 <= k < |s.slaves[i].inbox| && s.slaves[i].inbox[k].GivePage? && CanWrite(s.slaves[i].inbox[k].rights)
    case AtSlave(i) => i in s.slaves && CanWrite(s.slaves[i].protection)
    case ToHome(i) => i in s.slaves && CarriesPage(s.slaves[i].outbox)
  }

  function Party(s: System, p: Place): int {
    match p
    case AtHome => s.master
    case ToSlave(i) => i
    case AtSlave(i) => i
    case ToHome(i) => i
  }

  /** The place of the token, found through write_owner. */
  ghost function PlaceOf(s: System): Place
    requires s.home.uptodate || s.home.writeOwner in s.slaves
  {
    if s.home.uptodate then AtHome
    else
      var i := s.home.writeOwner;
      match StageOf(s.slaves[i])
      case WriteComing => ToSlave(i)
      case Writing => AtSlave(i)
      case _ => ToHome(i)
  }

  lemma TokenBySlave(sl: Slave, d: bytes, w: bytes)
    requires SlaveOk(sl, d, w)
    ensures StageOf(sl) == WriteComing <==> exists k :: 0 <= k < |sl.inbox| && sl.inbox[k].GivePage? && CanWrite(sl.inbox[k].rights)
    ensures StageOf(sl) == Writing <==> CanWrite(sl.protection)
    ensures StageOf(sl) == Returning <==> CarriesPage(sl.outbox)
  {
  }

  /** The right to write is in exactly one place, and write_owner names who has it there. */
  lemma TokenConservation(s: System, q: Place)
    requires Reachable(s)
    ensures s.home.uptodate || s.home.writeOwner in s.slaves
    ensures TokenAt(s, q) <==> q == PlaceOf(s)
    ensures s.home.writeOwner == Party(s, PlaceOf(s))
  {
    ReachableInv(s);
    if !q.AtHome? && q.i in s.slaves {
      assert SlaveOk(s.slaves[q.i], s.home.data, s.lastWrite);
      TokenBySlave(s.slaves[q.i], s.home.data, s.lastWrite);
      assert HasToken(StageOf(s.slaves[q.i])) <==> !s.home.uptodate && q.i == s.home.writeOwner;
    }
  }

  /** Between two messages of the master, a request waits only for a page that is away with write_owner,
      or for readers each of whom has an invalidation under way; and no request has bad rights. */
  lemma NoRequestStuck(s: System)
    requires Reachable(s) && s.home.requests != []
    ensures !DrainTurn(s.home).BadRights?
    ensures !s.draining ==>
              || (!s.home.uptodate && s.home.writeOwner in s.slaves && HasToken(StageOf(s.slaves[s.home.writeOwner])))
              || (&& CanWrite(s.home.requests[0].rights) && s.home.readers != []
                  && forall i :: i in s.home.readers ==> i in s.slaves && Outstanding(s.slaves[i]) == 1)
  {
    ReachableInv(s);
    assert QueuedOk(s, s.home.requests[0]);
    InvalidationAccounting(s);
  }

  // ---------------------------------------------------------------- a handler is its turns

  lemma {:induction false} MsgsForConcat(a: seq<Post>, b: seq<Post>, i: int)
    ensures MsgsFor(a + b, i) == MsgsFor(a, i) + MsgsFor(b, i)
  {
    if a == [] {
      assert a + b == b;
    } else {
      assert (a + b)[1..] == a[1..] + b && (a + b)[0] == a[0];
      MsgsForConcat(a[1..], b, i);
      var first := if a[0].to == i then [a[0].msg] else [];
      assert first + (MsgsFor(a[1..], i) + MsgsFor(b, i)) == first + MsgsFor(a[1..], i) + MsgsFor(b, i);
    }
  }

  lemma {:induction false} GrantsConcat(a: seq<Post>, b: seq<Post>)
    ensures Grants(a + b) == Grants(a) + Grants(b)
  {
    if a == [] {
      assert a + b == b;
    } else {
      assert (a + b)[1..] == a[1..] + b && (a + b)[0] == a[0];
      GrantsConcat(a[1..], b);
      var first := if a[0].msg.GivePage? then [Request(a[0].to, a[0].msg.rights)] else [];
      assert first + (Grants(a[1..]) + Grants(b)) == first + Grants(a[1..]) + Grants(b);
    }
  }

  lemma DeliverConcat(slaves: map<int, Slave>, a: seq<Post>, b: seq<Post>)
    ensures Deliver(Deliver(slaves, a), b) == Deliver(slaves, a + b)
  {
    forall i | i in slaves
      ensures Deliver(Deliver(slaves, a), b)[i] == Deliver(slaves, a + b)[i]
    {
      MsgsForConcat(a, b, i);
      assert slaves[i].inbox + MsgsFor(a, i) + MsgsFor(b, i) == slaves[i].inbox + (MsgsFor(a, i) + MsgsFor(b, i));
    }
  }

  lemma DeliverNothing(slaves: map<int, Slave>)
    ensures Deliver(slaves, []) == slaves
  {
    forall i | i in slaves
      ensures Deliver(slaves, [])[i] == slaves[i]
    {
      assert slaves[i].inbox + [] == slaves[i].inbox;
    }
  }

  function Turns(h: Home): seq<Label>
    decreases DrainMeasure(h)
  {
    match DrainTurn(h)
    case Go(h', _) => assert DrainMeasure(h') < DrainMeasure(h); [MasterTurn] + Turns(h')
    case _ => [MasterDone]
  }

  /** Left alone, the master's draining loop always ends, having done what Drain says. */
  lemma {:induction false} TurnsDrain(s: System)
    requires s.draining && Drain(s.home).ok
    ensures CanRun(s, Turns(s.home))
    ensures var d := Drain(s.home);
            Run(s, Turns(s.home)) == s.(home := d.home, slaves := Deliver(s.slaves, d.posts),
                                        granted := s.granted + Grants(d.posts), draining := false)
    decreases DrainMeasure(s.home)
  {
    match DrainTurn(s.home)
    case Stop =>
      DeliverNothing(s.slaves);
      assert Turns(s.home)[1..] == [];
      assert s.granted + Grants([]) == s.granted;
    case Go(h', posts) =>
      var s' := After(s, MasterTurn);
      TurnsDrain(s');
      assert Turns(s.home)[1..] == Turns(h');
      DeliverConcat(s.slaves, posts, Drain(h').posts);
      GrantsConcat(posts, Drain(h').posts);
      assert s.granted + Grants(posts) + Grants(Drain(h').posts) == s.granted + Grants(Drain(s.home).posts);
    case BadRights =>
  }

  /** Where the draining loop leaves the page: nothing more can be granted, and whatever is still queued
      has a cause. */
  lemma {:induction false} DrainedMaximal(h: Home)
    requires Drain(h).ok
    ensures var h' := Drain(h).home;
            || !h'.uptodate || h'.requests == []
            || (CanWrite(h'.requests[0].rights) && h'.readers != [] && h'.invalidateSent)
    decreases DrainMeasure(h)
  {
    match DrainTurn(h)
    case Go(h', _) => DrainedMaximal(h');
    case _ =>
  }

  /** In a reachable state draining never meets bad rights. */
  lemma {:induction false} DrainOk(s: System)
    requires Reachable(s) && s.draining
    ensures Drain(s.home).ok
    decreases DrainMeasure(s.home)
  {
    match DrainTurn(s.home)
    case Stop =>
    case BadRights => NoRequestStuck(s);
    case Go(_, _) =>
      ReachableStep(s, MasterTurn);
      DrainOk(After(s, MasterTurn));
  }

  lemma {:induction false} ReachableRun(s: System, run: seq<Label>)
    requires Reachable(s) && CanRun(s, run)
    ensures Reachable(Run(s, run))
    decreases |run|
  {
    if run != [] {
      ReachableStep(s, run[0]);
      ReachableRun(After(s, run[0]), run[1..]);
    }
  }

  /** The state in which the master has drained the page it is at. */
  function AfterDraining(s: System): System {
    var d := Drain(s.home);
    s.(home := d.home, slaves := Deliver(s.slaves, d.posts), granted := s.granted + Grants(d.posts), draining := false)
  }

  /** In every reachable state in which the master drains, its turns alone end the draining, without bad
      rights, in a reachable state in which no further turn is possible. */
  lemma DrainingEnds(s: System)
    requires Reachable(s) && s.draining
    ensures Drain(s.home).ok && CanRun(s, Turns(s.home)) && Run(s, Turns(s.home)) == AfterDraining(s)
    ensures Reachable(AfterDraining(s))
    ensures var h := AfterDraining(s).home;
            !h.uptodate || h.requests == [] || (CanWrite(h.requests[0].rights) && h.readers != [] && h.invalidateSent)
  {
    DrainOk(s);
    TurnsDrain(s);
    ReachableRun(s, Turns(s.home));
    DrainedMaximal(s.home);
  }

  /** What then still waits has a cause outside the master: a writer that has or is to have the page, or
      readers each of whom has an invalidation under way. */
  lemma DrainedHasCause(s: System)
    requires Reachable(s) && s.draining && AfterDraining(s).home.requests != []
    ensures var s' := AfterDraining(s);
            || (!s'.home.uptodate && s'.home.writeOwner in s'.slaves && HasToken(StageOf(s'.slaves[s'.home.writeOwner])))
            || (&& CanWrite(s'.home.requests[0].rights) && s'.home.readers != []
                && forall i :: i in s'.home.readers ==> i in s'.slaves && Outstanding(s'.slaves[i]) == 1)
  {
    DrainingEnds(s);
    NoRequestStuck(AfterDraining(s));
  }
}
