/** A slave's handlers and client calls in the states the whole memory reaches: each does to the page table what
    the steps of the protocol do to the slave's part of the state, and sends what they add to its connection. */
module SlaveDaemon {
  import opened Bytes
  import opened PageProtocol
  import opened Cluster
  import opened ClusterProgress
  import opened SlaveMemory

  /** The page table is that of slave i. */
  ghost predicate Stands(m: SlaveMemory, c: Cluster, i: int)
    reads m.pages
  {
    ClusterReachable(c) && Shaped(c) && i in c.nodes && m.pages[..] == c.nodes[i].pages
  }

  /** What one step of slave i on page p does to its process. */
  lemma OwnNode(c: Cluster, p: nat, l: Label, i: int)
    requires Shaped(c) && MayStep(c, OnPage(p, l)) && i in c.nodes
    ensures i in StepTo(c, OnPage(p, l)).nodes
    ensures StepTo(c, OnPage(p, l)).nodes[i] ==
            NodeAfter(c.nodes[i], p, SlaveOn(c.nodes[i], p), After(PageOf(c, p), l).slaves[i])
  {
  }

  /** The shared connection grows by what the page's part of it grows by. */
  lemma CarryGrows(shared: seq<Packet>, p: nat, before: seq<PageMsg>, more: seq<PageMsg>)
    ensures Carry(shared, p, before, before + more) == shared + Tag(p, more)
  {
    assert (before + more)[|before|..] == more;
  }

  /** A step of another process, or a step that only delivers messages, leaves the page table of slave i. */
  lemma OthersKeepTable(c: Cluster, p: nat, l: Label, i: int)
    requires Shaped(c) && MayStep(c, OnPage(p, l)) && i in c.nodes
    requires (l.MasterTurn? || l.MasterDone? || l.MasterTakeLock? || l.MasterTakeAck? || l.MasterTakePage?) || l.i != i
    ensures StepTo(c, OnPage(p, l)).nodes[i].pages == c.nodes[i].pages
  {
    OwnNode(c, p, l, i);
    OthersKeepCopy(PageOf(c, p), l, i);
  }

  lemma OthersKeepCopy(s: System, l: Label, i: int)
    requires Enabled(s, l) && i in s.slaves
    requires (l.MasterTurn? || l.MasterDone? || l.MasterTakeLock? || l.MasterTakeAck? || l.MasterTakePage?) || l.i != i
    ensures var sl, sl' := s.slaves[i], After(s, l).slaves[i];
            sl'.app == sl.app && sl'.uptodate == sl.uptodate && sl'.protection == sl.protection && sl'.data == sl.data
  {
  }

  /** So does a process that joins. */
  lemma JoinKeepsTable(c: Cluster, j: int, zero: bytes, i: int)
    requires Shaped(c) && MayStep(c, Join(j, zero)) && i in c.nodes
    ensures StepTo(c, Join(j, zero)).nodes[i] == c.nodes[i]
  {
  }

  /** A step that takes a page's front message takes the front packet. */
  lemma FrontTaken(c: Cluster, p: nat, l: Label, i: int)
    requires Shaped(c) && MayStep(c, OnPage(p, l)) && i in c.nodes && (l == Label.TakePage(i) || l == Label.TakeInvalidate(i))
    ensures StepTo(c, OnPage(p, l)).nodes[i].inbox == c.nodes[i].inbox[1..]
    ensures l.TakePage? ==> StepTo(c, OnPage(p, l)).nodes[i].acking.None?
  {
    OwnNode(c, p, l, i);
  }

  /** An acknowledgement leaves the packets that have come. */
  lemma InboxKept(c: Cluster, p: nat, i: int)
    requires Shaped(c) && MayStep(c, OnPage(p, SendAck(i))) && i in c.nodes
    ensures StepTo(c, OnPage(p, SendAck(i))).nodes[i].inbox == c.nodes[i].inbox
    ensures StepTo(c, OnPage(p, SendAck(i))).nodes[i].acking.None?
  {
    OwnNode(c, p, SendAck(i), i);
    var inbox := SlaveOn(c.nodes[i], p).inbox;
    assert inbox + [] == inbox;
    CarryGrows(c.nodes[i].inbox, p, inbox, []);
  }

  /** A new process starts with the page table of a slave that joins. */
  method Start(i: int, zero: bytes, pageCount: nat, ghost c: Cluster) returns (m: SlaveMemory)
    requires ClusterReachable(c) && Shaped(c) && MayStep(c, Join(i, zero)) && pageCount == |c.homes|
    ensures fresh(m) && m.sent == [] && Stands(m, StepTo(c, Join(i, zero)), i)
  {
    ClusterStep(c, Join(i, zero));
    m := new SlaveMemory(pageCount, zero);
  }

  /** An INVALIDATE for page p stands at the front: it is carried out, then acknowledged. */
  method TakeInvalidate(m: SlaveMemory, i: int, p: nat, ghost c: Cluster) returns (ghost c': Cluster)
    requires Stands(m, c, i) && MayStep(c, OnPage(p, Label.TakeInvalidate(i)))
    modifies m, m.pages
    ensures MayStep(StepTo(c, OnPage(p, Label.TakeInvalidate(i))), OnPage(p, SendAck(i)))
    ensures c' == StepTo(StepTo(c, OnPage(p, Label.TakeInvalidate(i))), OnPage(p, SendAck(i))) && Stands(m, c', i)
    ensures m.sent == old(m.sent) + [Packet(p, InvalidateAck)]
    ensures c'.nodes[i].outbox == c.nodes[i].outbox + [Packet(p, InvalidateAck)]
    ensures c'.nodes[i].inbox == c.nodes[i].inbox[1..] && c'.nodes[i].acking.None?
    ensures m.pages[..] == old(m.pages[..])[p := old(m.pages[p]).(uptodate := false, protection := 0)]
  {
    ghost var c1 := StepTo(c, OnPage(p, Label.TakeInvalidate(i)));
    ClearedTable(c, p, i);
    ClusterStep(c, OnPage(p, Label.TakeInvalidate(i)));
    AckedTable(c1, p, i);
    ClusterStep(c1, OnPage(p, SendAck(i)));
    c' := StepTo(c1, OnPage(p, SendAck(i)));
    FrontTaken(c, p, Label.TakeInvalidate(i), i);
    InboxKept(c1, p, i);
    m.HandleInvalidate(p);
    AckTag(p);
  }

  lemma AckTag(p: nat)
    ensures Tag(p, [InvalidateAck]) == [Packet(p, InvalidateAck)]
    ensures forall copy: Copy :: AfterSendAck(AfterTakeInvalidate(AsSlave(copy, false, [Invalidate], []))).outbox == [InvalidateAck]
  {
    assert [InvalidateAck][1..] == [] && [] + [InvalidateAck] == [InvalidateAck];
  }

  lemma ClearedTable(c: Cluster, p: nat, i: int)
    requires Shaped(c) && MayStep(c, OnPage(p, Label.TakeInvalidate(i)))
    ensures var c1 := StepTo(c, OnPage(p, Label.TakeInvalidate(i)));
            && c1.nodes[i].pages == c.nodes[i].pages[p := c.nodes[i].pages[p].(uptodate := false, protection := PROT_NONE)]
            && c1.nodes[i].outbox == c.nodes[i].outbox && c1.nodes[i].acking == Some(p) && c1.nodes.Keys == c.nodes.Keys
  {
    OwnNode(c, p, Label.TakeInvalidate(i), i);
    var outbox := SlaveOn(c.nodes[i], p).outbox;
    assert outbox + [] == outbox;
    CarryGrows(c.nodes[i].outbox, p, outbox, []);
  }

  lemma AckedTable(c: Cluster, p: nat, i: int)
    requires Shaped(c) && p < |c.homes| && i in c.nodes && c.nodes[i].acking == Some(p)
    ensures MayStep(c, OnPage(p, SendAck(i)))
    ensures var c1 := StepTo(c, OnPage(p, SendAck(i)));
            && c1.nodes[i].pages == c.nodes[i].pages
            && c1.nodes[i].outbox == c.nodes[i].outbox + [Packet(p, InvalidateAck)]
  {
    OwnNode(c, p, SendAck(i), i);
    AckTag(p);
    CarryGrows(c.nodes[i].outbox, p, SlaveOn(c.nodes[i], p).outbox, [InvalidateAck]);
  }

  /** The page table after a step that sends the given messages. */
  lemma SteppedTable(c: Cluster, p: nat, l: Label, i: int, posts: seq<PageMsg>)
    requires Shaped(c) && MayStep(c, OnPage(p, l)) && i in c.nodes
    requires After(PageOf(c, p), l).slaves[i].outbox == SlaveOn(c.nodes[i], p).outbox + posts
    ensures var c' := StepTo(c, OnPage(p, l));
            var sl' := After(PageOf(c, p), l).slaves[i];
            && c'.nodes[i].pages == c.nodes[i].pages[p := Copy(sl'.app, sl'.uptodate, sl'.protection, sl'.data)]
            && c'.nodes[i].outbox == c.nodes[i].outbox + Tag(p, posts)
  {
    OwnNode(c, p, l, i);
    CarryGrows(c.nodes[i].outbox, p, SlaveOn(c.nodes[i], p).outbox, posts);
  }

  /** A GIVEPAGE for page p stands at the front: the page is installed. */
  method TakePage(m: SlaveMemory, i: int, p: nat, rights: int, data: bytes, ghost c: Cluster)
    requires Stands(m, c, i) && MayStep(c, OnPage(p, Label.TakePage(i)))
    requires SlaveOn(c.nodes[i], p).inbox[0] == GivePage(rights, data)
    modifies m.pages
    ensures Stands(m, StepTo(c, OnPage(p, Label.TakePage(i))), i)
    ensures var n := StepTo(c, OnPage(p, Label.TakePage(i))).nodes[i];
            n.outbox == c.nodes[i].outbox && n.inbox == c.nodes[i].inbox[1..] && n.acking.None?
    ensures m.pages[..] == old(m.pages[..])[p := Copy(old(m.pages[p]).app, true, rights, data)]
  {
    FrontTaken(c, p, Label.TakePage(i), i);
    ghost var outbox := SlaveOn(c.nodes[i], p).outbox;
    assert outbox + [] == outbox;
    SteppedTable(c, p, Label.TakePage(i), i, []);
    ClusterStep(c, OnPage(p, Label.TakePage(i)));
    m.HandleGivePage(p, rights, data);
  }

  /** lock_read and lock_write. */
  method Lock(m: SlaveMemory, i: int, p: nat, rights: int, ghost c: Cluster) returns (mustWait: bool)
    requires Stands(m, c, i) && p < |c.homes| && ThreadRuns(c.nodes[i]) && m.pages[p].app.Idle?
    requires rights == 1 || (rights == 3 && !m.pages[p].uptodate)
    modifies m, m.pages
    ensures MayStep(c, OnPage(p, Locking(c, i, p, rights)))
    ensures Stands(m, StepTo(c, OnPage(p, Locking(c, i, p, rights))), i)
    ensures mustWait <==> Locking(c, i, p, rights).LockAsk?
    ensures m.sent == old(m.sent) + if mustWait then [Packet(p, PageMsg.LockPage(rights))] else []
    ensures StepTo(c, OnPage(p, Locking(c, i, p, rights))).nodes[i].outbox ==
            c.nodes[i].outbox + if mustWait then [Packet(p, PageMsg.LockPage(rights))] else []
  {
    ThreadGoesOn(c, i, p, rights, []);
    ghost var l := Locking(c, i, p, rights);
    ghost var posts := if l.LockAsk? then [PageMsg.LockPage(rights)] else [];
    ghost var outbox := SlaveOn(c.nodes[i], p).outbox;
    assert outbox + [] == outbox;
    SteppedTable(c, p, l, i, posts);
    ClusterStep(c, OnPage(p, l));
    assert [PageMsg.LockPage(rights)][1..] == [];
    mustWait := m.LockPage(p, rights);
  }

  /** The return from its wait, as soon as the page has come. */
  method Wake(m: SlaveMemory, i: int, p: nat, ghost c: Cluster)
    requires Stands(m, c, i) && p < |c.homes| && m.pages[p].app.Waiting? && m.pages[p].uptodate
    modifies m.pages
    ensures MayStep(c, OnPage(p, Label.Wake(i)))
    ensures m.pages[..] == old(m.pages[..])[p := old(m.pages[p]).(app := Holding(old(m.pages[p]).app.rights))]
    ensures Stands(m, StepTo(c, OnPage(p, Label.Wake(i))), i)
    ensures StepTo(c, OnPage(p, Label.Wake(i))).nodes[i].outbox == c.nodes[i].outbox
  {
    WaitMayEnd(c, i, p);
    ghost var outbox := SlaveOn(c.nodes[i], p).outbox;
    assert outbox + [] == outbox;
    SteppedTable(c, p, Label.Wake(i), i, []);
    ClusterStep(c, OnPage(p, Label.Wake(i)));
    m.Wake(p);
  }

  /** What unlocking a copy sends. */
  function Unlocking(copy: Copy): seq<PageMsg>
    requires copy.app.Holding?
  {
    if CanWrite(copy.app.rights) then [GivePage(copy.protection, copy.data)] else []
  }

  lemma UnlockedTable(c: Cluster, i: int, p: nat)
    requires Shaped(c) && i in c.nodes && MayStep(c, OnPage(p, Label.Unlock(i)))
    ensures var copy := c.nodes[i].pages[p];
            var n := StepTo(c, OnPage(p, Label.Unlock(i))).nodes[i];
            && n.pages == c.nodes[i].pages[p := if CanWrite(copy.app.rights) then Copy(Idle, false, PROT_NONE, copy.data)
                                                else copy.(app := Idle)]
            && n.outbox == c.nodes[i].outbox + Tag(p, Unlocking(copy))
  {
    var outbox := SlaveOn(c.nodes[i], p).outbox;
    assert outbox + [] == outbox;
    SteppedTable(c, p, Label.Unlock(i), i, Unlocking(c.nodes[i].pages[p]));
  }

  lemma UnlockTag(copy: Copy, p: nat)
    requires copy.app.Holding?
    ensures Tag(p, Unlocking(copy)) ==
            if CanWrite(copy.app.rights) then [Packet(p, GivePage(copy.protection, copy.data))] else []
    ensures CanWrite(copy.app.rights) ==> AfterUnlock(AsSlave(copy, false, [], [])).outbox == Unlocking(copy)
  {
    assert [GivePage(copy.protection, copy.data)][1..] == [] && [] + Unlocking(copy) == Unlocking(copy);
  }

  /** unlock_write by a writer, unlock_read by a reader. */
  method Unlock(m: SlaveMemory, i: int, p: nat, ghost c: Cluster)
    requires Stands(m, c, i) && p < |c.homes| && ThreadRuns(c.nodes[i]) && m.pages[p].app.Holding?
    modifies m, m.pages
    ensures MayStep(c, OnPage(p, Label.Unlock(i)))
    ensures Stands(m, StepTo(c, OnPage(p, Label.Unlock(i))), i)
    ensures var posts := if CanWrite(old(m.pages[p]).app.rights)
                         then [Packet(p, GivePage(old(m.pages[p]).protection, old(m.pages[p]).data))] else [];
            && m.sent == old(m.sent) + posts
            && StepTo(c, OnPage(p, Label.Unlock(i))).nodes[i].outbox == c.nodes[i].outbox + posts
  {
    ThreadGoesOn(c, i, p, 1, []);
    UnlockedTable(c, i, p);
    UnlockTag(m.pages[p], p);
    ClusterStep(c, OnPage(p, Label.Unlock(i)));
    if CanWrite(m.pages[p].app.rights) {
      m.UnlockWrite(p);
    } else {
      m.UnlockRead(p);
    }
  }

  /** Whatever packet a slave's daemon finds at the front of its connection, with nothing left to acknowledge and
      the mutex of the page free: it is handled, and the table is that of the slave in the next reachable state. */
  method TakeFront(m: SlaveMemory, i: int, packet: Packet, ghost c: Cluster) returns (ghost c': Cluster)
    requires Stands(m, c, i) && c.nodes[i].acking.None? && c.nodes[i].inbox != [] && packet == c.nodes[i].inbox[0]
    requires packet.page < m.pages.Length ==> !MutexHeld(m.pages[packet.page].app)
    modifies m, m.pages
    ensures Stands(m, c', i) && c'.nodes[i].inbox == c.nodes[i].inbox[1..] && c'.nodes[i].acking.None?
    ensures packet.page < m.pages.Length
    ensures packet.msg.GivePage? || packet.msg == Invalidate
    ensures packet.msg.GivePage? ==>
              && m.sent == old(m.sent) && c'.nodes[i].outbox == c.nodes[i].outbox
              && m.pages[..] == old(m.pages[..])[packet.page :=
                   Copy(old(m.pages[packet.page]).app, true, packet.msg.rights, packet.msg.data)]
    ensures packet.msg.Invalidate? ==>
              && m.sent == old(m.sent) + [Packet(packet.page, InvalidateAck)]
              && c'.nodes[i].outbox == c.nodes[i].outbox + [Packet(packet.page, InvalidateAck)]
              && m.pages[..] == old(m.pages[..])[packet.page :=
                   old(m.pages[packet.page]).(uptodate := false, protection := 0)]
  {
    ghost var p := FrontStep(c, i);
    if packet.msg.GivePage? {
      c' := StepTo(c, OnPage(p, Label.TakePage(i)));
      TakePage(m, i, packet.page, packet.msg.rights, packet.msg.data, c);
    } else {
      c' := TakeInvalidate(m, i, packet.page, c);
    }
  }
}
