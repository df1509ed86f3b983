/** A slave's page table and what its application and daemon do to it in place. */
module SlaveMemory {
  import opened Bytes
  import opened PageProtocol
  import opened Cluster

  /** The copy as the page protocol sees it, in a slave with the given connections. */
  function AsSlave(c: Copy, acking: bool, inbox: seq<PageMsg>, outbox: seq<PageMsg>): Slave {
    Slave(c.app, c.uptodate, c.protection, c.data, acking, inbox, outbox)
  }

  /** What the page-return loop of terminate sends for pages k and on: every writable page, in order. */
  function Returns(pages: seq<Copy>, k: nat): seq<Packet>
    requires k <= |pages|
    decreases |pages| - k
  {
    if k == |pages| then []
    else (if CanWrite(pages[k].protection) then [Packet(k, GivePage(PROT_READ_WRITE, pages[k].data))] else [])
         + Returns(pages, k + 1)
  }

  /** The loop sends each page it holds for writing once, as the protocol's Quit step does, and no other. */
  lemma {:induction false} ReturnsOn(pages: seq<Copy>, k: nat, p: nat)
    requires k <= |pages| && p < |pages|
    ensures On(Returns(pages, k), p) ==
            if k <= p && CanWrite(pages[p].protection) then [GivePage(PROT_READ_WRITE, pages[p].data)] else []
    ensures forall acking, inbox, outbox ::
              AfterQuit(AsSlave(pages[p], acking, inbox, outbox)).outbox ==
              outbox + if CanWrite(pages[p].protection) then [GivePage(PROT_READ_WRITE, pages[p].data)] else []
    decreases |pages| - k
  {
    if k < |pages| {
      ReturnsOn(pages, k + 1, p);
      var first := if CanWrite(pages[k].protection) then [Packet(k, GivePage(PROT_READ_WRITE, pages[k].data))] else [];
      OnConcat(first, Returns(pages, k + 1), p);
      assert first != [] ==> first[1..] == [];
    }
  }

  class SlaveMemory {
    const pages: array<Copy>
    var sent: seq<Packet>                   // what has been sent to the master, in order

    constructor (pageCount: nat, zero: bytes)
      ensures fresh(pages) && pages[..] == NewNode(pageCount, zero).pages && sent == []
    {
      pages := new Copy[pageCount](_ => Copy(Idle, false, PROT_NONE, zero));
      sent := [];
    }

    /** lock_page up to its wait: mutex_page is taken, and released again while waiting. On an
        up-to-date copy the lock is held whatever the rights asked for. */
    method LockPage(p: nat, rights: int) returns (mustWait: bool)
      requires p < pages.Length && pages[p].app.Idle?
      modifies this, pages
      ensures mustWait == !old(pages[p]).uptodate
      ensures pages[..] == old(pages[..])[p := old(pages[p]).(app := if mustWait then Waiting(rights) else Holding(rights))]
      ensures sent == old(sent) + if mustWait then [Packet(p, PageMsg.LockPage(rights))] else []
    {
      mustWait := !pages[p].uptodate;
      if mustWait {
        sent := sent + [Packet(p, PageMsg.LockPage(rights))];
        pages[p] := pages[p].(app := Waiting(rights));
      } else {
        pages[p] := pages[p].(app := Holding(rights));
      }
    }

    /** lock_page returns from its wait: the page has come, and mutex_page is held. */
    method Wake(p: nat)
      requires p < pages.Length && pages[p].app.Waiting? && pages[p].uptodate
      modifies pages
      ensures pages[..] == old(pages[..])[p := old(pages[p]).(app := Holding(old(pages[p]).app.rights))]
    {
      pages[p] := pages[p].(app := Holding(pages[p].app.rights));
    }

    /** unlock_read: mutex_page is released. */
    method UnlockRead(p: nat)
      requires p < pages.Length && pages[p].app.Holding?
      modifies pages
      ensures pages[..] == old(pages[..])[p := old(pages[p]).(app := Idle)]
    {
      pages[p] := pages[p].(app := Idle);
    }

    method SatisfyRequest(p: nat, rights: int)
      requires p < pages.Length
      modifies this
      ensures sent == old(sent) + [Packet(p, GivePage(rights, pages[p].data))]
    {
      sent := sent + [Packet(p, GivePage(rights, pages[p].data))];
    }

    method GiveUpLocalPage(p: nat)
      requires p < pages.Length
      modifies pages
      ensures pages[..] == old(pages[..])[p := old(pages[p]).(uptodate := false, protection := PROT_NONE)]
    {
      pages[p] := pages[p].(uptodate := false, protection := PROT_NONE);
    }

    /** unlock_write: the page goes home and the lock is released, as the protocol's Unlock step of a writer. */
    method UnlockWrite(p: nat)
      requires p < pages.Length && pages[p].app.Holding? && CanWrite(pages[p].app.rights)
      modifies this, pages
      ensures var sl := AfterUnlock(AsSlave(old(pages[p]), false, [], []));
              && pages[..] == old(pages[..])[p := Copy(sl.app, sl.uptodate, sl.protection, sl.data)]
              && sent == old(sent) + Tag(p, sl.outbox)
    {
      SatisfyRequest(p, pages[p].protection);
      GiveUpLocalPage(p);
      pages[p] := pages[p].(app := Idle);
      assert [GivePage(old(pages[p]).protection, old(pages[p]).data)][1..] == [];
    }

    /** handle_invalidate_msg, which finds mutex_page free: the copy is cleared, then acknowledged. */
    method HandleInvalidate(p: nat)
      requires p < pages.Length && !MutexHeld(pages[p].app)
      modifies this, pages
      ensures var sl := AfterSendAck(AfterTakeInvalidate(AsSlave(old(pages[p]), false, [Invalidate], [])));
              && pages[..] == old(pages[..])[p := Copy(sl.app, sl.uptodate, sl.protection, sl.data)]
              && sent == old(sent) + Tag(p, sl.outbox)
    {
      pages[p] := pages[p].(uptodate := false);
      pages[p] := pages[p].(protection := PROT_NONE);
      sent := sent + [Packet(p, InvalidateAck)];
      assert [InvalidateAck][1..] == [] && [] + [InvalidateAck] == [InvalidateAck];
    }

    /** handle_givepage_msg at a slave, which finds mutex_page free. */
    method HandleGivePage(p: nat, rights: int, data: bytes)
      requires p < pages.Length && !MutexHeld(pages[p].app)
      modifies pages
      ensures var sl := AfterTakePage(AsSlave(old(pages[p]), false, [GivePage(rights, data)], []));
              pages[..] == old(pages[..])[p := Copy(sl.app, sl.uptodate, sl.protection, sl.data)]
    {
      pages[p] := pages[p].(data := data);
      pages[p] := pages[p].(protection := rights);
      pages[p] := pages[p].(uptodate := true);
    }

    /** The page-return loop of terminate. */
    method ReturnWritePages()
      modifies this, pages
      ensures sent == old(sent) + Returns(old(pages[..]), 0)
      ensures forall k :: 0 <= k < pages.Length ==>
                pages[k] == if CanWrite(old(pages[k]).protection)
                            then old(pages[k]).(uptodate := false, protection := PROT_NONE) else old(pages[k])
      ensures forall k :: 0 <= k < pages.Length ==> !CanWrite(pages[k].protection)
    {
      ghost var before := pages[..];
      var i := 0;
      while i < pages.Length
        invariant 0 <= i <= pages.Length
        invariant sent + Returns(before, i) == old(sent) + Returns(before, 0)
        invariant forall k :: 0 <= k < i ==>
                    pages[k] == if CanWrite(before[k].protection)
                                then before[k].(uptodate := false, protection := PROT_NONE) else before[k]
        invariant forall k :: i <= k < pages.Length ==> pages[k] == before[k]
      {
        ghost var was := sent;
        if CanWrite(pages[i].protection) {
          SatisfyRequest(i, PROT_READ_WRITE);
          GiveUpLocalPage(i);
        }
        assert was + Returns(before, i) == sent + Returns(before, i + 1);
        i := i + 1;
      }
      assert sent + [] == sent;
    }
  }
}
