/** The master's page object and its message handlers, over the two linked lists they keep. Each handler
    does to the page exactly what the protocol's functions say, and sends exactly those messages. */
module HomePage {
  import opened Bytes
  import opened LinkedList
  import opened PageProtocol

  /** Every message handed to dsm_send_msg, in order. */
  class Network {
    var sent: seq<Post>

    constructor ()
      ensures sent == []
    {
      sent := [];
    }

    method Send(to: int, msg: PageMsg)
      modifies this
      ensures sent == old(sent) + [Post(to, msg)]
    {
      sent := sent + [Post(to, msg)];
    }
  }

  class HomePage {
    const net: Network
    const master: int                       // the master's own descriptor
    var uptodate: bool
    var protection: int
    var writeOwner: int
    var data: bytes
    const requests: List<Request>           // requests_queue
    const readers: List<int>                // current_readers_queue
    var invalidateSent: bool

    /** Both lists are well formed. The requests' tail is always in place; the readers' tail may be stale
        only while invalidations are out, and then the next request is a write, so no reader is added. */
    ghost predicate Valid()
      reads this, requests, readers, requests.repr, readers.repr
    {
      && requests.Valid() && readers.Valid() && requests.repr !! readers.repr
      && {this, net, requests as object, readers as object} !! requests.repr + readers.repr
      && requests.TailInPlace()
      && (!invalidateSent ==> readers.TailInPlace())
      && (invalidateSent ==> requests.nodes != [] && CanWrite(requests.nodes[0].data.rights))
    }

    ghost function View(): Home
      reads this, requests, readers, requests.nodes, readers.nodes
    {
      Home(uptodate, protection, writeOwner, data, requests.Contents(), readers.Contents(), invalidateSent)
    }

    constructor (net: Network, master: int, zero: bytes)
      ensures Valid() && fresh(requests) && fresh(readers) && requests.repr == {} && readers.repr == {}
      ensures View() == InitialHome(master, zero) && this.master == master && this.net == net
    {
      this.net := net;
      this.master := master;
      uptodate := true;
      protection := PROT_READ_WRITE;
      writeOwner := master;
      data := zero;
      requests := new List();
      readers := new List();
      invalidateSent := false;
    }

    method SatisfyRequest(req: Request)
      modifies net
      ensures net.sent == old(net.sent) + [Post(req.sockfd, GivePage(req.rights, data))]
    {
      net.Send(req.sockfd, GivePage(req.rights, data));
    }

    method GiveUpLocalPage(newOwner: int)
      modifies this
      ensures !uptodate && protection == PROT_NONE && writeOwner == newOwner
      ensures data == old(data) && invalidateSent == old(invalidateSent)
    {
      uptodate := false;
      protection := PROT_NONE;
      writeOwner := newOwner;
    }

    method InvalidateReaders()
      requires readers.Valid() && net as object !in readers.repr
      modifies net
      ensures net.sent == old(net.sent) + Broadcast(readers.Contents())
    {
      ghost var posts := Broadcast(readers.Contents());
      assert forall k :: 0 <= k < |posts| ==> posts[k] == Post(readers.nodes[k].data, Invalidate);
      var readerNode := readers.head;
      ghost var k := 0;
      while readerNode != null
        invariant 0 <= k <= |readers.nodes|
        invariant readerNode == if k < |readers.nodes| then readers.nodes[k] else null
        invariant readers.Valid()
        invariant net.sent == old(net.sent) + posts[..k]
        decreases |readers.nodes| - k
      {
        assert readerNode == readers.nodes[k] && posts[..k + 1] == posts[..k] + [posts[k]];
        net.Send(readerNode.data, Invalidate);
        readerNode := readerNode.next;
        k := k + 1;
      }
    }

    /** A slave is listed as reader. */
    method AddReader(sockfd: int)
      requires Valid() && !invalidateSent
      modifies readers, readers.repr
      ensures Valid() && fresh(readers.repr - old(readers.repr))
      ensures View() == old(View()).(readers := old(readers.Contents()) + [sockfd])
    {
      readers.Add(sockfd);
      assert requests.Valid() && requests.Contents() == old(requests.Contents());
    }

    /** The sender of the first request is listed as reader, and the request dropped. */
    method MoveToReaders(node: ListNode<Request>)
      requires Valid() && !invalidateSent && requests.head == node
      modifies requests, requests.repr, readers, readers.repr
      ensures Valid() && fresh(readers.repr - old(readers.repr)) && requests.repr == old(requests.repr)
      ensures var h := old(View());
              View() == h.(readers := h.readers + [h.requests[0].sockfd], requests := h.requests[1..])
      ensures node.next == old(node.next) && requests.head == node.next
    {
      assert requests.nodes[0] == node;
      AddReader(node.data.sockfd);
      PopRequest(node);
    }

    /** The turn that answers a read request. */
    method GrantRead(node: ListNode<Request>)
      requires Valid() && uptodate && requests.head == node && node.data.rights == PROT_READ
      modifies net, requests, requests.repr, readers, readers.repr
      ensures Valid() && fresh(readers.repr - old(readers.repr)) && requests.repr == old(requests.repr)
      ensures DrainTurn(old(View())) == Go(View(), [Post(old(node.data).sockfd, GivePage(PROT_READ, data))])
      ensures net.sent == old(net.sent) + [Post(old(node.data).sockfd, GivePage(PROT_READ, data))]
      ensures node.next == old(node.next) && requests.head == node.next
    {
      ghost var h, req := View(), node.data;
      assert h.requests[0] == req && !CanWrite(PROT_READ);
      assert !invalidateSent;
      SatisfyRequest(node.data);
      MoveToReaders(node);
      ReadTurn(h);
    }

    static lemma ReadTurn(h: Home)
      requires h.uptodate && h.requests != [] && h.requests[0].rights == PROT_READ
      ensures var req := h.requests[0];
              DrainTurn(h) == Go(h.(readers := h.readers + [req.sockfd], requests := h.requests[1..]),
                                 [Post(req.sockfd, GivePage(PROT_READ, h.data))])
    {
    }

    /** The turn that answers a write request. */
    method GrantWrite(node: ListNode<Request>)
      requires Valid() && uptodate && requests.head == node && node.data.rights != PROT_READ && CanWrite(node.data.rights)
      requires readers.length == 0
      modifies net, this, requests, requests.repr
      ensures Valid() && requests.repr == old(requests.repr)
      ensures DrainTurn(old(View())) == Go(View(), [Post(old(node.data).sockfd, GivePage(old(node.data).rights, data))])
      ensures net.sent == old(net.sent) + [Post(old(node.data).sockfd, GivePage(old(node.data).rights, data))]
    {
      assert node == requests.nodes[0];
      invalidateSent := false;
      SatisfyRequest(node.data);
      GiveUpLocalPage(node.data.sockfd);
      assert Valid() && requests.Contents() == old(requests.Contents());
      PopRequest(node);
    }

    /** One turn of the loop of process_list_requests, and the node it goes on with, if any. A writer that
        waits for readers has no exit in the source's loop (the guard of its last `if` fails on every turn);
        the wait its comments describe is leaving the handler: the next acknowledgement calls it again. */
    method Turn(reqlist: ListNode<Request>) returns (next: ListNode?<Request>, ok: bool, ghost t: PageProtocol.Turn)
      requires Valid() && uptodate && reqlist == requests.head
      modifies net, this, requests, requests.repr, readers, readers.repr
      ensures Valid() && requests.repr == old(requests.repr) && fresh(readers.repr - old(readers.repr))
      ensures t == DrainTurn(old(View())) && ok == !t.BadRights?
      ensures next != null ==> t.Go? && uptodate && next == requests.head
      ensures next == null && t.Go? ==> !uptodate || requests.head == null
      ensures !t.Go? ==> View() == old(View()) && net.sent == old(net.sent)
      ensures t.Go? ==> View() == t.home && net.sent == old(net.sent) + t.posts
    {
      assert reqlist == requests.nodes[0];
      t := DrainTurn(View());
      if reqlist.data.rights == PROT_READ {
        GrantRead(reqlist);
        return reqlist.next, true, t;
      } else if CanWrite(reqlist.data.rights) {
        if !invalidateSent && readers.length > 0 {
          SendInvalidations();
          return reqlist, true, t;
        } else if readers.length == 0 {
          GrantWrite(reqlist);
          return null, true, t;
        } else {
          return null, true, t;
        }
      } else {
        return null, false, t;
      }
    }

    /** A turn, seen from the end of the draining: rest is what is still to be done after it. */
    method TurnTowardsEnd(reqlist: ListNode<Request>)
      returns (next: ListNode?<Request>, ok: bool, ghost rest: PageProtocol.Drained)
      requires Valid() && uptodate && reqlist == requests.head
      modifies net, this, requests, requests.repr, readers, readers.repr
      ensures Valid() && requests.repr == old(requests.repr) && fresh(readers.repr - old(readers.repr))
      ensures AfterSending(net.sent, rest) == old(AfterSending(net.sent, Drain(View())))
      ensures next != null ==> uptodate && next == requests.head && rest == Drain(View())
      ensures next != null ==> DrainMeasure(View()) < old(DrainMeasure(View()))
      ensures next == null ==> rest == Drained(View(), [], ok)
    {
      ghost var h, sent := View(), net.sent;
      ghost var t;
      next, ok, t := Turn(reqlist);
      rest := TurnThenDrain(h, sent, t);
    }

    /** process_list_requests: the page and the messages end as Drain says; false where the source exits on
        bad rights. */
    method ProcessListRequests() returns (ok: bool)
      requires Valid()
      modifies net, this, requests, requests.repr, readers, readers.repr
      ensures Valid() && requests.repr == old(requests.repr) && fresh(readers.repr - old(readers.repr))
      ensures Drained(View(), net.sent, ok) == AfterSending(old(net.sent), Drain(old(View())))
    {
      ghost var all := AfterSending(net.sent, Drain(View()));
      if !uptodate {
        assert net.sent + [] == net.sent;
        return true;
      }
      var reqlist := requests.head;
      ok := true;
      ghost var rest := Drain(View());
      while reqlist != null
        invariant Valid() && requests.repr == old(requests.repr) && fresh(readers.repr - old(readers.repr))
        invariant reqlist != null ==> uptodate && reqlist == requests.head && rest == Drain(View())
        invariant reqlist == null ==> rest == Drained(View(), [], ok)
        invariant AfterSending(net.sent, rest) == all
        decreases reqlist != null, DrainMeasure(View())
      {
        reqlist, ok, rest := TurnTowardsEnd(reqlist);
      }
    }

    static lemma TurnThenDrain(h: Home, sent: seq<Post>, t: PageProtocol.Turn) returns (rest: Drained)
      requires t == DrainTurn(h)
      ensures t.Stop? ==> rest == Drained(h, [], true) && AfterSending(sent, rest) == AfterSending(sent, Drain(h))
      ensures t.BadRights? ==> rest == Drained(h, [], false) && AfterSending(sent, rest) == AfterSending(sent, Drain(h))
      ensures t.Go? ==> rest == Drain(t.home) && DrainMeasure(t.home) < DrainMeasure(h)
      ensures t.Go? ==> AfterSending(sent + t.posts, rest) == AfterSending(sent, Drain(h))
      ensures t.Go? && (!t.home.uptodate || t.home.requests == []) ==> rest == Drained(t.home, [], true)
    {
      if t.Go? {
        rest := Drain(t.home);
        assert sent + (t.posts + rest.posts) == sent + t.posts + rest.posts;
      } else {
        rest := Drain(h);
      }
    }

    /** The turn that recalls the readers' copies. */
    method SendInvalidations()
      requires Valid() && uptodate && requests.nodes != [] && readers.length > 0 && !invalidateSent
      requires requests.nodes[0].data.rights != PROT_READ && CanWrite(requests.nodes[0].data.rights)
      modifies net, this
      ensures Valid()
      ensures DrainTurn(old(View())) == Go(View(), Broadcast(readers.Contents()))
      ensures net.sent == old(net.sent) + Broadcast(readers.Contents())
      ensures uptodate
    {
      InvalidateReaders();
      invalidateSent := true;
      assert requests.Contents() == old(requests.Contents()) && readers.Contents() == old(readers.Contents());
    }

    /** A page request arrives (handle_lockpage_msg). */
    method HandleLockPage(from: int, rights: int) returns (ok: bool)
      requires Valid()
      modifies net, this, requests, requests.repr, readers, readers.repr
      ensures Valid() && fresh(requests.repr - old(requests.repr)) && fresh(readers.repr - old(readers.repr))
      ensures Drained(View(), net.sent, ok) == AfterSending(old(net.sent), Drain(QueueRequest(old(View()), from, rights)))
    {
      requests.Add(Request(from, rights));
      assert View() == QueueRequest(old(View()), from, rights);
      ok := ProcessListRequests();
    }

    /** The sender of an acknowledgement is no reader any more. */
    method RemoveReader(from: int)
      requires Valid() && (invalidateSent || !OnlyAtEnd(readers.Contents(), from))
      modifies readers, readers.repr
      ensures Valid() && readers.repr == old(readers.repr)
      ensures View() == DropReader(old(View()), from)
    {
      readers.RemoveValue(from);
      assert requests.Valid() && requests.Contents() == old(requests.Contents());
    }

    /** An acknowledgement arrives (handle_invalidate_ack_msg). Without invalidations out, one from the last of
        several readers would leave the readers' tail behind; none such is ever in flight, as
        PageTheorems.AckMeansRecall proves, and MasterDaemon.TakeAck needs no such condition. */
    method HandleInvalidateAck(from: int) returns (ok: bool)
      requires Valid() && (invalidateSent || !OnlyAtEnd(readers.Contents(), from))
      modifies net, this, requests, requests.repr, readers, readers.repr
      ensures Valid() && requests.repr == old(requests.repr) && fresh(readers.repr - old(readers.repr))
      ensures Drained(View(), net.sent, ok) == AfterSending(old(net.sent), Drain(DropReader(old(View()), from)))
    {
      RemoveReader(from);
      ok := ProcessListRequests();
    }

    /** The page comes home (handle_givepage_msg at the master). */
    method HandleGivePage(rights: int, data: bytes) returns (ok: bool)
      requires Valid()
      modifies net, this, requests, requests.repr, readers, readers.repr
      ensures Valid() && requests.repr == old(requests.repr) && fresh(readers.repr - old(readers.repr))
      ensures Drained(View(), net.sent, ok) == AfterSending(old(net.sent), Drain(TakeBack(old(View()), master, rights, data)))
    {
      this.data := data;
      protection := rights;
      writeOwner := master;
      uptodate := true;
      assert View() == TakeBack(old(View()), master, rights, data);
      ok := ProcessListRequests();
    }

    /** The head of the queue is removed. */
    method PopRequest(node: ListNode<Request>)
      requires Valid() && !invalidateSent && requests.head == node
      modifies requests, requests.repr
      ensures Valid() && requests.repr == old(requests.repr)
      ensures View() == old(View()).(requests := old(requests.Contents())[1..])
      ensures node.next == old(node.next) && requests.head == node.next
    {
      ghost var contents := requests.Contents();
      assert requests.nodes[0] == node;
      var k := requests.Remove(DataOf(node));
      assert k == 0;
      WithoutFirst(contents);
      assert readers.Valid() && readers.Contents() == old(readers.Contents());
    }
  }
}
