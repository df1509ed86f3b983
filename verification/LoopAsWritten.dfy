/** The draining loop exactly as it is written, and where it differs from the loop its comments describe: with
    invalidations out and readers left, a writer at the head is passed over without end. */
module LoopAsWritten {
  import opened Bytes
  import opened PageProtocol
  import opened PageTheorems

  /** What one pass of the body does: it returns, or goes on to another pass, having changed the page and sent
      messages; or it gives up on bad rights. */
  datatype Pass = Returns(home: Home, posts: seq<Post>) | GoesOn(home: Home, posts: seq<Post>) | GivesUp

  function PassOf(h: Home): Pass
    requires h.requests != []
  {
    var req := h.requests[0];
    var grant := Post(req.sockfd, GivePage(req.rights, h.data));
    if req.rights == PROT_READ then
      GoesOn(h.(readers := h.readers + [req.sockfd], requests := h.requests[1..]), [grant])
    else if CanWrite(req.rights) then
      if !h.invalidateSent && |h.readers| > 0 then
        GoesOn(h.(invalidateSent := true), Broadcast(h.readers))
      else if |h.readers| == 0 then
        Returns(h.(invalidateSent := false, uptodate := false, protection := PROT_NONE, writeOwner := req.sockfd,
                   requests := h.requests[1..]), [grant])
      else GoesOn(h, [])
    else GivesUp
  }

  /** The loop after n passes; it stops by itself on an empty queue. */
  function AfterPasses(h: Home, n: nat): Pass
    decreases n
  {
    if h.requests == [] then Returns(h, [])
    else if n == 0 then GoesOn(h, [])
    else
      match PassOf(h)
      case GoesOn(h', posts) =>
        (match AfterPasses(h', n - 1)
         case GoesOn(h'', more) => GoesOn(h'', posts + more)
         case Returns(h'', more) => Returns(h'', posts + more)
         case GivesUp => GivesUp)
      case p => p
  }

  /** The loop ends within some number of passes. */
  ghost predicate Ends(h: Home) {
    exists n: nat :: !AfterPasses(h, n).GoesOn?
  }

  /** Where the loop described by the comments waits. */
  predicate MustWait(h: Home) {
    h.uptodate && DrainTurn(h).Stop? && h.requests != []
  }

  lemma {:induction false} WaitingNeverEnds(h: Home, n: nat)
    requires MustWait(h)
    ensures AfterPasses(h, n) == GoesOn(h, [])
    decreases n
  {
    if n > 0 { WaitingNeverEnds(h, n - 1); }
  }

  /** Where it need not wait in the end, the loop as written ends with what Drain says. */
  lemma {:induction false} LoopIsDrain(h: Home) returns (n: nat)
    requires h.uptodate && !MustWait(Drain(h).home)
    ensures var d := Drain(h);
            AfterPasses(h, n) == if d.ok then Returns(d.home, d.posts) else GivesUp
    decreases DrainMeasure(h)
  {
    n := 0;
    match DrainTurn(h)
    case Stop =>
    case BadRights => n := 1;
    case Go(h', posts) =>
      if h'.uptodate {
        n := LoopIsDrain(h');
      }
      n := n + 1;
  }

  /** Where it has to wait in the end, it gets there and never ends. */
  lemma {:induction false} LoopSpins(h: Home, n: nat)
    requires h.uptodate && MustWait(Drain(h).home)
    ensures AfterPasses(h, n).GoesOn?
    decreases DrainMeasure(h)
  {
    match DrainTurn(h)
    case Stop => WaitingNeverEnds(h, n);
    case BadRights =>
    case Go(h', posts) =>
      assert Drain(h).home == Drain(h').home && (h'.uptodate || Drain(h').home == h');
      if n > 0 { LoopSpins(h', n - 1); }
  }

  /** How many requests to read stand before the first other one. */
  function LeadingReads(requests: seq<Request>): (k: nat)
    ensures k <= |requests| && (k < |requests| ==> requests[k].rights != PROT_READ)
    ensures forall j :: 0 <= j < k ==> requests[j].rights == PROT_READ
  {
    if requests == [] || requests[0].rights != PROT_READ then 0 else 1 + LeadingReads(requests[1..])
  }

  /** The first request that is not to read is to write, and a reader is listed, or queued before it. */
  predicate WriterMeetsReader(h: Home) {
    var k := LeadingReads(h.requests);
    k < |h.requests| && CanWrite(h.requests[k].rights) && |h.readers| + k > 0
  }

  lemma {:induction false} WaitsExactly(h: Home)
    requires h.uptodate
    ensures MustWait(Drain(h).home) <==> WriterMeetsReader(h)
    decreases DrainMeasure(h)
  {
    match DrainTurn(h)
    case Go(h', _) =>
      assert Drain(h).home == Drain(h').home;
      if h'.uptodate {
        WaitsExactly(h');
      } else {
        assert Drain(h').home == h';
      }
    case _ =>
  }

  /** On a page that is at home the loop as written ends if and only if the first request that is not to read
      is no request to write, or has no reader before it. */
  lemma EndsExactly(h: Home)
    requires h.uptodate
    ensures Ends(h) <==> !WriterMeetsReader(h)
  {
    WaitsExactly(h);
    if WriterMeetsReader(h) {
      forall n: nat ensures AfterPasses(h, n).GoesOn? { LoopSpins(h, n); }
    } else {
      var n := LoopIsDrain(h);
      assert !AfterPasses(h, n).GoesOn?;
    }
  }

  lemma Next(s: System, l: Label) returns (s': System)
    requires Reachable(s) && Enabled(s, l)
    ensures s' == After(s, l) && Reachable(s')
  {
    s' := After(s, l);
    ReachableStep(s, l);
  }

  /** Two slaves have joined. */
  lemma BothJoined(zero: bytes) returns (s: System)
    ensures Reachable(s) && !s.draining && s.home == InitialHome(0, zero)
    ensures s.slaves == map[1 := NewSlave(zero), 2 := NewSlave(zero)]
  {
    s := InitialSystem(0, zero);
    assert ReachedBy(s, 0, zero, []);
    s := Next(s, Connect(1, zero));
    s := Next(s, Connect(2, zero));
  }

  /** The first has asked to read, and the master has taken the request. */
  lemma ReadAsked(zero: bytes) returns (s: System)
    ensures Reachable(s) && s.draining && s.home == InitialHome(0, zero).(requests := [Request(1, PROT_READ)])
    ensures s.slaves == map[1 := NewSlave(zero).(app := Waiting(PROT_READ)), 2 := NewSlave(zero)]
  {
    s := BothJoined(zero);
    s := Next(s, LockAsk(1, PROT_READ));
    s := Next(s, MasterTakeLock(1));
    assert s.home.requests == [Request(1, PROT_READ)] && s.slaves[1].outbox == [];
  }

  /** The first has been granted its copy. */
  lemma ReadGranted(zero: bytes) returns (s: System)
    ensures Reachable(s) && !s.draining && s.home == InitialHome(0, zero).(readers := [1])
    ensures s.slaves ==
            map[1 := NewSlave(zero).(app := Waiting(PROT_READ), inbox := [GivePage(PROT_READ, zero)]), 2 := NewSlave(zero)]
  {
    var before := ReadAsked(zero);
    var page := GivePage(PROT_READ, zero);
    assert DrainTurn(before.home) == Go(InitialHome(0, zero).(readers := [1]), [Post(1, page)]);
    s := Next(before, MasterTurn);
    assert MsgsFor([Post(1, page)], 1) == [page] && MsgsFor([Post(1, page)], 2) == [];
    assert s.slaves[1].inbox == [page] && s.slaves[2].inbox == [];
    s := Next(s, MasterDone);
  }

  /** One slave reads, the other asks to write: the state in which the master takes that request is reachable,
      and from there the loop as written never ends. */
  lemma SpinIsReached(zero: bytes) returns (s: System)
    ensures Reachable(s) && s.draining && s.home.uptodate && !Ends(s.home)
  {
    s := ReadGranted(zero);
    s := Next(s, LockAsk(2, PROT_READ_WRITE));
    s := Next(s, MasterTakeLock(2));
    var h := InitialHome(0, zero).(readers := [1], requests := [Request(2, PROT_READ_WRITE)]);
    assert s.home == h;
    assert LeadingReads(h.requests) == 0;
    EndsExactly(h);
  }
}
