/** The master's handlers in the states the page protocol reaches: whenever the page object is the home of a
    reachable state and a message is at the front of a connection, handling it succeeds and leaves the object
    the home of the reachable state in which the message is taken and the queue drained. */
module MasterDaemon {
  import opened Bytes
  import opened PageProtocol
  import opened PageTheorems
  import opened HomePage

  /** The object stands for the master's side of s, and its lists are usable. */
  ghost predicate Stands(h: HomePage, s: System)
    reads h, h.requests, h.readers, h.requests.repr, h.readers.repr
  {
    h.Valid() && h.View() == s.home && h.master == s.master
  }

  /** The label of taking the front message of slave i. */
  function Taking(s: System, i: int): Label
    requires i in s.slaves && s.slaves[i].outbox != []
  {
    match s.slaves[i].outbox[0]
    case LockPage(_) => MasterTakeLock(i)
    case InvalidateAck => MasterTakeAck(i)
    case GivePage(_, _) => MasterTakePage(i)
    case Invalidate => MasterDone
  }

  /** The state after slave i's front message is taken and the queue drained. */
  function Handled(s: System, l: Label): System
    requires Enabled(s, l)
  {
    AfterDraining(After(s, l))
  }

  /** s' follows from s by the handling of l, and posts are what it sends. */
  ghost predicate Handles(s: System, l: Label, s': System, posts: seq<Post>)
    requires Enabled(s, l)
  {
    && Reachable(s') && !s'.draining && s' == Handled(s, l) && posts == Drain(After(s, l).home).posts
  }

  lemma HandlingReaches(s: System, l: Label)
    requires Reachable(s) && Enabled(s, l) && After(s, l).draining
    ensures Drain(After(s, l).home).ok
    ensures Handles(s, l, Handled(s, l), Drain(After(s, l).home).posts)
  {
    ReachableStep(s, l);
    DrainingEnds(After(s, l));
  }

  /** A LOCKPAGE is taken. */
  method TakeLock(h: HomePage, i: int, rights: int, ghost s: System) returns (ok: bool, ghost posts: seq<Post>)
    requires Reachable(s) && Stands(h, s)
    requires Enabled(s, MasterTakeLock(i)) && s.slaves[i].outbox[0] == PageMsg.LockPage(rights)
    modifies h.net, h, h.requests, h.requests.repr, h.readers, h.readers.repr
    ensures ok && Stands(h, Handled(s, MasterTakeLock(i)))
    ensures Handles(s, MasterTakeLock(i), Handled(s, MasterTakeLock(i)), posts) && h.net.sent == old(h.net.sent) + posts
  {
    ghost var l := MasterTakeLock(i);
    HandlingReaches(s, l);
    posts := Drain(After(s, l).home).posts;
    assert QueueRequest(h.View(), i, rights) == After(s, l).home;
    ok := h.HandleLockPage(i, rights);
  }

  /** An INVALIDATE_ACK is taken: invalidations are always out then. */
  method TakeAck(h: HomePage, i: int, ghost s: System) returns (ok: bool, ghost posts: seq<Post>)
    requires Reachable(s) && Stands(h, s)
    requires Enabled(s, MasterTakeAck(i))
    modifies h.net, h, h.requests, h.requests.repr, h.readers, h.readers.repr
    ensures ok && Stands(h, Handled(s, MasterTakeAck(i)))
    ensures Handles(s, MasterTakeAck(i), Handled(s, MasterTakeAck(i)), posts) && h.net.sent == old(h.net.sent) + posts
  {
    ghost var l := MasterTakeAck(i);
    AckMeansRecall(s, i);
    HandlingReaches(s, l);
    posts := Drain(After(s, l).home).posts;
    assert DropReader(h.View(), i) == After(s, l).home;
    ok := h.HandleInvalidateAck(i);
  }

  /** A GIVEPAGE is taken. */
  method TakePage(h: HomePage, i: int, rights: int, data: bytes, ghost s: System)
    returns (ok: bool, ghost posts: seq<Post>)
    requires Reachable(s) && Stands(h, s)
    requires Enabled(s, MasterTakePage(i)) && s.slaves[i].outbox[0] == PageMsg.GivePage(rights, data)
    modifies h.net, h, h.requests, h.requests.repr, h.readers, h.readers.repr
    ensures ok && Stands(h, Handled(s, MasterTakePage(i)))
    ensures Handles(s, MasterTakePage(i), Handled(s, MasterTakePage(i)), posts) && h.net.sent == old(h.net.sent) + posts
  {
    ghost var l := MasterTakePage(i);
    HandlingReaches(s, l);
    posts := Drain(After(s, l).home).posts;
    assert TakeBack(h.View(), h.master, rights, data) == After(s, l).home;
    ok := h.HandleGivePage(rights, data);
  }

  /** Every message that stands at the front of a connection to the master is one of the three. */
  lemma FrontMessage(s: System, i: int)
    requires Reachable(s) && MasterMayTake(s, i)
    ensures Enabled(s, Taking(s, i)) && Taking(s, i) != MasterDone
  {
    FrontOfOutbox(s, i);
  }

  /** Whatever message the master's daemon finds at the front of a connection, its handler succeeds, the lists
      stay usable, and the object ends as the home of the state the protocol reaches. */
  method TakeFront(h: HomePage, i: int, msg: PageMsg, ghost s: System) returns (ok: bool, ghost posts: seq<Post>)
    requires Reachable(s) && Stands(h, s)
    requires MasterMayTake(s, i) && msg == s.slaves[i].outbox[0]
    modifies h.net, h, h.requests, h.requests.repr, h.readers, h.readers.repr
    ensures ok && Enabled(s, Taking(s, i)) && Stands(h, Handled(s, Taking(s, i)))
    ensures Handles(s, Taking(s, i), Handled(s, Taking(s, i)), posts) && h.net.sent == old(h.net.sent) + posts
  {
    FrontMessage(s, i);
    match msg {
      case LockPage(rights) =>
        ok, posts := TakeLock(h, i, rights, s);
      case InvalidateAck =>
        ok, posts := TakeAck(h, i, s);
      case GivePage(rights, data) =>
        ok, posts := TakePage(h, i, rights, data, s);
      case Invalidate =>
        assert false;
    }
  }

  /** The object starts as the home of the initial state. */
  method Start(net: Network, master: int, zero: bytes) returns (h: HomePage)
    ensures fresh(h) && h.net == net && Reachable(InitialSystem(master, zero)) && Stands(h, InitialSystem(master, zero))
  {
    h := new HomePage(net, master, zero);
    assert ReachedBy(InitialSystem(master, zero), master, zero, []);
  }

  /** Steps of slaves and applications leave the home as it is, so the object goes on standing for it. */
  lemma OthersKeepHome(s: System, l: Label)
    requires Enabled(s, l) && !l.MasterTakeLock? && !l.MasterTakeAck? && !l.MasterTakePage? && !l.MasterTurn?
    ensures After(s, l).home == s.home && After(s, l).master == s.master
    ensures !l.MasterDone? ==> After(s, l).draining == s.draining
  {
  }

  // ---------------------------------------------------------------- other threads between the turns

  /** The master drains from the first step of the run to the last. */
  predicate DrainsThroughout(s: System, run: seq<Label>)
    requires CanRun(s, run)
    decreases |run|
  {
    run == [] || (s.draining && DrainsThroughout(After(s, run[0]), run[1..]))
  }

  /** What the master sends in the run. */
  function PostsOf(s: System, run: seq<Label>): seq<Post>
    requires CanRun(s, run)
    decreases |run|
  {
    if run == [] then []
    else (if run[0].MasterTurn? then DrainTurn(s.home).posts else []) + PostsOf(After(s, run[0]), run[1..])
  }

  /** However the steps of other threads come between the turns of the master, the home the draining leads to
      and the messages it sends are those of draining at once. */
  lemma {:induction false} Interleaved(s: System, run: seq<Label>)
    requires s.draining && CanRun(s, run) && DrainsThroughout(s, run)
    ensures var s' := Run(s, run);
            var d := Drain(s.home);
            && s'.master == s.master
            && (s'.draining ==> Drain(s'.home).home == d.home && PostsOf(s, run) + Drain(s'.home).posts == d.posts)
            && (!s'.draining ==> s'.home == d.home && PostsOf(s, run) == d.posts)
    decreases |run|
  {
    if run == [] {
      assert [] + Drain(s.home).posts == Drain(s.home).posts;
    } else {
      var s1 := After(s, run[0]);
      if run[0].MasterDone? {
        assert run[1..] == [];
      } else {
        if !run[0].MasterTurn? { OthersKeepHome(s, run[0]); }
        Interleaved(s1, run[1..]);
        InterleavedPosts(s, run);
      }
    }
  }

  lemma InterleavedPosts(s: System, run: seq<Label>)
    requires run != [] && s.draining && CanRun(s, run) && !run[0].MasterDone?
    ensures After(s, run[0]).draining && After(s, run[0]).master == s.master
    ensures Drain(s.home).home == Drain(After(s, run[0]).home).home
    ensures forall more :: PostsOf(After(s, run[0]), run[1..]) + more == Drain(After(s, run[0]).home).posts ==>
              PostsOf(s, run) + more == Drain(s.home).posts
  {
    var s1 := After(s, run[0]);
    var now := if run[0].MasterTurn? then DrainTurn(s.home).posts else [];
    var later := PostsOf(s1, run[1..]);
    if !run[0].MasterTurn? { OthersKeepHome(s, run[0]); }
    assert Drain(s.home).posts == now + Drain(s1.home).posts;
    forall more | later + more == Drain(s1.home).posts
      ensures PostsOf(s, run) + more == Drain(s.home).posts
    {
      assert now + later + more == now + (later + more);
    }
  }

  /** So the object stands for the home at the end of the draining, whatever else happened meanwhile. */
  lemma HandledInterleaved(h: HomePage, s: System, l: Label, run: seq<Label>)
    requires Enabled(s, l) && After(s, l).draining && CanRun(After(s, l), run)
    requires DrainsThroughout(After(s, l), run) && !Run(After(s, l), run).draining
    requires Stands(h, Handled(s, l))
    ensures Stands(h, Run(After(s, l), run))
    ensures PostsOf(After(s, l), run) == Drain(After(s, l).home).posts
  {
    Interleaved(After(s, l), run);
  }
}
