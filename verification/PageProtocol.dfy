/** The coherence protocol of one shared page: the master's bookkeeping for the page, every slave's
    copy of it, and the messages in flight between them, as a state machine.

    A transition is one atomic piece of a thread: an application call up to its wait, a store into the
    page, a daemon receiving one message, or one turn of the master's request-draining loop. The data
    that the theorems talk about but the program does not keep (the bytes of the last returned write,
    the requests received, the grants sent) is recorded in the last three fields of System. */
module PageProtocol {
  import opened Bytes
  import opened LinkedList

  const PROT_NONE := 0
  const PROT_READ := 1
  const PROT_WRITE := 2
  const PROT_READ_WRITE := 3

  /** `rights & PROT_WRITE` */
  predicate CanWrite(rights: int) {
    (rights / PROT_WRITE) % 2 == 1
  }

  /** What lock_read and lock_write ask for. */
  predicate LockRights(rights: int) {
    rights == PROT_READ || rights == PROT_READ_WRITE
  }

  datatype PageMsg =
    | LockPage(rights: int)
    | Invalidate
    | InvalidateAck
    | GivePage(rights: int, data: bytes)

  datatype Request = Request(sockfd: int, rights: int)

  datatype Post = Post(to: int, msg: PageMsg)

  // ---------------------------------------------------------------- the master's side

  datatype Home = Home(uptodate: bool, protection: int, writeOwner: int, data: bytes,
                       requests: seq<Request>, readers: seq<int>, invalidateSent: bool)

  function QueueRequest(h: Home, from: int, rights: int): Home {
    h.(requests := h.requests + [Request(from, rights)])
  }

  function DropReader(h: Home, from: int): Home {
    h.(readers := RemoveFirst(h.readers, from))
  }

  function TakeBack(h: Home, self: int, rights: int, data: bytes): Home {
    h.(uptodate := true, protection := rights, writeOwner := self, data := data)
  }

  function Broadcast(readers: seq<int>): (posts: seq<Post>)
    ensures |posts| == |readers|
    ensures forall k :: 0 <= k < |posts| ==> posts[k] == Post(readers[k], Invalidate)
  {
    seq(|readers|, k requires 0 <= k < |readers| => Post(readers[k], Invalidate))
  }

  /** What one turn of the draining loop does: stop, change the page and send messages, or give up on a
      request whose rights are neither a read nor a write. */
  datatype Turn = Stop | Go(home: Home, posts: seq<Post>) | BadRights

  function DrainTurn(h: Home): Turn {
    if !h.uptodate || h.requests == [] then Stop
    else
      var req := h.requests[0];
      var grant := Post(req.sockfd, GivePage(req.rights, h.data));
      if req.rights == PROT_READ then
        Go(h.(readers := h.readers + [req.sockfd], requests := h.requests[1..]), [grant])
      else if CanWrite(req.rights) then
        if !h.invalidateSent && |h.readers| > 0 then
          Go(h.(invalidateSent := true), Broadcast(h.readers))
        else if |h.readers| == 0 then
          Go(h.(invalidateSent := false, uptodate := false, protection := PROT_NONE,
                writeOwner := req.sockfd, requests := h.requests[1..]), [grant])
        else Stop
      else BadRights
  }

  /** Decreases with every turn of the draining loop. */
  function DrainMeasure(h: Home): nat {
    2 * |h.requests| + if h.invalidateSent then 0 else 1
  }

  datatype Drained = Drained(home: Home, posts: seq<Post>, ok: bool)

  /** All the turns of the draining loop, one after the other. */
  function Drain(h: Home): Drained
    decreases DrainMeasure(h)
  {
    match DrainTurn(h)
    case Stop => Drained(h, [], true)
    case BadRights => Drained(h, [], false)
    case Go(h', posts) =>
      assert DrainMeasure(h') < DrainMeasure(h);
      var rest := Drain(h');
      Drained(rest.home, posts + rest.posts, rest.ok)
  }

  /** What d amounts to when `before` has been sent already. */
  function AfterSending(before: seq<Post>, d: Drained): Drained {
    Drained(d.home, before + d.posts, d.ok)
  }

  /** The requests a list of sent messages grants. */
  function Grants(posts: seq<Post>): seq<Request> {
    if posts == [] then []
    else (if posts[0].msg.GivePage? then [Request(posts[0].to, posts[0].msg.rights)] else []) + Grants(posts[1..])
  }

  // ---------------------------------------------------------------- a slave's side

  /** Where the application thread of a slave stands: outside any lock, blocked in lock_page, between lock
      and unlock (mutex_page is held), or past terminate, possibly without having unlocked. */
  datatype App = Idle | Waiting(rights: int) | Holding(rights: int) | Gone(locked: bool)

  /** A slave, its copy of the page, and its two connections to the master. `acking` marks the daemon
      between clearing the page and sending the acknowledgement. */
  datatype Slave = Slave(app: App, uptodate: bool, protection: int, data: bytes, acking: bool,
                         inbox: seq<PageMsg>, outbox: seq<PageMsg>)

  predicate MutexHeld(app: App) {
    app.Holding? || (app.Gone? && app.locked)
  }

  function NewSlave(zero: bytes): Slave {
    Slave(Idle, false, PROT_NONE, zero, false, [], [])
  }

  /** The page is sent home and the local copy given up (unlock_write and the loop of terminate). */
  function Surrender(sl: Slave, rights: int, app: App): Slave {
    sl.(outbox := sl.outbox + [GivePage(rights, sl.data)], uptodate := false, protection := PROT_NONE, app := app)
  }

  // ---------------------------------------------------------------- the whole system

  datatype System = System(
    master: int,                // the master's own descriptor, as it writes it into write_owner
    home: Home,
    draining: bool,             // the master's daemon is inside process_list_requests
    slaves: map<int, Slave>,
    lastWrite: bytes,           // the bytes of the last write sent home
    received: seq<Request>,     // every LOCKPAGE the master has received, in order
    granted: seq<Request>)      // every grant the master has sent, in order

  function InitialHome(master: int, zero: bytes): Home {
    Home(true, PROT_READ_WRITE, master, zero, [], [], false)
  }

  function InitialSystem(master: int, zero: bytes): System {
    System(master, InitialHome(master, zero), false, map[], zero, [], [])
  }

  /** The messages among `posts` addressed to i, in order. */
  function MsgsFor(posts: seq<Post>, i: int): seq<PageMsg> {
    if posts == [] then []
    else (if posts[0].to == i then [posts[0].msg] else []) + MsgsFor(posts[1..], i)
  }

  function Deliver(slaves: map<int, Slave>, posts: seq<Post>): (r: map<int, Slave>)
    ensures r.Keys == slaves.Keys
    ensures forall i :: i in r ==> r[i] == slaves[i].(inbox := slaves[i].inbox + MsgsFor(posts, i))
  {
    map i | i in slaves :: slaves[i].(inbox := slaves[i].inbox + MsgsFor(posts, i))
  }

  datatype Label =
    | Connect(i: int, zero: bytes)
    | LockAgain(i: int)                 // lock_read on a page that is up to date
    | LockAsk(i: int, rights: int)      // lock_page sends LOCKPAGE and waits
    | Wake(i: int)                      // lock_page returns from its wait
    | Store(i: int, data: bytes)
    | Unlock(i: int)
    | Quit(i: int)
    | TakeInvalidate(i: int)
    | SendAck(i: int)
    | TakePage(i: int)
    | MasterTakeLock(i: int)
    | MasterTakeAck(i: int)
    | MasterTakePage(i: int)
    | MasterTurn
    | MasterDone

  predicate DaemonFree(sl: Slave) {
    !sl.acking && !MutexHeld(sl.app) && sl.inbox != []
  }

  predicate MasterMayTake(s: System, i: int) {
    !s.draining && i in s.slaves && s.slaves[i].outbox != []
  }

  predicate Enabled(s: System, l: Label) {
    match l
    case Connect(i, _) => i !in s.slaves && i != s.master
    case LockAgain(i) => i in s.slaves && s.slaves[i].app.Idle? && s.slaves[i].uptodate
    case LockAsk(i, rights) => i in s.slaves && s.slaves[i].app.Idle? && !s.slaves[i].uptodate && LockRights(rights)
    case Wake(i) => i in s.slaves && s.slaves[i].app.Waiting? && s.slaves[i].uptodate
    case Store(i, _) => i in s.slaves && !s.slaves[i].app.Waiting? && CanWrite(s.slaves[i].protection)
    case Unlock(i) => i in s.slaves && s.slaves[i].app.Holding?
    case Quit(i) => i in s.slaves && (s.slaves[i].app.Idle? || s.slaves[i].app.Holding?)
    case TakeInvalidate(i) => i in s.slaves && DaemonFree(s.slaves[i]) && s.slaves[i].inbox[0].Invalidate?
    case SendAck(i) => i in s.slaves && s.slaves[i].acking
    case TakePage(i) => i in s.slaves && DaemonFree(s.slaves[i]) && s.slaves[i].inbox[0].GivePage?
    case MasterTakeLock(i) => MasterMayTake(s, i) && s.slaves[i].outbox[0].LockPage?
    case MasterTakeAck(i) => MasterMayTake(s, i) && s.slaves[i].outbox[0].InvalidateAck?
    case MasterTakePage(i) => MasterMayTake(s, i) && s.slaves[i].outbox[0].GivePage?
    case MasterTurn => s.draining && DrainTurn(s.home).Go?
    case MasterDone => s.draining && DrainTurn(s.home).Stop?
  }

  function Pop(s: System, i: int): map<int, Slave>
    requires i in s.slaves && s.slaves[i].outbox != []
  {
    s.slaves[i := s.slaves[i].(outbox := s.slaves[i].outbox[1..])]
  }

  function AfterUnlock(sl: Slave): Slave
    requires sl.app.Holding?
  {
    if CanWrite(sl.app.rights) then Surrender(sl, sl.protection, Idle) else sl.(app := Idle)
  }

  function AfterQuit(sl: Slave): Slave {
    var app := Gone(sl.app.Holding?);
    if CanWrite(sl.protection) then Surrender(sl, PROT_READ_WRITE, app) else sl.(app := app)
  }

  function AfterTakeInvalidate(sl: Slave): Slave
    requires sl.inbox != []
  {
    sl.(inbox := sl.inbox[1..], uptodate := false, protection := PROT_NONE, acking := true)
  }

  function AfterSendAck(sl: Slave): Slave {
    sl.(acking := false, outbox := sl.outbox + [InvalidateAck])
  }

  function AfterTakePage(sl: Slave): Slave
    requires sl.inbox != [] && sl.inbox[0].GivePage?
  {
    sl.(inbox := sl.inbox[1..], uptodate := true, protection := sl.inbox[0].rights, data := sl.inbox[0].data)
  }

  /** The bytes sent home by a slave that goes from sl to sl'. */
  function Returned(w: bytes, sl: Slave, sl': Slave): bytes {
    if |sl'.outbox| == |sl.outbox| + 1 then sl.data else w
  }

  function After(s: System, l: Label): System
    requires Enabled(s, l)
  {
    match l
    case Connect(i, zero) => s.(slaves := s.slaves[i := NewSlave(zero)])
    case LockAgain(i) => s.(slaves := s.slaves[i := s.slaves[i].(app := Holding(PROT_READ))])
    case LockAsk(i, rights) =>
      s.(slaves := s.slaves[i := s.slaves[i].(app := Waiting(rights), outbox := s.slaves[i].outbox + [LockPage(rights)])])
    case Wake(i) => s.(slaves := s.slaves[i := s.slaves[i].(app := Holding(s.slaves[i].app.rights))])
    case Store(i, data) => s.(slaves := s.slaves[i := s.slaves[i].(data := data)])
    case Unlock(i) =>
      var sl' := AfterUnlock(s.slaves[i]);
      s.(slaves := s.slaves[i := sl'], lastWrite := Returned(s.lastWrite, s.slaves[i], sl'))
    case Quit(i) =>
      var sl' := AfterQuit(s.slaves[i]);
      s.(slaves := s.slaves[i := sl'], lastWrite := Returned(s.lastWrite, s.slaves[i], sl'))
    case TakeInvalidate(i) => s.(slaves := s.slaves[i := AfterTakeInvalidate(s.slaves[i])])
    case SendAck(i) => s.(slaves := s.slaves[i := AfterSendAck(s.slaves[i])])
    case TakePage(i) => s.(slaves := s.slaves[i := AfterTakePage(s.slaves[i])])
    case MasterTakeLock(i) =>
      var rights := s.slaves[i].outbox[0].rights;
      s.(slaves := Pop(s, i), home := QueueRequest(s.home, i, rights), draining := true,
         received := s.received + [Request(i, rights)])
    case MasterTakeAck(i) => s.(slaves := Pop(s, i), home := DropReader(s.home, i), draining := true)
    case MasterTakePage(i) =>
      var m := s.slaves[i].outbox[0];
      s.(slaves := Pop(s, i), home := TakeBack(s.home, s.master, m.rights, m.data), draining := true)
    case MasterTurn =>
      var t := DrainTurn(s.home);
      s.(home := t.home, slaves := Deliver(s.slaves, t.posts), granted := s.granted + Grants(t.posts))
    case MasterDone => s.(draining := false)
  }

  /** A run is a list of labels each enabled when it is taken. */
  predicate CanRun(s: System, run: seq<Label>)
    decreases |run|
  {
    run == [] || (Enabled(s, run[0]) && CanRun(After(s, run[0]), run[1..]))
  }

  function Run(s: System, run: seq<Label>): System
    requires CanRun(s, run)
    decreases |run|
  {
    if run == [] then s else Run(After(s, run[0]), run[1..])
  }
}
