/** The page protocol refines one memory cell behind a readers-writer lock: what the applications of all
    the slaves do and see, with no master, no copies and no messages. */
module OneCell {
  import opened Bytes
  import opened PageProtocol
  import opened PageInvariant

  /** The cell, the writer's bytes not yet published, who holds the lock with which rights, and what each
      application last asked for. */
  datatype Cell = Cell(value: bytes, draft: bytes, holders: map<int, int>, asked: map<int, int>)

  function Release(c: Cell, i: int): Cell {
    if i in c.holders && CanWrite(c.holders[i]) then c.(value := c.draft, holders := c.holders - {i})
    else c.(holders := c.holders - {i})
  }

  /** The cell seen by the applications: only their own steps change it. */
  function CellAfter(c: Cell, l: Label): Cell {
    match l
    case LockAgain(i) => c.(holders := c.holders[i := PROT_READ])
    case LockAsk(i, rights) => c.(asked := c.asked[i := rights])
    case Wake(i) =>
      if i !in c.asked then c
      else if CanWrite(c.asked[i]) then c.(holders := c.holders[i := c.asked[i]], draft := c.value)
      else c.(holders := c.holders[i := c.asked[i]])
    case Store(_, data) => c.(draft := data)
    case Unlock(i) => Release(c, i)
    case Quit(i) => Release(c, i)
    case _ => c
  }

  function CellRun(c: Cell, run: seq<Label>): Cell
    decreases |run|
  {
    if run == [] then c else CellRun(CellAfter(c, run[0]), run[1..])
  }

  /** A writer holds the lock alone. */
  ghost predicate Exclusive(c: Cell) {
    forall i, j :: i in c.holders && j in c.holders && CanWrite(c.holders[i]) ==> i == j
  }

  /** Each lock holder sees the cell: the writer its own draft, a reader the published value. */
  ghost predicate Sees(s: System, c: Cell, i: int)
    requires i in s.slaves && i in c.holders
  {
    s.slaves[i].uptodate && s.slaves[i].data == if CanWrite(c.holders[i]) then c.draft else c.value
  }

  ghost predicate Refines(s: System, c: Cell) {
    && s.lastWrite == c.value
    && (forall i :: i in c.holders ==> i in s.slaves && s.slaves[i].app == Holding(c.holders[i]))
    && (forall i :: i in s.slaves && s.slaves[i].app.Holding? ==> i in c.holders)
    && (forall i :: i in s.slaves && s.slaves[i].app.Waiting? ==> i in c.asked && c.asked[i] == s.slaves[i].app.rights)
    && (forall i :: i in c.holders ==> Sees(s, c, i))
  }

  lemma HolderStage(s: System, i: int)
    requires Inv(s) && i in s.slaves && s.slaves[i].app.Holding?
    ensures s.slaves[i].uptodate
    ensures CanWrite(s.slaves[i].app.rights) <==> StageOf(s.slaves[i]) == Writing
    ensures StageOf(s.slaves[i]) != Writing ==> IsReader(StageOf(s.slaves[i])) && s.slaves[i].data == s.lastWrite
  {
    assert SlaveOk(s.slaves[i], s.home.data, s.lastWrite);
  }

  lemma ExclusiveHolders(s: System, c: Cell)
    requires Inv(s) && Refines(s, c)
    ensures Exclusive(c)
  {
    forall i, j | i in c.holders && j in c.holders && CanWrite(c.holders[i])
      ensures i == j
    {
      HolderStage(s, i);
      HolderStage(s, j);
    }
  }

  lemma LockAgainRefines(s: System, c: Cell, i: int)
    requires Inv(s) && Refines(s, c) && Enabled(s, LockAgain(i))
    ensures Refines(After(s, LockAgain(i)), CellAfter(c, LockAgain(i)))
  {
    assert SlaveOk(s.slaves[i], s.home.data, s.lastWrite);
    forall j | j in c.holders
      ensures Sees(After(s, LockAgain(i)), CellAfter(c, LockAgain(i)), j)
    {
      assert Sees(s, c, j);
    }
  }

  lemma LockAskRefines(s: System, c: Cell, i: int, rights: int)
    requires Refines(s, c) && Enabled(s, LockAsk(i, rights))
    ensures Refines(After(s, LockAsk(i, rights)), CellAfter(c, LockAsk(i, rights)))
  {
    forall j | j in c.holders
      ensures Sees(After(s, LockAsk(i, rights)), CellAfter(c, LockAsk(i, rights)), j)
    {
      assert Sees(s, c, j);
    }
  }

  lemma WakeRefines(s: System, c: Cell, i: int)
    requires Inv(s) && Refines(s, c) && Enabled(s, Wake(i))
    ensures Refines(After(s, Wake(i)), CellAfter(c, Wake(i)))
  {
    var s' := After(s, Wake(i));
    var c' := CellAfter(c, Wake(i));
    assert SlaveOk(s.slaves[i], s.home.data, s.lastWrite);
    forall j | j in c'.holders
      ensures Sees(s', c', j)
    {
      if j != i {
        assert Sees(s, c, j);
        HolderStage(s, j);
        ExclusiveHolders(s, c);
      }
    }
  }

  lemma StoreRefines(s: System, c: Cell, i: int, data: bytes)
    requires Inv(s) && Refines(s, c) && Enabled(s, Store(i, data))
    ensures Refines(After(s, Store(i, data)), CellAfter(c, Store(i, data)))
  {
    var s' := After(s, Store(i, data));
    var c' := CellAfter(c, Store(i, data));
    assert SlaveOk(s.slaves[i], s.home.data, s.lastWrite);
    ExclusiveHolders(s, c);
    forall j | j in c'.holders
      ensures Sees(s', c', j)
    {
      assert Sees(s, c, j);
    }
  }

  /** The writer publishes its draft; nobody else holds the lock. */
  lemma PublishRefines(s: System, c: Cell, i: int, rights: int, app: App)
    requires Inv(s) && Refines(s, c) && i in c.holders && CanWrite(c.holders[i])
    requires app.Idle? || app.Gone?
    ensures Refines(s.(slaves := s.slaves[i := Surrender(s.slaves[i], rights, app)], lastWrite := s.slaves[i].data), Release(c, i))
  {
    ExclusiveHolders(s, c);
    assert Sees(s, c, i);
  }

  /** A reader leaves. */
  lemma LeaveRefines(s: System, c: Cell, i: int, app: App)
    requires Refines(s, c) && i in s.slaves && (i in c.holders ==> !CanWrite(c.holders[i]))
    requires app.Idle? || app.Gone?
    ensures Refines(s.(slaves := s.slaves[i := s.slaves[i].(app := app)]), Release(c, i))
  {
    var s' := s.(slaves := s.slaves[i := s.slaves[i].(app := app)]);
    forall j | j in Release(c, i).holders
      ensures Sees(s', Release(c, i), j)
    {
      assert Sees(s, c, j);
    }
  }

  lemma HolderWrites(s: System, c: Cell, i: int)
    requires Inv(s) && Refines(s, c) && i in s.slaves && !s.slaves[i].app.Waiting?
    ensures i in c.holders && CanWrite(c.holders[i]) <==> CanWrite(s.slaves[i].protection)
    ensures i in c.holders && CanWrite(c.holders[i]) ==> s.slaves[i].protection == PROT_READ_WRITE
    ensures i in c.holders <==> s.slaves[i].app.Holding?
    ensures i in c.holders ==> s.slaves[i].app.rights == c.holders[i]
  {
    assert SlaveOk(s.slaves[i], s.home.data, s.lastWrite);
  }

  lemma UnlockRefines(s: System, c: Cell, i: int)
    requires Inv(s) && Refines(s, c) && Enabled(s, Unlock(i))
    ensures Refines(After(s, Unlock(i)), CellAfter(c, Unlock(i)))
  {
    HolderWrites(s, c, i);
    if CanWrite(c.holders[i]) {
      PublishRefines(s, c, i, PROT_READ_WRITE, Idle);
    } else {
      LeaveRefines(s, c, i, Idle);
    }
  }

  lemma QuitRefines(s: System, c: Cell, i: int)
    requires Inv(s) && Refines(s, c) && Enabled(s, Quit(i))
    ensures Refines(After(s, Quit(i)), CellAfter(c, Quit(i)))
  {
    HolderWrites(s, c, i);
    if CanWrite(s.slaves[i].protection) {
      PublishRefines(s, c, i, PROT_READ_WRITE, Gone(s.slaves[i].app.Holding?));
    } else {
      LeaveRefines(s, c, i, Gone(s.slaves[i].app.Holding?));
    }
  }

  lemma ReleaseRefines(s: System, c: Cell, i: int, l: Label)
    requires Inv(s) && Refines(s, c) && (l == Unlock(i) || l == Quit(i)) && Enabled(s, l)
    ensures Refines(After(s, l), CellAfter(c, l))
  {
    if l.Unlock? { UnlockRefines(s, c, i); } else { QuitRefines(s, c, i); }
  }

  /** s' differs from s in nothing the applications can see. */
  ghost predicate Silent(s: System, s': System) {
    && s'.lastWrite == s.lastWrite
    && (forall i :: i in s.slaves ==> i in s'.slaves && s'.slaves[i].app == s.slaves[i].app)
    && (forall i :: i in s.slaves && s.slaves[i].app.Holding? ==>
          s'.slaves[i].data == s.slaves[i].data && s'.slaves[i].uptodate == s.slaves[i].uptodate)
    && (forall i :: i in s'.slaves && i !in s.slaves ==> s'.slaves[i].app.Idle?)
  }

  predicate OfDaemon(l: Label) {
    !(l.LockAgain? || l.LockAsk? || l.Wake? || l.Store? || l.Unlock? || l.Quit?)
  }

  /** The daemons touch no copy while an application holds the lock on it. */
  lemma DaemonsAreSilent(s: System, l: Label)
    requires Enabled(s, l) && OfDaemon(l)
    ensures Silent(s, After(s, l))
  {
  }

  lemma SilentRefines(s: System, c: Cell, s': System)
    requires Refines(s, c) && Silent(s, s')
    ensures Refines(s', c)
  {
    forall j | j in c.holders
      ensures Sees(s', c, j)
    {
      assert Sees(s, c, j);
    }
  }

  lemma StepRefines(s: System, c: Cell, l: Label)
    requires Inv(s) && Refines(s, c) && Enabled(s, l)
    ensures Refines(After(s, l), CellAfter(c, l))
  {
    match l
    case LockAgain(i) => LockAgainRefines(s, c, i);
    case LockAsk(i, rights) => LockAskRefines(s, c, i, rights);
    case Wake(i) => WakeRefines(s, c, i);
    case Store(i, data) => StoreRefines(s, c, i, data);
    case Unlock(i) => ReleaseRefines(s, c, i, l);
    case Quit(i) => ReleaseRefines(s, c, i, l);
    case _ =>
      DaemonsAreSilent(s, l);
      SilentRefines(s, c, After(s, l));
  }

  lemma {:induction false} RunRefines(s: System, c: Cell, run: seq<Label>)
    requires Inv(s) && Refines(s, c) && CanRun(s, run)
    ensures Inv(Run(s, run)) && Refines(Run(s, run), CellRun(c, run))
    decreases |run|
  {
    if run != [] {
      StepKeepsInv(s, run[0]);
      StepRefines(s, c, run[0]);
      RunRefines(After(s, run[0]), CellAfter(c, run[0]), run[1..]);
    }
  }

  /** After any run, the applications that hold the lock hold it as on the cell, alone if they write, and
      what they see in their copies is what the cell shows them. */
  lemma BehavesLikeOneCell(master: int, zero: bytes, run: seq<Label>)
    requires CanRun(InitialSystem(master, zero), run)
    ensures var s := Run(InitialSystem(master, zero), run);
            var c := CellRun(Cell(zero, zero, map[], map[]), run);
            && Exclusive(c)
            && (forall i :: i in c.holders <==> i in s.slaves && s.slaves[i].app.Holding?)
            && (forall i :: i in c.holders ==> s.slaves[i].app.rights == c.holders[i] && Sees(s, c, i))
  {
    InitialInv(master, zero);
    RunRefines(InitialSystem(master, zero), Cell(zero, zero, map[], map[]), run);
    ExclusiveHolders(Run(InitialSystem(master, zero), run), CellRun(Cell(zero, zero, map[], map[]), run));
  }
}
