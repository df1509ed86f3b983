/** The master's barrier: callers wait in a list until enough have arrived, then all are let go. */
module Barrier {
  import opened LinkedList

  datatype Arrival = Arrival(from: int, slaveToWait: nat)

  datatype Barrier = Barrier(waiters: seq<int>, acks: seq<int>)

  /** One SYNC_BARRIER message: either everybody goes, waiters first, or the caller joins the waiters. */
  function Arrive(b: Barrier, a: Arrival): Barrier {
    if |b.waiters| + 1 >= a.slaveToWait then Barrier([], b.acks + (b.waiters + [a.from]))
    else b.(waiters := b.waiters + [a.from])
  }

  /** After an arrival nobody waits, or fewer than the caller asked for; and those waiting before are let go, with
      the caller, exactly when with it they are as many as it asked for. */
  lemma EnoughOpen(b: Barrier, a: Arrival)
    ensures var b' := Arrive(b, a);
            && (b'.waiters == [] || |b'.waiters| < a.slaveToWait)
            && (b'.waiters == [] <==> |b.waiters| + 1 >= a.slaveToWait)
            && (b'.waiters == [] ==> b'.acks == b.acks + b.waiters + [a.from])
            && (b'.waiters != [] ==> b'.acks == b.acks)
  {
    assert b.acks + (b.waiters + [a.from]) == b.acks + b.waiters + [a.from];
  }

  function Arrivals(b: Barrier, run: seq<Arrival>): Barrier
    decreases |run|
  {
    if run == [] then b else Arrivals(Arrive(b, run[0]), run[1..])
  }

  function Callers(run: seq<Arrival>): seq<int> {
    seq(|run|, k requires 0 <= k < |run| => run[k].from)
  }

  /** Nobody is lost, let go twice, or overtaken: those let go followed by those waiting are those who came,
      in order, whatever number each asked to wait for. */
  lemma {:induction false} Conservation(b: Barrier, run: seq<Arrival>)
    ensures var b' := Arrivals(b, run);
            b'.acks + b'.waiters == b.acks + b.waiters + Callers(run)
    decreases |run|
  {
    if run == [] {
      assert Callers(run) == [];
    } else {
      Conservation(Arrive(b, run[0]), run[1..]);
      assert Callers(run) == [run[0].from] + Callers(run[1..]);
    }
  }

  /** All callers ask for n: at every moment fewer than n wait, and the barrier opens for exactly n callers
      at a time, as often as n arrivals have been completed. */
  lemma {:induction false} Batches(b: Barrier, run: seq<Arrival>, n: nat, rounds: nat) returns (rounds': nat)
    requires n >= 1 && |b.waiters| < n && |b.acks| == rounds * n
    requires forall k :: 0 <= k < |run| ==> run[k].slaveToWait == n
    ensures var b' := Arrivals(b, run);
            && |b'.waiters| < n && |b'.acks| == rounds' * n
            && |b'.acks| + |b'.waiters| == |b.acks| + |b.waiters| + |run|
    decreases |run|
  {
    if run == [] {
      rounds' := rounds;
    } else {
      var b1 := Arrive(b, run[0]);
      var now := if |b1.acks| == |b.acks| then rounds else rounds + 1;
      assert |b1.acks| == now * n;
      rounds' := Batches(b1, run[1..], n, now);
    }
  }

  /** From the empty barrier the callers go in consecutive groups of n: those let go are the first
      n * rounds, those waiting came after, and there are fewer than n of them. */
  lemma BatchesFromStart(run: seq<Arrival>, n: nat) returns (rounds: nat)
    requires n >= 1 && forall k :: 0 <= k < |run| ==> run[k].slaveToWait == n
    ensures var b := Arrivals(Barrier([], []), run);
            && rounds * n <= |run| < rounds * n + n
            && b.acks == Callers(run)[..rounds * n]
            && b.waiters == Callers(run)[rounds * n..]
  {
    Conservation(Barrier([], []), run);
    rounds := Batches(Barrier([], []), run, n, 0);
    var b := Arrivals(Barrier([], []), run);
    assert Callers(run) == b.acks + b.waiters;
  }

  class BarrierMaster {
    const waiters: List<int>                // sync_barrier_waiters
    var acks: seq<int>                      // the receivers of the BARRIER_ACKs sent, in order

    ghost predicate Valid()
      reads this, waiters, waiters.repr
    {
      waiters.Valid() && waiters.TailInPlace() && this !in waiters.repr && waiters as object !in waiters.repr
    }

    ghost function View(): Barrier
      reads this, waiters, waiters.nodes
    {
      Barrier(waiters.Contents(), acks)
    }

    constructor ()
      ensures Valid() && View() == Barrier([], [])
    {
      waiters := new List();
      acks := [];
    }

    /** handle_sync_barrier_msg at the master. */
    method HandleSyncBarrier(from: int, slaveToWait: nat)
      requires Valid()
      modifies this, waiters, waiters.repr
      ensures Valid() && fresh(waiters.repr - old(waiters.repr))
      ensures View() == Arrive(old(View()), Arrival(from, slaveToWait))
    {
      var waiterNode := waiters.head;
      if waiters.length + 1 >= slaveToWait {
        ghost var k := 0;
        while waiterNode != null
          invariant 0 <= k <= |waiters.nodes|
          invariant waiterNode == if k < |waiters.nodes| then waiters.nodes[k] else null
          invariant acks == old(acks) + waiters.Contents()[..k]
          decreases |waiters.nodes| - k
          modifies this
        {
          assert waiterNode == waiters.nodes[k];
          acks := acks + [waiterNode.data];
          waiterNode := waiterNode.next;
          k := k + 1;
        }
        acks := acks + [from];
        waiters.Destroy();
      } else {
        waiters.Add(from);
      }
    }
  }
}
