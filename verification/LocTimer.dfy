/** The sequential parts of the timer service: how timers rank, when a started timer is due, and
    what handling an expiry does to the heap. */
module LocTimer {
  import opened HeapTree
  import opened LocHeap
  import opened Options

  const TWO31 := 0x8000_0000
  const TWO32 := 0x1_0000_0000
  const NANOS := 1_000_000_000

  /** A `struct timespec`. */
  datatype TimeSpec = TimeSpec(sec: int, nsec: int)

  /** Boot times: normalised, and with second differences that fit in an `int`. */
  type Time = t: TimeSpec | 0 <= t.sec < TWO31 && 0 <= t.nsec < NANOS witness TimeSpec(0, 0)

  /** A started timer: its identity and the time it is due. */
  datatype TimerDelegate = TimerDelegate(id: nat, futureTime: Time)

  // ---------- ranking ----------

  /** Conversion to a 32-bit `int`. */
  function Int32(x: int): int {
    (x + TWO31) % TWO32 - TWO31
  }

  function RanksTime(mine: TimeSpec, other: TimeSpec): int {
    var rank := Int32(other.sec - mine.sec);
    if rank == 0 then Int32(other.nsec - mine.nsec) else rank
  }

  predicate OutRanks(x: TimerDelegate, y: TimerDelegate) {
    RanksTime(x.futureTime, y.futureTime) > 0
  }

  predicate Earlier(a: TimeSpec, b: TimeSpec) {
    a.sec < b.sec || (a.sec == b.sec && a.nsec < b.nsec)
  }

  /** When the ranking is "due earlier", for seconds of any width: the difference modulo 2^32 must have
      the sign of the difference, or be zero and leave it to the nanoseconds.  For differences below 2^32
      that means that they fit in an `int`. */
  lemma RanksEarlierIffFits(a: TimeSpec, b: TimeSpec)
    requires 0 <= a.nsec < NANOS && 0 <= b.nsec < NANOS
    ensures var d := b.sec - a.sec;
            var low := d % TWO32;
            && ((RanksTime(a, b) > 0 <==> Earlier(a, b)) <==>
                  d == 0 || if low == 0 then d > 0 <==> a.nsec < b.nsec else d > 0 <==> low < TWO31)
            && (-TWO32 < d < TWO32 ==>
                  ((RanksTime(a, b) > 0 <==> Earlier(a, b)) <==> -TWO31 <= d < TWO31))
  {
    var d := b.sec - a.sec;
    Int32Low(d);
    assert Int32(b.nsec - a.nsec) == b.nsec - a.nsec;
  }

  lemma Int32Low(d: int)
    ensures var low := d % TWO32; Int32(d) == if low < TWO31 then low else low - TWO32
    ensures 0 <= d < TWO32 ==> d % TWO32 == d
    ensures -TWO32 <= d < 0 ==> d % TWO32 == d + TWO32
  {
    var low := d % TWO32;
    assert d + TWO31 == (d / TWO32) * TWO32 + (low + TWO31);
    if low < TWO31 {
      Remainder(d / TWO32, low + TWO31);
    } else {
      Remainder(d / TWO32 + 1, low - TWO31);
    }
  }

  lemma Remainder(q: int, r: int)
    requires 0 <= r < TWO32
    ensures (q * TWO32 + r) % TWO32 == r
  {
  }

  /** Out of that range the ranking is not even a preorder: three times each out-rank the next. */
  lemma RanksCycleBeyondInt()
    ensures var a, b, c := TimeSpec(0, 0), TimeSpec(0x6000_0000, 0), TimeSpec(0xC000_0000, 0);
            RanksTime(a, b) > 0 && RanksTime(b, c) > 0 && RanksTime(c, a) > 0
  {
  }

  lemma OutRanksIsEarlier(x: TimerDelegate, y: TimerDelegate)
    ensures OutRanks(x, y) <==> Earlier(x.futureTime, y.futureTime)
  {
    RanksEarlierIffFits(x.futureTime, y.futureTime);
  }

  lemma TimersArePreordered()
    ensures TotalPreorder(OutRanks)
  {
    forall x, y | OutRanks(x, y) ensures !OutRanks(y, x) {
      OutRanksIsEarlier(x, y);
      OutRanksIsEarlier(y, x);
    }
    forall x, y, z | OutRanks(x, z) ensures OutRanks(x, y) || OutRanks(y, z) {
      OutRanksIsEarlier(x, y);
      OutRanksIsEarlier(y, z);
      OutRanksIsEarlier(x, z);
    }
  }

  // ---------- starting ----------

  function Nanos(t: TimeSpec): int {
    t.sec * NANOS + t.nsec
  }

  /** The time a timer started now is due: normalised, and exactly the delay later. */
  function FutureTime(now: TimeSpec, timeOutInMs: nat): (t: TimeSpec)
    requires 0 <= now.nsec < NANOS
    ensures 0 <= t.nsec < NANOS
    ensures Nanos(t) == Nanos(now) + timeOutInMs * 1_000_000
  {
    var sec, nsec := now.sec + timeOutInMs / 1000, now.nsec + (timeOutInMs % 1000) * 1_000_000;
    if nsec >= NANOS then TimeSpec(sec + nsec / NANOS, nsec % NANOS) else TimeSpec(sec, nsec)
  }

  // ---------- expiring ----------

  predicate Due(timer: TimerDelegate, now: Time) {
    !Earlier(now, timer.futureTime)
  }

  /** Everything still in the heap is strictly later than `now`. */
  ghost predicate NoneDue(rest: multiset<TimerDelegate>, now: Time) {
    forall y :: y in rest ==> !Due(y, now)
  }

  /** Pops the top unless `now` out-ranks it. */
  method PopIfOutRanks(heap: LocHeap<TimerDelegate>, now: Time) returns (popped: Option<TimerDelegate>)
    requires heap.Valid() && heap.outRanks == OutRanks
    modifies heap.Repr
    ensures heap.Valid() && heap.Repr <= old(heap.Repr)
    ensures popped.Some? ==> Due(popped.value, now)
    ensures popped.Some? ==> old(heap.Contents()) == heap.Contents() + multiset{popped.value}
    ensures popped.Some? ==> forall y :: y in heap.Contents() ==> !OutRanks(y, popped.value)
    ensures popped.None? ==> heap.Contents() == old(heap.Contents())
    ensures popped.None? ==> NoneDue(heap.Contents(), now)
  {
    popped := None;
    var top := heap.Peek();
    if top.Some? {
      OutRanksIsEarlier(TimerDelegate(0, now), top.value);
      if !OutRanks(TimerDelegate(0, now), top.value) {
        popped := heap.Pop();
      } else {
        forall y | y in heap.Contents() ensures !Due(y, now) {
          OutRanksIsEarlier(y, top.value);
        }
      }
    }
  }

  ghost predicate InTimeOrder(fired: seq<TimerDelegate>) {
    forall i, j :: 0 <= i < j < |fired| ==> !Earlier(fired[j].futureTime, fired[i].futureTime)
  }

  /** Every timer but the first is due. */
  ghost predicate DueAfterFirst(taken: seq<TimerDelegate>, now: Time) {
    forall i :: 1 <= i < |taken| ==> Due(taken[i], now)
  }

  ghost predicate AllDue(taken: seq<TimerDelegate>, now: Time) {
    forall i :: 0 <= i < |taken| ==> Due(taken[i], now)
  }

  ghost predicate SomeDue(all: multiset<TimerDelegate>, now: Time) {
    exists y :: y in all && Due(y, now)
  }

  lemma DueAppend(taken: seq<TimerDelegate>, next: TimerDelegate, now: Time)
    requires DueAfterFirst(taken, now) && (taken == [] || Due(next, now))
    ensures DueAfterFirst(taken + [next], now)
  {
  }

  /** No timer of `rest` out-ranks one of `taken`. */
  ghost predicate NoneAhead(rest: multiset<TimerDelegate>, taken: seq<TimerDelegate>) {
    forall y, i :: y in rest && 0 <= i < |taken| ==> !OutRanks(y, taken[i])
  }

  lemma TakeNext(taken: seq<TimerDelegate>, next: TimerDelegate, before: multiset<TimerDelegate>,
                 after: multiset<TimerDelegate>)
    requires Descending(taken, OutRanks) && NoneAhead(before, taken)
    requires before == after + multiset{next} && forall y :: y in after ==> !OutRanks(y, next)
    ensures Descending(taken + [next], OutRanks) && NoneAhead(after, taken + [next])
    ensures multiset(taken + [next]) + after == multiset(taken) + before
  {
    forall i | 0 <= i < |taken| ensures !OutRanks(next, taken[i]) { assert next in before; }
    forall y, i | y in after && 0 <= i < |taken| + 1 ensures !OutRanks(y, (taken + [next])[i]) {
      assert y in before;
    }
  }

  lemma TakenInOrder(taken: seq<TimerDelegate>, rest: multiset<TimerDelegate>)
    requires Descending(taken, OutRanks) && NoneAhead(rest, taken)
    ensures InTimeOrder(taken)
    ensures taken != [] ==> forall y :: y in multiset(taken) + rest ==>
              !Earlier(y.futureTime, taken[0].futureTime)
  {
    forall i, j | 0 <= i < j < |taken| ensures !Earlier(taken[j].futureTime, taken[i].futureTime) {
      OutRanksIsEarlier(taken[j], taken[i]);
    }
    forall y | taken != [] && y in multiset(taken) + rest
      ensures !Earlier(y.futureTime, taken[0].futureTime)
    {
      OutRanksIsEarlier(y, taken[0]);
    }
  }

  /** Handling `MsgTimerExpire`: the first timer is popped whatever its time, then every due one.
      Timers fire in time order starting with the earliest of all, nothing due stays behind and
      nothing is lost.  All of them are due if and only if the heap was empty or held one that is. */
  method HandleExpire(heap: LocHeap<TimerDelegate>, now: Time) returns (fired: seq<TimerDelegate>)
    requires heap.Valid() && heap.outRanks == OutRanks
    modifies heap.Repr
    ensures heap.Valid()
    ensures multiset(fired) + heap.Contents() == old(heap.Contents())
    ensures InTimeOrder(fired)
    ensures fired == [] <==> old(heap.Contents()) == multiset{}
    ensures fired != [] ==> forall y :: y in old(heap.Contents()) ==>
              !Earlier(y.futureTime, fired[0].futureTime)
    ensures DueAfterFirst(fired, now)
    ensures AllDue(fired, now) <==> old(heap.Contents()) == multiset{} || SomeDue(old(heap.Contents()), now)
    ensures NoneDue(heap.Contents(), now)
  {
    hide *;
    ghost var all := heap.Contents();
    ghost var taken: seq<TimerDelegate> := [];
    NothingTaken(all, now);
    fired := [];
    var timer := heap.Pop();
    if timer.Some? {
      TakeNext(taken, timer.value, all, heap.Contents());
      DueAppend(taken, timer.value, now);
      taken := taken + [timer.value];
    }
    while timer.Some?
      invariant heap.Valid() && heap.outRanks == OutRanks && heap.Repr <= old(heap.Repr)
      invariant taken == if timer.Some? then fired + [timer.value] else fired
      invariant multiset(taken) + heap.Contents() == all
      invariant Descending(taken, OutRanks) && NoneAhead(heap.Contents(), taken)
      invariant DueAfterFirst(taken, now)
      invariant timer.None? ==> NoneDue(heap.Contents(), now)
      invariant taken == [] ==> all == multiset{}
      decreases |heap.Contents()|, timer.Some?
    {
      ghost var before := heap.Contents();
      fired := fired + [timer.value];
      timer := PopIfOutRanks(heap, now);
      if timer.Some? {
        TakeNext(taken, timer.value, before, heap.Contents());
        DueAppend(taken, timer.value, now);
        taken := taken + [timer.value];
      }
    }
    TakenInOrder(taken, heap.Contents());
    AllDueIffSomeDue(taken, heap.Contents(), now);
  }

  /** All that was taken is due exactly if nothing was there or something there was due. */
  lemma AllDueIffSomeDue(taken: seq<TimerDelegate>, rest: multiset<TimerDelegate>, now: Time)
    requires DueAfterFirst(taken, now) && NoneDue(rest, now)
    requires taken == [] ==> multiset(taken) + rest == multiset{}
    requires taken != [] ==> forall y :: y in multiset(taken) + rest ==> !Earlier(y.futureTime, taken[0].futureTime)
    ensures var all := multiset(taken) + rest; AllDue(taken, now) <==> all == multiset{} || SomeDue(all, now)
  {
    var all := multiset(taken) + rest;
    if taken != [] {
      assert taken[0] in all;
    }
  }

  lemma NothingTaken(all: multiset<TimerDelegate>, now: Time)
    ensures Descending<TimerDelegate>([], OutRanks) && NoneAhead(all, [])
    ensures DueAfterFirst([], now) && NoneDue(multiset{}, now)
  {
  }
}
