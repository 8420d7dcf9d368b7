/** The offline ACPI host: a charge-accounted allocator and a bounded ring of deferred work drained in order. */
module OfflineHost {

  const WORD: nat := 0x1_0000_0000_0000_0000
  const MAX_BYTES: nat := 4 * 1024 * 1024
  /** `sizeof(union allocation_header)`, the x86-64 size of `max_align_t`. */
  const HEADER: nat := 32
  const WORK_SIZE: nat := 24
  const SLOTS: nat := 128
  const LIFETIME: nat := 4096

  /** `size_t` arithmetic, wrap-around included. */
  function Plus(a: nat, b: nat): nat { (a + b) % WORD }

  function Minus(a: nat, b: nat): nat
    requires a < WORD && b < WORD
  {
    (a + WORD - b) % WORD
  }

  lemma PlusExact(a: nat, b: nat)
    requires a + b < WORD
    ensures Plus(a, b) == a + b
  {}

  lemma MinusExact(a: nat, b: nat)
    requires b <= a < WORD
    ensures Minus(a, b) == a - b
  {
    assert a + WORD - b == (a - b) + WORD;
  }

  /** A deferred call: handler (0 is the null pointer) and its context. */
  datatype Job = Job(fn: nat, context: nat)

  datatype Payload = Bytes | Work(job: Job, pending: bool)

  /** A heap block behind its header; the header's charge never changes. */
  class Block {
    const charged: nat
    var payload: Payload
    /** What it was allocated as. */
    ghost const work: bool

    constructor (charged: nat, payload: Payload)
      ensures this.charged == charged && this.payload == payload && work == payload.Work?
    {
      this.charged := charged;
      this.payload := payload;
      work := payload.Work?;
    }
  }

  // ------------------------------------------------------------------ charges

  ghost function Charges(s: set<Block>): nat {
    if s == {} then 0 else var b :| b in s; b.charged + Charges(s - {b})
  }

  lemma {:induction false} ChargesWithout(s: set<Block>, b: Block)
    requires b in s
    ensures Charges(s) == b.charged + Charges(s - {b})
  {
    var c :| c in s && Charges(s) == c.charged + Charges(s - {c});
    if c != b {
      ChargesWithout(s - {c}, b);
      ChargesWithout(s - {b}, c);
      assert s - {c} - {b} == s - {b} - {c};
    }
  }

  lemma ChargesWith(s: set<Block>, b: Block)
    requires b !in s
    ensures Charges(s + {b}) == Charges(s) + b.charged
  {
    ChargesWithout(s + {b}, b);
    assert s + {b} - {b} == s;
  }

  /** The counter is zero exactly when every block has been freed. */
  lemma ZeroIffFreed(s: set<Block>)
    requires forall b <- s :: b.charged > 0
    ensures Charges(s) == 0 <==> s == {}
  {
    if s != {} {
      var b :| b in s;
      ChargesWithout(s, b);
    }
  }

  // --------------------------------------------------------------------- ring

  function Slot(head: nat, i: nat): (at: nat)
    ensures at < SLOTS
  {
    (head + i) % SLOTS
  }

  lemma SlotValue(head: nat, i: nat)
    requires head < SLOTS && i <= SLOTS
    ensures Slot(head, i) == if head + i < SLOTS then head + i else head + i - SLOTS
  {}

  /** A ring of slots read as a FIFO queue. */
  ghost function Fifo<T>(slots: seq<T>, head: nat, count: nat): (q: seq<T>)
    requires |slots| == SLOTS
    ensures |q| == count && forall i :: 0 <= i < count ==> q[i] == slots[Slot(head, i)]
  {
    seq(count, i requires 0 <= i => slots[Slot(head, i)])
  }

  lemma FifoPush<T>(slots: seq<T>, head: nat, count: nat, x: T)
    requires |slots| == SLOTS && head < SLOTS && count < SLOTS
    ensures Fifo(slots[Slot(head, count) := x], head, count + 1) == Fifo(slots, head, count) + [x]
  {
    SlotValue(head, count);
    forall i | 0 <= i < count ensures Slot(head, i) != Slot(head, count) { SlotValue(head, i); }
  }

  lemma FrontMoves<T>(done: seq<T>, x: T, rest: seq<T>)
    ensures done + ([x] + rest) == done + [x] + rest
  {}

  lemma FifoPop<T>(slots: seq<T>, head: nat, count: nat)
    requires |slots| == SLOTS && head < SLOTS && 0 < count <= SLOTS
    ensures Fifo(slots, Slot(head, 1), count - 1) == Fifo(slots, head, count)[1..]
    ensures Fifo(slots, head, count)[0] == slots[head]
  {
    hide Slot;
    var h := Slot(head, 1);
    SlotValue(head, 0);
    SlotValue(head, 1);
    forall i | 0 <= i < count - 1 ensures Slot(h, i) == Slot(head, i + 1) { SlotValue(h, i); SlotValue(head, i + 1); }
  }

  // --------------------------------------------------------------------- host

  ghost function JobOf(b: Block?): Job
    reads b
  {
    if b != null && b.payload.Work? then b.payload.job else Job(0, 0)
  }

  ghost function Jobs(q: seq<Block?>): (js: seq<Job>)
    reads q
    ensures |js| == |q| && forall i :: 0 <= i < |q| ==> js[i] == JobOf(q[i])
  {
    seq(|q|, i requires 0 <= i < |q| reads q => JobOf(q[i]))
  }

  ghost function Pending(live: set<Block>): set<Block>
    reads live
  {
    set b | b in live && b.payload.Work? && b.payload.pending
  }

  /** `q` lists exactly the blocks of `p`, each once. */
  ghost predicate Lists(q: seq<Block?>, p: set<Block>) {
    if q == [] then p == {} else q[0] != null && q[0] in p && Lists(q[1..], p - {q[0]})
  }

  lemma {:induction false} ListsMembers(q: seq<Block?>, p: set<Block>)
    requires Lists(q, p)
    ensures forall b :: b in q <==> b != null && b in p
    ensures forall i, j :: 0 <= i < j < |q| ==> q[i] != q[j]
  {
    if q != [] {
      ListsMembers(q[1..], p - {q[0]});
      assert q == [q[0]] + q[1..];
      forall i, j | 0 <= i < j < |q| ensures q[i] != q[j] { assert q[j] in q[1..]; }
    }
  }

  lemma {:induction false} ListsPush(q: seq<Block?>, p: set<Block>, w: Block)
    requires Lists(q, p) && w !in p
    ensures Lists(q + [w], p + {w})
  {
    if q == [] {
      assert (q + [w])[1..] == [] && p + {w} - {w} == {};
    } else {
      ListsPush(q[1..], p - {q[0]}, w);
      assert (q + [w])[1..] == q[1..] + [w];
      assert p + {w} - {q[0]} == p - {q[0]} + {w};
    }
  }

  lemma ListsPop(q: seq<Block?>, p: set<Block>)
    requires Lists(q, p) && q != []
    ensures q[0] != null && q[0] in p && Lists(q[1..], p - {q[0]}) && q[0] !in q[1..]
  {
    ListsMembers(q[1..], p - {q[0]});
  }

  ghost predicate Apart(hs: seq<Block>) { forall i, j :: 0 <= i < j < |hs| ==> hs[i] != hs[j] }

  /** After the first `done` items come exactly those of the queue, by name. */
  ghost predicate Tagged(q: seq<Block?>, hs: seq<Block>, items: seq<nat>, done: nat) {
    |items| == done + |q| && forall i :: done <= i < |items| ==> items[i] < |hs| && hs[items[i]] == q[i - done]
  }

  lemma TaggedPush(q: seq<Block?>, hs: seq<Block>, items: seq<nat>, done: nat, w: Block, name: nat)
    requires Tagged(q, hs, items, done) && name < |hs| && hs[name] == w
    ensures Tagged(q + [w], hs, items + [name], done)
  {}

  lemma TaggedPop(q: seq<Block?>, hs: seq<Block>, items: seq<nat>, done: nat)
    requires Tagged(q, hs, items, done) && q != []
    ensures Tagged(q[1..], hs, items, done + 1)
  {}

  lemma TaggedMore(q: seq<Block?>, hs: seq<Block>, items: seq<nat>, done: nat, b: Block)
    requires Tagged(q, hs, items, done)
    ensures Tagged(q, hs + [b], items, done)
  {}

  class Host {
    var allocationBytes: nat
    var live: set<Block>
    const ring: array<Block?>
    var head: nat
    var count: nat
    var total: nat
    var permitWork: bool
    /** Pointers handed out and handler calls made, by which a script names them. */
    var handles: seq<Block>
    var calls: nat
    /** Every call ever scheduled, and every call ever made, in order. */
    ghost var scheduled: seq<Job>
    ghost var executed: seq<Job>
    /** Of every call ever scheduled, the name of its work item. */
    ghost var items: seq<nat>
    /** Every call that a handler made into the host and that went through. */
    ghost var log: seq<Deed>

    ghost predicate Accounted()
      reads this`allocationBytes, this`live
    {
      && allocationBytes == Charges(live) <= MAX_BYTES
      && forall b <- live :: HEADER < b.charged <= MAX_BYTES
    }

    ghost function Queue(): seq<Block?>
      requires ring.Length == SLOTS
      reads this`head, this`count, ring
    {
      Fifo(ring[..], head, count)
    }

    /** Queued exactly when pending, never twice, and never freed while queued. */
    ghost predicate Ringed()
      reads this`head, this`count, this`live, ring, live
    {
      && ring.Length == SLOTS && head < SLOTS && count <= SLOTS
      && Lists(Queue(), Pending(live))
      && forall i :: 0 <= i < count ==> Queue()[i] in live
    }

    /** Calls run in the order they were scheduled, with the handler and context they were scheduled with. */
    ghost predicate Ordered()
      requires Ringed()
      reads this`head, this`count, this`live, this`calls, this`scheduled, this`executed, ring, live
    {
      |scheduled| <= LIFETIME && scheduled == executed + Jobs(Queue()) && calls == |executed|
    }

    /** Every live block has one name and is still what it was allocated as. */
    ghost predicate Named()
      reads this`handles, this`live, live
    {
      Apart(handles) && forall b <- live :: b in handles && (b.payload.Work? <==> b.work)
    }

    /** The items still queued are the last ones scheduled. */
    ghost predicate Itemized()
      requires ring.Length == SLOTS
      reads this`head, this`count, this`executed, this`handles, this`items, ring
    {
      Tagged(Queue(), handles, items, |executed|)
    }

    /** What holds at every point, also where a fatal error ends the run. */
    ghost predicate Consistent()
      reads this`allocationBytes, this`head, this`count, this`live, this`calls, this`scheduled, this`executed
      reads this`handles, this`items, ring, live
    {
      Accounted() && Ringed() && Ordered() && Named() && Itemized()
    }

    /** What the host has handed out and taken back, and which items were scheduled, by name. */
    ghost function Ledger(): Books
      reads this`handles, this`live, this`allocationBytes, this`items
    {
      Entries(handles, live, allocationBytes, items)
    }

    ghost function Name(b: Block): (name: nat)
      requires b in handles
      reads this`handles
      ensures name < |handles| && handles[name] == b
    {
      var i :| 0 <= i < |handles| && handles[i] == b;
      i
    }

    ghost predicate Valid()
      reads this, ring, live
    {
      Consistent() && total == |scheduled|
    }

    constructor (permitWork: bool)
      ensures Valid() && live == {} && count == 0 && total == 0 && executed == [] && this.permitWork == permitWork
      ensures fresh(ring)
    {
      allocationBytes, live, head, count, total := 0, {}, 0, 0, 0;
      ring := new Block?[SLOTS](_ => null);
      this.permitWork := permitWork;
      handles, calls := [], 0;
      scheduled, executed, items, log := [], [], [], [];
    }

    /** The probe's exit test on the counter is a leak test: zero means every block is freed. */
    lemma ZeroMeansFreed()
      requires Valid()
      ensures allocationBytes == 0 <==> live == {}
    {
      ZeroIffFreed(live);
    }

    /** `uacpi_kernel_alloc`; `available` says whether `malloc` itself succeeds. */
    method Alloc(size: nat, payload: Payload, available: bool) returns (b: Block?)
      requires Valid() && size < WORD && (payload.Work? ==> !payload.pending)
      modifies this`allocationBytes, this`live, this`handles
      ensures Valid()
      ensures b != null <==> available && (if size == 0 then 1 else size) + HEADER + old(allocationBytes) <= MAX_BYTES
      ensures b == null ==> live == old(live) && allocationBytes == old(allocationBytes) && handles == old(handles)
      ensures b != null ==> handles == old(handles) + [b]
      ensures Ledger() == Grant(old(Ledger()), if size == 0 then 1 else size, payload.Work?, available)
      ensures b != null ==> fresh(b) && live == old(live) + {b} && b.payload == payload
                            && b.charged == (if size == 0 then 1 else size) + HEADER
    {
      hide Fifo, Slot, Charges, Lists, Jobs, Plus, Minus, Tagged, Entries;
      var size := if size == 0 then 1 else size;
      MinusExact(MAX_BYTES, HEADER);
      MinusExact(MAX_BYTES, allocationBytes);
      if size > Minus(MAX_BYTES, HEADER) { return null; }
      PlusExact(size, HEADER);
      var charged := Plus(size, HEADER);
      if charged > Minus(MAX_BYTES, allocationBytes) || !available { return null; }
      var p := new Block(charged, payload);
      ChargesWith(live, p);
      ghost var q, jobs, pending := Queue(), Jobs(Queue()), Pending(live);
      TaggedMore(q, handles, items, |executed|, p);
      HandedOut(handles, live, allocationBytes, items, p);
      PlusExact(allocationBytes, charged);
      allocationBytes := Plus(allocationBytes, charged);
      live, handles := live + {p}, handles + [p];
      assert Queue() == q && Jobs(q) == jobs && Pending(live) == pending;
      assert Ringed();
      assert Ordered();
      assert Accounted();
      assert Named();
      assert Itemized();
      b := p;
    }

    lemma ChargeIncluded(b: Block)
      requires Accounted() && b in live
      ensures b.charged <= allocationBytes
    {
      ChargesWithout(live, b);
    }

    /** `uacpi_kernel_free`. */
    method Free(b: Block?)
      requires Valid() && (b != null ==> b in live && (b.payload.Work? ==> !b.payload.pending))
      modifies this`allocationBytes, this`live
      ensures Valid()
      ensures live == old(live) - {b}
      ensures allocationBytes == old(allocationBytes) - if b == null then 0 else b.charged
    {
      hide Fifo, Slot, Charges, Lists, Tagged;
      if b != null {
        ChargesWithout(live, b);
        ghost var q, p := Queue(), Pending(live);
        ListsMembers(q, p);
        forall i | 0 <= i < |q| ensures q[i] != b { assert q[i] in q; }
        allocationBytes := Minus(allocationBytes, b.charged);
        live := live - {b};
        assert Queue() == q && Pending(live) == p;
      }
    }

    method CreateWorkItem(available: bool) returns (w: Block?)
      requires Valid()
      modifies this`allocationBytes, this`live, this`handles
      ensures Valid()
      ensures handles == old(handles) + if w == null then [] else [w]
      ensures Ledger() == Grant(old(Ledger()), WORK_SIZE, true, available)
      ensures w != null <==> available && WORK_SIZE + HEADER + old(allocationBytes) <= MAX_BYTES
      ensures w == null ==> live == old(live)
      ensures w != null ==> fresh(w) && live == old(live) + {w} && w.payload == Work(Job(0, 0), false)
      ensures w != null ==> w.charged == WORK_SIZE + HEADER
    {
      w := Alloc(WORK_SIZE, Work(Job(0, 0), false), available);
    }

    /** Freeing a queued item is fatal: `alive` is false and the run ends. */
    method FreeWorkItem(w: Block?) returns (alive: bool)
      requires Valid() && (w != null ==> w in live && w.payload.Work?)
      modifies this`allocationBytes, this`live
      ensures alive <==> w == null || w !in old(Queue())
      ensures Valid()
      ensures live == if alive then old(live) - {w} else old(live)
      ensures allocationBytes == old(allocationBytes) - if w == null || !alive then 0 else w.charged
    {
      PendingIffQueued(w);
      if w != null && w.payload.pending { return false; }
      Free(w);
      alive := true;
    }

    method Enqueue(w: Block, job: Job)
      requires Valid() && w in live && w.payload.Work? && !w.payload.pending && count < SLOTS && total < LIFETIME
      modifies this`count, this`total, this`scheduled, this`items, ring, w
      ensures Valid() && Queue() == old(Queue()) + [w] && total == old(total) + 1 && scheduled == old(scheduled) + [job]
      ensures items == old(items) + [Name(w)]
    {
      hide Fifo, Slot, Charges, Lists, Tagged, Apart, Accounted, Jobs;
      ghost var q, slots, jobs, p := Queue(), ring[..], Jobs(Queue()), Pending(live);
      TaggedPush(q, handles, items, |executed|, w, Name(w));
      FifoPush(slots, head, count, w);
      ListsPush(q, p, w);
      assert w !in q by { ListsMembers(q, p); }
      w.payload := Work(job, true);
      ring[Slot(head, count)] := w;
      assert ring[..] == slots[Slot(head, count) := w];
      count, total := count + 1, total + 1;
      scheduled, items := scheduled + [job], items + [Name(w)];
      assert Queue() == q + [w] && Pending(live) == p + {w};
      assert Jobs(Queue()) == jobs + [job];
    }

    lemma PendingIffQueued(w: Block?)
      requires Valid() && (w != null ==> w in live && w.payload.Work?)
      ensures w != null ==> (w.payload.pending <==> w in Queue())
    {
      ListsMembers(Queue(), Pending(live));
    }

    /** `uacpi_kernel_schedule_work`; a refusal is fatal. */
    method Schedule(notification: bool, w: Block?, fn: nat, context: nat) returns (alive: bool)
      requires Valid() && (w != null ==> w in live && w.payload.Work?)
      modifies this`count, this`total, this`scheduled, this`items, ring, w
      ensures alive <==> permitWork && notification && w != null && fn != 0 && w !in old(Queue())
                         && |old(Queue())| < SLOTS && old(total) < LIFETIME
      ensures alive ==> Valid() && Queue() == old(Queue()) + [w] && total == old(total) + 1
                        && scheduled == old(scheduled) + [Job(fn, context)] && items == old(items) + [Name(w)]
      ensures !alive ==> items == old(items)
      ensures !alive ==> Consistent() && Queue() == old(Queue()) && count == old(count) && scheduled == old(scheduled)
      ensures !alive ==> old(total) <= total && (w != null ==> w.payload == old(w.payload))
    {
      hide Fifo, Charges, Lists, Jobs;
      PendingIffQueued(w);
      if !permitWork || !notification || w == null || fn == 0 || w.payload.pending || count == SLOTS { return false; }
      if total + 1 > LIFETIME { total := total + 1; return false; }
      Enqueue(w, Job(fn, context));
      alive := true;
    }

    /** Take the oldest item off the ring; its call is about to be made. */
    method Pop() returns (job: Job)
      requires Valid() && count > 0
      modifies this`head, this`count, this`calls, this`executed, live
      ensures Valid() && Queue() == old(Queue())[1..]
      ensures job == old(JobOf(Queue()[0])) && executed == old(executed) + [job]
      ensures calls == old(calls) + 1
    {
      hide Fifo, Charges, Slot, Tagged, Apart, Accounted, Lists, Jobs;
      ghost var q, jobs, p := Queue(), Jobs(Queue()), Pending(live);
      TaggedPop(q, handles, items, |executed|);
      FifoPop(ring[..], head, count);
      ListsPop(q, p);
      var w := ring[head];
      head, count := Slot(head, 1), count - 1;
      job := w.payload.job;
      w.payload := Work(job, false);
      executed, calls := executed + [job], calls + 1;
      assert Queue() == q[1..] && Pending(live) == p - {w};
      assert Jobs(q[1..]) == jobs[1..];
      assert jobs == [job] + jobs[1..];
      FrontMoves(old(executed), job, jobs[1..]);
    }

    /** What is left of the lifetime budget: scheduling uses two, running one gives one back. */
    ghost function Budget(): nat
      requires total <= LIFETIME
      reads this
    {
      2 * (LIFETIME - total) + count
    }

    function Resolve(h: nat): Block?
      reads this`handles
    {
      if h < |handles| then handles[h] else null
    }

    /**
     * The pointer of a call is null, or live and of the right kind; anything else C leaves undefined. A plain `free`
     * takes any block that is not queued.
     */
    ghost predicate Sane(a: Action)
      reads this`handles, this`live, live
    {
      match a
      case Free(h) =>
        Resolve(h) == null || (Resolve(h) in live && (Resolve(h).payload.Work? ==> !Resolve(h).payload.pending))
      case FreeWork(h) => Resolve(h) == null || (Resolve(h) in live && Resolve(h).payload.Work?)
      case Schedule(_, h, _, _) => Resolve(h) == null || (Resolve(h) in live && Resolve(h).payload.Work?)
      case _ => true
    }

    /** The call passes the tests of the C code, so that it is not fatal. */
    ghost predicate Granted(a: Action)
      requires Sane(a)
      reads this`handles, this`live, this`permitWork, this`count, this`total, live
    {
      match a
      case FreeWork(h) => Resolve(h) == null || !Resolve(h).payload.pending
      case Schedule(notification, h, fn, _) =>
        && permitWork && notification && Resolve(h) != null && fn != 0
        && !Resolve(h).payload.pending && count < SLOTS && total < LIFETIME
      case _ => true
    }

    /** Why a run ended: the call `a` was misuse, or was refused as things stand. */
    ghost predicate Blames(o: Outcome, a: Action)
      reads this`handles, this`live, this`permitWork, this`count, this`total, live
    {
      (o == Misuse ==> !Sane(a)) && (o == Fatal ==> Sane(a) && !Granted(a))
    }

    /**
     * `uacpi_kernel_wait_for_work_completion`, whatever the handlers do, nested waits included. It ends in anything
     * but an empty ring only if the next call in the script of a handler that was run is misuse or refused.
     */
    method Drain(script: Script) returns (o: Outcome, ghost culprit: Action)
      requires Valid()
      modifies this, ring, live
      ensures Consistent() && |executed| <= LIFETIME && old(executed) <= executed && old(scheduled) <= scheduled
      ensures o == Running ==> Valid() && count == 0 && executed == scheduled
      ensures o == Running ==> forall b <- live :: b.payload.Work? ==> !b.payload.pending
      ensures o == Running ==> Budget() <= old(Budget())
      ensures o == Running ==> forall b <- live :: b in old(live) || fresh(b)
      ensures o != Running ==> Blames(o, culprit)
      ensures old(log) <= log && scheduled == old(scheduled) + Asked(log[|old(log)|..])
      ensures old(handles) <= handles && Ledger() == Replay(old(Ledger()), log[|old(log)|..])
      ensures o != Running ==> Stopped(script, log[|old(log)|..], |old(executed)|, executed, 0, [], culprit)
      ensures o == Running ==> Accounts(script, log[|old(log)|..], |old(executed)|, executed, 0, [])
      decreases Budget(), 1
    {
      hide Fifo, Charges, Lists, Accounted, Asked, Accounts, Stopped, Blames, Pending, Ringed, Jobs, Named, Tagged,
        Ledger, Replay;
      culprit := Wait;
      NothingDone(script, old(executed));
      assert log[|old(log)|..] == [];
      while count > 0
        invariant Valid()
        invariant old(log) <= log && scheduled == old(scheduled) + Asked(log[|old(log)|..])
        invariant old(handles) <= handles && Ledger() == Replay(old(Ledger()), log[|old(log)|..])
        invariant Accounts(script, log[|old(log)|..], |old(executed)|, executed, 0, [])
        invariant Budget() <= old(Budget()) && old(executed) <= executed && old(scheduled) <= scheduled
        invariant forall b <- live :: b in old(live) || fresh(b)
        decreases Budget()
      {
        ghost var was, done := executed, log;
        o, culprit := RunNext(script);
        LogGrows(old(Ledger()), old(log), done, log);
        if o != Running {
          BothStopped(script, done[|old(log)|..], log[|done|..], |old(executed)|, was, executed, culprit);
          return;
        }
        BothDone(script, done[|old(log)|..], log[|done|..], |old(executed)|, was, executed);
      }
      NothingPending();
      o := Running;
    }

    /** The oldest queued call, with all that runs inside it. */
    method RunNext(script: Script) returns (o: Outcome, ghost culprit: Action)
      requires Valid() && count > 0
      modifies this, ring, live
      ensures Consistent() && |executed| <= LIFETIME && old(executed) <= executed && old(scheduled) <= scheduled
      ensures o == Running ==> Valid() && Budget() < old(Budget())
      ensures o == Running ==> forall b <- live :: b in old(live) || fresh(b)
      ensures o != Running ==> Blames(o, culprit)
      ensures old(log) <= log && scheduled == old(scheduled) + Asked(log[|old(log)|..])
      ensures old(handles) <= handles && Ledger() == Replay(old(Ledger()), log[|old(log)|..])
      ensures o != Running ==> Stopped(script, log[|old(log)|..], |old(executed)|, executed, 0, [], culprit)
      ensures o == Running ==> Accounts(script, log[|old(log)|..], |old(executed)|, executed, 0, [])
      decreases Budget(), 0
    {
      hide Fifo, Charges, Lists, Accounted, Asked, Accounts, Stopped, Blames, Pending, Named, Tagged, Ledger, Replay;
      var job := Pop();
      ghost var made := executed;
      o, culprit := RunHandler(script, script(calls, job), calls);
      assert executed[|made| - 1] == job;
      if o != Running {
        HandlerStopped(script, log[|old(log)|..], old(executed), job, executed, culprit);
        return;
      }
      HandlerDone(script, log[|old(log)|..], old(executed), job, executed);
    }

    lemma NothingPending()
      requires Valid() && count == 0
      ensures forall b <- live :: b.payload.Work? ==> !b.payload.pending
    {
      forall b <- live | b.payload.Work? ensures !b.payload.pending { PendingIffQueued(b); }
    }

    /** A handler's calls, one after the other, until one of them ends the run. */
    method RunHandler(script: Script, actions: seq<Action>, ghost id: nat) returns (o: Outcome, ghost culprit: Action)
      requires Valid() && id <= |executed|
      modifies this, ring, live
      ensures Consistent() && |executed| <= LIFETIME && old(executed) <= executed && old(scheduled) <= scheduled
      ensures o == Running ==> Valid() && Budget() <= old(Budget())
      ensures o == Running ==> forall b <- live :: b in old(live) || fresh(b)
      ensures o != Running ==> Blames(o, culprit)
      ensures old(log) <= log && scheduled == old(scheduled) + Asked(log[|old(log)|..])
      ensures old(handles) <= handles && Ledger() == Replay(old(Ledger()), log[|old(log)|..])
      ensures o != Running ==> Stopped(script, log[|old(log)|..], |old(executed)|, executed, id, actions, culprit)
      ensures o == Running ==> Accounts(script, log[|old(log)|..], |old(executed)|, executed, id, actions)
      decreases Budget(), 3
    {
      hide Fifo, Charges, Lists, Accounted, Asked, Accounts, Stopped, Blames, Pending, Ringed, Jobs, Named, Tagged,
        Ledger, Replay;
      culprit := Wait;
      NothingDone(script, executed);
      NobodyDone(script, executed, id);
      assert log[|old(log)|..] == [] && actions[..0] == [];
      var k := 0;
      while k < |actions|
        invariant k <= |actions| && Valid()
        invariant old(log) <= log && scheduled == old(scheduled) + Asked(log[|old(log)|..])
        invariant old(handles) <= handles && Ledger() == Replay(old(Ledger()), log[|old(log)|..])
        invariant Accounts(script, log[|old(log)|..], |old(executed)|, executed, id, actions[..k])
        invariant Budget() <= old(Budget()) && old(executed) <= executed && old(scheduled) <= scheduled
        invariant forall b <- live :: b in old(live) || fresh(b)
      {
        ghost var was, done := executed, log;
        o, culprit := Act(script, actions[k], id);
        LogGrows(old(Ledger()), old(log), done, log);
        if o != Running {
          ActionStopped(script, done[|old(log)|..], log[|done|..], |old(executed)|, was, executed, id, actions, k,
                        culprit);
          return;
        }
        ActionDone(script, done[|old(log)|..], log[|done|..], |old(executed)|, was, executed, id, actions, k);
        k := k + 1;
      }
      assert actions[..k] == actions;
      o := Running;
    }

    /** One call of a handler, which may be a wait. */
    method Act(script: Script, a: Action, ghost id: nat) returns (o: Outcome, ghost culprit: Action)
      requires Valid() && id <= |executed|
      modifies this, ring, live
      ensures Consistent() && |executed| <= LIFETIME && old(executed) <= executed && old(scheduled) <= scheduled
      ensures o == Running ==> Valid() && Budget() <= old(Budget())
      ensures o == Running ==> forall b <- live :: b in old(live) || fresh(b)
      ensures o != Running ==> Blames(o, culprit)
      ensures old(log) <= log && scheduled == old(scheduled) + Asked(log[|old(log)|..])
      ensures old(handles) <= handles && Ledger() == Replay(old(Ledger()), log[|old(log)|..])
      ensures o != Running ==> Stopped(script, log[|old(log)|..], |old(executed)|, executed, id, [a], culprit)
      ensures o == Running ==> Accounts(script, log[|old(log)|..], |old(executed)|, executed, id, [a])
      decreases Budget(), 2
    {
      hide Fifo, Charges, Lists, Accounted, Asked, Accounts, Stopped, Blames, Named, Tagged, Ledger, Replay;
      culprit := a;
      if a.Wait? {
        o, culprit := Drain(script);
        ghost var part := log[|old(log)|..];
        if o != Running {
          WaitStopped(script, part, |old(executed)|, executed, id, culprit);
          return;
        }
        Note(Deed(id, Wait), old(log));
        assert log[|old(log)|..] == part + [Deed(id, a)];
        WaitDone(script, part, |old(executed)|, executed, id);
      } else {
        o := Perform(a, id);
        if o != Running {
          assert log[|old(log)|..] == [];
          NothingDone(script, executed);
          OneStopped(script, executed, id, a);
          return;
        }
        assert log[|old(log)|..] == [Deed(id, a)];
        ReplayOne(old(Ledger()), Deed(id, a));
        OneDone(script, executed, id, a);
      }
    }

    /** One call of a handler into the host. Touching a freed or foreign pointer is misuse, which C leaves undefined. */
    method Perform(a: Action, ghost id: nat) returns (o: Outcome)
      requires Valid() && !a.Wait?
      modifies this, ring, live
      ensures o == Misuse <==> !old(Sane(a))
      ensures o == Fatal <==> old(Sane(a) && !Granted(a))
      ensures o != Running ==> Blames(o, a)
      ensures Consistent() && executed == old(executed)
      ensures o == Running ==> Valid() && Budget() <= old(Budget())
      ensures log == old(log) + if o == Running then [Deed(id, a)] else []
      ensures scheduled == old(scheduled) + Asked(log[|old(log)|..])
      ensures old(handles) <= handles && Ledger() == if o == Running then Apply(old(Ledger()), a) else old(Ledger())
      ensures o == Running && (a.Free? || a.FreeWork?) ==> live == old(live) - {old(Resolve(a.handle))}
      ensures o == Running && (a.Alloc? || a.CreateWork?) ==>
        old(live) <= live && |handles| - |old(handles)| == |live - old(live)|
      ensures o == Running ==> forall b <- live :: b in old(live) || fresh(b)
    {
      hide Fifo, Slot, Charges, Lists, Jobs, Accounted, Asked, Ringed, Sane, Granted, Blames;
      o := Try(a);
      ghost var deeds := if o == Running then [Deed(id, a)] else [];
      AskedOne(deeds, a, id);
      log := log + deeds;
    }

    /** The call itself. */
    method Try(a: Action) returns (o: Outcome)
      requires Valid() && !a.Wait?
      modifies this, ring, live
      ensures log == old(log)
      ensures o == Misuse <==> !old(Sane(a))
      ensures o == Fatal <==> old(Sane(a) && !Granted(a))
      ensures o != Running ==> Blames(o, a)
      ensures Consistent() && executed == old(executed)
      ensures o == Running ==> Valid() && Budget() <= old(Budget())
      ensures scheduled == old(scheduled) + if o == Running && a.Schedule? then [Job(a.fn, a.context)] else []
      ensures old(handles) <= handles && Ledger() == if o == Running then Apply(old(Ledger()), a) else old(Ledger())
      ensures o == Running && (a.Free? || a.FreeWork?) ==> live == old(live) - {old(Resolve(a.handle))}
      ensures o == Running && (a.Alloc? || a.CreateWork?) ==>
        old(live) <= live && |handles| - |old(handles)| == |live - old(live)|
      ensures o == Running ==> forall b <- live :: b in old(live) || fresh(b)
    {
      hide Fifo, Slot, Charges, Lists, Jobs, Accounted, Ringed;
      if a.Alloc? || a.CreateWork? {
        Make(a);
        o := Running;
      } else if a.Schedule? {
        o := Submit(a);
      } else {
        o := Release(a);
      }
    }

    method Make(a: Action)
      requires Valid() && (a.Alloc? || a.CreateWork?)
      modifies this
      ensures Valid() && Budget() == old(Budget())
      ensures log == old(log) && executed == old(executed) && scheduled == old(scheduled)
      ensures old(handles) <= handles && Ledger() == Apply(old(Ledger()), a)
      ensures old(live) <= live && |handles| - |old(handles)| == |live - old(live)|
      ensures forall b <- live :: b in old(live) || fresh(b)
    {
      hide Fifo, Slot, Charges, Lists, Jobs, Accounted, Named, Tagged, Ledger, Grant;
      match a
      case Alloc(size, available) => var _ := Alloc(size % WORD, Bytes, available);
      case CreateWork(available) => var _ := CreateWorkItem(available);
    }

    method Release(a: Action) returns (o: Outcome)
      requires Valid() && (a.Free? || a.FreeWork?)
      modifies this, ring, live
      ensures o == Misuse <==> !old(Sane(a))
      ensures o == Fatal <==> old(Sane(a) && !Granted(a))
      ensures o != Running ==> Blames(o, a)
      ensures Valid() && Budget() == old(Budget())
      ensures log == old(log) && executed == old(executed) && scheduled == old(scheduled)
      ensures live == old(live) - if o == Running then {old(Resolve(a.handle))} else {}
      ensures old(handles) == handles && Ledger() == if o == Running then Apply(old(Ledger()), a) else old(Ledger())
    {
      hide Fifo, Slot, Charges, Lists, Jobs, Accounted, Tagged;
      var b := Resolve(a.handle);
      if b != null && b !in live { return Misuse; }
      if b != null && if a.Free? then b.payload.Work? && b.payload.pending else !b.payload.Work? { return Misuse; }
      if b != null {
        ChargeIncluded(b);
        TakenBack(handles, live, allocationBytes, items, a.handle);
      }
      if a.Free? {
        Free(b);
        o := Running;
      } else {
        PendingIffQueued(b);
        var alive := FreeWorkItem(b);
        o := if alive then Running else Fatal;
      }
    }

    method Submit(a: Action) returns (o: Outcome)
      requires Valid() && a.Schedule?
      modifies this, ring, live
      ensures o == Misuse <==> !old(Sane(a))
      ensures o == Fatal <==> old(Sane(a) && !Granted(a))
      ensures o != Running ==> Blames(o, a)
      ensures Consistent() && log == old(log) && executed == old(executed) && live == old(live)
      ensures o == Running ==> Valid() && Budget() <= old(Budget())
      ensures scheduled == old(scheduled) + if o == Running then [Job(a.fn, a.context)] else []
      ensures old(handles) == handles && Ledger() == if o == Running then Apply(old(Ledger()), a) else old(Ledger())
    {
      hide Fifo, Slot, Charges, Lists, Jobs, Accounted, Tagged;
      var b := Resolve(a.handle);
      if b != null && (b !in live || !b.payload.Work?) { return Misuse; }
      PendingIffQueued(b);
      var alive := Schedule(a.notification, b, a.fn, a.context);
      o := if alive then Running else Fatal;
    }

    ghost method Note(d: Deed, start: seq<Deed>)
      requires Valid() && start <= log && d.action.Wait?
      modifies this`log
      ensures Valid() && log == old(log) + [d] && Asked(log[|start|..]) == Asked(old(log)[|start|..])
      ensures Ledger() == old(Ledger())
      ensures forall b :: Replay(b, log[|start|..]) == Replay(b, old(log)[|start|..])
    {
      hide Fifo, Charges, Lists, Accounted, Asked, Replay;
      ghost var part := log[|start|..];
      log := log + [d];
      assert log[|start|..] == part + [d];
      AskedSnoc(part, d);
      forall b ensures Replay(b, part + [d]) == Replay(b, part) { ReplaySnoc(b, part, d); }
    }
  }

  /** A handler's calls into the host; pointers are named by the order in which the host handed them out. */
  datatype Action =
    | Alloc(size: nat, available: bool)
    | Free(handle: nat)
    | CreateWork(available: bool)
    | FreeWork(handle: nat)
    | Schedule(notification: bool, handle: nat, fn: nat, context: nat)
    | Wait

  /** What the n-th handler call does: every behaviour of every handler on a run is some script. */
  type Script = (nat, Job) -> seq<Action>

  datatype Outcome = Running | Fatal | Misuse

  // ---------------------------------------------------------------------- what was done

  /** A call into the host that went through, and the number of the handler call that made it; 0 is the main program. */
  datatype Deed = Deed(caller: nat, action: Action)

  /** What handler call `n` did, in order. */
  ghost function Did(ds: seq<Deed>, n: nat): seq<Action> {
    if ds == [] then []
    else Did(ds[..|ds| - 1], n) + if ds[|ds| - 1].caller == n then [ds[|ds| - 1].action] else []
  }

  /** The calls that were asked for, in order. */
  ghost function Asked(ds: seq<Deed>): seq<Job> {
    if ds == [] then []
    else
      var a := ds[|ds| - 1].action;
      Asked(ds[..|ds| - 1]) + if a.Schedule? then [Job(a.fn, a.context)] else []
  }

  /** What handler call `n` owes when the calls after `from` have been made and `id` is to do `actions`. */
  ghost function Due(script: Script, from: nat, made: seq<Job>, id: nat, actions: seq<Action>, n: nat): seq<Action> {
    if from < n <= |made| then script(n, made[n - 1]) else if n == id then actions else []
  }

  /** Every handler that was run did exactly what its script says, nobody else did anything, and `id` did `actions`. */
  ghost predicate Accounts(script: Script, ds: seq<Deed>, from: nat, made: seq<Job>, id: nat, actions: seq<Action>) {
    forall n: nat :: Did(ds, n) == Due(script, from, made, id, actions, n)
  }

  lemma DidSnoc(ds: seq<Deed>, d: Deed, n: nat)
    ensures Did(ds + [d], n) == Did(ds, n) + if d.caller == n then [d.action] else []
  {
    assert (ds + [d])[..|ds|] == ds;
  }

  lemma {:induction false} DidConcat(a: seq<Deed>, b: seq<Deed>, n: nat)
    ensures Did(a + b, n) == Did(a, n) + Did(b, n)
    decreases |b|
  {
    if b == [] {
      assert a + b == a;
    } else {
      DidConcat(a, b[..|b| - 1], n);
      assert (a + b)[..|a + b| - 1] == a + b[..|b| - 1];
    }
  }

  // ---------------------------------------------------------------------------- the books

  /** A block handed out: what it is charged, and whether it is a work item. */
  datatype Piece = Piece(charged: nat, work: bool)

  /** All pieces ever handed out, the names of those taken back, the bytes charged, and the items ever scheduled. */
  datatype Books = Books(made: seq<Piece>, freed: set<nat>, used: int, items: seq<nat>)

  ghost function Entries(hs: seq<Block>, live: set<Block>, used: nat, items: seq<nat>): (b: Books)
    ensures b.used == used && |b.made| == |hs|
  {
    Books(seq(|hs|, i requires 0 <= i < |hs| => Piece(hs[i].charged, hs[i].work)),
          (set i | 0 <= i < |hs| && hs[i] !in live), used, items)
  }

  lemma HandedOut(hs: seq<Block>, live: set<Block>, used: nat, items: seq<nat>, b: Block)
    requires b !in hs
    ensures var was, now := Entries(hs, live, used, items), Entries(hs + [b], live + {b}, used + b.charged, items);
      now == was.(made := was.made + [Piece(b.charged, b.work)], used := was.used + b.charged)
  {
    var hs' := hs + [b];
    assert forall i :: 0 <= i < |hs| ==> hs'[i] == hs[i] && hs[i] != b;
    assert (set i | 0 <= i < |hs'| && hs'[i] !in live + {b}) == (set i | 0 <= i < |hs| && hs[i] !in live);
  }

  lemma TakenBack(hs: seq<Block>, live: set<Block>, used: nat, items: seq<nat>, h: nat)
    requires Apart(hs) && h < |hs| && hs[h].charged <= used
    ensures Entries(hs, live - {hs[h]}, used - hs[h].charged, items) == TakeBack(Entries(hs, live, used, items), h)
  {
    forall i | 0 <= i < |hs| ensures hs[i] == hs[h] <==> i == h {}
  }

  /** A block of `size` bytes is handed out if memory and the cap allow it. */
  ghost function Grant(b: Books, size: nat, work: bool, available: bool): Books {
    if available && size + HEADER + b.used <= MAX_BYTES
    then b.(made := b.made + [Piece(size + HEADER, work)], used := b.used + size + HEADER)
    else b
  }

  /** What a call that goes through does to the books. */
  ghost function Apply(b: Books, a: Action): Books {
    match a
    case Alloc(size, available) => Grant(b, if size % WORD == 0 then 1 else size % WORD, false, available)
    case CreateWork(available) => Grant(b, WORK_SIZE, true, available)
    case Free(h) => TakeBack(b, h)
    case FreeWork(h) => TakeBack(b, h)
    case Schedule(_, h, _, _) => b.(items := b.items + [h])
    case Wait => b
  }

  ghost function TakeBack(b: Books, h: nat): Books {
    if h < |b.made| then b.(freed := b.freed + {h}, used := b.used - b.made[h].charged) else b
  }

  ghost function Replay(b: Books, ds: seq<Deed>): Books {
    if ds == [] then b else Apply(Replay(b, ds[..|ds| - 1]), ds[|ds| - 1].action)
  }

  lemma ReplaySnoc(b: Books, ds: seq<Deed>, d: Deed)
    ensures Replay(b, ds + [d]) == Apply(Replay(b, ds), d.action)
  {
    assert (ds + [d])[..|ds|] == ds;
  }

  lemma ReplayOne(b: Books, d: Deed)
    ensures Replay(b, [d]) == Apply(b, d.action)
  {
    assert [d][..0] == [];
  }

  lemma {:induction false} ReplayConcat(b: Books, ds: seq<Deed>, more: seq<Deed>)
    ensures Replay(b, ds + more) == Replay(Replay(b, ds), more)
    decreases |more|
  {
    if more == [] {
      assert ds + more == ds;
    } else {
      ReplayConcat(b, ds, more[..|more| - 1]);
      assert (ds + more)[..|ds + more| - 1] == ds + more[..|more| - 1];
    }
  }

  lemma AskedSnoc(ds: seq<Deed>, d: Deed)
    ensures Asked(ds + [d]) == Asked(ds) + if d.action.Schedule? then [Job(d.action.fn, d.action.context)] else []
  {
    assert (ds + [d])[..|ds|] == ds;
  }

  lemma AskedOne(ds: seq<Deed>, a: Action, id: nat)
    requires ds == [] || ds == [Deed(id, a)]
    ensures Asked(ds) == if ds != [] && a.Schedule? then [Job(a.fn, a.context)] else []
  {
    if ds != [] { assert ds[..0] == []; }
  }

  lemma {:induction false} AskedConcat(a: seq<Deed>, b: seq<Deed>)
    ensures Asked(a + b) == Asked(a) + Asked(b)
    decreases |b|
  {
    if b == [] {
      assert a + b == a;
    } else {
      AskedConcat(a, b[..|b| - 1]);
      assert (a + b)[..|a + b| - 1] == a + b[..|b| - 1];
    }
  }

  /** A log that grew twice: what was asked for adds up. */
  lemma LogGrows(b: Books, start: seq<Deed>, middle: seq<Deed>, end: seq<Deed>)
    requires start <= middle <= end
    ensures end[|start|..] == middle[|start|..] + end[|middle|..]
    ensures Asked(end[|start|..]) == Asked(middle[|start|..]) + Asked(end[|middle|..])
    ensures Replay(b, end[|start|..]) == Replay(Replay(b, middle[|start|..]), end[|middle|..])
  {
    hide Asked, Replay;
    assert end[|start|..] == middle[|start|..] + end[|middle|..];
    AskedConcat(middle[|start|..], end[|middle|..]);
    ReplayConcat(b, middle[|start|..], end[|middle|..]);
  }

  lemma NothingDone(script: Script, made: seq<Job>)
    ensures Accounts(script, [], |made|, made, 0, []) && Asked([]) == [] && forall b :: Replay(b, []) == b
  {}

  lemma NobodyDone(script: Script, made: seq<Job>, id: nat)
    ensures Accounts(script, [], |made|, made, id, [])
  {}

  /** A call that runs no other handler. */
  lemma OneDone(script: Script, made: seq<Job>, id: nat, a: Action)
    ensures Accounts(script, [Deed(id, a)], |made|, made, id, [a])
  {
    forall n: nat ensures Did([Deed(id, a)], n) == if n == id then [a] else [] {
      assert [Deed(id, a)][..0] == [];
    }
  }

  /** A wait: the handlers it ran have done their part. */
  lemma WaitDone(script: Script, ds: seq<Deed>, from: nat, made: seq<Job>, id: nat)
    requires id <= from <= |made| && Accounts(script, ds, from, made, 0, [])
    ensures Accounts(script, ds + [Deed(id, Wait)], from, made, id, [Wait])
  {
    hide Did;
    forall n: nat ensures Did(ds + [Deed(id, Wait)], n) == Due(script, from, made, id, [Wait], n) {
      DidSnoc(ds, Deed(id, Wait), n);
    }
  }

  /** One more call of a handler, with all that ran inside it. */
  lemma ActionDone(script: Script, ds: seq<Deed>, more: seq<Deed>, from: nat, was: seq<Job>, made: seq<Job>, id: nat,
                   actions: seq<Action>, k: nat)
    requires k < |actions| && id <= from <= |was| && was <= made && Accounts(script, ds, from, was, id, actions[..k])
    requires Accounts(script, more, |was|, made, id, [actions[k]])
    ensures Accounts(script, ds + more, from, made, id, actions[..k + 1])
  {
    hide Did;
    assert actions[..k + 1] == actions[..k] + [actions[k]];
    forall n: nat ensures Did(ds + more, n) == Due(script, from, made, id, actions[..k + 1], n) {
      DidConcat(ds, more, n);
      assert Did(ds, n) == Due(script, from, was, id, actions[..k], n);
      assert Did(more, n) == Due(script, |was|, made, id, [actions[k]], n);
    }
  }

  /** A handler, with all that ran inside it. */
  lemma HandlerDone(script: Script, ds: seq<Deed>, was: seq<Job>, job: Job, made: seq<Job>)
    requires was + [job] <= made
    requires Accounts(script, ds, |was| + 1, made, |was| + 1, script(|was| + 1, job))
    ensures Accounts(script, ds, |was|, made, 0, [])
  {
    hide Did;
    assert made[|was|] == (was + [job])[|was|] == job;
    forall n: nat ensures Did(ds, n) == Due(script, |was|, made, 0, [], n) {
      assert Did(ds, n) == Due(script, |was| + 1, made, |was| + 1, script(|was| + 1, job), n);
    }
  }

  /** Handlers run one after the other. */
  lemma BothDone(script: Script, ds: seq<Deed>, more: seq<Deed>, from: nat, was: seq<Job>, made: seq<Job>)
    requires from <= |was| && was <= made && Accounts(script, ds, from, was, 0, [])
    requires Accounts(script, more, |was|, made, 0, [])
    ensures Accounts(script, ds + more, from, made, 0, [])
  {
    hide Did;
    forall n: nat ensures Did(ds + more, n) == Due(script, from, made, 0, [], n) {
      DidConcat(ds, more, n);
      assert Did(ds, n) == Due(script, from, was, 0, [], n);
      assert Did(more, n) == Due(script, |was|, made, 0, [], n);
    }
  }
  // ------------------------------------------------------------------ where a run stopped

  /** Nobody did more than its script says, and `a` is the very next call of one that was not done. */
  ghost predicate Stopped(script: Script, ds: seq<Deed>, from: nat, made: seq<Job>, id: nat, actions: seq<Action>,
                          a: Action) {
    && (forall n: nat :: Did(ds, n) <= Due(script, from, made, id, actions, n))
    && (exists n: nat :: Did(ds, n) + [a] <= Due(script, from, made, id, actions, n))
  }

  lemma OneStopped(script: Script, made: seq<Job>, id: nat, a: Action)
    requires id <= |made|
    ensures Stopped(script, [], |made|, made, id, [a], a)
  {
    assert Did([], id) + [a] <= Due(script, |made|, made, id, [a], id);
  }

  lemma WaitStopped(script: Script, ds: seq<Deed>, from: nat, made: seq<Job>, id: nat, a: Action)
    requires id <= from <= |made| && Stopped(script, ds, from, made, 0, [], a)
    ensures Stopped(script, ds, from, made, id, [Wait], a)
  {
    hide Did;
    var n: nat :| Did(ds, n) + [a] <= Due(script, from, made, 0, [], n);
    assert Did(ds, n) + [a] <= Due(script, from, made, id, [Wait], n);
  }

  lemma ActionPrefix(script: Script, ds: seq<Deed>, more: seq<Deed>, from: nat, was: seq<Job>, made: seq<Job>, id: nat,
                     actions: seq<Action>, k: nat, rest: seq<Action>, n: nat)
    requires k < |actions| && id <= from <= |was| && was <= made
    requires Did(ds, n) == Due(script, from, was, id, actions[..k], n)
    requires Did(more, n) + rest <= Due(script, |was|, made, id, [actions[k]], n)
    ensures Did(ds + more, n) + rest <= Due(script, from, made, id, actions, n)
  {
    hide Did;
    DidConcat(ds, more, n);
    assert actions[..k] + [actions[k]] <= actions;
    assert Did(ds, n) + Did(more, n) + rest == Did(ds, n) + (Did(more, n) + rest);
  }

  /** A call of a handler that went wrong, after those before it were done. */
  lemma ActionStopped(script: Script, ds: seq<Deed>, more: seq<Deed>, from: nat, was: seq<Job>, made: seq<Job>,
                      id: nat, actions: seq<Action>, k: nat, a: Action)
    requires k < |actions| && id <= from <= |was| && was <= made && Accounts(script, ds, from, was, id, actions[..k])
    requires Stopped(script, more, |was|, made, id, [actions[k]], a)
    ensures Stopped(script, ds + more, from, made, id, actions, a)
  {
    hide Did, Due;
    forall n: nat ensures Did(ds + more, n) <= Due(script, from, made, id, actions, n) {
      assert Did(ds, n) == Due(script, from, was, id, actions[..k], n);
      ActionPrefix(script, ds, more, from, was, made, id, actions, k, [], n);
    }
    var n: nat :| Did(more, n) + [a] <= Due(script, |was|, made, id, [actions[k]], n);
    assert Did(ds, n) == Due(script, from, was, id, actions[..k], n);
    ActionPrefix(script, ds, more, from, was, made, id, actions, k, [a], n);
  }

  lemma HandlerStopped(script: Script, ds: seq<Deed>, was: seq<Job>, job: Job, made: seq<Job>, a: Action)
    requires was + [job] <= made
    requires Stopped(script, ds, |was| + 1, made, |was| + 1, script(|was| + 1, job), a)
    ensures Stopped(script, ds, |was|, made, 0, [], a)
  {
    hide Did;
    assert made[|was|] == (was + [job])[|was|] == job;
    forall n: nat ensures Due(script, |was|, made, 0, [], n) ==
      Due(script, |was| + 1, made, |was| + 1, script(|was| + 1, job), n) {}
  }

  lemma BothStopped(script: Script, ds: seq<Deed>, more: seq<Deed>, from: nat, was: seq<Job>, made: seq<Job>, a: Action)
    requires from <= |was| && was <= made && Accounts(script, ds, from, was, 0, [])
    requires Stopped(script, more, |was|, made, 0, [], a)
    ensures Stopped(script, ds + more, from, made, 0, [], a)
  {
    hide Did;
    forall n: nat ensures Did(ds + more, n) <= Due(script, from, made, 0, [], n) {
      DidConcat(ds, more, n);
      assert Did(ds, n) == Due(script, from, was, 0, [], n);
      assert Did(more, n) <= Due(script, |was|, made, 0, [], n);
    }
    var n: nat :| Did(more, n) + [a] <= Due(script, |was|, made, 0, [], n);
    DidConcat(ds, more, n);
    assert Did(ds, n) == Due(script, from, was, 0, [], n);
    assert Did(ds + more, n) + [a] <= Due(script, from, made, 0, [], n);
  }
}
