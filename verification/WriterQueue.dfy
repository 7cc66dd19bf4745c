/** The queue of writers and group commit (db/db_impl.cc, Write and
    BuildBatchGroup), as a state machine over all interleavings of its threads.

    One step is what a thread does without giving up the mutex, or one action of
    the leader while the mutex is free. */
module WriterQueue {
  import opened Wrappers
  import opened Keys
  import opened Store

  type Batch = seq<(Key, Op)>

  /** What a leader has in hand: the writers it acts for and their entries. */
  datatype Led = Led(ids: seq<nat>, entries: seq<Entry>)

  datatype Phase =
    | Waiting                                   // in the loop on its condition variable
    | MakingRoom                                // leads, in MakeRoomForWrite
    | Logging(g: Led)                           // mutex free, before AddRecord
    | Syncing(g: Led)                           // record appended, before Sync
    | Inserting(g: Led, n: nat, synced: bool)   // n entries are in the memtable
    | Ending(g: Led, logged: bool, synced: bool, ok: bool)
    | Returned(ok: bool)

  /** A thread in Write.  `awake`: it will test its condition without any signal. */
  datatype Thread = Thread(batch: Option<Batch>, sync: bool, done: bool, status: bool, awake: bool, phase: Phase)

  datatype LogRecord = LogRecord(entries: seq<Entry>, synced: bool)

  /** What became of one group, for the record. */
  datatype Round = Round(ids: seq<nat>, entries: seq<Entry>, logged: bool, synced: bool, ok: bool)

  datatype Queue = Queue(
    threads: map<nat, Thread>,
    queue: seq<nat>,           // writers_
    lastSequence: nat,
    log: seq<LogRecord>,
    mem: seq<Entry>,           // in order of insertion
    arrivals: seq<nat>,        // the threads in the order they joined
    rounds: seq<Round>)        // the groups that are through

  predicate Leads(p: Phase)
  {
    p.MakingRoom? || p.Logging? || p.Syncing? || p.Inserting? || p.Ending?
  }

  /** All operations of the batches of some threads, in order. */
  function OpsOf(threads: map<nat, Thread>, ids: seq<nat>): Batch
    requires forall id :: id in ids ==> id in threads
  {
    if ids == [] then []
    else
      var last := ids[|ids| - 1];
      OpsOf(threads, ids[..|ids| - 1]) + (if threads[last].batch.Some? then threads[last].batch.value else [])
  }

  // ----- BuildBatchGroup -----

  const SMALL_BATCH := 0x2_0000
  const MAX_GROUP := 0x10_0000

  function SizeLimit(first: nat): nat
  {
    if first <= SMALL_BATCH then first + SMALL_BATCH else MAX_GROUP
  }

  /** Bytes of the batches of the first `n` writers. */
  function GroupBytes(threads: map<nat, Thread>, queue: seq<nat>, n: nat, bytes: Batch -> nat): nat
    requires n <= |queue| && forall id :: id in queue ==> id in threads
  {
    if n == 0 then 0
    else
      var t := threads[queue[n - 1]];
      GroupBytes(threads, queue, n - 1, bytes) + (if t.batch.Some? then bytes(t.batch.value) else 0)
  }

  /** Writer `i` may join a group led by the first writer. */
  predicate Joins(threads: map<nat, Thread>, queue: seq<nat>, i: nat, bytes: Batch -> nat)
    requires i < |queue| && (forall id :: id in queue ==> id in threads) && threads[queue[0]].batch.Some?
  {
    var first, t := threads[queue[0]], threads[queue[i]];
    && (t.sync ==> first.sync)
    && (t.batch.Some? ==> GroupBytes(threads, queue, i + 1, bytes) <= SizeLimit(bytes(first.batch.value)))
  }

  /** The first `n` writers form the group: each follower may join, and the next may not. */
  ghost predicate IsGroup(threads: map<nat, Thread>, queue: seq<nat>, n: nat, bytes: Batch -> nat)
    requires queue != [] && (forall id :: id in queue ==> id in threads) && threads[queue[0]].batch.Some?
  {
    && 0 < n <= |queue|
    && (forall i :: 0 < i < n ==> Joins(threads, queue, i, bytes))
    && (n < |queue| ==> !Joins(threads, queue, n, bytes))
  }

  method BuildBatchGroup(threads: map<nat, Thread>, queue: seq<nat>, bytes: Batch -> nat)
    returns (n: nat, result: Batch)
    requires queue != [] && (forall id :: id in queue ==> id in threads) && threads[queue[0]].batch.Some?
    ensures IsGroup(threads, queue, n, bytes) && result == OpsOf(threads, queue[..n])
  {
    var first := threads[queue[0]];
    result := first.batch.value;
    var size := bytes(result);
    var maxSize := MAX_GROUP;
    if size <= SMALL_BATCH {
      maxSize := size + SMALL_BATCH;
    }
    n := 1;
    assert queue[..1] == [queue[0]] && OpsOf(threads, [queue[0]]) == [] + result by {
      assert [queue[0]][..0] == [];
    }
    assert GroupBytes(threads, queue, 1, bytes) == size by {
      assert GroupBytes(threads, queue, 0, bytes) == 0;
    }
    while n < |queue|
      invariant 0 < n <= |queue| && result == OpsOf(threads, queue[..n])
      invariant size == GroupBytes(threads, queue, n, bytes) && maxSize == SizeLimit(bytes(first.batch.value))
      invariant forall i :: 0 < i < n ==> Joins(threads, queue, i, bytes)
    {
      var w := threads[queue[n]];
      if w.sync && !first.sync {
        break;
      }
      if w.batch.Some? {
        size := size + bytes(w.batch.value);
        if size > maxSize {
          break;
        }
        result := result + w.batch.value;
      }
      assert queue[..n + 1][..n] == queue[..n];
      n := n + 1;
    }
  }

  // ----- the steps -----

  datatype Action =
    | Arrive(id: nat, batch: Option<Batch>, sync: bool)
    | Test(id: nat)
    | Spurious(id: nat)
    | RoomMade(id: nat, n: nat)
    | NothingToWrite(id: nat, ok: bool)
    | Append(id: nat, ok: bool)
    | Sync(id: nat, ok: bool)
    | InsertOne(id: nat)
    | Inserted(id: nat)
    | End(id: nat)

  function Put(s: Queue, id: nat, t: Thread): Queue
  {
    s.(threads := s.threads[id := t])
  }

  function Go(s: Queue, id: nat, p: Phase): Queue
    requires id in s.threads
  {
    Put(s, id, s.threads[id].(phase := p))
  }

  /** The writers a leader acted for, other than itself, are done; the new front is signalled. */
  function Released(threads: map<nat, Thread>, leader: nat, ids: seq<nat>, front: seq<nat>, ok: bool): map<nat, Thread>
  {
    map id | id in threads ::
      if id == leader then threads[id].(phase := Returned(ok))
      else if id in ids then threads[id].(done := true, status := ok, awake := true)
      else if front != [] && id == front[0] then threads[id].(awake := true)
      else threads[id]
  }

  function Joined(s: Queue, id: nat, batch: Option<Batch>, sync: bool): Queue
  {
    Put(s, id, Thread(batch, sync, false, true, true, Waiting)).(queue := s.queue + [id], arrivals := s.arrivals + [id])
  }

  /** The loop condition, tested by a thread that came, was signalled or woke up. */
  function Tested(s: Queue, id: nat): Queue
    requires id in s.threads
  {
    if s.threads[id].done then Go(s, id, Returned(s.threads[id].status))
    else if s.queue != [] && s.queue[0] == id then Go(s, id, MakingRoom)
    else Put(s, id, s.threads[id].(awake := false))
  }

  ghost predicate RoomStep(s: Queue, id: nat, n: nat, t: Queue, bytes: Batch -> nat)
  {
    && id in s.threads && s.threads[id].phase.MakingRoom? && s.threads[id].batch.Some?
    && s.queue != [] && s.queue[0] == id && (forall x :: x in s.queue ==> x in s.threads)
    && IsGroup(s.threads, s.queue, n, bytes)
    && t == Go(s, id, Logging(Led(s.queue[..n], Numbering(OpsOf(s.threads, s.queue[..n]), s.lastSequence + 1))))
  }

  /** One action of the leader on its own. */
  ghost predicate LeaderStep(s: Queue, a: Action, t: Queue)
    requires a.NothingToWrite? || a.Append? || a.Sync? || a.InsertOne? || a.Inserted?
  {
    a.id in s.threads && var thread, p := s.threads[a.id], s.threads[a.id].phase;
    match a
    case NothingToWrite(id, ok) =>
      p.MakingRoom? && (ok ==> thread.batch.None?) && t == Go(s, id, Ending(Led([id], []), false, false, ok))
    case Append(id, ok) =>
      p.Logging? &&
      t == if !ok then Go(s, id, Ending(p.g, false, false, false))
           else Go(s, id, if thread.sync then Syncing(p.g) else Inserting(p.g, 0, false)).(
             log := s.log + [LogRecord(p.g.entries, false)])
    case Sync(id, ok) =>
      p.Syncing? && s.log != [] &&
      t == if !ok then Go(s, id, Ending(p.g, true, false, false))
           else Go(s, id, Inserting(p.g, 0, true)).(log := s.log[..|s.log| - 1] + [LogRecord(p.g.entries, true)])
    case InsertOne(id) =>
      p.Inserting? && p.n < |p.g.entries| && t == Go(s, id, p.(n := p.n + 1)).(mem := s.mem + [p.g.entries[p.n]])
    case Inserted(id) =>
      p.Inserting? && p.n == |p.g.entries| && t == Go(s, id, Ending(p.g, true, p.synced, true))
  }

  ghost predicate EndStep(s: Queue, id: nat, t: Queue)
  {
    && id in s.threads && s.threads[id].phase.Ending? && |s.threads[id].phase.g.ids| <= |s.queue|
    && t == Ended(s, id, s.threads[id].phase)
  }

  function Ended(s: Queue, id: nat, p: Phase): Queue
    requires p.Ending? && |p.g.ids| <= |s.queue|
  {
    s.(threads := Released(s.threads, id, p.g.ids, s.queue[|p.g.ids|..], p.ok),
       queue := s.queue[|p.g.ids|..],
       lastSequence := s.lastSequence + |p.g.entries|,
       rounds := s.rounds + [Round(p.g.ids, p.g.entries, p.logged, p.synced, p.ok)])
  }

  ghost predicate Step(s: Queue, a: Action, t: Queue, bytes: Batch -> nat)
  {
    match a
    case Arrive(id, batch, sync) => id !in s.threads && t == Joined(s, id, batch, sync)
    case Test(id) => id in s.threads && s.threads[id].phase.Waiting? && s.threads[id].awake && t == Tested(s, id)
    case Spurious(id) =>
      id in s.threads && s.threads[id].phase.Waiting? && t == Put(s, id, s.threads[id].(awake := true))
    case RoomMade(id, n) => RoomStep(s, id, n, t, bytes)
    case End(id) => EndStep(s, id, t)
    case _ => LeaderStep(s, a, t)
  }

  ghost predicate Initial(s: Queue)
  {
    s == Queue(map[], [], 0, [], [], [], [])
  }

  // ----- invariants -----

  function IdsOf(rounds: seq<Round>): seq<nat>
  {
    if rounds == [] then [] else IdsOf(rounds[..|rounds| - 1]) + rounds[|rounds| - 1].ids
  }

  /** How many sequence numbers the groups used up. */
  function Used(rounds: seq<Round>): nat
  {
    if rounds == [] then 0 else Used(rounds[..|rounds| - 1]) + |rounds[|rounds| - 1].entries|
  }

  /** The records of the groups that reached the log. */
  function LogOf(rounds: seq<Round>): seq<LogRecord>
  {
    if rounds == [] then []
    else
      var r := rounds[|rounds| - 1];
      LogOf(rounds[..|rounds| - 1]) + (if r.logged then [LogRecord(r.entries, r.synced)] else [])
  }

  /** The entries of the groups that succeeded. */
  function MemOf(rounds: seq<Round>): seq<Entry>
  {
    if rounds == [] then []
    else
      var r := rounds[|rounds| - 1];
      MemOf(rounds[..|rounds| - 1]) + (if r.ok then r.entries else [])
  }

  ghost predicate NoneTwice(ids: seq<nat>)
  {
    forall i, j :: 0 <= i < j < |ids| ==> ids[i] != ids[j]
  }

  /** First come, first served: the groups that are through and then the queue
      are all the threads in the order they came. */
  ghost predicate Fifo(s: Queue)
  {
    && IdsOf(s.rounds) + s.queue == s.arrivals && NoneTwice(s.arrivals)
    && (forall id :: id in s.threads <==> id in s.arrivals)
  }

  /** Only the front of the queue ever leads, and it acts for a prefix of it. */
  ghost predicate FrontLeads(s: Queue)
  {
    && (forall id :: id in s.threads && Leads(s.threads[id].phase) ==> s.queue != [] && s.queue[0] == id)
    && (forall id :: id in s.queue ==> id in s.threads && !s.threads[id].done && !s.threads[id].phase.Returned?)
    && (s.queue != [] ==> GroupIsPrefix(s))
  }

  ghost predicate GroupIsPrefix(s: Queue)
    requires s.queue != []
  {
    s.queue[0] in s.threads && match s.threads[s.queue[0]].phase
      case Logging(g) => 0 < |g.ids| <= |s.queue| && g.ids == s.queue[..|g.ids|]
      case Syncing(g) => 0 < |g.ids| <= |s.queue| && g.ids == s.queue[..|g.ids|]
      case Inserting(g, _, _) => 0 < |g.ids| <= |s.queue| && g.ids == s.queue[..|g.ids|]
      case Ending(g, _, _, _) => 0 < |g.ids| <= |s.queue| && g.ids == s.queue[..|g.ids|]
      case _ => true
  }

  /** The front of a non-empty queue is at work or will test its condition. */
  ghost predicate FrontRuns(s: Queue)
  {
    s.queue != [] && s.queue[0] in s.threads ==>
      var t := s.threads[s.queue[0]]; Leads(t.phase) || (t.phase.Waiting? && t.awake)
  }

  /** What a leader holds are the operations of its group, numbered from `first`;
      no sync write is in a group whose leader is not. */
  ghost predicate LedOk(threads: map<nat, Thread>, leader: nat, g: Led, first: nat)
  {
    && leader in threads && (forall id :: id in g.ids ==> id in threads)
    && g.entries == Numbering(OpsOf(threads, g.ids), first)
    && (forall id :: id in g.ids && threads[id].sync ==> threads[leader].sync)
  }

  /** A group that is through: numbered after all before it; if it succeeded it
      was logged, synced for the sake of any sync write in it, and all its threads
      have, or will get, its result. */
  ghost predicate RoundOk(threads: map<nat, Thread>, r: Round, first: nat)
  {
    && (forall id :: id in r.ids ==> id in threads && Got(threads[id], r.ok))
    && ((r.entries == [] && !r.logged) || r.entries == Numbering(OpsOf(threads, r.ids), first))
    && (r.ok ==> r.entries == Numbering(OpsOf(threads, r.ids), first))
    && (r.ok ==> forall id :: id in r.ids && threads[id].batch.Some? ==> r.logged && (threads[id].sync ==> r.synced))
  }

  predicate Got(t: Thread, ok: bool)
  {
    t.phase == Returned(ok) || (t.phase.Waiting? && t.done && t.status == ok && t.awake)
  }

  ghost predicate RoundsOk(s: Queue)
  {
    && s.lastSequence == Used(s.rounds)
    && forall i :: 0 <= i < |s.rounds| ==> RoundOk(s.threads, s.rounds[i], Used(s.rounds[..i]) + 1)
  }

  /** Log and memtable hold what the groups that are through put there, plus what
      the leader has got to. */
  ghost predicate StoresOk(s: Queue)
  {
    if s.queue == [] || s.queue[0] !in s.threads then s.log == LogOf(s.rounds) && s.mem == MemOf(s.rounds)
    else
      var id, logs, mem := s.queue[0], LogOf(s.rounds), MemOf(s.rounds);
      match s.threads[id].phase
      case Logging(g) => s.log == logs && s.mem == mem && LedOk(s.threads, id, g, s.lastSequence + 1)
      case Syncing(g) =>
        && s.log == logs + [LogRecord(g.entries, false)] && s.mem == mem
        && s.threads[id].sync && LedOk(s.threads, id, g, s.lastSequence + 1)
      case Inserting(g, n, synced) =>
        && s.log == logs + [LogRecord(g.entries, synced)]
        && n <= |g.entries| && s.mem == mem + g.entries[..n]
        && synced == s.threads[id].sync && LedOk(s.threads, id, g, s.lastSequence + 1)
      case Ending(g, logged, synced, ok) =>
        && s.log == logs + (if logged then [LogRecord(g.entries, synced)] else [])
        && s.mem == mem + (if ok then g.entries else [])
        && EndingOk(s.threads, id, g, logged, synced, ok, s.lastSequence + 1)
      case _ => s.log == logs && s.mem == mem
  }

  ghost predicate EndingOk(threads: map<nat, Thread>, id: nat, g: Led, logged: bool, synced: bool, ok: bool, first: nat)
    requires id in threads
  {
    || (LedOk(threads, id, g, first) && (ok ==> logged && synced == threads[id].sync))
    || (g == Led([id], []) && !logged && (ok ==> threads[id].batch.None?))
  }

  ghost predicate Inv(s: Queue)
  {
    Fifo(s) && FrontLeads(s) && FrontRuns(s) && RoundsOk(s) && StoresOk(s)
  }

  // ----- every step keeps the invariant -----

  /** Batches and sync flags never change, and results once given stay. */
  ghost predicate Carries(before: map<nat, Thread>, after: map<nat, Thread>)
  {
    forall id :: id in before ==>
      && id in after && after[id].batch == before[id].batch && after[id].sync == before[id].sync
      && forall ok :: Got(before[id], ok) ==> Got(after[id], ok)
  }

  lemma {:induction false} OpsKept(before: map<nat, Thread>, after: map<nat, Thread>, ids: seq<nat>)
    requires Carries(before, after) && forall id :: id in ids ==> id in before
    ensures OpsOf(after, ids) == OpsOf(before, ids)
  {
    if ids != [] {
      OpsKept(before, after, ids[..|ids| - 1]);
      assert ids[|ids| - 1] in before;
    }
  }

  lemma RoundKept(before: map<nat, Thread>, after: map<nat, Thread>, r: Round, first: nat)
    requires Carries(before, after) && RoundOk(before, r, first)
    ensures RoundOk(after, r, first)
  {
    OpsKept(before, after, r.ids);
  }

  lemma RoundsKept(s: Queue, t: Queue)
    requires RoundsOk(s) && Carries(s.threads, t.threads) && t.rounds == s.rounds && t.lastSequence == s.lastSequence
    ensures RoundsOk(t)
  {
    hide RoundOk;
    hide Carries;
    hide Used;
    forall i | 0 <= i < |t.rounds|
      ensures RoundOk(t.threads, t.rounds[i], Used(t.rounds[..i]) + 1)
    {
      RoundKept(s.threads, t.threads, s.rounds[i], Used(s.rounds[..i]) + 1);
    }
  }

  lemma LedKept(before: map<nat, Thread>, after: map<nat, Thread>, id: nat, g: Led, first: nat)
    requires LedOk(before, id, g, first) && Carries(before, after)
    ensures LedOk(after, id, g, first)
  {
    OpsKept(before, after, g.ids);
  }

  /** Threads behind the front may come and go between waiting and testing. */
  lemma OthersMove(s: Queue, t: Queue)
    requires StoresOk(s) && FrontLeads(s) && s.queue != [] && t.queue != [] && s.queue[0] == t.queue[0]
    requires Carries(s.threads, t.threads) && t.threads[s.queue[0]].phase == s.threads[s.queue[0]].phase
    requires t.log == s.log && t.mem == s.mem && t.rounds == s.rounds && t.lastSequence == s.lastSequence
    ensures StoresOk(t)
  {
    var id := s.queue[0];
    match s.threads[id].phase
    case Logging(g) => LedKept(s.threads, t.threads, id, g, s.lastSequence + 1);
    case Syncing(g) => LedKept(s.threads, t.threads, id, g, s.lastSequence + 1);
    case Inserting(g, _, _) => LedKept(s.threads, t.threads, id, g, s.lastSequence + 1);
    case Ending(g, _, _, _) =>
      if LedOk(s.threads, id, g, s.lastSequence + 1) {
        LedKept(s.threads, t.threads, id, g, s.lastSequence + 1);
      }
    case _ =>
  }

  lemma NoneTwiceAppend(ids: seq<nat>, id: nat)
    requires NoneTwice(ids) && id !in ids
    ensures NoneTwice(ids + [id])
  {
  }

  lemma ArriveInv(s: Queue, id: nat, batch: Option<Batch>, sync: bool, t: Queue)
    requires Inv(s) && id !in s.threads && t == Joined(s, id, batch, sync)
    ensures Inv(t)
  {
    ArriveQueue(s, id, batch, sync, t);
    hide FrontLeads;
    hide FrontRuns;
    hide Fifo;
    assert s.queue != [] ==> s.queue[0] == t.queue[0];
    RoundsKept(s, t);
    hide RoundsOk;
    hide LedOk;
    if s.queue != [] {
      OthersMove(s, t);
    }
  }

  lemma ArriveQueue(s: Queue, id: nat, batch: Option<Batch>, sync: bool, t: Queue)
    requires Fifo(s) && FrontLeads(s) && FrontRuns(s) && id !in s.threads && t == Joined(s, id, batch, sync)
    ensures Fifo(t) && FrontLeads(t) && FrontRuns(t) && (s.queue != [] ==> s.queue[0] in s.threads)
  {
    hide IdsOf;
    ArriveLeads(s, id, batch, sync, t);
    hide FrontLeads;
    hide FrontRuns;
    NoneTwiceAppend(s.arrivals, id);
    hide NoneTwice;
    assert t.arrivals == IdsOf(s.rounds) + t.queue;
  }

  lemma ArriveLeads(s: Queue, id: nat, batch: Option<Batch>, sync: bool, t: Queue)
    requires FrontLeads(s) && FrontRuns(s) && id !in s.threads && t == Joined(s, id, batch, sync)
    ensures FrontLeads(t) && FrontRuns(t) && (s.queue != [] ==> s.queue[0] in s.threads)
  {
    if s.queue != [] {
      assert t.queue[0] == s.queue[0] && forall n :: 0 <= n <= |s.queue| ==> t.queue[..n] == s.queue[..n];
    }
  }

  /** Only threads that are through have their results. */
  lemma InQueueOrThrough(s: Queue, id: nat)
    requires Fifo(s) && FrontLeads(s) && RoundsOk(s) && id in s.threads
    ensures s.threads[id].done || s.threads[id].phase.Returned? <==> id !in s.queue
  {
    assert id in IdsOf(s.rounds) + s.queue;
    if id in IdsOf(s.rounds) {
      ThroughOnce(s, id);
    }
  }

  lemma ThroughOnce(s: Queue, id: nat)
    requires Fifo(s) && RoundsOk(s) && id in IdsOf(s.rounds)
    ensures id !in s.queue && exists i :: 0 <= i < |s.rounds| && id in s.rounds[i].ids
    ensures id in s.threads && (s.threads[id].done || s.threads[id].phase.Returned?)
  {
    RoundOfId(s.rounds, id);
    var i :| 0 <= i < |s.rounds| && id in s.rounds[i].ids;
    assert RoundOk(s.threads, s.rounds[i], Used(s.rounds[..i]) + 1);
    NotInBoth(IdsOf(s.rounds), s.queue, id);
  }

  lemma NotInBoth(a: seq<nat>, b: seq<nat>, x: nat)
    requires NoneTwice(a + b) && x in a
    ensures x !in b
  {
    var j :| 0 <= j < |a| && a[j] == x;
    forall k | 0 <= k < |b|
      ensures b[k] != x
    {
      assert (a + b)[j] == x && (a + b)[|a| + k] == b[k];
    }
  }

  lemma {:induction false} RoundOfId(rounds: seq<Round>, id: nat)
    ensures id in IdsOf(rounds) <==> exists i :: 0 <= i < |rounds| && id in rounds[i].ids
  {
    if rounds != [] {
      RoundOfId(rounds[..|rounds| - 1], id);
    }
  }

  lemma TestInv(s: Queue, id: nat, t: Queue)
    requires Inv(s) && id in s.threads && s.threads[id].phase.Waiting? && s.threads[id].awake && t == Tested(s, id)
    ensures Inv(t)
  {
    InQueueOrThrough(s, id);
    TestCarries(s, id, t);
    hide Carries;
    RoundsKept(s, t);
    hide RoundsOk;
    TestQueue(s, id, t);
    TestStores(s, id, t);
  }

  lemma TestCarries(s: Queue, id: nat, t: Queue)
    requires id in s.threads && s.threads[id].phase.Waiting? && t == Tested(s, id)
    ensures Carries(s.threads, t.threads)
  {
  }

  lemma TestStores(s: Queue, id: nat, t: Queue)
    requires FrontLeads(s) && StoresOk(s) && Carries(s.threads, t.threads)
    requires id in s.threads && s.threads[id].phase.Waiting? && s.threads[id].awake && t == Tested(s, id)
    requires s.threads[id].done || s.threads[id].phase.Returned? <==> id !in s.queue
    ensures StoresOk(t)
  {
    hide LedOk;
    hide EndingOk;
    hide Carries;
    if s.queue != [] && id != s.queue[0] {
      OthersMove(s, t);
    }
  }

  lemma TestQueue(s: Queue, id: nat, t: Queue)
    requires Fifo(s) && FrontLeads(s) && FrontRuns(s)
    requires id in s.threads && s.threads[id].phase.Waiting? && s.threads[id].awake && t == Tested(s, id)
    requires s.threads[id].done || s.threads[id].phase.Returned? <==> id !in s.queue
    ensures Fifo(t) && FrontLeads(t) && FrontRuns(t) && (s.queue != [] ==> s.queue[0] in s.threads)
  {
    hide IdsOf;
    hide NoneTwice;
  }

  lemma SpuriousInv(s: Queue, id: nat, t: Queue)
    requires Inv(s) && id in s.threads && s.threads[id].phase.Waiting? && t == Put(s, id, s.threads[id].(awake := true))
    ensures Inv(t)
  {
    hide RoundsOk;
    hide RoundOk;
    hide LedOk;
    InQueueOrThrough(s, id);
    RoundsKept(s, t);
    if s.queue != [] {
      OthersMove(s, t);
    }
  }

  /** A step of the leader that changes its own phase only. */
  lemma LeaderMoves(s: Queue, id: nat, t: Queue, p: Phase)
    requires Fifo(s) && FrontLeads(s) && RoundsOk(s) && id in s.threads && Leads(s.threads[id].phase) && Leads(p)
    requires t == Go(s, id, p).(log := t.log, mem := t.mem)
    ensures Carries(s.threads, t.threads) && Fifo(t) && RoundsOk(t) && FrontRuns(t)
    ensures s.queue != [] && s.queue[0] == id && (GroupIsPrefix(t) ==> FrontLeads(t))
    ensures forall g, first :: LedOk(s.threads, id, g, first) ==> LedOk(t.threads, id, g, first)
  {
    LeaderStaysInFront(s, id, t, p);
    hide FrontLeads;
    hide FrontRuns;
    hide GroupIsPrefix;
    assert Fifo(t);
    hide Fifo;
    LeaderCarries(s, id, t, p);
    hide Go;
    RoundsKept(s, t);
    hide RoundsOk;
    forall g, first | LedOk(s.threads, id, g, first)
      ensures LedOk(t.threads, id, g, first)
    {
      LedKept(s.threads, t.threads, id, g, first);
    }
  }

  lemma LeaderCarries(s: Queue, id: nat, t: Queue, p: Phase)
    requires id in s.threads && Leads(s.threads[id].phase) && t == Go(s, id, p).(log := t.log, mem := t.mem)
    ensures Carries(s.threads, t.threads) && t.rounds == s.rounds && t.lastSequence == s.lastSequence
  {
  }

  lemma LeaderStaysInFront(s: Queue, id: nat, t: Queue, p: Phase)
    requires FrontLeads(s) && id in s.threads && Leads(s.threads[id].phase) && Leads(p)
    requires t == Go(s, id, p).(log := t.log, mem := t.mem)
    ensures s.queue != [] && s.queue[0] == id && t.queue == s.queue && FrontRuns(t)
    ensures GroupIsPrefix(t) ==> FrontLeads(t)
  {
  }

  lemma RoomMadeInv(s: Queue, id: nat, n: nat, t: Queue, bytes: Batch -> nat)
    requires Inv(s) && RoomStep(s, id, n, t, bytes)
    ensures Inv(t)
  {
    hide RoundsOk;
    hide Fifo;
    hide FrontRuns;
    hide IsGroup;
    GroupOk(s.threads, s.queue, n, bytes);
    var ids := s.queue[..n];
    LeaderMoves(s, id, t, t.threads[id].phase);
    OpsKept(s.threads, t.threads, ids);
    assert |ids| == n;
  }

  /** No sync write joins a group whose leader is not one. */
  lemma GroupOk(threads: map<nat, Thread>, queue: seq<nat>, n: nat, bytes: Batch -> nat)
    requires queue != [] && (forall id :: id in queue ==> id in threads) && threads[queue[0]].batch.Some?
    requires IsGroup(threads, queue, n, bytes)
    ensures 0 < n <= |queue|
    ensures forall x :: x in queue[..n] ==> x in threads && (threads[x].sync ==> threads[queue[0]].sync)
  {
    forall x | x in queue[..n]
      ensures x in threads && (threads[x].sync ==> threads[queue[0]].sync)
    {
      var i :| 0 <= i < n && queue[i] == x;
      assert i > 0 ==> Joins(threads, queue, i, bytes);
    }
  }

  /** What is left to show once LeaderMoves has been used. */
  lemma LeaderStores(s: Queue, id: nat, t: Queue)
    requires FrontLeads(s) && StoresOk(s) && s.queue != [] && s.queue[0] == id && id in s.threads
    requires id in t.threads && t == Go(s, id, t.threads[id].phase).(log := t.log, mem := t.mem)
    requires forall g, first :: LedOk(s.threads, id, g, first) ==> LedOk(t.threads, id, g, first)
    requires match s.threads[id].phase
      case MakingRoom => exists ok ::
        (ok ==> s.threads[id].batch.None?) && t == Go(s, id, Ending(Led([id], []), false, false, ok))
      case Logging(g) => || t == Go(s, id, Ending(g, false, false, false))
        || t == Go(s, id, if s.threads[id].sync then Syncing(g) else Inserting(g, 0, false)).(
             log := s.log + [LogRecord(g.entries, false)])
      case Syncing(g) => || t == Go(s, id, Ending(g, true, false, false))
        || (s.log != [] && t == Go(s, id, Inserting(g, 0, true)).(
             log := s.log[..|s.log| - 1] + [LogRecord(g.entries, true)]))
      case Inserting(g, n, synced) =>
        || (n < |g.entries| && t == Go(s, id, Inserting(g, n + 1, synced)).(mem := s.mem + [g.entries[n]]))
        || (n == |g.entries| && t == Go(s, id, Ending(g, true, synced, true)))
      case _ => false
    ensures StoresOk(t) && GroupIsPrefix(t)
  {
    hide LogOf;
    hide MemOf;
    hide LedOk;
    match s.threads[id].phase
    case MakingRoom => assert s.queue[..1] == [id];
    case Syncing(g) => assert s.log[..|s.log| - 1] == LogOf(s.rounds);
    case Inserting(g, n, synced) =>
      if n < |g.entries| {
        assert g.entries[..n + 1] == g.entries[..n] + [g.entries[n]];
      } else {
        assert g.entries[..n] == g.entries;
      }
    case _ =>
  }

  lemma LeaderMovesItself(s: Queue, a: Action, t: Queue)
    requires a.NothingToWrite? || a.Append? || a.Sync? || a.InsertOne? || a.Inserted?
    requires LeaderStep(s, a, t)
    ensures a.id in t.threads && Leads(s.threads[a.id].phase) && Leads(t.threads[a.id].phase)
    ensures t == Go(s, a.id, t.threads[a.id].phase).(log := t.log, mem := t.mem)
  {
  }

  lemma LeaderInv(s: Queue, a: Action, t: Queue)
    requires a.NothingToWrite? || a.Append? || a.Sync? || a.InsertOne? || a.Inserted?
    requires Inv(s) && LeaderStep(s, a, t)
    ensures Inv(t)
  {
    hide RoundsOk;
    hide Fifo;
    hide FrontLeads;
    hide FrontRuns;
    hide StoresOk;
    hide LedOk;
    hide GroupIsPrefix;
    hide Carries;
    LeaderMovesItself(s, a, t);
    LeaderMoves(s, a.id, t, t.threads[a.id].phase);
    LeaderStores(s, a.id, t);
  }

  lemma EndThreads(s: Queue, id: nat, t: Queue)
    requires FrontLeads(s) && EndStep(s, id, t)
    ensures Carries(s.threads, t.threads) && t.threads.Keys == s.threads.Keys
    ensures forall x :: x in s.threads[id].phase.g.ids ==> x in s.threads && Got(t.threads[x], s.threads[id].phase.ok)
  {
    var g := s.threads[id].phase.g;
    forall x | x in g.ids
      ensures x in s.threads && Got(t.threads[x], s.threads[id].phase.ok)
    {
      assert x in s.queue;
      assert Leads(s.threads[x].phase) ==> x == id;
    }
    forall x | x in s.threads
      ensures forall ok :: Got(s.threads[x], ok) ==> Got(t.threads[x], ok)
    {
      assert x in s.queue ==> !s.threads[x].done && !s.threads[x].phase.Returned?;
      assert x in g.ids ==> x in s.queue;
    }
  }

  /** The threads of the group leave the queue, from its front. */
  lemma EndQueue(s: Queue, id: nat, t: Queue)
    requires Fifo(s) && FrontLeads(s) && EndStep(s, id, t)
    ensures s.queue != [] && s.queue[0] == id && s.queue == s.threads[id].phase.g.ids + t.queue
    ensures IdsOf(t.rounds) + t.queue == s.arrivals
    ensures forall x :: x in t.queue ==> x in s.queue && x !in s.threads[id].phase.g.ids && x != id
  {
    hide LedOk;
    var g := s.threads[id].phase.g;
    assert t.rounds[..|t.rounds| - 1] == s.rounds;
    var before := IdsOf(s.rounds);
    assert g.ids == s.queue[..|g.ids|] && g.ids[0] == id;
    assert before + s.queue == (before + g.ids) + t.queue;
    forall x | x in t.queue
      ensures x in s.queue && x !in g.ids && x != id
    {
      if x in g.ids {
        NotInBoth(before + g.ids, t.queue, x);
        assert false;
      }
    }
  }

  lemma EndFifo(s: Queue, id: nat, t: Queue)
    requires Fifo(s) && FrontLeads(s) && EndStep(s, id, t)
    ensures Fifo(t) && FrontLeads(t) && FrontRuns(t)
    ensures t.queue != [] ==> t.threads[t.queue[0]].phase.Waiting?
  {
    EndThreads(s, id, t);
    EndQueue(s, id, t);
    hide IdsOf;
    hide Carries;
    hide NoneTwice;
    EndLeads(s, id, t);
  }

  /** No thread leads any more, and the new front has been signalled. */
  lemma EndLeads(s: Queue, id: nat, t: Queue)
    requires FrontLeads(s) && EndStep(s, id, t)
    requires forall x :: x in t.queue ==> x in s.queue && x !in s.threads[id].phase.g.ids && x != id
    ensures FrontLeads(t) && FrontRuns(t)
    ensures t.queue != [] ==> t.queue[0] in t.threads && t.threads[t.queue[0]].phase.Waiting?
  {
    forall x | x in t.queue
      ensures x in t.threads && t.threads[x].phase.Waiting? && !t.threads[x].done
    {
      assert x in s.threads && !Leads(s.threads[x].phase);
    }
    forall x | x in t.threads
      ensures !Leads(t.threads[x].phase)
    {
      assert Leads(s.threads[x].phase) ==> x == id;
    }
  }

  lemma EndRounds(s: Queue, id: nat, t: Queue)
    requires Fifo(s) && FrontLeads(s) && RoundsOk(s) && StoresOk(s) && EndStep(s, id, t)
    ensures RoundsOk(t)
  {
    hide RoundsOk;
    hide RoundOk;
    hide Carries;
    hide Released;
    var p := s.threads[id].phase;
    EndThreads(s, id, t);
    EndRound(s, id, t, p.g);
    RoundAdded(s, t, Round(p.g.ids, p.g.entries, p.logged, p.synced, p.ok));
  }

  lemma RoundAdded(s: Queue, t: Queue, r: Round)
    requires RoundsOk(s) && Carries(s.threads, t.threads) && RoundOk(t.threads, r, s.lastSequence + 1)
    requires t.rounds == s.rounds + [r] && t.lastSequence == s.lastSequence + |r.entries|
    ensures RoundsOk(t)
  {
    hide RoundOk;
    hide Carries;
    hide Used;
    var n := |s.rounds|;
    assert t.rounds[..n] == s.rounds;
    UsedNext(t.rounds, n);
    assert t.rounds[..n + 1] == t.rounds;
    forall i | 0 <= i < n
      ensures RoundOk(t.threads, t.rounds[i], Used(t.rounds[..i]) + 1)
    {
      assert t.rounds[..i] == s.rounds[..i];
      RoundKept(s.threads, t.threads, s.rounds[i], Used(s.rounds[..i]) + 1);
    }
    assert RoundOk(t.threads, t.rounds[n], Used(t.rounds[..n]) + 1);
  }

  lemma EndStores(s: Queue, id: nat, t: Queue)
    requires Fifo(s) && FrontLeads(s) && StoresOk(s) && EndStep(s, id, t)
    ensures StoresOk(t)
  {
    hide LedOk;
    hide EndingOk;
    hide Released;
    hide FrontRuns;
    hide Fifo;
    hide FrontLeads;
    hide GroupIsPrefix;
    EndFifo(s, id, t);
    EndQueue(s, id, t);
    hide IdsOf;
    assert t.rounds[..|t.rounds| - 1] == s.rounds;
  }

  /** The group just ended is a round like the others. */
  lemma EndRound(s: Queue, id: nat, t: Queue, g: Led)
    requires Fifo(s) && FrontLeads(s) && StoresOk(s) && Carries(s.threads, t.threads)
    requires id in s.threads && s.threads[id].phase.Ending? && s.threads[id].phase.g == g
    requires forall x :: x in g.ids ==> x in s.threads && Got(t.threads[x], s.threads[id].phase.ok)
    ensures var p := s.threads[id].phase;
      RoundOk(t.threads, Round(g.ids, g.entries, p.logged, p.synced, p.ok), s.lastSequence + 1)
  {
    OpsKept(s.threads, t.threads, g.ids);
    if g == Led([id], []) {
      assert g.ids[..0] == [];
    }
  }

  /** Every step keeps the invariant, whoever takes it. */
  lemma StepInv(s: Queue, a: Action, t: Queue, bytes: Batch -> nat)
    requires Inv(s) && Step(s, a, t, bytes)
    ensures Inv(t)
  {
    hide Inv;
    hide RoomStep;
    hide EndStep;
    hide LeaderStep;
    match a
    case Arrive(id, batch, sync) => ArriveInv(s, id, batch, sync, t);
    case Test(id) => TestInv(s, id, t);
    case Spurious(id) => SpuriousInv(s, id, t);
    case RoomMade(id, n) => RoomMadeInv(s, id, n, t, bytes);
    case End(id) =>
      EndInv(s, id, t);
    case _ => LeaderInv(s, a, t);
  }

  lemma EndInv(s: Queue, id: nat, t: Queue)
    requires Inv(s) && EndStep(s, id, t)
    ensures Inv(t)
  {
    hide EndStep;
    hide FrontLeads;
    hide FrontRuns;
    hide Fifo;
    hide RoundsOk;
    hide StoresOk;
    EndFifo(s, id, t);
    EndRounds(s, id, t);
    EndStores(s, id, t);
  }

  // ----- every run -----

  ghost predicate IsRun(states: seq<Queue>, actions: seq<Action>, bytes: Batch -> nat)
  {
    && |states| == |actions| + 1 && Initial(states[0])
    && forall i :: 0 <= i < |actions| ==> Step(states[i], actions[i], states[i + 1], bytes)
  }

  lemma InitialInv(s: Queue)
    requires Initial(s)
    ensures Inv(s)
  {
  }

  lemma {:induction false} RunInv(states: seq<Queue>, actions: seq<Action>, bytes: Batch -> nat, n: nat)
    requires IsRun(states, actions, bytes) && n < |states|
    ensures Inv(states[n])
  {
    hide Inv;
    hide Step;
    hide Initial;
    if n == 0 {
      InitialInv(states[0]);
    } else {
      RunInv(states, actions, bytes, n - 1);
      StepInv(states[n - 1], actions[n - 1], states[n], bytes);
    }
  }

  /** At most one thread leads, and the front is never left asleep. */
  lemma OneLeader(states: seq<Queue>, actions: seq<Action>, bytes: Batch -> nat, n: nat, a: nat, b: nat)
    requires IsRun(states, actions, bytes) && n < |states|
    ensures var threads := states[n].threads;
      a in threads && b in threads && Leads(threads[a].phase) && Leads(threads[b].phase) ==> a == b
    ensures states[n].queue != [] ==> states[n].queue[0] in states[n].threads && FrontRuns(states[n])
  {
    RunInv(states, actions, bytes, n);
  }

  /** Groups are numbered one after the other, in the order their writers came: group
      `i` takes the numbers right after those of the groups before it. */
  lemma GroupsInOrder(states: seq<Queue>, actions: seq<Action>, bytes: Batch -> nat, n: nat, i: nat, j: nat)
    requires IsRun(states, actions, bytes) && n < |states| && i < j < |states[n].rounds|
    ensures var s := states[n];
      && IdsOf(s.rounds) + s.queue == s.arrivals && s.lastSequence == Used(s.rounds)
      && (forall a :: 0 <= a < |s.rounds[i].entries| ==> s.rounds[i].entries[a].seqno == Used(s.rounds[..i]) + 1 + a)
      && Used(s.rounds[..i + 1]) == Used(s.rounds[..i]) + |s.rounds[i].entries|
      && forall x, y :: x in s.rounds[i].entries && y in s.rounds[j].entries ==> x.seqno < y.seqno
  {
    hide Inv;
    hide Step;
    hide Used;
    hide IdsOf;
    var s := states[n];
    RunInv(states, actions, bytes, n);
    InvRounds(s);
    hide RoundsOk;
    hide Fifo;
    UsedGrows(s.rounds, i + 1, j);
    UsedNext(s.rounds, i);
    OwnNumbers(s, i);
    RoundNumbers(s, i);
    RoundNumbers(s, j);
  }

  lemma InvRounds(s: Queue)
    requires Inv(s)
    ensures RoundsOk(s) && IdsOf(s.rounds) + s.queue == s.arrivals && s.lastSequence == Used(s.rounds)
  {
  }

  lemma OwnNumbers(s: Queue, i: nat)
    requires RoundsOk(s) && i < |s.rounds|
    ensures forall a :: 0 <= a < |s.rounds[i].entries| ==> s.rounds[i].entries[a].seqno == Used(s.rounds[..i]) + 1 + a
  {
    hide Used;
    assert RoundOk(s.threads, s.rounds[i], Used(s.rounds[..i]) + 1);
  }

  lemma {:induction false} UsedGrows(rounds: seq<Round>, i: nat, j: nat)
    requires i <= j <= |rounds|
    ensures Used(rounds[..i]) <= Used(rounds[..j])
    decreases j
  {
    if i < j {
      assert rounds[..j][..j - 1] == rounds[..j - 1];
      UsedGrows(rounds, i, j - 1);
    }
  }

  lemma UsedNext(rounds: seq<Round>, i: nat)
    requires i < |rounds|
    ensures Used(rounds[..i + 1]) == Used(rounds[..i]) + |rounds[i].entries|
  {
    assert rounds[..i + 1][..i] == rounds[..i];
  }

  lemma RoundNumbers(s: Queue, i: nat)
    requires RoundsOk(s) && i < |s.rounds|
    ensures forall x :: x in s.rounds[i].entries ==> Used(s.rounds[..i]) < x.seqno <= Used(s.rounds[..i + 1])
  {
    UsedNext(s.rounds, i);
    assert RoundOk(s.threads, s.rounds[i], Used(s.rounds[..i]) + 1);
  }

  /** A read at the published sequence sees whole groups: the memtable is what the
      finished groups put there, followed by entries too new to be seen. */
  lemma ReadsSeeWholeGroups(states: seq<Queue>, actions: seq<Action>, bytes: Batch -> nat, n: nat)
    requires IsRun(states, actions, bytes) && n < |states|
    ensures var s := states[n];
      MemOf(s.rounds) <= s.mem && forall i :: 0 <= i < |s.mem| ==> (s.mem[i].seqno <= s.lastSequence <==>
        i < |MemOf(s.rounds)|)
  {
    var s := states[n];
    RunInv(states, actions, bytes, n);
    FinishedNumbers(s, |s.rounds|);
    assert s.rounds[..|s.rounds|] == s.rounds;
    PendingNumbers(s);
    forall i | 0 <= i < |MemOf(s.rounds)|
      ensures s.mem[i].seqno <= s.lastSequence
    {
      assert MemOf(s.rounds)[i] in MemOf(s.rounds);
    }
  }

  lemma {:induction false} FinishedNumbers(s: Queue, n: nat)
    requires RoundsOk(s) && n <= |s.rounds|
    ensures forall x :: x in MemOf(s.rounds[..n]) ==> x.seqno <= Used(s.rounds[..n])
  {
    if n > 0 {
      FinishedNumbers(s, n - 1);
      RoundNumbers(s, n - 1);
      UsedGrows(s.rounds, n - 1, n);
      assert s.rounds[..n][..n - 1] == s.rounds[..n - 1];
    }
  }

  lemma PendingNumbers(s: Queue)
    requires FrontLeads(s) && StoresOk(s)
    ensures MemOf(s.rounds) <= s.mem
    ensures forall i :: |MemOf(s.rounds)| <= i < |s.mem| ==> s.mem[i].seqno > s.lastSequence
  {
  }

  /** Where the operations of one writer of a group ended up. */
  lemma {:induction false} OwnOps(threads: map<nat, Thread>, ids: seq<nat>, k: nat) returns (at: nat)
    requires (forall id :: id in ids ==> id in threads) && k < |ids| && threads[ids[k]].batch.Some?
    ensures var ops := threads[ids[k]].batch.value;
      at + |ops| <= |OpsOf(threads, ids)| && OpsOf(threads, ids)[at..at + |ops|] == ops
  {
    var init := ids[..|ids| - 1];
    if k == |ids| - 1 {
      at := |OpsOf(threads, init)|;
    } else {
      at := OwnOps(threads, init, k);
    }
  }

  /** The group that carried a successful writer: it is the only one, it was logged
      (and synced if the writer asked for it), and the writer's operations are in
      it, in order, under consecutive numbers. */
  ghost predicate CarriedBy(s: Queue, id: nat, i: nat, at: nat)
  {
    && i < |s.rounds| && id in s.threads && s.threads[id].batch.Some?
    && var r, ops := s.rounds[i], s.threads[id].batch.value;
    && id in r.ids && r.ok && r.logged && (s.threads[id].sync ==> r.synced)
    && (forall j :: 0 <= j < |s.rounds| && id in s.rounds[j].ids ==> j == i)
    && at + |ops| <= |r.entries| && r.entries[at..at + |ops|] == Numbering(ops, Used(s.rounds[..i]) + 1 + at)
  }

  lemma ExactlyOnce(states: seq<Queue>, actions: seq<Action>, bytes: Batch -> nat, n: nat, id: nat)
    requires IsRun(states, actions, bytes) && n < |states|
    requires id in states[n].threads && states[n].threads[id].phase == Returned(true)
    requires states[n].threads[id].batch.Some?
    ensures exists i, at :: CarriedBy(states[n], id, i, at)
    ensures exists rest :: states[n].log == LogOf(states[n].rounds) + rest
    ensures exists rest :: states[n].mem == MemOf(states[n].rounds) + rest
  {
    var s := states[n];
    RunInv(states, actions, bytes, n);
    InQueueOrThrough(s, id);
    assert id in IdsOf(s.rounds) + s.queue;
    RoundOfId(s.rounds, id);
    var i :| 0 <= i < |s.rounds| && id in s.rounds[i].ids;
    Carried(s, id, i);
    StoresHoldRounds(s);
  }

  lemma StoresHoldRounds(s: Queue)
    requires StoresOk(s)
    ensures exists rest :: s.log == LogOf(s.rounds) + rest
    ensures exists rest :: s.mem == MemOf(s.rounds) + rest
  {
    assert s.log == LogOf(s.rounds) + s.log[|LogOf(s.rounds)|..];
    assert s.mem == MemOf(s.rounds) + s.mem[|MemOf(s.rounds)|..];
  }

  lemma Carried(s: Queue, id: nat, i: nat)
    requires Fifo(s) && RoundsOk(s) && i < |s.rounds| && id in s.rounds[i].ids
    requires id in s.threads && s.threads[id].phase == Returned(true) && s.threads[id].batch.Some?
    ensures exists at :: CarriedBy(s, id, i, at)
  {
    hide RoundOk;
    assert RoundOk(s.threads, s.rounds[i], Used(s.rounds[..i]) + 1);
    hide RoundsOk;
    var at := RoundHoldsOps(s.threads, s.rounds[i], Used(s.rounds[..i]) + 1, id);
    hide Used;
    forall j | 0 <= j < |s.rounds| && id in s.rounds[j].ids
      ensures j == i
    {
      NoneTwicePrefix(IdsOf(s.rounds), s.queue);
      RoundsApart(s.rounds, i, j, id);
    }
    assert CarriedBy(s, id, i, at);
  }

  lemma RoundHoldsOps(threads: map<nat, Thread>, r: Round, first: nat, id: nat) returns (at: nat)
    requires RoundOk(threads, r, first) && id in r.ids
    requires id in threads && threads[id].phase == Returned(true) && threads[id].batch.Some?
    ensures r.ok && r.logged && (threads[id].sync ==> r.synced)
    ensures var ops := threads[id].batch.value;
      at + |ops| <= |r.entries| && r.entries[at..at + |ops|] == Numbering(ops, first + at)
  {
    assert Got(threads[id], r.ok);
    hide OpsOf;
    hide Numbering;
    var k :| 0 <= k < |r.ids| && r.ids[k] == id;
    at := OwnOps(threads, r.ids, k);
    NumberedPart(OpsOf(threads, r.ids), first, at, threads[id].batch.value);
  }

  lemma NumberedPart(all: Batch, first: nat, at: nat, ops: Batch)
    requires at + |ops| <= |all| && all[at..at + |ops|] == ops
    ensures Numbering(all, first)[at..at + |ops|] == Numbering(ops, first + at)
  {
    var part := Numbering(all, first)[at..at + |ops|];
    forall a | 0 <= a < |part|
      ensures part[a] == Numbering(ops, first + at)[a]
    {
      assert all[at..at + |ops|][a] == ops[a];
    }
  }

  lemma NoneTwicePrefix(a: seq<nat>, b: seq<nat>)
    requires NoneTwice(a + b)
    ensures NoneTwice(a)
  {
    forall i, j | 0 <= i < j < |a|
      ensures a[i] != a[j]
    {
      assert (a + b)[i] == a[i] && (a + b)[j] == a[j];
    }
  }

  lemma {:induction false} RoundsApart(rounds: seq<Round>, i: nat, j: nat, id: nat)
    requires NoneTwice(IdsOf(rounds)) && i < |rounds| && j < |rounds| && id in rounds[i].ids && id in rounds[j].ids
    ensures i == j
  {
    var last := |rounds| - 1;
    var init := rounds[..last];
    if i < last && j < last {
      NoneTwicePrefix(IdsOf(init), rounds[last].ids);
      RoundsApart(init, i, j, id);
    } else if i != j {
      var k := if i < last then i else j;
      RoundOfId(init, id);
      assert id in init[k].ids;
      NotInBoth(IdsOf(init), rounds[last].ids, id);
      assert false;
    }
  }
}
