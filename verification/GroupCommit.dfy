/** The writer queue drives the store: what a leader does to the log, the memtable and
    the published sequence number are the store's steps (db/db_impl.cc, Write). */
module GroupCommit {
  import opened Wrappers
  import opened Keys
  import opened Store
  import MemTable
  import Runs
  import Q = WriterQueue

  /** What the front of the queue is doing. */
  function Front(q: Q.Queue): Q.Phase
  {
    if q.queue != [] && q.queue[0] in q.threads then q.threads[q.queue[0]].phase else Q.Waiting
  }

  /** The groups that are through and reached the log. */
  function GroupsOf(rounds: seq<Q.Round>): seq<Group>
  {
    if rounds == [] then []
    else
      var r := rounds[|rounds| - 1];
      GroupsOf(rounds[..|rounds| - 1]) + (if r.logged then [r.entries] else [])
  }

  /** The group in the log that is not published yet, if any, and how much of it is inserted. */
  function InHand(p: Q.Phase): Option<(Group, nat)>
  {
    match p
    case Syncing(g) => Some((g.entries, 0))
    case Inserting(g, n, _) => Some((g.entries, n))
    case Ending(g, logged, _, _) => if logged then Some((g.entries, |g.entries|)) else None
    case _ => None
  }

  /** The store holds what the queue has put into it, and nothing has failed. */
  ghost predicate Agrees(q: Q.Queue, s: State)
  {
    var done, hand := GroupsOf(q.rounds), InHand(Front(q));
    && s.lastSequence == q.lastSequence && s.published == |done|
    && (Front(q).Ending? ==> Front(q).ok)
    && s.groups == done + (if hand.Some? then [hand.value.0] else [])
    && s.inserted == |Flatten(done)| + (if hand.Some? then hand.value.1 else 0)
    && (hand.Some? ==> hand.value.1 <= |hand.value.0|)
  }

  /** The step of the store that an action of the queue is; the others leave it alone. */
  function LabelOf(q: Q.Queue, a: Q.Action): Option<Runs.Label>
    requires a.Append? || a.End? ==> a.id in q.threads
    requires a.Append? && q.threads[a.id].phase.Logging? ==> forall id :: id in q.threads[a.id].phase.g.ids ==>
      id in q.threads
  {
    match a
    case Append(id, _) =>
      if q.threads[id].phase.Logging? then Some(Runs.Log(Q.OpsOf(q.threads, q.threads[id].phase.g.ids))) else None
    case InsertOne(_) => Some(Runs.Insert)
    case End(id) => if q.threads[id].phase.Ending? && q.threads[id].phase.logged then Some(Runs.PublishGroup) else None
    case _ => None
  }

  /** No log append, sync or room making fails. */
  predicate Succeeds(a: Q.Action)
  {
    a.NothingToWrite? || a.Append? || a.Sync? ==> a.ok
  }

  lemma Enabled(q: Q.Queue, a: Q.Action, t: Q.Queue, bytes: Q.Batch -> nat)
    requires Q.Inv(q) && Q.Step(q, a, t, bytes)
    ensures a.Append? || a.End? ==> a.id in q.threads
    ensures a.Append? ==> q.threads[a.id].phase.Logging? && Front(q) == q.threads[a.id].phase
    ensures a.Append? ==> var g := q.threads[a.id].phase.g;
      && (forall id :: id in g.ids ==> id in q.threads)
      && g.entries == Numbering(Q.OpsOf(q.threads, g.ids), q.lastSequence + 1)
  {
    if a.Append? {
      assert Q.Leads(q.threads[a.id].phase);
    }
  }

  /** Every successful action of the queue is a step of the store, or none. */
  lemma Simulates(q: Q.Queue, a: Q.Action, t: Q.Queue, bytes: Q.Batch -> nat, s: State) returns (u: State)
    requires Q.Inv(q) && Q.Step(q, a, t, bytes) && Succeeds(a) && Agrees(q, s) && Inv(s)
    requires a.Append? ==> a.id in q.threads && q.threads[a.id].phase.Logging?
    requires a.Append? ==> |Writes(s)| + |q.threads[a.id].phase.g.entries| < MAX_SEQUENCE
    ensures a.Append? || a.End? ==> a.id in q.threads
    ensures a.Append? ==> forall id :: id in q.threads[a.id].phase.g.ids ==> id in q.threads
    ensures match LabelOf(q, a)
      case None => u == s
      case Some(move) => Runs.Step(s, move, u)
    ensures Agrees(t, u) && Q.Inv(t) && Inv(u)
    ensures a.InsertOne? ==> s.inserted < |Writes(s)| && t.mem == q.mem + [Writes(s)[s.inserted]]
  {
    hide Q.Inv;
    hide Inv;
    hide Agrees;
    hide Runs.Step;
    hide Q.OpsOf;
    u := s;
    Enabled(q, a, t, bytes);
    Q.StepInv(q, a, t, bytes);
    match a {
      case Append(id, _) => u := AppendSimulates(q, id, t, s);
      case InsertOne(id) => u := InsertSimulates(q, id, t, s);
      case End(id) => u := EndSimulates(q, id, t, s);
      case _ => FrontKeeps(q, a, t, bytes, s);
    }
  }

  lemma AppendSimulates(q: Q.Queue, id: nat, t: Q.Queue, s: State) returns (u: State)
    requires Q.Inv(q) && Q.LeaderStep(q, Q.Append(id, true), t) && Agrees(q, s) && Inv(s)
    requires |Writes(s)| + |q.threads[id].phase.g.entries| < MAX_SEQUENCE
    requires forall x :: x in q.threads[id].phase.g.ids ==> x in q.threads
    requires var g := q.threads[id].phase.g; g.entries == Numbering(Q.OpsOf(q.threads, g.ids), q.lastSequence + 1)
    ensures Runs.Step(s, Runs.Log(Q.OpsOf(q.threads, q.threads[id].phase.g.ids)), u) && Agrees(t, u) && Inv(u)
  {
    hide Q.Inv;
    hide Inv;
    hide Q.OpsOf;
    hide Writes;
    LeaderIsFront(q, id);
    LogThere(s);
    var ops := Q.OpsOf(q.threads, q.threads[id].phase.g.ids);
    u := LogGroup(s, ops);
    LogGroupInv(s, ops);
  }

  lemma InsertSimulates(q: Q.Queue, id: nat, t: Q.Queue, s: State) returns (u: State)
    requires Q.Inv(q) && Q.LeaderStep(q, Q.InsertOne(id), t) && Agrees(q, s) && Inv(s)
    ensures Runs.Step(s, Runs.Insert, u) && Agrees(t, u) && Inv(u)
    ensures s.inserted < |Writes(s)| && t.mem == q.mem + [Writes(s)[s.inserted]]
  {
    hide Q.Inv;
    hide Inv;
    hide Flatten;
    hide MemTable.Add;
    LeaderIsFront(q, id);
    var p := q.threads[id].phase;
    FlattenAppend(GroupsOf(q.rounds), p.g.entries);
    hide GroupsOf;
    u := InsertOne(s);
    InsertOneInv(s);
  }

  lemma EndSimulates(q: Q.Queue, id: nat, t: Q.Queue, s: State) returns (u: State)
    requires Q.Inv(q) && Q.Inv(t) && Q.EndStep(q, id, t) && Agrees(q, s) && Inv(s)
    ensures id in q.threads && q.threads[id].phase.Ending?
    ensures if q.threads[id].phase.logged then Runs.Step(s, Runs.PublishGroup, u) else u == s
    ensures Agrees(t, u) && Inv(u)
  {
    hide Q.Inv;
    hide Q.EndStep;
    hide Inv;
    hide Flatten;
    hide GroupsOf;
    hide Agrees;
    hide Runs.Step;
    hide Publish;
    RoundsAfter(q, id, t);
    var p := q.threads[id].phase;
    LeaderIsFront(q, id);
    NewFront(q, id, t);
    hide Front;
    Sequenced(s);
    FrontOk(q, s);
    if p.logged {
      u := Publish(s);
      LoggedAll(q, s, p);
      PublishInv(s);
      PublishIsStep(s);
    } else {
      u := s;
      NothingLogged(q, id);
    }
    EndAgrees(q, p, t, s, u);
  }

  lemma FrontOk(q: Q.Queue, s: State)
    requires Agrees(q, s)
    ensures Front(q).Ending? ==> Front(q).ok
  {
  }

  lemma PublishIsStep(s: State)
    requires s.inserted == |Writes(s)|
    ensures Runs.Step(s, Runs.PublishGroup, Publish(s))
  {
  }

  lemma LoggedAll(q: Q.Queue, s: State, p: Q.Phase)
    requires Agrees(q, s) && Front(q) == p && p.Ending? && p.logged
    ensures s.inserted == |Writes(s)| && |Writes(s)| == |Flatten(GroupsOf(q.rounds))| + |p.g.entries|
    ensures s.groups == GroupsOf(q.rounds) + [p.g.entries]
  {
    FlattenAppend(GroupsOf(q.rounds), p.g.entries);
  }

  lemma EndAgrees(q: Q.Queue, p: Q.Phase, t: Q.Queue, s: State, u: State)
    requires Agrees(q, s) && p.Ending? && Front(q) == p && Front(t).Waiting?
    requires GroupsOf(t.rounds) == GroupsOf(q.rounds) + (if p.logged then [p.g.entries] else [])
    requires t.lastSequence == q.lastSequence + |p.g.entries|
    requires s.published <= |s.groups| && s.lastSequence == |Flatten(s.groups[..s.published])|
    requires if p.logged then u == Publish(s) else u == s && p.g.entries == []
    ensures Agrees(t, u)
  {
    hide GroupsOf;
    hide Front;
    if p.logged {
      LoggedAll(q, s, p);
      assert s.groups[..s.published] == GroupsOf(q.rounds);
    }
    assert GroupsOf(t.rounds) + [] == GroupsOf(t.rounds) && GroupsOf(q.rounds) + [] == GroupsOf(q.rounds);
    assert s.groups == GroupsOf(t.rounds);
  }

  lemma RoundsAfter(q: Q.Queue, id: nat, t: Q.Queue)
    requires Q.EndStep(q, id, t)
    ensures id in q.threads && q.threads[id].phase.Ending?
    ensures var p := q.threads[id].phase;
      && GroupsOf(t.rounds) == GroupsOf(q.rounds) + (if p.logged then [p.g.entries] else [])
      && t.lastSequence == q.lastSequence + |p.g.entries|
  {
    assert t.rounds[..|t.rounds| - 1] == q.rounds;
  }

  lemma LeaderIsFront(q: Q.Queue, id: nat)
    requires Q.Inv(q) && id in q.threads && Q.Leads(q.threads[id].phase)
    ensures q.queue != [] && q.queue[0] == id && Front(q) == q.threads[id].phase
  {
  }

  lemma LogThere(s: State)
    requires Inv(s)
    ensures s.logFile in s.logs
  {
  }

  /** The published sequence number counts the published writes. */
  lemma Sequenced(s: State)
    requires Inv(s)
    ensures s.published <= |s.groups| && s.lastSequence == |Flatten(s.groups[..s.published])|
  {
  }

  lemma NothingLogged(q: Q.Queue, id: nat)
    requires Q.Inv(q) && q.queue != [] && q.queue[0] == id && id in q.threads
    requires q.threads[id].phase.Ending? && q.threads[id].phase.ok && !q.threads[id].phase.logged
    ensures q.threads[id].phase.g.entries == []
  {
  }

  /** After a group is through nobody leads. */
  lemma NewFront(q: Q.Queue, id: nat, t: Q.Queue)
    requires Q.Inv(q) && Q.EndStep(q, id, t)
    ensures Front(t).Waiting?
  {
    hide Q.EndStep;
    Q.EndFifo(q, id, t);
  }

  /** Arrivals, wake-ups and the other steps of a leader do not touch the store. */
  lemma FrontKeeps(q: Q.Queue, a: Q.Action, t: Q.Queue, bytes: Q.Batch -> nat, s: State)
    requires Q.Inv(q) && Q.Step(q, a, t, bytes) && Succeeds(a) && Agrees(q, s)
    requires !a.Append? && !a.InsertOne? && !a.End?
    ensures Agrees(t, s)
  {
    assert t.rounds == q.rounds && t.lastSequence == q.lastSequence;
    SameHand(q, a, t, bytes);
  }

  lemma FrontIn(q: Q.Queue)
    requires Q.Inv(q)
    ensures q.queue != [] ==> q.queue[0] in q.threads
    ensures forall id :: id in q.queue ==> id in q.threads && !q.threads[id].done
  {
  }

  /** A thread that waits, or tests its condition, has nothing in hand. */
  lemma OtherThread(q: Q.Queue, id: nat, thread: Q.Thread, t: Q.Queue)
    requires id in q.threads && InHand(q.threads[id].phase).None? && !q.threads[id].phase.Ending?
    requires InHand(thread.phase).None? && (thread.phase.Ending? ==> thread.phase.ok)
    requires t == Q.Put(q, id, thread) && (Front(q).Ending? ==> Front(q).ok)
    ensures InHand(Front(t)) == InHand(Front(q)) && (Front(t).Ending? ==> Front(t).ok)
  {
  }

  lemma SameHand(q: Q.Queue, a: Q.Action, t: Q.Queue, bytes: Q.Batch -> nat)
    requires Q.Inv(q) && Q.Step(q, a, t, bytes) && Succeeds(a) && (Front(q).Ending? ==> Front(q).ok)
    requires !a.Append? && !a.InsertOne? && !a.End?
    ensures InHand(Front(t)) == InHand(Front(q)) && (Front(t).Ending? ==> Front(t).ok)
  {
    hide Q.Inv;
    FrontIn(q);
    match a {
      case Arrive(id, batch, sync) =>
        assert q.queue != [] ==> t.queue[0] == q.queue[0] && q.queue[0] in q.threads;
      case Sync(id, ok) =>
        LeaderIsFront(q, id);
        assert Front(t) == t.threads[id].phase;
      case Inserted(id) =>
        LeaderIsFront(q, id);
        assert Front(t) == t.threads[id].phase;
      case _ =>
        hide Front;
        hide InHand;
        OtherSteps(q, a, t, bytes);
    }
  }

  lemma OtherSteps(q: Q.Queue, a: Q.Action, t: Q.Queue, bytes: Q.Batch -> nat)
    requires Q.Step(q, a, t, bytes) && Succeeds(a) && (Front(q).Ending? ==> Front(q).ok)
    requires a.Test? || a.Spurious? || a.RoomMade? || a.NothingToWrite?
    ensures InHand(Front(t)) == InHand(Front(q)) && (Front(t).Ending? ==> Front(t).ok)
  {
    hide Front;
    hide Q.IsGroup;
    hide Q.OpsOf;
    hide Numbering;
    OtherThread(q, a.id, t.threads[a.id], t);
  }

  /** Background work goes on between a leader's steps without disturbing them. */
  lemma BackgroundKeeps(q: Q.Queue, s: State, move: Runs.Label, u: State)
    requires Agrees(q, s) && Inv(s) && Runs.Step(s, move, u)
    requires !move.Log? && !move.Insert? && !move.PublishGroup? && !move.CrashAndReopen?
    ensures Agrees(q, u) && Inv(u)
  {
    hide Inv;
    Runs.StepInv(s, move, u);
    hide Agrees;
    assert u.groups == s.groups && u.published == s.published;
    assert u.inserted == s.inserted && u.lastSequence == s.lastSequence;
    AgreesSame(q, s, u);
  }

  lemma AgreesSame(q: Q.Queue, s: State, u: State)
    requires Agrees(q, s)
    requires u.groups == s.groups && u.published == s.published && u.inserted == s.inserted
    requires u.lastSequence == s.lastSequence
    ensures Agrees(q, u)
  {
  }

  /** An empty queue and a database just created agree. */
  lemma AgreesAtFirst(q: Q.Queue, s: State)
    requires Q.Initial(q) && Runs.Initial(s)
    ensures Agrees(q, s)
  {
  }
}
