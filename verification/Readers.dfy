/** Readers that hold on to the tables they looked up (db/db_impl.cc, DBImpl::Get):
    between taking its references and searching, a reader has given up the mutex. */
module Readers {
  import opened Wrappers
  import opened Keys
  import opened VersionGet
  import opened History
  import opened Store
  import opened Runs

  /** A memtable some reader holds: what is in it now, and whether writers still insert into it. */
  datatype Table = Table(entries: seq<Entry>, current: bool)

  /** The memtable that was current at state `i`, as it is at state `j`: it follows the
      store's until a switch makes it immutable. */
  ghost function TableAt(states: seq<State>, labels: seq<Label>, i: nat, j: nat): Table
    requires i <= j < |states| && |states| == |labels| + 1
    decreases j
  {
    if j == i then Table(states[i].mem, true)
    else
      var was := TableAt(states, labels, i, j - 1);
      if !was.current then was
      else if labels[j - 1].Switch? then Table(was.entries, false)
      else Table(states[j].mem, true)
  }

  ghost predicate NoCrash(labels: seq<Label>, i: nat, j: nat)
    requires i <= j <= |labels|
  {
    forall m :: i <= m < j ==> !labels[m].CrashAndReopen?
  }

  /** `later` is the memtable of `s`, possibly with entries too new for a reader in `s`. */
  ghost predicate Grown(s: State, later: seq<Entry>)
  {
    && StrictlySorted(later) && (forall x :: x in s.mem ==> x in later)
    && (forall x :: x in later && x !in s.mem ==> x.seqno > s.lastSequence)
    && (forall x, y :: x in later && y in later && x.seqno == y.seqno ==> x == y)
  }

  /** `t` still fills the memtable of `s`, and has all its writes. */
  ghost predicate Fills(s: State, t: State)
  {
    t.memStart == s.memStart && s.inserted <= t.inserted && Writes(s) <= Writes(t)
  }

  lemma StepFills(s: State, a: Label, t: State)
    requires Inv(s) && Step(s, a, t) && !a.CrashAndReopen? && !a.Switch?
    ensures Fills(s, t)
  {
    if a.Log? {
      GroupNumbers(s, a.ops);
    }
  }

  lemma FilledTable(s: State, t: State)
    requires Inv(s) && Inv(t) && Fills(s, t)
    ensures Grown(s, t.mem)
  {
    hide Writes;
    hide Holds;
    hide NumbersOk;
    hide ManifestOk;
    hide RecordedOk;
    hide LogsOk;
    hide RunningOk;
    hide StrictlySorted;
    assert s.lastSequence <= s.inserted <= |Writes(s)| && t.inserted <= |Writes(t)|;
    HoldsMore(s.mem, t.mem, Writes(s), Writes(t), s.memStart, s.inserted, t.inserted);
  }

  lemma HoldsMore(mem: seq<Entry>, later: seq<Entry>, w: seq<Entry>, longer: seq<Entry>, from: nat, n: nat, m: nat)
    requires Holds(mem, w, from, n) && Holds(later, longer, from, m) && n <= m <= |longer| && n <= |w| && w <= longer
    ensures StrictlySorted(later) && forall x :: x in mem ==> x in later
    ensures forall x :: x in later && x !in mem ==> x.seqno > n
    ensures forall x, y :: x in later && y in later && x.seqno == y.seqno ==> x == y
  {
    LongerHistory(w, longer, from, n);
    LongerHistory(w, longer, 0, n);
  }

  lemma {:induction false} HeldTable(states: seq<State>, labels: seq<Label>, i: nat, j: nat)
    requires IsRun(states, labels) && i <= j < |states| && NoCrash(labels, i, j)
    ensures var h := TableAt(states, labels, i, j);
      && Grown(states[i], h.entries) && (h.current ==> h.entries == states[j].mem && Fills(states[i], states[j]))
    decreases j
  {
    hide Step;
    hide Inv;
    hide Initial;
    hide Grown;
    RunInv(states, labels, i);
    RunInv(states, labels, j);
    if j == i {
      FilledTable(states[i], states[j]);
    } else {
      HeldTable(states, labels, i, j - 1);
      if TableAt(states, labels, i, j - 1).current && !labels[j - 1].Switch? {
        RunInv(states, labels, j - 1);
        StepFills(states[j - 1], labels[j - 1], states[j]);
        FilledTable(states[i], states[j]);
      }
    }
  }

  /** References taken in state `i`, entries read in state `j`: unless the process died
      in between, the answer is that of state `i`, whatever was inserted, switched,
      flushed or compacted meanwhile. */
  lemma ReadLater(states: seq<State>, labels: seq<Label>, i: nat, j: nat, k: Key, r: GetResult)
    requires IsRun(states, labels) && i <= j < |states| && NoCrash(labels, i, j)
    requires Gives(TableAt(states, labels, i, j).entries, states[i].imm, states[i].version, k,
                   states[i].lastSequence, r)
    ensures states[i].published <= |states[i].groups| && r == Expected(Visible(states[i]), k)
  {
    RunInv(states, labels, i);
    HeldTable(states, labels, i, j);
    GetCorrect(states[i], TableAt(states, labels, i, j).entries, k, r);
  }

  /** The table a reader took while it was current is later the current or the immutable
      memtable of the store, or one that only readers still hold. */
  lemma {:induction false} TableStays(states: seq<State>, labels: seq<Label>, i: nat, j: nat)
    requires IsRun(states, labels) && i < j < |states| && labels[j - 1].Switch?
    requires TableAt(states, labels, i, j - 1).current && NoCrash(labels, i, j)
    ensures states[j].imm == Some(TableAt(states, labels, i, j).entries)
  {
    hide Inv;
    HeldTable(states, labels, i, j - 1);
  }
}
