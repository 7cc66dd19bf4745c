/** What a read must return: the effect of the writes so far, and how the layers
    of the store combine to give it (db/db_impl.cc, DBImpl::Get). */
module History {
  import opened Keys
  import opened Files
  import opened VersionSteps
  import opened VersionGet

  /** The key-value map that a list of writes leaves behind. */
  function Contents(w: seq<Entry>): map<Key, Value>
  {
    if w == [] then map[]
    else
      var m := Contents(w[..|w| - 1]);
      var e := w[|w| - 1];
      match e.op
      case Put(value) => m[e.user := value]
      case Delete => m - {e.user}
  }

  function Expected(w: seq<Entry>, k: Key): GetResult
  {
    var m := Contents(w);
    if k in m then Found(m[k]) else NotFound
  }

  /** The map holds exactly the last puts that no later write covers. */
  lemma {:induction false} ContentsAreLastPuts(w: seq<Entry>, n: nat, k: Key, value: Value)
    requires n <= |w| && Numbered(w)
    ensures Expected(w[..n], k) == Found(value) <==>
      exists e: Entry :: e.user == k && e.op == Put(value) && LastPut(w, n, e)
  {
    if n > 0 {
      var last := w[n - 1];
      assert w[..n][..n - 1] == w[..n - 1];
      ContentsAreLastPuts(w, n - 1, k, value);
      if last.user == k {
        assert IsWrite(w, n, last);
        assert last.op == Put(value) ==> LastPut(w, n, last);
      } else {
        forall e: Entry | e.user == k
          ensures LastPut(w, n, e) <==> LastPut(w, n - 1, e)
        {
          assert e.seqno == n ==> w[n - 1] != e;
        }
      }
    }
  }

  lemma ExpectedFromLastPut(w: seq<Entry>, n: nat, k: Key, r: GetResult)
    requires n <= |w| && Numbered(w)
    requires r.Found? ==> exists e: Entry :: e.user == k && e.op == Put(r.value) && LastPut(w, n, e)
    requires r.NotFound? ==> forall e: Entry :: e.user == k ==> !LastPut(w, n, e)
    ensures r == Expected(w[..n], k)
  {
    var want := Expected(w[..n], k);
    if r.Found? {
      ContentsAreLastPuts(w, n, k, r.value);
    } else if want.Found? {
      ContentsAreLastPuts(w, n, k, want.value);
    }
  }

  function ResultOf(e: Entry): GetResult
  {
    match e.op
    case Put(value) => Found(value)
    case Delete => NotFound
  }

  /** The table holds exactly the writes numbered from + 1 to n, in key order. */
  ghost predicate Holds(mem: seq<Entry>, w: seq<Entry>, from: nat, n: nat)
  {
    StrictlySorted(mem) && forall e :: e in mem <==> from < e.seqno && IsWrite(w, n, e)
  }

  /** A hit in a table that holds the writes past `from` settles the read. */
  lemma TableHit(mem: seq<Entry>, w: seq<Entry>, from: nat, n: nat, k: Key, snapshot: nat)
    requires Numbered(w) && Holds(mem, w, from, n) && from <= snapshot <= |w|
    requires SeekUser(mem, k, snapshot).Some?
    requires snapshot <= n
    ensures ResultOf(SeekUser(mem, k, snapshot).value) == Expected(w[..snapshot], k)
  {
    SeekUserFindsNewest(mem, k, snapshot);
    var e := SeekUser(mem, k, snapshot).value;
    forall i | e.seqno <= i < snapshot
      ensures w[i].user != k
    {
      assert IsWrite(w, n, w[i]);
    }
    forall x: Entry | x.user == k && LastPut(w, snapshot, x)
      ensures x == e
    {
      assert x.seqno >= e.seqno ==> x.seqno == e.seqno;
    }
    if e.op.Put? {
      assert LastPut(w, snapshot, e);
    }
    ExpectedFromLastPut(w, snapshot, k, ResultOf(e));
  }

  /** A miss leaves the read to the writes up to `from`. */
  lemma TableMiss(mem: seq<Entry>, w: seq<Entry>, from: nat, n: nat, k: Key, snapshot: nat)
    requires Numbered(w) && Holds(mem, w, from, n) && from <= snapshot <= n <= |w|
    requires SeekUser(mem, k, snapshot).None?
    ensures Expected(w[..snapshot], k) == Expected(w[..from], k)
  {
    SeekUserFindsNewest(mem, k, snapshot);
    forall i | from <= i < snapshot
      ensures w[i].user != k
    {
      assert IsWrite(w, n, w[i]) && w[i] in mem;
    }
    forall e: Entry | e.user == k
      ensures LastPut(w, snapshot, e) <==> LastPut(w, from, e)
    {
      assert from < e.seqno <= snapshot ==> w[e.seqno - 1] != e;
    }
    var want := Expected(w[..from], k);
    if want.Found? {
      ContentsAreLastPuts(w, from, k, want.value);
    } else {
      forall e: Entry | e.user == k
        ensures !LastPut(w, from, e)
      {
        if LastPut(w, from, e) {
          ContentsAreLastPuts(w, from, k, e.op.value);
        }
      }
    }
    ExpectedFromLastPut(w, snapshot, k, want);
  }

  /** What Version::Get returns is what the version represents. */
  lemma VersionAnswers(v: Version, w: seq<Entry>, n: nat, k: Key, snapshot: nat, r: GetResult)
    requires Represents(v, w, n) && n <= snapshot && n <= |w| && Numbered(w)
    requires r.Found? ==> exists e: Entry :: e.user == k && NewestVisible(v, snapshot, e) && e.op == Put(r.value)
    requires r.NotFound? ==> forall e: Entry :: e.user == k && NewestVisible(v, snapshot, e) ==> e.op.Delete?
    ensures r == Expected(w[..n], k)
  {
    forall e: Entry | e.op.Put?
      ensures LiveIn(v, e) <==> NewestVisible(v, snapshot, e)
    {
    }
    ExpectedFromLastPut(w, n, k, r);
  }
}
