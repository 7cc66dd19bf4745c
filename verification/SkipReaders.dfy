/** A reader of the skip list among the stores of a writer (db/skiplist.h,
    FindGreaterOrEqual without a lock): its loads and the writer's stores come in
    any order. */
module SkipReaders {
  import opened Wrappers
  import opened Keys
  import opened SkipLists

  /** Where a search stands; `found` once it has returned. */
  datatype Search = Search(target: IKey, at: nat, level: nat, found: Option<Option<nat>>)

  datatype Config = Config(nodes: Nodes, lists: seq<seq<nat>>, search: Search)

  /** Begin at the head, at whatever height the reader happens to see. */
  ghost predicate Starts(s: Search)
  {
    s.at == HEAD && s.level < MAX_HEIGHT && s.found.None?
  }

  /** One load of a next pointer, and what the loop does with it. */
  ghost predicate Loads(nodes: Nodes, s: Search, t: Search)
  {
    && s.found.None? && s.at in nodes && s.level < |nodes[s.at].next|
    && var next := nodes[s.at].next[s.level];
    && (next.Some? ==> next.value in nodes)
    && t == if next.Some? && Before(KeyOf(nodes[next.value].entry), s.target) then s.(at := next.value)
            else if s.level == 0 then s.(found := Some(next))
            else s.(level := s.level - 1)
  }

  ghost predicate Step(c: Config, d: Config)
  {
    || (IsStore(c.nodes, c.lists, d.nodes, d.lists) && d.search == c.search)
    || (d.nodes == c.nodes && d.lists == c.lists && Loads(c.nodes, c.search, d.search))
  }

  /** The node under the search is in the level's list and before the target. */
  ghost predicate SearchOk(c: Config)
  {
    && Shape(c.nodes, c.lists) && c.search.level < MAX_HEIGHT
    && (c.search.at == HEAD || (c.search.at in c.lists[c.search.level] && c.search.at in c.nodes
                                && Before(KeyOf(c.nodes[c.search.at].entry), c.search.target)))
  }

  /** The first node of the bottom level at or after the target, if there is one. */
  ghost predicate IsFirstAtOrAfter(nodes: Nodes, lists: seq<seq<nat>>, target: IKey, r: Option<nat>)
    requires Shape(nodes, lists)
  {
    exists p :: Splits(nodes, lists[0], target, p) && r == After(lists[0], p)
  }

  lemma StoreKeepsSearch(c: Config, d: Config)
    requires SearchOk(c) && IsStore(c.nodes, c.lists, d.nodes, d.lists) && d.search == c.search
    ensures SearchOk(d)
  {
    hide Shape;
    StoreKeeps(c.nodes, c.lists, d.nodes, d.lists);
    hide IsStore;
  }

  /** What a load finds, with the writer somewhere in the middle of its stores. */
  lemma LoadKeepsSearch(c: Config, d: Config)
    requires SearchOk(c) && d.nodes == c.nodes && d.lists == c.lists && Loads(c.nodes, c.search, d.search)
    ensures SearchOk(d)
    ensures d.search.found.Some? ==> IsFirstAtOrAfter(c.nodes, c.lists, c.search.target, d.search.found.value)
  {
    var s := c.search;
    var list := c.lists[s.level];
    var i := 0;
    if s.at != HEAD {
      i :| 0 <= i < |list| && list[i] == s.at;
      i := i + 1;
    }
    assert LinkOk(c.nodes, s.level, list, i);
    if d.search.found.Some? {
      SplitsAt(c.nodes, list, s.target, i);
    } else if d.search.level < s.level && s.at != HEAD {
      InLowerLevels(c.nodes, c.lists, s.at, s.level, s.level - 1);
    }
  }

  /** The search never follows a link that is not there. */
  lemma LoadsAreSafe(c: Config)
    requires SearchOk(c) && c.search.found.None?
    ensures exists t :: Loads(c.nodes, c.search, t)
  {
    var s := c.search;
    var list := c.lists[s.level];
    var i := 0;
    if s.at != HEAD {
      i :| 0 <= i < |list| && list[i] == s.at;
      i := i + 1;
    }
    assert LinkOk(c.nodes, s.level, list, i);
    var next := c.nodes[s.at].next[s.level];
    var t := if next.Some? && Before(KeyOf(c.nodes[next.value].entry), s.target) then s.(at := next.value)
             else if s.level == 0 then s.(found := Some(next))
             else s.(level := s.level - 1);
    assert Loads(c.nodes, s, t);
  }

  ghost predicate IsRun(configs: seq<Config>)
  {
    && configs != [] && Shape(configs[0].nodes, configs[0].lists) && Starts(configs[0].search)
    && forall i :: 0 <= i < |configs| - 1 ==> Step(configs[i], configs[i + 1])
  }

  lemma {:induction false} RunKeepsSearch(configs: seq<Config>, n: nat)
    requires IsRun(configs) && n < |configs|
    ensures SearchOk(configs[n])
  {
    if n > 0 {
      RunKeepsSearch(configs, n - 1);
      var c, d := configs[n - 1], configs[n];
      assert Step(c, d);
      if IsStore(c.nodes, c.lists, d.nodes, d.lists) && d.search == c.search {
        StoreKeepsSearch(c, d);
      } else {
        LoadKeepsSearch(c, d);
      }
    }
  }

  /** However many stores of however many Inserts come between its loads, a search
      returns the first key at or after its target that the bottom level holds at
      its last load. */
  lemma SearchReturnsFirst(configs: seq<Config>, n: nat)
    requires IsRun(configs) && n + 1 < |configs|
    requires configs[n].search.found.None? && configs[n + 1].search.found.Some?
    ensures Shape(configs[n].nodes, configs[n].lists)
    ensures IsFirstAtOrAfter(configs[n].nodes, configs[n].lists, configs[n].search.target,
                             configs[n + 1].search.found.value)
  {
    RunKeepsSearch(configs, n);
    assert Step(configs[n], configs[n + 1]);
    LoadKeepsSearch(configs[n], configs[n + 1]);
  }
}
