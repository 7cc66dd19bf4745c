/** The filter block of a table (table/filter_block.cc): one Bloom filter for every
    two kilobytes of block offsets. */
module FilterBlocks {
  import opened Keys
  import opened Coding
  import opened Bloom

  const FILTER_BASE_LG := 11
  const FILTER_BASE := 2048

  /** A filter made for some keys; with no keys, nothing. */
  ghost predicate FilterOf(group: seq<seq<Byte>>, hash: Hash, k: nat, bitsPerKey: nat, filter: seq<Byte>)
  {
    if group == [] then filter == []
    else
      && |filter| == FilterBytes(|group|, bitsPerKey) + 1 && filter[|filter| - 1] == k
      && forall p :: 0 <= p < 8 * (|filter| - 1) ==> (BitAt(filter, p) <==>
        Probed(group, hash, k, 8 * (|filter| - 1), p))
  }

  class FilterBlockBuilder {
    const hash: Hash
    const bitsPerKey: nat
    const k: nat
    var keys: seq<seq<Byte>>
    var result: seq<Byte>
    var filterOffsets: seq<nat>
    ghost var filters: seq<seq<Byte>>
    ghost var groups: seq<seq<seq<Byte>>>
    ghost var added: set<(nat, seq<Byte>)>   // block offset, key

    constructor (hash: Hash, bitsPerKey: nat, k: nat)
      requires 1 <= k <= MAX_PROBES
      ensures Valid() && added == {} && filterOffsets == [] && groups == [] && keys == []
      ensures this.hash == hash && this.bitsPerKey == bitsPerKey && this.k == k
    {
      this.hash, this.bitsPerKey, this.k := hash, bitsPerKey, k;
      keys, result, filterOffsets := [], [], [];
      filters, groups, added := [], [], {};
    }

    ghost predicate Valid()
      reads this
    {
      && 1 <= k <= MAX_PROBES
      && FiltersMade(filters, groups, hash, k, bitsPerKey) && result == Flatten<Byte>(filters)
      && OffsetsOf(filters, filterOffsets)
      && forall a :: a in added ==> Kept(groups, keys, a)
    }

    /** How long all filters will be together, the one in the making included. */
    ghost function FinalSize(): nat
      reads this
    {
      |result| + if keys == [] then 0 else FilterBytes(|keys|, bitsPerKey) + 1
    }

    /** So many keys need no more than so many bytes. */
    lemma FinalSizeFits(n: nat)
      requires Valid() && |Flatten(groups) + keys| == n
      ensures FinalSize() <= RoomFor(n, bitsPerKey)
    {
      hide RoomFor;
      hide FilterBytes;
      FiltersFit(filters, groups, hash, k, bitsPerKey);
      RoomAdds(|Flatten(groups)|, |keys|, bitsPerKey);
      if keys != [] {
        FilterFits(|keys|, bitsPerKey);
      }
    }

    /** The next key goes into the filter that this block offset is looked up in. */
    ghost predicate Open(blockOffset: nat)
      reads this
    {
      blockOffset / FILTER_BASE == |filterOffsets|
    }

    method StartBlock(blockOffset: nat)
      requires Valid() && blockOffset / FILTER_BASE >= |filterOffsets|
      modifies this
      ensures Valid() && Open(blockOffset) && added == old(added) && FinalSize() == old(FinalSize())
      ensures Advanced(old(groups), old(keys), groups, keys, blockOffset / FILTER_BASE)
    {
      var filterIndex := blockOffset / FILTER_BASE;
      while filterIndex > |filterOffsets|
        invariant Valid() && added == old(added) && FinalSize() == old(FinalSize()) && filterIndex >= |filterOffsets|
        invariant Advanced(old(groups), old(keys), groups, keys, |filterOffsets|)
        decreases filterIndex - |filterOffsets|
      {
        GenerateFilter();
      }
    }

    method AddKey(key: seq<Byte>, ghost blockOffset: nat)
      requires Valid() && Open(blockOffset)
      modifies this`keys, this`added
      ensures Valid() && added == old(added) + {(blockOffset, key)} && keys == old(keys) + [key]
    {
      assert key in keys + [key];
      keys := keys + [key];
      added := added + {(blockOffset, key)};
    }

    method GenerateFilter()
      requires Valid()
      modifies this`keys, this`result, this`filterOffsets, this`filters, this`groups
      ensures Valid() && added == old(added) && |filterOffsets| == |old(filterOffsets)| + 1 && keys == []
      ensures groups == old(groups) + [old(keys)] && FinalSize() == old(FinalSize())
    {
      hide FilterBytes;
      hide FiltersMade;
      hide OffsetsOf;
      hide Flatten;
      filterOffsets := filterOffsets + [|result|];
      var filter: seq<Byte> := [];
      if keys != [] {
        filter := CreateFilter(keys, hash, bitsPerKey, k);
      }
      result := result + filter;
      MadeOne(filters, groups, hash, k, bitsPerKey, old(filterOffsets), filter, keys);
      hide FilterOf;
      filters, groups := filters + [filter], groups + [keys];
      forall a | a in added
        ensures Kept(groups, [], a)
      {
        assert Kept(old(groups), keys, a);
      }
      keys := [];
    }

    method Finish() returns (contents: seq<Byte>)
      requires Valid()
      requires FinalSize() < TWO_32
      modifies this`keys, this`result, this`filterOffsets, this`filters, this`groups
      ensures forall a :: a in old(added) ==> MayMatch(contents, hash, a.0, a.1)
      ensures groups == (if old(keys) == [] then old(groups) else old(groups) + [old(keys)])
      ensures FiltersMade(filters, groups, hash, k, bitsPerKey) && Framed(filters, filterOffsets, contents)
    {
      if keys != [] {
        GenerateFilter();
      }
      var arrayOffset := |result|;
      WordsFit(filters, filterOffsets, arrayOffset);
      contents := AppendOffsets(arrayOffset);
      contents := contents + [FILTER_BASE_LG];
      hide FiltersMade;
      hide Framed;
      hide Kept;
      FramedBlock(filters, filterOffsets, contents);
      forall a | a in old(added)
        ensures MayMatch(contents, hash, a.0, a.1)
      {
        AddedMatches(filters, groups, hash, k, bitsPerKey, filterOffsets, contents, a);
      }
    }

    /** The offset of every filter, then where the array of offsets starts. */
    method AppendOffsets(arrayOffset: nat) returns (contents: seq<Byte>)
      requires AllFit(filterOffsets + [arrayOffset])
      ensures contents == result + FixedArray(filterOffsets + [arrayOffset])
    {
      ghost var words := filterOffsets + [arrayOffset];
      contents := result;
      var i := 0;
      while i < |filterOffsets|
        invariant 0 <= i <= |filterOffsets| && AllFit(words[..i])
        invariant contents == result + FixedArray(words[..i])
      {
        assert words[..i + 1][..i] == words[..i] && words[i] == filterOffsets[i];
        contents := contents + EncodeFixed32(filterOffsets[i]);
        i := i + 1;
      }
      assert words[..i] == words[..|words| - 1] && words[i] == arrayOffset;
      contents := contents + EncodeFixed32(arrayOffset);
    }
  }

  /** The filters up to number `n` have been made: the first of them for the keys that
      were waiting, the others for none. */
  ghost predicate Advanced(groups0: seq<seq<seq<Byte>>>, keys0: seq<seq<Byte>>, groups: seq<seq<seq<Byte>>>,
                           keys: seq<seq<Byte>>, n: nat)
  {
    && |groups| == n && groups0 <= groups
    && (if n == |groups0| then keys == keys0 else n > |groups0| && groups[|groups0|] == keys0 && keys == [])
    && forall i :: |groups0| < i < n ==> groups[i] == []
  }

  /** Starting a block loses no key and moves none. */
  lemma {:induction false} AdvancedKeeps(groups0: seq<seq<seq<Byte>>>, keys0: seq<seq<Byte>>,
                                         groups: seq<seq<seq<Byte>>>, keys: seq<seq<Byte>>, n: nat)
    requires Advanced(groups0, keys0, groups, keys, n)
    ensures Flatten(groups) + keys == Flatten(groups0) + keys0
    decreases n
  {
    if n > |groups0| {
      var init := groups[..n - 1];
      assert groups == init + [groups[n - 1]];
      FlattenAppend(init, groups[n - 1]);
      AdvancedKeeps(groups0, keys0, init, if n - 1 == |groups0| then keys0 else [], n - 1);
    } else {
      assert groups == groups0;
    }
  }

  /** Bytes enough for the filters of `n` keys, however they are grouped. */
  function RoomFor(n: nat, bitsPerKey: nat): nat
  {
    n * (bitsPerKey + 10)
  }

  lemma RoomAdds(m: nat, n: nat, bitsPerKey: nat)
    ensures RoomFor(m + n, bitsPerKey) == RoomFor(m, bitsPerKey) + RoomFor(n, bitsPerKey)
  {
  }

  lemma FilterFits(n: nat, bitsPerKey: nat)
    requires n > 0
    ensures FilterBytes(n, bitsPerKey) + 1 <= RoomFor(n, bitsPerKey)
  {
    var bits := n * bitsPerKey;
    assert RoomFor(n, bitsPerKey) == bits + 10 * n;
  }

  lemma {:induction false} FiltersFit(filters: seq<seq<Byte>>, groups: seq<seq<seq<Byte>>>, hash: Hash, k: nat,
                                      bitsPerKey: nat)
    requires FiltersMade(filters, groups, hash, k, bitsPerKey)
    ensures |Flatten(filters)| <= RoomFor(|Flatten(groups)|, bitsPerKey)
  {
    hide RoomFor;
    hide FilterBytes;
    if filters != [] {
      var n := |filters| - 1;
      FiltersFit(filters[..n], groups[..n], hash, k, bitsPerKey);
      RoomAdds(|Flatten(groups[..n])|, |groups[n]|, bitsPerKey);
      assert FilterOf(groups[n], hash, k, bitsPerKey, filters[n]);
      if groups[n] != [] {
        FilterFits(|groups[n]|, bitsPerKey);
      }
    }
  }

  lemma FramedBlock(filters: seq<seq<Byte>>, offsets: seq<nat>, contents: seq<Byte>)
    requires OffsetsOf(filters, offsets) && |Flatten<Byte>(filters)| < TWO_32
    requires AllFit(offsets + [|Flatten<Byte>(filters)|])
    requires contents == Flatten<Byte>(filters) + FixedArray(offsets + [|Flatten<Byte>(filters)|]) + [FILTER_BASE_LG]
    ensures Framed(filters, offsets, contents)
  {
  }

  /** Filter `i` is made for the keys of group `i`. */
  ghost predicate FiltersMade(filters: seq<seq<Byte>>, groups: seq<seq<seq<Byte>>>, hash: Hash, k: nat, bitsPerKey: nat)
  {
    |filters| == |groups| && forall i :: 0 <= i < |filters| ==> FilterOf(groups[i], hash, k, bitsPerKey, filters[i])
  }

  ghost predicate OffsetsOf(filters: seq<seq<Byte>>, offsets: seq<nat>)
  {
    |offsets| == |filters| && forall i :: 0 <= i < |offsets| ==> offsets[i] == Offset(filters, i)
  }

  /** A key is in the filter its block offset is looked up in, made or in the making. */
  ghost predicate Kept(groups: seq<seq<seq<Byte>>>, keys: seq<seq<Byte>>, a: (nat, seq<Byte>))
  {
    var i := a.0 / FILTER_BASE;
    if i < |groups| then a.1 in groups[i] else i == |groups| && a.1 in keys
  }

  lemma MadeOne(filters: seq<seq<Byte>>, groups: seq<seq<seq<Byte>>>, hash: Hash, k: nat, bitsPerKey: nat,
                offsets: seq<nat>, filter: seq<Byte>, keys: seq<seq<Byte>>)
    requires FiltersMade(filters, groups, hash, k, bitsPerKey) && OffsetsOf(filters, offsets)
    requires FilterOf(keys, hash, k, bitsPerKey, filter)
    ensures FiltersMade(filters + [filter], groups + [keys], hash, k, bitsPerKey)
    ensures OffsetsOf(filters + [filter], offsets + [|Flatten<Byte>(filters)|])
    ensures Flatten<Byte>(filters + [filter]) == Flatten<Byte>(filters) + filter
  {
    hide FilterOf;
    FlattenAppend(filters, filter);
    forall i | 0 <= i < |filters + [filter]|
      ensures (offsets + [|Flatten<Byte>(filters)|])[i] == Offset(filters + [filter], i)
    {
      assert (filters + [filter])[..i] == filters[..i];
    }
    assert filters[..|filters|] == filters;
  }

  lemma WordsFit(filters: seq<seq<Byte>>, offsets: seq<nat>, end: nat)
    requires OffsetsOf(filters, offsets) && end == |Flatten<Byte>(filters)| < TWO_32
    ensures AllFit(offsets + [end])
  {
    forall i | 0 <= i < |offsets|
      ensures offsets[i] < TWO_32
    {
      OffsetGrows(filters, i, |filters|);
      assert filters[..|filters|] == filters;
    }
  }

  /** Filter `i` lies between its own offset and the next. */
  lemma FilterLies(filters: seq<seq<Byte>>, offsets: seq<nat>, i: nat)
    requires OffsetsOf(filters, offsets) && i < |filters|
    ensures var words := offsets + [|Flatten<Byte>(filters)|];
      && words[i] <= words[i + 1] <= |Flatten<Byte>(filters)|
      && Flatten<Byte>(filters)[words[i]..words[i + 1]] == filters[i]
  {
    var words := offsets + [|Flatten<Byte>(filters)|];
    assert filters[..|filters|] == filters;
    assert words[i + 1] == Offset(filters, i + 1);
    assert filters[..i + 1][..i] == filters[..i];
    if i + 1 < |filters| {
      OffsetGrows(filters, i + 1, |filters|);
    }
    forall a | 0 <= a < |filters[i]|
      ensures words[i] + a < |Flatten<Byte>(filters)| && Flatten<Byte>(filters)[words[i] + a] == filters[i][a]
    {
      FlattenAt(filters, i, a);
    }
  }

  /** What FilterBlockReader finds at the end of the block. */
  ghost predicate Framed(filters: seq<seq<Byte>>, offsets: seq<nat>, contents: seq<Byte>)
  {
    && OffsetsOf(filters, offsets) && |Flatten<Byte>(filters)| < TWO_32 && AllFit(offsets + [|Flatten<Byte>(filters)|])
    && contents == Flatten<Byte>(filters) + FixedArray(offsets + [|Flatten<Byte>(filters)|]) + [FILTER_BASE_LG]
  }

  lemma WordAt(filters: seq<seq<Byte>>, offsets: seq<nat>, contents: seq<Byte>, i: nat)
    requires Framed(filters, offsets, contents) && i <= |offsets|
    ensures var end := |Flatten<Byte>(filters)|;
      && end + 4 * i + 4 <= |contents| - 1
      && DecodeFixed32(contents[end + 4 * i..end + 4 * i + 4]) == (offsets + [end])[i]
  {
    hide EncodeFixed32;
    hide DecodeFixed32;
    var end, words := |Flatten<Byte>(filters)|, offsets + [|Flatten<Byte>(filters)|];
    FixedArrayAt(words, i);
    hide FixedArray;
    assert |FixedArray(words)| == 4 * |words|;
    assert |contents| == end + 4 * |words| + 1;
    assert contents[end + 4 * i..end + 4 * i + 4] == FixedArray(words)[4 * i..4 * i + 4];
    assert DecodeFixed32(EncodeFixed32(words[i])) == words[i];
  }

  function Quotient(a: nat, b: nat): nat
    requires b > 0
  {
    a / b
  }

  /** blockOffset >> lg: the filter a block uses. */
  function Slot(blockOffset: nat, lg: nat): nat
  {
    Quotient(blockOffset, TwoTo(lg))
  }

  lemma SlotOf(blockOffset: nat)
    ensures Slot(blockOffset, FILTER_BASE_LG) == blockOffset / FILTER_BASE
  {
    assert TwoTo(11) == FILTER_BASE;
  }

  /** The pieces of a finished filter block. */
  lemma FrameShape(filters: seq<seq<Byte>>, offsets: seq<nat>, contents: seq<Byte>, i: nat)
    requires Framed(filters, offsets, contents) && i < |filters|
    ensures var end, words := |Flatten<Byte>(filters)|, offsets + [|Flatten<Byte>(filters)|];
      && |offsets| == |filters| && |contents| == end + 4 * |offsets| + 5 && contents[|contents| - 1] == FILTER_BASE_LG
      && words[i] <= words[i + 1] <= end && contents[words[i]..words[i + 1]] == filters[i]
  {
    hide Flatten;
    hide FixedArray;
    FilterLies(filters, offsets, i);
    hide OffsetsOf;
    var words := offsets + [|Flatten<Byte>(filters)|];
    assert contents[words[i]..words[i + 1]] == Flatten<Byte>(filters)[words[i]..words[i + 1]];
  }

  lemma AddedMatches(filters: seq<seq<Byte>>, groups: seq<seq<seq<Byte>>>, hash: Hash, k: nat, bitsPerKey: nat,
                     offsets: seq<nat>, contents: seq<Byte>, a: (nat, seq<Byte>))
    requires FiltersMade(filters, groups, hash, k, bitsPerKey) && Framed(filters, offsets, contents)
    requires Kept(groups, [], a)
    ensures MayMatch(contents, hash, a.0, a.1)
  {
    hide Flatten;
    hide FilterOf;
    hide Framed;
    hide Slot;
    hide DecodeFixed32;
    hide Matches;
    var index := a.0 / FILTER_BASE;
    SlotOf(a.0);
    FrameShape(filters, offsets, contents, index);
    WordAt(filters, offsets, contents, |offsets|);
    WordAt(filters, offsets, contents, index);
    WordAt(filters, offsets, contents, index + 1);
    GroupMatches(groups[index], hash, k, bitsPerKey, filters[index], a.1);
  }

  lemma GroupMatches(group: seq<seq<Byte>>, hash: Hash, k: nat, bitsPerKey: nat, filter: seq<Byte>,
                     key: seq<Byte>)
    requires FilterOf(group, hash, k, bitsPerKey, filter) && key in group
    ensures Matches(key, hash, filter)
  {
    CreatedMatches(group, hash, k, filter, key);
  }

  /** What the reader answers for a block offset and a key. */
  ghost predicate MayMatch(contents: seq<Byte>, hash: Hash, blockOffset: nat, key: seq<Byte>)
  {
    var n := |contents|;
    if n < 5 || DecodeFixed32(contents[n - 5..n - 1]) > n - 5 then true
    else
      var words := DecodeFixed32(contents[n - 5..n - 1]);
      var index := Slot(blockOffset, contents[n - 1]);
      if index >= (n - 5 - words) / 4 then true
      else
        var start := DecodeFixed32(contents[words + 4 * index..words + 4 * index + 4]);
        var limit := DecodeFixed32(contents[words + 4 * index + 4..words + 4 * index + 8]);
        if start <= limit && limit <= words then Matches(key, hash, contents[start..limit]) else start != limit
  }

  /** FilterBlockReader. */
  class FilterBlockReader {
    const hash: Hash
    const contents: seq<Byte>
    const words: nat      // where the array of offsets starts
    const num: nat
    const baseLg: nat

    constructor (hash: Hash, contents: seq<Byte>)
      ensures this.hash == hash && this.contents == contents && Valid()
    {
      this.hash, this.contents := hash, contents;
      var n := |contents|;
      var w, m, lg: nat := 0, 0, 0;
      if n >= 5 {
        lg := contents[n - 1];
        var last := DecodeFixed32(contents[n - 5..n - 1]);
        if last <= n - 5 {
          w, m := last, (n - 5 - last) / 4;
        }
      }
      words, num, baseLg := w, m, lg;
    }

    ghost predicate Valid()
    {
      var n := |contents|;
      if n < 5 || DecodeFixed32(contents[n - 5..n - 1]) > n - 5 then num == 0
      else words == DecodeFixed32(contents[n - 5..n - 1]) && num == (n - 5 - words) / 4 && baseLg == contents[n - 1]
    }

    method KeyMayMatch(blockOffset: nat, key: seq<Byte>) returns (r: bool)
      requires Valid()
      ensures r <==> MayMatch(contents, hash, blockOffset, key)
    {
      hide TwoTo;
      hide DecodeFixed32;
      hide Matches;
      hide Slot;
      var index := Slot(blockOffset, baseLg);
      if index < num {
        var start := DecodeFixed32(contents[words + 4 * index..words + 4 * index + 4]);
        var limit := DecodeFixed32(contents[words + 4 * index + 4..words + 4 * index + 8]);
        if start <= limit && limit <= words {
          r := Bloom.KeyMayMatch(key, hash, contents[start..limit]);
          return;
        } else if start == limit {
          return false;
        }
      }
      r := true;
    }
  }
}
