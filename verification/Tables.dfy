/** Table files (table/table_builder.cc, table/table.cc): blocks of sorted entries,
    an index with one short key per block, and a filter block. */
module Tables {
  import opened Wrappers
  import opened Keys
  import opened Coding
  import opened TableFormat
  import opened TableBytes
  import opened Separators
  import opened Bloom
  import opened FilterBlocks

  predicate KeyBefore(a: InternalKey, b: InternalKey)
  {
    Before(Order(a), Order(b))
  }

  ghost predicate SortedItems(all: seq<Item>)
  {
    forall i, j :: 0 <= i < j < |all| ==> KeyBefore(all[i].key, all[j].key)
  }

  /** `key` closes a block: at or after everything up to `end`, before everything
      from `end` on; and if it is no key of the table, the next user key is later.
      It is the separator of the keys on both sides, or the successor of the last. */
  ghost predicate Closes(all: seq<Item>, end: nat, key: InternalKey)
  {
    && 0 < end <= |all|
    && (forall a :: 0 <= a < end ==> !KeyBefore(key, all[a].key))
    && (forall a :: end <= a < |all| ==> KeyBefore(key, all[a].key))
    && (end < |all| ==> key == all[end - 1].key || Order(key).user < Order(all[end].key).user)
    && (if end < |all| then IsSeparator(all[end - 1].key, all[end].key, key) else IsSuccessor(all[end - 1].key, key))
  }

  /** The blocks written so far and their handles. */
  ghost predicate Written(c: Codec, file: seq<Byte>, chunks: seq<seq<Item>>, handles: seq<Handle>)
  {
    && CodecOk(c) && ChunksFit(chunks) && file == DataBytes(c, chunks) && |handles| == |chunks|
    && forall i :: 0 <= i < |chunks| ==> handles[i] == HandleOf(c, chunks, i)
  }

  /** The blocks, and then the one being filled, hold all items in order. */
  ghost predicate Cut(all: seq<Item>, chunks: seq<seq<Item>>, dataBlock: seq<Item>)
  {
    && SortedItems(all) && Flatten<Item>(chunks) + dataBlock == all
    && forall i :: 0 <= i < |chunks| ==> chunks[i] != []
  }

  /** The index entries of the first blocks. */
  ghost predicate Indexed(all: seq<Item>, chunks: seq<seq<Item>>, handles: seq<Handle>, index: seq<Item>)
  {
    && |index| <= |chunks| == |handles| && ItemsFit(index)
    && forall i :: 0 <= i < |index| ==> IndexedAt(all, chunks, handles[i], index[i], i)
  }

  ghost predicate IndexedAt(all: seq<Item>, chunks: seq<seq<Item>>, h: Handle, x: Item, i: nat)
    requires i < |chunks|
  {
    x.value == EncodeHandle(h) && Closes(all, Offset(chunks, i + 1), x.key)
  }

  /** Every key is in the filter under the offset of its block, or of the block to come. */
  ghost predicate Entered(added: set<(nat, seq<Byte>)>, chunks: seq<seq<Item>>, handles: seq<Handle>,
                          dataBlock: seq<Item>, offset: nat)
  {
    && |handles| == |chunks|
    && (forall i, x :: 0 <= i < |chunks| && x in chunks[i] ==> (handles[i].offset, x.key.user) in added)
    && (forall x :: x in dataBlock ==> (offset, x.key.user) in added)
  }

  /** A block is closed by the item that makes it large enough, and by no earlier one. */
  ghost predicate FullBlock(c: Codec, blockSize: nat, items: seq<Item>)
    requires ItemsFit(items)
  {
    items != [] && |RawOf(c, items)| >= blockSize && NotFull(c, blockSize, items[..|items| - 1])
  }

  ghost predicate NotFull(c: Codec, blockSize: nat, items: seq<Item>)
    requires ItemsFit(items)
  {
    forall n :: 0 < n <= |items| ==> |RawOf(c, items[..n])| < blockSize
  }

  /** All blocks are full, and what follows the last one is not. */
  ghost predicate CutAtSize(c: Codec, blockSize: nat, chunks: seq<seq<Item>>, dataBlock: seq<Item>)
    requires ChunksFit(chunks) && ItemsFit(dataBlock)
  {
    (forall i :: 0 <= i < |chunks| ==> FullBlock(c, blockSize, chunks[i])) && NotFull(c, blockSize, dataBlock)
  }

  lemma CutAtSizeMore(c: Codec, blockSize: nat, chunks: seq<seq<Item>>, dataBlock: seq<Item>, x: Item)
    requires ChunksFit(chunks) && ItemsFit(dataBlock) && x.key.tag < TWO_64
    requires CutAtSize(c, blockSize, chunks, dataBlock)
    ensures var more := dataBlock + [x];
      if |RawOf(c, more)| >= blockSize then CutAtSize(c, blockSize, chunks + [more], [])
      else CutAtSize(c, blockSize, chunks, more)
  {
    hide RawOf;
    var more := dataBlock + [x];
    assert more[..|more| - 1] == dataBlock && more[..|more|] == more;
    forall n | 0 < n <= |dataBlock|
      ensures |RawOf(c, more[..n])| < blockSize
    {
      assert more[..n] == dataBlock[..n];
    }
  }

  /** A filter builder that has been told of the first block, and of no key. */
  ghost predicate FreshFilter(b: FilterBlockBuilder)
    reads b
  {
    b.Valid() && b.added == {} && b.Open(0) && b.groups == [] && b.keys == []
  }

  /** The keys that go into the filters, in order. */
  function UsersOf(items: seq<Item>): (r: seq<seq<Byte>>)
    ensures |r| == |items| && forall i :: 0 <= i < |items| ==> r[i] == items[i].key.user
  {
    seq(|items|, i requires 0 <= i < |items| => items[i].key.user)
  }

  lemma OneMoreUser(before: seq<seq<Byte>>, keys: seq<seq<Byte>>, all: seq<Item>, x: Item)
    requires before + keys == UsersOf(all)
    ensures before + (keys + [x.key.user]) == UsersOf(all + [x])
  {
    assert before + (keys + [x.key.user]) == (before + keys) + [x.key.user];
  }

  class TableBuilder {
    const blockSize: nat
    const codec: Codec
    const filterName: seq<Byte>
    const filterBlock: FilterBlockBuilder?
    var file: seq<Byte>
    var offset: nat
    var dataBlock: seq<Item>
    var index: seq<Item>
    var lastKey: InternalKey
    var numEntries: nat
    var pendingIndexEntry: bool
    var pendingHandle: Handle
    ghost var all: seq<Item>
    ghost var chunks: seq<seq<Item>>
    ghost var handles: seq<Handle>

    constructor (blockSize: nat, codec: Codec, filterName: seq<Byte>, filterBlock: FilterBlockBuilder?)
      requires CodecOk(codec)
      requires filterBlock != null ==> FreshFilter(filterBlock)
      ensures Valid() && all == [] && chunks == [] && dataBlock == []
      ensures this.blockSize == blockSize && this.codec == codec && this.filterName == filterName
      ensures this.filterBlock == filterBlock
    {
      hide Order;
      hide FiltersMade;
      hide OffsetsOf;
      hide Kept;
      hide CodecOk;
      this.blockSize, this.codec, this.filterName, this.filterBlock := blockSize, codec, filterName, filterBlock;
      file, offset, dataBlock, index, lastKey, numEntries := [], 0, [], [], InternalKey([], 0), 0;
      pendingIndexEntry, pendingHandle := false, Handle(0, 0);
      all, chunks, handles := [], [], [];
    }

    ghost predicate Valid()
      reads this, filterBlock
    {
      Contents() && Bookkeeping() && FilterOk()
    }

    ghost predicate Contents()
      reads this
    {
      && Cut(all, chunks, dataBlock) && |all| == numEntries && ItemsFit(all) && ItemsFit(dataBlock)
      && (all != [] ==> lastKey == all[|all| - 1].key)
      && Written(codec, file, chunks, handles) && offset == |file|
    }

    ghost predicate Bookkeeping()
      reads this
    {
      && Indexed(all, chunks, handles, index)
      && |chunks| == |index| + (if pendingIndexEntry then 1 else 0)
      && (pendingIndexEntry ==> dataBlock == [] && pendingHandle == handles[|handles| - 1])
      && (dataBlock == [] && !pendingIndexEntry ==> chunks == [])
    }

    ghost predicate FilterOk()
      reads this, filterBlock
    {
      filterBlock != null ==>
        && filterBlock.Valid() && filterBlock.Open(offset)
        && Flatten(filterBlock.groups) + filterBlock.keys == UsersOf(all)
        && Entered(filterBlock.added, chunks, handles, dataBlock, offset)
    }

    lemma LastIs()
      requires Valid()
      ensures all != [] ==> lastKey == all[|all| - 1].key
      ensures ChunksFit(chunks) && ItemsFit(dataBlock)
    {
    }

    lemma FilterFits()
      requires Valid()
      ensures filterBlock != null ==> filterBlock.FinalSize() <= RoomFor(|all|, filterBlock.bitsPerKey)
    {
      if filterBlock != null {
        filterBlock.FinalSizeFits(|all|);
      }
    }

    method Add(key: InternalKey, value: seq<Byte>)
      requires Valid() && (all != [] ==> KeyBefore(lastKey, key)) && key.tag < TWO_64
      modifies this, filterBlock
      ensures Valid() && all == old(all) + [Item(key, value)]
      ensures ChunksFit(old(chunks)) && ItemsFit(old(dataBlock)) && ChunksFit(chunks) && ItemsFit(dataBlock)
      ensures old(CutAtSize(codec, blockSize, chunks, dataBlock)) ==> CutAtSize(codec, blockSize, chunks, dataBlock)
    {
      hide Order;
      hide Cut;
      hide Indexed;
      hide KeyBefore;
      hide Entered;
      hide CutAtSize;
      hide RawOf;
      hide DataBytes;
      hide HandleOf;
      hide CodecOk;
      var x := Item(key, value);
      if CutAtSize(codec, blockSize, chunks, dataBlock) {
        CutAtSizeMore(codec, blockSize, chunks, dataBlock, x);
      }
      IndexPending(x);
      AddItem(x);
      if |RawOf(codec, dataBlock)| >= blockSize {
        Flush();
      }
    }

    /** Index the last block, now that the key after it is known. */
    method IndexPending(x: Item)
      requires Valid() && (all != [] ==> KeyBefore(lastKey, x.key)) && x.key.tag < TWO_64
      modifies this`index, this`pendingIndexEntry
      ensures Cut(all + [x], chunks, dataBlock + [x]) && Written(codec, file, chunks, handles) && FilterOk()
      ensures Indexed(all + [x], chunks, handles, index) && |chunks| == |index| && !pendingIndexEntry
      ensures |all| == numEntries && offset == |file| && ItemsFit(all + [x]) && ItemsFit(dataBlock + [x])
    {
      hide Order;
      hide Cut;
      hide Written;
      hide Indexed;
      hide KeyBefore;
      hide Entered;
      CutAppend(all, chunks, dataBlock, x);
      if pendingIndexEntry {
        LastItem(all, chunks);
        assert lastKey.tag < TWO_64;
        var separator := CloseBlock(x.key);
        BlockClosed(all, chunks, handles, old(index), separator, x);
      } else {
        IndexSurvives(all, chunks, handles, index, dataBlock, x);
      }
    }

    /** The item goes into the filter and into the block. */
    method AddItem(x: Item)
      requires Cut(all + [x], chunks, dataBlock + [x]) && |all| == numEntries
      requires Written(codec, file, chunks, handles) && offset == |file|
      requires ItemsFit(all + [x]) && ItemsFit(dataBlock + [x])
      requires Indexed(all + [x], chunks, handles, index) && |chunks| == |index| && !pendingIndexEntry && FilterOk()
      modifies this`lastKey, this`numEntries, this`dataBlock, this`all, filterBlock
      ensures Valid() && all == old(all) + [x] && dataBlock == old(dataBlock) + [x]
    {
      hide FiltersMade;
      hide OffsetsOf;
      hide Kept;
      hide Flatten;
      hide Closes;
      hide ItemsFit;
      hide CodecOk;
      hide DataBytes;
      hide HandleOf;
      hide RawOf;
      hide SortedItems;
      hide IndexedAt;
      assert (all + [x])[|all|] == x;
      hide Cut;
      hide Written;
      hide Indexed;
      if filterBlock != null {
        EnterItem(filterBlock.added, chunks, handles, dataBlock, offset, x);
        OneMoreUser(Flatten(filterBlock.groups), filterBlock.keys, all, x);
        hide Entered;
        filterBlock.AddKey(x.key.user, offset);
      }
      lastKey, numEntries := x.key, numEntries + 1;
      dataBlock := dataBlock + [x];
      all := all + [x];
    }

    /** The first key of a new block is known, so the last block can be indexed. */
    method CloseBlock(key: InternalKey) returns (separator: InternalKey)
      requires pendingIndexEntry && KeyBefore(lastKey, key) && lastKey.tag < TWO_64
      modifies this`index, this`pendingIndexEntry
      ensures index == old(index) + [Item(separator, EncodeHandle(pendingHandle))] && !pendingIndexEntry
      ensures !KeyBefore(separator, lastKey) && KeyBefore(separator, key) && separator.tag < TWO_64
      ensures separator == lastKey || Order(separator).user < Order(key).user
      ensures IsSeparator(lastKey, key, separator)
    {
      hide Order;
      hide FiltersMade;
      hide OffsetsOf;
      hide Kept;
      hide IsSeparator;
      separator := InternalSeparator(lastKey, key);
      index := index + [Item(separator, EncodeHandle(pendingHandle))];
      pendingIndexEntry := false;
    }

    method Flush()
      requires Valid()
      modifies this, filterBlock
      ensures Valid() && all == old(all) && dataBlock == []
      ensures filterBlock != null ==>
        filterBlock.FinalSize() == old(filterBlock.FinalSize())
      ensures chunks == (if old(dataBlock) == [] then old(chunks) else old(chunks) + [old(dataBlock)])
    {
      hide Order;
      hide FiltersMade;
      hide OffsetsOf;
      hide Kept;
      hide CodecOk;
      hide DataBytes;
      hide HandleOf;
      hide RawOf;
      hide ItemsFit;
      if dataBlock == [] {
        return;
      }
      if filterBlock != null {
        EnterBlock(filterBlock.added, chunks, handles, dataBlock, offset);
      }
      hide Entered;
      hide Cut;
      hide Written;
      hide Indexed;
      FlushBlock();
      if filterBlock != null {
        ghost var groups, keys := filterBlock.groups, filterBlock.keys;
        filterBlock.StartBlock(offset);
        AdvancedKeeps(groups, keys, filterBlock.groups, filterBlock.keys, offset / FILTER_BASE);
      }
    }

    /** The data block is written, and the index entry for it waits for the next key. */
    method FlushBlock()
      requires Contents() && Bookkeeping() && dataBlock != []
      modifies this`file, this`offset, this`dataBlock, this`pendingIndexEntry, this`pendingHandle
      modifies this`chunks, this`handles
      ensures Contents() && Bookkeeping() && dataBlock == [] && offset > old(offset)
      ensures chunks == old(chunks) + [old(dataBlock)]
      ensures exists size :: handles == old(handles) + [Handle(old(offset), size)]
    {
      hide Order;
      hide FiltersMade;
      hide OffsetsOf;
      hide Kept;
      hide Flatten;
      hide Closes;
      hide KeyBefore;
      hide RawOf;
      hide CodecOk;
      hide StoredBlock;
      hide StoredAs;
      BlockWritten(codec, file, all, chunks, handles, index, dataBlock);
      hide Cut;
      hide Written;
      hide Indexed;
      pendingHandle := WriteBlock(RawOf(codec, dataBlock));
      chunks, handles := chunks + [dataBlock], handles + [pendingHandle];
      dataBlock := [];
      pendingIndexEntry := true;
    }

    /** WriteBlock: the raw block is stored, compressed if that is worth it. */
    method WriteBlock(raw: seq<Byte>) returns (handle: Handle)
      requires CodecOk(codec) && offset == |file|
      modifies this`file, this`offset
      ensures file == Append(codec, old(file), raw) && offset == |file|
      ensures handle == NextHandle(codec, old(file), raw)
    {
      var contents, kind := raw, NO_COMPRESSION;
      if codec.snappy {
        var compressed := codec.compress(raw);
        if compressed.Some? && |compressed.value| < |raw| - |raw| / 8 {
          contents, kind := compressed.value, SNAPPY_COMPRESSION;
        }
      }
      handle := WriteRawBlock(contents, kind);
    }

    /** WriteRawBlock: contents, then a trailer of five bytes. */
    method WriteRawBlock(contents: seq<Byte>, kind: Byte) returns (handle: Handle)
      requires CodecOk(codec) && offset == |file|
      modifies this`file, this`offset
      ensures file == old(file) + RawBlock(codec, contents, kind) && offset == |file|
      ensures handle == Handle(old(offset), |contents|)
    {
      handle := Handle(offset, |contents|);
      file := file + contents;
      var trailer := [kind] + EncodeFixed32(Mask(codec.crc(contents + [kind])));
      file := file + trailer;
      offset := offset + |contents| + BLOCK_TRAILER_SIZE;
      assert file == old(file) + (contents + [kind] + EncodeFixed32(Mask(codec.crc(contents + [kind]))));
    }

    /** Finish: flush, then the filter block, the metaindex, the index and the footer. */
    method Finish() returns (ghost filter: Option<seq<Byte>>)
      requires Valid()
      requires filterBlock != null ==> filterBlock.FinalSize() < TWO_32
      modifies this, filterBlock
      ensures all == old(all) && offset == |file|
      ensures chunks == (if old(dataBlock) == [] then old(chunks) else old(chunks) + [old(dataBlock)])
      ensures filter.Some? <==> filterBlock != null
      ensures filter.Some? ==> FilterMade(filterBlock, filter.value) && Flatten(filterBlock.groups) == UsersOf(all)
      ensures IsTable(codec, filterName, file, all, chunks, index, filter,
                      if filterBlock == null then s => 0 else filterBlock.hash)
    {
      hide Order;
      hide FiltersMade;
      hide OffsetsOf;
      hide Kept;
      hide Entered;
      hide Cut;
      hide Indexed;
      hide MayMatch;
      hide CodecOk;
      hide StoredBlock;
      hide RawBlock;
      hide DataBytes;
      hide HandleOf;
      hide RawOf;
      hide EncodeFooter;
      hide IsTable;
      Flush();
      ghost var added: set<(nat, seq<Byte>)> := if filterBlock == null then {} else filterBlock.added;
      ghost var data := file;
      var contents := FinishFilter();
      filter := contents;
      IndexLast();
      IndexFits(all, chunks, handles, index);
      var filterHandle := None;
      if contents.Some? {
        var h := WriteRawBlock(contents.value, NO_COMPRESSION);
        filterHandle := Some(h);
      }
      assert file == WithFilter(codec, data, filter) && filterHandle == FilterHandle(data, filter);
      var metaindexHandle := WriteBlock(codec.encode(MetaPairs(filterName, filterHandle)));
      var indexHandle := WriteBlock(RawOf(codec, index));
      var footer := EncodeFooter(metaindexHandle, indexHandle);
      file := file + footer;
      offset := offset + |footer|;
      FinishedTable(codec, filterName, data, file, all, chunks, handles, index, filter, added,
                    if filterBlock == null then s => 0 else filterBlock.hash);
    }

    method FinishFilter() returns (filter: Option<seq<Byte>>)
      requires FilterOk() && (filterBlock != null ==> filterBlock.FinalSize() < Coding.TWO_32)
      modifies filterBlock
      ensures filter.Some? <==> filterBlock != null
      ensures filter.Some? ==>
        FilterMade(filterBlock, filter.value)
        && Flatten(filterBlock.groups) == old(Flatten(filterBlock.groups) + filterBlock.keys)
      ensures filter.Some? ==>
        forall a :: a in old(filterBlock.added) ==> MayMatch(filter.value, filterBlock.hash, a.0, a.1)
    {
      filter := None;
      if filterBlock != null {
        FlattenAppend(filterBlock.groups, filterBlock.keys);
        assert Flatten(filterBlock.groups) + [] == Flatten(filterBlock.groups);
        var contents := filterBlock.Finish();
        filter := Some(contents);
      }
    }

    /** Nothing follows the last block: any key at or after its last will do. */
    method IndexLast()
      requires Contents() && Bookkeeping() && dataBlock == []
      modifies this`index, this`pendingIndexEntry
      ensures Contents() && Indexed(all, chunks, handles, index) && |index| == |chunks|
    {
      hide IsSuccessor;
      hide Cut;
      hide Written;
      hide Indexed;
      hide Order;
      if pendingIndexEntry {
        LastItem(all, chunks);
        assert lastKey.tag < TWO_64;
        var successor := InternalSuccessor(lastKey);
        LastCloses(all, chunks, handles, index, successor, pendingHandle);
        index := index + [Item(successor, EncodeHandle(pendingHandle))];
        pendingIndexEntry := false;
      }
    }
  }

  lemma IndexFits(all: seq<Item>, chunks: seq<seq<Item>>, handles: seq<Handle>, index: seq<Item>)
    requires Indexed(all, chunks, handles, index)
    ensures ItemsFit(index)
  {
  }

  lemma LastItem(all: seq<Item>, chunks: seq<seq<Item>>)
    requires Cut(all, chunks, []) && chunks != []
    ensures all != []
  {
    WholeOffset(all, chunks);
    OffsetGrows<Item>(chunks, |chunks| - 1, |chunks|);
  }

  /** The filter block holds the filters that were made, one for each group of keys. */
  ghost predicate FilterMade(b: FilterBlockBuilder, contents: seq<Byte>)
    reads b
  {
    FiltersMade(b.filters, b.groups, b.hash, b.k, b.bitsPerKey) && Framed(b.filters, b.filterOffsets, contents)
  }

  /** The finished file: its bytes, and what index and filter say of the blocks. */
  ghost predicate IsTable(c: Codec, name: seq<Byte>, file: seq<Byte>, all: seq<Item>, chunks: seq<seq<Item>>,
                          index: seq<Item>, filter: Option<seq<Byte>>, hash: Hash)
  {
    && CodecOk(c) && ChunksFit(chunks) && ItemsFit(index)
    && file == FileBytes(c, name, DataBytes(c, chunks), index, filter)
    && Cut(all, chunks, []) && |index| == |chunks|
    && (forall i :: 0 <= i < |chunks| ==> IndexedAt(all, chunks, HandleOf(c, chunks, i), index[i], i))
    && (filter.Some? ==> forall i, x :: 0 <= i < |chunks| && x in chunks[i] ==>
         MayMatch(filter.value, hash, HandleOf(c, chunks, i).offset, x.key.user))
  }

  lemma FinishedTable(c: Codec, name: seq<Byte>, data: seq<Byte>, file: seq<Byte>, all: seq<Item>,
                      chunks: seq<seq<Item>>, handles: seq<Handle>, index: seq<Item>, filter: Option<seq<Byte>>,
                      added: set<(nat, seq<Byte>)>, hash: Hash)
    requires Cut(all, chunks, []) && Written(c, data, chunks, handles)
    requires Indexed(all, chunks, handles, index) && |index| == |chunks|
    requires filter.Some? ==> Entered(added, chunks, handles, [], |data|)
    requires filter.Some? ==> forall a :: a in added ==> MayMatch(filter.value, hash, a.0, a.1)
    requires file == FileBytes(c, name, data, index, filter)
    ensures IsTable(c, name, file, all, chunks, index, filter, hash)
  {
    hide Cut;
    hide IndexedAt;
    hide MayMatch;
    hide DataBytes;
    hide HandleOf;
    hide FileBytes;
    hide CodecOk;
    hide ItemsFit;
    forall i, x | filter.Some? && 0 <= i < |chunks| && x in chunks[i]
      ensures MayMatch(filter.value, hash, HandleOf(c, chunks, i).offset, x.key.user)
    {
      assert (handles[i].offset, x.key.user) in added;
    }
  }

  lemma EnterItem(added: set<(nat, seq<Byte>)>, chunks: seq<seq<Item>>, handles: seq<Handle>, dataBlock: seq<Item>,
                  offset: nat, x: Item)
    requires Entered(added, chunks, handles, dataBlock, offset)
    ensures Entered(added + {(offset, x.key.user)}, chunks, handles, dataBlock + [x], offset)
  {
  }

  lemma EnterBlock(added: set<(nat, seq<Byte>)>, chunks: seq<seq<Item>>, handles: seq<Handle>, dataBlock: seq<Item>,
                   offset: nat)
    requires Entered(added, chunks, handles, dataBlock, offset)
    ensures forall size, next :: Entered(added, chunks + [dataBlock], handles + [Handle(offset, size)], [], next)
  {
  }

  lemma CutAppend(all: seq<Item>, chunks: seq<seq<Item>>, dataBlock: seq<Item>, x: Item)
    requires Cut(all, chunks, dataBlock) && (all != [] ==> KeyBefore(all[|all| - 1].key, x.key))
    ensures Cut(all + [x], chunks, dataBlock + [x]) && SortedItems(all + [x])
  {
    hide Order;
    hide Flatten;
  }

  lemma BlockWritten(c: Codec, file: seq<Byte>, all: seq<Item>, chunks: seq<seq<Item>>, handles: seq<Handle>,
                     index: seq<Item>, dataBlock: seq<Item>)
    requires Cut(all, chunks, dataBlock) && dataBlock != [] && Written(c, file, chunks, handles)
    requires Indexed(all, chunks, handles, index) && ItemsFit(dataBlock)
    ensures Cut(all, chunks + [dataBlock], [])
    ensures var h := NextHandle(c, file, RawOf(c, dataBlock));
      && Written(c, Append(c, file, RawOf(c, dataBlock)), chunks + [dataBlock], handles + [h])
      && Indexed(all, chunks + [dataBlock], handles + [h], index)
  {
    CutHere(all, chunks, dataBlock);
    WrittenBlock(c, file, chunks, handles, dataBlock);
    IndexKept(all, chunks, handles, index, dataBlock, NextHandle(c, file, RawOf(c, dataBlock)));
  }

  lemma CutHere(all: seq<Item>, chunks: seq<seq<Item>>, dataBlock: seq<Item>)
    requires Cut(all, chunks, dataBlock) && dataBlock != []
    ensures Cut(all, chunks + [dataBlock], [])
  {
    hide Order;
    hide SortedItems;
    FlattenAppend<Item>(chunks, dataBlock);
    hide Flatten;
  }

  lemma WrittenBlock(c: Codec, file: seq<Byte>, chunks: seq<seq<Item>>, handles: seq<Handle>, chunk: seq<Item>)
    requires Written(c, file, chunks, handles) && ItemsFit(chunk)
    ensures Written(c, Append(c, file, RawOf(c, chunk)), chunks + [chunk],
                    handles + [NextHandle(c, file, RawOf(c, chunk))])
  {
    hide StoredBlock;
    hide StoredAs;
    hide RawOf;
    hide CodecOk;
    hide ItemsFit;
    var more := chunks + [chunk];
    assert more[..|chunks|] == chunks && more[|chunks|] == chunk;
    forall i | 0 <= i < |more|
      ensures (handles + [NextHandle(c, file, RawOf(c, chunk))])[i] == HandleOf(c, more, i)
    {
      assert more[..i] == chunks[..i];
    }
  }

  /** All blocks but a last one that nothing follows end before the last item. */
  lemma EndsEarlier(all: seq<Item>, chunks: seq<seq<Item>>, dataBlock: seq<Item>, i: nat)
    requires Cut(all, chunks, dataBlock) && i < |chunks| && (i + 1 < |chunks| || dataBlock != [])
    ensures Offset(chunks, i + 1) < |all|
  {
    hide SortedItems;
    hide Flatten;
    assert chunks[..|chunks|] == chunks;
    if i + 1 < |chunks| {
      OffsetGrows<Item>(chunks, i + 1, |chunks|);
    }
  }

  /** The index stays right when a later item arrives. */
  lemma IndexSurvives(all: seq<Item>, chunks: seq<seq<Item>>, handles: seq<Handle>, index: seq<Item>,
                      dataBlock: seq<Item>, x: Item)
    requires Cut(all, chunks, dataBlock) && Indexed(all, chunks, handles, index) && SortedItems(all + [x])
    requires |index| < |chunks| || dataBlock != [] || chunks == []
    ensures Indexed(all + [x], chunks, handles, index)
  {
    hide Cut;
    hide Closes;
    hide Flatten;
    hide SortedItems;
    forall i | 0 <= i < |index|
      ensures IndexedAt(all + [x], chunks, handles[i], index[i], i)
    {
      EndsEarlier(all, chunks, dataBlock, i);
      ClosesExtends(all, Offset(chunks, i + 1), index[i].key, x);
    }
  }

  /** The entry made for the last block is right because of the item that follows. */
  lemma BlockClosed(all: seq<Item>, chunks: seq<seq<Item>>, handles: seq<Handle>, before: seq<Item>,
                    separator: InternalKey, x: Item)
    requires Cut(all, chunks, []) && Indexed(all, chunks, handles, before) && SortedItems(all + [x])
    requires |before| + 1 == |chunks| && all != []
    requires !KeyBefore(separator, all[|all| - 1].key) && KeyBefore(separator, x.key) && separator.tag < TWO_64
    requires separator == all[|all| - 1].key || Order(separator).user < Order(x.key).user
    requires IsSeparator(all[|all| - 1].key, x.key, separator)
    ensures Indexed(all + [x], chunks, handles, before + [Item(separator, EncodeHandle(handles[|handles| - 1]))])
  {
    IndexSurvives(all, chunks, handles, before, [], x);
    SeparatorCloses(all, separator, x);
    WholeOffset(all, chunks);
    hide Closes;
    hide Flatten;
    hide Cut;
    hide SortedItems;
  }

  lemma WholeOffset(all: seq<Item>, chunks: seq<seq<Item>>)
    requires Cut(all, chunks, [])
    ensures Offset(chunks, |chunks|) == |all|
  {
    assert chunks[..|chunks|] == chunks;
  }

  lemma ClosesExtends(all: seq<Item>, end: nat, key: InternalKey, x: Item)
    requires SortedItems(all + [x]) && Closes(all, end, key) && end < |all|
    ensures Closes(all + [x], end, key)
  {
    hide Order;
    assert (all + [x])[|all|] == x && (all + [x])[end] == all[end];
    assert KeyBefore((all + [x])[end].key, (all + [x])[|all|].key);
  }

  lemma SeparatorCloses(all: seq<Item>, separator: InternalKey, x: Item)
    requires SortedItems(all + [x]) && all != []
    requires !KeyBefore(separator, all[|all| - 1].key) && KeyBefore(separator, x.key)
    requires separator == all[|all| - 1].key || Order(separator).user < Order(x.key).user
    requires IsSeparator(all[|all| - 1].key, x.key, separator)
    ensures Closes(all + [x], |all|, separator)
  {
    hide Order;
    var s := all + [x];
    forall a | 0 <= a < |all|
      ensures !KeyBefore(separator, s[a].key)
    {
      assert a < |all| - 1 ==> KeyBefore(s[a].key, s[|all| - 1].key);
    }
  }

  lemma IndexKept(all: seq<Item>, chunks: seq<seq<Item>>, handles: seq<Handle>, index: seq<Item>,
                  chunk: seq<Item>, handle: Handle)
    requires Indexed(all, chunks, handles, index)
    ensures Indexed(all, chunks + [chunk], handles + [handle], index)
  {
    hide Order;
    forall i {:trigger index[i]} | 0 <= i < |index|
      ensures Offset(chunks + [chunk], i + 1) == Offset(chunks, i + 1)
    {
      assert (chunks + [chunk])[..i + 1] == chunks[..i + 1];
    }
  }

  lemma LastCloses(all: seq<Item>, chunks: seq<seq<Item>>, handles: seq<Handle>, index: seq<Item>,
                   successor: InternalKey, handle: Handle)
    requires Cut(all, chunks, []) && all != [] && Indexed(all, chunks, handles, index)
    requires |chunks| == |index| + 1 && handle == handles[|handles| - 1] && !KeyBefore(successor, all[|all| - 1].key)
    requires IsSuccessor(all[|all| - 1].key, successor) && successor.tag < TWO_64
    ensures Indexed(all, chunks, handles, index + [Item(successor, EncodeHandle(handle))])
  {
    hide Order;
    WholeOffset(all, chunks);
    AtOrAfterAll(all, successor);
    assert Closes(all, |all|, successor);
    hide Closes;
    hide Cut;
    hide Flatten;
  }

  lemma AtOrAfterAll(all: seq<Item>, key: InternalKey)
    requires SortedItems(all) && all != [] && !KeyBefore(key, all[|all| - 1].key)
    ensures forall a :: 0 <= a < |all| ==> !KeyBefore(key, all[a].key)
  {
    hide Order;
    forall a | 0 <= a < |all|
      ensures !KeyBefore(key, all[a].key)
    {
      assert a < |all| - 1 ==> KeyBefore(all[a].key, all[|all| - 1].key);
    }
  }

  // ----- a whole table -----

  /** What BuildTable reports of the file. */
  datatype Meta = Meta(smallest: InternalKey, largest: InternalKey, fileSize: nat)

  /** The blocks of a finished table: all full, but for what was left at the end. */
  ghost predicate BlocksOf(c: Codec, blockSize: nat, chunks: seq<seq<Item>>)
    requires ChunksFit(chunks)
  {
    exists full: seq<seq<Item>>, last: seq<Item> ::
      && ChunksFit(full) && ItemsFit(last) && CutAtSize(c, blockSize, full, last)
      && chunks == if last == [] then full else full + [last]
  }

  lemma NothingBuilt(c: Codec, blockSize: nat)
    ensures CutAtSize(c, blockSize, [], [])
  {
  }

  /** BuildTable: the items go into a new file, one by one. */
  method BuildTable(items: seq<Item>, blockSize: nat, codec: Codec, filterName: seq<Byte>,
                    filterBlock: FilterBlockBuilder?)
    returns (file: seq<Byte>, meta: Meta, ghost chunks: seq<seq<Item>>, ghost index: seq<Item>,
             ghost filter: Option<seq<Byte>>)
    requires items != [] && SortedItems(items) && ItemsFit(items) && CodecOk(codec)
    requires filterBlock != null ==>
      FreshFilter(filterBlock) && RoomFor(|items|, filterBlock.bitsPerKey) < TWO_32
    modifies filterBlock
    ensures IsTable(codec, filterName, file, items, chunks, index, filter,
                    if filterBlock == null then s => 0 else filterBlock.hash)
    ensures ChunksFit(chunks) && BlocksOf(codec, blockSize, chunks) && (filter.Some? <==> filterBlock != null)
    ensures meta == Meta(items[0].key, items[|items| - 1].key, |file|)
  {
    hide Order;
    hide KeyBefore;
    hide CutAtSize;
    hide RoomFor;
    hide CodecOk;
    hide IsTable;
    hide FreshFilter;
    hide TableBuilder.Contents;
    hide TableBuilder.Bookkeeping;
    hide TableBuilder.FilterOk;
    var builder := new TableBuilder(blockSize, codec, filterName, filterBlock);
    var largest := Fill(builder, items);
    builder.FilterFits();
    ghost var full, last := builder.chunks, builder.dataBlock;
    filter := builder.Finish();
    file, chunks, index := builder.file, builder.chunks, builder.index;
    meta := Meta(items[0].key, largest, builder.offset);
  }

  /** All items are added to a new builder. */
  method Fill(builder: TableBuilder, items: seq<Item>) returns (largest: InternalKey)
    requires items != [] && SortedItems(items) && ItemsFit(items)
    requires builder.Valid() && builder.all == [] && builder.chunks == [] && builder.dataBlock == []
    modifies builder, builder.filterBlock
    ensures builder.Valid() && builder.all == items && largest == items[|items| - 1].key
    ensures ChunksFit(builder.chunks) && ItemsFit(builder.dataBlock)
    ensures CutAtSize(builder.codec, builder.blockSize, builder.chunks, builder.dataBlock)
  {
    hide Order;
    hide KeyBefore;
    hide CutAtSize;
    hide CodecOk;
    hide TableBuilder.Contents;
    hide TableBuilder.Bookkeeping;
    hide TableBuilder.FilterOk;
    NothingBuilt(builder.codec, builder.blockSize);
    largest := items[0].key;
    var i := 0;
    while i < |items|
      invariant 0 <= i <= |items| && builder.Valid() && builder.all == items[..i]
      invariant i > 0 ==> largest == items[i - 1].key
      invariant ChunksFit(builder.chunks) && ItemsFit(builder.dataBlock)
      invariant CutAtSize(builder.codec, builder.blockSize, builder.chunks, builder.dataBlock)
    {
      builder.LastIs();
      largest := items[i].key;
      builder.Add(items[i].key, items[i].value);
      i := i + 1;
    }
    assert items[..|items|] == items;
  }

  // ----- reading -----

  /** A table that holds exactly the items of `all`, cut into blocks. */
  ghost predicate TableOk(c: Codec, t: Table, all: seq<Item>, chunks: seq<seq<Item>>, hash: Hash)
  {
    && CodecOk(c) && ChunksFit(chunks) && Cut(all, chunks, []) && |t.index| == |chunks|
    && (forall i :: 0 <= i < |chunks| ==> BlockListed(c, t, chunks, i))
    && (forall i :: 0 <= i < |chunks| ==> Closes(all, Offset(chunks, i + 1), t.index[i].key))
    && (t.filter.Some? ==> forall i, x :: 0 <= i < |chunks| && x in chunks[i] ==>
         MayMatch(t.filter.value, hash, HandleOf(c, chunks, i).offset, x.key.user))
  }

  /** The index entry gives the handle of the block, and the block is there. */
  ghost predicate BlockListed(c: Codec, t: Table, chunks: seq<seq<Item>>, i: nat)
    requires CodecOk(c) && ChunksFit(chunks) && i < |chunks| == |t.index|
  {
    var h := HandleOf(c, chunks, i);
    && HandleFits(h) && t.index[i].value == EncodeHandle(h)
    && BlockAt(c, t.file, h, RawOf(c, chunks[i]))
  }

  /** A finished file that is opened, with the policy it was built with or another or
      none, is a table with its items. */
  lemma OpensAsBuilt(c: Codec, name: seq<Byte>, file: seq<Byte>, all: seq<Item>, chunks: seq<seq<Item>>,
                     index: seq<Item>, filter: Option<seq<Byte>>, hash: Hash, policy: Option<seq<Byte>>)
    requires IsTable(c, name, file, all, chunks, index, filter, hash) && |file| < TWO_64
    ensures var t := Table(file, index, if policy == Some(name) then filter else None);
      Open(c, file, policy) == Some(t) && TableOk(c, t, all, chunks, hash)
  {
    hide Cut;
    hide Closes;
    hide MayMatch;
    hide CodecOk;
    hide HandleOf;
    hide DataBytes;
    hide FileBytes;
    hide ItemsFit;
    hide Open;
    hide BlockAt;
    OpensBack(c, name, DataBytes(c, chunks), index, filter, policy);
    BlocksThere(c, name, chunks, index, filter);
  }

  lemma BlocksThere(c: Codec, name: seq<Byte>, chunks: seq<seq<Item>>, index: seq<Item>, filter: Option<seq<Byte>>)
    requires CodecOk(c) && ChunksFit(chunks) && ItemsFit(index)
    ensures var file := FileBytes(c, name, DataBytes(c, chunks), index, filter);
      |file| < TWO_64 ==> forall i :: 0 <= i < |chunks| ==>
        BlockAt(c, file, HandleOf(c, chunks, i), RawOf(c, chunks[i])) && HandleFits(HandleOf(c, chunks, i))
  {
    hide CodecOk;
    hide FileBytes;
    hide BlockAt;
    hide HandleOf;
    hide RawOf;
    var data := DataBytes(c, chunks);
    var file := FileBytes(c, name, data, index, filter);
    StartsWithData(c, name, data, index, filter);
    var rest := file[|data|..];
    assert file == data + rest;
    hide DataBytes;
    if |file| < TWO_64 {
      forall i | 0 <= i < |chunks|
        ensures BlockAt(c, file, HandleOf(c, chunks, i), RawOf(c, chunks[i])) && HandleFits(HandleOf(c, chunks, i))
      {
        BlockThere(c, chunks, i, rest);
        WithinFile(c, file, HandleOf(c, chunks, i), RawOf(c, chunks[i]));
      }
    }
  }

  lemma WithinFile(c: Codec, file: seq<Byte>, h: Handle, raw: seq<Byte>)
    requires CodecOk(c) && BlockAt(c, file, h, raw) && |file| < TWO_64
    ensures HandleFits(h)
  {
  }

  lemma StartsWithData(c: Codec, name: seq<Byte>, data: seq<Byte>, index: seq<Item>, filter: Option<seq<Byte>>)
    requires CodecOk(c) && ItemsFit(index)
    ensures data <= FileBytes(c, name, data, index, filter)
  {
    hide RawBlock;
    hide StoredBlock;
    hide EncodeFooter;
    var meta := MetaRaw(c, name, data, filter);
    var a := WithFilter(c, data, filter);
    var b := Append(c, a, meta);
    assert data <= a && a <= b && b <= Append(c, b, RawOf(c, index));
  }

  /** Where a sorted list of keys is sought: the first key not before the target. */
  function FirstNotBefore(keys: seq<InternalKey>, target: InternalKey): (i: nat)
    ensures i <= |keys| && (i < |keys| ==> !KeyBefore(keys[i], target))
    ensures forall j :: 0 <= j < i ==> KeyBefore(keys[j], target)
  {
    if keys == [] || !KeyBefore(keys[0], target) then 0 else 1 + FirstNotBefore(keys[1..], target)
  }

  function KeysOf(items: seq<Item>): (r: seq<InternalKey>)
    ensures |r| == |items| && forall i :: 0 <= i < |items| ==> r[i] == items[i].key
  {
    seq(|items|, i requires 0 <= i < |items| => items[i].key)
  }

  /** What a point lookup must find: the first item at or after the target, if it
      has the target's user key. */
  function Lookup(all: seq<Item>, target: InternalKey): Option<Item>
  {
    var p := FirstNotBefore(KeysOf(all), target);
    if p < |all| && all[p].key.user == target.user then Some(all[p]) else None
  }

  /** SaveValue keeps what was found only if it has the user key. */
  function Saved(found: Option<Item>, target: InternalKey): Option<Item>
  {
    if found.Some? && found.value.key.user == target.user then found else None
  }

  /** The filter of the block the index picks does not have the user key. */
  ghost predicate RuledOut(c: Codec, t: Table, chunks: seq<seq<Item>>, hash: Hash, target: InternalKey)
    requires CodecOk(c) && ChunksFit(chunks) && |t.index| == |chunks|
  {
    var i := FirstNotBefore(KeysOf(t.index), target);
    && i < |chunks| && t.filter.Some?
    && !MayMatch(t.filter.value, hash, HandleOf(c, chunks, i).offset, target.user)
  }

  /** InternalGet: one seek in the index, the filter, one seek in one block. */
  method InternalGet(c: Codec, t: Table, verify: bool, reader: FilterBlockReader?, target: InternalKey,
                     ghost all: seq<Item>, ghost chunks: seq<seq<Item>>, ghost hash: Hash)
    returns (found: Option<Item>, filtered: bool)
    requires TableOk(c, t, all, chunks, hash)
    requires reader != null <==> t.filter.Some?
    requires reader != null ==> reader.Valid() && reader.contents == t.filter.value && reader.hash == hash
    ensures Saved(found, target) == Lookup(all, target)
    ensures filtered <==> RuledOut(c, t, chunks, hash, target)
    ensures filtered ==> found.None?
  {
    hide Order;
    hide CodecOk;
    hide MayMatch;
    hide Cut;
    hide Closes;
    found, filtered := None, false;
    var i := FirstNotBefore(KeysOf(t.index), target);
    if i < |t.index| {
      IndexedBlock(c, t, chunks, i, verify);
      var handle := DecodeHandle(t.index[i].value, 0).value.0;
      if reader != null {
        var may := reader.KeyMayMatch(handle.offset, target.user);
        filtered := !may;
      }
      if !filtered {
        var block := ReadItems(c, t.file, handle, verify).value;
        var q := FirstNotBefore(KeysOf(block), target);
        if q < |block| {
          found := Some(block[q]);
        }
        OneBlockSuffices(c, t, all, chunks, hash, target, i);
      } else {
        FilteredMisses(c, t, all, chunks, hash, target, i);
      }
    } else {
      PastTheEnd(c, t, all, chunks, hash, target);
    }
  }

  /** What the index entry leads to is the block. */
  lemma IndexedBlock(c: Codec, t: Table, chunks: seq<seq<Item>>, i: nat, verify: bool)
    requires CodecOk(c) && ChunksFit(chunks) && i < |chunks| == |t.index| && BlockListed(c, t, chunks, i)
    ensures DecodeHandle(t.index[i].value, 0) == Some((HandleOf(c, chunks, i), |t.index[i].value|))
    ensures ReadItems(c, t.file, HandleOf(c, chunks, i), verify) == Some(chunks[i])
  {
    hide EncodeHandle;
    hide DecodeHandle;
    HandleAt(HandleOf(c, chunks, i), t.index[i].value, 0);
    ReadsItems(c, t.file, HandleOf(c, chunks, i), chunks[i], verify);
  }

  lemma SameUser(a: InternalKey, b: InternalKey)
    ensures a.user == b.user ==> Order(a).user == Order(b).user
  {
  }

  lemma FirstUnique(keys: seq<InternalKey>, target: InternalKey, p: nat)
    requires p <= |keys| && (forall j :: 0 <= j < p ==> KeyBefore(keys[j], target))
    requires p < |keys| ==> !KeyBefore(keys[p], target)
    ensures FirstNotBefore(keys, target) == p
  {
    hide Order;
    assert p < |keys| ==> !KeyBefore(keys[p], target);
  }

  /** Block `i` is the stretch of all items between its offsets. */
  lemma ChunkAt(all: seq<Item>, chunks: seq<seq<Item>>, i: nat)
    requires Cut(all, chunks, []) && i < |chunks|
    ensures Offset(chunks, i + 1) == Offset(chunks, i) + |chunks[i]| <= |all|
    ensures forall q :: 0 <= q < |chunks[i]| ==> all[Offset(chunks, i) + q] == chunks[i][q]
  {
    hide Order;
    assert chunks[..i + 1][..i] == chunks[..i];
    forall q | 0 <= q < |chunks[i]|
      ensures Offset(chunks, i) + q < |all| && all[Offset(chunks, i) + q] == chunks[i][q]
    {
      FlattenAt(chunks, i, q);
    }
    if i + 1 < |chunks| {
      OffsetGrows(chunks, i + 1, |chunks|);
    }
    assert chunks[..|chunks|] == chunks;
  }

  /** Everything before the block the index picks is before the target. */
  lemma BeforeBlock(c: Codec, t: Table, all: seq<Item>, chunks: seq<seq<Item>>, hash: Hash, target: InternalKey, i: nat)
    requires TableOk(c, t, all, chunks, hash) && i <= |t.index|
    requires forall j :: 0 <= j < i ==> KeyBefore(t.index[j].key, target)
    ensures Offset(chunks, i) <= |all| && forall a :: 0 <= a < Offset(chunks, i) ==> KeyBefore(all[a].key, target)
  {
    hide Order;
    if i > 0 {
      assert Closes(all, Offset(chunks, i), t.index[i - 1].key);
    }
  }

  lemma PastTheEnd(c: Codec, t: Table, all: seq<Item>, chunks: seq<seq<Item>>, hash: Hash, target: InternalKey)
    requires TableOk(c, t, all, chunks, hash) && forall j :: 0 <= j < |t.index| ==> KeyBefore(t.index[j].key, target)
    ensures Lookup(all, target) == None
  {
    hide Order;
    BeforeBlock(c, t, all, chunks, hash, target, |t.index|);
    assert chunks[..|chunks|] == chunks;
    FirstUnique(KeysOf(all), target, |all|);
  }

  lemma JustPast(all: seq<Item>, hi: nat, p: nat, key: InternalKey, target: InternalKey)
    requires Closes(all, hi, key) && hi <= p <= |all| && forall j :: 0 <= j < p ==> KeyBefore(KeysOf(all)[j], target)
    ensures hi < p ==> KeyBefore(key, target)
  {
    hide Order;
    if hi < p {
      assert KeyBefore(key, all[hi].key) && KeyBefore(KeysOf(all)[hi], target);
    }
  }

  /** The first item at or after the target is past the block, so it has a later
      user key: the index key of the block lies between. */
  lemma MissBeyond(c: Codec, t: Table, all: seq<Item>, chunks: seq<seq<Item>>, hash: Hash, target: InternalKey, i: nat)
    requires TableOk(c, t, all, chunks, hash) && i < |t.index| && !KeyBefore(t.index[i].key, target)
    requires FirstNotBefore(KeysOf(all), target) >= Offset(chunks, i + 1)
    ensures Lookup(all, target) == None
  {
    hide Order;
    var p, hi := FirstNotBefore(KeysOf(all), target), Offset(chunks, i + 1);
    if p < |all| {
      SameUser(all[p].key, target);
    }
    assert Closes(all, hi, t.index[i].key);
    if p < |all| {
      assert KeyBefore(KeysOf(all)[hi - 1], target);
      JustPast(all, hi, p, t.index[i].key, target);
    }
  }

  lemma OneBlockSuffices(c: Codec, t: Table, all: seq<Item>, chunks: seq<seq<Item>>, hash: Hash,
                         target: InternalKey, i: nat)
    requires TableOk(c, t, all, chunks, hash) && i == FirstNotBefore(KeysOf(t.index), target) < |t.index|
    ensures var q := FirstNotBefore(KeysOf(chunks[i]), target);
      Saved(if q < |chunks[i]| then Some(chunks[i][q]) else None, target) == Lookup(all, target)
  {
    hide Order;
    hide KeyBefore;
    hide KeysOf;
    hide FirstNotBefore;
    hide Order;
    hide Closes;
    hide Cut;
    hide BlockListed;
    hide MayMatch;
    var q, lo := FirstNotBefore(KeysOf(chunks[i]), target), Offset(chunks, i);
    IndexPicks(t, target, i);
    BeforeBlock(c, t, all, chunks, hash, target, i);
    ChunkAt(all, chunks, i);
    BlockFirst(all, chunks[i], lo, target);
    if q >= |chunks[i]| {
      MissBeyond(c, t, all, chunks, hash, target, i);
    }
  }

  /** The first item not before the target, given that those before `lo` are. */
  lemma BlockFirst(all: seq<Item>, block: seq<Item>, lo: nat, target: InternalKey)
    requires lo + |block| <= |all| && forall q :: 0 <= q < |block| ==> all[lo + q] == block[q]
    requires forall a :: 0 <= a < lo ==> KeyBefore(all[a].key, target)
    ensures var q, p := FirstNotBefore(KeysOf(block), target), FirstNotBefore(KeysOf(all), target);
      if q < |block| then p == lo + q else p >= lo + |block|
  {
    hide Order;
    hide KeyBefore;
    var q := FirstNotBefore(KeysOf(block), target);
    forall a | 0 <= a < lo + q
      ensures KeyBefore(KeysOf(all)[a], target)
    {
      if a >= lo {
        assert KeyBefore(KeysOf(block)[a - lo], target) && all[lo + (a - lo)] == block[a - lo];
      }
    }
    if q < |block| {
      assert all[lo + q] == block[q];
      FirstUnique(KeysOf(all), target, lo + q);
    } else {
      FirstIsLater(all, target, lo + q);
    }
  }

  lemma IndexPicks(t: Table, target: InternalKey, i: nat)
    requires i == FirstNotBefore(KeysOf(t.index), target) < |t.index|
    ensures !KeyBefore(t.index[i].key, target) && forall j :: 0 <= j < i ==> KeyBefore(t.index[j].key, target)
  {
    hide Order;
    forall j | 0 <= j < i
      ensures KeyBefore(t.index[j].key, target)
    {
      assert KeyBefore(KeysOf(t.index)[j], target);
    }
  }

  lemma FirstIsLater(all: seq<Item>, target: InternalKey, n: nat)
    requires n <= |all| && forall a :: 0 <= a < n ==> KeyBefore(KeysOf(all)[a], target)
    ensures FirstNotBefore(KeysOf(all), target) >= n
  {
    hide Order;
  }

  /** A key that the filter rules out is not in the block, nor after it. */
  lemma FilteredMisses(c: Codec, t: Table, all: seq<Item>, chunks: seq<seq<Item>>, hash: Hash,
                       target: InternalKey, i: nat)
    requires TableOk(c, t, all, chunks, hash) && i == FirstNotBefore(KeysOf(t.index), target) < |t.index|
    requires t.filter.Some? && !MayMatch(t.filter.value, hash, HandleOf(c, chunks, i).offset, target.user)
    ensures Lookup(all, target) == None
  {
    hide Order;
    IndexPicks(t, target, i);
    BeforeBlock(c, t, all, chunks, hash, target, i);
    ChunkAt(all, chunks, i);
    var p, lo := FirstNotBefore(KeysOf(all), target), Offset(chunks, i);
    FirstIsLater(all, target, lo);
    if p >= Offset(chunks, i + 1) {
      MissBeyond(c, t, all, chunks, hash, target, i);
    } else {
      assert all[lo + (p - lo)] == chunks[i][p - lo];
      assert chunks[i][p - lo] in chunks[i];
    }
  }
}
