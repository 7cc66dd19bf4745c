/** A table file as a whole (table/table_builder.cc, Finish; table/table.cc, Open):
    data blocks, filter block, metaindex block, index block, footer. */
module TableBytes {
  import opened Wrappers
  import opened Keys
  import opened Coding
  import opened Separators
  import opened TableFormat
  import Blocks

  datatype Item = Item(key: InternalKey, value: seq<Byte>)

  /** An opened table: its file, its index, whose values are block handles, and its filter block. */
  datatype Table = Table(file: seq<Byte>, index: seq<Item>, filter: Option<seq<Byte>>)

  /** Every tag fits its eight bytes. */
  ghost predicate ItemsFit(items: seq<Item>)
  {
    forall i :: 0 <= i < |items| ==> items[i].key.tag < TWO_64
  }

  /** Items as a block builder takes them. */
  function PairsOf(items: seq<Item>): (r: seq<Blocks.Pair>)
    requires ItemsFit(items)
    ensures |r| == |items|
    ensures forall i :: 0 <= i < |items| ==> r[i] == Blocks.Pair(KeyBytes(items[i].key), items[i].value)
  {
    seq(|items|, i requires 0 <= i < |items| => Blocks.Pair(KeyBytes(items[i].key), items[i].value))
  }

  /** The items back from a block, if all their keys parse. */
  function ItemsOf(pairs: seq<Blocks.Pair>): Option<seq<Item>>
  {
    if pairs == [] then Some([])
    else
      var last := pairs[|pairs| - 1];
      match ItemsOf(pairs[..|pairs| - 1])
      case None => None
      case Some(items) =>
        match ParseKey(last.key)
        case None => None
        case Some(key) => Some(items + [Item(key, last.value)])
  }

  lemma {:induction false} ItemsBack(items: seq<Item>)
    requires ItemsFit(items)
    ensures ItemsOf(PairsOf(items)) == Some(items)
  {
    if items != [] {
      var init, last := items[..|items| - 1], items[|items| - 1];
      ItemsBack(init);
      assert PairsOf(items)[..|items| - 1] == PairsOf(init);
      ParseStored(last.key);
      hide KeyBytes;
      hide ParseKey;
      assert items == init + [last];
    }
  }

  ghost predicate ChunksFit(chunks: seq<seq<Item>>)
  {
    forall i :: 0 <= i < |chunks| ==> ItemsFit(chunks[i])
  }

  /** A block as the block builder finishes it. */
  function RawOf(c: Codec, items: seq<Item>): seq<Byte>
    requires ItemsFit(items)
  {
    c.encode(PairsOf(items))
  }

  /** The data blocks, one after the other. */
  function DataBytes(c: Codec, chunks: seq<seq<Item>>): seq<Byte>
    requires CodecOk(c) && ChunksFit(chunks)
  {
    if chunks == [] then []
    else DataBytes(c, chunks[..|chunks| - 1]) + StoredBlock(c, RawOf(c, chunks[|chunks| - 1]))
  }

  /** The handle of block `i`: it starts where the blocks before it end. */
  function HandleOf(c: Codec, chunks: seq<seq<Item>>, i: nat): Handle
    requires CodecOk(c) && ChunksFit(chunks) && i < |chunks|
  {
    Handle(|DataBytes(c, chunks[..i])|, |StoredAs(c, RawOf(c, chunks[i])).0|)
  }

  /** The blocks follow each other without a gap, five bytes apart. */
  lemma HandlesTile(c: Codec, chunks: seq<seq<Item>>, i: nat)
    requires CodecOk(c) && ChunksFit(chunks) && i < |chunks|
    ensures i == 0 ==> HandleOf(c, chunks, i).offset == 0
    ensures var h := HandleOf(c, chunks, i);
      var end := h.offset + h.size + BLOCK_TRAILER_SIZE;
      if i + 1 < |chunks| then HandleOf(c, chunks, i + 1).offset == end else |DataBytes(c, chunks)| == end
  {
    assert chunks[..i + 1][..i] == chunks[..i] && chunks[..|chunks|] == chunks;
  }

  lemma {:induction false} BlockThere(c: Codec, chunks: seq<seq<Item>>, i: nat, rest: seq<Byte>)
    requires CodecOk(c) && ChunksFit(chunks) && i < |chunks|
    ensures BlockAt(c, DataBytes(c, chunks) + rest, HandleOf(c, chunks, i), RawOf(c, chunks[i]))
    decreases |chunks|
  {
    hide StoredBlock;
    hide StoredAs;
    hide RawOf;
    var n := |chunks| - 1;
    var init, last := chunks[..n], StoredBlock(c, RawOf(c, chunks[n]));
    assert DataBytes(c, chunks) + rest == DataBytes(c, init) + (last + rest);
    if i < n {
      BlockThere(c, init, i, last + rest);
      assert init[..i] == chunks[..i];
    }
  }

  // ----- the whole file -----

  /** The metaindex says where the filter is. */
  function MetaPairs(name: seq<Byte>, filter: Option<Handle>): seq<Blocks.Pair>
  {
    if filter.Some? then [Blocks.Pair(FilterKey(name), EncodeHandle(filter.value))] else []
  }

  /** "filter." and the name of the policy. */
  function FilterKey(name: seq<Byte>): seq<Byte>
  {
    [102, 105, 108, 116, 101, 114, 46] + name
  }

  /** `file` with a block stored behind it. */
  function Append(c: Codec, file: seq<Byte>, raw: seq<Byte>): seq<Byte>
    requires CodecOk(c)
  {
    file + StoredBlock(c, raw)
  }

  /** The handle of that block. */
  function NextHandle(c: Codec, file: seq<Byte>, raw: seq<Byte>): Handle
  {
    Handle(|file|, |StoredAs(c, raw).0|)
  }

  /** The filter block is stored as it is. */
  function WithFilter(c: Codec, file: seq<Byte>, filter: Option<seq<Byte>>): seq<Byte>
    requires CodecOk(c)
  {
    if filter.Some? then file + RawBlock(c, filter.value, NO_COMPRESSION) else file
  }

  function FilterHandle(file: seq<Byte>, filter: Option<seq<Byte>>): Option<Handle>
  {
    if filter.Some? then Some(Handle(|file|, |filter.value|)) else None
  }

  function MetaRaw(c: Codec, name: seq<Byte>, data: seq<Byte>, filter: Option<seq<Byte>>): seq<Byte>
  {
    c.encode(MetaPairs(name, FilterHandle(data, filter)))
  }

  /** A whole table file. */
  function FileBytes(c: Codec, name: seq<Byte>, data: seq<Byte>, index: seq<Item>, filter: Option<seq<Byte>>): seq<Byte>
    requires CodecOk(c) && ItemsFit(index)
  {
    var meta := MetaRaw(c, name, data, filter);
    var a := WithFilter(c, data, filter);
    var b := Append(c, a, meta);
    Append(c, b, RawOf(c, index)) + EncodeFooter(NextHandle(c, a, meta), NextHandle(c, b, RawOf(c, index)))
  }

  // ----- opening it -----

  function ReadPairs(c: Codec, file: seq<Byte>, h: Handle, verify: bool): Option<seq<Blocks.Pair>>
  {
    match ReadBlock(c, file, h, verify)
    case Contents(data) => c.decode(data)
    case _ => None
  }

  function ReadItems(c: Codec, file: seq<Byte>, h: Handle, verify: bool): Option<seq<Item>>
  {
    match ReadPairs(c, file, h, verify)
    case None => None
    case Some(pairs) => ItemsOf(pairs)
  }

  /** The value of a key of the metaindex. */
  function MetaValue(pairs: seq<Blocks.Pair>, key: seq<Byte>): Option<seq<Byte>>
  {
    if pairs == [] then None else if pairs[0].key == key then Some(pairs[0].value) else MetaValue(pairs[1..], key)
  }

  /** ReadMeta and ReadFilter: the filter of the policy, if there is one; errors are not passed on. */
  function ReadMeta(c: Codec, file: seq<Byte>, metaindex: Handle, policy: Option<seq<Byte>>): Option<seq<Byte>>
  {
    if policy.None? then None
    else
      match ReadPairs(c, file, metaindex, false)
      case None => None
      case Some(pairs) =>
        match MetaValue(pairs, FilterKey(policy.value))
        case None => None
        case Some(value) =>
          match DecodeHandle(value, 0)
          case None => None
          case Some(h) =>
            match ReadBlock(c, file, h.0, false)
            case Contents(data) => Some(data)
            case _ => None
  }

  /** Table::Open: the footer, the index block, and the filter. */
  function Open(c: Codec, file: seq<Byte>, policy: Option<seq<Byte>>): Option<Table>
  {
    if |file| < FOOTER_LENGTH then None
    else
      match DecodeFooter(file[|file| - FOOTER_LENGTH..])
      case None => None
      case Some(handles) =>
        match ReadItems(c, file, handles.1, false)
        case None => None
        case Some(index) => Some(Table(file, index, ReadMeta(c, file, handles.0, policy)))
  }

  lemma ReadsPairs(c: Codec, file: seq<Byte>, h: Handle, pairs: seq<Blocks.Pair>, verify: bool)
    requires CodecOk(c) && BlockAt(c, file, h, c.encode(pairs))
    ensures ReadPairs(c, file, h, verify) == Some(pairs)
  {
    ReadsBlock(c, file, h, c.encode(pairs), verify);
  }

  lemma ReadsItems(c: Codec, file: seq<Byte>, h: Handle, items: seq<Item>, verify: bool)
    requires CodecOk(c) && ItemsFit(items) && BlockAt(c, file, h, RawOf(c, items))
    ensures ReadItems(c, file, h, verify) == Some(items)
  {
    ReadsPairs(c, file, h, PairsOf(items), verify);
    ItemsBack(items);
  }

  /** A block stored behind `before` stands there, whatever follows. */
  lemma AppendedThere(c: Codec, before: seq<Byte>, raw: seq<Byte>, rest: seq<Byte>)
    requires CodecOk(c)
    ensures BlockAt(c, Append(c, before, raw) + rest, NextHandle(c, before, raw), raw)
  {
  }

  lemma MetaFound(name: seq<Byte>, filter: Option<Handle>, policy: seq<Byte>)
    ensures MetaValue(MetaPairs(name, filter), FilterKey(policy))
      == if filter.Some? && policy == name then Some(EncodeHandle(filter.value)) else None
  {
    assert FilterKey(policy)[7..] == policy && FilterKey(name)[7..] == name;
  }

  lemma FilterThere(c: Codec, data: seq<Byte>, filter: seq<Byte>, rest: seq<Byte>)
    requires CodecOk(c)
    ensures ReadBlock(c, WithFilter(c, data, Some(filter)) + rest, Handle(|data|, |filter|), false) == Contents(filter)
  {
    var file := WithFilter(c, data, Some(filter)) + rest;
    assert file == data + (RawBlock(c, filter, NO_COMPRESSION) + rest);
    ReadsRaw(c, file, Handle(|data|, |filter|), filter, NO_COMPRESSION);
  }

  /** What is read of the filter: the block that was written, if it was under the policy's name. */
  lemma ReadsFilter(c: Codec, name: seq<Byte>, data: seq<Byte>, filter: Option<seq<Byte>>, rest: seq<Byte>,
                    policy: Option<seq<Byte>>)
    requires CodecOk(c) && |WithFilter(c, data, filter)| < TWO_64
    ensures var meta := MetaRaw(c, name, data, filter);
      var a := WithFilter(c, data, filter);
      ReadMeta(c, Append(c, a, meta) + rest, NextHandle(c, a, meta), policy)
        == if policy == Some(name) then filter else None
  {
    hide StoredAs;
    hide StoredBlock;
    hide EncodeHandle;
    hide DecodeHandle;
    hide FilterKey;
    hide MetaPairs;
    var meta := MetaRaw(c, name, data, filter);
    var a := WithFilter(c, data, filter);
    var file := Append(c, a, meta) + rest;
    AppendedThere(c, a, meta, rest);
    ReadsPairs(c, file, NextHandle(c, a, meta), MetaPairs(name, FilterHandle(data, filter)), false);
    if policy.Some? {
      MetaFound(name, FilterHandle(data, filter), policy.value);
    }
    if filter.Some? {
      assert file == a + (StoredBlock(c, meta) + rest);
      FilterThere(c, data, filter.value, StoredBlock(c, meta) + rest);
      hide RawBlock;
      hide ReadBlock;
      var h := Handle(|data|, |filter.value|);
      HandleAt(h, EncodeHandle(h), 0);
    }
  }

  /** What was written is what is opened: the index as it was built, and the filter if the policy asks for it. */
  lemma OpensBack(c: Codec, name: seq<Byte>, data: seq<Byte>, index: seq<Item>, filter: Option<seq<Byte>>,
                  policy: Option<seq<Byte>>)
    requires CodecOk(c) && ItemsFit(index) && |FileBytes(c, name, data, index, filter)| < TWO_64
    ensures Open(c, FileBytes(c, name, data, index, filter), policy)
      == Some(Table(FileBytes(c, name, data, index, filter), index, if policy == Some(name) then filter else None))
  {
    hide RawBlock;
    hide StoredAs;
    hide EncodeFooter;
    hide DecodeFooter;
    hide ReadMeta;
    hide ReadItems;
    var file := FileBytes(c, name, data, index, filter);
    var meta, raw := MetaRaw(c, name, data, filter), RawOf(c, index);
    var a := WithFilter(c, data, filter);
    var b := Append(c, a, meta);
    var m, i := NextHandle(c, a, meta), NextHandle(c, b, raw);
    var footer := EncodeFooter(m, i);
    assert file[|file| - FOOTER_LENGTH..] == footer;
    FooterRoundTrip(m, i);
    AppendedThere(c, b, raw, footer);
    ReadsItems(c, file, i, index, false);
    assert file == b + (StoredBlock(c, raw) + footer);
    ReadsFilter(c, name, data, filter, StoredBlock(c, raw) + footer, policy);
  }
}
