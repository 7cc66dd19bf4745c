/** The bytes of a table file (table/format.h, table/format.cc): block handles, the
    trailer of a block, and the footer. */
module TableFormat {
  import opened Wrappers
  import opened Keys
  import opened Coding
  import Blocks

  /** Where a block is stored. */
  datatype Handle = Handle(offset: nat, size: nat)

  const BLOCK_TRAILER_SIZE := 5
  const MAX_HANDLE_LENGTH := 20
  const FOOTER_LENGTH := 48
  const MAGIC: nat := 0xdb4775248b80fb57

  const NO_COMPRESSION: Byte := 0
  const SNAPPY_COMPRESSION: Byte := 1

  /** How blocks become bytes: the block builder and its reader, the compressor, if the
      options ask for it, and the checksum. */
  datatype Codec = Codec(
    encode: seq<Blocks.Pair> -> seq<Byte>, decode: seq<Byte> -> Option<seq<Blocks.Pair>>,
    snappy: bool, compress: seq<Byte> -> Option<seq<Byte>>, uncompress: seq<Byte> -> Option<seq<Byte>>,
    crc: seq<Byte> -> nat)

  ghost predicate CodecOk(c: Codec)
  {
    && (forall pairs :: c.decode(c.encode(pairs)) == Some(pairs))
    && (forall raw :: c.compress(raw).Some? ==> c.uncompress(c.compress(raw).value) == Some(raw))
    && (forall data :: c.crc(data) < TWO_32)
  }

  // ----- handles -----

  function EncodeHandle(h: Handle): seq<Byte>
  {
    Varint(h.offset) + Varint(h.size)
  }

  function DecodeHandle(s: seq<Byte>, p: nat): (r: Option<(Handle, nat)>)
    requires p <= |s|
    ensures r.Some? ==> p < r.value.1 <= |s|
  {
    match ReadNumber(s, p, true)
    case None => None
    case Some(offset) =>
      match ReadNumber(s, offset.1, true)
      case None => None
      case Some(size) => Some((Handle(offset.0, size.0), size.1))
  }

  ghost predicate HandleFits(h: Handle)
  {
    h.offset < TWO_64 && h.size < TWO_64
  }

  lemma HandleAt(h: Handle, s: seq<Byte>, p: nat)
    requires HandleFits(h) && At(s, p, EncodeHandle(h))
    ensures p <= |s| && DecodeHandle(s, p) == Some((h, p + |EncodeHandle(h)|))
  {
    hide Varint;
    hide ReadNumber;
    AtBoth(s, p, Varint(h.offset), Varint(h.size));
    hide At;
    NumberAt(h.offset, s, p, true);
    NumberAt(h.size, s, p + |Varint(h.offset)|, true);
  }

  lemma HandleLength(h: Handle)
    requires HandleFits(h)
    ensures |EncodeHandle(h)| <= MAX_HANDLE_LENGTH
  {
    Pow128Covers();
    VarintLengthBound(h.offset, MAX_VARINT_64);
    VarintLengthBound(h.size, MAX_VARINT_64);
  }

  // ----- the footer -----

  /** std::string::resize. */
  function Resized(s: seq<Byte>, n: nat): (r: seq<Byte>)
    ensures |r| == n && (|s| <= n ==> s <= r)
  {
    if n <= |s| then s[..n] else s + seq(n - |s|, i => 0)
  }

  function EncodeFooter(metaindex: Handle, index: Handle): (r: seq<Byte>)
    ensures |r| == FOOTER_LENGTH
  {
    Resized(EncodeHandle(metaindex) + EncodeHandle(index), 2 * MAX_HANDLE_LENGTH)
    + EncodeFixed32(MAGIC % TWO_32) + EncodeFixed32(MAGIC / TWO_32)
  }

  /** The handles of the metaindex and the index, unless the magic number or a handle is bad. */
  function DecodeFooter(s: seq<Byte>): Option<(Handle, Handle)>
    requires |s| == FOOTER_LENGTH
  {
    var magic := s[FOOTER_LENGTH - 8..];
    if DecodeFixed32(magic[..4]) + TWO_32 * DecodeFixed32(magic[4..]) != MAGIC then None
    else
      match DecodeHandle(s, 0)
      case None => None
      case Some(metaindex) =>
        match DecodeHandle(s, metaindex.1)
        case None => None
        case Some(index) => Some((metaindex.0, index.0))
  }

  lemma FooterRoundTrip(metaindex: Handle, index: Handle)
    requires HandleFits(metaindex) && HandleFits(index)
    ensures DecodeFooter(EncodeFooter(metaindex, index)) == Some((metaindex, index))
  {
    hide EncodeHandle;
    hide DecodeHandle;
    var s := EncodeFooter(metaindex, index);
    HandleLength(metaindex);
    HandleLength(index);
    var m, n := |EncodeHandle(metaindex)|, |EncodeHandle(index)|;
    assert EncodeHandle(metaindex) + EncodeHandle(index) <= s;
    assert s[0..m] == EncodeHandle(metaindex) && s[m..m + n] == EncodeHandle(index);
    HandleAt(metaindex, s, 0);
    HandleAt(index, s, m);
    assert s[FOOTER_LENGTH - 8..][..4] == EncodeFixed32(MAGIC % TWO_32);
    assert s[FOOTER_LENGTH - 8..][4..] == EncodeFixed32(MAGIC / TWO_32);
  }

  // ----- a block with its trailer -----

  /** What is stored for a raw block, and its type: compressed only if that saves an eighth. */
  function StoredAs(c: Codec, raw: seq<Byte>): (seq<Byte>, Byte)
  {
    var compressed := if c.snappy then c.compress(raw) else None;
    if compressed.Some? && |compressed.value| < |raw| - |raw| / 8 then (compressed.value, SNAPPY_COMPRESSION)
    else (raw, NO_COMPRESSION)
  }

  /** Contents, type, and the masked checksum of both. */
  function RawBlock(c: Codec, contents: seq<Byte>, kind: Byte): (r: seq<Byte>)
    requires CodecOk(c)
    ensures |r| == |contents| + BLOCK_TRAILER_SIZE
  {
    contents + [kind] + EncodeFixed32(Mask(c.crc(contents + [kind])))
  }

  /** The bytes a raw block takes in the file. */
  function StoredBlock(c: Codec, raw: seq<Byte>): (r: seq<Byte>)
    requires CodecOk(c)
    ensures |r| == |StoredAs(c, raw).0| + BLOCK_TRAILER_SIZE
  {
    RawBlock(c, StoredAs(c, raw).0, StoredAs(c, raw).1)
  }

  datatype BlockRead = Contents(data: seq<Byte>) | Truncated | BadChecksum | BadCompressed | BadType

  /** ReadBlock. */
  function ReadBlock(c: Codec, file: seq<Byte>, h: Handle, verify: bool): BlockRead
  {
    if h.offset + h.size + BLOCK_TRAILER_SIZE > |file| then Truncated
    else
      var data := file[h.offset..h.offset + h.size + BLOCK_TRAILER_SIZE];
      if verify && c.crc(data[..h.size + 1]) != Unmask(DecodeFixed32(data[h.size + 1..])) then BadChecksum
      else if data[h.size] == NO_COMPRESSION then Contents(data[..h.size])
      else if data[h.size] == SNAPPY_COMPRESSION then
        match c.uncompress(data[..h.size])
        case None => BadCompressed
        case Some(raw) => Contents(raw)
      else BadType
  }

  /** The handle delimits what is stored for the raw block. */
  ghost predicate BlockAt(c: Codec, file: seq<Byte>, h: Handle, raw: seq<Byte>)
    requires CodecOk(c)
  {
    h.size == |StoredAs(c, raw).0| && At(file, h.offset, StoredBlock(c, raw))
  }

  lemma ReadsRaw(c: Codec, file: seq<Byte>, h: Handle, contents: seq<Byte>, kind: Byte)
    requires CodecOk(c) && h.size == |contents| && At(file, h.offset, RawBlock(c, contents, kind))
    ensures h.offset + h.size + BLOCK_TRAILER_SIZE <= |file|
    ensures var data := file[h.offset..h.offset + h.size + BLOCK_TRAILER_SIZE];
      && data[..h.size] == contents && data[h.size] == kind
      && c.crc(data[..h.size + 1]) == Unmask(DecodeFixed32(data[h.size + 1..]))
  {
    var data := file[h.offset..h.offset + h.size + BLOCK_TRAILER_SIZE];
    assert data == RawBlock(c, contents, kind);
    assert data[..h.size + 1] == contents + [kind];
    assert data[h.size + 1..] == EncodeFixed32(Mask(c.crc(contents + [kind])));
    UnmaskOfMask(c.crc(contents + [kind]));
  }

  /** A block that was stored is read back, compressed or not, checked or not. */
  lemma ReadsBlock(c: Codec, file: seq<Byte>, h: Handle, raw: seq<Byte>, verify: bool)
    requires CodecOk(c) && BlockAt(c, file, h, raw)
    ensures ReadBlock(c, file, h, verify) == Contents(raw)
  {
    var stored := StoredAs(c, raw);
    ReadsRaw(c, file, h, stored.0, stored.1);
  }
}
