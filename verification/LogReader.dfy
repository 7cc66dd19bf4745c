/** Reading a log back, whole or cut off anywhere (db/log_reader.cc). */
module LogReader {
  import opened Wrappers
  import opened Keys
  import opened Coding
  import opened LogFormat

  // ----- what reading a file from a position means -----

  function BlockEnd(p: nat): (e: nat)
    ensures p < e <= p + BLOCK_SIZE && e % BLOCK_SIZE == 0
  {
    (p / BLOCK_SIZE + 1) * BLOCK_SIZE
  }

  lemma Aligned(p: nat)
    requires p % BLOCK_SIZE == 0
    ensures BlockEnd(p) == p + BLOCK_SIZE
  {
  }

  lemma SameBlock(p: nat, q: nat)
    requires p <= q < BlockEnd(p)
    ensures BlockEnd(q) == BlockEnd(p)
  {
  }

  function Min(a: nat, b: nat): nat
  {
    if a < b then a else b
  }

  /** One physical record: its type, its payload, where the next one starts, and
      how many bytes were reported as dropped. */
  datatype Physical = Physical(kind: nat, payload: seq<Byte>, next: nat, dropped: nat)

  function PhysicalAt(file: seq<Byte>, crc: Checksum, p: nat): (r: Physical)
    requires p <= |file|
    ensures p <= r.next <= |file| && (r.kind != EOF_TYPE ==> p < r.next)
    decreases |file| - p
  {
    var end := Min(BlockEnd(p), |file|);
    if end - p < HEADER_SIZE then
      if |file| >= BlockEnd(p) then PhysicalAt(file, crc, BlockEnd(p))
      else Physical(EOF_TYPE, [], |file|, end - p)
    else
      Parsed(crc, file[p..end], p)
  }

  /** Parse the header at the front of the buffered rest of a block. */
  function Parsed(crc: Checksum, buffer: seq<Byte>, p: nat): (r: Physical)
    requires |buffer| >= HEADER_SIZE
    ensures p < r.next <= p + |buffer|
  {
    var length := buffer[4] as nat + 256 * (buffer[5] as nat);
    if HEADER_SIZE + length > |buffer| then Physical(BAD_RECORD, [], p + |buffer|, |buffer|)
    else if buffer[6] == ZERO_TYPE && length == 0 then Physical(BAD_RECORD, [], p + |buffer|, 0)
    else if crc(buffer[6..HEADER_SIZE + length]) != Unmask(DecodeFixed32(buffer[..4])) then
      Physical(BAD_RECORD, [], p + |buffer|, |buffer|)
    else Physical(buffer[6], buffer[HEADER_SIZE..HEADER_SIZE + length], p + HEADER_SIZE + length, 0)
  }

  datatype Logical = Logical(record: Option<seq<Byte>>, next: nat, dropped: nat)

  /** One logical record: collect fragments until one ends it. */
  function LogicalAt(file: seq<Byte>, crc: Checksum, p: nat, scratch: seq<Byte>, inFragmented: bool): (r: Logical)
    requires p <= |file|
    ensures p <= r.next <= |file| && (r.record.Some? ==> p < r.next)
    decreases |file| - p
  {
    var f := PhysicalAt(file, crc, p);
    var partial := if inFragmented then |scratch| else 0;
    if f.kind == FULL_TYPE then Logical(Some(f.payload), f.next, f.dropped + partial)
    else if f.kind == EOF_TYPE then Logical(None, f.next, f.dropped + partial)
    else if f.kind == LAST_TYPE && inFragmented then Logical(Some(scratch + f.payload), f.next, f.dropped)
    else
      var r :=
        if f.kind == FIRST_TYPE then LogicalAt(file, crc, f.next, f.payload, true)
        else if f.kind == MIDDLE_TYPE && inFragmented then LogicalAt(file, crc, f.next, scratch + f.payload, true)
        else if f.kind == MIDDLE_TYPE || f.kind == LAST_TYPE then LogicalAt(file, crc, f.next, scratch, inFragmented)
        else if f.kind == BAD_RECORD && !inFragmented then LogicalAt(file, crc, f.next, scratch, false)
        else LogicalAt(file, crc, f.next, [], false);
      var lost := match f.kind
        case 2 => partial
        case 3 => if inFragmented then 0 else |f.payload|
        case 4 => |f.payload|
        case 6 => partial
        case _ => partial + |f.payload|;
      r.(dropped := f.dropped + lost + r.dropped)
  }

  function AllFrom(file: seq<Byte>, crc: Checksum, p: nat): seq<seq<Byte>>
    requires p <= |file|
    decreases |file| - p
  {
    var r := LogicalAt(file, crc, p, [], false);
    if r.record.None? then [] else [r.record.value] + AllFrom(file, crc, r.next)
  }

  /** Bytes reported as dropped by the time the end is reached. */
  function DroppedFrom(file: seq<Byte>, crc: Checksum, p: nat): nat
    requires p <= |file|
    decreases |file| - p
  {
    var r := LogicalAt(file, crc, p, [], false);
    if r.record.None? then r.dropped else r.dropped + DroppedFrom(file, crc, r.next)
  }

  /** log::Reader, reading from the start of the file with checksums on. */
  class Reader {
    const file: seq<Byte>
    const crc: Checksum
    var position: nat
    var buffer: seq<Byte>
    var eof: bool
    var dropped: nat

    constructor (file: seq<Byte>, crc: Checksum)
      ensures Valid() && At() == 0 && dropped == 0
      ensures this.file == file && this.crc == crc
    {
      this.file, this.crc := file, crc;
      position, buffer, eof, dropped := 0, [], false, 0;
    }

    /** The buffer is what is left of the block that was read last. */
    ghost predicate Valid()
      reads this
    {
      && |buffer| <= position <= |file| && buffer == file[position - |buffer|..position]
      && (buffer != [] ==> position == Min(BlockEnd(At()), |file|) && (eof <==> |file| < BlockEnd(At())))
      && (buffer == [] ==> if eof then position == |file| else position % BLOCK_SIZE == 0)
    }

    /** Where in the file the next unread byte is. */
    ghost function At(): nat
      reads this
    {
      if |buffer| <= position then position - |buffer| else 0
    }

    method ReadPhysicalRecord() returns (kind: nat, payload: seq<Byte>)
      requires Valid()
      modifies this`position, this`buffer, this`eof, this`dropped
      ensures Valid() && old(At()) <= |file|
      ensures var r := PhysicalAt(file, crc, old(At()));
        kind == r.kind && payload == r.payload && At() == r.next && dropped == old(dropped) + r.dropped
    {
      while |buffer| < HEADER_SIZE
        invariant Valid() && dropped == old(dropped)
        invariant old(At()) <= |file| && At() <= |file|
        invariant PhysicalAt(file, crc, old(At())) == PhysicalAt(file, crc, At())
        decreases |file| - position, !eof
      {
        if eof {
          dropped := dropped + |buffer|;
          buffer := [];
          return EOF_TYPE, [];
        }
        Refill();
      }
      var p := position - |buffer|;
      kind, payload := Parse(p);
    }

    /** The last read was a full block, so what is left of it is a trailer. */
    method Refill()
      requires Valid() && !eof && |buffer| < HEADER_SIZE
      modifies this`position, this`buffer, this`eof
      ensures Valid() && position >= old(position) && (position == old(position) ==> eof)
      ensures old(At()) <= |file| && PhysicalAt(file, crc, old(At())) == PhysicalAt(file, crc, At())
    {
      Aligned(position);
      hide BlockEnd;
      var start := position;
      var n := Min(BLOCK_SIZE, |file| - start);
      buffer := file[start..start + n];
      position := start + n;
      eof := n < BLOCK_SIZE;
    }

    method Parse(ghost p: nat) returns (kind: nat, payload: seq<Byte>)
      requires Valid() && |buffer| >= HEADER_SIZE && p == At()
      modifies this`buffer, this`dropped
      ensures Valid()
      ensures var r := Parsed(crc, old(buffer), p);
        kind == r.kind && payload == r.payload && At() == r.next && dropped == old(dropped) + r.dropped
    {
      hide BlockEnd;
      hide Unmask;
      hide DecodeFixed32;
      var length := buffer[4] as nat + 256 * (buffer[5] as nat);
      var kindByte := buffer[6];
      if HEADER_SIZE + length > |buffer| {
        dropped := dropped + |buffer|;
        buffer := [];
        return BAD_RECORD, [];
      }
      if kindByte == ZERO_TYPE && length == 0 {
        buffer := [];
        return BAD_RECORD, [];
      }
      if crc(buffer[6..HEADER_SIZE + length]) != Unmask(DecodeFixed32(buffer[..4])) {
        dropped := dropped + |buffer|;
        buffer := [];
        return BAD_RECORD, [];
      }
      kind, payload := kindByte, buffer[HEADER_SIZE..HEADER_SIZE + length];
      buffer := buffer[HEADER_SIZE + length..];
      assert buffer == file[p + HEADER_SIZE + length..position];
      if buffer != [] {
        SameBlock(p, p + HEADER_SIZE + length);
      }
    }

    method ReadRecord() returns (record: Option<seq<Byte>>)
      requires Valid()
      modifies this`position, this`buffer, this`eof, this`dropped
      ensures Valid() && old(At()) <= |file|
      ensures var r := LogicalAt(file, crc, old(At()), [], false);
        record == r.record && At() == r.next && dropped == old(dropped) + r.dropped
    {
      hide PhysicalAt;
      hide BlockEnd;
      var scratch: seq<Byte> := [];
      var inFragmented := false;
      while true
        invariant Valid() && At() <= |file| && old(At()) <= |file|
        invariant
          var r, rest := LogicalAt(file, crc, old(At()), [], false), LogicalAt(file, crc, At(), scratch, inFragmented);
          rest.record == r.record && rest.next == r.next && dropped + rest.dropped == old(dropped) + r.dropped
        decreases |file| - At()
      {
        var kind, payload := ReadPhysicalRecord();
        match kind
        case 1 =>
          if inFragmented {
            if scratch != [] {
              dropped := dropped + |scratch|;
            }
          }
          return Some(payload);
        case 2 =>
          if inFragmented {
            if scratch != [] {
              dropped := dropped + |scratch|;
            }
          }
          scratch, inFragmented := payload, true;
        case 3 =>
          if !inFragmented {
            dropped := dropped + |payload|;
          } else {
            scratch := scratch + payload;
          }
        case 4 =>
          if !inFragmented {
            dropped := dropped + |payload|;
          } else {
            return Some(scratch + payload);
          }
        case 5 =>
          if inFragmented {
            dropped := dropped + |scratch|;
          }
          return None;
        case 6 =>
          if inFragmented {
            dropped := dropped + |scratch|;
            scratch, inFragmented := [], false;
          }
        case _ =>
          dropped := dropped + |payload| + (if inFragmented then |scratch| else 0);
          scratch, inFragmented := [], false;
      }
    }
  }

  /** What recovery does: read until there is no more. */
  method ReadAll(file: seq<Byte>, crc: Checksum) returns (records: seq<seq<Byte>>, dropped: nat)
    ensures records == AllFrom(file, crc, 0) && dropped == DroppedFrom(file, crc, 0)
  {
    hide LogicalAt;
    var reader := new Reader(file, crc);
    records := [];
    var record := reader.ReadRecord();
    while record.Some?
      invariant reader.Valid() && reader.file == file && reader.crc == crc && fresh(reader) && reader.At() <= |file|
      invariant AllFrom(file, crc, 0)
        == records + (if record.None? then [] else [record.value] + AllFrom(file, crc, reader.At()))
      invariant DroppedFrom(file, crc, 0)
        == reader.dropped + (if record.None? then 0 else DroppedFrom(file, crc, reader.At()))
      decreases record.Some?, |file| - reader.At()
    {
      records := records + [record.value];
      record := reader.ReadRecord();
    }
    dropped := reader.dropped;
  }
}
