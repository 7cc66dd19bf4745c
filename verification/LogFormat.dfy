/** The write-ahead log (db/log_format.h, db/log_writer.cc, db/log_reader.cc).

    A log is cut into blocks; a record is cut into fragments that each fit a
    block, behind a seven-byte header.  The checksum is any function of the bytes
    it covers. */
module LogFormat {
  import opened Keys
  import opened Coding

  const BLOCK_SIZE: nat := 32768
  const HEADER_SIZE: nat := 7

  const ZERO_TYPE: nat := 0
  const FULL_TYPE: nat := 1
  const FIRST_TYPE: nat := 2
  const MIDDLE_TYPE: nat := 3
  const LAST_TYPE: nat := 4
  const EOF_TYPE: nat := 5
  const BAD_RECORD: nat := 6

  type Checksum = c: seq<Byte> -> nat | forall s :: c(s) < TWO_32 witness s => 0

  // ----- what is written -----

  /** Header and payload of one fragment. */
  function PhysicalRecord(crc: Checksum, t: Byte, payload: seq<Byte>): (r: seq<Byte>)
    requires |payload| < 0x1_0000
    ensures |r| == HEADER_SIZE + |payload|
  {
    EncodeFixed32(Mask(crc([t] + payload))) + [|payload| % 256, |payload| / 256, t] + payload
  }

  /** Bytes left unused at the end of a block that cannot hold a header. */
  function Trailer(p: nat): (n: nat)
    ensures n < HEADER_SIZE && (n > 0 ==> (p + n) % BLOCK_SIZE == 0)
    ensures (p + n) % BLOCK_SIZE + HEADER_SIZE <= BLOCK_SIZE
  {
    var leftover := BLOCK_SIZE - p % BLOCK_SIZE;
    if leftover < HEADER_SIZE then leftover else 0
  }

  function Zeros(n: nat): (r: seq<Byte>)
    ensures |r| == n && forall i :: 0 <= i < n ==> r[i] == 0
  {
    seq(n, i => 0)
  }

  function TypeOf(begin: bool, end: bool): (t: Byte)
    ensures FULL_TYPE <= t <= LAST_TYPE
  {
    if begin && end then FULL_TYPE else if begin then FIRST_TYPE else if end then LAST_TYPE else MIDDLE_TYPE
  }

  /** Room for payload in the block where the next header goes. */
  function Room(p: nat): (n: nat)
    ensures n <= BLOCK_SIZE - HEADER_SIZE
  {
    BLOCK_SIZE - (p + Trailer(p)) % BLOCK_SIZE - HEADER_SIZE
  }

  /** Everything a record puts into a log that is `p` bytes long. */
  function Encoded(crc: Checksum, p: nat, data: seq<Byte>, begin: bool): (r: seq<Byte>)
    ensures |r| >= Trailer(p) + HEADER_SIZE
    decreases |data|, BLOCK_SIZE - Room(p)
  {
    var q := p + Trailer(p);
    var n := if |data| < Room(p) then |data| else Room(p);
    var piece := Zeros(Trailer(p)) + PhysicalRecord(crc, TypeOf(begin, n == |data|), data[..n]);
    if n == |data| then piece else piece + Encoded(crc, q + HEADER_SIZE + n, data[n..], false)
  }

  /** A whole log. */
  function LogBytes(crc: Checksum, records: seq<seq<Byte>>): seq<Byte>
  {
    if records == [] then []
    else
      var init := LogBytes(crc, records[..|records| - 1]);
      init + Encoded(crc, |init|, records[|records| - 1], true)
  }

  /** log::Writer. */
  class Writer {
    const crc: Checksum
    var dest: seq<Byte>
    var blockOffset: nat
    ghost var records: seq<seq<Byte>>

    constructor (crc: Checksum)
      ensures Valid() && this.crc == crc && dest == [] && records == []
    {
      this.crc := crc;
      dest, blockOffset, records := [], 0, [];
    }

    ghost predicate Valid()
      reads this
    {
      dest == LogBytes(crc, records) && Placed()
    }

    /** The writer knows where in its block it is; a full block counts as either. */
    ghost predicate Placed()
      reads this
    {
      blockOffset == |dest| % BLOCK_SIZE || (blockOffset == BLOCK_SIZE && |dest| % BLOCK_SIZE == 0)
    }

    /** AddRecord appends exactly the encoding of the record. */
    method AddRecord(data: seq<Byte>)
      requires Valid()
      modifies this
      ensures Valid() && records == old(records) + [data]
      ensures dest == old(dest) + Encoded(crc, |old(dest)|, data, true)
    {
      ghost var whole := dest + Encoded(crc, |dest|, data, true);
      var left, begin, done := data, true, false;
      while !done
        invariant Placed() && records == old(records)
        invariant if done then dest == whole else dest + Encoded(crc, |dest|, left, begin) == whole
        decreases !done, |left|, BLOCK_SIZE - Room(|dest|)
      {
        left, done := AddFragment(left, begin);
        begin := false;
      }
      records := records + [data];
      assert records[..|records| - 1] == old(records);
    }

    /** One turn of AddRecord's loop: fill up the block if need be, emit a piece. */
    method AddFragment(data: seq<Byte>, begin: bool) returns (rest: seq<Byte>, end: bool)
      requires Placed()
      modifies this`dest, this`blockOffset
      ensures Placed()
      ensures end ==> dest == old(dest) + Encoded(crc, |old(dest)|, data, begin)
      ensures !end ==>
        && old(dest) + Encoded(crc, |old(dest)|, data, begin) == dest + Encoded(crc, |dest|, rest, false)
        && |rest| <= |data| && (|rest| == |data| ==> Room(|dest|) > Room(|old(dest)|))
    {
      hide Encoded;
      hide PhysicalRecord;
      hide Trailer;
      hide Room;
      SkipTrailer();
      var avail := BLOCK_SIZE - blockOffset - HEADER_SIZE;
      var n := if |data| < avail then |data| else avail;
      end := |data| == n;
      EmitPhysicalRecord(TypeOf(begin, end), data[..n]);
      rest := data[n..];
      Pieces(crc, |old(dest)|, data, begin, n);
      ghost var piece := PhysicalRecord(crc, TypeOf(begin, end), data[..n]);
      Regroup(old(dest), Zeros(Trailer(|old(dest)|)), piece, if end then [] else Encoded(crc, |dest|, rest, false));
      if n == 0 && !end {
        RoomAfterFullBlock(|old(dest)|);
      }
    }

    /** Fill a block that has no room for a header. */
    method SkipTrailer()
      requires Placed()
      modifies this`dest, this`blockOffset
      ensures Placed() && dest == old(dest) + Zeros(Trailer(|old(dest)|))
      ensures blockOffset + HEADER_SIZE <= BLOCK_SIZE && BLOCK_SIZE - blockOffset - HEADER_SIZE == Room(|old(dest)|)
    {
      var leftover := BLOCK_SIZE - blockOffset;
      BlockStep(|dest|, leftover);
      if leftover < HEADER_SIZE {
        dest := dest + Zeros(leftover);
        blockOffset := 0;
      }
    }

    method EmitPhysicalRecord(t: Byte, payload: seq<Byte>)
      requires Placed() && blockOffset + HEADER_SIZE + |payload| <= BLOCK_SIZE
      modifies this`dest, this`blockOffset
      ensures Placed() && dest == old(dest) + PhysicalRecord(crc, t, payload)
    {
      var header := EncodeFixed32(Mask(crc([t] + payload))) + [|payload| % 256, |payload| / 256, t];
      assert PhysicalRecord(crc, t, payload) == header + payload;
      BlockStep(|dest|, HEADER_SIZE + |payload|);
      dest := dest + header;
      dest := dest + payload;
      blockOffset := blockOffset + HEADER_SIZE + |payload|;
    }
  }

  lemma Regroup(a: seq<Byte>, b: seq<Byte>, c: seq<Byte>, d: seq<Byte>)
    ensures (a + b) + c == a + (b + c) && ((a + b) + c) + d == a + ((b + c) + d)
  {
  }

  lemma BlockStep(p: nat, n: nat)
    ensures p % BLOCK_SIZE + n < BLOCK_SIZE ==> (p + n) % BLOCK_SIZE == p % BLOCK_SIZE + n
    ensures p % BLOCK_SIZE + n == BLOCK_SIZE ==> (p + n) % BLOCK_SIZE == 0
  {
  }

  /** An empty first piece ends its block, so the next has room for more. */
  lemma RoomAfterFullBlock(p: nat)
    requires Room(p) == 0
    ensures Room(p + Trailer(p) + HEADER_SIZE) > 0
  {
    BlockStep(p + Trailer(p), HEADER_SIZE);
  }

  lemma Pieces(crc: Checksum, p: nat, data: seq<Byte>, begin: bool, n: nat)
    requires n == if |data| < Room(p) then |data| else Room(p)
    ensures var piece := Zeros(Trailer(p)) + PhysicalRecord(crc, TypeOf(begin, n == |data|), data[..n]);
      Encoded(crc, p, data, begin) ==
        if n == |data| then piece else piece + Encoded(crc, p + |piece|, data[n..], false)
  {
  }
}
