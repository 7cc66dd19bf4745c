/** What was written is what is read: the whole log gives back every record, and
    a log cut off at any byte gives back exactly the records it still holds whole. */
module LogRoundTrip {
  import opened Wrappers
  import opened Keys
  import opened Coding
  import opened LogFormat
  import opened LogReader

  /** As far as the file goes, it holds `e` from `p` on. */
  ghost predicate Agrees(file: seq<Byte>, p: nat, e: seq<Byte>)
  {
    forall i :: 0 <= i < |e| && p + i < |file| ==> file[p + i] == e[i]
  }

  lemma AgreesParts(file: seq<Byte>, p: nat, a: seq<Byte>, b: seq<Byte>)
    requires Agrees(file, p, a + b)
    ensures Agrees(file, p, a) && Agrees(file, p + |a|, b)
  {
    forall i | 0 <= i < |a| && p + i < |file|
      ensures file[p + i] == a[i]
    {
      assert (a + b)[i] == a[i];
    }
    forall i | 0 <= i < |b| && p + |a| + i < |file|
      ensures file[p + |a| + i] == b[i]
    {
      assert (a + b)[|a| + i] == b[i];
    }
  }

  lemma InBlock(p: nat, n: nat)
    requires p % BLOCK_SIZE + n <= BLOCK_SIZE
    ensures p + n <= BlockEnd(p)
  {
  }

  /** A fragment that is all there is read as it was written. */
  lemma WholeFragment(file: seq<Byte>, crc: Checksum, p: nat, t: Byte, payload: seq<Byte>)
    requires |payload| < 0x1_0000 && FULL_TYPE <= t <= LAST_TYPE
    requires p % BLOCK_SIZE + HEADER_SIZE + |payload| <= BLOCK_SIZE && p + HEADER_SIZE + |payload| <= |file|
    requires Agrees(file, p, PhysicalRecord(crc, t, payload))
    ensures PhysicalAt(file, crc, p) == Physical(t, payload, p + HEADER_SIZE + |payload|, 0)
  {
    InBlock(p, HEADER_SIZE + |payload|);
    var end := Min(BlockEnd(p), |file|);
    hide BlockEnd;
    var buffer, bytes := file[p..end], PhysicalRecord(crc, t, payload);
    assert buffer[..|bytes|] == bytes;
    ParsesWhole(crc, buffer, p, t, payload);
  }

  lemma ParsesWhole(crc: Checksum, buffer: seq<Byte>, p: nat, t: Byte, payload: seq<Byte>)
    requires |payload| < 0x1_0000 && FULL_TYPE <= t <= LAST_TYPE
    requires HEADER_SIZE + |payload| <= |buffer| && buffer[..HEADER_SIZE + |payload|] == PhysicalRecord(crc, t, payload)
    ensures Parsed(crc, buffer, p) == Physical(t, payload, p + HEADER_SIZE + |payload|, 0)
  {
    hide Mask;
    hide Unmask;
    hide EncodeFixed32;
    hide DecodeFixed32;
    var n := HEADER_SIZE + |payload|;
    var sum, lengths := EncodeFixed32(Mask(crc([t] + payload))), [|payload| % 256, |payload| / 256, t];
    assert buffer[..n] == (sum + lengths) + payload;
    assert buffer[..4] == buffer[..n][..4] == sum;
    assert buffer[4] == buffer[..n][4] && buffer[5] == buffer[..n][5] && buffer[6] == buffer[..n][6];
    assert buffer[6..n] == buffer[..n][6..] == [t] + payload;
    assert buffer[HEADER_SIZE..n] == buffer[..n][HEADER_SIZE..] == payload;
    UnmaskOfMask(crc([t] + payload));
  }

  /** A fragment that is cut off is not taken for a record. */
  lemma CutFragment(file: seq<Byte>, crc: Checksum, p: nat, t: Byte, payload: seq<Byte>)
    requires |payload| < 0x1_0000 && p <= |file| < p + HEADER_SIZE + |payload|
    requires p % BLOCK_SIZE + HEADER_SIZE + |payload| <= BLOCK_SIZE
    requires Agrees(file, p, PhysicalRecord(crc, t, payload))
    ensures var r := PhysicalAt(file, crc, p); r.kind == EOF_TYPE || (r.kind == BAD_RECORD && r.next == |file|)
  {
    InBlock(p, HEADER_SIZE + |payload|);
    hide BlockEnd;
    hide Mask;
    hide EncodeFixed32;
    if |file| - p >= HEADER_SIZE {
      var buffer, bytes := file[p..], PhysicalRecord(crc, t, payload);
      assert buffer[4] == bytes[4] == |payload| % 256 && buffer[5] == bytes[5] == |payload| / 256;
    }
  }

  lemma OverTrailer(file: seq<Byte>, crc: Checksum, p: nat)
    requires p <= |file|
    ensures |file| >= p + Trailer(p) ==> PhysicalAt(file, crc, p) == PhysicalAt(file, crc, p + Trailer(p))
    ensures |file| < p + Trailer(p) ==> PhysicalAt(file, crc, p).kind == EOF_TYPE
  {
    TrailerEndsBlock(p);
    hide BlockEnd;
    hide Trailer;
    hide Parsed;
  }

  lemma TrailerEndsBlock(p: nat)
    ensures Trailer(p) > 0 ==> BlockEnd(p) == p + Trailer(p)
  {
  }

  lemma EndOfFile(file: seq<Byte>, crc: Checksum, scratch: seq<Byte>, inFragmented: bool)
    ensures PhysicalAt(file, crc, |file|) == Physical(EOF_TYPE, [], |file|, 0)
    ensures LogicalAt(file, crc, |file|, scratch, inFragmented).record.None?
  {
  }

  /** How much of the record the next fragment takes. */
  function PieceLength(p: nat, data: seq<Byte>): (n: nat)
    ensures n <= |data| && n < 0x1_0000
  {
    if |data| < Room(p) then |data| else Room(p)
  }

  function RestOf(crc: Checksum, p: nat, data: seq<Byte>): seq<Byte>
  {
    var n := PieceLength(p, data);
    if n == |data| then [] else Encoded(crc, p + Trailer(p) + HEADER_SIZE + n, data[n..], false)
  }

  /** The first fragment of what is left of a record: there, or cut off. */
  lemma FirstFragment(file: seq<Byte>, crc: Checksum, p: nat, data: seq<Byte>, begin: bool)
    requires p <= |file| && Agrees(file, p, Encoded(crc, p, data, begin))
    ensures var n := PieceLength(p, data);
      var next, f := p + Trailer(p) + HEADER_SIZE + n, PhysicalAt(file, crc, p);
      && |Encoded(crc, p, data, begin)| == next - p + |RestOf(crc, p, data)|
      && (next <= |file| ==> f == Physical(TypeOf(begin, n == |data|), data[..n], next, 0))
      && (next <= |file| ==> Agrees(file, next, RestOf(crc, p, data)))
      && (next > |file| ==> f.kind == EOF_TYPE || (f.kind == BAD_RECORD && f.next == |file|))
  {
    hide PhysicalAt;
    hide PhysicalRecord;
    hide Encoded;
    hide BlockEnd;
    FragmentFits(p);
    var q, n := p + Trailer(p), PieceLength(p, data);
    var t, rest := TypeOf(begin, n == |data|), RestOf(crc, p, data);
    var bytes := PhysicalRecord(crc, t, data[..n]);
    Pieces(crc, p, data, begin, n);
    hide Trailer;
    hide Room;
    assert Encoded(crc, p, data, begin) == Zeros(Trailer(p)) + (bytes + rest);
    AgreesParts(file, p, Zeros(Trailer(p)), bytes + rest);
    AgreesParts(file, q, bytes, rest);
    OverTrailer(file, crc, p);
    if q <= |file| < q + |bytes| {
      CutFragment(file, crc, q, t, data[..n]);
    } else if q <= |file| {
      WholeFragment(file, crc, q, t, data[..n]);
    }
  }

  /** From the start of a fragment of a record on: all of the rest, or nothing. */
  lemma {:induction false} ReadsRecord(file: seq<Byte>, crc: Checksum, p: nat, data: seq<Byte>, begin: bool,
                                       scratch: seq<Byte>, inFragmented: bool)
    requires p <= |file| && Agrees(file, p, Encoded(crc, p, data, begin))
    requires if begin then !inFragmented && scratch == [] else inFragmented
    ensures var r, end := LogicalAt(file, crc, p, scratch, inFragmented), p + |Encoded(crc, p, data, begin)|;
      if end <= |file| then r == Logical(Some(scratch + data), end, 0) else r.record == None
    decreases |data|, BLOCK_SIZE - Room(p)
  {
    hide PhysicalAt;
    hide LogicalAt;
    hide Encoded;
    hide Trailer;
    hide Room;
    FirstFragment(file, crc, p, data, begin);
    var n := PieceLength(p, data);
    var next := p + Trailer(p) + HEADER_SIZE + n;
    if next > |file| {
      CutGivesNothing(file, crc, p, scratch, inFragmented);
    } else {
      TakesFragment(file, crc, p, scratch, inFragmented);
      if n == |data| {
        assert data[..n] == data && (begin ==> scratch + data == data);
      } else {
        if n == 0 {
          NoRoomYet(p, data);
        }
        ReadsRecord(file, crc, next, data[n..], false, scratch + data[..n], true);
        assert scratch + data[..n] + data[n..] == scratch + data;
      }
    }
  }

  lemma NoRoomYet(p: nat, data: seq<Byte>)
    requires PieceLength(p, data) == 0 && data != []
    ensures Room(p + Trailer(p) + HEADER_SIZE) > Room(p)
  {
    RoomAfterFullBlock(p);
  }

  lemma FragmentFits(p: nat)
    ensures (p + Trailer(p)) % BLOCK_SIZE + HEADER_SIZE + Room(p) <= BLOCK_SIZE
  {
  }

  lemma CutGivesNothing(file: seq<Byte>, crc: Checksum, p: nat, scratch: seq<Byte>, inFragmented: bool)
    requires p <= |file|
    requires var f := PhysicalAt(file, crc, p); f.kind == EOF_TYPE || (f.kind == BAD_RECORD && f.next == |file|)
    ensures LogicalAt(file, crc, p, scratch, inFragmented).record.None?
  {
    EndOfFile(file, crc, scratch, inFragmented);
    EndOfFile(file, crc, [], false);
  }

  /** One good fragment, as the writer may produce it in this state. */
  lemma TakesFragment(file: seq<Byte>, crc: Checksum, p: nat, scratch: seq<Byte>, inFragmented: bool)
    requires p <= |file| && PhysicalAt(file, crc, p).dropped == 0
    requires !inFragmented ==> scratch == []
    ensures var f, r := PhysicalAt(file, crc, p), LogicalAt(file, crc, p, scratch, inFragmented);
      && (f.kind == FULL_TYPE && !inFragmented ==> r == Logical(Some(f.payload), f.next, 0))
      && (f.kind == LAST_TYPE && inFragmented ==> r == Logical(Some(scratch + f.payload), f.next, 0))
      && (f.kind == FIRST_TYPE && !inFragmented ==> r == LogicalAt(file, crc, f.next, scratch + f.payload, true))
      && (f.kind == MIDDLE_TYPE && inFragmented ==> r == LogicalAt(file, crc, f.next, scratch + f.payload, true))
  {
    hide PhysicalAt;
    assert scratch == [] ==> scratch + PhysicalAt(file, crc, p).payload == PhysicalAt(file, crc, p).payload;
  }

  // ----- whole logs -----

  /** How many of the records lie wholly within the first `cut` bytes. */
  function Contained(crc: Checksum, records: seq<seq<Byte>>, cut: nat): (k: nat)
    ensures k <= |records|
  {
    if records == [] || |LogBytes(crc, records)| <= cut then |records|
    else Contained(crc, records[..|records| - 1], cut)
  }

  lemma {:induction false} ContainedBounds(crc: Checksum, records: seq<seq<Byte>>, cut: nat)
    ensures var k := Contained(crc, records, cut);
      |LogBytes(crc, records[..k])| <= cut && (k < |records| ==> |LogBytes(crc, records[..k + 1])| > cut)
  {
    hide Encoded;
    assert records[..|records|] == records;
    if records != [] && |LogBytes(crc, records)| > cut {
      var init, k := records[..|records| - 1], Contained(crc, records, cut);
      ContainedBounds(crc, init, cut);
      assert init[..k] == records[..k];
      assert k < |init| ==> init[..k + 1] == records[..k + 1];
    }
  }

  lemma {:induction false} LogPrefix(crc: Checksum, records: seq<seq<Byte>>, k: nat)
    requires k <= |records|
    ensures LogBytes(crc, records[..k]) <= LogBytes(crc, records)
    decreases |records|
  {
    if k == |records| {
      assert records[..k] == records;
    } else {
      var init := records[..|records| - 1];
      LogPrefix(crc, init, k);
      assert init[..k] == records[..k];
    }
  }

  /** The log holds record `k` right after the records before it. */
  lemma RecordInLog(crc: Checksum, records: seq<seq<Byte>>, cut: nat, k: nat)
    requires k < |records| && cut <= |LogBytes(crc, records)|
    ensures var p := |LogBytes(crc, records[..k])|;
      && Agrees(LogBytes(crc, records)[..cut], p, Encoded(crc, p, records[k], true))
      && |LogBytes(crc, records[..k + 1])| == p + |Encoded(crc, p, records[k], true)|
  {
    hide Encoded;
    LogPrefix(crc, records, k + 1);
    assert records[..k + 1][..k] == records[..k];
    var before, all := LogBytes(crc, records[..k]), LogBytes(crc, records);
    var e := Encoded(crc, |before|, records[k], true);
    assert LogBytes(crc, records[..k + 1]) == before + e;
    forall i | 0 <= i < |e| && |before| + i < cut
      ensures all[..cut][|before| + i] == e[i]
    {
      assert all[..cut][|before| + i] == (before + e)[|before| + i];
    }
  }

  lemma {:induction false} ReadsFrom(crc: Checksum, records: seq<seq<Byte>>, cut: nat, k: nat)
    requires cut <= |LogBytes(crc, records)| && k <= Contained(crc, records, cut)
    requires |LogBytes(crc, records[..k])| <= cut
    ensures var file, p := LogBytes(crc, records)[..cut], |LogBytes(crc, records[..k])|;
      && AllFrom(file, crc, p) == records[k..Contained(crc, records, cut)]
      && (cut == |LogBytes(crc, records)| ==> DroppedFrom(file, crc, p) == 0)
    decreases |records| - k
  {
    hide Encoded;
    hide LogicalAt;
    hide LogBytes;
    hide Contained;
    var file, p, c := LogBytes(crc, records)[..cut], |LogBytes(crc, records[..k])|, Contained(crc, records, cut);
    ContainedBounds(crc, records, cut);
    if k < |records| {
      RecordInLog(crc, records, cut, k);
      ReadsRecord(file, crc, p, records[k], true, [], false);
      assert [] + records[k] == records[k];
      if k < c {
        ContainedGrows(crc, records, cut, k);
        ReadsFrom(crc, records, cut, k + 1);
        assert records[k..c] == [records[k]] + records[k + 1..c];
      } else {
        LogPrefix(crc, records, k + 1);
        assert records[k..c] == [];
      }
    } else {
      assert records[..k] == records;
      AtEnd(file, crc);
    }
  }

  lemma AtEnd(file: seq<Byte>, crc: Checksum)
    ensures LogicalAt(file, crc, |file|, [], false) == Logical(None, |file|, 0)
  {
    EndOfFile(file, crc, [], false);
  }

  lemma {:induction false} ContainedGrows(crc: Checksum, records: seq<seq<Byte>>, cut: nat, k: nat)
    requires k < Contained(crc, records, cut)
    ensures |LogBytes(crc, records[..k + 1])| <= cut
  {
    hide Encoded;
    hide Contained;
    ContainedBounds(crc, records, cut);
    var c := Contained(crc, records, cut);
    LogPrefix(crc, records[..c], k + 1);
    assert records[..c][..k + 1] == records[..k + 1];
  }

  /** Cut a log at any byte: exactly the records wholly before the cut are read. */
  lemma CutLog(crc: Checksum, records: seq<seq<Byte>>, cut: nat)
    requires cut <= |LogBytes(crc, records)|
    ensures AllFrom(LogBytes(crc, records)[..cut], crc, 0) == records[..Contained(crc, records, cut)]
  {
    ReadsFrom(crc, records, cut, 0);
    assert records[..0] == [];
  }

  /** An uncut log gives everything back and reports no corruption. */
  lemma WholeLog(crc: Checksum, records: seq<seq<Byte>>)
    ensures AllFrom(LogBytes(crc, records), crc, 0) == records
    ensures DroppedFrom(LogBytes(crc, records), crc, 0) == 0
  {
    var all := LogBytes(crc, records);
    ReadsFrom(crc, records, |all|, 0);
    assert records[..0] == [] && all[..|all|] == all && records[..|records|] == records;
  }
}
