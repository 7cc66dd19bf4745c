/** The byte form of version edits (db/version_edit.cc): tagged fields, in any order. */
module EditCodec {
  import opened Wrappers
  import opened Keys
  import opened Coding

  const NUM_LEVELS: nat := 7

  /** FileMetaData; internal keys are kept as bytes. */
  datatype Meta = Meta(number: nat, size: nat, smallest: seq<Byte>, largest: seq<Byte>)

  /** The fields of a VersionEdit; deletedFiles is a std::set, kept in order. */
  datatype Edit = Edit(
    comparator: Option<seq<Byte>>,
    logNumber: Option<nat>,
    prevLogNumber: Option<nat>,
    nextFileNumber: Option<nat>,
    lastSequence: Option<nat>,
    compactPointers: seq<(nat, seq<Byte>)>,
    deletedFiles: seq<(nat, nat)>,
    newFiles: seq<(nat, Meta)>)

  /** One field as it stands in the record. */
  datatype Field =
    | Comparator(name: seq<Byte>)
    | LogNumber(number: nat)
    | NextFileNumber(number: nat)
    | LastSequence(number: nat)
    | CompactPointer(level: nat, key: seq<Byte>)
    | DeletedFile(level: nat, number: nat)
    | NewFile(level: nat, file: Meta)
    | PrevLogNumber(number: nat)

  const TAG_COMPARATOR: Byte := 1
  const TAG_LOG_NUMBER: Byte := 2
  const TAG_NEXT_FILE_NUMBER: Byte := 3
  const TAG_LAST_SEQUENCE: Byte := 4
  const TAG_COMPACT_POINTER: Byte := 5
  const TAG_DELETED_FILE: Byte := 6
  const TAG_NEW_FILE: Byte := 7
  const TAG_PREV_LOG_NUMBER: Byte := 9

  /** What follows the tag. */
  function Body(f: Field): seq<Byte>
  {
    match f
    case Comparator(name) => LengthPrefixed(name)
    case LogNumber(number) => Varint(number)
    case NextFileNumber(number) => Varint(number)
    case LastSequence(number) => Varint(number)
    case CompactPointer(level, key) => Varint(level) + LengthPrefixed(key)
    case DeletedFile(level, number) => Varint(level) + Varint(number)
    case NewFile(level, file) =>
      Varint(level)
      + (Varint(file.number) + (Varint(file.size) + (LengthPrefixed(file.smallest) + LengthPrefixed(file.largest))))
    case PrevLogNumber(number) => Varint(number)
  }

  function Tag(f: Field): Byte
  {
    match f
    case Comparator(_) => TAG_COMPARATOR
    case LogNumber(_) => TAG_LOG_NUMBER
    case NextFileNumber(_) => TAG_NEXT_FILE_NUMBER
    case LastSequence(_) => TAG_LAST_SEQUENCE
    case CompactPointer(_, _) => TAG_COMPACT_POINTER
    case DeletedFile(_, _) => TAG_DELETED_FILE
    case NewFile(_, _) => TAG_NEW_FILE
    case PrevLogNumber(_) => TAG_PREV_LOG_NUMBER
  }

  function EncodeField(f: Field): (r: seq<Byte>)
    ensures |r| > 0
  {
    Varint(Tag(f)) + Body(f)
  }

  function EncodeFields(fields: seq<Field>): seq<Byte>
  {
    if fields == [] then [] else EncodeField(fields[0]) + EncodeFields(fields[1..])
  }

  /** The numbers fit their words and the levels exist. */
  ghost predicate Fits(f: Field)
  {
    match f
    case Comparator(name) => |name| < TWO_32
    case CompactPointer(level, key) => level < NUM_LEVELS && |key| < TWO_32
    case DeletedFile(level, number) => level < NUM_LEVELS && number < TWO_64
    case NewFile(level, file) => level < NUM_LEVELS && file.number < TWO_64 && file.size < TWO_64
      && |file.smallest| < TWO_32 && |file.largest| < TWO_32
    case _ => f.number < TWO_64
  }

  // ----- reading -----

  function GetLevel(s: seq<Byte>, p: nat): (r: Option<(nat, nat)>)
    requires p <= |s|
    ensures r.Some? ==> p < r.value.1 <= |s| && r.value.0 < NUM_LEVELS
  {
    match ReadNumber(s, p, false)
    case None => None
    case Some(v) => if v.0 < NUM_LEVELS then Some(v) else None
  }

  function ReadMeta(s: seq<Byte>, p: nat): (r: Option<(Meta, nat)>)
    requires p <= |s|
    ensures r.Some? ==> p < r.value.1 <= |s|
  {
    match ReadNumber(s, p, true)
    case None => None
    case Some(number) =>
      (match ReadNumber(s, number.1, true)
       case None => None
       case Some(size) =>
         (match ReadLengthPrefixed(s, size.1)
          case None => None
          case Some(smallest) =>
            (match ReadLengthPrefixed(s, smallest.1)
             case None => None
             case Some(largest) => Some((Meta(number.0, size.0, smallest.0, largest.0), largest.1)))))
  }

  /** The body of a field with the given tag and where it ends. */
  function ReadBody(tag: nat, s: seq<Byte>, p: nat): (r: Option<(Field, nat)>)
    requires p <= |s|
    ensures r.Some? ==> p < r.value.1 <= |s|
  {
    if tag == TAG_COMPARATOR then
      match ReadLengthPrefixed(s, p) case None => None case Some(v) => Some((Comparator(v.0), v.1))
    else if tag == TAG_LOG_NUMBER then
      match ReadNumber(s, p, true) case None => None case Some(v) => Some((LogNumber(v.0), v.1))
    else if tag == TAG_PREV_LOG_NUMBER then
      match ReadNumber(s, p, true) case None => None case Some(v) => Some((PrevLogNumber(v.0), v.1))
    else if tag == TAG_NEXT_FILE_NUMBER then
      match ReadNumber(s, p, true) case None => None case Some(v) => Some((NextFileNumber(v.0), v.1))
    else if tag == TAG_LAST_SEQUENCE then
      match ReadNumber(s, p, true) case None => None case Some(v) => Some((LastSequence(v.0), v.1))
    else if tag == TAG_COMPACT_POINTER then
      match GetLevel(s, p)
      case None => None
      case Some(level) =>
        (match ReadLengthPrefixed(s, level.1)
         case None => None
         case Some(v) => Some((CompactPointer(level.0, v.0), v.1)))
    else if tag == TAG_DELETED_FILE then
      match GetLevel(s, p)
      case None => None
      case Some(level) =>
        (match ReadNumber(s, level.1, true) case None => None case Some(v) => Some((DeletedFile(level.0, v.0), v.1)))
    else if tag == TAG_NEW_FILE then
      match GetLevel(s, p)
      case None => None
      case Some(level) =>
        (match ReadMeta(s, level.1) case None => None case Some(v) => Some((NewFile(level.0, v.0), v.1)))
    else None
  }

  /** A tag and its body. */
  function ReadField(s: seq<Byte>, p: nat): (r: Option<(Field, nat)>)
    requires p <= |s|
    ensures r.Some? ==> p < r.value.1 <= |s|
  {
    match ReadNumber(s, p, false)
    case None => None
    case Some(tag) => ReadBody(tag.0, s, tag.1)
  }

  /** All fields, if the bytes are nothing else. */
  function ReadFields(s: seq<Byte>, p: nat): Option<seq<Field>>
    requires p <= |s|
    decreases |s| - p
  {
    if p == |s| then Some([])
    else
      match ReadField(s, p)
      case None => None
      case Some(f) =>
        (match ReadFields(s, f.1) case None => None case Some(rest) => Some([f.0] + rest))
  }

  lemma LevelAt(level: nat, s: seq<Byte>, p: nat)
    requires level < NUM_LEVELS && At(s, p, Varint(level))
    ensures GetLevel(s, p) == Some((level, p + |Varint(level)|))
  {
    NumberAt(level, s, p, false);
  }

  lemma MetaAt(m: Meta, s: seq<Byte>, p: nat)
    requires m.number < TWO_64 && m.size < TWO_64 && |m.smallest| < TWO_32 && |m.largest| < TWO_32
    requires At(s, p, Varint(m.number) + (Varint(m.size) + (LengthPrefixed(m.smallest) + LengthPrefixed(m.largest))))
    ensures ReadMeta(s, p)
      == Some((m,
        p + |Varint(m.number)| + |Varint(m.size)| + |LengthPrefixed(m.smallest)| + |LengthPrefixed(m.largest)|))
  {
    hide At;
    hide Varint;
    hide LengthPrefixed;
    hide ReadNumber;
    hide ReadLengthPrefixed;
    var a, b, c, d := Varint(m.number), Varint(m.size), LengthPrefixed(m.smallest), LengthPrefixed(m.largest);
    AtBoth(s, p, a, b + (c + d));
    AtBoth(s, p + |a|, b, c + d);
    AtBoth(s, p + |a| + |b|, c, d);
    NumberAt(m.number, s, p, true);
    NumberAt(m.size, s, p + |a|, true);
    SliceAt(m.smallest, s, p + |a| + |b|);
    SliceAt(m.largest, s, p + |a| + |b| + |c|);
  }

  lemma BodyAt(f: Field, s: seq<Byte>, p: nat)
    requires Fits(f) && p <= |s| && At(s, p, Body(f))
    ensures ReadBody(Tag(f), s, p) == Some((f, p + |Body(f)|))
  {
    hide At;
    hide Varint;
    hide LengthPrefixed;
    hide ReadNumber;
    hide ReadLengthPrefixed;
    hide ReadMeta;
    hide GetLevel;
    match f {
      case Comparator(name) => SliceAt(name, s, p);
      case LogNumber(number) => NumberAt(number, s, p, true);
      case NextFileNumber(number) => NumberAt(number, s, p, true);
      case LastSequence(number) => NumberAt(number, s, p, true);
      case PrevLogNumber(number) => NumberAt(number, s, p, true);
      case CompactPointer(level, key) =>
        AtBoth(s, p, Varint(level), LengthPrefixed(key));
        LevelAt(level, s, p);
        SliceAt(key, s, p + |Varint(level)|);
      case DeletedFile(level, number) =>
        AtBoth(s, p, Varint(level), Varint(number));
        LevelAt(level, s, p);
        NumberAt(number, s, p + |Varint(level)|, true);
      case NewFile(level, file) =>
        var rest := Varint(file.number)
          + (Varint(file.size) + (LengthPrefixed(file.smallest) + LengthPrefixed(file.largest)));
        AtBoth(s, p, Varint(level), rest);
        LevelAt(level, s, p);
        MetaAt(file, s, p + |Varint(level)|);
    }
  }

  lemma FieldAt(f: Field, s: seq<Byte>, p: nat)
    requires Fits(f) && At(s, p, EncodeField(f))
    ensures p < |s| && ReadField(s, p) == Some((f, p + |EncodeField(f)|))
  {
    hide Body;
    hide ReadBody;
    hide Varint;
    AtBoth(s, p, Varint(Tag(f)), Body(f));
    NumberAt(Tag(f), s, p, false);
    BodyAt(f, s, p + |Varint(Tag(f))|);
  }

  /** Reading gives back the fields that were written. */
  lemma {:induction false} FieldsRoundTrip(fields: seq<Field>, s: seq<Byte>, p: nat)
    requires (forall f :: f in fields ==> Fits(f)) && p + |EncodeFields(fields)| == |s|
    requires At(s, p, EncodeFields(fields))
    ensures ReadFields(s, p) == Some(fields)
  {
    hide ReadField;
    hide EncodeField;
    if fields != [] {
      var first, rest := EncodeField(fields[0]), fields[1..];
      AtBoth(s, p, first, EncodeFields(rest));
      FieldAt(fields[0], s, p);
      FieldsRoundTrip(rest, s, p + |first|);
      assert fields == [fields[0]] + rest;
    }
  }

  lemma {:induction false} EncodeFieldsAppend(a: seq<Field>, b: seq<Field>)
    ensures EncodeFields(a + b) == EncodeFields(a) + EncodeFields(b)
  {
    hide EncodeField;
    if a == [] {
      assert a + b == b;
    } else {
      EncodeFieldsAppend(a[1..], b);
      assert (a + b)[1..] == a[1..] + b && (a + b)[0] == a[0];
      assert EncodeField(a[0]) + (EncodeFields(a[1..]) + EncodeFields(b)) == EncodeFields(a) + EncodeFields(b);
    }
  }

  // ----- edits as lists of fields -----

  /** The order of a std::set of (level, number) pairs. */
  predicate Less(a: (nat, nat), b: (nat, nat))
  {
    a.0 < b.0 || (a.0 == b.0 && a.1 < b.1)
  }

  ghost predicate InOrder(s: seq<(nat, nat)>)
  {
    forall i, j :: 0 <= i < j < |s| ==> Less(s[i], s[j])
  }

  /** std::set::insert. */
  function Inserted(s: seq<(nat, nat)>, x: (nat, nat)): seq<(nat, nat)>
  {
    if s == [] || Less(x, s[0]) then [x] + s
    else if s[0] == x then s
    else [s[0]] + Inserted(s[1..], x)
  }

  lemma {:induction false} InsertedLast(s: seq<(nat, nat)>, x: (nat, nat))
    requires InOrder(s + [x])
    ensures Inserted(s, x) == s + [x]
  {
    if s != [] {
      assert Less((s + [x])[0], (s + [x])[|s|]);
      assert s[1..] + [x] == (s + [x])[1..];
      InsertedLast(s[1..], x);
    }
  }

  lemma FrontInOrder(x: (nat, nat), s: seq<(nat, nat)>)
    requires InOrder(s) && forall y :: y in s ==> Less(x, y)
    ensures InOrder([x] + s)
  {
    var r := [x] + s;
    forall i, j | 0 <= i < j < |r|
      ensures Less(r[i], r[j])
    {
      assert r[j] == s[j - 1] && (i > 0 ==> r[i] == s[i - 1]);
    }
  }

  lemma HeadFirst(s: seq<(nat, nat)>)
    requires InOrder(s) && s != []
    ensures InOrder(s[1..]) && forall y :: y in s[1..] ==> Less(s[0], y)
    ensures forall y :: y in s <==> y == s[0] || y in s[1..]
  {
    assert s == [s[0]] + s[1..];
  }

  lemma {:induction false} InsertedInOrder(s: seq<(nat, nat)>, x: (nat, nat))
    requires InOrder(s)
    ensures InOrder(Inserted(s, x)) && forall y :: y in Inserted(s, x) <==> y in s || y == x
  {
    if s == [] {
    } else {
      HeadFirst(s);
      hide InOrder;
      if Less(x, s[0]) {
        FrontInOrder(x, s);
      } else if s[0] != x {
        InsertedInOrder(s[1..], x);
        FrontInOrder(s[0], Inserted(s[1..], x));
      }
    }
  }

  const EMPTY := Edit(None, None, None, None, None, [], [], [])

  /** Clear: the compaction pointers stay. */
  function Cleared(e: Edit): Edit
  {
    EMPTY.(compactPointers := e.compactPointers)
  }

  /** What one field does to the edit that is being decoded. */
  function Apply(e: Edit, f: Field): Edit
  {
    match f
    case Comparator(name) => e.(comparator := Some(name))
    case LogNumber(number) => e.(logNumber := Some(number))
    case NextFileNumber(number) => e.(nextFileNumber := Some(number))
    case LastSequence(number) => e.(lastSequence := Some(number))
    case CompactPointer(level, key) => e.(compactPointers := e.compactPointers + [(level, key)])
    case DeletedFile(level, number) => e.(deletedFiles := Inserted(e.deletedFiles, (level, number)))
    case NewFile(level, file) => e.(newFiles := e.newFiles + [(level, file)])
    case PrevLogNumber(number) => e.(prevLogNumber := Some(number))
  }

  function ApplyAll(e: Edit, fields: seq<Field>): Edit
  {
    if fields == [] then e else Apply(ApplyAll(e, fields[..|fields| - 1]), fields[|fields| - 1])
  }

  lemma {:induction false} ApplyAppend(e: Edit, a: seq<Field>, b: seq<Field>)
    ensures ApplyAll(e, a + b) == ApplyAll(ApplyAll(e, a), b)
  {
    hide Apply;
    if b == [] {
      assert a + b == a;
    } else {
      assert (a + b)[..|a + b| - 1] == a + b[..|b| - 1] && (a + b)[|a + b| - 1] == b[|b| - 1];
      ApplyAppend(e, a, b[..|b| - 1]);
    }
  }

  function Scalars(e: Edit): seq<Field>
  {
    (if e.comparator.Some? then [Comparator(e.comparator.value)] else [])
    + (if e.logNumber.Some? then [LogNumber(e.logNumber.value)] else [])
    + (if e.prevLogNumber.Some? then [PrevLogNumber(e.prevLogNumber.value)] else [])
    + (if e.nextFileNumber.Some? then [NextFileNumber(e.nextFileNumber.value)] else [])
    + (if e.lastSequence.Some? then [LastSequence(e.lastSequence.value)] else [])
  }

  function Pointers(s: seq<(nat, seq<Byte>)>): (r: seq<Field>)
    ensures |r| == |s|
  {
    seq(|s|, (i: nat) requires i < |s| => CompactPointer(s[i].0, s[i].1))
  }

  function Deletions(s: seq<(nat, nat)>): (r: seq<Field>)
    ensures |r| == |s|
  {
    seq(|s|, (i: nat) requires i < |s| => DeletedFile(s[i].0, s[i].1))
  }

  function Additions(s: seq<(nat, Meta)>): (r: seq<Field>)
    ensures |r| == |s|
  {
    seq(|s|, (i: nat) requires i < |s| => NewFile(s[i].0, s[i].1))
  }

  /** The fields in the order EncodeTo writes them. */
  function FieldsOf(e: Edit): seq<Field>
  {
    Scalars(e) + Pointers(e.compactPointers) + Deletions(e.deletedFiles) + Additions(e.newFiles)
  }

  ghost predicate EditOk(e: Edit)
  {
    InOrder(e.deletedFiles) && forall f :: f in FieldsOf(e) ==> Fits(f)
  }

  lemma ScalarsApplied(e: Edit, start: Edit)
    requires start == Cleared(start)
    ensures ApplyAll(start, Scalars(e))
      == e.(compactPointers := start.compactPointers, deletedFiles := [], newFiles := [])
  {
    var a := if e.comparator.Some? then [Comparator(e.comparator.value)] else [];
    var b := if e.logNumber.Some? then [LogNumber(e.logNumber.value)] else [];
    var c := if e.prevLogNumber.Some? then [PrevLogNumber(e.prevLogNumber.value)] else [];
    var d := if e.nextFileNumber.Some? then [NextFileNumber(e.nextFileNumber.value)] else [];
    var l := if e.lastSequence.Some? then [LastSequence(e.lastSequence.value)] else [];
    ApplyAppend(start, a, b);
    ApplyAppend(start, a + b, c);
    ApplyAppend(start, a + b + c, d);
    ApplyAppend(start, a + b + c + d, l);
  }

  lemma {:induction false} PointersApplied(s: seq<(nat, seq<Byte>)>, start: Edit)
    ensures ApplyAll(start, Pointers(s)) == start.(compactPointers := start.compactPointers + s)
  {
    if s != [] {
      var init := s[..|s| - 1];
      PointersApplied(init, start);
      assert Pointers(s)[..|s| - 1] == Pointers(init);
      assert start.compactPointers + init + [s[|s| - 1]] == start.compactPointers + s;
    }
  }

  lemma {:induction false} DeletionsApplied(s: seq<(nat, nat)>, start: Edit)
    requires InOrder(s) && start.deletedFiles == []
    ensures ApplyAll(start, Deletions(s)) == start.(deletedFiles := s)
  {
    if s != [] {
      var init := s[..|s| - 1];
      DeletionsApplied(init, start);
      assert Deletions(s)[..|s| - 1] == Deletions(init);
      assert s == init + [s[|s| - 1]];
      InsertedLast(init, s[|s| - 1]);
    }
  }

  lemma {:induction false} AdditionsApplied(s: seq<(nat, Meta)>, start: Edit)
    ensures ApplyAll(start, Additions(s)) == start.(newFiles := start.newFiles + s)
  {
    if s != [] {
      var init := s[..|s| - 1];
      AdditionsApplied(init, start);
      assert Additions(s)[..|s| - 1] == Additions(init);
      assert start.newFiles + init + [s[|s| - 1]] == start.newFiles + s;
    }
  }

  /** Decoding an encoded edit gives the edit, behind whatever compaction pointers
      the object had before: it is the edit exactly when it had none. */
  lemma EditRoundTrip(e: Edit, before: Edit)
    requires EditOk(e)
    ensures ReadFields(EncodeFields(FieldsOf(e)), 0) == Some(FieldsOf(e))
    ensures ApplyAll(Cleared(before), FieldsOf(e)) == e.(compactPointers := before.compactPointers + e.compactPointers)
    ensures ApplyAll(Cleared(before), FieldsOf(e)) == e <==> before.compactPointers == []
  {
    var bytes := EncodeFields(FieldsOf(e));
    assert bytes[0..|bytes|] == bytes;
    FieldsRoundTrip(FieldsOf(e), bytes, 0);
    RebuiltFrom(e, Cleared(before));
    Prepended(before.compactPointers, e.compactPointers);
    hide FieldsOf;
    hide ApplyAll;
  }

  lemma RebuiltFrom(e: Edit, start: Edit)
    requires InOrder(e.deletedFiles) && start == Cleared(start)
    ensures ApplyAll(start, FieldsOf(e)) == e.(compactPointers := start.compactPointers + e.compactPointers)
  {
    var a, b, c, d := Scalars(e), Pointers(e.compactPointers), Deletions(e.deletedFiles), Additions(e.newFiles);
    ScalarsApplied(e, start);
    hide Scalars;
    hide ApplyAll;
    ApplyAppend(start, a, b);
    ApplyAppend(start, a + b, c);
    ApplyAppend(start, a + b + c, d);
    PointersApplied(e.compactPointers, ApplyAll(start, a));
    DeletionsApplied(e.deletedFiles, ApplyAll(start, a + b));
    AdditionsApplied(e.newFiles, ApplyAll(start, a + b + c));
    assert [] + e.newFiles == e.newFiles;
  }

  lemma Prepended<T>(a: seq<T>, b: seq<T>)
    ensures a + b == b <==> a == []
  {
    assert a == [] ==> a + b == b;
    assert |a + b| == |a| + |b|;
  }

  /** The fields up to position `p` are `done`. */
  ghost predicate ReadSoFar(s: seq<Byte>, p: nat, done: seq<Field>)
    requires p <= |s|
  {
    match ReadFields(s, p)
    case None => ReadFields(s, 0) == None
    case Some(rest) => ReadFields(s, 0) == Some(done + rest)
  }

  lemma NothingRead(s: seq<Byte>)
    ensures ReadSoFar(s, 0, [])
  {
    hide ReadFields;
    var all := ReadFields(s, 0);
    assert all.Some? ==> [] + all.value == all.value;
  }

  lemma OneMoreRead(s: seq<Byte>, p: nat, done: seq<Field>, f: Field, q: nat, start: Edit)
    requires p <= q <= |s| && ReadSoFar(s, p, done) && ReadField(s, p) == Some((f, q))
    ensures p < q && ReadSoFar(s, q, done + [f]) && ApplyAll(start, done + [f]) == Apply(ApplyAll(start, done), f)
  {
    hide ReadField;
    hide Apply;
    assert (done + [f])[..|done|] == done;
    var rest := ReadFields(s, q);
    if rest.Some? {
      assert ReadFields(s, p) == Some([f] + rest.value);
      assert done + ([f] + rest.value) == (done + [f]) + rest.value;
    }
  }

  lemma ReadingEnds(s: seq<Byte>, p: nat, done: seq<Field>)
    requires p <= |s| && ReadSoFar(s, p, done)
    ensures p == |s| ==> ReadFields(s, 0) == Some(done)
    ensures p < |s| && ReadField(s, p) == None ==> ReadFields(s, 0) == None
    ensures p == |s| ==> ReadNumber(s, p, false) == None
  {
    hide ReadField;
    assert done + [] == done;
  }

  class VersionEdit {
    var edit: Edit

    constructor ()
      ensures edit == EMPTY
    {
      edit := EMPTY;
    }

    /** EncodeTo: the scalars that are set, then the lists. */
    method EncodeTo(dst: seq<Byte>) returns (r: seq<Byte>)
      ensures r == dst + EncodeFields(FieldsOf(edit))
    {
      hide EncodeFields;
      ghost var head: seq<Field>;
      var i: nat;
      ghost var done;
      r, done := EncodeScalars(dst);
      head, i := done, 0;
      while i < |edit.compactPointers|
        invariant 0 <= i <= |edit.compactPointers| && r == dst + EncodeFields(done)
        invariant done == head + Pointers(edit.compactPointers)[..i]
      {
        r, done := AppendField(dst, r, done, CompactPointer(edit.compactPointers[i].0, edit.compactPointers[i].1));
        i := i + 1;
      }
      assert Pointers(edit.compactPointers)[..i] == Pointers(edit.compactPointers);
      head, i := done, 0;
      while i < |edit.deletedFiles|
        invariant 0 <= i <= |edit.deletedFiles| && r == dst + EncodeFields(done)
        invariant done == head + Deletions(edit.deletedFiles)[..i]
      {
        r, done := AppendField(dst, r, done, DeletedFile(edit.deletedFiles[i].0, edit.deletedFiles[i].1));
        i := i + 1;
      }
      assert Deletions(edit.deletedFiles)[..i] == Deletions(edit.deletedFiles);
      head, i := done, 0;
      while i < |edit.newFiles|
        invariant 0 <= i <= |edit.newFiles| && r == dst + EncodeFields(done)
        invariant done == head + Additions(edit.newFiles)[..i]
      {
        r, done := AppendField(dst, r, done, NewFile(edit.newFiles[i].0, edit.newFiles[i].1));
        i := i + 1;
      }
      assert Additions(edit.newFiles)[..i] == Additions(edit.newFiles);
    }

    method EncodeScalars(dst: seq<Byte>) returns (r: seq<Byte>, ghost done: seq<Field>)
      ensures done == Scalars(edit) && r == dst + EncodeFields(done)
    {
      hide EncodeFields;
      NoBytes();
      r, done := dst, [];
      if edit.comparator.Some? {
        r, done := AppendField(dst, r, done, Comparator(edit.comparator.value));
      }
      if edit.logNumber.Some? {
        r, done := AppendField(dst, r, done, LogNumber(edit.logNumber.value));
      }
      if edit.prevLogNumber.Some? {
        r, done := AppendField(dst, r, done, PrevLogNumber(edit.prevLogNumber.value));
      }
      if edit.nextFileNumber.Some? {
        r, done := AppendField(dst, r, done, NextFileNumber(edit.nextFileNumber.value));
      }
      if edit.lastSequence.Some? {
        r, done := AppendField(dst, r, done, LastSequence(edit.lastSequence.value));
      }
    }

    /** DecodeFrom: the fields one after the other; the record is good when nothing but
        whole fields is in it. */
    method DecodeFrom(src: seq<Byte>) returns (msg: Option<string>)
      modifies this
      ensures msg == None <==> ReadFields(src, 0).Some?
      ensures msg == None ==> edit == ApplyAll(Cleared(old(edit)), ReadFields(src, 0).value)
    {
      hide ReadNumber;
      hide ReadMeta;
      hide ReadFields;
      hide ReadSoFar;
      hide ApplyAll;
      hide GetLevel;
      hide ReadLengthPrefixed;
      edit := Cleared(edit);
      ghost var start := edit;
      ghost var done: seq<Field> := [];
      var p := 0;
      NothingRead(src);
      assert ApplyAll(start, []) == start by {
        NothingApplied(start);
      }
      var tag := ReadNumber(src, p, false);
      while tag.Some?
        invariant p <= |src| && tag == ReadNumber(src, p, false)
        invariant ReadSoFar(src, p, done) && edit == ApplyAll(start, done)
        decreases |src| - p
      {
        var f := DecodeField(tag.value.0, src, tag.value.1);
        if f.None? {
          ReadingEnds(src, p, done);
          return Some("bad field or unknown tag");
        }
        OneMoreRead(src, p, done, f.value.0, f.value.1, start);
        done := done + [f.value.0];
        edit := Apply(edit, f.value.0);
        p := f.value.1;
        tag := ReadNumber(src, p, false);
      }
      ReadingEnds(src, p, done);
      msg := if p < |src| then Some("invalid tag") else None;
    }

    /** The switch of DecodeFrom's loop. */
    method DecodeField(tag: nat, s: seq<Byte>, p: nat) returns (f: Option<(Field, nat)>)
      requires p <= |s|
      ensures f == ReadBody(tag, s, p)
    {
      hide ReadLengthPrefixed;
      hide ReadNumber;
      hide GetLevel;
      hide ReadMeta;
      f := None;
      if tag == TAG_COMPARATOR {
        var name := ReadLengthPrefixed(s, p);
        if name.Some? {
          f := Some((Comparator(name.value.0), name.value.1));
        }
      } else if tag in {TAG_LOG_NUMBER, TAG_PREV_LOG_NUMBER, TAG_NEXT_FILE_NUMBER, TAG_LAST_SEQUENCE} {
        var v := ReadNumber(s, p, true);
        if v.Some? {
          var field :=
            if tag == TAG_LOG_NUMBER then LogNumber(v.value.0)
            else if tag == TAG_PREV_LOG_NUMBER then PrevLogNumber(v.value.0)
            else if tag == TAG_NEXT_FILE_NUMBER then NextFileNumber(v.value.0)
            else LastSequence(v.value.0);
          f := Some((field, v.value.1));
        }
      } else if tag == TAG_COMPACT_POINTER || tag == TAG_DELETED_FILE || tag == TAG_NEW_FILE {
        var level := GetLevel(s, p);
        if level.None? {
          return None;
        }
        var l, q := level.value.0, level.value.1;
        if tag == TAG_COMPACT_POINTER {
          var key := ReadLengthPrefixed(s, q);
          if key.Some? {
            f := Some((CompactPointer(l, key.value.0), key.value.1));
          }
        } else if tag == TAG_DELETED_FILE {
          var number := ReadNumber(s, q, true);
          if number.Some? {
            f := Some((DeletedFile(l, number.value.0), number.value.1));
          }
        } else {
          var file := ReadMeta(s, q);
          if file.Some? {
            f := Some((NewFile(l, file.value.0), file.value.1));
          }
        }
      }
    }
  }

  lemma NoBytes()
    ensures EncodeFields([]) == []
  {
  }

  lemma NothingApplied(e: Edit)
    ensures ApplyAll(e, []) == e
  {
  }

  /** PutVarint32 of the tag and then the body. */
  method AppendField(ghost dst: seq<Byte>, r: seq<Byte>, ghost done: seq<Field>, f: Field)
    returns (more: seq<Byte>, ghost fields: seq<Field>)
    requires r == dst + EncodeFields(done)
    ensures fields == done + [f] && more == dst + EncodeFields(fields)
  {
    hide EncodeField;
    fields := done + [f];
    more := r + EncodeField(f);
    EncodeFieldsAppend(done, [f]);
    assert EncodeFields([f]) == EncodeField(f);
  }
}
