/** The WGCAP v1 capture container: its byte layout, an encoder for it, and the
    strict reader. */
module WgcapFormat {

  type Bytes = seq<int>

  predicate AllBytes(data: Bytes) {
    forall i | 0 <= i < |data| :: 0 <= data[i] < 0x100
  }

  const MAGIC: Bytes := [87, 71, 67, 65, 80, 48, 49, 0]  // "WGCAP01\0"
  const HEADER_BYTES: nat := 64
  const RECORD_HEADER_BYTES: nat := 40
  const MAX_CAPTURE_BYTES: nat := 512 * 1024 * 1024
  const MAX_RECORDS: nat := 96
  const BYTE_ORDER_MARKER: int := 0x0102_0304

  datatype Header = Header(
    version: int, headerBytes: int, marker: int, hidden: int, intermediate: int, groupWidth: int, recordBytes: int,
    expectedRecords: int, modelLayers: int, layerCount: int, stepCount: int, sourceSchema: int)

  // The router weight is kept as the 32 bits of the float.
  datatype RawRecord = RawRecord(
    layer: int, step: int, device: int, expert: int, rank: int, bundle: int, gateUpBytes: int, downBytes: int,
    weightBits: int, reserved: int)

  datatype CaptureRecord = CaptureRecord(raw: RawRecord, offset: nat)

  datatype CaptureError =
    | TooLarge | TruncatedHeader | BadMagic | BadVersion | BadHeaderSize | BadByteOrder | BadRecordCount
    | BadGeometry | SizeMismatch | NonzeroReserved | BadWeightBytes | NonFiniteWeight

  datatype Result<T> = Ok(value: T) | Err(error: CaptureError)

  datatype Capture = Capture(header: Header, records: seq<CaptureRecord>)

  /* ---- Geometry ---- */

  function PackedW4Bytes(rows: int, columns: int): Result<int> {
    if rows <= 0 || columns <= 0 || columns % 2 != 0 then Err(BadGeometry) else Ok(rows * (columns / 2))
  }

  /** Two columns to a byte, for positive shapes of even width. */
  lemma PackedW4BytesIs(rows: int, half: int)
    ensures PackedW4Bytes(rows, 2 * half) == if 1 <= rows && 1 <= half then Ok(rows * half) else Err(BadGeometry)
    ensures PackedW4Bytes(rows, 2 * half + 1) == Err(BadGeometry)
  {
  }

  function Groups(hidden: int, width: int): int
    requires hidden > 0 && width > 0
  {
    (hidden + width - 1) / width
  }

  /** As many groups as it takes to cover the columns, and no more. */
  lemma {:induction false} GroupsIs(hidden: int, width: int)
    requires hidden > 0 && width > 0
    ensures var groups := Groups(hidden, width);
            groups >= 1 && groups * width >= hidden && (groups - 1) * width < hidden
  {
    var n := hidden + width - 1;
    assert n == (n / width) * width + n % width;
    assert (n / width - 1) * width == (n / width) * width - width;
  }

  predicate GoodGeometry(hidden: int, intermediate: int, groupWidth: int) {
    hidden > 0 && intermediate > 0 && groupWidth > 0 && hidden % 2 == 0 && intermediate % 2 == 0
  }

  function GateUpBytes(hidden: int, intermediate: int): int { intermediate * (hidden / 2) }
  function DownBytes(hidden: int, intermediate: int): int { hidden * (intermediate / 2) }

  function RecordBytes(hidden: int, intermediate: int, groupWidth: int): Result<int> {
    if !GoodGeometry(hidden, intermediate, groupWidth) then Err(BadGeometry)
    else
      var matrices := 2 * GateUpBytes(hidden, intermediate) + DownBytes(hidden, intermediate);
      var vectors := (hidden + 3 * intermediate + hidden) * 4;
      Ok(RECORD_HEADER_BYTES + vectors + hidden + Groups(hidden, groupWidth) * 4 + matrices + (2 * intermediate + hidden) * 4)
  }

  lemma {:induction false} RecordHoldsItsHeader(hidden: int, intermediate: int, groupWidth: int)
    requires GoodGeometry(hidden, intermediate, groupWidth)
    ensures RecordBytes(hidden, intermediate, groupWidth).value > RECORD_HEADER_BYTES
  {
    assert GateUpBytes(hidden, intermediate) >= 0 && DownBytes(hidden, intermediate) >= 0;
    assert Groups(hidden, groupWidth) >= 0;
  }

  /* ---- Little-endian words ---- */

  function U32At(b: Bytes): int
    requires |b| >= 4
  {
    b[0] + 0x100 * b[1] + 0x1_0000 * b[2] + 0x100_0000 * b[3]
  }

  function U32(x: int): (b: Bytes)
    ensures |b| == 4 && AllBytes(b)
  {
    [x % 0x100, (x / 0x100) % 0x100, (x / 0x1_0000) % 0x100, (x / 0x100_0000) % 0x100]
  }

  predicate IsU32(x: int) { 0 <= x < 0x1_0000_0000 }

  lemma {:induction false} U32RoundTrip(x: int)
    requires IsU32(x)
    ensures U32At(U32(x)) == x
  {
    assert x == x % 0x100 + 0x100 * (x / 0x100);
    assert x / 0x1_0000 == (x / 0x100) / 0x100 && x / 0x100_0000 == (x / 0x1_0000) / 0x100;
  }

  function Words(xs: seq<int>): (b: Bytes)
    ensures |b| == 4 * |xs| && AllBytes(b)
  {
    if xs == [] then [] else U32(xs[0]) + Words(xs[1..])
  }

  // Not an infinity and not a NaN: the exponent field is not all ones.
  predicate Finite(bits: int) {
    (bits / 0x80_0000) % 0x100 != 0xff
  }

  /** The finite floats are those below infinity once the sign bit is dropped. */
  lemma FiniteIff(bits: int)
    requires IsU32(bits)
    ensures Finite(bits) <==> bits % 0x8000_0000 < 0x7f80_0000
  {
  }

  /* ---- Reading ---- */

  // struct.unpack of a run of little-endian words.
  function Unpack(b: Bytes): (ws: seq<int>)
    ensures |ws| == |b| / 4
  {
    if |b| < 4 then [] else [U32At(b)] + Unpack(b[4..])
  }

  function HeaderOf(w: seq<int>): Header
    requires |w| == 14
  {
    Header(w[0], w[1], w[2], w[3], w[4], w[5], w[6], w[7], w[8], w[9], w[10], w[11])
  }

  function RecordOf(w: seq<int>): RawRecord
    requires |w| == 10
  {
    RawRecord(w[0], w[1], w[2], w[3], w[4], w[5], w[6], w[7], w[8], w[9])
  }

  function HeaderAt(data: Bytes): Header
    requires |data| >= HEADER_BYTES
  {
    HeaderOf(Unpack(data[8..HEADER_BYTES]))
  }

  function RecordAt(data: Bytes, o: nat): RawRecord
    requires o + RECORD_HEADER_BYTES <= |data|
  {
    RecordOf(Unpack(data[o..o + RECORD_HEADER_BYTES]))
  }

  lemma {:induction false} UnpackAt(b: Bytes, k: nat)
    requires 4 * k + 4 <= |b|
    ensures Unpack(b)[k] == b[4 * k] + 0x100 * b[4 * k + 1] + 0x1_0000 * b[4 * k + 2] + 0x100_0000 * b[4 * k + 3]
  {
    if k > 0 {
      UnpackAt(b[4..], k - 1);
    }
  }

  // The little-endian word at byte o.
  ghost predicate WordAt(data: Bytes, o: nat, x: int) {
    o + 4 <= |data| && x == data[o] + 0x100 * data[o + 1] + 0x1_0000 * data[o + 2] + 0x100_0000 * data[o + 3]
  }

  /** Where the twelve header fields lie. */
  lemma {:induction false} HeaderFieldsAt(data: Bytes)
    requires |data| >= 64
    ensures var h := HeaderAt(data);
            && WordAt(data, 8, h.version) && WordAt(data, 12, h.headerBytes) && WordAt(data, 16, h.marker)
            && WordAt(data, 20, h.hidden) && WordAt(data, 24, h.intermediate) && WordAt(data, 28, h.groupWidth)
            && WordAt(data, 32, h.recordBytes) && WordAt(data, 36, h.expectedRecords) && WordAt(data, 40, h.modelLayers)
            && WordAt(data, 44, h.layerCount) && WordAt(data, 48, h.stepCount) && WordAt(data, 52, h.sourceSchema)
  {
    var b := data[8..64];
    forall k: nat | k < 14
      ensures WordAt(data, 8 + 4 * k, Unpack(b)[k])
    {
      UnpackAt(b, k);
    }
  }

  /** Where the ten fields of the record at byte o lie. */
  lemma {:induction false} RecordFieldsAt(data: Bytes, o: nat)
    requires o + 40 <= |data|
    ensures var r := RecordAt(data, o);
            && WordAt(data, o, r.layer) && WordAt(data, o + 4, r.step) && WordAt(data, o + 8, r.device)
            && WordAt(data, o + 12, r.expert) && WordAt(data, o + 16, r.rank) && WordAt(data, o + 20, r.bundle)
            && WordAt(data, o + 24, r.gateUpBytes) && WordAt(data, o + 28, r.downBytes)
            && WordAt(data, o + 32, r.weightBits) && WordAt(data, o + 36, r.reserved)
  {
    var b := data[o..o + 40];
    forall k: nat | k < 10
      ensures WordAt(data, o + 4 * k, Unpack(b)[k])
    {
      UnpackAt(b, k);
    }
  }

  // `_read_header`, check by check.
  function ReadHeader(data: Bytes): Result<Header> {
    if |data| < HEADER_BYTES then Err(TruncatedHeader)
    else if data[..8] != MAGIC then Err(BadMagic)
    else
      var h := HeaderAt(data);
      if h.version != 1 then Err(BadVersion)
      else if h.headerBytes != HEADER_BYTES then Err(BadHeaderSize)
      else if h.marker != BYTE_ORDER_MARKER then Err(BadByteOrder)
      else if h.expectedRecords < 1 || h.expectedRecords > MAX_RECORDS then Err(BadRecordCount)
      else if RecordBytes(h.hidden, h.intermediate, h.groupWidth) != Ok(h.recordBytes) then Err(BadGeometry)
      else Ok(h)
  }

  ghost predicate GoodHeader(h: Header) {
    && h.version == 1 && h.headerBytes == HEADER_BYTES && h.marker == BYTE_ORDER_MARKER
    && 1 <= h.expectedRecords <= MAX_RECORDS
    && RecordBytes(h.hidden, h.intermediate, h.groupWidth) == Ok(h.recordBytes)
  }

  // The layout's record size for a geometry of 2 * h by 2 * i with the given groups.
  function LayoutBytes(h: nat, i: nat, groups: nat): nat {
    40 + 4 * (2 * h + 6 * i + 2 * h) + 2 * h + 4 * groups + (2 * (2 * i * h) + 2 * h * i) + 4 * (4 * i + 2 * h)
  }

  lemma {:induction false} RecordBytesIs(h: nat, i: nat, width: nat)
    requires h > 0 && i > 0 && width > 0
    ensures RecordBytes(2 * h, 2 * i, width) == Ok(LayoutBytes(h, i, Groups(2 * h, width)))
  {
  }

  /** Which headers are refused, and why, in the order of the checks. */
  lemma {:induction false} ReadHeaderIs(data: Bytes)
    ensures |data| < 64 <==> ReadHeader(data) == Err(TruncatedHeader)
    ensures |data| >= 64 ==>
              var h := HeaderAt(data);
              var even := h.hidden > 0 && h.hidden % 2 == 0 && h.intermediate > 0 && h.intermediate % 2 == 0 && h.groupWidth > 0;
              ReadHeader(data)
              == if data[..8] != [87, 71, 67, 65, 80, 48, 49, 0] then Err(BadMagic)
                 else if h.version != 1 then Err(BadVersion)
                 else if h.headerBytes != 64 then Err(BadHeaderSize)
                 else if h.marker != 16_909_060 then Err(BadByteOrder)
                 else if h.expectedRecords < 1 || h.expectedRecords > 96 then Err(BadRecordCount)
                 else if even && h.recordBytes == LayoutBytes(h.hidden / 2, h.intermediate / 2, Groups(h.hidden, h.groupWidth)) then Ok(h)
                 else Err(BadGeometry)
  {
    if |data| >= 64 {
      var h := HeaderAt(data);
      if h.hidden > 0 && h.hidden % 2 == 0 && h.intermediate > 0 && h.intermediate % 2 == 0 && h.groupWidth > 0 {
        RecordBytesIs(h.hidden / 2, h.intermediate / 2, h.groupWidth);
      }
    }
  }

  /* ---- Records: a frame says how many there are and how big they are ---- */

  datatype Frame = Frame(count: nat, size: nat, gateUpBytes: int, downBytes: int)

  function FrameOf(h: Header): (f: Frame)
    requires GoodHeader(h)
    ensures f.count == h.expectedRecords && f.size == h.recordBytes && f.size > RECORD_HEADER_BYTES
  {
    RecordHoldsItsHeader(h.hidden, h.intermediate, h.groupWidth);
    Frame(h.expectedRecords, h.recordBytes, GateUpBytes(h.hidden, h.intermediate), DownBytes(h.hidden, h.intermediate))
  }

  // Offset of record k.
  function Offset(size: nat, k: nat): nat {
    if k == 0 then HEADER_BYTES else Offset(size, k - 1) + size
  }

  lemma {:induction false} OffsetIs(size: nat, k: nat)
    ensures Offset(size, k) == HEADER_BYTES + k * size
  {
    if k > 0 {
      OffsetIs(size, k - 1);
      assert k * size == (k - 1) * size + size;
    }
  }

  lemma {:induction false} OffsetInside(size: nat, k: nat, n: nat)
    requires k < n
    ensures Offset(size, k) + size <= Offset(size, n)
    decreases n
  {
    if k < n - 1 {
      OffsetInside(size, k, n - 1);
    }
  }

  predicate Framed(data: Bytes, f: Frame) {
    f.size > RECORD_HEADER_BYTES && |data| == Offset(f.size, f.count)
  }

  function RecordFault(f: Frame, raw: RawRecord): Result<()> {
    if raw.reserved != 0 then Err(NonzeroReserved)
    else if raw.gateUpBytes != f.gateUpBytes || raw.downBytes != f.downBytes then Err(BadWeightBytes)
    else if !Finite(raw.weightBits) then Err(NonFiniteWeight)
    else Ok(())
  }

  function ReadRecord(data: Bytes, f: Frame, k: nat): Result<CaptureRecord>
    requires Framed(data, f) && k < f.count
  {
    OffsetInside(f.size, k, f.count);
    var raw := RecordAt(data, Offset(f.size, k));
    if RecordFault(f, raw).Err? then Err(RecordFault(f, raw).error) else Ok(CaptureRecord(raw, Offset(f.size, k)))
  }

  function ReadAll(data: Bytes, f: Frame): (all: seq<Result<CaptureRecord>>)
    requires Framed(data, f)
    ensures |all| == f.count
  {
    seq(f.count, k requires 0 <= k < f.count => ReadRecord(data, f, k))
  }

  // Results from index k on, or the first error.
  function Collect<T>(results: seq<Result<T>>, k: nat): Result<seq<T>>
    requires k <= |results|
    decreases |results| - k
  {
    if k == |results| then Ok([])
    else if results[k].Err? then Err(results[k].error)
    else
      var rest := Collect(results, k + 1);
      if rest.Err? then rest else Ok([results[k].value] + rest.value)
  }

  function Parse(data: Bytes): Result<Capture> {
    if |data| > MAX_CAPTURE_BYTES then Err(TooLarge)
    else
      var header := ReadHeader(data);
      if header.Err? then Err(header.error)
      else if |data| != HEADER_BYTES + header.value.expectedRecords * header.value.recordBytes then Err(SizeMismatch)
      else
        OffsetIs(header.value.recordBytes, header.value.expectedRecords);
        var records := Collect(ReadAll(data, FrameOf(header.value)), 0);
        if records.Err? then Err(records.error) else Ok(Capture(header.value, records.value))
  }

  method ParseRecord(data: Bytes, h: Header, index: nat) returns (r: Result<CaptureRecord>)
    requires GoodHeader(h) && Framed(data, FrameOf(h)) && index < h.expectedRecords
    ensures r == ReadRecord(data, FrameOf(h), index)
  {
    OffsetIs(h.recordBytes, index);
    OffsetInside(h.recordBytes, index, h.expectedRecords);
    var offset := h.headerBytes + index * h.recordBytes;
    var raw := RecordAt(data, offset);
    if raw.reserved != 0 { return Err(NonzeroReserved); }
    var gateUp, down := PackedW4Bytes(h.intermediate, h.hidden), PackedW4Bytes(h.hidden, h.intermediate);
    if raw.gateUpBytes != gateUp.value || raw.downBytes != down.value { return Err(BadWeightBytes); }
    if !Finite(raw.weightBits) { return Err(NonFiniteWeight); }
    return Ok(CaptureRecord(raw, offset));
  }

  method ParseCapture(data: Bytes) returns (r: Result<Capture>)
    ensures r == Parse(data)
  {
    if |data| > MAX_CAPTURE_BYTES { return Err(TooLarge); }
    var read := ReadHeader(data);
    if read.Err? { return Err(read.error); }
    if |data| != read.value.headerBytes + read.value.expectedRecords * read.value.recordBytes { return Err(SizeMismatch); }
    OffsetIs(read.value.recordBytes, read.value.expectedRecords);
    var records := ParseRecords(data, read.value);
    if records.Err? { return Err(records.error); }
    return Ok(Capture(read.value, records.value));
  }

  method ParseRecords(data: Bytes, h: Header) returns (r: Result<seq<CaptureRecord>>)
    requires GoodHeader(h) && Framed(data, FrameOf(h))
    ensures r == Collect(ReadAll(data, FrameOf(h)), 0)
  {
    ghost var all := ReadAll(data, FrameOf(h));
    var records: seq<CaptureRecord> := [];
    PrependNothing(Collect(all, 0));
    for index := 0 to h.expectedRecords
      invariant Collect(all, 0) == Prepend(records, Collect(all, index))
    {
      var record := ParseRecord(data, h, index);
      assert record == all[index];
      if record.Err? { return Err(record.error); }
      PrependStep(records, record.value, Collect(all, index + 1));
      records := records + [record.value];
    }
    assert records + [] == records;
    return Ok(records);
  }

  function Prepend<T>(front: seq<T>, rest: Result<seq<T>>): Result<seq<T>> {
    if rest.Err? then rest else Ok(front + rest.value)
  }

  lemma PrependNothing<T>(rest: Result<seq<T>>)
    ensures Prepend([], rest) == rest
  {
    if rest.Ok? { assert [] + rest.value == rest.value; }
  }

  lemma PrependStep<T>(front: seq<T>, x: T, rest: Result<seq<T>>)
    ensures Prepend(front + [x], rest) == Prepend(front, if rest.Err? then rest else Ok([x] + rest.value))
  {
    if rest.Ok? { assert front + [x] + rest.value == front + ([x] + rest.value); }
  }

  /* ---- What a parsed capture looks like ---- */

  ghost predicate IsRecord(data: Bytes, f: Frame, k: nat, record: CaptureRecord) {
    && Offset(f.size, k) == record.offset && record.offset + f.size <= |data| && f.size > RECORD_HEADER_BYTES
    && record.raw == RecordAt(data, record.offset) && RecordFault(f, record.raw).Ok?
  }

  lemma {:induction false} ReadRecordIs(data: Bytes, f: Frame, k: nat)
    requires Framed(data, f) && k < f.count && ReadRecord(data, f, k).Ok?
    ensures IsRecord(data, f, k, ReadRecord(data, f, k).value)
  {
    OffsetInside(f.size, k, f.count);
  }

  lemma {:induction false} CollectIff<T>(results: seq<Result<T>>, k: nat)
    requires k <= |results|
    ensures Collect(results, k).Ok? <==> forall j | k <= j < |results| :: results[j].Ok?
    decreases |results| - k
  {
    if k < |results| {
      CollectIff(results, k + 1);
    }
  }

  lemma {:induction false} CollectAt<T>(results: seq<Result<T>>, k: nat, j: nat)
    requires k <= j < |results| && Collect(results, k).Ok?
    ensures |Collect(results, k).value| == |results| - k
    ensures results[j] == Ok(Collect(results, k).value[j - k])
    decreases |results| - k
  {
    if k < j {
      CollectAt(results, k + 1, j);
    } else if k + 1 < |results| {
      CollectAt(results, k + 1, k + 1);
    }
  }

  lemma {:induction false} CollectAll<T>(results: seq<Result<T>>, values: seq<T>, k: nat)
    requires k <= |results| == |values| && forall j | 0 <= j < |results| :: results[j] == Ok(values[j])
    ensures Collect(results, k) == Ok(values[k..])
    decreases |results| - k
  {
    if k < |results| {
      CollectAll(results, values, k + 1);
      assert values[k..] == [values[k]] + values[k + 1..];
    } else {
      assert values[k..] == [];
    }
  }

  // Raw records with the offsets they get in a file.
  function Placed(raws: seq<RawRecord>, size: nat): (records: seq<CaptureRecord>)
    ensures |records| == |raws| && forall k | 0 <= k < |raws| :: records[k] == CaptureRecord(raws[k], Offset(size, k))
  {
    seq(|raws|, k requires 0 <= k < |raws| => CaptureRecord(raws[k], Offset(size, k)))
  }

  /** Record k of a parsed capture is the k-th header in the file, without fault. */
  lemma {:induction false} ParsedRecord(data: Bytes, k: nat)
    requires Parse(data).Ok? && k < |Parse(data).value.records|
    ensures var c := Parse(data).value;
            && GoodHeader(c.header) && |c.records| == c.header.expectedRecords
            && IsRecord(data, FrameOf(c.header), k, c.records[k])
    ensures var c := Parse(data).value;
            var h, r := c.header, c.records[k];
            && r.offset == 64 + k * h.recordBytes && r.offset + 40 <= |data| && r.raw == RecordAt(data, r.offset)
            && r.raw.reserved == 0 && Finite(r.raw.weightBits)
            && r.raw.gateUpBytes == h.intermediate * (h.hidden / 2) && r.raw.downBytes == h.hidden * (h.intermediate / 2)
  {
    var c := Parse(data).value;
    OffsetIs(c.header.recordBytes, c.header.expectedRecords);
    var all := ReadAll(data, FrameOf(c.header));
    CollectAt(all, 0, if k < |all| then k else 0);
    ReadRecordIs(data, FrameOf(c.header), k);
    OffsetIs(c.header.recordBytes, k);
  }

  /** Which captures are refused: too large, a bad header, the wrong size, or the fault of
      the first record that has one. */
  lemma {:induction false} ParseIs(data: Bytes)
    ensures |data| > 536_870_912 ==> Parse(data) == Err(TooLarge)
    ensures |data| <= 536_870_912 && ReadHeader(data).Err? ==> Parse(data) == Err(ReadHeader(data).error)
    ensures |data| <= 536_870_912 && ReadHeader(data).Ok? ==>
              var h := ReadHeader(data).value;
              |data| != 64 + h.expectedRecords * h.recordBytes <==> Parse(data) == Err(SizeMismatch)
  {
    if |data| <= MAX_CAPTURE_BYTES && ReadHeader(data).Ok? {
      var h := ReadHeader(data).value;
      if |data| == HEADER_BYTES + h.expectedRecords * h.recordBytes {
        OffsetIs(h.recordBytes, h.expectedRecords);
        CollectError(ReadAll(data, FrameOf(h)), 0);
      }
    }
  }

  // The error of a failed collection is that of the first failed result.
  lemma {:induction false} CollectError<T>(results: seq<Result<T>>, k: nat)
    requires k <= |results|
    ensures Collect(results, k).Err? ==>
              exists j :: k <= j < |results| && results[j].Err? && results[j].error == Collect(results, k).error
                          && forall i | k <= i < j :: results[i].Ok?
    decreases |results| - k
  {
    if k < |results| && results[k].Ok? { CollectError(results, k + 1); }
  }

  /** What is wrong with one record, in the order of the checks. */
  lemma {:induction false} RecordFaultIs(h: Header, raw: RawRecord)
    requires GoodHeader(h)
    ensures RecordFault(FrameOf(h), raw)
            == if raw.reserved != 0 then Err(NonzeroReserved)
               else if raw.gateUpBytes != h.intermediate * (h.hidden / 2) || raw.downBytes != h.hidden * (h.intermediate / 2)
               then Err(BadWeightBytes)
               else if !Finite(raw.weightBits) then Err(NonFiniteWeight) else Ok(())
  {
  }

  /* ---- Writing ---- */

  function HeaderWords(h: Header): seq<int> {
    [h.version, h.headerBytes, h.marker, h.hidden, h.intermediate, h.groupWidth, h.recordBytes, h.expectedRecords,
     h.modelLayers, h.layerCount, h.stepCount, h.sourceSchema, 0, 0]
  }

  function RecordWords(r: RawRecord): seq<int> {
    [r.layer, r.step, r.device, r.expert, r.rank, r.bundle, r.gateUpBytes, r.downBytes, r.weightBits, r.reserved]
  }

  predicate AllU32(xs: seq<int>) {
    forall i | 0 <= i < |xs| :: IsU32(xs[i])
  }

  function EncodeHeader(h: Header): (b: Bytes)
    ensures |b| == HEADER_BYTES
  {
    MAGIC + Words(HeaderWords(h))
  }

  function EncodeRecord(r: RawRecord, payload: Bytes): (b: Bytes)
    ensures |b| == RECORD_HEADER_BYTES + |payload|
  {
    Words(RecordWords(r)) + payload
  }

  function Join(slices: seq<Bytes>): Bytes {
    if slices == [] then [] else Join(slices[..|slices| - 1]) + slices[|slices| - 1]
  }

  function Chunks(rs: seq<RawRecord>, payloads: seq<Bytes>): (chunks: seq<Bytes>)
    requires |rs| == |payloads|
    ensures |chunks| == |rs|
  {
    seq(|rs|, k requires 0 <= k < |rs| => EncodeRecord(rs[k], payloads[k]))
  }

  function EncodeRecords(rs: seq<RawRecord>, payloads: seq<Bytes>): Bytes
    requires |rs| == |payloads|
  {
    Join(Chunks(rs, payloads))
  }

  function Encode(h: Header, rs: seq<RawRecord>, payloads: seq<Bytes>): Bytes
    requires |rs| == |payloads|
  {
    EncodeHeader(h) + EncodeRecords(rs, payloads)
  }

  // What the capture writer may hand to the encoder.
  ghost predicate Writable(h: Header, rs: seq<RawRecord>, payloads: seq<Bytes>) {
    && GoodHeader(h) && AllU32(HeaderWords(h))
    && |rs| == |payloads| == h.expectedRecords
    && HEADER_BYTES + h.expectedRecords * h.recordBytes <= MAX_CAPTURE_BYTES
    && forall k | 0 <= k < |rs| ::
         AllU32(RecordWords(rs[k])) && RecordFault(FrameOf(h), rs[k]).Ok? && RECORD_HEADER_BYTES + |payloads[k]| == h.recordBytes
  }

  lemma {:induction false} UnpackWords(xs: seq<int>)
    requires AllU32(xs)
    ensures Unpack(Words(xs)) == xs
    decreases |xs|
  {
    if xs != [] {
      U32RoundTrip(xs[0]);
      UnpackWords(xs[1..]);
      assert Words(xs)[4..] == Words(xs[1..]);
      assert U32At(Words(xs)) == U32At(U32(xs[0]));
    }
  }

  lemma {:induction false} HeaderRoundTrip(h: Header, after: Bytes)
    requires AllU32(HeaderWords(h))
    ensures HeaderAt(EncodeHeader(h) + after) == h
    ensures (EncodeHeader(h) + after)[..8] == MAGIC
  {
    UnpackWords(HeaderWords(h));
    assert (EncodeHeader(h) + after)[8..HEADER_BYTES] == Words(HeaderWords(h));
  }

  ghost predicate Sized(payloads: seq<Bytes>, size: nat) {
    forall k | 0 <= k < |payloads| :: RECORD_HEADER_BYTES + |payloads[k]| == size
  }

  ghost predicate AllOf(chunks: seq<Bytes>, size: nat) {
    forall k | 0 <= k < |chunks| :: |chunks[k]| == size
  }

  lemma {:induction false} JoinLength(chunks: seq<Bytes>, size: nat)
    requires AllOf(chunks, size)
    ensures HEADER_BYTES + |Join(chunks)| == Offset(size, |chunks|)
  {
    if chunks != [] { JoinLength(chunks[..|chunks| - 1], size); }
  }

  // Chunk k sits k chunk sizes after the header.
  lemma {:induction false} JoinAt(chunks: seq<Bytes>, size: nat, k: nat)
    requires AllOf(chunks, size) && k < |chunks|
    ensures var o := Offset(size, k) - HEADER_BYTES;
            0 <= o && o + size <= |Join(chunks)| && Join(chunks)[o..o + size] == chunks[k]
  {
    var n, o := |chunks| - 1, Offset(size, k) - HEADER_BYTES;
    var front := chunks[..n];
    JoinLength(front, size);
    if k < n {
      JoinAt(front, size, k);
      SliceOfFront(Join(front), chunks[n], o, o + size);
    } else {
      SliceOfBack(Join(front), chunks[n]);
    }
  }

  lemma {:induction false} EncodedRecordAt(rs: seq<RawRecord>, payloads: seq<Bytes>, size: nat, k: nat)
    requires |rs| == |payloads| && Sized(payloads, size) && k < |rs|
    ensures var o := Offset(size, k) - HEADER_BYTES;
            && 0 <= o && o + size <= |EncodeRecords(rs, payloads)|
            && EncodeRecords(rs, payloads)[o..o + size] == EncodeRecord(rs[k], payloads[k])
  {
    ChunksSized(rs, payloads, size);
    JoinAt(Chunks(rs, payloads), size, k);
  }

  lemma ChunksSized(rs: seq<RawRecord>, payloads: seq<Bytes>, size: nat)
    requires |rs| == |payloads| && Sized(payloads, size)
    ensures AllOf(Chunks(rs, payloads), size)
  {
  }

  lemma {:induction false} EncodedLength(rs: seq<RawRecord>, payloads: seq<Bytes>, size: nat)
    requires |rs| == |payloads| && Sized(payloads, size)
    ensures HEADER_BYTES + |EncodeRecords(rs, payloads)| == Offset(size, |rs|)
  {
    ChunksSized(rs, payloads, size);
    JoinLength(Chunks(rs, payloads), size);
  }

  lemma SliceOfFront(a: Bytes, b: Bytes, i: nat, j: nat)
    requires i <= j <= |a|
    ensures (a + b)[i..j] == a[i..j]
  {
  }

  lemma SliceOfTail(a: Bytes, b: Bytes, i: nat, j: nat)
    requires i <= j <= |b|
    ensures (a + b)[|a| + i..|a| + j] == b[i..j]
  {
  }

  lemma SliceOfBack(a: Bytes, b: Bytes)
    ensures (a + b)[|a|..|a| + |b|] == b
  {
  }

  // What follows the header of a record.
  function PayloadAt(data: Bytes, o: nat, size: nat): Bytes
    requires RECORD_HEADER_BYTES <= size && o + size <= |data|
  {
    data[o + RECORD_HEADER_BYTES..o + size]
  }

  lemma {:induction false} RecordInSlice(data: Bytes, o: nat, r: RawRecord, payload: Bytes)
    requires o + RECORD_HEADER_BYTES + |payload| <= |data| && AllU32(RecordWords(r))
    requires data[o..o + RECORD_HEADER_BYTES + |payload|] == EncodeRecord(r, payload)
    ensures RecordAt(data, o) == r && PayloadAt(data, o, RECORD_HEADER_BYTES + |payload|) == payload
  {
    UnpackWords(RecordWords(r));
    SliceOfBack(Words(RecordWords(r)), payload);
    assert PayloadAt(data, o, RECORD_HEADER_BYTES + |payload|)
        == data[o..o + RECORD_HEADER_BYTES + |payload|][RECORD_HEADER_BYTES..RECORD_HEADER_BYTES + |payload|];
    assert data[o..o + RECORD_HEADER_BYTES] == data[o..o + RECORD_HEADER_BYTES + |payload|][..RECORD_HEADER_BYTES];
  }

  lemma {:induction false} ParseEncodeRecords(h: Header, rs: seq<RawRecord>, payloads: seq<Bytes>)
    requires Writable(h, rs, payloads)
    ensures Parse(Encode(h, rs, payloads)) == Ok(Capture(h, Placed(rs, h.recordBytes)))
  {
    var data, f := Encode(h, rs, payloads), FrameOf(h);
    EncodedFrame(h, rs, payloads);
    var all, records := ReadAll(data, f), Placed(rs, f.size);
    forall k: nat | k < f.count
      ensures all[k] == Ok(records[k])
    {
      EncodedRecord(h, rs, payloads, k);
    }
    CollectAll(all, records, 0);
    assert records[0..] == records;
  }

  /** Reading back what was written gives the same header fields, records and payloads. */
  lemma {:induction false} ParseEncode(h: Header, rs: seq<RawRecord>, payloads: seq<Bytes>)
    requires Writable(h, rs, payloads)
    ensures var r := Parse(Encode(h, rs, payloads));
            && r.Ok? && r.value.header == h && |r.value.records| == |rs|
            && forall k: nat | k < |rs| ::
                 r.value.records[k].raw == rs[k] && HasPayload(Encode(h, rs, payloads), r.value.records[k].offset, h.recordBytes, payloads[k])
    ensures forall k: nat, o: nat, end: nat |
                k < |rs| && o == Parse(Encode(h, rs, payloads)).value.records[k].offset + 40 && end == o + |payloads[k]| ::
              end <= |Encode(h, rs, payloads)| && Encode(h, rs, payloads)[o..end] == payloads[k]
  {
    ParseEncodeRecords(h, rs, payloads);
    forall k: nat | k < |rs|
      ensures HasPayload(Encode(h, rs, payloads), Offset(h.recordBytes, k), h.recordBytes, payloads[k])
    {
      EncodedRecord(h, rs, payloads, k);
    }
  }

  ghost predicate HasPayload(data: Bytes, o: nat, size: int, payload: Bytes) {
    RECORD_HEADER_BYTES <= size && o + size <= |data| && PayloadAt(data, o, size) == payload
  }

  lemma {:induction false} EncodedFrame(h: Header, rs: seq<RawRecord>, payloads: seq<Bytes>)
    requires Writable(h, rs, payloads)
    ensures var data := Encode(h, rs, payloads);
            Framed(data, FrameOf(h)) && |data| <= MAX_CAPTURE_BYTES && ReadHeader(data) == Ok(h)
            && |data| == HEADER_BYTES + h.expectedRecords * h.recordBytes
  {
    HeaderRoundTrip(h, EncodeRecords(rs, payloads));
    EncodedLength(rs, payloads, h.recordBytes);
    OffsetIs(h.recordBytes, h.expectedRecords);
  }

  lemma {:induction false} EncodedRecord(h: Header, rs: seq<RawRecord>, payloads: seq<Bytes>, k: nat)
    requires Writable(h, rs, payloads) && k < h.expectedRecords
    ensures Framed(Encode(h, rs, payloads), FrameOf(h))
    ensures ReadRecord(Encode(h, rs, payloads), FrameOf(h), k) == Ok(CaptureRecord(rs[k], Offset(h.recordBytes, k)))
    ensures HasPayload(Encode(h, rs, payloads), Offset(h.recordBytes, k), h.recordBytes, payloads[k])
  {
    EncodedFrame(h, rs, payloads);
    var data, o := Encode(h, rs, payloads), Offset(h.recordBytes, k);
    EncodedRecordAt(rs, payloads, h.recordBytes, k);
    SliceOfTail(EncodeHeader(h), EncodeRecords(rs, payloads), o - HEADER_BYTES, o - HEADER_BYTES + h.recordBytes);
    RecordInSlice(data, o, rs[k], payloads[k]);
  }

  /* ---- Payload slices ---- */

  // Sizes of the thirteen fields, in order.
  function FieldSizes(h: Header, gateUp: int, down: int): seq<int>
    requires GoodHeader(h)
  {
    var groups := Groups(h.hidden, h.groupWidth);
    [h.hidden * 4, h.hidden, groups * 4, h.intermediate * 4, h.intermediate * 4, h.intermediate * 4, h.hidden * 4,
     gateUp, gateUp, down, h.intermediate * 4, h.intermediate * 4, h.hidden * 4]
  }

  function Total(sizes: seq<int>): int {
    if sizes == [] then 0 else Total(sizes[..|sizes| - 1]) + sizes[|sizes| - 1]
  }

  lemma {:induction false} TotalSplit(sizes: seq<int>, k: nat)
    requires k < |sizes|
    ensures Total(sizes[..k + 1]) == Total(sizes[..k]) + sizes[k]
  {
    assert sizes[..k + 1][..k] == sizes[..k];
  }

  lemma {:induction false} FieldsFillRecord(h: Header)
    requires GoodHeader(h)
    ensures var sizes := FieldSizes(h, GateUpBytes(h.hidden, h.intermediate), DownBytes(h.hidden, h.intermediate));
            && RECORD_HEADER_BYTES + Total(sizes) == h.recordBytes
            && forall i | 0 <= i < |sizes| :: 0 <= sizes[i]
  {
    var g, d := GateUpBytes(h.hidden, h.intermediate), DownBytes(h.hidden, h.intermediate);
    assert g >= 0 && d >= 0 && Groups(h.hidden, h.groupWidth) >= 0;
    TotalOf13(FieldSizes(h, g, d));
  }

  lemma {:induction false} TotalOf13(s: seq<int>)
    requires |s| == 13
    ensures Total(s) == s[0] + s[1] + s[2] + s[3] + s[4] + s[5] + s[6] + s[7] + s[8] + s[9] + s[10] + s[11] + s[12]
  {
    assert s[..13] == s && Total(s[..0]) == 0;
    TotalSplit(s, 0); TotalSplit(s, 1); TotalSplit(s, 2); TotalSplit(s, 3); TotalSplit(s, 4);
    TotalSplit(s, 5); TotalSplit(s, 6); TotalSplit(s, 7); TotalSplit(s, 8); TotalSplit(s, 9);
    TotalSplit(s, 10); TotalSplit(s, 11); TotalSplit(s, 12);
  }

  lemma {:induction false} TotalMonotone(sizes: seq<int>, j: nat, k: nat)
    requires j <= k <= |sizes| && forall i | 0 <= i < |sizes| :: 0 <= sizes[i]
    ensures 0 <= Total(sizes[..j]) <= Total(sizes[..k])
    decreases k
  {
    if j < k {
      TotalMonotone(sizes, j, k - 1);
      TotalSplit(sizes, k - 1);
    } else if k > 0 {
      TotalMonotone(sizes, k - 1, k - 1);
      TotalSplit(sizes, k - 1);
    }
  }

  // Consecutive slices of the given sizes from `base` on, and where they end.
  method CutSlices(data: Bytes, base: nat, sizes: seq<int>) returns (slices: seq<Bytes>, end: nat)
    requires (forall i | 0 <= i < |sizes| :: 0 <= sizes[i]) && base + Total(sizes) <= |data|
    ensures end == base + Total(sizes) && base <= end
    ensures |slices| == |sizes| && forall i | 0 <= i < |sizes| :: |slices[i]| == sizes[i]
    ensures Join(slices) == data[base..end]
  {
    end, slices := base, [];
    assert sizes[..0] == [] && sizes[..|sizes|] == sizes;
    TotalMonotone(sizes, 0, |sizes|);
    for k := 0 to |sizes|
      invariant base <= end == base + Total(sizes[..k]) <= |data|
      invariant |slices| == k && forall i | 0 <= i < k :: |slices[i]| == sizes[i]
      invariant Join(slices) == data[base..end]
    {
      TotalSplit(sizes, k);
      TotalMonotone(sizes, k + 1, |sizes|);
      ghost var before := slices;
      slices := slices + [data[end..end + sizes[k]]];
      assert slices[..k] == before;
      assert data[base..end + sizes[k]] == data[base..end] + data[end..end + sizes[k]];
      end := end + sizes[k];
    }
  }

  /** For every record of a parsed capture the slices are consecutive and exactly fill
      the record, so the cursor-mismatch error cannot occur. */
  method IterPayloadSlices(data: Bytes, h: Header, record: CaptureRecord) returns (slices: seq<Bytes>, mismatch: bool)
    requires GoodHeader(h) && exists k: nat :: IsRecord(data, FrameOf(h), k, record)
    ensures !mismatch && |slices| == 13
    ensures forall i | 0 <= i < 13 :: |slices[i]| == FieldSizes(h, record.raw.gateUpBytes, record.raw.downBytes)[i]
    ensures HasPayload(data, record.offset, h.recordBytes, Join(slices))
  {
    FieldsFillRecord(h);
    var end;
    slices, end := CutSlices(data, record.offset + RECORD_HEADER_BYTES,
                             FieldSizes(h, record.raw.gateUpBytes, record.raw.downBytes));
    mismatch := end != record.offset + h.recordBytes;
  }
}
