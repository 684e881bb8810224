/** The fixed T32 capture: the exact cover of 96 routes, the manifest's counts, and
    the guard's streaming validator. */
module T32Layout {
  import opened Sets
  import opened WgcapFormat

  const P40_HIDDEN: int := 2048
  const P40_INTERMEDIATE: int := 512
  const P40_GROUP_WIDTH: int := 256
  const P40_RECORDS: nat := 96
  const P40_RECORD_BYTES: nat := 1_609_800
  const P40_CAPTURE_BYTES: nat := 154_540_864

  datatype Route = Route(step: int, layer: int, rank: int)

  predicate IsExpected(r: Route) {
    0 <= r.step < 4 && r.layer in {0, 20, 39} && 0 <= r.rank < 8
  }

  // Position of a route in the writer's order: step, then layer, then rank.
  function Code(r: Route): int {
    r.step * 24 + (if r.layer == 0 then 0 else if r.layer == 20 then 8 else 16) + r.rank
  }

  function RouteAt(code: nat): Route {
    var within := code % 24;
    Route(code / 24, if within < 8 then 0 else if within < 16 then 20 else 39, within % 8)
  }

  function FirstRoutes(n: nat): set<Route> {
    set code: nat | code < n :: RouteAt(code)
  }

  const EXPECTED: set<Route> := FirstRoutes(P40_RECORDS)

  lemma {:induction false} CodeInverse(r: Route)
    requires IsExpected(r)
    ensures 0 <= Code(r) < 96 && RouteAt(Code(r)) == r
    ensures r.step < 2 <==> Code(r) < 48
  {
    var within := Code(r) - r.step * 24;
    assert 0 <= within < 24;
    assert Code(r) / 24 == r.step && Code(r) % 24 == within;
  }

  lemma {:induction false} RouteAtInverse(code: nat)
    requires code < 96
    ensures IsExpected(RouteAt(code)) && Code(RouteAt(code)) == code
  {
  }

  lemma {:induction false} FirstRoutesAre(n: nat, r: Route)
    requires n <= 96
    ensures r in FirstRoutes(n) <==> IsExpected(r) && Code(r) < n
  {
    if IsExpected(r) { CodeInverse(r); }
    if r in FirstRoutes(n) {
      var code: nat :| code < n && RouteAt(code) == r;
      RouteAtInverse(code);
    }
  }

  lemma {:induction false} FirstRoutesSize(n: nat)
    requires n <= 96
    ensures |FirstRoutes(n)| == n
  {
    if n == 0 {
      assert FirstRoutes(n) == {};
    } else {
      FirstRoutesSize(n - 1);
      FirstRoutesAre(n - 1, RouteAt(n - 1));
      RouteAtInverse(n - 1);
      assert FirstRoutes(n) == FirstRoutes(n - 1) + {RouteAt(n - 1)};
    }
  }

  lemma {:induction false} ExpectedAre(r: Route)
    ensures r in EXPECTED <==> IsExpected(r)
  {
    FirstRoutesAre(96, r);
    if IsExpected(r) { CodeInverse(r); }
  }

  function RouteOf(raw: RawRecord): Route {
    Route(raw.step, raw.layer, raw.rank)
  }

  function RoutesOf(raws: seq<RawRecord>): set<Route> {
    set raw | raw in raws :: RouteOf(raw)
  }

  function Raws(records: seq<CaptureRecord>): (raws: seq<RawRecord>)
    ensures |raws| == |records| && forall k | 0 <= k < |raws| :: raws[k] == records[k].raw
  {
    seq(|records|, k requires 0 <= k < |records| => records[k].raw)
  }

  // One record per fixed route, eight to a bundle, on one of the two devices.
  predicate ExactCover(raws: seq<RawRecord>) {
    && RoutesOf(raws) == EXPECTED && |RoutesOf(raws)| == |raws|
    && forall k | 0 <= k < |raws| :: raws[k].bundle == 8 && raws[k].device in {0, 1}
  }

  // `validate_t32_layout`
  predicate ValidT32(c: Capture) {
    && c.header.hidden == P40_HIDDEN && c.header.intermediate == P40_INTERMEDIATE
    && c.header.groupWidth == P40_GROUP_WIDTH && c.header.expectedRecords == P40_RECORDS
    && ExactCover(Raws(c.records))
  }

  ghost predicate Present(raws: seq<RawRecord>, r: Route) {
    exists i :: 0 <= i < |raws| && raws[i].step == r.step && raws[i].layer == r.layer && raws[i].rank == r.rank
  }

  /** The layout check record by record: every record is of one of the four steps, three
      layers and eight ranks, each combination has a record and none has two, and bundles and
      devices are the expected ones. */
  lemma {:induction false} ExactCoverIff(raws: seq<RawRecord>)
    ensures ExactCover(raws)
            <==> && (forall i | 0 <= i < |raws| ::
                       && 0 <= raws[i].step <= 3 && (raws[i].layer == 0 || raws[i].layer == 20 || raws[i].layer == 39)
                       && 0 <= raws[i].rank <= 7 && raws[i].bundle == 8 && (raws[i].device == 0 || raws[i].device == 1))
                 && (forall r: Route | 0 <= r.step <= 3 && (r.layer == 0 || r.layer == 20 || r.layer == 39) && 0 <= r.rank <= 7 ::
                       Present(raws, r))
                 && DistinctRoutes(raws)
  {
    forall r: Route
      ensures r in EXPECTED <==> 0 <= r.step <= 3 && (r.layer == 0 || r.layer == 20 || r.layer == 39) && 0 <= r.rank <= 7
      ensures r in RoutesOf(raws) <==> Present(raws, r)
    {
      ExpectedAre(r);
      RoutePresent(raws, r);
    }
    forall i | 0 <= i < |raws|
      ensures Present(raws, RouteOf(raws[i]))
    {
    }
    if ExactCover(raws) {
      SizeMeansDistinct(raws);
      assert forall i | 0 <= i < |raws| :: RouteOf(raws[i]) in EXPECTED;
    }
    if DistinctRoutes(raws) { DistinctMeansSize(raws); }
  }

  lemma {:induction false} RoutePresent(raws: seq<RawRecord>, r: Route)
    ensures r in RoutesOf(raws) <==> Present(raws, r)
  {
    if r in RoutesOf(raws) {
      var raw :| raw in raws && RouteOf(raw) == r;
      var i :| 0 <= i < |raws| && raws[i] == raw;
    }
    if Present(raws, r) {
      var i :| 0 <= i < |raws| && raws[i].step == r.step && raws[i].layer == r.layer && raws[i].rank == r.rank;
      assert RouteOf(raws[i]) == r && raws[i] in raws;
    }
  }

  lemma ValidT32Iff(c: Capture)
    ensures ValidT32(c) <==> && c.header.hidden == 2048 && c.header.intermediate == 512 && c.header.groupWidth == 256
                             && c.header.expectedRecords == 96 && ExactCover(Raws(c.records))
  {
  }

  /* ---- Counts ---- */

  function Early(raws: seq<RawRecord>): (n: nat)
    ensures n <= |raws|
  {
    if raws == [] then 0 else Early(raws[..|raws| - 1]) + if raws[|raws| - 1].step < 2 then 1 else 0
  }

  function DeviceCounts(raws: seq<RawRecord>): map<int, nat> {
    if raws == [] then map[]
    else
      CountDevice(DeviceCounts(raws[..|raws| - 1]), raws[|raws| - 1].device)
  }

  function CountDevice(counts: map<int, nat>, device: int): map<int, nat> {
    counts[device := (if device in counts then counts[device] else 0) + 1]
  }

  // The records of one device, and the early ones, by index.
  function OfDevice(raws: seq<RawRecord>, device: int): set<int> {
    set i | 0 <= i < |raws| && raws[i].device == device
  }

  function EarlyOnes(raws: seq<RawRecord>): set<int> {
    set i | 0 <= i < |raws| && raws[i].step < 2
  }

  /** The counts count: a device is listed exactly if it has records, with how many. */
  lemma {:induction false} DeviceCountsAre(raws: seq<RawRecord>, device: int)
    ensures device in DeviceCounts(raws) <==> OfDevice(raws, device) != {}
    ensures device in DeviceCounts(raws) ==> DeviceCounts(raws)[device] == |OfDevice(raws, device)|
  {
    if raws != [] {
      var n := |raws| - 1;
      DeviceCountsAre(raws[..n], device);
      assert OfDevice(raws, device) == OfDevice(raws[..n], device) + if raws[n].device == device then {n} else {};
    }
  }

  lemma {:induction false} EarlyIs(raws: seq<RawRecord>)
    ensures Early(raws) == |EarlyOnes(raws)|
  {
    if raws != [] {
      var n := |raws| - 1;
      EarlyIs(raws[..n]);
      assert EarlyOnes(raws) == EarlyOnes(raws[..n]) + if raws[n].step < 2 then {n} else {};
    }
  }

  datatype Manifest = Manifest(records: nat, byDevice: map<int, nat>, calibration: nat, holdout: nat)

  method BuildManifest(c: Capture) returns (m: Manifest)
    ensures m == Manifest(|c.records|, DeviceCounts(Raws(c.records)), Early(Raws(c.records)), |c.records| - Early(Raws(c.records)))
  {
    var byDevice: map<int, nat> := map[];
    var calibration, holdout := 0, 0;
    ghost var raws := Raws(c.records);
    for k := 0 to |c.records|
      invariant byDevice == DeviceCounts(raws[..k])
      invariant calibration == Early(raws[..k]) && holdout == k - calibration
    {
      var raw := c.records[k].raw;
      byDevice := CountDevice(byDevice, raw.device);
      if raw.step < 2 { calibration := calibration + 1; }
      if raw.step >= 2 { holdout := holdout + 1; }
      assert raws[..k + 1][..k] == raws[..k];
    }
    assert raws[..|raws|] == raws;
    m := Manifest(|c.records|, byDevice, calibration, holdout);
  }

  // Distinct records have distinct routes.
  ghost predicate DistinctRoutes(raws: seq<RawRecord>) {
    forall i, j | 0 <= i < j < |raws| :: RouteOf(raws[i]) != RouteOf(raws[j])
  }

  lemma {:induction false} RoutesSnoc(raws: seq<RawRecord>)
    requires raws != []
    ensures RoutesOf(raws) == RoutesOf(raws[..|raws| - 1]) + {RouteOf(raws[|raws| - 1])}
  {
    var n := |raws| - 1;
    assert raws == raws[..n] + [raws[n]];
  }

  lemma {:induction false} RoutesAtMost(raws: seq<RawRecord>)
    ensures |RoutesOf(raws)| <= |raws|
  {
    if raws != [] {
      RoutesSnoc(raws);
      RoutesAtMost(raws[..|raws| - 1]);
    }
  }

  lemma {:induction false} SizeMeansDistinct(raws: seq<RawRecord>)
    requires |RoutesOf(raws)| == |raws|
    ensures DistinctRoutes(raws)
  {
    if raws != [] {
      var n := |raws| - 1;
      RoutesSnoc(raws);
      RoutesAtMost(raws[..n]);
      SizeMeansDistinct(raws[..n]);
      assert RouteOf(raws[n]) !in RoutesOf(raws[..n]);
      forall i, j | 0 <= i < j < |raws|
        ensures RouteOf(raws[i]) != RouteOf(raws[j])
      {
        assert raws[i] == raws[..n][i];
        if j < n { assert raws[j] == raws[..n][j]; }
      }
    }
  }

  function EarlyRoutes(routes: set<Route>): set<Route> {
    set r | r in routes && r.step < 2
  }

  lemma {:induction false} EarlyCountsRoutes(raws: seq<RawRecord>)
    requires DistinctRoutes(raws)
    ensures Early(raws) == |EarlyRoutes(RoutesOf(raws))|
  {
    if raws != [] {
      var n := |raws| - 1;
      var last, before := RouteOf(raws[n]), RoutesOf(raws[..n]);
      EarlyCountsRoutes(raws[..n]);
      RoutesSnoc(raws);
      assert last !in before;
      if last.step < 2 {
        assert EarlyRoutes(before + {last}) == EarlyRoutes(before) + {last};
      } else {
        assert EarlyRoutes(before + {last}) == EarlyRoutes(before);
      }
    } else {
      assert EarlyRoutes(RoutesOf(raws)) == {};
    }
  }

  /** The exact cover splits 48 to 48, whatever the order of the records. */
  lemma {:induction false} CoverSplitsEvenly(raws: seq<RawRecord>)
    requires ExactCover(raws)
    ensures |raws| == 96 && Early(raws) == 48
  {
    FirstRoutesSize(96);
    SizeMeansDistinct(raws);
    EarlyCountsRoutes(raws);
    FirstRoutesSize(48);
    forall r
      ensures r in EarlyRoutes(EXPECTED) <==> r in FirstRoutes(48)
    {
      ExpectedAre(r);
      FirstRoutesAre(48, r);
      if IsExpected(r) { CodeInverse(r); }
    }
    assert EarlyRoutes(EXPECTED) == FirstRoutes(48);
  }

  /* ---- The streaming guard ---- */

  const GUARD_WORDS: seq<int> :=
    [1, HEADER_BYTES, BYTE_ORDER_MARKER, P40_HIDDEN, P40_INTERMEDIATE, P40_GROUP_WIDTH, P40_RECORD_BYTES, P40_RECORDS, 40, 3, 4, 1, 0, 0]

  predicate GuardRecord(raw: RawRecord) {
    && raw.bundle == 8 && raw.gateUpBytes == 524_288 && raw.downBytes == 524_288 && raw.reserved == 0
    && raw.device in {0, 1} && raw.expert < 256 && Finite(raw.weightBits)
  }

  function StreamedRecord(data: Bytes, k: nat): RawRecord
    requires |data| == P40_CAPTURE_BYTES && k < P40_RECORDS
  {
    RecordAt(data, HEADER_BYTES + k * P40_RECORD_BYTES)
  }

  function Streamed(data: Bytes, n: nat): (raws: seq<RawRecord>)
    requires |data| == P40_CAPTURE_BYTES && n <= P40_RECORDS
    ensures |raws| == n
  {
    seq(n, k requires 0 <= k < n => StreamedRecord(data, k))
  }

  ghost predicate GuardHeader(data: Bytes) {
    |data| == P40_CAPTURE_BYTES && data[..8] == MAGIC && Unpack(data[8..HEADER_BYTES]) == GUARD_WORDS
  }

  ghost predicate GuardAccepts(data: Bytes) {
    GuardHeader(data) && RecordsAccepted(Streamed(data, P40_RECORDS))
  }

  ghost predicate RecordsAccepted(raws: seq<RawRecord>) {
    (forall k | 0 <= k < |raws| :: GuardRecord(raws[k]) && IsExpected(RouteOf(raws[k]))) && DistinctRoutes(raws)
  }

  datatype Summary = Rejected | Accepted(records: nat, calibration: nat, holdout: nat, byDevice: map<int, nat>)

  /** The size check makes the truncation errors unreachable, and 96 distinct expected
      routes leave nothing for the final route-count comparison to find. */
  method CaptureSummary(data: Bytes) returns (s: Summary)
    ensures s.Accepted? <==> GuardAccepts(data)
    ensures s.Accepted? ==> s == Accepted(96, 48, 48, DeviceCounts(Streamed(data, P40_RECORDS)))
  {
    if |data| != P40_CAPTURE_BYTES { return Rejected; }
    if data[..8] != MAGIC || Unpack(data[8..HEADER_BYTES]) != GUARD_WORDS { return Rejected; }
    var good, routes, byDevice := StreamRecords(data);
    if !good { return Rejected; }
    ghost var raws := Streamed(data, P40_RECORDS);
    assert raws[..P40_RECORDS] == raws;
    AllRoutesSeen(raws);
    if routes != EXPECTED { return Rejected; }
    return Accepted(P40_RECORDS, 48, 48, byDevice);
  }

  // The record loop, up to the first record at fault.
  method StreamRecords(data: Bytes) returns (good: bool, routes: set<Route>, byDevice: map<int, nat>)
    requires GuardHeader(data)
    ensures good <==> RecordsAccepted(Streamed(data, P40_RECORDS))
    ensures good ==> Seen(Streamed(data, P40_RECORDS), P40_RECORDS, routes, byDevice)
  {
    ghost var raws := Streamed(data, P40_RECORDS);
    routes, byDevice := {}, map[];
    var cursor := HEADER_BYTES;
    for k := 0 to P40_RECORDS
      invariant cursor == HEADER_BYTES + k * P40_RECORD_BYTES
      invariant Seen(raws, k, routes, byDevice)
    {
      var raw := RecordAt(data, cursor);
      assert raw == raws[k];
      good, routes, byDevice := StreamRecord(raws, k, raw, routes, byDevice);
      if !good { return; }
      cursor := cursor + P40_RECORD_BYTES;
    }
    SeenAll(raws, routes, byDevice);
    good := true;
  }

  method StreamRecord(ghost raws: seq<RawRecord>, ghost k: nat, raw: RawRecord, routes: set<Route>, byDevice: map<int, nat>)
    returns (good: bool, routes': set<Route>, byDevice': map<int, nat>)
    requires Seen(raws, k, routes, byDevice) && k < |raws| && raw == raws[k]
    ensures if good then Seen(raws, k + 1, routes', byDevice') else !RecordsAccepted(raws)
  {
    good := CheckRecord(raw, routes);
    RouteSeen(raws, k);
    routes', byDevice' := routes, byDevice;
    if good {
      SeenStep(raws, k, routes, byDevice);
      routes', byDevice' := routes + {RouteOf(raw)}, CountDevice(byDevice, raw.device);
    }
  }

  method CheckRecord(raw: RawRecord, routes: set<Route>) returns (good: bool)
    ensures good <==> GuardRecord(raw) && IsExpected(RouteOf(raw)) && RouteOf(raw) !in routes
  {
    if raw.bundle != 8 || raw.gateUpBytes != 524_288 || raw.downBytes != 524_288 || raw.reserved != 0 { return false; }
    if raw.device !in {0, 1} || raw.expert >= 256 || !Finite(raw.weightBits) { return false; }
    var route := Route(raw.step, raw.layer, raw.rank);
    ExpectedAre(route);
    return route in EXPECTED && route !in routes;
  }

  // The loop's state after the first k records, none of which was at fault.
  ghost predicate Seen(raws: seq<RawRecord>, k: nat, routes: set<Route>, byDevice: map<int, nat>) {
    && k <= |raws| && routes == RoutesOf(raws[..k]) && |routes| == k && DistinctRoutes(raws[..k])
    && (forall j | 0 <= j < k :: GuardRecord(raws[j]) && IsExpected(RouteOf(raws[j])))
    && byDevice == DeviceCounts(raws[..k])
  }

  lemma SeenAll(raws: seq<RawRecord>, routes: set<Route>, byDevice: map<int, nat>)
    requires Seen(raws, |raws|, routes, byDevice)
    ensures RecordsAccepted(raws)
  {
    assert raws[..|raws|] == raws;
  }

  lemma {:induction false} SeenStep(raws: seq<RawRecord>, k: nat, routes: set<Route>, byDevice: map<int, nat>)
    requires Seen(raws, k, routes, byDevice) && k < |raws|
    requires GuardRecord(raws[k]) && IsExpected(RouteOf(raws[k])) && RouteOf(raws[k]) !in routes
    ensures Seen(raws, k + 1, routes + {RouteOf(raws[k])}, CountDevice(byDevice, raws[k].device))
  {
    assert raws[..k + 1][..k] == raws[..k];
    RoutesSnoc(raws[..k + 1]);
    RouteSeen(raws, k);
  }

  lemma {:induction false} RouteSeen(raws: seq<RawRecord>, k: nat)
    requires k < |raws| && DistinctRoutes(raws[..k])
    ensures RouteOf(raws[k]) in RoutesOf(raws[..k]) ==> !DistinctRoutes(raws)
    ensures RouteOf(raws[k]) !in RoutesOf(raws[..k]) ==> DistinctRoutes(raws[..k + 1])
  {
    var seen := raws[..k];
    if RouteOf(raws[k]) in RoutesOf(seen) {
      var raw :| raw in seen && RouteOf(raw) == RouteOf(raws[k]);
      var i :| 0 <= i < k && seen[i] == raw;
      assert RouteOf(raws[i]) == RouteOf(raws[k]);
    } else {
      var t := raws[..k + 1];
      forall i, j | 0 <= i < j < |t|
        ensures RouteOf(t[i]) != RouteOf(t[j])
      {
        assert t[i] == seen[i] && seen[i] in seen;
        if j < k { assert t[j] == seen[j]; }
      }
    }
  }

  lemma {:induction false} AllRoutesSeen(raws: seq<RawRecord>)
    requires |raws| == 96 && |RoutesOf(raws)| == 96
    requires forall j | 0 <= j < 96 :: IsExpected(RouteOf(raws[j]))
    ensures RoutesOf(raws) == EXPECTED
  {
    FirstRoutesSize(96);
    forall r | r in RoutesOf(raws)
      ensures r in EXPECTED
    {
      ExpectedAre(r);
    }
    SameSize(RoutesOf(raws), EXPECTED);
  }

  /** Whatever the guard accepts, the strict reader parses and the layout check
      accepts, with the guard's per-device counts and its hard-coded 48/48 split. */
  lemma {:induction false} GuardImpliesReader(data: Bytes)
    requires GuardAccepts(data)
    ensures var r, raws := Parse(data), Streamed(data, P40_RECORDS);
            && r.Ok? && ValidT32(r.value) && Raws(r.value.records) == raws
            && Early(raws) == 48 && |raws| - Early(raws) == 48
  {
    var raws := Streamed(data, P40_RECORDS);
    GuardHeaderReads(data);
    GuardRecordsRead(data, FrameOf(HeaderAt(data)), raws);
    DistinctMeansSize(raws);
    AllRoutesSeen(raws);
    CoverSplitsEvenly(raws);
  }

  // What the guard asks beyond the reader and the layout check.
  ghost predicate GuardExtras(data: Bytes, c: Capture) {
    && |data| >= HEADER_BYTES && Unpack(data[8..HEADER_BYTES])[8..] == GUARD_WORDS[8..]
    && forall k | 0 <= k < |c.records| :: c.records[k].raw.expert < 256
  }

  /** The guard accepts exactly the captures that the reader parses, the layout check
      accepts, and whose model, layer, step and schema words, reserved header words and
      expert ids are the expected ones. */
  lemma {:induction false} GuardAcceptsIff(data: Bytes)
    ensures GuardAccepts(data)
            <==> Parse(data).Ok? && ValidT32(Parse(data).value) && GuardExtras(data, Parse(data).value)
  {
    if GuardAccepts(data) {
      GuardImpliesReader(data);
      var raws := Streamed(data, P40_RECORDS);
      forall k | 0 <= k < |Parse(data).value.records|
        ensures Parse(data).value.records[k].raw.expert < 256
      {
        assert GuardRecord(raws[k]);
      }
    }
    if Parse(data).Ok? && ValidT32(Parse(data).value) && GuardExtras(data, Parse(data).value) {
      ReaderHeaderGuards(data);
      ReaderRecordsStream(data);
      ReaderRecordsGuard(data);
    }
  }

  lemma {:induction false} ReaderHeaderGuards(data: Bytes)
    requires Parse(data).Ok? && ValidT32(Parse(data).value) && GuardExtras(data, Parse(data).value)
    ensures GuardHeader(data)
  {
    var h, words := HeaderAt(data), Unpack(data[8..HEADER_BYTES]);
    assert h.recordBytes == P40_RECORD_BYTES;
    forall i | 0 <= i < 14
      ensures words[i] == GUARD_WORDS[i]
    {
      if i >= 8 { assert words[i] == words[8..][i - 8] == GUARD_WORDS[8..][i - 8]; }
    }
    assert words == GUARD_WORDS;
  }

  lemma {:induction false} ReaderRecordsStream(data: Bytes)
    requires Parse(data).Ok? && GuardHeader(data)
    ensures Raws(Parse(data).value.records) == Streamed(data, P40_RECORDS)
    ensures forall k | 0 <= k < P40_RECORDS :: RecordFault(Frame(P40_RECORDS, P40_RECORD_BYTES, 524_288, 524_288), StreamedRecord(data, k)).Ok?
  {
    ReaderRecordStreams(data, 0);
    forall k: nat | k < P40_RECORDS
      ensures Parse(data).value.records[k].raw == StreamedRecord(data, k)
      ensures RecordFault(Frame(P40_RECORDS, P40_RECORD_BYTES, 524_288, 524_288), StreamedRecord(data, k)).Ok?
    {
      ReaderRecordStreams(data, k);
    }
  }

  lemma {:induction false} ReaderRecordStreams(data: Bytes, k: nat)
    requires Parse(data).Ok? && GuardHeader(data) && k < P40_RECORDS
    ensures |Parse(data).value.records| == P40_RECORDS && Parse(data).value.records[k].raw == StreamedRecord(data, k)
    ensures RecordFault(Frame(P40_RECORDS, P40_RECORD_BYTES, 524_288, 524_288), StreamedRecord(data, k)).Ok?
  {
    GuardHeaderReads(data);
    CollectAt(ReadAll(data, FrameOf(HeaderAt(data))), 0, k);
    ParsedRecord(data, k);
    OffsetIs(P40_RECORD_BYTES, k);
  }

  lemma {:induction false} ReaderRecordsGuard(data: Bytes)
    requires Parse(data).Ok? && ValidT32(Parse(data).value) && GuardExtras(data, Parse(data).value) && GuardHeader(data)
    requires Raws(Parse(data).value.records) == Streamed(data, P40_RECORDS)
    requires forall k | 0 <= k < P40_RECORDS :: RecordFault(Frame(P40_RECORDS, P40_RECORD_BYTES, 524_288, 524_288), StreamedRecord(data, k)).Ok?
    ensures RecordsAccepted(Streamed(data, P40_RECORDS))
  {
    var raws := Streamed(data, P40_RECORDS);
    SizeMeansDistinct(raws);
    forall k | 0 <= k < |raws|
      ensures GuardRecord(raws[k]) && IsExpected(RouteOf(raws[k]))
    {
      assert raws[k] == StreamedRecord(data, k) == Parse(data).value.records[k].raw;
      assert raws[k] in raws;
      ExpectedAre(RouteOf(raws[k]));
    }
  }

  lemma {:induction false} GuardRecordsRead(data: Bytes, f: Frame, raws: seq<RawRecord>)
    requires |data| == P40_CAPTURE_BYTES && Framed(data, f) && f == Frame(P40_RECORDS, P40_RECORD_BYTES, 524_288, 524_288)
    requires raws == Streamed(data, P40_RECORDS) && forall k | 0 <= k < |raws| :: GuardRecord(raws[k])
    ensures var records := Collect(ReadAll(data, f), 0);
            records.Ok? && |records.value| == 96 && Raws(records.value) == raws
  {
    var all, records := ReadAll(data, f), Placed(raws, f.size);
    forall k: nat | k < f.count
      ensures all[k] == Ok(records[k])
    {
      OffsetIs(f.size, k);
      assert GuardRecord(raws[k]);
    }
    CollectAll(all, records, 0);
    assert records[0..] == records;
  }

  lemma {:induction false} GuardHeaderReads(data: Bytes)
    requires GuardHeader(data)
    ensures ReadHeader(data) == Ok(HeaderAt(data)) && GoodHeader(HeaderAt(data))
    ensures FrameOf(HeaderAt(data)) == Frame(P40_RECORDS, P40_RECORD_BYTES, 524_288, 524_288)
    ensures Framed(data, FrameOf(HeaderAt(data))) && |data| == HEADER_BYTES + P40_RECORDS * P40_RECORD_BYTES
    ensures HeaderAt(data).hidden == P40_HIDDEN && HeaderAt(data).intermediate == P40_INTERMEDIATE
    ensures HeaderAt(data).groupWidth == P40_GROUP_WIDTH && HeaderAt(data).expectedRecords == P40_RECORDS
    ensures |data| <= MAX_CAPTURE_BYTES
  {
    var f := FrameOf(HeaderAt(data));
    assert RecordBytes(P40_HIDDEN, P40_INTERMEDIATE, P40_GROUP_WIDTH) == Ok(P40_RECORD_BYTES);
    OffsetIs(f.size, f.count);
  }

  /** The guard's header word by word. */
  lemma {:induction false} GuardHeaderIff(data: Bytes)
    ensures GuardHeader(data)
            <==> && |data| == 154_540_864 && data[..8] == [87, 71, 67, 65, 80, 48, 49, 0]
                 && WordAt(data, 8, 1) && WordAt(data, 12, 64) && WordAt(data, 16, 0x0102_0304) && WordAt(data, 20, 2048)
                 && WordAt(data, 24, 512) && WordAt(data, 28, 256) && WordAt(data, 32, 1_609_800) && WordAt(data, 36, 96)
                 && WordAt(data, 40, 40) && WordAt(data, 44, 3) && WordAt(data, 48, 4) && WordAt(data, 52, 1)
                 && WordAt(data, 56, 0) && WordAt(data, 60, 0)
  {
    if |data| == P40_CAPTURE_BYTES {
      var words, h := Unpack(data[8..64]), HeaderAt(data);
      HeaderFieldsAt(data);
      UnpackAt(data[8..64], 12);
      UnpackAt(data[8..64], 13);
      assert WordAt(data, 56, words[12]) && WordAt(data, 60, words[13]);
      assert words == [h.version, h.headerBytes, h.marker, h.hidden, h.intermediate, h.groupWidth, h.recordBytes, h.expectedRecords,
                       h.modelLayers, h.layerCount, h.stepCount, h.sourceSchema, words[12], words[13]];
    }
  }

  lemma {:induction false} DistinctMeansSize(raws: seq<RawRecord>)
    requires DistinctRoutes(raws)
    ensures |RoutesOf(raws)| == |raws|
  {
    if raws != [] {
      var n := |raws| - 1;
      DistinctMeansSize(raws[..n]);
      RoutesSnoc(raws);
      assert RouteOf(raws[n]) !in RoutesOf(raws[..n]) by {
        forall i | 0 <= i < n
          ensures RouteOf(raws[..n][i]) != RouteOf(raws[n])
        {
        }
      }
    }
  }
}
