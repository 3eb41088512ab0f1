/** The append-only target ledger: its memory, its file, and what a later process reads back from that file. */
module Ledger {
  import opened Basics
  import opened Utf8
  import opened LedgerRecord
  import P = DriverProtocol

  const MAX_RECORDS := 100_000
  const MAX_LEDGER_BYTES := 64 * 1024 * 1024
  const BRACE: Byte := 123

  // ---------- Lines as `bytes.splitlines` finds them ----------

  /** Where the first line break starts, or the end. */
  function LineEnd(b: seq<Byte>): (k: nat)
    ensures k <= |b|
    ensures k < |b| ==> b[k] in {LF, CR}
    ensures forall j | 0 <= j < k :: b[j] !in {LF, CR}
  {
    if b == [] || b[0] in {LF, CR} then 0 else 1 + LineEnd(b[1..])
  }

  /** A carriage return and a following line feed are one break. */
  function BreakWidth(b: seq<Byte>): (w: nat)
    requires b != []
    ensures 1 <= w <= 2 && w <= |b|
  {
    if b[0] == CR && |b| > 1 && b[1] == LF then 2 else 1
  }

  function SplitLines(b: seq<Byte>): seq<seq<Byte>>
    decreases |b|
  {
    if b == [] then [] else
    var k := LineEnd(b);
    if k == |b| then [b] else [b[..k]] + SplitLines(b[k + BreakWidth(b[k..])..])
  }

  /** No bytes, or bytes whose last line is finished. */
  predicate Finished(b: seq<Byte>) {
    b == [] || b[|b| - 1] == LF
  }

  lemma LineEndIs(b: seq<Byte>, k: nat)
    requires k <= |b| && (k < |b| ==> b[k] in {LF, CR}) && forall j | 0 <= j < k :: b[j] !in {LF, CR}
    ensures LineEnd(b) == k
  {
  }

  /** How many bytes the first line and its break take. */
  function LineWidth(b: seq<Byte>): (n: nat)
    requires b != []
    ensures 0 < n <= |b|
  {
    var k := LineEnd(b);
    if k == |b| then k else k + BreakWidth(b[k..])
  }

  lemma SplitStep(b: seq<Byte>)
    requires b != [] && LineEnd(b) < |b|
    ensures SplitLines(b) == [b[..LineEnd(b)]] + SplitLines(b[LineWidth(b)..])
  {
  }

  lemma BreakIsThere(a: seq<Byte>)
    requires a != [] && Finished(a)
    ensures LineEnd(a) < |a|
  {
    assert a[|a| - 1] == LF;
  }

  lemma WidthIs(a: seq<Byte>)
    requires a != [] && LineEnd(a) < |a|
    ensures var k, n := LineEnd(a), LineWidth(a);
      n == k + 1 || (n == k + 2 && a[k] == CR && n <= |a|)
  {
    hide LineEnd;
    assert a[LineEnd(a)] == a[LineEnd(a)..][0];
  }

  lemma FirstLine(a: seq<Byte>)
    requires a != [] && Finished(a)
    ensures LineEnd(a) < LineWidth(a) && Finished(a[LineWidth(a)..])
    ensures SplitLines(a) == [a[..LineEnd(a)]] + SplitLines(a[LineWidth(a)..])
    ensures a[LineEnd(a)] in {LF, CR} && (a[LineEnd(a)] == LF ==> LineWidth(a) == LineEnd(a) + 1)
    ensures CR !in a[LineEnd(a)..LineWidth(a)] ==> a[LineEnd(a)..LineWidth(a)] == [LF]
  {
    hide SplitLines, LineEnd, LineWidth, BreakWidth;
    BreakIsThere(a);
    SplitStep(a);
    WidthIs(a);
    var k, n := LineEnd(a), LineWidth(a);
    if n < |a| {
      assert a[n..][|a| - n - 1] == a[|a| - 1];
    }
    assert a[k] == a[k..n][0];
  }

  lemma FirstLineOfAppend(a: seq<Byte>, b: seq<Byte>)
    requires a != [] && Finished(a)
    ensures LineEnd(a + b) == LineEnd(a) && LineWidth(a + b) == LineWidth(a)
  {
    FirstLine(a);
    var k := LineEnd(a);
    assert forall j | 0 <= j <= k :: (a + b)[j] == a[j];
    LineEndIs(a + b, k);
    hide SplitLines, LineEnd;
    if k + 1 < |a| {
      assert (a + b)[k + 1] == a[k + 1];
    }
  }

  lemma FirstLineOfMore(a: seq<Byte>, b: seq<Byte>)
    requires a != [] && Finished(a)
    ensures SplitLines(a + b) == [a[..LineEnd(a)]] + SplitLines(a[LineWidth(a)..] + b)
  {
    hide *;
    FirstLine(a);
    FirstLineOfAppend(a, b);
    SplitStep(a + b);
    var k, n := LineEnd(a), LineWidth(a);
    assert (a + b)[n..] == a[n..] + b && (a + b)[..k] == a[..k];
  }

  /** Finished text splits without regard to what follows it. */
  lemma {:induction false} SplitAppend(a: seq<Byte>, b: seq<Byte>)
    requires Finished(a)
    ensures SplitLines(a + b) == SplitLines(a) + SplitLines(b)
    decreases |a|
  {
    hide SplitLines, LineEnd, LineWidth, Finished;
    if a == [] {
      assert a + b == b;
      SplitNothing();
    } else {
      FirstLine(a);
      FirstLineOfMore(a, b);
      SplitAppend(a[LineWidth(a)..], b);
    }
  }

  lemma SplitNothing()
    ensures SplitLines([]) == []
  {
  }

  predicate NoBreaks(line: seq<Byte>) {
    forall k | 0 <= k < |line| :: line[k] !in {LF, CR}
  }

  lemma SplitOne(line: seq<Byte>)
    requires NoBreaks(line)
    ensures SplitLines(line + [LF]) == [line]
  {
    var s := line + [LF];
    assert forall j | 0 <= j < |line| :: s[j] == line[j];
    LineEndIs(s, |line|);
    SplitStep(s);
    assert s[..|line|] == line && s[|line| + 1..] == [];
    assert SplitLines([]) == [];
  }

  // ---------- A file that holds exactly some markers ----------

  function Markers(records: seq<TargetRecord>): (lines: seq<seq<Byte>>)
    ensures |lines| == |records| && forall k | 0 <= k < |records| :: lines[k] == MarkerBytes(records[k])
  {
    seq(|records|, k requires 0 <= k < |records| => MarkerBytes(records[k]))
  }

  /** The canonical encodings one after another. */
  function Lines(records: seq<TargetRecord>): seq<Byte> {
    if records == [] then [] else MarkerLine(records[0]) + Lines(records[1..])
  }

  /** The file's lines are these markers. */
  predicate Holds(file: seq<Byte>, records: seq<TargetRecord>) {
    Finished(file) && SplitLines(file) == Markers(records)
  }

  predicate AllValid(records: seq<TargetRecord>) {
    forall k | 0 <= k < |records| :: ValidRecord(records[k])
  }

  lemma HoldsAppend(file: seq<Byte>, records: seq<TargetRecord>, r: TargetRecord)
    requires Holds(file, records) && ValidRecord(r)
    ensures Holds(file + MarkerLine(r), records + [r])
  {
    hide MarkerBytes, ValidRecord, SplitLines;
    MarkerBytesAreTame(r);
    SplitAppend(file, MarkerLine(r));
    SplitOne(MarkerBytes(r));
    assert Markers(records + [r]) == Markers(records) + [MarkerBytes(r)];
  }

  /** A file of markers has their encodings as its contents exactly when it holds no carriage return:
      reading also takes a carriage return, alone or before a line feed, as the end of a line. */
  lemma {:induction false} HoldsExactly(file: seq<Byte>, records: seq<TargetRecord>)
    requires Holds(file, records) && AllValid(records)
    ensures file == Lines(records) <==> CR !in file
    decreases |file|
  {
    hide MarkerBytes, ValidRecord, SplitLines, LineEnd, LineWidth;
    if file == [] {
      SplitNothing();
      assert Markers(records) == [];
    } else {
      FirstLine(file);
      var k, n := LineEnd(file), LineWidth(file);
      assert Markers(records)[0] == file[..k];
      assert Markers(records[1..]) == Markers(records)[1..] == SplitLines(file[n..]);
      HoldsExactly(file[n..], records[1..]);
      LinesStep(file, records, k, n);
    }
  }

  lemma LinesStep(file: seq<Byte>, records: seq<TargetRecord>, k: nat, n: nat)
    requires k < n <= |file| && records != [] && ValidRecord(records[0]) && MarkerBytes(records[0]) == file[..k]
    requires CR !in file[k..n] ==> file[k..n] == [LF]
    requires file[n..] == Lines(records[1..]) <==> CR !in file[n..]
    requires file[k] in {LF, CR} && (file[k] == LF ==> n == k + 1)
    ensures file == Lines(records) <==> CR !in file
  {
    hide MarkerBytes, ValidRecord;
    MarkerBytesAreTame(records[0]);
    var line, rest := file[..k], file[n..];
    assert file == (line + file[k..n]) + rest;
    assert CR !in line;
    assert Lines(records) == (line + [LF]) + Lines(records[1..]);
    if CR !in file {
      assert CR !in file[k..n] && CR !in rest;
    }
    if file == Lines(records) {
      assert file[k] == (line + [LF])[k] == LF;
      assert rest == Lines(records)[k + 1..] == Lines(records[1..]);
    }
  }

  // ---------- Reading a file back ----------

  predicate DistinctIds(records: seq<TargetRecord>) {
    forall i, j | 0 <= i < j < |records| :: records[i].requestId != records[j].requestId
  }

  function Ids(records: seq<TargetRecord>): set<string> {
    set k | 0 <= k < |records| :: records[k].requestId
  }

  /** What a load accepts: within the bounds, and made of the lines of valid markers with distinct ids. */
  predicate Loads(file: seq<Byte>, records: seq<TargetRecord>) {
    && |file| <= MAX_LEDGER_BYTES && |records| <= MAX_RECORDS
    && Holds(file, records) && AllValid(records) && DistinctIds(records)
    && forall k | 0 <= k < |records| :: |MarkerBytes(records[k])| <= MAX_RECORD_BYTES
  }

  /** A file can be read as one ledger at most. */
  lemma LoadsAreUnique(file: seq<Byte>, xs: seq<TargetRecord>, ys: seq<TargetRecord>)
    requires Loads(file, xs) && Loads(file, ys)
    ensures xs == ys
  {
    hide MarkerBytes;
    forall k | 0 <= k < |xs| ensures xs[k] == ys[k] {
      assert Markers(xs)[k] == Markers(ys)[k];
      MarkerBytesInjective(xs[k], ys[k]);
    }
  }

  // ---------- The file as the operating system offers it ----------

  datatype DiskEvent = Proceeds(size: nat) | Refuses

  /** Every step of the file system succeeds, and every write makes some progress. */
  predicate Works(events: seq<DiskEvent>) {
    forall k | 0 <= k < |events| :: events[k].Proceeds? && events[k].size > 0
  }

  // ---------- How far an append gets ----------

  /** What became of one append: how much of the line is in the file, whether it all got there durably, and the
      events left for later calls. */
  datatype Progress = Progress(written: nat, durable: bool, rest: seq<DiskEvent>)

  /** The loop of short writes over what is left of a line. */
  function WriteRun(events: seq<DiskEvent>, size: nat): (p: Progress)
    ensures p.written <= size && (p.durable <==> p.written == size)
    decreases |events|
  {
    if size == 0 then Progress(0, true, events)
    else if events == [] then Progress(size, true, [])
    else if events[0].Refuses? || events[0].size == 0 then Progress(0, false, events[1..])
    else
      var n := if events[0].size <= size then events[0].size else size;
      var p := WriteRun(events[1..], size - n);
      Progress(n + p.written, p.durable, p.rest)
  }

  /** Opening the file, writing the line and flushing it. */
  function AppendRun(events: seq<DiskEvent>, size: nat): (p: Progress)
    ensures p.written <= size && (p.durable ==> p.written == size)
  {
    if events != [] && events[0].Refuses? then Progress(0, false, events[1..]) else
    var p := WriteRun(if events == [] then [] else events[1..], size);
    if !p.durable || p.rest == [] then p else Progress(size, p.rest[0].Proceeds?, p.rest[1..])
  }

  lemma WriteDone(events: seq<DiskEvent>)
    ensures WriteRun(events, 0) == Progress(0, true, events)
  {
  }

  lemma WriteStep(events: seq<DiskEvent>, size: nat)
    requires size > 0
    ensures WriteRun(events, size)
         == if events == [] then Progress(size, true, [])
            else if events[0].Refuses? || events[0].size == 0 then Progress(0, false, events[1..])
            else
              var n := if events[0].size <= size then events[0].size else size;
              var p := WriteRun(events[1..], size - n);
              Progress(n + p.written, p.durable, p.rest)
  {
  }

  /** With a working file system every append gets through, however short its writes. */
  lemma {:induction false} WorksWrites(events: seq<DiskEvent>, size: nat)
    requires Works(events)
    ensures WriteRun(events, size).durable && Works(WriteRun(events, size).rest)
    decreases |events|
  {
    if size > 0 && events != [] {
      WorksWrites(events[1..], size - if events[0].size <= size then events[0].size else size);
    }
  }

  lemma WorksAppends(events: seq<DiskEvent>, size: nat)
    requires Works(events)
    ensures AppendRun(events, size).durable
  {
    hide WriteRun;
    WorksWrites(if events == [] then [] else events[1..], size);
  }

  class Disk {
    var file: Option<seq<Byte>>
    const ownerOnly: bool
    var events: seq<DiskEvent>

    constructor (file: Option<seq<Byte>>, ownerOnly: bool, events: seq<DiskEvent>)
      ensures this.file == file && this.ownerOnly == ownerOnly && this.events == events
    {
      this.file, this.ownerOnly, this.events := file, ownerOnly, events;
    }

    function Contents(): seq<Byte>
      reads this
    {
      if file.None? then [] else file.value
    }

    method NextEvent() returns (e: Option<DiskEvent>)
      modifies this`events
      ensures e == if old(events) == [] then None else Some(old(events)[0])
      ensures events == if old(events) == [] then [] else old(events)[1..]
    {
      if events == [] {
        return None;
      }
      e, events := Some(events[0]), events[1..];
    }

    /** `os.open` for appending; a missing file is created empty. */
    method OpenForAppend() returns (ok: bool)
      modifies this
      ensures Contents() == old(Contents()) && (ok ==> file.Some?)
      ensures ok <==> old(events) == [] || old(events)[0].Proceeds?
      ensures events == if old(events) == [] then [] else old(events)[1..]
    {
      var e := NextEvent();
      ok := e.None? || e.value.Proceeds?;
      if ok && file.None? {
        file := Some([]);
      }
    }

    /** `os.write`: appends some prefix, possibly none, or fails. */
    method Write(payload: seq<Byte>) returns (written: Option<nat>)
      requires file.Some?
      modifies this
      ensures file.Some?
      ensures written.None? ==> Contents() == old(Contents())
      ensures written.Some? ==> written.value <= |payload| && Contents() == old(Contents()) + payload[..written.value]
      ensures written == if old(events) == [] then Some(|payload|)
                         else if old(events)[0].Refuses? then None
                         else Some(if old(events)[0].size <= |payload| then old(events)[0].size else |payload|)
      ensures events == if old(events) == [] then [] else old(events)[1..]
    {
      var e := NextEvent();
      if e.Some? && e.value.Refuses? {
        return None;
      }
      var n := if e.Some? && e.value.size <= |payload| then e.value.size else |payload|;
      file := Some(file.value + payload[..n]);
      assert payload[..|payload|] == payload;
      return Some(n);
    }

    method Sync() returns (ok: bool)
      modifies this`events
      ensures ok <==> old(events) == [] || old(events)[0].Proceeds?
      ensures events == if old(events) == [] then [] else old(events)[1..]
    {
      var e := NextEvent();
      ok := e.None? || e.value.Proceeds?;
    }

    /** Opens the file, writes a line piece by piece and flushes it, giving up at the first failure. */
    method AppendDurably(payload: seq<Byte>) returns (ok: bool)
      modifies this
      ensures var p := AppendRun(old(events), |payload|);
        && (ok <==> p.durable) && events == p.rest && Contents() == old(Contents()) + payload[..p.written]
    {
      hide WriteRun;
      ok := OpenForAppend();
      if !ok {
        assert payload[..0] == [];
        return;
      }
      var offset := 0;
      ghost var p := WriteRun(events, |payload|);
      while offset < |payload|
        invariant 0 <= offset <= |payload| && file.Some?
        invariant Contents() == old(Contents()) + payload[..offset]
        invariant var left := WriteRun(events, |payload| - offset);
          p == Progress(offset + left.written, left.durable, left.rest)
      {
        WriteStep(events, |payload| - offset);
        var written := Write(payload[offset..]);
        WriteDone(events);
        if written.None? || written.value <= 0 {
          if written.Some? {
            assert payload[offset..][..0] == [];
            assert Contents() == old(Contents()) + payload[..offset];
          }
          return false;
        }
        assert payload[..offset] + payload[offset..][..written.value] == payload[..offset + written.value];
        offset := offset + written.value;
      }
      WriteDone(events);
      assert payload[..|payload|] == payload;
      ok := Sync();
    }
  }

  // ---------- A run of appends ----------

  /** One append that reached the file system: how much of the marker's line it left there, and whether it succeeded. */
  datatype Attempt = Attempt(record: TargetRecord, written: nat, durable: bool)

  predicate ValidAttempt(a: Attempt) {
    && ValidRecord(a.record) && a.written <= |MarkerLine(a.record)|
    && (a.durable ==> a.written == |MarkerLine(a.record)|)
  }

  predicate ValidAttempts(attempts: seq<Attempt>) {
    forall k | 0 <= k < |attempts| :: ValidAttempt(attempts[k])
  }

  predicate IsWhole(a: Attempt) {
    a.written == |MarkerLine(a.record)|
  }

  function Part(a: Attempt): seq<Byte>
    requires ValidAttempt(a)
  {
    MarkerLine(a.record)[..a.written]
  }

  /** What a run of appends adds to the file. */
  function Written(attempts: seq<Attempt>): seq<Byte>
    requires ValidAttempts(attempts)
  {
    if attempts == [] then [] else Part(attempts[0]) + Written(attempts[1..])
  }

  /** The markers whose whole lines are in the file, durably or not. */
  function Whole(attempts: seq<Attempt>): seq<TargetRecord> {
    if attempts == [] then [] else
    (if IsWhole(attempts[0]) then [attempts[0].record] else []) + Whole(attempts[1..])
  }

  /** The markers memory has: those whose append succeeded. */
  function Acknowledged(attempts: seq<Attempt>): seq<TargetRecord> {
    if attempts == [] then [] else
    (if attempts[0].durable then [attempts[0].record] else []) + Acknowledged(attempts[1..])
  }

  /** No append left only a part of its line. */
  predicate NoFragments(attempts: seq<Attempt>) {
    forall k | 0 <= k < |attempts| :: attempts[k].written == 0 || IsWhole(attempts[k])
  }

  /** Every failed append left nothing at all. */
  predicate Clean(attempts: seq<Attempt>) {
    forall k | 0 <= k < |attempts| :: attempts[k].written == 0 || attempts[k].durable
  }

  lemma {:induction false} AttemptAppend(attempts: seq<Attempt>, a: Attempt)
    requires ValidAttempts(attempts) && ValidAttempt(a)
    ensures ValidAttempts(attempts + [a])
    ensures Written(attempts + [a]) == Written(attempts) + Part(a)
    ensures Acknowledged(attempts + [a]) == Acknowledged(attempts) + if a.durable then [a.record] else []
  {
    hide ValidAttempt, Part;
    var more := attempts + [a];
    if attempts == [] {
      assert more[1..] == [];
      assert Written([]) == [] && Acknowledged([]) == [];
    } else {
      AttemptAppend(attempts[1..], a);
      assert more[1..] == attempts[1..] + [a];
    }
  }

  /** What one more append does to the file and to memory. */
  lemma {:induction false} AttemptExtends(initial: seq<Byte>, loaded: seq<TargetRecord>, attempts: seq<Attempt>, a: Attempt)
    requires ValidAttempts(attempts) && ValidAttempt(a)
    ensures ValidAttempts(attempts + [a])
    ensures initial + Written(attempts + [a]) == (initial + Written(attempts)) + MarkerLine(a.record)[..a.written]
    ensures loaded + Acknowledged(attempts + [a])
         == (loaded + Acknowledged(attempts)) + if a.durable then [a.record] else []
  {
    AttemptAppend(attempts, a);
    assert Part(a) == MarkerLine(a.record)[..a.written];
    hide *;
  }

  // ---------- The ledger ----------

  datatype Outcome = Recorded(record: TargetRecord) | Duplicate | Unavailable

  class TargetLedger {
    const disk: Disk
    var records: seq<TargetRecord>
    var requestIds: set<string>
    var invalid: bool
    /** The file as it was opened, the records it then held, and every append since that reached the file system. */
    ghost var initial: seq<Byte>
    ghost var loaded: seq<TargetRecord>
    ghost var attempts: seq<Attempt>

    /** Memory is what was loaded and what succeeded since; the file is what it was at first and whatever every append,
        failed ones included, left in it; and a ledger that is not invalid has had no failure. */
    ghost predicate Valid()
      reads this, disk
    {
      && Holds(initial, loaded) && AllValid(loaded) && ValidAttempts(attempts)
      && disk.Contents() == initial + Written(attempts) && records == loaded + Acknowledged(attempts)
      && AllValid(records) && DistinctIds(records) && requestIds == Ids(records) && |records| <= MAX_RECORDS
      && (!invalid ==> forall k | 0 <= k < |attempts| :: attempts[k].durable)
    }

    constructor (disk: Disk)
      ensures this.disk == disk && records == [] && requestIds == {} && !invalid
      ensures initial == [] && loaded == [] && attempts == []
    {
      this.disk, records, requestIds, invalid := disk, [], {}, false;
      initial, loaded, attempts := [], [], [];
    }

    /** A ledger on a file, if its contents can be read as one. */
    static method Open(disk: Disk) returns (r: Option<TargetLedger>)
      ensures r.Some? ==> fresh(r.value) && r.value.disk == disk && r.value.Valid() && !r.value.invalid
      ensures r.Some? ==> r.value.initial == disk.Contents() && r.value.loaded == r.value.records && r.value.attempts == []
      ensures disk.file.None? ==> r.Some? && r.value.records == [] && r.value.requestIds == {}
      ensures disk.file.Some? ==> (r.Some? <==> disk.ownerOnly && exists rs :: Loads(disk.Contents(), rs))
      ensures disk.file.Some? && r.Some? ==> Loads(disk.Contents(), r.value.records)
    {
      var ledger := new TargetLedger(disk);
      if disk.file.Some? {
        var ok := ledger.LoadExisting();
        return if ok then Some(ledger) else None;
      }
      SplitNothing();
      assert ledger.initial + Written(ledger.attempts) == [] && ledger.loaded + Acknowledged(ledger.attempts) == [];
      return Some(ledger);
    }

    /** `_load_existing`: the records of the file's lines, or a refusal. */
    method LoadExisting() returns (ok: bool)
      requires disk.file.Some? && records == [] && requestIds == {} && !invalid && attempts == []
      modifies this`records, this`requestIds, this`initial, this`loaded
      ensures ok <==> disk.ownerOnly && exists rs :: Loads(disk.Contents(), rs)
      ensures ok ==> Loads(disk.Contents(), records) && Valid() && initial == disk.Contents() && loaded == records
    {
      hide SplitLines, DecodeMarker, MarkerBytes, ValidRecord;
      var payload := disk.file.value;
      if !disk.ownerOnly || |payload| > MAX_LEDGER_BYTES || (payload != [] && payload[|payload| - 1] != LF) {
        return false;
      }
      var lines := SplitLines(payload);
      var i := 0;
      while i < |lines|
        invariant 0 <= i <= |lines| && |records| == i
        invariant lines[..i] == Markers(records)
        invariant AllValid(records) && DistinctIds(records) && requestIds == Ids(records)
        invariant forall k | 0 <= k < i :: |MarkerBytes(records[k])| <= MAX_RECORD_BYTES
      {
        var line := lines[i];
        var record := DecodeMarker(line);
        if line == [] || |line| > MAX_RECORD_BYTES || record.None? || record.value.requestId in requestIds {
          forall rs ensures !Loads(payload, rs) {
            BadLine(payload, rs, i, records, requestIds);
          }
          return false;
        }
        DecodesExactlyMarkers(line, record.value);
        IdsAppend(records, record.value);
        ghost var before := records;
        requestIds, records := requestIds + {record.value.requestId}, records + [record.value];
        assert Markers(records) == Markers(before) + [line];
        assert lines[..i + 1] == lines[..i] + [line];
        i := i + 1;
      }
      assert lines[..|lines|] == lines;
      if |records| > MAX_RECORDS {
        forall rs ensures !Loads(payload, rs) {
          assert |Markers(rs)| == |rs|;
        }
        return false;
      }
      assert Loads(disk.Contents(), records);
      initial, loaded := payload, records;
      assert initial + Written(attempts) == initial && loaded + Acknowledged(attempts) == loaded;
      return true;
    }

/** Everything but the disk allows the append. */
    predicate CanRecord(runId: string, requestId: string, track: P.Track, path: string, digest: string,
                        received: Option<int>, response: Option<int>)
      reads this`records, this`requestIds
    {
      && requestId !in requestIds && |records| < MAX_RECORDS && received.Some? && response.Some?
      && ValidRecord(TargetRecord(runId, requestId, track, path, digest, received.value, response.value))
    }

    /** Appends one marker, or marks the ledger invalid. */
    method AppendMarker(runId: string, requestId: string, track: P.Track, path: string, digest: string,
                        received: Option<int>, response: Option<int>) returns (r: Outcome)
      requires Valid()
      modifies this`records, this`requestIds, this`invalid, this`attempts, disk
      ensures Valid() && initial == old(initial) && loaded == old(loaded)
      ensures r.Duplicate? <==> requestId in old(requestIds)
      ensures r.Recorded? ==>
        && r.record.runId == runId && r.record.requestId == requestId && r.record.track == track
        && r.record.path == path && r.record.digest == digest
        && Some(r.record.receivedNs) == received && Some(r.record.responseNs) == response
        && records == old(records) + [r.record] && requestIds == old(requestIds) + {requestId}
        && invalid == old(invalid) && disk.Contents() == old(disk.Contents()) + MarkerLine(r.record)
      ensures !r.Recorded? ==> invalid && records == old(records) && requestIds == old(requestIds)
      ensures !old(CanRecord(runId, requestId, track, path, digest, received, response)) ==>
        !r.Recorded? && disk.Contents() == old(disk.Contents()) && disk.events == old(disk.events) && attempts == old(attempts)
      ensures old(CanRecord(runId, requestId, track, path, digest, received, response)) ==>
        var made := TargetRecord(runId, requestId, track, path, digest, received.value, response.value);
        var p := AppendRun(old(disk.events), |MarkerLine(made)|);
        && (r.Recorded? <==> p.durable)
        && disk.Contents() == old(disk.Contents()) + MarkerLine(made)[..p.written] && disk.events == p.rest
        && attempts == old(attempts) + [Attempt(made, p.written, p.durable)]
    {
      hide ValidRecord, MarkerLine, SplitLines, DistinctIds, Ids, Written, Acknowledged, Holds, ValidAttempts, AllValid;
      if requestId in requestIds {
        invalid := true;
        return Duplicate;
      }
      if |records| >= MAX_RECORDS {
        invalid := true;
        return Unavailable;
      }
      if received.None? || response.None? {
        invalid := true;
        return Unavailable;
      }
      var record := TargetRecord(runId, requestId, track, path, digest, received.value, response.value);
      if !ValidRecord(record) {
        invalid := true;
        return Unavailable;
      }
      var payload := MarkerLine(record);
      ghost var run := AppendRun(disk.events, |payload|);
      AttemptExtends(initial, loaded, attempts, Attempt(record, run.written, run.durable));
      attempts := attempts + [Attempt(record, run.written, run.durable)];
      var ok := disk.AppendDurably(payload);
      if !ok {
        invalid := true;
        return Unavailable;
      }
      IdsAppend(records, record);
      requestIds := requestIds + {requestId};
      records := records + [record];
      return Recorded(record);
    }
  }

  lemma IdsAppend(records: seq<TargetRecord>, r: TargetRecord)
    ensures Ids(records + [r]) == Ids(records) + {r.requestId}
    ensures DistinctIds(records) && r.requestId !in Ids(records) ==> DistinctIds(records + [r])
    ensures AllValid(records) && ValidRecord(r) ==> AllValid(records + [r])
  {
    hide ValidRecord;
    var more := records + [r];
    forall id ensures id in Ids(more) <==> id in Ids(records) + {r.requestId} {
      if id in Ids(records) {
        var k :| 0 <= k < |records| && records[k].requestId == id;
        assert more[k].requestId == id;
      }
      assert more[|records|] == r;
    }
    forall i, j | 0 <= i < j < |more| && DistinctIds(records) && r.requestId !in Ids(records)
      ensures more[i].requestId != more[j].requestId
    {
      assert more[i].requestId == records[i].requestId && records[i].requestId in Ids(records);
    }
  }

  lemma BadLine(file: seq<Byte>, rs: seq<TargetRecord>, i: nat, records: seq<TargetRecord>, ids: set<string>)
    requires i < |SplitLines(file)| && SplitLines(file)[..i] == Markers(records) && |records| == i && ids == Ids(records)
    requires var line := SplitLines(file)[i];
      line == [] || |line| > MAX_RECORD_BYTES || DecodeMarker(line).None? || DecodeMarker(line).value.requestId in ids
    ensures !Loads(file, rs)
  {
    hide SplitLines, DecodeMarker, MarkerBytes, ValidRecord;
    if Loads(file, rs) {
      var line := SplitLines(file)[i];
      assert Markers(rs)[i] == line == MarkerBytes(rs[i]);
      DecodesExactlyMarkers(line, rs[i]);
      MarkerBytesAreTame(rs[i]);
      var k :| 0 <= k < |records| && records[k].requestId == rs[i].requestId;
      assert Markers(rs)[k] == Markers(records)[k];
      MarkerBytesInjective(rs[k], records[k]);
    }
  }

  // ---------- What a later process finds ----------

  /** A file of markers with distinct ids can be read back exactly when it is within the size limit: no line of a
      valid marker is over its own limit. */
  lemma ReloadsExactly(file: seq<Byte>, records: seq<TargetRecord>)
    requires Holds(file, records) && AllValid(records)
    ensures (exists rs :: Loads(file, rs))
       <==> DistinctIds(records) && |records| <= MAX_RECORDS && |file| <= MAX_LEDGER_BYTES
    ensures forall rs :: Loads(file, rs) ==> rs == records
  {
    hide SplitLines, MarkerBytes, ValidRecord, DistinctIds;
    forall rs | Loads(file, rs) ensures rs == records {
      SameMarkers(rs, records);
    }
    forall k | 0 <= k < |records| ensures |MarkerBytes(records[k])| <= MAX_RECORD_BYTES {
      MarkerBytesAreTame(records[k]);
    }
    if DistinctIds(records) && |records| <= MAX_RECORDS && |file| <= MAX_LEDGER_BYTES {
      assert Loads(file, records);
    }
  }

  lemma SameMarkers(xs: seq<TargetRecord>, ys: seq<TargetRecord>)
    requires Markers(xs) == Markers(ys)
    ensures xs == ys
  {
    hide MarkerBytes;
    assert |Markers(xs)| == |xs| && |Markers(ys)| == |ys|;
    forall k | 0 <= k < |xs| ensures xs[k] == ys[k] {
      assert Markers(xs)[k] == Markers(ys)[k];
      MarkerBytesInjective(xs[k], ys[k]);
    }
  }

  predicate ClocksAreBounded(records: seq<TargetRecord>) {
    forall k | 0 <= k < |records| :: records[k].responseNs <= P.MAX_MONOTONIC_NS
  }

  /** 63-bit clocks keep every line, with its break, within 572 bytes. */
  lemma {:induction false} HeldSize(file: seq<Byte>, records: seq<TargetRecord>)
    requires Holds(file, records) && AllValid(records) && ClocksAreBounded(records)
    ensures |file| <= 572 * |records|
    decreases |file|
  {
    hide MarkerBytes, ValidRecord, SplitLines, LineEnd, LineWidth;
    if file != [] {
      FirstLine(file);
      BreakIsThere(file);
      WidthIs(file);
      var k, n := LineEnd(file), LineWidth(file);
      assert |Markers(records)| == |records| > 0;
      assert Markers(records)[0] == file[..k];
      MarkerBytesAreTame(records[0]);
      assert Markers(records[1..]) == Markers(records)[1..] == SplitLines(file[n..]);
      HeldSize(file[n..], records[1..]);
    }
  }

  /** With 63-bit clocks the record limit is the only one that matters: every ledger it can write it can reload. */
  lemma BoundedClocksReload(file: seq<Byte>, records: seq<TargetRecord>)
    requires Holds(file, records) && AllValid(records) && DistinctIds(records) && |records| <= MAX_RECORDS
    requires ClocksAreBounded(records)
    ensures Loads(file, records)
  {
    hide SplitLines, MarkerBytes, ValidRecord, DistinctIds;
    HeldSize(file, records);
    ReloadsExactly(file, records);
  }

  // ---------- Runs with failed appends ----------

  /** Once part of a line is in the file, nothing that later appends add, torn or not, makes it loadable again. */
  lemma TornFileNeverLoads(file: seq<Byte>, records: seq<TargetRecord>, a: Attempt, later: seq<Attempt>)
    requires Holds(file, records) && AllValid(records) && ValidAttempt(a) && ValidAttempts(later)
    requires 0 < a.written && !IsWhole(a)
    ensures !exists rs :: AllValid(rs) && Holds(file + (Part(a) + Written(later)), rs)
  {
    hide SplitLines, ValidRecord, MarkerBytes, LineEnd, ValidAttempts, Written;
    var p, rest := Part(a), Written(later);
    WrittenStarts(later);
    PartIsTame(a);
    var tail := p + rest;
    SplitAppend(file, tail);
    assert (file + tail)[|file + tail| - 1] == tail[|tail| - 1];
    if rest != [] {
      assert tail[|p|] == rest[0] == BRACE;
      forall rs ensures !(AllValid(rs) && Holds(file + tail, rs)) {
        if AllValid(rs) && Holds(file + tail, rs) {
          FirstLine(tail);
          LineEndAfter(tail, |p|);
          var line := SplitLines(tail)[0];
          assert line == SplitLines(file + tail)[|records|] == MarkerBytes(rs[|records|]);
          MarkerBytesAreTame(rs[|records|]);
          assert false;
        }
      }
    }
  }

  lemma LineEndAfter(b: seq<Byte>, n: nat)
    requires n < |b| && forall k | 0 <= k <= n :: b[k] !in {LF, CR}
    ensures LineEnd(b) > n
  {
  }

  /** Part of a marker's line is not empty and has no line break. */
  lemma PartIsTame(a: Attempt)
    requires ValidAttempt(a) && 0 < a.written && !IsWhole(a)
    ensures |Part(a)| == a.written && NoBreaks(Part(a))
  {
    hide ValidRecord, MarkerBytes;
    MarkerBytesAreTame(a.record);
    assert Part(a) == MarkerBytes(a.record)[..a.written];
  }

  /** Whatever appends add starts with the brace of a marker. */
  lemma {:induction false} WrittenStarts(attempts: seq<Attempt>)
    requires ValidAttempts(attempts)
    ensures Written(attempts) != [] ==> Written(attempts)[0] == BRACE
  {
    hide ValidRecord, MarkerBytes;
    if attempts != [] {
      WrittenStarts(attempts[1..]);
      MarkerBytesAreTame(attempts[0].record);
    }
  }

  /** After any run of appends, failed ones included, the file's lines are markers exactly when no append left a
      fragment, and then they are the whole lines in the order they were written. */
  lemma {:induction false} RunHoldsExactly(file: seq<Byte>, records: seq<TargetRecord>, attempts: seq<Attempt>)
    requires Holds(file, records) && AllValid(records) && ValidAttempts(attempts)
    ensures AllValid(records + Whole(attempts))
    ensures NoFragments(attempts) ==> Holds(file + Written(attempts), records + Whole(attempts))
    ensures (exists rs :: AllValid(rs) && Holds(file + Written(attempts), rs)) <==> NoFragments(attempts)
    decreases |attempts|
  {
    hide *;
    if attempts == [] {
      RunOfNothing(file, records);
    } else {
      var a, later := attempts[0], attempts[1..];
      assert attempts == [a] + later;
      ConsValid(a, later);
      ConsFragments(a, later);
      ConsWritten(file, a, later);
      ConsWhole(records, a, later);
      if IsWhole(a) {
        RecordIsValid(a);
        HoldsAppend(file, records, a.record);
        AllValidAppend(records, a);
        RunHoldsExactly(file + MarkerLine(a.record), records + [a.record], later);
      } else {
        RunHoldsExactly(file, records, later);
        assert records + [] == records;
        if a.written > 0 {
          TornFileNeverLoads(file, records, a, later);
        }
      }
    }
  }

  lemma RunOfNothing(file: seq<Byte>, records: seq<TargetRecord>)
    ensures NoFragments([]) && file + Written([]) == file && records + Whole([]) == records
  {
  }

  lemma ConsValid(a: Attempt, later: seq<Attempt>)
    requires ValidAttempts([a] + later)
    ensures ValidAttempt(a) && ValidAttempts(later)
  {
    hide ValidAttempt;
    var run := [a] + later;
    assert run[0] == a && forall k | 0 <= k < |later| :: later[k] == run[k + 1];
  }

  lemma ConsFragments(a: Attempt, later: seq<Attempt>)
    ensures NoFragments([a] + later) <==> (a.written == 0 || IsWhole(a)) && NoFragments(later)
  {
    hide IsWhole;
    var run := [a] + later;
    assert run[0] == a && forall k | 0 <= k < |later| :: later[k] == run[k + 1];
  }

  lemma ConsWritten(file: seq<Byte>, a: Attempt, later: seq<Attempt>)
    requires ValidAttempts([a] + later) && ValidAttempt(a) && ValidAttempts(later)
    ensures file + Written([a] + later) == file + (Part(a) + Written(later)) == (file + Part(a)) + Written(later)
    ensures IsWhole(a) ==> Part(a) == MarkerLine(a.record)
    ensures a.written == 0 ==> file + Part(a) == file
  {
    hide MarkerLine, ValidRecord, ValidAttempts;
    assert ([a] + later)[1..] == later;
  }

  lemma ConsWhole(records: seq<TargetRecord>, a: Attempt, later: seq<Attempt>)
    ensures records + Whole([a] + later) == (records + if IsWhole(a) then [a.record] else []) + Whole(later)
  {
    hide IsWhole;
    assert ([a] + later)[1..] == later;
  }

  lemma RecordIsValid(a: Attempt)
    requires ValidAttempt(a)
    ensures ValidRecord(a.record)
  {
    hide ValidRecord, MarkerLine;
  }

  lemma AllValidAppend(records: seq<TargetRecord>, a: Attempt)
    requires AllValid(records) && ValidAttempt(a)
    ensures AllValid(records + [a.record])
  {
    hide ValidRecord, MarkerLine;
  }

  /** After any run of appends the file can be loaded exactly when no append left a fragment, the whole lines in it
      have distinct ids, and the record and size limits hold; and then it loads as those lines. */
  lemma RunReloadsExactly(file: seq<Byte>, records: seq<TargetRecord>, attempts: seq<Attempt>)
    requires Holds(file, records) && AllValid(records) && ValidAttempts(attempts)
    ensures var held, after := records + Whole(attempts), file + Written(attempts);
      && ((exists rs :: Loads(after, rs))
          <==> NoFragments(attempts) && DistinctIds(held) && |held| <= MAX_RECORDS && |after| <= MAX_LEDGER_BYTES)
      && forall rs :: Loads(after, rs) ==> rs == held
  {
    hide Holds, ValidRecord, MarkerBytes, MarkerLine, Written, Whole, DistinctIds, NoFragments;
    RunHoldsExactly(file, records, attempts);
    if NoFragments(attempts) {
      ReloadsExactly(file + Written(attempts), records + Whole(attempts));
    }
  }

  /** A retry of a request whose line was written whole but not flushed puts its id into the file twice. */
  lemma RetryNeverLoads(file: seq<Byte>, records: seq<TargetRecord>, a: Attempt, between: seq<Attempt>, retry: Attempt,
                        later: seq<Attempt>)
    requires Holds(file, records) && AllValid(records)
    requires ValidAttempts([a] + between + [retry] + later)
    requires 0 < a.written && 0 < retry.written && a.record.requestId == retry.record.requestId
    ensures !exists rs :: Loads(file + Written([a] + between + [retry] + later), rs)
  {
    hide Holds, ValidRecord, MarkerBytes, MarkerLine, Written, DistinctIds, ValidAttempts;
    var run := [a] + between + [retry] + later;
    RunReloadsExactly(file, records, run);
    assert run[0] == a && run[|between| + 1] == retry;
    if NoFragments(run) {
      var tail := between + [retry] + later;
      assert run[1..] == tail;
      WholeHas(tail, |between|);
      var k :| 0 <= k < |Whole(tail)| && Whole(tail)[k] == retry.record;
      var held := records + Whole(run);
      assert Whole(run) == [a.record] + Whole(tail);
      assert held[|records|] == a.record && held[|records| + 1 + k] == retry.record;
      SameIdTwice(held, |records|, |records| + 1 + k);
    }
  }

  lemma SameIdTwice(records: seq<TargetRecord>, i: nat, j: nat)
    requires i < j < |records| && records[i].requestId == records[j].requestId
    ensures !DistinctIds(records)
  {
  }

  lemma {:induction false} WholeHas(attempts: seq<Attempt>, k: nat)
    requires k < |attempts| && IsWhole(attempts[k])
    ensures attempts[k].record in Whole(attempts)
  {
    hide IsWhole;
    if k > 0 {
      WholeHas(attempts[1..], k - 1);
    }
  }

  lemma {:induction false} CleanIsAcknowledged(attempts: seq<Attempt>)
    requires ValidAttempts(attempts)
    ensures |Acknowledged(attempts)| <= |Whole(attempts)|
    ensures Clean(attempts) <==> NoFragments(attempts) && |Acknowledged(attempts)| == |Whole(attempts)|
    ensures Clean(attempts) ==> Acknowledged(attempts) == Whole(attempts)
  {
    hide ValidRecord, MarkerBytes;
    if attempts != [] {
      var a, later := attempts[0], attempts[1..];
      CleanIsAcknowledged(later);
      assert Clean(attempts) <==> (a.written == 0 || a.durable) && Clean(later);
      assert NoFragments(attempts) <==> (a.written == 0 || IsWhole(a)) && NoFragments(later);
    }
  }

  /** The file's lines are the records in memory exactly when every failed append left nothing behind, whether or not
      the ledger has been marked invalid. */
  lemma AgreesExactly(ledger: TargetLedger)
    requires ledger.Valid()
    ensures Holds(ledger.disk.Contents(), ledger.records) <==> Clean(ledger.attempts)
    ensures !ledger.invalid ==> Clean(ledger.attempts)
  {
    hide SplitLines, ValidRecord, MarkerBytes, MarkerLine, Written, Whole, Acknowledged, DistinctIds, NoFragments;
    RunHoldsExactly(ledger.initial, ledger.loaded, ledger.attempts);
    CleanIsAcknowledged(ledger.attempts);
    if NoFragments(ledger.attempts) && Holds(ledger.disk.Contents(), ledger.records) {
      SameMarkers(ledger.records, ledger.loaded + Whole(ledger.attempts));
    }
  }

  /** With whole lines whose flush failed, the file is ahead of memory by exactly those. */
  lemma UnsyncedFileIsAhead(ledger: TargetLedger)
    requires ledger.Valid() && NoFragments(ledger.attempts)
    ensures var held := ledger.loaded + Whole(ledger.attempts);
      && Holds(ledger.disk.Contents(), held)
      && (forall r | r in ledger.records :: r in held)
      && (held == ledger.records <==> Clean(ledger.attempts))
  {
    hide SplitLines, ValidRecord, MarkerBytes, MarkerLine, Written, Whole, Acknowledged, DistinctIds, NoFragments;
    RunHoldsExactly(ledger.initial, ledger.loaded, ledger.attempts);
    CleanIsAcknowledged(ledger.attempts);
    AcknowledgedIsWhole(ledger.attempts);
  }

  lemma {:induction false} AcknowledgedIsWhole(attempts: seq<Attempt>)
    requires ValidAttempts(attempts)
    ensures forall r | r in Acknowledged(attempts) :: r in Whole(attempts)
  {
    hide ValidRecord, MarkerBytes;
    if attempts != [] {
      AcknowledgedIsWhole(attempts[1..]);
    }
  }

  /** A run that was never marked invalid, or whose failures left nothing behind, reloads exactly within the size limit;
      a run with a torn line or a twice-written id never does. */
  lemma LedgerReloadsExactly(ledger: TargetLedger)
    requires ledger.Valid()
    ensures (exists rs :: Loads(ledger.disk.Contents(), rs))
       <==> && NoFragments(ledger.attempts) && DistinctIds(ledger.loaded + Whole(ledger.attempts))
            && |ledger.loaded + Whole(ledger.attempts)| <= MAX_RECORDS && |ledger.disk.Contents()| <= MAX_LEDGER_BYTES
    ensures Clean(ledger.attempts) ==>
      ((exists rs :: Loads(ledger.disk.Contents(), rs)) <==> |ledger.disk.Contents()| <= MAX_LEDGER_BYTES)
    ensures forall rs :: Loads(ledger.disk.Contents(), rs) ==> rs == ledger.loaded + Whole(ledger.attempts)
  {
    hide Holds, ValidRecord, MarkerBytes, MarkerLine, Written, Whole, Acknowledged, DistinctIds, NoFragments, Clean, Loads;
    RunReloadsExactly(ledger.initial, ledger.loaded, ledger.attempts);
    assert ledger.disk.Contents() == ledger.initial + Written(ledger.attempts);
    CleanIsAcknowledged(ledger.attempts);
  }

  /** The file is the canonical encodings of the records in memory exactly when it was opened without a carriage return
      and every failed append left nothing behind; in particular while a ledger opened so is not invalid. */
  lemma FileIsEncodings(ledger: TargetLedger)
    requires ledger.Valid()
    ensures ledger.disk.Contents() == Lines(ledger.records) <==> CR !in ledger.initial && Clean(ledger.attempts)
    ensures !ledger.invalid && CR !in ledger.initial ==> ledger.disk.Contents() == Lines(ledger.records)
  {
    hide Holds, ValidRecord, MarkerBytes, MarkerLine, Written, Acknowledged, DistinctIds, Clean, Lines;
    AgreesExactly(ledger);
    NoReturns(ledger.attempts);
    LinesHold(ledger.records);
    if Holds(ledger.disk.Contents(), ledger.records) {
      HoldsExactly(ledger.disk.Contents(), ledger.records);
    }
  }

  lemma {:induction false} NoReturns(attempts: seq<Attempt>)
    requires ValidAttempts(attempts)
    ensures CR !in Written(attempts)
  {
    hide ValidRecord, MarkerBytes;
    if attempts != [] {
      NoReturns(attempts[1..]);
      MarkerBytesAreTame(attempts[0].record);
    }
  }

  lemma {:induction false} LinesHold(records: seq<TargetRecord>)
    requires AllValid(records)
    ensures Holds(Lines(records), records)
  {
    hide SplitLines, ValidRecord, MarkerBytes;
    if records == [] {
      SplitNothing();
    } else {
      var r, rest := records[0], records[1..];
      LinesHold(rest);
      HoldsAppend([], [], r) by { SplitNothing(); }
      SplitAppend(MarkerLine(r), Lines(rest));
      assert [] + MarkerLine(r) == MarkerLine(r) && [] + [r] == [r];
      assert Markers(records) == Markers([r]) + Markers(rest);
    }
  }

  /** A file written elsewhere with carriage returns is accepted although it is not the encodings of its records. */
  lemma CarriageReturnsAreAccepted(r: TargetRecord)
    requires ValidRecord(r) && r.responseNs <= P.MAX_MONOTONIC_NS
    ensures var file := MarkerBytes(r) + [CR, LF]; Loads(file, [r]) && file != Lines([r])
  {
    hide MarkerBytes, ValidRecord;
    MarkerBytesAreTame(r);
    var line := MarkerBytes(r);
    var file := line + [CR, LF];
    assert forall j | 0 <= j < |line| :: file[j] == line[j];
    LineEndIs(file, |line|);
    SplitStep(file);
    assert file[|line|..] == [CR, LF] && file[..|line|] == line && LineWidth(file) == |file|;
    assert file[|file|..] == [];
    SplitNothing();
    hide SplitLines;
    assert Markers([r]) == [line];
    assert file[|line|] == CR;
    HoldsExactly(file, [r]);
  }
}
