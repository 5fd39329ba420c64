/** The newest log after a crash, from its bytes (db/db_impl.cc RecoverLogFile,
    db/log_reader.cc, db/write_batch.cc): a file torn at any byte replays as the log
    without its last few batches, each batch whole. */
module LogReplay {
  import opened Format
  import opened Fixed
  import opened Slices
  import opened History
  import opened Database
  import opened Recovery
  import opened WriteBatches
  import L = LogFormat
  import R = LogReader

  /** A write batch as it was logged. */
  datatype Logged = Logged(first: Long, calls: seq<Call>)

  predicate FitsLog(b: Logged) {
    |b.calls| < TWO32 && forall c :: c in b.calls ==> Fits(c)
  }

  /** Its bytes: sequence number, count, operations. */
  ghost predicate Encodes(rep: Bytes, b: Logged) {
    && |rep| >= HEADER && Unfixed64(rep[..8]) == b.first
    && Unfixed32(rep[8..12]) == |b.calls| % TWO32 && rep[HEADER..] == Data(b.calls)
  }

  ghost predicate EncodesAll(reps: seq<Bytes>, bs: seq<Logged>) {
    |reps| == |bs| && forall i :: 0 <= i < |bs| ==> Encodes(reps[i], bs[i]) && FitsLog(bs[i])
  }

  function RecordOf(rank: Bytes -> UserKey, b: Logged): Record {
    Record(b.first, OpsOf(rank, b.calls))
  }

  function RecordsOf(rank: Bytes -> UserKey, bs: seq<Logged>): seq<Record> {
    seq(|bs|, i requires 0 <= i < |bs| => RecordOf(rank, bs[i]))
  }

  /** WriteBatchInternal::SetContents and InsertInto, for one log record. */
  method ReplayBatch(rep: Bytes, mem: seq<Entry>, rank: Bytes -> UserKey, ghost b: Logged)
    returns (mem': seq<Entry>, r: Record)
    requires Encodes(rep, b) && FitsLog(b)
    ensures r == RecordOf(rank, b) && mem' == InsertAll(mem, EntriesOf(r))
  {
    var batch := new WriteBatch();
    batch.rep := rep;
    batch.IsRecord(rank, b.calls);
    var calls, ok := batch.Iterate();
    r := Record(batch.Sequence(), OpsOf(rank, calls));
    mem' := InsertOps(mem, r.ops, r.first);
  }

  /** The log records of batches, one after the other. */
  method ReplayAll(reps: seq<Bytes>, rank: Bytes -> UserKey, ghost bs: seq<Logged>)
    returns (records: seq<Record>, mem: seq<Entry>)
    requires EncodesAll(reps, bs)
    ensures records == RecordsOf(rank, bs) && mem == MemOf(records)
  {
    records, mem := [], [];
    for i := 0 to |reps|
      invariant |records| == i && mem == MemOf(records)
      invariant forall j :: 0 <= j < i ==> records[j] == RecordOf(rank, bs[j])
    {
      var r;
      mem, r := ReplayBatch(reps[i], mem, rank, bs[i]);
      MemOfAppend(records, r);
      records := records + [r];
    }
  }

  lemma FirstOf(reps: seq<Bytes>, bs: seq<Logged>, rank: Bytes -> UserKey, n: nat)
    requires EncodesAll(reps, bs) && n <= |bs|
    ensures EncodesAll(reps[..n], bs[..n]) && RecordsOf(rank, bs[..n]) == RecordsOf(rank, bs)[..n]
  {
  }

  /** RecoverLogFile, of bytes a log of these batches begins with: the batches wholly
      there, in order, and the memtable they make. */
  method ReplayLog(file: Bytes, crc: L.Checksum, checksum: bool, rank: Bytes -> UserKey,
                   ghost reps: seq<Bytes>, ghost bs: seq<Logged>)
    returns (records: seq<Record>, mem: seq<Entry>)
    requires EncodesAll(reps, bs) && file <= L.FileOf(crc, L.Fragments(reps))
    ensures |records| <= |bs| && records == RecordsOf(rank, bs)[..|records|] && mem == MemOf(records)
    ensures forall k :: 0 <= k < |bs| ==> (k < |records| <==> R.InFile(crc, file, reps, k))
  {
    var read, reports := R.ReadAll(file, crc, checksum, reps);
    FirstOf(reps, bs, rank, |read|);
    records, mem := ReplayAll(read, rank, bs[..|read|]);
  }

  /** Batches written to the newest log, which is then torn at any byte: replaying it is
      replaying the log of the crash step, which loses whole batches at its end, and
      none if nothing was torn. */
  method WriteTearReplay(disk: Disk, reps: seq<Bytes>, ghost bs: seq<Logged>, rank: Bytes -> UserKey,
                         crc: L.Checksum, checksum: bool, torn: nat)
    returns (records: seq<Record>, mem: seq<Entry>, ghost lost: nat)
    requires EncodesAll(reps, bs) && disk.logs != [] && disk.logs[|disk.logs| - 1].records == RecordsOf(rank, bs)
    ensures CanLose(disk, lost) && (torn == 0 ==> lost == 0)
    ensures TornLogs(disk.logs, lost)[|disk.logs| - 1].records == records && mem == MemOf(records)
  {
    var read, reports := R.WriteAndRead(crc, checksum, reps, torn);
    FirstOf(reps, bs, rank, |read|);
    records, mem := ReplayAll(read, rank, bs[..|read|]);
    lost := |reps| - |read|;
  }
}
