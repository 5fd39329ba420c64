/** log::Reader (db/log_reader.cc), reading from the start of the file. */
module LogReader {
  import opened Format
  import opened LogFormat
  import opened Sequences
  import opened Tables
  import W = LogWriter

  const EOF: nat := 5
  const BAD_RECORD: nat := 6

  /** What a reader of the first m bytes of a well-cut file knows of its place: block
      `block`, offset `o`. */
  ghost predicate Standing(file: Bytes, buffer: Bytes, end: nat, eof: bool, block: nat, o: Offset) {
    && |buffer| + block * BLOCK + o == end <= |file|
    && buffer == file[end - |buffer|..end]
    && if eof then end == |file| < (block + 1) * BLOCK
       else end == (block + 1) * BLOCK || (o == 0 && end == block * BLOCK)
  }

  /** How many fragments have been read, and what is still to come of the record. */
  datatype Trail = Trail(i: nat, rest: Bytes)

  ghost predicate FragmentInFile(crc: Checksum, file: Bytes, fs: seq<Fragment>, i: nat)
    requires WellCut(fs)
  {
    i < |fs| && WellCut(fs[..i + 1]) && |FileOf(crc, fs[..i + 1])| <= |file|
  }

  class Reader {
    const crc: Checksum
    const checksum: bool
    const file: Bytes
    var buffer: Bytes
    var eof: bool
    var end: nat                          // end_of_buffer_offset_
    var reports: seq<(nat, string)>

    ghost predicate Valid()
      reads this
    {
      |buffer| <= end <= |file| && |buffer| <= BLOCK && buffer == file[end - |buffer|..end]
    }

    constructor (file: Bytes, crc: Checksum, checksum: bool)
      ensures Valid() && reports == [] && this.file == file && this.crc == crc && this.checksum == checksum
      ensures Standing(file, buffer, end, eof, 0, 0)
    {
      this.file, this.crc, this.checksum := file, crc, checksum;
      buffer, eof, end, reports := [], false, 0, [];
    }

    /** Reads the next block into the empty-enough buffer. */
    method Refill()
      requires Valid() && !eof
      modifies `buffer, `eof, `end
      ensures Valid() && end == old(end) + |buffer| && (eof ==> end == |file|)
      ensures |buffer| == if |file| - old(end) < BLOCK then |file| - old(end) else BLOCK
      ensures eof <==> |buffer| < BLOCK
    {
      var n := if |file| - end < BLOCK then |file| - end else BLOCK;
      buffer := file[end..end + n];
      end := end + n;
      if |buffer| < BLOCK {
        eof := true;
      }
    }

    method ReportCorruption(bytes: nat, reason: string)
      modifies `reports
      ensures reports == old(reports) + [(bytes, reason)]
    {
      reports := reports + [(bytes, reason)];
    }

    /** The reader is past the first i fragments of a log cut off after this file. */
    ghost predicate PastFragments(fs: seq<Fragment>, i: nat)
      reads this
    {
      && WellCut(fs) && i <= |fs| && WellCut(fs[..i]) && file <= FileOf(crc, fs)
      && (Standing(file, buffer, end, eof, BlocksOf(fs[..i]), OffsetOf(fs[..i]))
          || (BLOCK - OffsetOf(fs[..i]) < HEADER && Standing(file, buffer, end, eof, BlocksOf(fs[..i]) + 1, 0)))
    }

    /** The next fragment is wholly in the file. */
    ghost predicate NextInFile(fs: seq<Fragment>, i: nat)
      requires WellCut(fs)
    {
      FragmentInFile(crc, file, fs, i)
    }

    lemma RefillStands(fs: seq<Fragment>, i: nat, buffer': Bytes, end': nat, eof': bool)
      requires Valid() && PastFragments(fs, i) && !eof && |buffer| < HEADER
      requires end' == end + |buffer'| <= |file| && buffer' == file[end..end'] && (eof' ==> end' == |file|)
      requires |buffer'| <= BLOCK && (eof' <==> |buffer'| < BLOCK)
      ensures var o := OffsetOf(fs[..i]); var block := BlocksOf(fs[..i]);
              Standing(file, buffer', end', eof', block, o)
              || (BLOCK - o < HEADER && Standing(file, buffer', end', eof', block + 1, 0))
    {
      var o, block := OffsetOf(fs[..i]), BlocksOf(fs[..i]);
      if Standing(file, buffer, end, eof, block, o) {
        if end == (block + 1) * BLOCK {
          assert Standing(file, buffer', end', eof', block + 1, 0);
        } else {
          assert Standing(file, buffer', end', eof', block, o);
        }
      } else {
        assert Standing(file, buffer', end', eof', block + 1, 0);
      }
    }

    /** With a header's worth of bytes in the buffer, the reader stands where the next
        fragment starts. */
    lemma StandsAtNext(fs: seq<Fragment>, i: nat)
      requires Valid() && PastFragments(fs, i) && |buffer| >= HEADER
      ensures i < |fs| && WellCut(fs[..i + 1])
      ensures Standing(file, buffer, end, eof, BlocksOf(fs[..i + 1]), Start(OffsetOf(fs[..i])))
    {
      if i == |fs| {
        assert fs[..i] == fs;
        OffsetIsLength(crc, fs);
      } else {
        FragmentAt(crc, fs, i);
      }
    }

    lemma EofHere(fs: seq<Fragment>, i: nat)
      requires Valid() && PastFragments(fs, i) && |buffer| < HEADER && eof
      ensures !NextInFile(fs, i)
    {
      if i < |fs| { FragmentAt(crc, fs, i); }
    }

    ghost function Left(): nat
      requires Valid()
      reads this
    {
      |file| - end + |buffer|
    }

    /** The reader's answer when it is past i fragments of a log: the next one if all of
        it is in the file, else the end of file; and never a report. */
    ghost predicate Answers(fs: seq<Fragment>, i: nat, recordType: nat, fragment: Bytes)
      requires WellCut(fs) && i <= |fs|
      reads this
    {
      if NextInFile(fs, i) then recordType == fs[i].kind && fragment == fs[i].payload && PastFragments(fs, i + 1)
      else recordType == EOF
    }

    /** What a physical read hands out on any bytes: with checksums on, a fragment that
        stands in the file as the writer would have put it there. */
    ghost predicate Handed(recordType: nat, fragment: Bytes, found: bool, before: nat)
      requires Valid()
      reads this
    {
      && Left() <= before
      && (!found ==> recordType == EOF || (recordType == BAD_RECORD && Left() < before))
      && (found ==> recordType < 256 && |fragment| < 0x1_0000 && Left() + HEADER + |fragment| <= before)
      && (found && checksum ==>
            var at := end - |buffer| - HEADER - |fragment|;
            0 <= at && file[at..end - |buffer|] == Physical(crc, recordType as byte, fragment))
    }

    /** The part of ReadPhysicalRecord that has a header to parse. */
    method ParseHeader(ghost fs: seq<Fragment>, ghost i: nat)
      returns (recordType: nat, fragment: Bytes, ghost found: bool)
      requires Valid() && |buffer| >= HEADER
      modifies `buffer, `reports
      ensures Valid() && Handed(recordType, fragment, found, old(Left()))
      ensures old(PastFragments(fs, i)) ==> Answers(fs, i, recordType, fragment) && reports == old(reports)
    {
      fragment, found := [], false;
      if PastFragments(fs, i) { Expected(fs, i); }
      var length := LengthIn(buffer);
      recordType := buffer[6] as nat;
      if HEADER + length > |buffer| {
        var dropSize := |buffer|;
        buffer := [];
        if !eof {
          ReportCorruption(dropSize, "bad record length");
          return BAD_RECORD, [], false;
        }
        return EOF, [], false;
      }
      if recordType == 0 && length == 0 {
        buffer := [];
        return BAD_RECORD, [], false;
      }
      if checksum && !ChecksumOk(crc, buffer[..HEADER + length]) {
        var dropSize := |buffer|;
        buffer := [];
        ReportCorruption(dropSize, "checksum mismatch");
        return BAD_RECORD, [], false;
      }
      fragment := TakeFragment(length);
      found := true;
    }

    /** remove_prefix, with the payload as the result. */
    method TakeFragment(length: nat) returns (fragment: Bytes)
      requires Valid() && |buffer| >= HEADER && LengthIn(buffer) == length && HEADER + length <= |buffer|
      requires checksum ==> ChecksumOk(crc, buffer[..HEADER + length])
      modifies `buffer
      ensures Valid() && buffer == old(buffer)[HEADER + length..] && fragment == old(buffer)[..HEADER + length][HEADER..]
      ensures Handed(old(buffer)[6] as nat, fragment, true, old(Left()))
    {
      var header := buffer[..HEADER + length];
      if checksum { ChecksumMeans(crc, header); }
      TakeSlice(file, buffer, end, HEADER + length);
      buffer := buffer[HEADER + length..];
      fragment := header[HEADER..];
    }

    /** What the parse finds when the reader is past i fragments of a log. */
    lemma Expected(fs: seq<Fragment>, i: nat)
      requires Valid() && PastFragments(fs, i) && |buffer| >= HEADER
      ensures i < |fs| && WellCut(fs[..i + 1]) && Proper(fs[i])
      ensures LengthIn(buffer) == |fs[i].payload| && buffer[6] as nat == fs[i].kind
      ensures var n := HEADER + |fs[i].payload|;
              if |buffer| >= n then
                ChecksumOk(crc, buffer[..n]) && buffer[..n][HEADER..] == fs[i].payload && NextInFile(fs, i)
                && Standing(file, buffer[n..], end, eof, BlocksOf(fs[..i + 1]), OffsetOf(fs[..i + 1]))
              else eof && !NextInFile(fs, i)
    {
      StandsAtNext(fs, i);
      HeaderHere(crc, file, fs, i, buffer, end, eof);
      HeaderOf(crc, fs[i].kind as byte, fs[i].payload);
    }

    method ReadPhysicalRecord(ghost fs: seq<Fragment>, ghost i: nat)
      returns (recordType: nat, fragment: Bytes, ghost found: bool)
      requires Valid()
      modifies `buffer, `eof, `end, `reports
      ensures Valid() && Handed(recordType, fragment, found, old(Left()))
      ensures old(PastFragments(fs, i)) ==> Answers(fs, i, recordType, fragment) && reports == old(reports)
    {
      var some := FindHeader(fs, i);
      if !some {
        buffer := [];
        return EOF, [], false;
      }
      recordType, fragment, found := ParseHeader(fs, i);
    }

    /** Refills until a header's worth of bytes is there, or the file is at its end. */
    method FindHeader(ghost fs: seq<Fragment>, ghost i: nat) returns (some: bool)
      requires Valid()
      modifies `buffer, `eof, `end
      ensures Valid() && Left() <= old(Left()) && (some <==> |buffer| >= HEADER)
      ensures old(PastFragments(fs, i)) ==> PastFragments(fs, i) && (!some ==> !NextInFile(fs, i))
    {
      ghost var past := PastFragments(fs, i);
      while |buffer| < HEADER
        invariant Valid() && Left() <= old(Left()) && (past ==> PastFragments(fs, i))
        decreases !eof, |file| - end
      {
        if eof {
          if past { EofHere(fs, i); }
          return false;
        }
        RefillPast(fs, i);
      }
      return true;
    }

    /** A refill on the way to the next fragment. */
    method RefillPast(ghost fs: seq<Fragment>, ghost i: nat)
      requires Valid() && !eof && |buffer| < HEADER
      modifies `buffer, `eof, `end
      ensures Valid() && Left() <= old(Left()) && (eof || end > old(end))
      ensures old(PastFragments(fs, i)) ==> PastFragments(fs, i)
    {
      if PastFragments(fs, i) {
        var n := if |file| - end < BLOCK then |file| - end else BLOCK;
        RefillStands(fs, i, file[end..end + n], end + n, n < BLOCK);
      }
      Refill();
    }

    // ---- records ----

    ghost predicate PastRecords(rs: seq<Bytes>, k: nat)
      reads this
    {
      k <= |rs| && Fragments(rs[..k]) <= Fragments(rs) && PastFragments(Fragments(rs), |Fragments(rs[..k])|)
    }

    ghost predicate RecordInFile(rs: seq<Bytes>, k: nat) {
      InFile(crc, file, rs, k)
    }

    ghost predicate Inside(rs: seq<Bytes>, k: nat, i: nat, rest: Bytes, begin: bool)
      reads this
    {
      PastFragments(Fragments(rs), i) && Within(rs, k, i, rest, begin)
    }

    /** The reader is part way through record k, or past the last one. */
    ghost predicate OnTrail(rs: seq<Bytes>, k: nat, trail: Trail, scratch: Bytes, inFragmentedRecord: bool)
      reads this
    {
      k <= |rs|
      && if k == |rs| then PastFragments(Fragments(rs), trail.i) && trail.i == |Fragments(rs)|
         else Inside(rs, k, trail.i, trail.rest, !inFragmentedRecord)
              && scratch + trail.rest == rs[k] && (!inFragmentedRecord ==> scratch == [])
    }

    /** What each type of fragment then means. */
    ghost predicate TrailOn(rs: seq<Bytes>, k: nat, scratch: Bytes, inFragmentedRecord: bool,
                            recordType: nat, fragment: Bytes, next: Trail)
      reads this
    {
      match recordType
      case 1 => !inFragmentedRecord && RecordInFile(rs, k) && fragment == rs[k] && PastRecords(rs, k + 1)
      case 2 => !inFragmentedRecord && OnTrail(rs, k, next, fragment, true)
      case 3 => inFragmentedRecord && OnTrail(rs, k, next, scratch + fragment, true)
      case 4 => inFragmentedRecord && RecordInFile(rs, k) && scratch + fragment == rs[k] && PastRecords(rs, k + 1)
      case 5 => !RecordInFile(rs, k)
      case _ => false
    }

    /** A physical record read on the trail. */
    method NextFragment(ghost rs: seq<Bytes>, ghost k: nat, ghost trail: Trail, ghost scratch: Bytes, ghost inFragmentedRecord: bool)
      returns (recordType: nat, fragment: Bytes, ghost found: bool, ghost next: Trail)
      requires Valid()
      modifies `buffer, `eof, `end, `reports
      ensures Valid() && Left() <= old(Left()) && (recordType != EOF ==> Left() < old(Left()))
      ensures StandsInFile((recordType, fragment))
      ensures old(OnTrail(rs, k, trail, scratch, inFragmentedRecord)) ==>
        reports == old(reports) && TrailOn(rs, k, scratch, inFragmentedRecord, recordType, fragment, next)
    {
      ghost var on := OnTrail(rs, k, trail, scratch, inFragmentedRecord);
      ghost var before := Left();
      recordType, fragment, found := ReadPhysicalRecord(Fragments(rs), trail.i);
      HandedStands(recordType, fragment, found, before);
      next := Trail(trail.i + 1, if |fragment| <= |trail.rest| then trail.rest[|fragment|..] else []);
      if on && k < |rs| {
        NextWithin(crc, file, rs, k, trail.i, trail.rest, !inFragmentedRecord);
        TrailStep(rs, k, trail, scratch, inFragmentedRecord, recordType, fragment);
      }
    }

    lemma TrailStep(rs: seq<Bytes>, k: nat, trail: Trail, scratch: Bytes, inFragmentedRecord: bool, recordType: nat, fragment: Bytes)
      requires k < |rs| && Within(rs, k, trail.i, trail.rest, !inFragmentedRecord)
      requires scratch + trail.rest == rs[k] && (!inFragmentedRecord ==> scratch == [])
      requires Answers(Fragments(rs), trail.i, recordType, fragment)
      ensures TrailOn(rs, k, scratch, inFragmentedRecord, recordType, fragment,
                      Trail(trail.i + 1, if |fragment| <= |trail.rest| then trail.rest[|fragment|..] else []))
    {
      NextWithin(crc, file, rs, k, trail.i, trail.rest, !inFragmentedRecord);
      if recordType != EOF {
        if fragment == trail.rest {
          TrailEnds(rs, k, trail.i + 1);
        } else {
          TrailGoesOn(rs, k, trail, scratch, fragment);
        }
      }
    }

    lemma TrailGoesOn(rs: seq<Bytes>, k: nat, trail: Trail, scratch: Bytes, fragment: Bytes)
      requires k < |rs| && scratch + trail.rest == rs[k] && fragment <= trail.rest
      requires PastFragments(Fragments(rs), trail.i + 1) && Within(rs, k, trail.i + 1, trail.rest[|fragment|..], false)
      ensures OnTrail(rs, k, Trail(trail.i + 1, trail.rest[|fragment|..]), scratch + fragment, true)
      ensures scratch == [] ==> scratch + fragment == fragment
    {
      var rest := trail.rest[|fragment|..];
      TakeFrom(scratch, trail.rest, fragment);
      assert (scratch + fragment) + rest == rs[k];
      assert Inside(rs, k, trail.i + 1, rest, false);
    }

    lemma TrailEnds(rs: seq<Bytes>, k: nat, n: nat)
      requires k < |rs| && n == |Fragments(rs[..k + 1])| && Fragments(rs[..k + 1]) <= Fragments(rs)
      requires PastFragments(Fragments(rs), n)
      ensures PastRecords(rs, k + 1)
    {
    }

    /** With checksums on, a fragment handed out stands in the file, header and all. */
    ghost predicate StandsInFile(p: Piece) {
      checksum && 1 <= p.0 <= 4 ==> exists at :: StandsAt(p, at)
    }

    ghost predicate StandsAt(p: Piece, at: nat) {
      p.0 < 256 && |p.1| < 0x1_0000 && at + 7 + |p.1| <= |file| && file[at..at + 7 + |p.1|] == Physical(crc, p.0 as byte, p.1)
    }

    lemma HandedStands(recordType: nat, fragment: Bytes, found: bool, before: nat)
      requires Valid() && Handed(recordType, fragment, found, before)
      ensures StandsInFile((recordType, fragment))
    {
      var at := end - |buffer| - HEADER - |fragment|;
      if found && checksum { assert StandsAt((recordType, fragment), at); }
    }

    /** ReadRecord: None at the end of the file. `pieces` are the fragments read, in turn;
        on any file, a record handed out is what the last of them hold: one full one, or
        a first, some middle ones and a last in a row. */
    method ReadRecord(ghost rs: seq<Bytes>, ghost k: nat) returns (r: Option<Bytes>, ghost pieces: seq<Piece>)
      requires Valid()
      modifies `buffer, `eof, `end, `reports
      ensures Valid() && (r.Some? ==> Left() < old(Left()))
      ensures old(PastRecords(rs, k)) ==>
        (if RecordInFile(rs, k) then r == Some(rs[k]) && PastRecords(rs, k + 1) else r == None) && reports == old(reports)
      ensures r.Some? ==> exists m :: 0 <= m < |pieces| && Whole(pieces[m..], r.value)
      ensures forall i :: 0 <= i < |pieces| ==> StandsInFile(pieces[i])
    {
      var scratch: Bytes, inFragmentedRecord := [], false;
      pieces := [];
      ghost var start := 0;
      ghost var log, trail := PastRecords(rs, k), Trail(0, []);
      if log {
        trail := Trail(|Fragments(rs[..k])|, if k < |rs| then rs[k] else []);
        if k < |rs| { StartsWithin(rs, k); } else { assert rs[..k] == rs; }
      }
      while true
        invariant Valid() && Left() <= old(Left())
        invariant log ==> reports == old(reports) && OnTrail(rs, k, trail, scratch, inFragmentedRecord)
        invariant InProgress(pieces, start, scratch, inFragmentedRecord)
        invariant forall i :: 0 <= i < |pieces| ==> StandsInFile(pieces[i])
        decreases Left()
      {
        var done;
        done, r, scratch, inFragmentedRecord, trail, pieces, start := ReadOn(rs, k, trail, scratch, inFragmentedRecord, pieces, start);
        if done {
          return;
        }
      }
    }

    /** One turn of the loop: a fragment read, and considered. */
    method ReadOn(ghost rs: seq<Bytes>, ghost k: nat, ghost trail: Trail, scratch: Bytes, inFragmentedRecord: bool,
                  ghost pieces: seq<Piece>, ghost start: nat)
      returns (done: bool, r: Option<Bytes>, scratch': Bytes, inFragmentedRecord': bool, ghost trail': Trail,
               ghost pieces': seq<Piece>, ghost start': nat)
      requires Valid() && InProgress(pieces, start, scratch, inFragmentedRecord)
      requires forall i :: 0 <= i < |pieces| ==> StandsInFile(pieces[i])
      modifies `buffer, `eof, `end, `reports
      ensures Valid() && Left() <= old(Left()) && (!done || r.Some? ==> Left() < old(Left()))
      ensures old(OnTrail(rs, k, trail, scratch, inFragmentedRecord)) ==> reports == old(reports)
      ensures old(OnTrail(rs, k, trail, scratch, inFragmentedRecord)) && !done ==> OnTrail(rs, k, trail', scratch', inFragmentedRecord')
      ensures old(OnTrail(rs, k, trail, scratch, inFragmentedRecord)) && done ==>
        if RecordInFile(rs, k) then r == Some(rs[k]) && PastRecords(rs, k + 1) else r == None
      ensures !done ==> InProgress(pieces', start', scratch', inFragmentedRecord')
      ensures done && r.Some? ==> exists m :: 0 <= m < |pieces'| && Whole(pieces'[m..], r.value)
      ensures forall i :: 0 <= i < |pieces'| ==> StandsInFile(pieces'[i])
    {
      var recordType, fragment;
      ghost var found;
      recordType, fragment, found, trail' := NextFragment(rs, k, trail, scratch, inFragmentedRecord);
      done, r, scratch', inFragmentedRecord' := Consider(recordType, fragment, scratch, inFragmentedRecord);
      pieces', start' := pieces + [(recordType, fragment)], if recordType == FIRST then |pieces| else start;
      PieceOn(pieces, start, scratch, inFragmentedRecord, recordType, fragment, done, r, scratch', inFragmentedRecord', start');
    }

    /** Fragments a writer puts in this order. */
    static predicate InSequence(recordType: nat, inFragmentedRecord: bool) {
      recordType == EOF
      || if inFragmentedRecord then recordType == MIDDLE || recordType == LAST else recordType == FULL || recordType == FIRST
    }

    /** The switch of ReadRecord: what a fragment does to the record in progress. */
    method Consider(recordType: nat, fragment: Bytes, scratch: Bytes, inFragmentedRecord: bool)
      returns (done: bool, r: Option<Bytes>, scratch': Bytes, inFragmentedRecord': bool)
      modifies `reports
      ensures Considered(recordType, fragment, scratch, inFragmentedRecord, done, r, scratch', inFragmentedRecord')
      ensures recordType == EOF ==> done && r == None
      ensures recordType == FULL ==> done && r == Some(fragment)
      ensures recordType == FIRST ==> !done && scratch' == fragment && inFragmentedRecord'
      ensures recordType == MIDDLE && inFragmentedRecord ==> !done && scratch' == scratch + fragment && inFragmentedRecord'
      ensures recordType == LAST && inFragmentedRecord ==> done && r == Some(scratch + fragment)
      ensures done ==> recordType != BAD_RECORD && (r.Some? ==> recordType != EOF)
      ensures !done ==> recordType != EOF
      ensures InSequence(recordType, inFragmentedRecord) ==> reports == old(reports)
    {
      done, r, scratch', inFragmentedRecord' := false, None, scratch, inFragmentedRecord;
      if recordType == FULL {
        if inFragmentedRecord && scratch != [] {
          ReportCorruption(|scratch|, "partial record without end(1)");
        }
        done, r := true, Some(fragment);
      } else if recordType == FIRST {
        if inFragmentedRecord && scratch != [] {
          ReportCorruption(|scratch|, "partial record without end(2)");
        }
        scratch', inFragmentedRecord' := fragment, true;
      } else if recordType == MIDDLE {
        if !inFragmentedRecord {
          ReportCorruption(|fragment|, "missing start of fragmented record(1)");
        } else {
          scratch' := scratch + fragment;
        }
      } else if recordType == LAST {
        if !inFragmentedRecord {
          ReportCorruption(|fragment|, "missing start of fragmented record(2)");
        } else {
          done, r := true, Some(scratch + fragment);
        }
      } else if recordType == EOF {
        done := true;
      } else if recordType == BAD_RECORD {
        if inFragmentedRecord {
          ReportCorruption(|scratch|, "error in middle of record");
          scratch', inFragmentedRecord' := [], false;
        }
      } else {
        ReportCorruption(|fragment| + if inFragmentedRecord then |scratch| else 0, "unknown record type");
        scratch', inFragmentedRecord' := [], false;
      }
    }
  }

  // ---- records out of fragments ----

  /** A physical read: its type, and its payload. */
  type Piece = (nat, Bytes)

  function Payloads(ps: seq<Piece>): Bytes {
    if ps == [] then [] else Payloads(ps[..|ps| - 1]) + ps[|ps| - 1].1
  }

  /** A first fragment and middle ones. */
  ghost predicate Row(ps: seq<Piece>, s: Bytes) {
    |ps| > 0 && ps[0].0 == 2 && (forall i :: 0 < i < |ps| ==> ps[i].0 == 3) && Payloads(ps) == s
  }

  /** A whole record: one full fragment, or a first, middle ones and a last. */
  ghost predicate Whole(ps: seq<Piece>, r: Bytes) {
    || (|ps| == 1 && ps[0] == (1, r))
    || (|ps| > 1 && ps[0].0 == 2 && ps[|ps| - 1].0 == 4 && (forall i :: 0 < i < |ps| - 1 ==> ps[i].0 == 3) && Payloads(ps) == r)
  }

  ghost predicate InProgress(pieces: seq<Piece>, start: nat, scratch: Bytes, inFragmentedRecord: bool) {
    inFragmentedRecord ==> start < |pieces| && Row(pieces[start..], scratch)
  }

  /** What the fragment does to the record in progress, and what it completes. */
  ghost predicate Considered(recordType: nat, fragment: Bytes, scratch: Bytes, inFragmentedRecord: bool,
                             done: bool, r: Option<Bytes>, scratch': Bytes, inFragmentedRecord': bool) {
    if recordType == 1 then done && r == Some(fragment) && scratch' == scratch && inFragmentedRecord' == inFragmentedRecord
    else if recordType == 2 then !done && r == None && scratch' == fragment && inFragmentedRecord'
    else if recordType == 3 then
      !done && r == None && scratch' == (if inFragmentedRecord then scratch + fragment else scratch)
      && inFragmentedRecord' == inFragmentedRecord
    else if recordType == 4 then
      done == inFragmentedRecord && r == (if inFragmentedRecord then Some(scratch + fragment) else None)
      && scratch' == scratch && inFragmentedRecord' == inFragmentedRecord
    else if recordType == 5 then done && r == None && scratch' == scratch && inFragmentedRecord' == inFragmentedRecord
    else !done && r == None && !inFragmentedRecord'
  }

  lemma RowOn(ps: seq<Piece>, s: Bytes, p: Piece)
    requires Row(ps, s)
    ensures p.0 == 3 ==> Row(ps + [p], s + p.1)
    ensures p.0 == 4 ==> Whole(ps + [p], s + p.1)
  {
    assert (ps + [p])[..|ps|] == ps;
  }

  lemma OnePiece(p: Piece)
    ensures Payloads([p]) == p.1
  {
    assert [p][..0] == [];
    assert Payloads([p]) == Payloads([]) + p.1;
  }

  /** With one fragment more: the record in progress, or the whole one. */
  lemma PieceOn(pieces: seq<Piece>, start: nat, scratch: Bytes, inFragmentedRecord: bool, recordType: nat, fragment: Bytes,
                done: bool, r: Option<Bytes>, scratch': Bytes, inFragmentedRecord': bool, start': nat)
    requires InProgress(pieces, start, scratch, inFragmentedRecord) && start' == (if recordType == 2 then |pieces| else start)
    requires Considered(recordType, fragment, scratch, inFragmentedRecord, done, r, scratch', inFragmentedRecord')
    ensures var all := pieces + [(recordType, fragment)];
            !done ==> InProgress(all, start', scratch', inFragmentedRecord')
    ensures var all := pieces + [(recordType, fragment)];
            r.Some? ==> exists m :: 0 <= m < |all| && Whole(all[m..], r.value)
  {
    var p: Piece := (recordType, fragment);
    var all := pieces + [p];
    assert all[|pieces|..] == [p];
    OnePiece(p);
    if inFragmentedRecord {
      assert all[start..] == pieces[start..] + [p];
      RowOn(pieces[start..], scratch, p);
    }
  }

  /** Inside record k: past i fragments, with `rest` of the record still to come. */
  ghost predicate Within(rs: seq<Bytes>, k: nat, i: nat, rest: Bytes, begin: bool) {
    var fs := Fragments(rs);
    && k < |rs| && i <= |fs| && WellCut(fs[..i])
    && Fragments(rs[..k + 1]) <= fs
    && fs[..i] + Split(OffsetOf(fs[..i]), rest, begin) == Fragments(rs[..k + 1])
  }

  lemma StartsWithin(rs: seq<Bytes>, k: nat)
    requires k < |rs|
    ensures Within(rs, k, |Fragments(rs[..k])|, rs[k], true)
  {
    OneMoreRecord(rs, k);
    FragmentsPrefix(rs, k);
    FragmentsPrefix(rs, k + 1);
    Restore(Fragments(rs[..k]), Fragments(rs));
  }

  lemma NextInBoth(a: seq<Fragment>, b: seq<Fragment>, i: nat)
    requires i < |a| && a <= b
    ensures b[i] == a[i] && b[..i + 1] == a[..i + 1] && b[..i] + [a[i]] == b[..i + 1]
  {
  }

  /** The first of the fragments still to come. */
  lemma HeadWithin(crc: Checksum, rs: seq<Bytes>, k: nat, i: nat, rest: Bytes, begin: bool)
    requires Within(rs, k, i, rest, begin)
    ensures var fs, upTo := Fragments(rs), Fragments(rs[..k + 1]);
            && i < |upTo| <= |fs| && fs[i] == upTo[i] == Split(OffsetOf(fs[..i]), rest, begin)[0]
            && fs[..i + 1] == upTo[..i + 1] == fs[..i] + [fs[i]]
            && WellCut(fs[..i + 1])
  {
    var fs, upTo := Fragments(rs), Fragments(rs[..k + 1]);
    var next := Split(OffsetOf(fs[..i]), rest, begin);
    assert upTo[i] == next[0];
    NextInBoth(upTo, fs, i);
    CutPrefix(crc, upTo, i + 1);
  }

  /** The next fragment of a record, and what is left after it. */
  lemma NextWithin(crc: Checksum, file: Bytes, rs: seq<Bytes>, k: nat, i: nat, rest: Bytes, begin: bool)
    requires Within(rs, k, i, rest, begin)
    ensures i < |Fragments(rs)|
    ensures var f := Fragments(rs)[i];
            && f.payload <= rest
            && f.kind == (if f.payload == rest then (if begin then FULL else LAST) else if begin then FIRST else MIDDLE)
            && (if f.payload == rest then i + 1 == |Fragments(rs[..k + 1])| && Fragments(rs[..k + 1]) <= Fragments(rs)
                else Within(rs, k, i + 1, rest[|f.payload|..], false))
    ensures !FragmentInFile(crc, file, Fragments(rs), i) ==> !InFile(crc, file, rs, k)
    ensures Fragments(rs)[i].payload == rest ==> (FragmentInFile(crc, file, Fragments(rs), i) <==> InFile(crc, file, rs, k))
  {
    var fs, upTo := Fragments(rs), Fragments(rs[..k + 1]);
    HeadWithin(crc, rs, k, i, rest, begin);
    SplitOn(fs[..i], rest, begin, fs[i]);
    CutPrefix(crc, upTo, i + 1);
    if fs[i].payload == rest {
      assert fs[..i + 1] == upTo;
    }
  }

  lemma TakeFrom(a: Bytes, b: Bytes, c: Bytes)
    requires c <= b
    ensures (a + c) + b[|c|..] == a + b && (a == [] ==> a + c == c)
  {
    assert b == c + b[|c|..];
  }

  ghost predicate InFile(crc: Checksum, file: Bytes, rs: seq<Bytes>, k: nat) {
    k < |rs| && |FileOf(crc, Fragments(rs[..k + 1]))| <= |file|
  }

  /** A record in the file has every earlier one before it. */
  lemma EarlierInFile(crc: Checksum, file: Bytes, rs: seq<Bytes>, j: nat, k: nat)
    requires j <= k && InFile(crc, file, rs, k)
    ensures InFile(crc, file, rs, j)
  {
    var upTo := rs[..k + 1];
    FragmentsPrefix(upTo, j + 1);
    assert upTo[..j + 1] == rs[..j + 1];
    var a, b := Fragments(rs[..j + 1]), Fragments(upTo);
    Restore(a, b);
    CutPrefix(crc, b, |a|);
  }

  /** Every record of a log file, with the corruptions reported on the way: for any
      bytes a writer's file starts with, exactly the records wholly there, none reported. */
  method ReadAll(file: Bytes, crc: Checksum, checksum: bool, ghost rs: seq<Bytes>)
    returns (records: seq<Bytes>, reports: seq<(nat, string)>)
    ensures file <= FileOf(crc, Fragments(rs)) ==>
      && reports == [] && |records| <= |rs| && records == rs[..|records|]
      && forall k :: 0 <= k < |rs| ==> (k < |records| <==> InFile(crc, file, rs, k))
  {
    records := [];
    var reader := new Reader(file, crc, checksum);
    ghost var log, n := file <= FileOf(crc, Fragments(rs)), 0;
    if log { AtStart(rs); }
    while true
      invariant fresh(reader) && reader.Valid() && reader.file == file && reader.crc == crc
      invariant log ==> reader.reports == [] && n == |records| && reader.PastRecords(rs, n)
      invariant log ==> n <= |rs| && records == rs[..n]
      invariant log && n > 0 ==> InFile(crc, file, rs, n - 1)
      decreases reader.Left()
    {
      var r;
      ghost var pieces;
      r, pieces := reader.ReadRecord(rs, n);
      if r.None? {
        break;
      }
      if log { TakeOneMore(rs, n); }
      records := records + [r.value];
      n := n + 1;
    }
    reports := reader.reports;
    if log { FirstRecords(crc, file, rs, n); }
  }

  /** If the last record read is in the file and the next is not, exactly the records read are. */
  lemma FirstRecords(crc: Checksum, file: Bytes, rs: seq<Bytes>, n: nat)
    requires n <= |rs| && !InFile(crc, file, rs, n) && (n > 0 ==> InFile(crc, file, rs, n - 1))
    ensures forall k :: 0 <= k < |rs| ==> (k < n <==> InFile(crc, file, rs, k))
  {
    forall k | 0 <= k < |rs| ensures k < n <==> InFile(crc, file, rs, k) {
      if k < n { EarlierInFile(crc, file, rs, k, n - 1); }
      else if InFile(crc, file, rs, k) { EarlierInFile(crc, file, rs, n, k); }
    }
  }

  lemma AtStart(rs: seq<Bytes>)
    ensures Fragments(rs[..0]) == [] && Fragments(rs)[..0] == [] && OffsetOf([]) == BlocksOf([]) == 0
  {
  }

  lemma OneMoreRecord(rs: seq<Bytes>, k: nat)
    requires k < |rs|
    ensures Fragments(rs[..k + 1]) == Fragments(rs[..k]) + Split(OffsetOf(Fragments(rs[..k])), rs[k], true)
  {
    var init, last := rs[..k], rs[k];
    assert rs[..k + 1] == init + [last];
    FragmentsSnoc(init, last);
  }

  lemma Restore<T>(a: seq<T>, b: seq<T>)
    requires a <= b
    ensures b[..|a|] == a
  {
  }

  lemma {:induction false} FragmentsPrefix(rs: seq<Bytes>, k: nat)
    requires k <= |rs|
    ensures Fragments(rs[..k]) <= Fragments(rs)
  {
    if k < |rs| {
      assert rs[..|rs| - 1][..k] == rs[..k];
      FragmentsPrefix(rs[..|rs| - 1], k);
    } else {
      assert rs[..k] == rs;
    }
  }

  /** Reading n bytes on, when the block has room for them after offset o. */
  lemma Consumed(file: Bytes, buffer: Bytes, end: nat, eof: bool, block: nat, o: Offset, n: nat)
    requires Standing(file, buffer, end, eof, block, o) && 0 < n && o + n <= BLOCK && buffer != []
    ensures |buffer| >= n ==> Standing(file, buffer[n..], end, eof, block, o + n) && block * BLOCK + o + n <= |file|
    ensures |buffer| < n ==> eof && |file| < block * BLOCK + o + n
  {
    if |buffer| >= n {
      assert buffer[n..] == file[end - |buffer[n..]|..end];
    }
  }

  lemma FragmentHere(file: Bytes, whole: Bytes, buffer: Bytes, end: nat, eof: bool, block: nat, o: Offset, at: nat, b: Bytes)
    requires Standing(file, buffer, end, eof, block, o) && file <= whole && HEADER <= |b| && o + |b| <= BLOCK
    requires |buffer| >= HEADER && at == block * BLOCK + o
    requires at + |b| <= |whole| && whole[at..at + |b|] == b
    ensures forall k :: 0 <= k < HEADER ==> buffer[k] == b[k]
    ensures if |buffer| >= |b| then
              buffer[..|b|] == b && at + |b| <= |file| && Standing(file, buffer[|b|..], end, eof, block, o + |b|)
            else eof && |file| < at + |b|
  {
    assert at == end - |buffer|;
    SameBytes(file, whole, at, buffer, b);
    Consumed(file, buffer, end, eof, block, o, |b|);
  }

  lemma TakeSlice(file: Bytes, buffer: Bytes, end: nat, n: nat)
    requires |buffer| <= end <= |file| && buffer == file[end - |buffer|..end] && n <= |buffer|
    ensures buffer[n..] == file[end - |buffer[n..]|..end]
    ensures buffer[..n] == file[end - |buffer|..end - |buffer| + n]
  {
  }

  /** The fragment the reader stands at is either wholly in the buffer or cut off by the
      end of the file. */
  lemma HeaderHere(crc: Checksum, file: Bytes, fs: seq<Fragment>, i: nat, buffer: Bytes, end: nat, eof: bool)
    requires i < |fs| && WellCut(fs) && file <= FileOf(crc, fs) && |buffer| >= HEADER
    requires WellCut(fs[..i]) && WellCut(fs[..i + 1])
    requires Standing(file, buffer, end, eof, BlocksOf(fs[..i + 1]), Start(OffsetOf(fs[..i])))
    ensures Proper(fs[i])
    ensures forall k :: 0 <= k < HEADER ==> buffer[k] == Encode(crc, fs[i])[k]
    ensures var n := HEADER + |fs[i].payload|;
            if |buffer| >= n then
              buffer[..n] == Encode(crc, fs[i]) && FragmentInFile(crc, file, fs, i)
              && Standing(file, buffer[n..], end, eof, BlocksOf(fs[..i + 1]), OffsetOf(fs[..i + 1]))
            else eof && !FragmentInFile(crc, file, fs, i)
  {
    var block: nat, o: Offset := BlocksOf(fs[..i + 1]), Start(OffsetOf(fs[..i]));
    var at: nat := block * BLOCK + o;
    PlaceOf(crc, file, fs, i, at);
    FragmentHere(file, FileOf(crc, fs), buffer, end, eof, block, o, at, Encode(crc, fs[i]));
  }

  /** A fragment is in a file cut short exactly when its place is. */
  lemma PlaceOf(crc: Checksum, file: Bytes, fs: seq<Fragment>, i: nat, at: nat)
    requires WellCut(fs) && i < |fs| && WellCut(fs[..i]) && WellCut(fs[..i + 1])
    requires at == BlocksOf(fs[..i + 1]) * BLOCK + Start(OffsetOf(fs[..i]))
    ensures Proper(fs[i]) && OffsetOf(fs[..i + 1]) == Start(OffsetOf(fs[..i])) + |Encode(crc, fs[i])|
    ensures at + |Encode(crc, fs[i])| <= |FileOf(crc, fs)| && FileOf(crc, fs)[at..at + |Encode(crc, fs[i])|] == Encode(crc, fs[i])
    ensures FragmentInFile(crc, file, fs, i) <==> at + |Encode(crc, fs[i])| <= |file|
  {
    FragmentAt(crc, fs, i);
  }

  /** A piece of a file cut short agrees with the whole, as far as it goes. */
  lemma SameBytes(file: Bytes, whole: Bytes, from: nat, buffer: Bytes, b: Bytes)
    requires file <= whole && from + |buffer| <= |file| && buffer == file[from..from + |buffer|]
    requires from + |b| <= |whole| && whole[from..from + |b|] == b
    ensures forall k :: 0 <= k < |buffer| && k < |b| ==> buffer[k] == b[k]
    ensures |buffer| >= |b| ==> buffer[..|b|] == b
  {
    forall k | 0 <= k < |buffer| && k < |b| ensures buffer[k] == b[k] {
      assert file[from + k] == whole[from + k];
    }
  }

  lemma AllInFile(crc: Checksum, rs: seq<Bytes>, k: nat)
    requires k < |rs|
    ensures InFile(crc, FileOf(crc, Fragments(rs)), rs, k)
  {
    FragmentsPrefix(rs, k + 1);
    Restore(Fragments(rs[..k + 1]), Fragments(rs));
    CutPrefix(crc, Fragments(rs), |Fragments(rs[..k + 1])|);
  }

  /** Any records, written to an empty file that is then cut off anywhere: what is read
      back is a prefix of them, all of them if nothing was cut, and no corruption. */
  method WriteAndRead(crc: Checksum, checksum: bool, rs: seq<Bytes>, lost: nat)
    returns (records: seq<Bytes>, reports: seq<(nat, string)>)
    ensures reports == [] && |records| <= |rs| && records == rs[..|records|]
    ensures lost == 0 ==> records == rs
  {
    var file := W.WriteAll(crc, rs);
    var kept := if lost <= |file| then file[..|file| - lost] else [];
    records, reports := ReadAll(kept, crc, checksum, rs);
    assert lost == 0 ==> kept == file;
    if lost == 0 && |records| < |rs| {
      AllInFile(crc, rs, |records|);
    }
  }
}
