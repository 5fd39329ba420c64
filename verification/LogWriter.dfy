/** log::Writer (db/log_writer.cc). */
module LogWriter {
  import opened Format
  import opened Fixed
  import opened LogFormat

  class Writer {
    const crc: Checksum
    var dest: Bytes
    var blockOffset: Offset
    ghost var records: seq<Bytes>      // written so far
    ghost var fs: seq<Fragment>        // emitted so far

    ghost predicate Sound()
      reads this
    {
      WellCut(fs) && dest == FileOf(crc, fs) && blockOffset == OffsetOf(fs)
    }

    /** Between records: the file holds exactly the records written. */
    ghost predicate Valid()
      reads this
    {
      Sound() && fs == Fragments(records)
    }

    constructor (crc: Checksum)
      ensures Valid() && records == [] && this.crc == crc
    {
      this.crc, dest, blockOffset := crc, [], 0;
      records, fs := [], [];
    }

    /** EmitPhysicalRecord, past the zeros that fill a block end. */
    method EmitPhysicalRecord(t: nat, payload: Bytes)
      requires WellCut(fs) && dest == FileOf(crc, fs) + Zeros(PadLength(OffsetOf(fs)))
      requires FULL <= t <= LAST && |payload| <= Avail(OffsetOf(fs)) && blockOffset == Start(OffsetOf(fs))
      modifies this
      ensures Sound() && fs == old(fs) + [Fragment(t, payload)] && records == old(records)
    {
      var length := |payload|;
      var masked := Mask(crc([t as byte] + payload));
      dest := dest + (Fixed32(masked) + [(length % 256) as byte, (length / 256) as byte, t as byte] + payload);
      blockOffset := blockOffset + HEADER + length;
      Snoc(crc, fs, Fragment(t, payload));
      fs := fs + [Fragment(t, payload)];
    }

    /** Fills the block end if no header fits, and says how much payload does. */
    method MakeRoom() returns (avail: nat)
      requires Sound()
      modifies `dest, `blockOffset
      ensures dest == FileOf(crc, fs) + Zeros(PadLength(OffsetOf(fs)))
      ensures blockOffset == Start(OffsetOf(fs)) && avail == Avail(OffsetOf(fs))
    {
      var leftover := BLOCK - blockOffset;
      if leftover < HEADER {
        if leftover > 0 {
          dest := dest + Zeros(leftover);
        }
        blockOffset := 0;
      }
      avail := BLOCK - blockOffset - HEADER;
    }

    /** One fragment, of as much of the data as fits its block. */
    method EmitNext(data: Bytes, begin: bool) returns (rest: Bytes, end: bool)
      requires Sound()
      modifies this
      ensures Sound() && records == old(records)
      ensures end ==> fs == old(fs) + Split(OffsetOf(old(fs)), data, begin)
      ensures !end ==> OffsetOf(fs) == BLOCK && |rest| == |data| - Avail(OffsetOf(old(fs)))
      ensures !end ==> fs + Split(BLOCK, rest, false) == old(fs) + Split(OffsetOf(old(fs)), data, begin)
    {
      var avail := MakeRoom();
      var fragmentLength := if |data| < avail then |data| else avail;
      end := |data| == fragmentLength;
      var t := if begin && end then FULL else if begin then FIRST else if end then LAST else MIDDLE;
      SplitOn(fs, data, begin, Fragment(t, data[..fragmentLength]));
      EmitPhysicalRecord(t, data[..fragmentLength]);
      rest := data[fragmentLength..];
    }

    /** The record as one fragment after another, at least one. */
    method AddRecord(slice: Bytes)
      requires Valid()
      modifies this
      ensures Valid() && records == old(records) + [slice]
    {
      var data, begin := slice, true;
      ghost var all := fs + Split(OffsetOf(fs), slice, true);
      while true
        invariant Sound() && records == old(records) && fs + Split(OffsetOf(fs), data, begin) == all
        decreases |data|, BLOCK - OffsetOf(fs) >= HEADER
      {
        var rest, end := EmitNext(data, begin);
        if end {
          break;
        }
        data, begin := rest, false;
      }
      FragmentsSnoc(records, slice);
      records := records + [slice];
    }
  }

  /** A log of these records. */
  method WriteAll(crc: Checksum, records: seq<Bytes>) returns (file: Bytes)
    ensures file == FileOf(crc, Fragments(records))
  {
    var writer := new Writer(crc);
    for i := 0 to |records|
      invariant fresh(writer) && writer.Valid() && writer.crc == crc && writer.records == records[..i]
    {
      writer.AddRecord(records[i]);
    }
    assert records[..|records|] == records;
    file := writer.dest;
  }
}
