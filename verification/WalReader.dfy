/** The sequential log reader (src/wal_reader.cpp). */
module WalReader {
  import opened Types
  import opened Bytes
  import opened WalCodec
  import opened WalFormat
  import opened Framing
  import Crc32

  /** A positioned read; it comes back short only at the end of the file. */
  function Pread(file: seq<byte>, n: nat, offset: nat): (s: seq<byte>)
    ensures |s| <= n
  {
    if offset >= |file| then []
    else if offset + n <= |file| then file[offset..offset + n]
    else file[offset..]
  }

  /** The bytes from `offset` on; none if it lies beyond the end. */
  function From(file: seq<byte>, offset: nat): seq<byte> {
    if offset <= |file| then file[offset..] else []
  }

  /** Checks the checksum of a whole record and decodes it. */
  method CheckRecord(record: seq<byte>) returns (r: Parsed<Transaction>)
    requires |record| >= HEADER + CRC
    ensures r == ParseWhole(record)
  {
    hide DecodePayload, Crc32.Crc, Crc32.Word, GetU64, GetI64;
    var end := |record| - CRC;
    var computed := Crc32.Compute(record[..end]);
    if Crc32.Word(record[end..]) != computed {
      return Corrupt;
    }
    var tx := DecodeTransactionPayload(record[HEADER..end], GetU64(record[12..20]), GetI64(record[20..28]));
    r := if tx.Err? then Corrupt else Record(tx.value, |record|);
  }

  class BinaryWalReader {
    var file: seq<byte>
    var cursor: nat
    var lastValidOffset: nat

    ghost predicate Valid()
      reads this
    {
      cursor == lastValidOffset
    }

    ghost function Rest(): seq<byte>
      reads this
    {
      From(file, cursor)
    }

    /** An opened reader, positioned at the start. */
    constructor (file: seq<byte>)
      ensures Valid() && this.file == file && cursor == 0
    {
      this.file, cursor, lastValidOffset := file, 0, 0;
    }

    method Seek(offset: nat)
      modifies this
      ensures Valid() && file == old(file) && cursor == offset
    {
      cursor, lastValidOffset := offset, offset;
    }

    /** Reads the next record. The position moves past it only if it is good. */
    method ReadNext() returns (r: Parsed<Transaction>)
      requires Valid()
      modifies this`cursor, this`lastValidOffset
      ensures Valid() && r == Parse(old(Rest()))
      ensures cursor == old(cursor) + (if r.Record? then r.size else 0)
      ensures r.Record? ==> cursor <= |file|
    {
      hide ParseWhole;
      ghost var s := Rest();
      var header := Pread(file, HEADER, cursor);
      if header == [] {
        return EndOfLog;
      }
      if |header| < HEADER {
        return Truncated;
      }
      assert header == s[..HEADER] == header[..HEADER];
      SameHeader(s, header);
      if !HeaderOk(header) {
        return Corrupt;
      }
      var payloadSize := PayloadSize(header);
      var body := Pread(file, payloadSize + CRC, cursor + HEADER);
      if |body| < payloadSize + CRC {
        return Truncated;
      }
      assert header + body == s[..HEADER + payloadSize + CRC];
      r := CheckRecord(header + body);
      if r.Record? {
        cursor := cursor + r.size;
        lastValidOffset := cursor;
      }
    }
  }
}
