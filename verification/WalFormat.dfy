/** Log records and the greedy reader (include/ledger/wal_format.hpp, src/wal_reader.cpp).

    A record is a 28-byte header, the payload and a 4-byte checksum of both. All functions here
    work on the bytes from the read position to the end of the file. */
module WalFormat {
  import opened Types
  import opened Bytes
  import opened Crc32
  import opened WalCodec
  import opened Framing

  const MAGIC: nat := 0x4C45_4447
  const VERSION: nat := 1
  const HEADER: nat := 28
  const CRC: nat := 4

  function EncodeHeader(payloadSize: nat, id: u64, timestampNs: i64): (s: seq<byte>)
    requires payloadSize <= MAX_PAYLOAD
    ensures |s| == HEADER
  {
    Put(MAGIC, 4) + Put(VERSION, 2) + Put(0, 2) + Put(payloadSize, 4) + PutU64(id) + PutI64(timestampNs)
  }

  /** The record of a transaction; its `createdAtNs` is the time stored in the header. */
  function EncodeBody(tx: Transaction): (s: seq<byte>)
    ensures |s| == HEADER + |EncodePayload(tx)|
  {
    EncodeHeader(|EncodePayload(tx)|, tx.id, tx.createdAtNs) + EncodePayload(tx)
  }

  function EncodeRecord(tx: Transaction): (s: seq<byte>)
    ensures |s| == HEADER + |EncodePayload(tx)| + CRC
  {
    EncodeBody(tx) + Trailer(Crc(EncodeBody(tx)))
  }

  function EncodeLog(txs: seq<Transaction>): seq<byte> {
    Written(EncodeRecord, txs)
  }

  // ---------- Reading one record ----------

  predicate HeaderOk(h: seq<byte>)
    requires |h| >= HEADER
  {
    Get(h[..4]) == MAGIC && Get(h[4..6]) == VERSION && Get(h[8..12]) <= MAX_PAYLOAD
  }

  function PayloadSize(h: seq<byte>): nat
    requires |h| >= HEADER
  {
    Get(h[8..12])
  }

  function Decoded(record: seq<byte>): Result<Transaction>
    requires |record| >= HEADER + CRC
  {
    DecodePayload(record[HEADER..|record| - CRC], GetU64(record[12..20]), GetI64(record[20..28]))
  }

  /** All the bytes of a record are there. */
  function ParseWhole(record: seq<byte>): (p: Parsed<Transaction>)
    requires |record| >= HEADER + CRC
    ensures p == Corrupt || (p.Record? && p.size == |record|)
  {
    if !Sealed(record) then Corrupt
    else if Decoded(record).Err? then Corrupt
    else Record(Decoded(record).value, |record|)
  }

  function Parse(s: seq<byte>): (p: Parsed<Transaction>)
    ensures p.Record? ==> HEADER + CRC <= p.size <= |s|
  {
    if s == [] then EndOfLog
    else if |s| < HEADER then Truncated
    else if !HeaderOk(s) then Corrupt
    else
      var size := HEADER + PayloadSize(s) + CRC;
      if |s| < size then Truncated else ParseWhole(s[..size])
  }

  ghost function ScanLog(s: seq<byte>): (r: Scanned<Transaction>)
    ensures r.length <= |s| && !r.end.Record?
  {
    assert forall t :: Parse(t).Record? ==> 0 < Parse(t).size <= |t|;
    Scan(Parse, s)
  }

  // ---------- Reading back a written record ----------

  lemma HeaderFields(h: seq<byte>, payloadSize: nat, id: u64, timestampNs: i64, rest: seq<byte>)
    requires payloadSize <= MAX_PAYLOAD && h == EncodeHeader(payloadSize, id, timestampNs) + rest
    ensures HeaderOk(h) && PayloadSize(h) == payloadSize
    ensures GetU64(h[12..20]) == id && GetI64(h[20..28]) == timestampNs
  {
    hide Put, PutU64, PutI64, Get, GetU64, GetI64;
    assert h[..4] == Put(MAGIC, 4) && h[4..6] == Put(VERSION, 2) && h[8..12] == Put(payloadSize, 4);
    assert h[12..20] == PutU64(id) && h[20..28] == PutI64(timestampNs);
    GetPutU32(MAGIC);
    GetPutU16(VERSION);
    GetPutU32(payloadSize);
    GetPutU64(id);
    GetPutI64(timestampNs);
  }

  lemma RecordSealed(tx: Transaction)
    ensures Sealed(EncodeRecord(tx))
  {
    var record, body := EncodeRecord(tx), EncodeBody(tx);
    assert record[..|body|] == body && record[|body|..] == Trailer(Crc(body));
    TrailerBack(Crc(body));
  }

  lemma Slices(h: seq<byte>, p: seq<byte>, t: seq<byte>, rest: seq<byte>)
    requires |h| == HEADER && |t| == CRC
    ensures var s := h + p + t + rest;
            var size := HEADER + |p| + CRC;
            s[..size] == h + p + t && (h + p + t)[HEADER..size - CRC] == p && s == h + (p + t + rest)
  {
  }

  /** A written record is read back whole, whatever follows it. */
  lemma ParseWritten(tx: Transaction, rest: seq<byte>)
    ensures Parse(EncodeRecord(tx) + rest) == Record(tx, |EncodeRecord(tx)|)
  {
    hide EncodePayload, EncodeHeader, Crc, Get, DecodePayload, Sealed, HeaderOk;
    var h, p := EncodeHeader(|EncodePayload(tx)|, tx.id, tx.createdAtNs), EncodePayload(tx);
    var t := Trailer(Crc(EncodeBody(tx)));
    Slices(h, p, t, rest);
    HeaderFields(h + p + t + rest, |p|, tx.id, tx.createdAtNs, p + t + rest);
    Slices(h, p, t, []);
    HeaderFields(h + p + t, |p|, tx.id, tx.createdAtNs, p + t);
    RecordSealed(tx);
    PayloadRoundTrip(tx, tx.id, tx.createdAtNs);
  }

  /** A strict prefix of a written record is never read as a record, and never needs the checksum
      to be told apart: too few bytes are left. */
  lemma ParseTorn(tx: Transaction, n: nat)
    requires n < |EncodeRecord(tx)|
    ensures Parse(EncodeRecord(tx)[..n]) == if n == 0 then EndOfLog else Truncated
  {
    hide EncodeRecord, ParseWhole, HeaderOk, PayloadSize;
    if n >= HEADER {
      RecordSize(tx);
      SameHeader(EncodeRecord(tx)[..n], EncodeRecord(tx));
    }
  }

  // ---------- Scanning ----------

  /** A record is recognised by its own bytes alone. */
  lemma ParseLocal(s: seq<byte>, rest: seq<byte>)
    requires Parse(s).Record?
    ensures Parse(s[..Parse(s).size] + rest) == Parse(s)
  {
    var n := Parse(s).size;
    var t := s[..n] + rest;
    SameHeader(s, t);
    assert t[..n] == s[..n];
  }

  lemma SameHeader(s: seq<byte>, t: seq<byte>)
    requires |s| >= HEADER && |t| >= HEADER && s[..HEADER] == t[..HEADER]
    ensures HeaderOk(s) == HeaderOk(t) && PayloadSize(s) == PayloadSize(t)
    ensures s[12..20] == t[12..20] && s[20..28] == t[20..28]
  {
    var h := s[..HEADER];
    assert s[..4] == h[..4] == t[..4] && s[4..6] == h[4..6] == t[4..6] && s[8..12] == h[8..12] == t[8..12];
    assert s[12..20] == h[12..20] == t[12..20] && s[20..28] == h[20..28] == t[20..28];
  }

  /** The record format meets the conditions of module Framing. */
  lemma Format()
    ensures Local(Parse) && ReadsBack(Parse, EncodeRecord) && ShowsTears(Parse, EncodeRecord)
  {
    forall s, rest | Parse(s).Record? ensures Parse(s[..Parse(s).size] + rest) == Parse(s) {
      ParseLocal(s, rest);
    }
    forall x, rest ensures Parse(EncodeRecord(x) + rest) == Record(x, |EncodeRecord(x)|) {
      ParseWritten(x, rest);
    }
    forall x, n: nat | n < |EncodeRecord(x)|
      ensures Parse(EncodeRecord(x)[..n]) == if n == 0 then EndOfLog else Truncated
    {
      ParseTorn(x, n);
    }
  }

  /** Torn tail: a log followed by any strict prefix of one more record is read as exactly the log,
      ends cleanly or as truncated, and the good length is the end of the log. */
  lemma TornTail(txs: seq<Transaction>, next: Transaction, n: nat)
    requires n < |EncodeRecord(next)|
    ensures ScanLog(EncodeLog(txs) + EncodeRecord(next)[..n])
         == Scanned(txs, |EncodeLog(txs)|, if n == 0 then EndOfLog else Truncated)
  {
    Format();
    ScanTorn(Parse, EncodeRecord, txs, next, n);
  }

  /** Damage within four consecutive bytes of a record that leaves its size field alone is always
      noticed: the damaged record is reported corrupt, whatever follows it. */
  lemma DamageNoticed(tx: Transaction, damaged: seq<byte>, at: nat, rest: seq<byte>)
    requires DifferInWindow(EncodeRecord(tx), damaged, at) && damaged != EncodeRecord(tx)
    requires damaged[8..12] == EncodeRecord(tx)[8..12]
    ensures Parse(damaged + rest) == Corrupt
  {
    RecordSealed(tx);
    BurstBreaksSeal(EncodeRecord(tx), damaged, at);
    RecordSize(tx);
    ParseUnsealed(damaged, rest);
  }

  lemma ParseUnsealed(d: seq<byte>, rest: seq<byte>)
    requires |d| >= HEADER && HEADER + PayloadSize(d) + CRC == |d| && !Sealed(d)
    ensures Parse(d + rest) == Corrupt
  {
    assert (d + rest)[8..12] == d[8..12];
    assert (d + rest)[..|d|] == d;
  }

  lemma RecordSize(tx: Transaction)
    ensures HEADER + PayloadSize(EncodeRecord(tx)) + CRC == |EncodeRecord(tx)| && HeaderOk(EncodeRecord(tx))
  {
    hide EncodeRecord, ParseWhole, Get;
    ParseWritten(tx, []);
    assert EncodeRecord(tx) + [] == EncodeRecord(tx);
  }

  /** A damaged record ends the scan at its own start. */
  lemma DamageEndsScan(txs: seq<Transaction>, tx: Transaction, damaged: seq<byte>, at: nat, rest: seq<byte>)
    requires DifferInWindow(EncodeRecord(tx), damaged, at) && damaged != EncodeRecord(tx)
    requires damaged[8..12] == EncodeRecord(tx)[8..12]
    ensures ScanLog(EncodeLog(txs) + (damaged + rest)) == Scanned(txs, |EncodeLog(txs)|, Corrupt)
  {
    Format();
    DamageNoticed(tx, damaged, at, rest);
    ScanUpTo(Parse, EncodeRecord, txs, damaged + rest);
  }

  /** A record that is read takes exactly the bytes of its own encoding. */
  lemma RecordTakesItsBytes(s: seq<byte>)
    requires Parse(s).Record?
    ensures Parse(s).size == |EncodeRecord(Parse(s).item)|
  {
    var record := s[..Parse(s).size];
    PayloadCanonical(record[HEADER..|record| - CRC], GetU64(record[12..20]), GetI64(record[20..28]));
  }

  lemma ScanTakesItsBytes(s: seq<byte>)
    ensures ScanLog(s).length == |EncodeLog(ScanLog(s).items)|
  {
    Format();
    forall t | Parse(t).Record? ensures Parse(t).size == |EncodeRecord(Parse(t).item)| {
      RecordTakesItsBytes(t);
    }
    ScanLength(Parse, EncodeRecord, s);
  }

  // ---------- After a short write ----------

  /** The first bytes of every record: the magic number and the version. */
  predicate StartsRecord(s: seq<byte>, at: nat)
    requires |s| >= at + 6
  {
    s[at] == 0x47 && s[at + 1] == 0x44 && s[at + 2] == 0x45 && s[at + 3] == 0x4C && s[at + 4] == 1 && s[at + 5] == 0
  }

  lemma HeaderStart(payloadSize: nat, id: u64, timestampNs: i64)
    requires payloadSize <= MAX_PAYLOAD
    ensures StartsRecord(EncodeHeader(payloadSize, id, timestampNs), 0)
  {
    PutBytes(MAGIC);
    PutBytes(VERSION);
  }

  lemma RecordStart(tx: Transaction)
    ensures StartsRecord(EncodeRecord(tx), 0)
  {
    HeaderStart(|EncodePayload(tx)|, tx.id, tx.createdAtNs);
  }

  /** Where everything stands in a record: magic number "GDEL", version 1 and two zero bytes, the
      payload size, the id, the time, the payload from byte 28 on, and the checksum of all that. */
  lemma RecordLayout(tx: Transaction)
    ensures var s, n := EncodeRecord(tx), |EncodePayload(tx)|;
            && |s| == 32 + n && StartsRecord(s, 0) && s[6] == 0 && s[7] == 0
            && Get(s[8..12]) == n && GetU64(s[12..20]) == tx.id && GetI64(s[20..28]) == tx.createdAtNs
            && s[28..28 + n] == EncodePayload(tx) && Word(s[28 + n..]) == Crc(s[..28 + n])
  {
    hide EncodePayload, Crc, Get, GetU64, GetI64, Put, PutU64, PutI64;
    var h, p := EncodeHeader(|EncodePayload(tx)|, tx.id, tx.createdAtNs), EncodePayload(tx);
    var t := Trailer(Crc(EncodeBody(tx)));
    RecordStart(tx);
    RecordSealed(tx);
    Slices(h, p, t, []);
    HeaderFields(h + p + t, |p|, tx.id, tx.createdAtNs, p + t);
    ZeroFlags();
    assert h[6] == Put(0, 2)[0] && h[7] == Put(0, 2)[1];
  }

  lemma ZeroFlags()
    ensures Put(0, 2) == [0, 0]
  {
    PutBytes(0);
  }

  lemma GetIsMagic(s: seq<byte>)
    requires |s| == 4
    ensures Get(s) == MAGIC <==> s == [0x47, 0x44, 0x45, 0x4C]
  {
    GetFour(s);
  }

  lemma GetIsVersion(s: seq<byte>)
    requires |s| == 2
    ensures Get(s) == VERSION <==> s == [1, 0]
  {
    GetTwo(s);
  }

  /** What is accepted as a record, on the bytes: magic number and version, at most 512 payload bytes,
      all of them there, a matching checksum and a payload that decodes. Nothing else is looked at. */
  lemma ParseAccepts(s: seq<byte>)
    ensures Parse(s).Record? <==>
            && |s| >= 28 && StartsRecord(s, 0)
            && var size := Get(s[8..12]);
            && size <= 512 && |s| >= 32 + size
            && Word(s[28 + size..32 + size]) == Crc(s[..28 + size])
            && DecodePayload(s[28..28 + size], GetU64(s[12..20]), GetI64(s[20..28])).Ok?
    ensures Parse(s) == EndOfLog <==> s == []
    ensures Parse(s) == Truncated <==>
            s != [] && (|s| < 28 || (StartsRecord(s, 0) && Get(s[8..12]) <= 512 && |s| < 32 + Get(s[8..12])))
  {
    hide Crc, Get, GetU64, GetI64, DecodePayload, Word;
    if |s| >= 28 {
      GetIsMagic(s[..4]);
      GetIsVersion(s[4..6]);
      assert StartsRecord(s, 0) <==> s[..4] == [0x47, 0x44, 0x45, 0x4C] && s[4..6] == [1, 0] by {
        StartBytes(s);
      }
      var size := Get(s[8..12]);
      if size <= 512 && |s| >= 32 + size {
        WholeBytes(s, size);
      }
    }
  }

  lemma StartBytes(s: seq<byte>)
    requires |s| >= 6
    ensures StartsRecord(s, 0) <==> s[..4] == [0x47, 0x44, 0x45, 0x4C] && s[4..6] == [1, 0]
  {
    if s[..4] == [0x47, 0x44, 0x45, 0x4C] && s[4..6] == [1, 0] {
      assert s[..4][0] == s[0] && s[..4][1] == s[1] && s[..4][2] == s[2] && s[..4][3] == s[3];
      assert s[4..6][0] == s[4] && s[4..6][1] == s[5];
    }
  }

  lemma WholeBytes(s: seq<byte>, size: nat)
    requires |s| >= 32 + size
    ensures var record := s[..32 + size];
            && record[..28 + size] == s[..28 + size] && record[28 + size..] == s[28 + size..32 + size]
            && record[28..28 + size] == s[28..28 + size] && record[12..20] == s[12..20] && record[20..28] == s[20..28]
  {
  }

  /** What holds of any bytes that were appended by record writes, complete or short: they start
      with the first byte of the magic number and have no zero among the first five. */
  predicate Follows(rest: seq<byte>) {
    (rest != [] ==> rest[0] == 0x47) && forall k :: 0 <= k < |rest| && k < 5 ==> rest[k] != 0
  }

  /** If up to 11 bytes of a record are followed by another write, the header they make up together
      is not acceptable. */
  lemma BadHeader(s: seq<byte>, start: seq<byte>, t: nat)
    requires 1 <= t < 12 && |s| >= HEADER && |start| >= 12 && StartsRecord(start, 0)
    requires s[..t] == start[..t] && Follows(s[t..])
    ensures !HeaderOk(s)
  {
    assert forall i :: 0 <= i < t ==> s[i] == s[..t][i] == start[i];
    assert s[t] == s[t..][0] == 0x47;
    if t < 4 {
      GetFour(s[..4]);
    } else if t < 6 {
      GetTwo(s[4..6]);
    } else {
      GetFour(s[8..12]);
      if t < 11 {
        assert s[10] == s[t..][10 - t] != 0;
      }
    }
  }

  /** The bytes where a record was torn happen to carry a matching checksum and a decodable payload:
      the first `t` bytes of the record and the beginning of what was written after them. */
  predicate Passes(torn: Transaction, t: nat, rest: seq<byte>)
    requires t <= |EncodeRecord(torn)|
  {
    var size := |EncodeRecord(torn)|;
    var s := EncodeRecord(torn)[..t] + rest;
    12 <= t && size <= |s| && Sealed(s[..size]) && Decoded(s[..size]).Ok?
  }

  /** How the scan ends at a tear that does not pass for a record. */
  function TearEnd(torn: Transaction, t: nat, rest: seq<byte>): Parsed<Transaction> {
    if t + |rest| < HEADER || (12 <= t && t + |rest| < |EncodeRecord(torn)|) then Truncated else Corrupt
  }

  lemma TornHeader(torn: Transaction, t: nat, s: seq<byte>)
    requires 12 <= t <= |EncodeRecord(torn)| && |s| >= HEADER && |s| >= t && s[..t] == EncodeRecord(torn)[..t]
    ensures HeaderOk(s) && HEADER + PayloadSize(s) + CRC == |EncodeRecord(torn)|
  {
    hide EncodeRecord, Get;
    RecordSize(torn);
    var record := EncodeRecord(torn);
    var a, b := s[..t], record[..t];
    assert s[..4] == a[..4] && s[4..6] == a[4..6] && s[8..12] == a[8..12];
    assert record[..4] == b[..4] && record[4..6] == b[4..6] && record[8..12] == b[8..12];
  }

  lemma ParseTear(torn: Transaction, t: nat, rest: seq<byte>)
    requires 1 <= t < |EncodeRecord(torn)| && Follows(rest)
    ensures var p := Parse(EncodeRecord(torn)[..t] + rest);
            if Passes(torn, t, rest) then p.Record? && p.size == |EncodeRecord(torn)| else p == TearEnd(torn, t, rest)
  {
    hide Sealed, DecodePayload, EncodeRecord, HeaderOk;
    var record := EncodeRecord(torn);
    var s := record[..t] + rest;
    assert s[..t] == record[..t] && s[t..] == rest;
    if |s| >= HEADER {
      if t < 12 {
        RecordStart(torn);
        BadHeader(s, record, t);
      } else {
        TornHeader(torn, t, s);
      }
    }
  }

  /** A short write is not cleaned up, and everything written later goes behind it. Whatever that is,
      the scan ends at the tear exactly if the bytes there do not pass for a record by coincidence.
      Up to 11 torn bytes they never do. */
  lemma TearHidesLater(txs: seq<Transaction>, torn: Transaction, t: nat, rest: seq<byte>)
    requires 1 <= t < |EncodeRecord(torn)| && Follows(rest)
    ensures var scan := ScanLog(EncodeLog(txs) + (EncodeRecord(torn)[..t] + rest));
            if Passes(torn, t, rest) then
              && scan.length >= |EncodeLog(txs)| + |EncodeRecord(torn)|
              && |scan.items| > |txs| && scan.items[..|txs|] == txs
            else scan == Scanned(txs, |EncodeLog(txs)|, TearEnd(torn, t, rest))
  {
    hide EncodeRecord, Parse, Passes;
    var s := EncodeRecord(torn)[..t] + rest;
    ParseTear(torn, t, rest);
    Format();
    if Passes(torn, t, rest) {
      ScanWritten(Parse, EncodeRecord, txs, s);
    } else {
      ScanUpTo(Parse, EncodeRecord, txs, s);
    }
  }

  /** A tear within the checksum, with complete records behind it: no coincidence is left. The torn
      record is readable exactly if its missing bytes are the first bytes of the next record, which
      are the magic number, and the scan ends behind it in any case. */
  lemma TrailerTear(txs: seq<Transaction>, torn: Transaction, t: nat, next: Transaction, rest: seq<byte>)
    requires |EncodeRecord(torn)| - CRC <= t < |EncodeRecord(torn)|
    ensures var record := EncodeRecord(torn);
            var scan := ScanLog(EncodeLog(txs) + (record[..t] + (EncodeRecord(next) + rest)));
            if record[t..] == EncodeRecord(next)[..|record| - t] then
              scan == Scanned(txs + [torn], |EncodeLog(txs)| + |record|, Corrupt)
            else scan == Scanned(txs, |EncodeLog(txs)|, Corrupt)
  {
    hide Parse, EncodeRecord, Written;
    var record := EncodeRecord(torn);
    var d := |record| - t;
    if record[t..] == EncodeRecord(next)[..d] {
      TrailerCompleted(txs, torn, t, next, rest);
    } else {
      var first, behind := record[..t] + EncodeRecord(next)[..d], EncodeRecord(next)[d..] + rest;
      assert record[..t] + (EncodeRecord(next) + rest) == first + behind;
      assert first[t..] == EncodeRecord(next)[..d];
      assert first[8..12] == record[8..12];
      DamageEndsScan(txs, torn, first, t, behind);
    }
  }

  lemma TrailerCompleted(txs: seq<Transaction>, torn: Transaction, t: nat, next: Transaction, rest: seq<byte>)
    requires |EncodeRecord(torn)| - CRC <= t < |EncodeRecord(torn)|
    requires EncodeRecord(torn)[t..] == EncodeRecord(next)[..|EncodeRecord(torn)| - t]
    ensures ScanLog(EncodeLog(txs) + (EncodeRecord(torn)[..t] + (EncodeRecord(next) + rest)))
         == Scanned(txs + [torn], |EncodeLog(txs)| + |EncodeRecord(torn)|, Corrupt)
  {
    hide Parse, EncodeRecord, Written;
    var record, more := EncodeRecord(torn), EncodeRecord(next) + rest;
    var d := |record| - t;
    ShiftedRecord(next, d, rest);
    assert record[..t] + more == record + more[d..] by {
      assert more == more[..d] + more[d..] && more[..d] == record[t..];
    }
    WrittenSnoc(EncodeRecord, txs, torn);
    assert EncodeLog(txs) + (record + more[d..]) == EncodeLog(txs + [torn]) + more[d..];
    Format();
    ScanUpTo(Parse, EncodeRecord, txs + [torn], more[d..]);
  }

  /** A record without its first one to four bytes does not start a record. */
  lemma ShiftedRecord(tx: Transaction, d: nat, rest: seq<byte>)
    requires 1 <= d <= 4
    ensures Parse((EncodeRecord(tx) + rest)[d..]) == Corrupt
  {
    hide EncodeRecord, EncodePayload, ParseWhole;
    var record := EncodeRecord(tx);
    var s := (record + rest)[d..];
    RecordStart(tx);
    ShiftedMagic(record, d);
    assert s[..4] == record[d..d + 4];
  }

  lemma ShiftedMagic(record: seq<byte>, d: nat)
    requires 1 <= d <= 4 && |record| >= 8 && StartsRecord(record, 0)
    ensures Get(record[d..d + 4]) != MAGIC
  {
    var m := record[d..d + 4];
    GetFour(m);
    assert m[0] == record[d] && m[0] in {0x44, 0x45, 0x4C, 1};
  }

  // ---------- What short and complete writes leave ----------

  /** The first `size` bytes of a record, or all of it. */
  datatype Fragment = Fragment(tx: Transaction, size: nat)

  function FragmentBytes(f: Fragment): seq<byte> {
    if f.size < |EncodeRecord(f.tx)| then EncodeRecord(f.tx)[..f.size] else EncodeRecord(f.tx)
  }

  lemma {:induction false} FragmentsFollow(fs: seq<Fragment>)
    requires forall i :: 0 <= i < |fs| ==> fs[i].size > 0
    ensures Follows(Written(FragmentBytes, fs))
  {
    hide EncodeRecord;
    if fs != [] {
      var first, rest := FragmentBytes(fs[0]), Written(FragmentBytes, fs[1..]);
      FragmentsFollow(fs[1..]);
      RecordStart(fs[0].tx);
      forall k | 0 <= k < |first + rest| && k < 5 ensures (first + rest)[k] != 0 {
        if k >= |first| {
          assert (first + rest)[k] == rest[k - |first|];
        }
      }
    }
  }
}
