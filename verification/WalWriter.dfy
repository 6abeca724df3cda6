/** The append-only log writer (src/wal_writer.cpp).

    The file is its bytes and the length of the prefix known to be on stable storage. What the
    clock and the two system calls return is an input. */
module WalWriter {
  import opened Types
  import opened Bytes
  import opened WalCodec
  import opened WalFormat
  import Crc32

  datatype SyncMode = SyncEveryWrite | BatchSyncFlush

  /** Outcome of one append: the time, the return value of write (negative is an error that writes
      nothing, a smaller count than asked for is a short write) and whether fsync succeeds. */
  datatype Io = Io(now: i64, written: int, fsyncOk: bool)

  /** `offset` is the writer's own idea of the log length, `dirty` its flag for unsynced data. */
  datatype Log = Log(content: seq<byte>, synced: nat, offset: nat, dirty: bool)

  function Stamp(tx: Transaction, io: Io): Transaction {
    tx.(createdAtNs := io.now)
  }

  /** How many bytes of an `n`-byte write reach the file. */
  function Reaches(io: Io, n: nat): (k: nat)
    ensures k <= n
  {
    if io.written < 0 then 0 else if io.written < n then io.written else n
  }

  function AppendTo(log: Log, mode: SyncMode, tx: Transaction, io: Io): (Log, Result<()>) {
    AppendBytes(log, mode, EncodeRecord(Stamp(tx, io)), io)
  }

  function AppendBytes(log: Log, mode: SyncMode, record: seq<byte>, io: Io): (Log, Result<()>) {
    var k := Reaches(io, |record|);
    var content := log.content + record[..k];
    if k != |record| then (log.(content := content), Err(WalWriteFailed))
    else
      var written := log.(content := content, offset := log.offset + |record|, dirty := true);
      if mode == BatchSyncFlush then (written, Ok(()))
      else FlushOf(written, io.fsyncOk)
  }

  function FlushOf(log: Log, fsyncOk: bool): (Log, Result<()>) {
    if !log.dirty then (log, Ok(()))
    else if fsyncOk then (log.(synced := |log.content|, dirty := false), Ok(()))
    else (log, Err(WalSyncFailed))
  }

  class BinaryWalWriter {
    var isOpen: bool
    var mode: SyncMode
    var content: seq<byte>
    var synced: nat
    var offset: nat
    var dirty: bool

    ghost function Value(): Log
      reads this
    {
      Log(content, synced, offset, dirty)
    }

    constructor ()
      ensures !isOpen && Value() == Log([], 0, 0, false)
    {
      isOpen, mode, content, synced, offset, dirty := false, SyncEveryWrite, [], 0, 0, false;
    }

    /** Opens an existing or new file whose bytes are `file`; `None` if opening it or asking for its
        size fails, which leaves the writer closed. */
    method Open(file: Option<seq<byte>>, durable: nat, mode: SyncMode) returns (r: Result<()>)
      modifies this
      ensures isOpen <==> file.Some?
      ensures file.Some? ==> r == Ok(()) && this.mode == mode && Value() == Log(file.value, durable, |file.value|, false)
      ensures file.None? ==> r == Err(WalOpenFailed) && this.mode == old(this.mode) && offset == 0 && !dirty
    {
      isOpen, offset, dirty := false, 0, false;
      if file.None? {
        return Err(WalOpenFailed);
      }
      isOpen, this.mode, content, synced, offset := true, mode, file.value, durable, |file.value|;
      r := Ok(());
    }

    method BuildRecord(tx: Transaction, now: i64) returns (record: seq<byte>)
      ensures record == EncodeRecord(tx.(createdAtNs := now))
    {
      var buffer, size := EncodeTransactionPayload(tx);
      var payload := buffer[..size];
      assert payload == EncodePayload(tx) == EncodePayload(tx.(createdAtNs := now));
      var body := EncodeHeader(size, tx.id, now) + payload;
      var crc := Crc32.Compute(body);
      record := body + Crc32.Trailer(crc);
    }

    method Append(tx: Transaction, io: Io) returns (r: Result<()>)
      modifies this
      ensures isOpen == old(isOpen) && mode == old(mode)
      ensures !old(isOpen) ==> Value() == old(Value()) && r == Err(WalOpenFailed)
      ensures old(isOpen) ==> (Value(), r) == AppendTo(old(Value()), mode, tx, io)
    {
      if !isOpen {
        return Err(WalOpenFailed);
      }
      var record := BuildRecord(tx, io.now);
      r := WriteRecord(record, io);
    }

    method WriteRecord(record: seq<byte>, io: Io) returns (r: Result<()>)
      requires isOpen
      modifies this
      ensures isOpen && mode == old(mode)
      ensures (Value(), r) == AppendBytes(old(Value()), mode, record, io)
    {
      var k := Reaches(io, |record|);
      content := content + record[..k];
      if k != |record| {
        return Err(WalWriteFailed);
      }
      offset := offset + |record|;
      dirty := true;
      if mode == SyncEveryWrite {
        r := Flush(io.fsyncOk);
      } else {
        r := Ok(());
      }
    }

    method Flush(fsyncOk: bool) returns (r: Result<()>)
      modifies this
      ensures isOpen == old(isOpen) && mode == old(mode)
      ensures !old(isOpen) ==> Value() == old(Value()) && r == Err(WalOpenFailed)
      ensures old(isOpen) ==> (Value(), r) == FlushOf(old(Value()), fsyncOk)
    {
      if !isOpen {
        return Err(WalOpenFailed);
      }
      if !dirty {
        return Ok(());
      }
      if !fsyncOk {
        return Err(WalSyncFailed);
      }
      synced := |content|;
      dirty := false;
      r := Ok(());
    }
  }
}
