/** Snapshot files (src/snapshot.cpp): a 32-byte header, one 25-byte record per account in map
    iteration order, and a checksum of both. The header is not packed: bytes 12 to 15 are padding. */
module Snapshot {
  import opened Types
  import opened Bytes
  import opened Crc32
  import opened Sums
  import opened Ledger

  const MAGIC: nat := 0x534E_4150
  const VERSION: nat := 1
  const HEADER: nat := 32
  const RECORD: nat := 25
  const MAX_ACCOUNTS: nat := 0x1_0000_0000

  // ---------- Layout ----------

  function EncodeAccount(a: Account): (s: seq<byte>)
    requires InI64(a.balance)
    ensures |s| == RECORD
  {
    PutU64(a.id) + [a.accountType] + PutI64(a.balance) + PutI64(a.overdraftLimit)
  }

  function DecodeAccount(s: seq<byte>): Account
    requires |s| == RECORD
  {
    Account(GetU64(s[..8]), s[8], GetI64(s[9..17]), GetI64(s[17..25]))
  }

  lemma AccountRoundTrip(a: Account)
    requires InI64(a.balance)
    ensures DecodeAccount(EncodeAccount(a)) == a
  {
    var s := EncodeAccount(a);
    assert s[..8] == PutU64(a.id) && s[9..17] == PutI64(a.balance) && s[17..25] == PutI64(a.overdraftLimit);
    GetPutU64(a.id);
    GetPutI64(a.balance);
    GetPutI64(a.overdraftLimit);
  }

  /** Accounts are filed under their own id and hold 64-bit balances. */
  ghost predicate Storable(accounts: Accounts) {
    forall id :: id in accounts ==> accounts[id].id == id && InI64(accounts[id].balance)
  }

  ghost predicate Selects(accounts: Accounts, order: seq<u64>) {
    Storable(accounts) && forall i :: 0 <= i < |order| ==> order[i] in accounts
  }

  ghost function EncodeAccounts(accounts: Accounts, order: seq<u64>): (s: seq<byte>)
    requires Selects(accounts, order)
    ensures |s| == RECORD * |order|
  {
    if order == [] then []
    else EncodeAccounts(accounts, order[..|order| - 1]) + EncodeAccount(accounts[order[|order| - 1]])
  }

  function EncodeHeader(count: nat, lastId: u64, walOffset: u64, padding: seq<byte>): (s: seq<byte>)
    requires |padding| == 4
    ensures |s| == HEADER
  {
    Put(MAGIC, 4) + Put(VERSION, 2) + Put(0, 2) + Put(count, 4) + padding + PutU64(lastId) + PutU64(walOffset)
  }

  /** What a snapshot file is made from: the state, the log offset it stands for, the order in
      which the account map is iterated and whatever the padding bytes happen to be. */
  datatype Image = Image(state: State, walOffset: u64, order: seq<u64>, padding: seq<byte>)

  ghost predicate Writable(im: Image) {
    && Selects(im.state.accounts, im.order)
    && Visits(im.order, im.state.accounts.Keys)
    && |im.padding| == 4
    && |im.order| < MAX_ACCOUNTS
  }

  ghost function EncodeBody(im: Image): seq<byte>
    requires Writable(im)
  {
    EncodeHeader(|im.order|, im.state.lastId, im.walOffset, im.padding) + EncodeAccounts(im.state.accounts, im.order)
  }

  ghost function EncodeSnapshot(im: Image): seq<byte>
    requires Writable(im)
  {
    EncodeBody(im) + Trailer(Crc(EncodeBody(im)))
  }

  // ---------- Loading ----------

  datatype Loaded = Loaded(state: State, walOffset: u64)

  function Register(accounts: Accounts, a: Account): Accounts {
    if a.id in accounts then accounts else accounts[a.id := a]
  }

  /** The first `n` records; an id that occurs twice keeps its first account. */
  function DecodeAccounts(s: seq<byte>, n: nat): Accounts
    requires |s| >= RECORD * n
  {
    if n == 0 then map[]
    else Register(DecodeAccounts(s, n - 1), DecodeAccount(s[RECORD * (n - 1)..RECORD * n]))
  }

  function DecodeSnapshot(s: seq<byte>): Result<Loaded> {
    if |s| < HEADER || Get(s[..4]) != MAGIC || Get(s[4..6]) != VERSION then Err(SnapshotCorrupt)
    else
      var count := Get(s[8..12]);
      var end := HEADER + RECORD * count;
      if |s| < end + 4 || !Sealed(s[..end + 4]) then Err(SnapshotCorrupt)
      else Ok(Loaded(State(DecodeAccounts(s[HEADER..end], count), GetU64(s[16..24])), GetU64(s[24..32])))
  }

  /** A missing file is told apart from a damaged one. */
  function LoadOf(file: Option<seq<byte>>): Result<Loaded> {
    if file.None? then Err(SnapshotReadFailed) else DecodeSnapshot(file.value)
  }

  // ---------- Round trip ----------

  lemma HeaderFields(s: seq<byte>, count: nat, lastId: u64, walOffset: u64, padding: seq<byte>, rest: seq<byte>)
    requires |padding| == 4 && count < MAX_ACCOUNTS && s == EncodeHeader(count, lastId, walOffset, padding) + rest
    ensures Get(s[..4]) == MAGIC && Get(s[4..6]) == VERSION && Get(s[8..12]) == count
    ensures GetU64(s[16..24]) == lastId && GetU64(s[24..32]) == walOffset
  {
    hide Put, PutU64, Get, GetU64;
    assert s[..4] == Put(MAGIC, 4) && s[4..6] == Put(VERSION, 2) && s[8..12] == Put(count, 4);
    assert s[16..24] == PutU64(lastId) && s[24..32] == PutU64(walOffset);
    GetPutU32(MAGIC);
    GetPutU16(VERSION);
    GetPutU32(count);
    GetPutU64(lastId);
    GetPutU64(walOffset);
  }

  lemma {:induction false} AccountAt(accounts: Accounts, order: seq<u64>, i: nat)
    requires Selects(accounts, order) && i < |order|
    ensures EncodeAccounts(accounts, order)[RECORD * i..RECORD * (i + 1)] == EncodeAccount(accounts[order[i]])
    decreases |order|
  {
    if i != |order| - 1 {
      AccountAt(accounts, order[..|order| - 1], i);
      var front := EncodeAccounts(accounts, order[..|order| - 1]);
      assert EncodeAccounts(accounts, order)[RECORD * i..RECORD * (i + 1)] == front[RECORD * i..RECORD * (i + 1)];
    }
  }

  lemma {:induction false} AccountsRoundTrip(accounts: Accounts, order: seq<u64>, n: nat)
    requires Selects(accounts, order) && n <= |order|
    ensures DecodeAccounts(EncodeAccounts(accounts, order), n) == map id | id in order[..n] && id in accounts :: accounts[id]
    decreases n
  {
    if n != 0 {
      AccountsRoundTrip(accounts, order, n - 1);
      AccountAt(accounts, order, n - 1);
      AccountRoundTrip(accounts[order[n - 1]]);
      assert order[..n] == order[..n - 1] + [order[n - 1]];
    }
  }

  function RecordAt(s: seq<byte>, i: nat): Account
    requires |s| >= RECORD * (i + 1)
  {
    DecodeAccount(s[RECORD * i..RECORD * (i + 1)])
  }

  /** Of several records with the same id the first one counts, and every id comes from a record. */
  lemma {:induction false} FirstRecordCounts(s: seq<byte>, n: nat, i: nat)
    requires i < n && |s| >= RECORD * n
    requires forall j: nat :: j < i ==> RecordAt(s, j).id != RecordAt(s, i).id
    ensures var accounts, a := DecodeAccounts(s, n), RecordAt(s, i);
            a.id in accounts && accounts[a.id] == a
    decreases n
  {
    hide DecodeAccount;
    if i < n - 1 {
      FirstRecordCounts(s, n - 1, i);
    } else if RecordAt(s, i).id in DecodeAccounts(s, i) {
      var j := FromRecord(s, i, RecordAt(s, i).id);
    }
  }

  lemma {:induction false} FromRecord(s: seq<byte>, n: nat, id: u64) returns (i: nat)
    requires |s| >= RECORD * n && id in DecodeAccounts(s, n)
    ensures i < n && RecordAt(s, i).id == id
    decreases n
  {
    hide DecodeAccount;
    if id in DecodeAccounts(s, n - 1) {
      i := FromRecord(s, n - 1, id);
    } else {
      i := n - 1;
    }
  }

  lemma Slices(h: seq<byte>, r: seq<byte>, t: seq<byte>)
    requires |h| == HEADER && |t| == 4
    ensures var s := h + r + t;
            var end := HEADER + |r|;
            s[..end] == h + r && s[end..] == t && s[HEADER..end] == r && s == h + (r + t)
  {
  }

  lemma AllAccounts(accounts: Accounts, order: seq<u64>)
    requires Selects(accounts, order) && Visits(order, accounts.Keys)
    ensures DecodeAccounts(EncodeAccounts(accounts, order), |order|) == accounts
  {
    AccountsRoundTrip(accounts, order, |order|);
    assert order[..|order|] == order;
    assert (map id | id in order && id in accounts :: accounts[id]) == accounts;
  }

  lemma DecodeParts(h: seq<byte>, r: seq<byte>, count: nat, lastId: u64, walOffset: u64, padding: seq<byte>)
    requires |padding| == 4 && count < MAX_ACCOUNTS && |r| == RECORD * count
    requires h == EncodeHeader(count, lastId, walOffset, padding)
    ensures DecodeSnapshot((h + r) + Trailer(Crc(h + r))) == Ok(Loaded(State(DecodeAccounts(r, count), lastId), walOffset))
  {
    var t := Trailer(Crc(h + r));
    Slices(h, r, t);
    HeaderFields(h + r + t, count, lastId, walOffset, padding, r + t);
    SealedFile(h + r, h + r + t);
  }

  /** Loading what was written returns the same accounts, last id and log offset, for every
      account order and every padding. */
  lemma SnapshotRoundTrip(im: Image)
    requires Writable(im)
    ensures DecodeSnapshot(EncodeSnapshot(im)) == Ok(Loaded(im.state, im.walOffset))
  {
    var n, accounts := |im.order|, im.state.accounts;
    DecodeParts(EncodeHeader(n, im.state.lastId, im.walOffset, im.padding), EncodeAccounts(accounts, im.order),
                n, im.state.lastId, im.walOffset, im.padding);
    AllAccounts(accounts, im.order);
  }

  /** The header of a snapshot, byte by byte: magic number "PANS", version 1, the account count, the
      last id from byte 16 on and the log offset from byte 24 on. */
  predicate HeaderStands(s: seq<byte>, count: nat, lastId: u64, walOffset: u64) {
    && |s| >= 32
    && s[0] == 0x50 && s[1] == 0x41 && s[2] == 0x4E && s[3] == 0x53 && s[4] == 1 && s[5] == 0
    && Get(s[8..12]) == count && GetU64(s[16..24]) == lastId && GetU64(s[24..32]) == walOffset
  }

  /** The record of an account, byte by byte: id, type code, balance and overdraft limit. */
  predicate AccountStands(s: seq<byte>, at: nat, a: Account) {
    && |s| >= at + 25
    && GetU64(s[at..at + 8]) == a.id && s[at + 8] == a.accountType
    && GetI64(s[at + 9..at + 17]) == a.balance && GetI64(s[at + 17..at + 25]) == a.overdraftLimit
  }

  /** Where everything stands in a snapshot: the header, from byte 32 on 25 bytes per account, and in
      the last four bytes the checksum of all that. */
  lemma SnapshotLayout(im: Image)
    requires Writable(im)
    ensures var s := EncodeSnapshot(im);
            && |s| == 36 + 25 * |im.order|
            && HeaderStands(s, |im.order|, im.state.lastId, im.walOffset)
            && (forall i: nat :: i < |im.order| ==> AccountStands(s, 32 + 25 * i, im.state.accounts[im.order[i]]))
            && Word(s[|s| - 4..]) == Crc(s[..|s| - 4])
  {
    hide HeaderStands, AccountStands, Crc, Word, EncodeHeader, EncodeAccounts;
    var h, r := EncodeHeader(|im.order|, im.state.lastId, im.walOffset, im.padding), EncodeAccounts(im.state.accounts, im.order);
    var t := Trailer(Crc(h + r));
    var s := h + r + t;
    Slices(h, r, t);
    SealedFile(h + r, s);
    HeaderLayout(|im.order|, im.state.lastId, im.walOffset, im.padding, r + t);
    forall i: nat | i < |im.order| ensures AccountStands(s, 32 + 25 * i, im.state.accounts[im.order[i]]) {
      AccountLayout(h, im.state.accounts, im.order, t, i);
    }
  }

  lemma HeaderLayout(count: nat, lastId: u64, walOffset: u64, padding: seq<byte>, rest: seq<byte>)
    requires |padding| == 4 && count < MAX_ACCOUNTS
    ensures HeaderStands(EncodeHeader(count, lastId, walOffset, padding) + rest, count, lastId, walOffset)
  {
    hide Get, GetU64, EncodeHeader;
    HeaderFields(EncodeHeader(count, lastId, walOffset, padding) + rest, count, lastId, walOffset, padding, rest);
    HeaderStart(count, lastId, walOffset, padding);
  }

  lemma AccountLayout(h: seq<byte>, accounts: Accounts, order: seq<u64>, t: seq<byte>, i: nat)
    requires |h| == 32 && Selects(accounts, order) && i < |order|
    ensures AccountStands(h + EncodeAccounts(accounts, order) + t, 32 + 25 * i, accounts[order[i]])
  {
    hide EncodeAccounts, EncodeAccount, GetU64, GetI64;
    var r := EncodeAccounts(accounts, order);
    AccountAt(accounts, order, i);
    Between(h, r, t, 25 * i, 25 * i + 25);
    AccountFields(h + r + t, 32 + 25 * i, accounts[order[i]]);
  }

  lemma Between(a: seq<byte>, b: seq<byte>, c: seq<byte>, i: nat, j: nat)
    requires i <= j <= |b|
    ensures (a + b + c)[|a| + i..|a| + j] == b[i..j]
  {
  }

  lemma HeaderStart(count: nat, lastId: u64, walOffset: u64, padding: seq<byte>)
    requires |padding| == 4
    ensures var h := EncodeHeader(count, lastId, walOffset, padding);
            h[0] == 0x50 && h[1] == 0x41 && h[2] == 0x4E && h[3] == 0x53 && h[4] == 1 && h[5] == 0
  {
    hide PutU64;
    PutBytes(MAGIC);
    PutBytes(VERSION);
  }

  lemma AccountFields(s: seq<byte>, at: nat, a: Account)
    requires InI64(a.balance) && at + 25 <= |s| && s[at..at + 25] == EncodeAccount(a)
    ensures GetU64(s[at..at + 8]) == a.id && s[at + 8] == a.accountType
    ensures GetI64(s[at + 9..at + 17]) == a.balance && GetI64(s[at + 17..at + 25]) == a.overdraftLimit
  {
    hide Get, GetU64, GetI64, PutU64, PutI64;
    var m := s[at..at + 25];
    assert m[..8] == PutU64(a.id) && m[9..17] == PutI64(a.balance) && m[17..25] == PutI64(a.overdraftLimit);
    Within(s, at, at + 25, 0, 8);
    Within(s, at, at + 25, 9, 17);
    Within(s, at, at + 25, 17, 25);
    assert s[at + 8] == m[8];
    GetPutU64(a.id);
    GetPutI64(a.balance);
    GetPutI64(a.overdraftLimit);
  }

  /** What is accepted as a snapshot, on the bytes; bytes behind the checksum are not looked at. */
  lemma LoadAccepts(s: seq<byte>)
    ensures DecodeSnapshot(s).Ok? <==>
            && |s| >= 32 && s[0] == 0x50 && s[1] == 0x41 && s[2] == 0x4E && s[3] == 0x53 && s[4] == 1 && s[5] == 0
            && var end := 32 + 25 * Get(s[8..12]);
            && |s| >= end + 4 && Word(s[end..end + 4]) == Crc(s[..end])
    ensures DecodeSnapshot(s).Err? ==> DecodeSnapshot(s) == Err(SnapshotCorrupt)
  {
    hide Crc, Word, DecodeAccounts, GetU64;
    if |s| >= 32 {
      GetFour(s[..4]);
      GetTwo(s[4..6]);
      var end := 32 + 25 * Get(s[8..12]);
      if |s| >= end + 4 {
        assert s[..end + 4][..end] == s[..end] && s[..end + 4][end..] == s[end..end + 4];
      }
    }
  }

  lemma SealedFile(body: seq<byte>, file: seq<byte>)
    requires file == body + Trailer(Crc(body))
    ensures Sealed(file) && file[..|body| + 4] == file
  {
    assert file[..|file| - 4] == body && file[|file| - 4..] == Trailer(Crc(body));
    TrailerBack(Crc(body));
  }

  /** Damage within four consecutive bytes of a snapshot that leaves the account count alone is
      always noticed. */
  lemma DamageNoticed(im: Image, damaged: seq<byte>, at: nat)
    requires Writable(im) && DifferInWindow(EncodeSnapshot(im), damaged, at)
    requires damaged != EncodeSnapshot(im) && damaged[8..12] == EncodeSnapshot(im)[8..12]
    ensures DecodeSnapshot(damaged) == Err(SnapshotCorrupt)
  {
    var n := |im.order|;
    var h, r := EncodeHeader(n, im.state.lastId, im.walOffset, im.padding), EncodeAccounts(im.state.accounts, im.order);
    var t := Trailer(Crc(h + r));
    var file := h + r + t;
    Slices(h, r, t);
    HeaderFields(file, n, im.state.lastId, im.walOffset, im.padding, r + t);
    SealedFile(h + r, file);
    BurstBreaksSeal(file, damaged, at);
    UnsealedFile(damaged, n);
  }

  lemma UnsealedFile(s: seq<byte>, count: nat)
    requires |s| == HEADER + RECORD * count + 4 && Get(s[8..12]) == count && !Sealed(s)
    ensures DecodeSnapshot(s) == Err(SnapshotCorrupt)
  {
    assert s[..|s|] == s;
  }

  // ---------- The programs ----------

  /** Fills the file image through a moving offset; the checksum is written after it. */
  method BuildSnapshot(im: Image) returns (body: seq<byte>, trailer: seq<byte>)
    requires Writable(im)
    ensures body == EncodeBody(im) && trailer == Trailer(Crc(body)) && body + trailer == EncodeSnapshot(im)
  {
    body := BuildBody(im);
    var crc := Compute(body);
    trailer := Trailer(crc);
  }

  method BuildBody(im: Image) returns (body: seq<byte>)
    requires Writable(im)
    ensures body == EncodeBody(im)
  {
    var n := |im.order|;
    var header := EncodeHeader(n, im.state.lastId, im.walOffset, im.padding);
    var buffer := new byte[HEADER + RECORD * n](_ => 0);
    var offset := Store(buffer, 0, header);
    assert buffer[..HEADER] == header;
    FillAccounts(buffer, im);
    body := buffer[..];
  }

  method FillAccounts(buffer: array<byte>, im: Image)
    requires Writable(im) && buffer.Length == HEADER + RECORD * |im.order|
    modifies buffer
    ensures buffer[..] == old(buffer[..HEADER]) + EncodeAccounts(im.state.accounts, im.order)
  {
    hide EncodeAccount;
    var offset := HEADER;
    var i := 0;
    while i < |im.order|
      invariant 0 <= i <= |im.order| && offset == HEADER + RECORD * i
      invariant buffer[..offset] == old(buffer[..HEADER]) + EncodeAccounts(im.state.accounts, im.order[..i])
    {
      assert im.order[..i + 1][..i] == im.order[..i];
      offset := Store(buffer, offset, EncodeAccount(im.state.accounts[im.order[i]]));
      i := i + 1;
    }
    assert im.order[..i] == im.order && buffer[..offset] == buffer[..];
  }

  method LoadSnapshot(file: Option<seq<byte>>) returns (r: Result<Loaded>)
    ensures r == LoadOf(file)
  {
    hide Sealed, DecodeAccounts;
    if file.None? {
      return Err(SnapshotReadFailed);
    }
    var s := file.value;
    if |s| < HEADER || Get(s[..4]) != MAGIC || Get(s[4..6]) != VERSION {
      return Err(SnapshotCorrupt);
    }
    var count := Get(s[8..12]);
    var end := HEADER + RECORD * count;
    if |s| < end + 4 {
      return Err(SnapshotCorrupt);
    }
    var ok := CheckSeal(s[..end + 4]);
    if !ok {
      return Err(SnapshotCorrupt);
    }
    var accounts := LoadAccounts(s[HEADER..end], count);
    r := Ok(Loaded(State(accounts, GetU64(s[16..24])), GetU64(s[24..32])));
  }

  method CheckSeal(s: seq<byte>) returns (ok: bool)
    requires |s| >= 4
    ensures ok == Sealed(s)
  {
    var computed := Compute(s[..|s| - 4]);
    ok := Word(s[|s| - 4..]) == computed;
  }

  method LoadAccounts(s: seq<byte>, count: nat) returns (accounts: Accounts)
    requires |s| == RECORD * count
    ensures accounts == DecodeAccounts(s, count)
  {
    hide DecodeAccount;
    accounts := map[];
    var i := 0;
    while i < count
      invariant 0 <= i <= count && accounts == DecodeAccounts(s, i)
    {
      var a := DecodeAccount(s[RECORD * i..RECORD * (i + 1)]);
      if a.id !in accounts {
        accounts := accounts[a.id := a];
      }
      i := i + 1;
    }
  }
}

/** Replacing a snapshot through a temporary file and a rename: what a crash can leave behind. */
module SnapshotFile {
  import opened Types
  import opened Ledger
  import opened Sums
  import opened Snapshot
  import Crc32

  /** `target` is the file at the snapshot path and `previous` what a crash may bring back as long
      as the directory entry is not on stable storage. Unsynced file contents survive a crash only
      as some prefix. */
  datatype Disk = Disk(target: Option<seq<byte>>, targetSynced: bool,
                       previous: Option<seq<byte>>, entrySynced: bool,
                       tmp: Option<seq<byte>>, tmpSynced: bool)

  function Resting(target: Option<seq<byte>>): Disk {
    Disk(target, true, target, true, None, false)
  }

  /** Outcomes of the calls of one `write_snapshot`. */
  datatype Io = Io(openOk: bool, bodyWritten: nat, trailerWritten: nat, fsyncOk: bool, renameOk: bool, directorySynced: bool)

  function Prefix(s: seq<byte>, n: nat): seq<byte> {
    if n < |s| then s[..n] else s
  }

  /** The disk after each call, in order; the program stops at the first call that fails. */
  function Trace(before: Option<seq<byte>>, body: seq<byte>, trailer: seq<byte>, io: Io): (t: seq<Disk>)
    ensures |t| >= 1
  {
    var d0 := Resting(before);
    if !io.openOk then [d0]
    else
      var d1 := d0.(tmp := Some([]), tmpSynced := false);
      var d2 := d1.(tmp := Some(Prefix(body, io.bodyWritten)));
      if io.bodyWritten < |body| then [d0, d1, d2]
      else
        var d3 := d2.(tmp := Some(body + Prefix(trailer, io.trailerWritten)));
        if io.trailerWritten < |trailer| then [d0, d1, d2, d3]
        else if !io.fsyncOk then [d0, d1, d2, d3]
        else
          var d4 := d3.(tmpSynced := true);
          if !io.renameOk then [d0, d1, d2, d3, d4]
          else
            var d5 := Disk(d4.tmp, d4.tmpSynced, d4.target, false, None, false);
            var d6 := d5.(entrySynced := io.directorySynced);
            [d0, d1, d2, d3, d4, d5, d6]
  }

  /** What `write_snapshot` returns; that the directory could not be synced is not reported. */
  function WriteResult(body: seq<byte>, trailer: seq<byte>, io: Io): Result<()> {
    if !io.openOk then Err(SnapshotOpenFailed)
    else if io.bodyWritten < |body| || io.trailerWritten < |trailer| || !io.fsyncOk || !io.renameOk then Err(SnapshotWriteFailed)
    else Ok(())
  }

  function Final(before: Option<seq<byte>>, body: seq<byte>, trailer: seq<byte>, io: Io): Disk {
    var t := Trace(before, body, trailer, io);
    t[|t| - 1]
  }

  /** The program: one call after the other, and out at the first that fails. */
  method WriteSnapshot(before: Option<seq<byte>>, im: Image, io: Io) returns (r: Result<()>, disk: Disk, ghost trace: seq<Disk>)
    requires Writable(im)
    ensures var body := EncodeBody(im);
            var trailer := Crc32.Trailer(Crc32.Crc(body));
            trace == Trace(before, body, trailer, io) && disk == Final(before, body, trailer, io) && r == WriteResult(body, trailer, io)
  {
    hide EncodeSnapshot, EncodeBody, Writable, Crc32.Crc, Crc32.Trailer, Prefix;
    disk := Resting(before);
    trace := [disk];
    var body, trailer := BuildSnapshot(im);
    if !io.openOk {
      return Err(SnapshotOpenFailed), disk, trace;
    }
    disk := disk.(tmp := Some([]), tmpSynced := false);
    trace := trace + [disk];
    disk := disk.(tmp := Some(Prefix(body, io.bodyWritten)));
    trace := trace + [disk];
    if io.bodyWritten < |body| {
      return Err(SnapshotWriteFailed), disk, trace;
    }
    disk := disk.(tmp := Some(body + Prefix(trailer, io.trailerWritten)));
    trace := trace + [disk];
    if io.trailerWritten < |trailer| || !io.fsyncOk {
      return Err(SnapshotWriteFailed), disk, trace;
    }
    disk := disk.(tmpSynced := true);
    trace := trace + [disk];
    if !io.renameOk {
      return Err(SnapshotWriteFailed), disk, trace;
    }
    disk := Disk(disk.tmp, disk.tmpSynced, disk.target, false, None, false);
    trace := trace + [disk];
    disk := disk.(entrySynced := io.directorySynced);
    trace := trace + [disk];
    r := Ok(());
  }

  /** `found` may be the snapshot file after a crash. */
  ghost predicate MayFind(d: Disk, found: Option<seq<byte>>) {
    || (!d.entrySynced && found == d.previous)
    || (if d.targetSynced || d.target.None? then found == d.target
        else found.Some? && found.value <= d.target.value)
  }

  /** Whatever call fails and wherever the crash comes, the snapshot path holds the old file or the
      complete new one. */
  lemma OldOrNew(before: Option<seq<byte>>, body: seq<byte>, trailer: seq<byte>, io: Io, i: nat, found: Option<seq<byte>>)
    requires i < |Trace(before, body, trailer, io)| && MayFind(Trace(before, body, trailer, io)[i], found)
    ensures found == before || found == Some(body + trailer)
  {
  }

  /** Success is reported exactly if every call succeeds, the sync of the directory aside. Then the
      path holds the complete new file with its contents on stable storage; after a failure it holds
      the old one, and so it does after a crash at any point of a failed attempt. */
  lemma SuccessReplaces(before: Option<seq<byte>>, body: seq<byte>, trailer: seq<byte>, io: Io)
    ensures var r, end := WriteResult(body, trailer, io), Final(before, body, trailer, io);
            && (r.Ok? <==> io.openOk && io.bodyWritten >= |body| && io.trailerWritten >= |trailer| && io.fsyncOk && io.renameOk)
            && (r.Ok? ==> end.target == Some(body + trailer) && end.targetSynced && end.tmp == None)
            && (r.Err? ==> end.target == before)
    ensures WriteResult(body, trailer, io).Err? ==>
            forall i, found ::
              0 <= i < |Trace(before, body, trailer, io)| && MayFind(Trace(before, body, trailer, io)[i], found) ==> found == before
  {
  }

  /** A new snapshot survives every later crash exactly if its writing succeeded and the directory was
      synced, which success does not promise. */
  lemma SurvivesIff(before: Option<seq<byte>>, body: seq<byte>, trailer: seq<byte>, io: Io)
    requires before != Some(body + trailer)
    ensures (forall found :: MayFind(Final(before, body, trailer, io), found) ==> found == Some(body + trailer))
       <==> WriteResult(body, trailer, io).Ok? && io.directorySynced
  {
    assert MayFind(Final(before, body, trailer, io), before) <==> !(WriteResult(body, trailer, io).Ok? && io.directorySynced);
  }

  /** So after a successful write the loader returns the new state. */
  lemma WrittenIsLoaded(before: Option<seq<byte>>, im: Image, body: seq<byte>, trailer: seq<byte>, io: Io)
    requires Writable(im) && body + trailer == EncodeSnapshot(im) && WriteResult(body, trailer, io).Ok?
    ensures LoadOf(Final(before, body, trailer, io).target) == Ok(Loaded(im.state, im.walOffset))
  {
    hide EncodeSnapshot, DecodeSnapshot, Writable;
    SnapshotRoundTrip(im);
  }

  /** So a good old snapshot is never replaced by one that does not load: after a crash the loader
      returns the old state or the new one. */
  lemma CrashNeverCorrupts(before: Image, after: Image, body: seq<byte>, trailer: seq<byte>, io: Io, i: nat, found: Option<seq<byte>>)
    requires Writable(before) && Writable(after) && body + trailer == EncodeSnapshot(after)
    requires var t := Trace(Some(EncodeSnapshot(before)), body, trailer, io);
             i < |t| && MayFind(t[i], found)
    ensures LoadOf(found) == Ok(Loaded(before.state, before.walOffset)) || LoadOf(found) == Ok(Loaded(after.state, after.walOffset))
  {
    OldOrNew(Some(EncodeSnapshot(before)), body, trailer, io, i, found);
    SnapshotRoundTrip(before);
    SnapshotRoundTrip(after);
  }
}
