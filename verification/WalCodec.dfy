/** The payload of a log record (src/wal_codec.cpp):
    key.high, key.low, leg count, then account id, direction and amount of every leg. */
module WalCodec {
  import opened Types
  import opened Bytes

  const MAX_PAYLOAD: nat := 512
  const PREFIX: nat := 17
  const LEG: nat := 17

  function DirectionByte(d: Direction): byte {
    if d == Debit then 0 else 1
  }

  function EncodeLeg(leg: EntryLeg): (s: seq<byte>)
    ensures |s| == LEG
  {
    PutU64(leg.accountId) + [DirectionByte(leg.direction)] + PutI64(leg.amount)
  }

  function EncodeLegs(legs: seq<EntryLeg>): (s: seq<byte>)
    ensures |s| == LEG * |legs|
  {
    if legs == [] then [] else EncodeLegs(legs[..|legs| - 1]) + EncodeLeg(legs[|legs| - 1])
  }

  function EncodePrefix(key: IdempotencyKey, count: byte): (s: seq<byte>)
    ensures |s| == PREFIX
  {
    PutU64(key.high) + PutU64(key.low) + [count]
  }

  function EncodePayload(tx: Transaction): (s: seq<byte>)
    ensures |s| == PREFIX + LEG * |tx.legs| <= 289
  {
    EncodePrefix(tx.key, |tx.legs|) + EncodeLegs(tx.legs)
  }

  /** One leg; there is none if the direction byte is neither 0 nor 1. */
  function DecodeLeg(s: seq<byte>): Option<EntryLeg>
    requires |s| == LEG
  {
    if s[8] > 1 then None
    else Some(EntryLeg(GetU64(s[..8]), if s[8] == 0 then Debit else Credit, GetI64(s[9..])))
  }

  /** The first `n` legs. */
  function DecodeLegs(s: seq<byte>, n: nat): (legs: Option<seq<EntryLeg>>)
    requires |s| >= LEG * n
    ensures legs.Some? ==> |legs.value| == n
  {
    if n == 0 then Some([])
    else
      var before := DecodeLegs(s, n - 1);
      var leg := DecodeLeg(s[LEG * (n - 1)..LEG * n]);
      if before.None? || leg.None? then None else Some(before.value + [leg.value])
  }

  function DecodePayload(s: seq<byte>, id: u64, timestampNs: i64): Result<Transaction> {
    if |s| < PREFIX || s[16] > MAX_LEGS || |s| != PREFIX + LEG * s[16] then Err(WalCorruptRecord)
    else
      var legs := DecodeLegs(s[PREFIX..], s[16]);
      if legs.None? then Err(WalCorruptRecord)
      else Ok(Transaction(id, IdempotencyKey(GetU64(s[..8]), GetU64(s[8..16])), timestampNs, legs.value))
  }

  // ---------- Encoding and decoding are inverse ----------

  lemma LegRoundTrip(leg: EntryLeg)
    ensures DecodeLeg(EncodeLeg(leg)) == Some(leg)
  {
    var s := EncodeLeg(leg);
    assert s[..8] == PutU64(leg.accountId) && s[9..] == PutI64(leg.amount);
    GetPutU64(leg.accountId);
    GetPutI64(leg.amount);
  }

  lemma LegCanonical(s: seq<byte>)
    requires |s| == LEG && DecodeLeg(s).Some?
    ensures EncodeLeg(DecodeLeg(s).value) == s
  {
    PutGetU64(s[..8]);
    PutGetI64(s[9..]);
    assert s == s[..8] + [s[8]] + s[9..];
  }

  lemma {:induction false} LegsRoundTrip(legs: seq<EntryLeg>, n: nat)
    requires n <= |legs|
    ensures DecodeLegs(EncodeLegs(legs), n) == Some(legs[..n])
    decreases n
  {
    if n != 0 {
      LegsRoundTrip(legs, n - 1);
      LegAt(legs, n - 1);
      LegRoundTrip(legs[n - 1]);
      assert legs[..n] == legs[..n - 1] + [legs[n - 1]];
    }
  }

  /** Leg `i` stands at byte 17 * i. */
  lemma {:induction false} LegAt(legs: seq<EntryLeg>, i: nat)
    requires i < |legs|
    ensures EncodeLegs(legs)[LEG * i..LEG * (i + 1)] == EncodeLeg(legs[i])
    decreases |legs|
  {
    if i != |legs| - 1 {
      LegAt(legs[..|legs| - 1], i);
      var front := EncodeLegs(legs[..|legs| - 1]);
      assert EncodeLegs(legs)[LEG * i..LEG * (i + 1)] == front[LEG * i..LEG * (i + 1)];
    }
  }

  lemma {:induction false} LegsCanonical(s: seq<byte>, n: nat)
    requires |s| >= LEG * n && DecodeLegs(s, n).Some?
    ensures EncodeLegs(DecodeLegs(s, n).value) == s[..LEG * n]
  {
    if n != 0 {
      LegsCanonical(s, n - 1);
      LegCanonical(s[LEG * (n - 1)..LEG * n]);
      var legs := DecodeLegs(s, n).value;
      assert legs[..n - 1] == DecodeLegs(s, n - 1).value;
      assert s[..LEG * n] == s[..LEG * (n - 1)] + s[LEG * (n - 1)..LEG * n];
    }
  }

  /** Decoding an encoded transaction returns its key and legs under the given id and timestamp. */
  lemma PayloadRoundTrip(tx: Transaction, id: u64, timestampNs: i64)
    ensures DecodePayload(EncodePayload(tx), id, timestampNs) == Ok(tx.(id := id, createdAtNs := timestampNs))
  {
    var s := EncodePayload(tx);
    assert s[..8] == PutU64(tx.key.high) && s[8..16] == PutU64(tx.key.low) && s[16] == |tx.legs|;
    assert s[PREFIX..] == EncodeLegs(tx.legs);
    GetPutU64(tx.key.high);
    GetPutU64(tx.key.low);
    LegsRoundTrip(tx.legs, |tx.legs|);
    assert tx.legs[..|tx.legs|] == tx.legs;
  }

  /** Where everything stands in a payload: the key's halves in bytes 0 to 15, the leg count in byte
      16, and from byte 17 on 17 bytes per leg, of which the ninth is 0 for a debit and 1 for a
      credit. */
  lemma PayloadLayout(tx: Transaction, i: nat)
    requires i < |tx.legs|
    ensures var s, at := EncodePayload(tx), 17 + 17 * i;
            && |s| == 17 + 17 * |tx.legs|
            && GetU64(s[0..8]) == tx.key.high && GetU64(s[8..16]) == tx.key.low && s[16] == |tx.legs|
            && GetU64(s[at..at + 8]) == tx.legs[i].accountId
            && s[at + 8] == (match tx.legs[i].direction case Debit => 0 case Credit => 1)
            && GetI64(s[at + 9..at + 17]) == tx.legs[i].amount
  {
    hide PutU64, PutI64, GetU64, GetI64;
    var s, at, leg := EncodePayload(tx), 17 + 17 * i, EncodeLeg(tx.legs[i]);
    assert s[0..8] == PutU64(tx.key.high) && s[8..16] == PutU64(tx.key.low);
    GetPutU64(tx.key.high);
    GetPutU64(tx.key.low);
    LegAt(tx.legs, i);
    assert s[at..at + 17] == EncodeLegs(tx.legs)[LEG * i..LEG * (i + 1)] == leg;
    LegFields(s, at, tx.legs[i]);
  }

  lemma LegFields(s: seq<byte>, at: nat, leg: EntryLeg)
    requires at + 17 <= |s| && s[at..at + 17] == EncodeLeg(leg)
    ensures GetU64(s[at..at + 8]) == leg.accountId && s[at + 8] == DirectionByte(leg.direction)
    ensures GetI64(s[at + 9..at + 17]) == leg.amount
  {
    hide PutU64, PutI64, GetU64, GetI64;
    var m := s[at..at + 17];
    assert s[at..at + 8] == m[..8] == PutU64(leg.accountId) && s[at + 9..at + 17] == m[9..] == PutI64(leg.amount);
    assert s[at + 8] == m[8];
    GetPutU64(leg.accountId);
    GetPutI64(leg.amount);
  }

  /** Every accepted payload is the encoding of what it decodes to: the codec is a bijection
      between transactions (without id and time) and accepted byte strings. */
  lemma PayloadCanonical(s: seq<byte>, id: u64, timestampNs: i64)
    requires DecodePayload(s, id, timestampNs).Ok?
    ensures EncodePayload(DecodePayload(s, id, timestampNs).value) == s
  {
    PrefixCanonical(s[..PREFIX]);
    assert s[..PREFIX][..8] == s[..8] && s[..PREFIX][8..16] == s[8..16];
    var rest := s[PREFIX..];
    LegsCanonical(rest, s[16]);
    assert rest[..LEG * s[16]] == rest;
    assert s == s[..PREFIX] + rest;
  }

  lemma PrefixCanonical(p: seq<byte>)
    requires |p| == PREFIX
    ensures EncodePrefix(IdempotencyKey(GetU64(p[..8]), GetU64(p[8..16])), p[16]) == p
  {
    PutGetU64(p[..8]);
    PutGetU64(p[8..16]);
    assert p == p[..8] + p[8..16] + [p[16]];
  }

  // ---------- The programs ----------

  /** Writes the payload into the fixed buffer; `size` bytes of it are used. The buffer is always
      large enough, so the too-large error of the program cannot occur. */
  method EncodeTransactionPayload(tx: Transaction) returns (buffer: array<byte>, size: nat)
    ensures fresh(buffer) && buffer.Length == MAX_PAYLOAD
    ensures size <= 289 && buffer[..size] == EncodePayload(tx)
  {
    buffer := new byte[MAX_PAYLOAD](_ => 0);
    size := Store(buffer, 0, EncodePrefix(tx.key, |tx.legs|));
    var i := 0;
    while i < |tx.legs|
      invariant 0 <= i <= |tx.legs|
      invariant size == PREFIX + LEG * i
      invariant buffer[..size] == EncodePrefix(tx.key, |tx.legs|) + EncodeLegs(tx.legs[..i])
    {
      assert tx.legs[..i + 1][..i] == tx.legs[..i];
      size := Store(buffer, size, EncodeLeg(tx.legs[i]));
      i := i + 1;
    }
    assert tx.legs[..i] == tx.legs;
  }

  method ReadLegs(s: seq<byte>, count: nat) returns (r: Option<seq<EntryLeg>>)
    requires |s| == LEG * count
    ensures r == DecodeLegs(s, count)
  {
    var offset := 0;
    var legs: seq<EntryLeg> := [];
    var i := 0;
    while i < count
      invariant 0 <= i <= count
      invariant offset == LEG * i
      invariant DecodeLegs(s, i) == Some(legs)
    {
      var leg := DecodeLeg(s[offset..offset + LEG]);
      if leg.None? {
        NoLegs(s, i + 1, count);
        return None;
      }
      legs := legs + [leg.value];
      offset := offset + LEG;
      i := i + 1;
    }
    r := Some(legs);
  }

  /** Reads the payload through a moving offset. */
  method DecodeTransactionPayload(s: seq<byte>, id: u64, timestampNs: i64) returns (r: Result<Transaction>)
    ensures r == DecodePayload(s, id, timestampNs)
  {
    if |s| < PREFIX {
      return Err(WalCorruptRecord);
    }
    var high, low, count := GetU64(s[..8]), GetU64(s[8..16]), s[16];
    if count > MAX_LEGS || |s| != PREFIX + LEG * count {
      return Err(WalCorruptRecord);
    }
    var legs := ReadLegs(s[PREFIX..], count);
    if legs.None? {
      return Err(WalCorruptRecord);
    }
    r := Ok(Transaction(id, IdempotencyKey(high, low), timestampNs, legs.value));
  }

  /** A bad leg spoils every longer list. */
  lemma {:induction false} NoLegs(s: seq<byte>, k: nat, n: nat)
    requires k <= n && |s| >= LEG * n && DecodeLegs(s, k).None?
    ensures DecodeLegs(s, n).None?
    decreases n
  {
    if k < n {
      NoLegs(s, k, n - 1);
    }
  }
}
