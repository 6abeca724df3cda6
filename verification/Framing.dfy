/** Greedy reading of a byte stream made of self-delimiting records, for any record format.

    The format enters as `parse`, which looks at the bytes from the read position to the end of the
    stream, and `encode`, which writes one record. */
module Framing {
  import opened Types

  datatype Parsed<T> = Record(item: T, size: nat) | EndOfLog | Corrupt | Truncated

  /** Everything up to the first failure; `length` is the end of the last good record. */
  datatype Scanned<T> = Scanned(items: seq<T>, length: nat, end: Parsed<T>)

  /** A record is not empty and lies within the stream. */
  ghost predicate Bounded<T>(parse: seq<byte> -> Parsed<T>) {
    forall s :: parse(s).Record? ==> 0 < parse(s).size <= |s|
  }

  /** A record is recognised by its own bytes alone, and only the empty stream ends cleanly. */
  ghost predicate Local<T>(parse: seq<byte> -> Parsed<T>) {
    && Bounded(parse)
    && (forall s :: parse(s) == EndOfLog <==> s == [])
    && forall s, rest :: parse(s).Record? ==> parse(s[..parse(s).size] + rest) == parse(s)
  }

  /** A written record is read back whole, whatever follows it. */
  ghost predicate ReadsBack<T(!new)>(parse: seq<byte> -> Parsed<T>, encode: T -> seq<byte>) {
    forall x, rest :: parse(encode(x) + rest) == Record(x, |encode(x)|)
  }

  /** A strict prefix of a written record is never read as a record. */
  ghost predicate ShowsTears<T(!new)>(parse: seq<byte> -> Parsed<T>, encode: T -> seq<byte>) {
    forall x, n: nat :: n < |encode(x)| ==> parse(encode(x)[..n]) == if n == 0 then EndOfLog else Truncated
  }

  ghost function Scan<T>(parse: seq<byte> -> Parsed<T>, s: seq<byte>): (r: Scanned<T>)
    requires Bounded(parse)
    ensures r.length <= |s| && !r.end.Record?
    decreases |s|
  {
    var p := parse(s);
    if p.Record? then
      var rest := Scan(parse, s[p.size..]);
      Scanned([p.item] + rest.items, p.size + rest.length, rest.end)
    else Scanned([], 0, p)
  }

  function Written<T>(encode: T -> seq<byte>, items: seq<T>): seq<byte> {
    if items == [] then [] else encode(items[0]) + Written(encode, items[1..])
  }

  // ---------- Scanning ----------

  lemma ScanFirst<T>(parse: seq<byte> -> Parsed<T>, first: seq<byte>, rest: seq<byte>)
    requires Bounded(parse) && parse(first + rest).Record? && parse(first + rest).size == |first|
    ensures Scan(parse, first + rest) == Prepend(parse(first + rest).item, |first|, Scan(parse, rest))
  {
    assert (first + rest)[|first|..] == rest;
  }

  function Prepend<T>(x: T, size: nat, r: Scanned<T>): Scanned<T> {
    Scanned([x] + r.items, size + r.length, r.end)
  }

  /** What a scan that reached the end of its bytes returns if more bytes follow. */
  function Continue<T>(items: seq<T>, length: nat, r: Scanned<T>): Scanned<T> {
    Scanned(items + r.items, length + r.length, r.end)
  }

  lemma PrependContinue<T>(x: T, size: nat, items: seq<T>, length: nat, r: Scanned<T>)
    ensures Prepend(x, size, Continue(items, length, r)) == Continue([x] + items, size + length, r)
  {
    assert [x] + (items + r.items) == ([x] + items) + r.items;
  }

  lemma {:induction false} ScanConcat<T>(parse: seq<byte> -> Parsed<T>, a: seq<byte>, b: seq<byte>)
    requires Local(parse) && Scan(parse, a).length == |a|
    ensures Scan(parse, a + b) == Continue(Scan(parse, a).items, |a|, Scan(parse, b))
    decreases |a|
  {
    var p := parse(a);
    if p.Record? {
      var first, rest := a[..p.size], a[p.size..];
      assert a + b == first + (rest + b);
      assert parse(first + (rest + b)) == p;
      ScanFirst(parse, first, rest + b);
      ScanConcat(parse, rest, b);
      PrependContinue(p.item, p.size, Scan(parse, rest).items, |rest|, Scan(parse, b));
    } else {
      assert a + b == b;
      assert [] + Scan(parse, b).items == Scan(parse, b).items;
    }
  }

  /** The bytes up to the last good record scan to the same records and end cleanly there. */
  lemma {:induction false} ScanKept<T>(parse: seq<byte> -> Parsed<T>, s: seq<byte>)
    requires Local(parse)
    ensures Scan(parse, s[..Scan(parse, s).length]) == Scanned(Scan(parse, s).items, Scan(parse, s).length, EndOfLog)
    decreases |s|
  {
    var p := parse(s);
    if p.Record? {
      var first, rest := s[..p.size], s[p.size..];
      var kept := rest[..Scan(parse, rest).length];
      assert s[..Scan(parse, s).length] == first + kept;
      assert parse(first + kept) == p;
      ScanFirst(parse, first, kept);
      ScanKept(parse, rest);
    } else {
      assert s[..0] == [];
    }
  }

  /** Written records followed by anything. */
  lemma {:induction false} ScanWritten<T(!new)>(parse: seq<byte> -> Parsed<T>, encode: T -> seq<byte>, items: seq<T>, tail: seq<byte>)
    requires Local(parse) && ReadsBack(parse, encode)
    ensures Scan(parse, Written(encode, items) + tail) == Continue(items, |Written(encode, items)|, Scan(parse, tail))
  {
    if items == [] {
      assert Written(encode, items) + tail == tail;
      assert items + Scan(parse, tail).items == Scan(parse, tail).items;
    } else {
      var first := encode(items[0]);
      var rest := Written(encode, items[1..]);
      assert Written(encode, items) + tail == first + (rest + tail);
      assert parse(first + (rest + tail)) == Record(items[0], |first|);
      ScanFirst(parse, first, rest + tail);
      ScanWritten(parse, encode, items[1..], tail);
      PrependContinue(items[0], |first|, items[1..], |rest|, Scan(parse, tail));
      assert items == [items[0]] + items[1..];
    }
  }

  lemma ScanAllWritten<T(!new)>(parse: seq<byte> -> Parsed<T>, encode: T -> seq<byte>, items: seq<T>)
    requires Local(parse) && ReadsBack(parse, encode)
    ensures Scan(parse, Written(encode, items)) == Scanned(items, |Written(encode, items)|, EndOfLog)
  {
    ScanWritten(parse, encode, items, []);
    assert Written(encode, items) + [] == Written(encode, items);
    assert items + [] == items;
  }

  lemma ScanTorn<T(!new)>(parse: seq<byte> -> Parsed<T>, encode: T -> seq<byte>, items: seq<T>, next: T, n: nat)
    requires Local(parse) && ReadsBack(parse, encode) && ShowsTears(parse, encode) && n < |encode(next)|
    ensures Scan(parse, Written(encode, items) + encode(next)[..n])
         == Scanned(items, |Written(encode, items)|, if n == 0 then EndOfLog else Truncated)
  {
    ScanUpTo(parse, encode, items, encode(next)[..n]);
  }

  /** A clean end is the end of the bytes. */
  lemma {:induction false} CleanScan<T>(parse: seq<byte> -> Parsed<T>, s: seq<byte>)
    requires Local(parse) && Scan(parse, s).end == EndOfLog
    ensures Scan(parse, s).length == |s|
    decreases |s|
  {
    var p := parse(s);
    if p.Record? {
      CleanScan(parse, s[p.size..]);
    }
  }

  /** If every record takes the bytes of its own encoding, so does a scan. */
  lemma {:induction false} ScanLength<T>(parse: seq<byte> -> Parsed<T>, encode: T -> seq<byte>, s: seq<byte>)
    requires Bounded(parse)
    requires forall t :: parse(t).Record? ==> parse(t).size == |encode(parse(t).item)|
    ensures Scan(parse, s).length == |Written(encode, Scan(parse, s).items)|
    decreases |s|
  {
    var p := parse(s);
    if p.Record? {
      var rest := Scan(parse, s[p.size..]);
      ScanLength(parse, encode, s[p.size..]);
      assert ([p.item] + rest.items)[1..] == rest.items;
    }
  }

  /** Written records followed by something that is not a record. */
  lemma ScanUpTo<T(!new)>(parse: seq<byte> -> Parsed<T>, encode: T -> seq<byte>, items: seq<T>, bad: seq<byte>)
    requires Local(parse) && ReadsBack(parse, encode) && !parse(bad).Record?
    ensures Scan(parse, Written(encode, items) + bad) == Scanned(items, |Written(encode, items)|, parse(bad))
  {
    ScanWritten(parse, encode, items, bad);
    assert items + [] == items;
  }

  // ---------- Written streams ----------

  lemma {:induction false} WrittenConcat<T>(encode: T -> seq<byte>, a: seq<T>, b: seq<T>)
    ensures Written(encode, a + b) == Written(encode, a) + Written(encode, b)
  {
    if a == [] {
      assert a + b == b;
    } else {
      assert (a + b)[1..] == a[1..] + b;
      WrittenConcat(encode, a[1..], b);
    }
  }

  lemma WrittenSnoc<T>(encode: T -> seq<byte>, a: seq<T>, x: T)
    ensures Written(encode, a + [x]) == Written(encode, a) + encode(x)
  {
    WrittenConcat(encode, a, [x]);
    assert Written(encode, [x]) == encode(x) + Written(encode, []);
  }

  lemma WrittenPrefix<T>(encode: T -> seq<byte>, items: seq<T>, k: nat)
    requires k <= |items|
    ensures |Written(encode, items[..k])| <= |Written(encode, items)|
    ensures Written(encode, items)[..|Written(encode, items[..k])|] == Written(encode, items[..k])
    ensures Written(encode, items)[|Written(encode, items[..k])|..] == Written(encode, items[k..])
  {
    assert items == items[..k] + items[k..];
    WrittenConcat(encode, items[..k], items[k..]);
  }

  /** Any cut of a written stream is some whole records and a strict prefix of the next one. */
  lemma {:induction false} CutWritten<T>(encode: T -> seq<byte>, items: seq<T>, n: nat) returns (k: nat)
    requires n <= |Written(encode, items)|
    ensures k <= |items| && |Written(encode, items[..k])| <= n
    ensures k < |items| ==> n < |Written(encode, items[..k])| + |encode(items[k])|
    ensures k == |items| ==> n == |Written(encode, items)|
    decreases |items|
  {
    if items == [] {
      k := 0;
    } else if n < |encode(items[0])| {
      k := 0;
      assert items[..0] == [];
    } else {
      var j := CutWritten(encode, items[1..], n - |encode(items[0])|);
      k := j + 1;
      assert items[..k][1..] == items[1..][..j] && items[..k][0] == items[0];
    }
  }

  lemma CutTail<T>(encode: T -> seq<byte>, items: seq<T>, k: nat, n: nat)
    requires k < |items|
    requires |Written(encode, items[..k])| <= n <= |Written(encode, items[..k])| + |encode(items[k])|
    requires n <= |Written(encode, items)|
    ensures Written(encode, items)[..n]
         == Written(encode, items[..k]) + encode(items[k])[..n - |Written(encode, items[..k])|]
  {
    var front := Written(encode, items[..k]);
    WrittenPrefix(encode, items, k);
    var all := Written(encode, items);
    assert items[k..][0] == items[k];
    assert all == front + (encode(items[k]) + Written(encode, items[k..][1..]));
  }
}
