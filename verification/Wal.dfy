/** Write-ahead-log framing: a checksum, a length and a payload per record, and the reader that takes them apart. */
module Wal {
  import opened Types

  newtype byte = x: int | 0 <= x < 256

  type u32 = x: nat | x < TWO_32

  const MAX_MSG_SIZE: nat := 12288

  // The checksum and the payload format belong to other components.
  datatype Format = Format(crc: seq<byte> -> u32, readable: seq<byte> -> bool)

  // ---------- big-endian words ----------

  function PutUint32(n: u32): (b: seq<byte>)
    ensures |b| == 4
  {
    [(n / 0x100_0000) as byte, (n / 0x1_0000 % 256) as byte, (n / 256 % 256) as byte, (n % 256) as byte]
  }

  function Uint32(b: seq<byte>): u32
    requires |b| == 4
  {
    ((b[0] as nat * 256 + b[1] as nat) * 256 + b[2] as nat) * 256 + b[3] as nat
  }

  /** Big-endian: the first byte counts most. */
  lemma WordIsBigEndian(n: u32)
    ensures var b := PutUint32(n);
            n == b[0] as nat * 0x100_0000 + b[1] as nat * 0x1_0000 + b[2] as nat * 0x100 + b[3] as nat
  {
    WordRoundTrip(n);
  }

  lemma WordRoundTrip(n: u32)
    ensures Uint32(PutUint32(n)) == n
  {
    var a, b, c := n / 0x100_0000, n / 0x1_0000, n / 256;
    assert a == b / 256 && b == c / 256;
  }

  // ---------- encoding ----------

  // The length is cut to 32 bits before it is checked, and the copied payload with it.
  function Frame(f: Format, raw: seq<byte>): seq<byte> {
    var length: u32 := |raw| % TWO_32;
    PutUint32(f.crc(raw)) + PutUint32(length) + raw[..length]
  }

  predicate Accepts(raw: seq<byte>) {
    |raw| % TWO_32 <= MAX_MSG_SIZE
  }

  class WALEncoder {
    const format: Format
    var written: seq<byte>

    constructor (format: Format)
      ensures this.format == format && written == []
    {
      this.format := format;
      written := [];
    }

    /** Appends one whole record, or nothing when the payload is too big. */
    method Encode(raw: seq<byte>) returns (ok: bool)
      modifies this
      ensures ok <==> |raw| % TWO_32 <= 12288
      ensures written == old(written) + if ok then Frame(format, raw) else []
    {
      var crc := format.crc(raw);
      var length: u32 := |raw| % TWO_32;
      if length > MAX_MSG_SIZE {
        assert old(written) + [] == old(written);
        return false;
      }
      var head, size := PutUint32(crc), PutUint32(length);
      var msg := new byte[8 + length];
      for i := 0 to 4
        modifies msg
        invariant forall k :: 0 <= k < i ==> msg[k] == head[k] && msg[4 + k] == size[k]
      {
        msg[i], msg[4 + i] := head[i], size[i];
      }
      for i := 0 to length
        modifies msg
        invariant forall k :: 0 <= k < 4 ==> msg[k] == head[k] && msg[4 + k] == size[k]
        invariant forall k :: 0 <= k < i ==> msg[8 + k] == raw[k]
      {
        msg[8 + i] := raw[i];
      }
      assert msg[..] == Frame(format, raw);
      written := written + msg[..];
      return true;
    }
  }

  // ---------- decoding ----------

  datatype Outcome = Eof | Corrupt | Record(payload: seq<byte>)

  datatype Chunk = Chunk(bytes: Option<seq<byte>>, pos: nat)

  // A read fills its buffer; at the end of the log it takes what is left and fails, and an empty buffer is an error.
  function Read(data: seq<byte>, pos: nat, k: nat): (c: Chunk)
    requires pos <= |data|
    ensures pos <= c.pos <= |data| && (c.bytes.Some? ==> |c.bytes.value| == k && c.pos == pos + k)
  {
    if k == 0 then Chunk(None, pos)
    else if pos + k <= |data| then Chunk(Some(data[pos..pos + k]), pos + k)
    else Chunk(None, |data|)
  }

  /** The next outcome, and where the reader stands then. */
  function DecodeAt(f: Format, data: seq<byte>, pos: nat): (r: (Outcome, nat))
    requires pos <= |data|
    ensures pos <= r.1 <= |data| && (r.0 != Eof ==> r.1 > pos)
  {
    var head := Read(data, pos, 4);
    if head.bytes.None? then (Eof, head.pos)
    else
      var size := Read(data, head.pos, 4);
      if size.bytes.None? then (Corrupt, size.pos)
      else
        var length := Uint32(size.bytes.value);
        if length > MAX_MSG_SIZE then (Corrupt, size.pos)
        else
          var body := Read(data, size.pos, length);
          if body.bytes.None? then (Corrupt, body.pos)
          else if f.crc(body.bytes.value) != Uint32(head.bytes.value) then (Corrupt, body.pos)
          else if !f.readable(body.bytes.value) then (Corrupt, body.pos)
          else (Record(body.bytes.value), body.pos)
  }

  class WALDecoder {
    const format: Format
    const data: seq<byte>
    var pos: nat

    ghost predicate Valid()
      reads this
    {
      pos <= |data|
    }

    constructor (format: Format, data: seq<byte>)
      ensures Valid() && this.format == format && this.data == data && pos == 0
    {
      this.format := format;
      this.data := data;
      pos := 0;
    }

    method ReadBytes(k: nat) returns (b: Option<seq<byte>>)
      requires Valid()
      modifies this
      ensures Valid() && Read(data, old(pos), k) == Chunk(b, pos)
    {
      if k == 0 {
        return None;
      }
      if pos + k > |data| {
        pos := |data|;
        return None;
      }
      b := Some(data[pos..pos + k]);
      pos := pos + k;
    }

    method Decode() returns (o: Outcome)
      requires Valid()
      modifies this
      ensures Valid() && (o, pos) == DecodeAt(format, data, old(pos))
    {
      var head := ReadBytes(4);
      if head.None? {
        return Eof;
      }
      var crc := Uint32(head.value);
      var size := ReadBytes(4);
      if size.None? {
        return Corrupt;
      }
      var length := Uint32(size.value);
      if length > MAX_MSG_SIZE {
        return Corrupt;
      }
      var body := ReadBytes(length);
      if body.None? || format.crc(body.value) != crc || !format.readable(body.value) {
        return Corrupt;
      }
      return Record(body.value);
    }
  }

  // ---------- round trips ----------

  /** What is on disk for one record: whatever the checksum field says. */
  datatype Stored = Stored(crc: u32, payload: seq<byte>)

  function Bytes(s: Stored): seq<byte>
    requires |s.payload| <= MAX_MSG_SIZE
  {
    PutUint32(s.crc) + PutUint32(|s.payload|) + s.payload
  }

  function Reading(f: Format, s: Stored): Outcome {
    if s.payload != [] && f.crc(s.payload) == s.crc && f.readable(s.payload) then Record(s.payload) else Corrupt
  }

  lemma Slice(data: seq<byte>, lo: nat, hi: nat, i: nat, j: nat)
    requires lo <= hi <= |data| && i <= j <= hi - lo
    ensures data[lo..hi][i..j] == data[lo + i..lo + j]
  {
    var a, b := data[lo..hi][i..j], data[lo + i..lo + j];
    assert |a| == |b|;
    forall k | 0 <= k < |a|
      ensures a[k] == b[k]
    {
      assert a[k] == data[lo..hi][i + k] == data[lo + i + k];
    }
  }

  lemma Parts(s: Stored)
    requires |s.payload| <= MAX_MSG_SIZE
    ensures var b := Bytes(s);
            |b| == 8 + |s.payload| && b[..4] == PutUint32(s.crc) && b[4..8] == PutUint32(|s.payload|) &&
              b[8..] == s.payload
  {
  }

  /** A record with an intact length is read as a whole: good or not, the reader stands at the next record. */
  lemma DecodeOne(f: Format, data: seq<byte>, pos: nat, s: Stored)
    requires |s.payload| <= MAX_MSG_SIZE && pos + |Bytes(s)| <= |data| && data[pos..pos + |Bytes(s)|] == Bytes(s)
    ensures DecodeAt(f, data, pos) == (Reading(f, s), pos + |Bytes(s)|)
  {
    var b := Bytes(s);
    var end := pos + |b|;
    var frame := data[pos..end];
    Parts(s);
    Slice(data, pos, end, 0, 4);
    Slice(data, pos, end, 4, 8);
    Slice(data, pos, end, 8, |b|);
    assert frame[0..4] == frame[..4] && frame[8..|b|] == frame[8..];
    WordRoundTrip(s.crc);
    WordRoundTrip(|s.payload|);
  }

  /** An accepted payload is read back exactly when it is not empty, within the limit, and readable. */
  lemma ReadBackIff(f: Format, raw: seq<byte>, rest: seq<byte>)
    requires Accepts(raw)
    ensures DecodeAt(f, Frame(f, raw) + rest, 0).0 == Record(raw) <==> 0 < |raw| <= MAX_MSG_SIZE && f.readable(raw)
    ensures DecodeAt(f, Frame(f, raw) + rest, 0).1 == |Frame(f, raw)|
  {
    var length: u32 := |raw| % TWO_32;
    var s := Stored(f.crc(raw), raw[..length]);
    assert (Frame(f, raw) + rest)[0..|Bytes(s)|] == Bytes(s);
    DecodeOne(f, Frame(f, raw) + rest, 0, s);
    if |raw| == length {
      assert raw[..length] == raw;
    }
  }

  lemma WholeFrame(f: Format, raw: seq<byte>)
    requires |raw| <= 12288
    ensures Accepts(raw) && Frame(f, raw) == PutUint32(f.crc(raw)) + PutUint32(|raw|) + raw
  {
    assert raw[..|raw|] == raw;
  }

  /** Payloads of up to 12288 bytes are written, and read back unless empty or unreadable; longer ones below 4 GiB are
      refused. */
  lemma KeptUpToLimit(f: Format, raw: seq<byte>, rest: seq<byte>)
    ensures |raw| <= 12288 ==> Accepts(raw) && Frame(f, raw) == PutUint32(f.crc(raw)) + PutUint32(|raw|) + raw
    ensures 0 < |raw| <= 12288 && f.readable(raw) ==> DecodeAt(f, Frame(f, raw) + rest, 0).0 == Record(raw)
    ensures 12288 < |raw| < TWO_32 ==> !Accepts(raw)
  {
    if |raw| <= 12288 {
      WholeFrame(f, raw);
      ReadBackIff(f, raw, rest);
    }
  }

  ghost function DecodeAll(f: Format, data: seq<byte>, pos: nat): seq<Outcome>
    requires pos <= |data|
    decreases |data| - pos
  {
    var r := DecodeAt(f, data, pos);
    if r.0 == Eof then [] else [r.0] + DecodeAll(f, data, r.1)
  }

  predicate Limited(records: seq<Stored>) {
    forall i :: 0 <= i < |records| ==> |records[i].payload| <= MAX_MSG_SIZE
  }

  function Log(records: seq<Stored>): seq<byte>
    requires Limited(records)
  {
    if records == [] then [] else Bytes(records[0]) + Log(records[1..])
  }

  function Readings(f: Format, records: seq<Stored>): (r: seq<Outcome>)
    ensures |r| == |records| && forall i :: 0 <= i < |r| ==> r[i] == Reading(f, records[i])
  {
    seq(|records|, i requires 0 <= i < |records| => Reading(f, records[i]))
  }

  lemma ReadingsSplit(f: Format, records: seq<Stored>)
    requires records != []
    ensures Readings(f, records) == [Reading(f, records[0])] + Readings(f, records[1..])
  {
  }

  lemma Between(before: seq<byte>, b: seq<byte>, rest: seq<byte>)
    ensures (before + b + rest)[|before|..|before| + |b|] == b
  {
  }

  lemma {:induction false} DecodeFirst(f: Format, before: seq<byte>, s: Stored, rest: seq<byte>)
    requires |s.payload| <= MAX_MSG_SIZE
    ensures var data := before + Bytes(s) + rest;
            DecodeAll(f, data, |before|) == [Reading(f, s)] + DecodeAll(f, data, |before + Bytes(s)|)
  {
    Between(before, Bytes(s), rest);
    DecodeOne(f, before + Bytes(s) + rest, |before|, s);
  }

  /** The log of the records, and behind it something else. */
  function LogThen(records: seq<Stored>, tail: seq<byte>): seq<byte>
    requires Limited(records)
  {
    if records == [] then tail else Bytes(records[0]) + LogThen(records[1..], tail)
  }

  lemma {:induction false} LogThenIs(records: seq<Stored>, tail: seq<byte>)
    requires Limited(records)
    ensures LogThen(records, tail) == Log(records) + tail
    decreases |records|
  {
    if records != [] {
      LogThenIs(records[1..], tail);
    }
  }

  lemma Chained(f: Format, records: seq<Stored>, rest: seq<Outcome>, last: seq<Outcome>)
    requires records != [] && rest == Readings(f, records[1..]) + last
    ensures [Reading(f, records[0])] + rest == Readings(f, records) + last
  {
    ReadingsSplit(f, records);
  }

  lemma {:induction false} LogThenSplit(before: seq<byte>, records: seq<Stored>, tail: seq<byte>)
    requires Limited(records) && records != []
    ensures before + LogThen(records, tail) == before + Bytes(records[0]) + LogThen(records[1..], tail)
  {
  }

  lemma {:induction false} OneMore(f: Format, before: seq<byte>, records: seq<Stored>, tail: seq<byte>,
                                   last: seq<Outcome>)
    requires Limited(records) && records != []
    requires var head := before + Bytes(records[0]);
             DecodeAll(f, head + LogThen(records[1..], tail), |head|) == Readings(f, records[1..]) + last
    ensures DecodeAll(f, before + LogThen(records, tail), |before|) == Readings(f, records) + last
  {
    var head, rest := before + Bytes(records[0]), LogThen(records[1..], tail);
    LogThenSplit(before, records, tail);
    DecodeFirst(f, before, records[0], rest);
    Chained(f, records, DecodeAll(f, head + rest, |head|), last);
  }

  lemma {:induction false} CutRecord(f: Format, data: seq<byte>, pos: nat, s: Stored, n: nat)
    requires |s.payload| <= MAX_MSG_SIZE && n < |Bytes(s)| && pos + n == |data| && data[pos..] == Bytes(s)[..n]
    ensures DecodeAll(f, data, pos) == if n < 4 then [] else [Corrupt]
  {
    if n >= 8 {
      Parts(s);
      assert data[pos + 4..pos + 8] == data[pos..][4..8] == PutUint32(|s.payload|);
      WordRoundTrip(|s.payload|);
    }
    if n >= 4 {
      assert DecodeAt(f, data, pos) == (Corrupt, |data|);
      assert DecodeAll(f, data, |data|) == [];
    }
  }

  /** What is left of a record that breaks off: nothing if its checksum is not complete. */
  function Remains(n: nat): seq<Outcome> {
    if n < 4 then [] else [Corrupt]
  }

  lemma {:induction false} DecodeFrom(f: Format, before: seq<byte>, records: seq<Stored>, s: Stored, n: nat)
    requires Limited(records) && |s.payload| <= MAX_MSG_SIZE && n < |Bytes(s)|
    ensures DecodeAll(f, before + LogThen(records, Bytes(s)[..n]), |before|) == Readings(f, records) + Remains(n)
    decreases |records|
  {
    var tail := Bytes(s)[..n];
    if records == [] {
      assert (before + tail)[|before|..] == tail;
      CutRecord(f, before + tail, |before|, s, n);
      assert Readings(f, records) == [];
    } else {
      DecodeFrom(f, before + Bytes(records[0]), records[1..], s, n);
      OneMore(f, before, records, tail, Remains(n));
    }
  }

  /** A log that breaks off inside a record decodes to the outcomes of the whole records. What is left of the last one
      is dropped without a word if its checksum is not complete, and reported as corrupt otherwise. */
  lemma {:induction false} TornLog(f: Format, records: seq<Stored>, s: Stored, n: nat)
    requires Limited(records) && |s.payload| <= MAX_MSG_SIZE && n < |Bytes(s)|
    ensures DecodeAll(f, Log(records) + Bytes(s)[..n], 0) == Readings(f, records) + Remains(n)
  {
    var tail := Bytes(s)[..n];
    DecodeFrom(f, [], records, s, n);
    LogThenIs(records, tail);
    assert [] + LogThen(records, tail) == LogThen(records, tail);
  }

  /** A log of records with intact lengths decodes to one outcome per record and then the end: a record whose payload
      fails its checksum is reported as corrupt and costs no other record. */
  lemma {:induction false} DamageIsContained(f: Format, records: seq<Stored>)
    requires Limited(records)
    ensures DecodeAll(f, Log(records), 0) == Readings(f, records)
  {
    TornLog(f, records, Stored(0, []), 0);
    assert Log(records) + Bytes(Stored(0, []))[..0] == Log(records);
    assert Readings(f, records) + [] == Readings(f, records);
  }

  /** After a length above the limit the reader goes on right behind it, at whatever the payload holds. */
  lemma BadLengthIsSkipped(f: Format, before: seq<byte>, crc: u32, length: u32, rest: seq<byte>)
    requires length > 12288
    ensures DecodeAt(f, before + PutUint32(crc) + PutUint32(length) + rest, |before|) == (Corrupt, |before| + 8)
  {
    var data := before + PutUint32(crc) + PutUint32(length) + rest;
    assert data[|before| + 4..|before| + 8] == PutUint32(length);
    WordRoundTrip(length);
  }

  function Frames(f: Format, raws: seq<seq<byte>>): seq<byte> {
    if raws == [] then [] else Frame(f, raws[0]) + Frames(f, raws[1..])
  }

  function Intact(f: Format, raws: seq<seq<byte>>): (r: seq<Stored>)
    ensures |r| == |raws|
  {
    seq(|raws|, i requires 0 <= i < |raws| => Stored(f.crc(raws[i]), raws[i]))
  }

  lemma FrameIsIntact(f: Format, raw: seq<byte>)
    requires |raw| <= MAX_MSG_SIZE
    ensures Frame(f, raw) == Bytes(Stored(f.crc(raw), raw))
  {
    assert raw[..|raw|] == raw;
  }

  lemma {:induction false} FramesAreIntact(f: Format, raws: seq<seq<byte>>)
    requires forall i :: 0 <= i < |raws| ==> |raws[i]| <= MAX_MSG_SIZE
    ensures Limited(Intact(f, raws)) && Frames(f, raws) == Log(Intact(f, raws))
    decreases |raws|
  {
    if raws != [] {
      FramesAreIntact(f, raws[1..]);
      assert Intact(f, raws)[1..] == Intact(f, raws[1..]);
      FrameIsIntact(f, raws[0]);
    }
  }

  function AsRecords(raws: seq<seq<byte>>): seq<Outcome> {
    seq(|raws|, i requires 0 <= i < |raws| => Record(raws[i]))
  }

  /** Decoding the records of any payloads within the limit gives the payloads back, in order, and then the end. */
  lemma {:induction false} RoundTrip(f: Format, raws: seq<seq<byte>>)
    requires forall i :: 0 <= i < |raws| ==> 0 < |raws[i]| <= MAX_MSG_SIZE && f.readable(raws[i])
    ensures DecodeAll(f, Frames(f, raws), 0) == AsRecords(raws)
  {
    FramesAreIntact(f, raws);
    DamageIsContained(f, Intact(f, raws));
  }
}
