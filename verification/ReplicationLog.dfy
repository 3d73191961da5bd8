/** The keys of the replication log and of the clocks: layout, parsing, and their order. */
module ReplicationLog {
  import opened Types
  import opened ByteOrder

  type uint64 = x: int | 0 <= x < 0x1_0000_0000_0000_0000

  const SEPARATOR: byte := 47
  const LEN_PREFIX := 16
  const LEN_ENTRY := 95

  datatype LogEntry = LogEntry(id: NodeID, clock: uint64, key: IdBytes, state: int32)

  /** The state as an unsigned 32-bit number. */
  function Unsigned(s: int32): nat {
    if s < 0 then s + 0x1_0000_0000 else s
  }

  function Signed(u: nat): int32
    requires u < 0x1_0000_0000
  {
    if u < 0x8000_0000 then u else u - 0x1_0000_0000
  }

  function Encode(e: LogEntry): (b: Bytes)
    ensures |b| == LEN_ENTRY
  {
    LOG_PREFIX + e.id.bytes + [SEPARATOR] + BigEndian(e.clock, 8)
      + [SEPARATOR] + e.key + [SEPARATOR] + BigEndian(Unsigned(e.state), 4)
  }

  /** Parsing checks the length only; prefix and separators are skipped unseen. */
  function Decode(b: Bytes): Option<LogEntry> {
    if |b| != LEN_ENTRY then None
    else
      NumberBound(b[49..57]);
      NumberBound(b[91..95]);
      Some(LogEntry(NodeID(b[16..48]), Number(b[49..57]), b[58..90], Signed(Number(b[91..95]))))
  }

  function StartKey(id: NodeID, clock: uint64): Bytes {
    LOG_PREFIX + id.bytes + [SEPARATOR] + BigEndian(clock, 8)
  }

  function IdPrefix(id: NodeID): Bytes {
    LOG_PREFIX + id.bytes
  }

  function ClockKey(id: NodeID): Bytes {
    CLOCK_PREFIX + id.bytes
  }

  lemma NumberBound(b: Bytes)
    requires |b| == 8 || |b| == 4
    ensures Number(b) < if |b| == 8 then 0x1_0000_0000_0000_0000 else 0x1_0000_0000
  {
    BigEndianOfNumber(b);
  }

  // ---------- layout ----------

  lemma Layout(e: LogEntry)
    ensures var b := Encode(e);
            && b[..16] == LOG_PREFIX && b[16..48] == e.id.bytes && b[48] == SEPARATOR
            && b[49..57] == BigEndian(e.clock, 8) && b[57] == SEPARATOR
            && b[58..90] == e.key && b[90] == SEPARATOR && b[91..95] == BigEndian(Unsigned(e.state), 4)
  {
  }

  /** Parsing undoes encoding, whatever the 32-bit state. */
  lemma DecodeEncode(e: LogEntry)
    ensures Decode(Encode(e)) == Some(e)
  {
    Layout(e);
    NumberOfBigEndian(e.clock, 8);
    NumberOfBigEndian(Unsigned(e.state), 4);
  }

  /** Encoding undoes parsing exactly where the skipped bytes are the expected ones. */
  lemma EncodeDecode(b: Bytes)
    requires |b| == LEN_ENTRY
    ensures Encode(Decode(b).value) == b <==>
              LOG_PREFIX <= b && b[48] == SEPARATOR && b[57] == SEPARATOR && b[90] == SEPARATOR
  {
    var e := Decode(b).value;
    Layout(e);
    BigEndianOfNumber(b[49..57]);
    BigEndianOfNumber(b[91..95]);
    NumberBound(b[91..95]);
    assert Unsigned(e.state) == Number(b[91..95]);
    assert LOG_PREFIX <= b <==> b[..16] == LOG_PREFIX;
    Pieces(b);
    if Encode(e) == b { Pieces(Encode(e)); }
  }

  lemma Pieces(b: Bytes)
    requires |b| == LEN_ENTRY
    ensures b == b[..16] + b[16..48] + [b[48]] + b[49..57] + [b[57]] + b[58..90] + [b[90]] + b[91..95]
  {
  }

  lemma EncodeInjective(d: LogEntry, e: LogEntry)
    requires Encode(d) == Encode(e)
    ensures d == e
  {
    DecodeEncode(d);
    DecodeEncode(e);
  }

  /** Seeing the prefix of an id means being an entry of that id, even if one id extends another. */
  lemma PrefixIsId(id: NodeID, e: LogEntry)
    ensures IdPrefix(id) <= Encode(e) <==> e.id == id
  {
    Layout(e);
    var b := Encode(e);
    assert b[..48] == b[..16] + b[16..48];
    if IdPrefix(id) <= b {
      assert IdPrefix(id)[16..48] == id.bytes && b[16..48] == b[..48][16..48];
    }
  }

  // ---------- order ----------

  lemma StartKeyOrder(id: NodeID, c: uint64, d: uint64)
    ensures Less(StartKey(id, c), StartKey(id, d)) <==> c < d
  {
    LessAfterPrefix(LOG_PREFIX + id.bytes + [SEPARATOR], BigEndian(c, 8), BigEndian(d, 8));
    BigEndianOrder(c, d, 8);
  }

  function Tail(e: LogEntry): Bytes {
    [SEPARATOR] + e.key + [SEPARATOR] + BigEndian(Unsigned(e.state), 4)
  }

  lemma EncodeByStartKey(e: LogEntry)
    ensures Encode(e) == StartKey(e.id, e.clock) + Tail(e)
  {
  }

  lemma StartKeyInjective(id: NodeID, c: uint64, d: uint64)
    requires StartKey(id, c) == StartKey(id, d)
    ensures c == d
  {
    LessIrreflexive(StartKey(id, c));
    StartKeyOrder(id, c, d);
    StartKeyOrder(id, d, c);
  }

  /** Entries of one id lie in the store in the order of their clocks. */
  lemma EncodeOrder(d: LogEntry, e: LogEntry)
    requires d.id == e.id && d.clock != e.clock
    ensures Less(Encode(d), Encode(e)) <==> d.clock < e.clock
  {
    EncodeByStartKey(d);
    EncodeByStartKey(e);
    if StartKey(d.id, d.clock) == StartKey(e.id, e.clock) {
      StartKeyInjective(d.id, d.clock, e.clock);
    }
    LessByHead(StartKey(d.id, d.clock), StartKey(e.id, e.clock), Tail(d), Tail(e));
    StartKeyOrder(d.id, d.clock, e.clock);
  }

  /** Seeking a start key skips exactly the entries with a smaller clock. */
  lemma SeekOrder(e: LogEntry, c: uint64)
    ensures Less(Encode(e), StartKey(e.id, c)) <==> e.clock < c
  {
    EncodeByStartKey(e);
    var s, t := StartKey(e.id, e.clock), StartKey(e.id, c);
    StartKeyOrder(e.id, e.clock, c);
    if e.clock == c {
      LongerIsMore(s, Tail(e));
      if Less(s + Tail(e), s) {
        LessTransitive(s, s + Tail(e), s);
        LessIrreflexive(s);
      }
    } else {
      if s == t { StartKeyInjective(e.id, e.clock, c); }
      assert t + [] == t;
      LessByHead(s, t, Tail(e), []);
    }
  }

  /** The variable an entry is parsed into. */
  class ReplicationLogEntry {
    var id: NodeID
    var clock: uint64
    var key: IdBytes
    var state: int32

    function Value(): LogEntry
      reads this
    {
      LogEntry(id, clock, key, state)
    }

    constructor ()
      ensures Value() == LogEntry(NodeID(seq(32, _ => 0)), 0, seq(32, _ => 0), 0)
    {
      id, clock, key, state := NodeID(seq(32, _ => 0)), 0, seq(32, _ => 0), 0;
    }

    /** Takes the fields off the front of the key one by one; a key of the wrong length changes nothing. */
    method SetBytes(b: Bytes) returns (ok: bool)
      modifies this
      ensures ok <==> |b| == LEN_ENTRY
      ensures ok ==> Decode(b) == Some(Value())
      ensures !ok ==> Value() == old(Value())
    {
      if |b| != LEN_ENTRY { return false; }
      var entry := b[LEN_PREFIX..];
      var idBytes := entry[..32];
      entry := entry[32..];
      entry := entry[1..];
      var clockBytes := entry[..8];
      entry := entry[8..];
      entry := entry[1..];
      var keyBytes := entry[..32];
      entry := entry[32..];
      entry := entry[1..];
      var stateBytes := entry;
      assert idBytes == b[16..48] && clockBytes == b[49..57] && keyBytes == b[58..90] && stateBytes == b[91..95];
      NumberBound(clockBytes);
      NumberBound(stateBytes);
      clock := Number(clockBytes);
      id := NodeID(idBytes);
      key := keyBytes;
      state := Signed(Number(stateBytes));
      return true;
    }
  }
}
