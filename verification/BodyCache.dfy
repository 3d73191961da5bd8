/** A request body whose first bytes are kept, so that they can be read again. */
module BodyCaches {
  import opened Types

  datatype ReadError = EndOfFile | Unreadable

  /** The bytes of `s` are put in from index `from` on, and all others are as before. */
  ghost predicate Overwrites(after: Bytes, before: Bytes, from: nat, s: Bytes) {
    && |after| == |before| && from + |s| <= |after|
    && forall k :: 0 <= k < |after| ==> after[k] == if from <= k < from + |s| then s[k - from] else before[k]
  }

  lemma OverwritesJoin(before: Bytes, middle: Bytes, after: Bytes, s: Bytes, t: Bytes)
    requires Overwrites(middle, before, 0, s) && Overwrites(after, middle, |s|, t)
    ensures Overwrites(after, before, 0, s + t)
  {
  }

  method Copy(b: array<byte>, from: nat, s: Bytes)
    requires from + |s| <= b.Length
    modifies b
    ensures Overwrites(b[..], old(b[..]), from, s)
  {
    var k := 0;
    while k < |s|
      invariant k <= |s|
      invariant forall j :: 0 <= j < b.Length ==> b[j] == if from <= j < from + k then s[j - from] else old(b[j])
    {
      b[from + k] := s[k];
      k := k + 1;
    }
  }

  /** A stream hands out its content in pieces of its own choosing, and may fail. */
  class Stream {
    const content: Bytes
    var pos: nat

    ghost predicate Valid()
      reads this
    {
      pos <= |content|
    }

    constructor (content: Bytes)
      ensures Valid() && this.content == content && pos == 0
    {
      this.content, pos := content, 0;
    }

    /** Fills `b` from index `from` on; no byte comes without an error only if none was asked for. */
    method Read(b: array<byte>, from: nat) returns (n: nat, err: Option<ReadError>)
      requires Valid() && from <= b.Length
      modifies this`pos, b
      ensures Valid() && from + n <= b.Length && pos == old(pos) + n
      ensures Overwrites(b[..], old(b[..]), from, content[old(pos)..pos])
      ensures n == 0 && from < b.Length ==> err.Some?
      ensures err == Some(EndOfFile) ==> pos == |content|
    {
      var most := if b.Length - from < |content| - pos then b.Length - from else |content| - pos;
      var fails: bool := *;
      n :| 0 <= n <= most && (n == 0 && 0 < most ==> fails);
      Copy(b, from, content[pos..pos + n]);
      pos := pos + n;
      err := if pos == |content| && n < b.Length - from then Some(EndOfFile)
             else if fails then Some(Unreadable) else None;
    }
  }

  datatype Whence = SeekStart | SeekCurrent | SeekEnd | Unknown

  /** What is where: the original content, how much of it is cached, the reading index, the stream's own position. */
  datatype Cursor = Cursor(content: Bytes, cached: nat, i: nat, pos: nat)
  {
    ghost predicate Valid() {
      cached <= pos <= |content| && (pos > cached ==> i >= cached)
    }

    /** Where the next byte comes from. */
    function Source(): nat {
      if i < cached then i else pos
    }
  }

  /** After a read that delivers n bytes. */
  function AfterRead(c: Cursor, n: nat): Cursor {
    c.(i := c.i + n,
       pos := if c.i >= c.cached then c.pos + n else if c.i + n > c.cached then c.pos + (c.i + n - c.cached) else c.pos)
  }

  predicate CanRead(c: Cursor, n: nat) {
    c.Source() + n <= |c.content|
  }

  function Delivered(c: Cursor, n: nat): Bytes
    requires CanRead(c, n)
  {
    c.content[c.Source()..c.Source() + n]
  }

  lemma CursorsJoin(c: Cursor, d: Cursor, n: nat, m: nat)
    requires c.Valid() && CanRead(c, n) && d == AfterRead(c, n) && d.i >= d.cached && CanRead(d, m)
    ensures CanRead(c, n + m) && AfterRead(c, n + m) == AfterRead(d, m) && d.Source() == c.Source() + n
  {
  }

  lemma Adjacent(s: Bytes, i: nat, j: nat, k: nat)
    requires i <= j <= k <= |s|
    ensures s[i..j] + s[j..k] == s[i..k]
  {
  }

  /** Reading on from the stream makes one read of two. */
  lemma ReadsJoin(c: Cursor, d: Cursor, n: nat, m: nat)
    requires c.Valid() && CanRead(c, n) && d == AfterRead(c, n) && d.i >= d.cached && CanRead(d, m)
    ensures CanRead(c, n + m) && AfterRead(c, n + m) == AfterRead(d, m)
    ensures Delivered(c, n + m) == Delivered(c, n) + Delivered(d, m)
  {
    CursorsJoin(c, d, n, m);
    Adjacent(c.content, c.Source(), c.Source() + n, c.Source() + n + m);
  }

  /** A read of n bytes takes the cursor from `c` to `d` and puts the bytes at the source in front of the buffer. */
  ghost predicate Serves(c: Cursor, d: Cursor, before: Bytes, after: Bytes, n: nat) {
    CanRead(c, n) && d == AfterRead(c, n) && Overwrites(after, before, 0, Delivered(c, n))
  }

  lemma ServesOn(c: Cursor, d: Cursor, e: Cursor, before: Bytes, middle: Bytes, after: Bytes, n: nat, m: nat)
    requires c.Valid() && Serves(c, d, before, middle, n) && d.i >= d.cached
    requires CanRead(d, m) && e == AfterRead(d, m) && Overwrites(after, middle, n, Delivered(d, m))
    ensures Serves(c, e, before, after, n + m)
  {
    ReadsJoin(c, d, n, m);
    OverwritesJoin(before, middle, after, Delivered(c, n), Delivered(d, m));
  }

  /** None if the seek is refused. */
  function SeekTarget(c: Cursor, offset: int64, whence: Whence): Option<nat> {
    var target := if whence.SeekStart? then offset else Wrap(c.i + offset);
    if c.pos > c.cached || whence.SeekEnd? || whence.Unknown? || target < 0 then None else Some(target)
  }

  /** From the start the offset itself, from the current index the sum, unless 64 bits do not hold it. */
  lemma SeekExact(c: Cursor, offset: int64, whence: Whence)
    requires c.i < 0x8000_0000_0000_0000
    ensures var target := SeekTarget(c, offset, whence);
            match whence
            case SeekStart => target == if c.pos > c.cached || offset < 0 then None else Some(offset)
            case SeekCurrent =>
              target == if c.pos > c.cached || c.i + offset < 0 || c.i + offset >= 0x8000_0000_0000_0000 then None
                        else Some(c.i + offset)
            case _ => target == None
  {
    WrapFits(c.i + offset);
  }

  class BodyCache {
    const stream: Stream
    const bytes: Bytes
    var hasReadStream: bool
    var i: nat

    ghost predicate Valid()
      reads this, stream
    {
      && stream.Valid() && State().Valid()
      && bytes <= stream.content
      && (hasReadStream <==> stream.pos > |bytes|)
    }

    ghost function State(): Cursor
      reads this, stream
    {
      Cursor(stream.content, |bytes|, i, stream.pos)
    }

    constructor (stream: Stream, bytes: Bytes)
      requires stream.Valid() && bytes <= stream.content && stream.pos == |bytes|
      ensures Valid() && this.stream == stream && this.bytes == bytes
      ensures State() == Cursor(stream.content, |bytes|, 0, |bytes|)
    {
      this.stream, this.bytes, hasReadStream, i := stream, bytes, false, 0;
    }

    /** The part of a read that the cache can serve. */
    method ReadCached(b: array<byte>) returns (n: nat)
      requires Valid()
      modifies this`i, b
      ensures Valid() && n <= b.Length
      ensures Serves(old(State()), State(), old(b[..]), b[..], n)
      ensures n < b.Length ==> |bytes| <= i
    {
      n := 0;
      if i < |bytes| {
        n := if b.Length < |bytes| - i then b.Length else |bytes| - i;
        Copy(b, 0, bytes[i..i + n]);
        i := i + n;
      }
    }

    /** The part that comes from the stream, put into `b` from index `from` on. */
    method ReadStream(b: array<byte>, from: nat) returns (n: nat, err: Option<ReadError>)
      requires Valid() && |bytes| <= i && from <= b.Length
      modifies this`i, this`hasReadStream, stream`pos, b
      ensures Valid() && from + n <= b.Length
      ensures CanRead(old(State()), n) && State() == AfterRead(old(State()), n)
      ensures Overwrites(b[..], old(b[..]), from, Delivered(old(State()), n))
      ensures n == 0 && from < b.Length ==> err.Some?
      ensures err == Some(EndOfFile) ==> stream.pos == |stream.content|
    {
      n, err := stream.Read(b, from);
      if n > 0 {
        i := i + n;
        hasReadStream := true;
      }
    }

    /** Delivers what is at the source, however the read straddles cache and stream. */
    method Read(b: array<byte>) returns (n: nat, err: Option<ReadError>)
      requires Valid()
      modifies this`i, this`hasReadStream, stream`pos, b
      ensures Valid() && n <= b.Length
      ensures Serves(old(State()), State(), old(b[..]), b[..], n)
      ensures n == 0 && b.Length > 0 ==> err.Some?
      ensures err == Some(EndOfFile) ==> stream.pos == |stream.content|
    {
      ghost var c, was := State(), b[..];
      n := ReadCached(b);
      err := None;
      ghost var d, middle := State(), b[..];
      assert Serves(c, d, was, middle, n);
      if n < b.Length {
        var sn;
        sn, err := ReadStream(b, n);
        assert Serves(c, State(), was, b[..], n + sn) by { ServesOn(c, d, State(), was, middle, b[..], n, sn); }
        n := n + sn;
      }
    }

    /** Refused once bytes beyond the cache have been consumed. */
    method Seek(offset: int64, whence: Whence) returns (r: Option<nat>)
      requires Valid()
      modifies this`i
      ensures Valid()
      ensures r == SeekTarget(old(State()), offset, whence)
      ensures State() == if r.Some? then old(State()).(i := r.value) else old(State())
      ensures r.Some? ==> i == r.value && stream.pos == |bytes|
      ensures r.Some? && whence.SeekStart? ==> r.value == offset
      ensures r.Some? && whence.SeekCurrent? && old(i) < 0x8000_0000_0000_0000 ==> r.value == old(i) + offset
      ensures stream.pos == |bytes| && whence.SeekStart? && offset >= 0 ==> r.Some?
      ensures stream.pos == |bytes| && whence.SeekCurrent? && 0 <= old(i) + offset < 0x8000_0000_0000_0000 ==> r.Some?
    {
      WrapFits(i + offset);
      if hasReadStream { return None; }
      var abs: int64;
      match whence {
        case SeekStart => abs := offset;
        case SeekCurrent => abs := Wrap(i + offset);
        case SeekEnd => return None;
        case Unknown => return None;
      }
      if abs < 0 { return None; }
      i := abs;
      return Some(abs);
    }
  }

  /** Reads up to `bufferSize` bytes ahead. Without a failure the cache holds the whole beginning of the stream. */
  method NewBodyCache(stream: Stream, bufferSize: int) returns (cache: BodyCache?)
    requires stream.Valid() && stream.pos == 0
    modifies stream`pos
    ensures cache != null ==>
              && fresh(cache) && cache.stream == stream && cache.Valid()
              && (var most := if bufferSize <= 0 then 0 else bufferSize;
                  |cache.bytes| == if most < |stream.content| then most else |stream.content|)
              && cache.State() == Cursor(stream.content, |cache.bytes|, 0, |cache.bytes|)
  {
    var bytes: Bytes := [];
    var err: Option<ReadError> := None;
    while |bytes| < bufferSize && err.None?
      invariant stream.Valid() && stream.pos == |bytes| && bytes == stream.content[..|bytes|]
      invariant bufferSize > 0 ==> |bytes| <= bufferSize
      invariant bufferSize <= 0 ==> bytes == []
      invariant err == Some(EndOfFile) ==> |bytes| == |stream.content|
      decreases bufferSize - |bytes|, err.None?
    {
      var chunk := new byte[if bufferSize - |bytes| < 512 then bufferSize - |bytes| else 512];
      var n;
      n, err := stream.Read(chunk, 0);
      bytes := bytes + chunk[..n];
    }
    if err.Some? && err.value.Unreadable? { return null; }
    cache := new BodyCache(stream, bytes);
  }

  // ---------- sequences of reads and seeks ----------

  datatype Op = Read(n: nat) | Seek(offset: int64, whence: Whence)

  predicate Possible(c: Cursor, op: Op) {
    op.Read? ==> CanRead(c, op.n)
  }

  function After(c: Cursor, op: Op): Cursor {
    match op
    case Read(n) => AfterRead(c, n)
    case Seek(offset, whence) =>
      var target := SeekTarget(c, offset, whence);
      if target.None? then c else c.(i := target.value)
  }

  ghost predicate Run(cs: seq<Cursor>, ops: seq<Op>) {
    && |cs| == |ops| + 1 && cs[0].Valid() && cs[0].i == 0 && cs[0].pos == cs[0].cached
    && forall k :: 0 <= k < |ops| ==> Moves(cs, ops, k)
  }

  ghost predicate Moves(cs: seq<Cursor>, ops: seq<Op>, k: nat) {
    && k < |ops| && k + 1 < |cs|
    && Possible(cs[k], ops[k]) && cs[k + 1] == After(cs[k], ops[k])
  }

  ghost predicate Seeks(c: Cursor, op: Op) {
    op.Seek? && SeekTarget(c, op.offset, op.whence).Some?
  }

  /** Where the last successful seek went, after one more operation. */
  ghost function SoughtAfter(c: Cursor, op: Op, sought: nat): nat {
    if Seeks(c, op) then SeekTarget(c, op.offset, op.whence).value else sought
  }

  /** All bytes delivered since then, after one more operation. */
  ghost function SinceAfter(c: Cursor, op: Op, since: Bytes): Bytes
    requires Possible(c, op)
  {
    if Seeks(c, op) then [] else if op.Read? then since + Delivered(c, op.n) else since
  }

  /** Where the last successful seek among the first m operations went; at first the index is 0. */
  ghost function SoughtTo(cs: seq<Cursor>, ops: seq<Op>, m: nat): nat
    requires Run(cs, ops) && m <= |ops|
  {
    if m == 0 then 0 else SoughtAfter(cs[m - 1], ops[m - 1], SoughtTo(cs, ops, m - 1))
  }

  /** All bytes delivered since then. */
  ghost function ReadSince(cs: seq<Cursor>, ops: seq<Op>, m: nat): Bytes
    requires Run(cs, ops) && m <= |ops|
  {
    if m == 0 then []
    else
      assert Moves(cs, ops, m - 1);
      SinceAfter(cs[m - 1], ops[m - 1], ReadSince(cs, ops, m - 1))
  }

  /** Reading starts where the seek went, or at the end of the cache if it went beyond. */
  function Origin(c: Cursor, sought: nat): nat {
    if sought <= c.cached then sought else c.cached
  }

  ghost predicate IsPart(content: Bytes, start: nat, part: Bytes) {
    start + |part| <= |content| && part == content[start..start + |part|]
  }

  lemma PartGrows(content: Bytes, start: nat, part: Bytes, n: nat)
    requires IsPart(content, start, part) && start + |part| + n <= |content|
    ensures IsPart(content, start, part + content[start + |part|..start + |part| + n])
  {
    Adjacent(content, start, start + |part|, start + |part| + n);
  }

  /** All that was read since the seek is the content from the origin on, and the source goes on from there. */
  ghost predicate FromOrigin(c: Cursor, sought: nat, since: Bytes) {
    var start := Origin(c, sought);
    && c.Valid() && c.i == sought + |since|
    && IsPart(c.content, start, since) && c.Source() == start + |since|
  }

  lemma ReadKeeps(c: Cursor, sought: nat, since: Bytes, n: nat)
    requires FromOrigin(c, sought, since) && CanRead(c, n)
    ensures FromOrigin(AfterRead(c, n), sought, since + Delivered(c, n))
  {
    var start := Origin(c, sought);
    SourceMoves(c, n);
    assert Delivered(c, n) == c.content[start + |since|..start + |since| + n];
    assert IsPart(c.content, start, since + Delivered(c, n)) by { PartGrows(c.content, start, since, n); }
  }

  lemma SourceMoves(c: Cursor, n: nat)
    requires c.Valid() && CanRead(c, n)
    ensures AfterRead(c, n).Valid() && AfterRead(c, n).Source() == c.Source() + n && AfterRead(c, n).i == c.i + n
  {
  }

  lemma SeekKeeps(c: Cursor, sought: nat, since: Bytes, offset: int64, whence: Whence)
    requires FromOrigin(c, sought, since)
    ensures var target := SeekTarget(c, offset, whence);
            if target.None? then After(c, Seek(offset, whence)) == c
            else FromOrigin(After(c, Seek(offset, whence)), target.value, [])
  {
  }

  lemma OpKeeps(c: Cursor, op: Op, sought: nat, since: Bytes)
    requires FromOrigin(c, sought, since) && Possible(c, op)
    ensures FromOrigin(After(c, op), SoughtAfter(c, op, sought), SinceAfter(c, op, since))
  {
    match op
    case Read(n) => ReadKeeps(c, sought, since, n);
    case Seek(offset, whence) => SeekKeeps(c, sought, since, offset, whence);
  }

  lemma {:induction false} ReadsFromOrigin(cs: seq<Cursor>, ops: seq<Op>, m: nat)
    requires Run(cs, ops) && m <= |ops|
    ensures FromOrigin(cs[m], SoughtTo(cs, ops, m), ReadSince(cs, ops, m))
    ensures cs[m].content == cs[0].content && cs[m].cached == cs[0].cached
  {
    if m > 0 {
      ReadsFromOrigin(cs, ops, m - 1);
      assert Moves(cs, ops, m - 1);
      OpKeeps(cs[m - 1], ops[m - 1], SoughtTo(cs, ops, m - 1), ReadSince(cs, ops, m - 1));
    }
  }

  /** All bytes delivered by the operations from the k-th to before the m-th. */
  ghost function ReadBetween(cs: seq<Cursor>, ops: seq<Op>, k: nat, m: nat): Bytes
    requires Run(cs, ops) && k <= m <= |ops|
  {
    if m == k then []
    else
      assert Moves(cs, ops, m - 1);
      ReadBetween(cs, ops, k, m - 1) + if ops[m - 1].Read? then Delivered(cs[m - 1], ops[m - 1].n) else []
  }

  /** From a point on, nothing but reads, and seeks that change nothing. */
  ghost predicate OnlyReads(cs: seq<Cursor>, ops: seq<Op>, k: nat, m: nat)
    requires Run(cs, ops) && m <= |ops|
  {
    forall l :: k <= l < m ==> ops[l].Read? || cs[l + 1] == cs[l]
  }

  lemma {:induction false} ReadsOn(cs: seq<Cursor>, ops: seq<Op>, k: nat, m: nat)
    requires Run(cs, ops) && k <= m <= |ops| && OnlyReads(cs, ops, k, m)
    requires cs[k].pos == cs[k].cached
    ensures FromOrigin(cs[m], cs[k].i, ReadBetween(cs, ops, k, m))
    ensures cs[m].content == cs[0].content && cs[m].cached == cs[0].cached
  {
    if k < m {
      ReadsOn(cs, ops, k, m - 1);
      assert Moves(cs, ops, m - 1);
      if ops[m - 1].Read? {
        ReadKeeps(cs[m - 1], cs[k].i, ReadBetween(cs, ops, k, m - 1), ops[m - 1].n);
      }
    } else {
      ReadsFromOrigin(cs, ops, k);
    }
  }

  /**
    A seek to `p` while nothing beyond the cache was delivered moves the index there, and all that is read
    from then on is the original content from `p` on, or from the end of the cache if `p` lies beyond.
  */
  lemma ReplaysTheStream(cs: seq<Cursor>, ops: seq<Op>, k: nat, m: nat, p: int64)
    requires Run(cs, ops) && k < m <= |ops| && OnlyReads(cs, ops, k + 1, m)
    requires ops[k] == Seek(p, SeekStart) && p >= 0 && cs[k].pos == cs[k].cached
    ensures var replayed := ReadBetween(cs, ops, k + 1, m);
            var start := if p <= cs[0].cached then p else cs[0].cached;
            && cs[k + 1].i == p && cs[m].i == p + |replayed|
            && start + |replayed| <= |cs[0].content| && replayed == cs[0].content[start..start + |replayed|]
  {
    assert Moves(cs, ops, k);
    ReadsOn(cs, ops, k + 1, m);
  }

  /** The first pass over the body delivers it from its beginning. */
  lemma ReadsTheStream(cs: seq<Cursor>, ops: seq<Op>, m: nat)
    requires Run(cs, ops) && m <= |ops| && OnlyReads(cs, ops, 0, m)
    ensures var read := ReadBetween(cs, ops, 0, m);
            |read| <= |cs[0].content| && read == cs[0].content[..|read|]
  {
    ReadsOn(cs, ops, 0, m);
  }

  /** The next byte comes from where the index points just if the last seek went no further than the cache. */
  lemma AlignedExactly(cs: seq<Cursor>, ops: seq<Op>, m: nat)
    requires Run(cs, ops) && m <= |ops|
    ensures cs[m].Source() == cs[m].i <==> SoughtTo(cs, ops, m) <= cs[0].cached
  {
    ReadsFromOrigin(cs, ops, m);
  }

  /** After bytes beyond the cache were delivered no seek succeeds any more, and until then all sensible ones do. */
  lemma {:induction false} SeekRefusedExactly(cs: seq<Cursor>, ops: seq<Op>, m: nat, p: int64)
    requires Run(cs, ops) && m <= |ops| && p >= 0
    ensures SeekTarget(cs[m], p, SeekStart).None? <==>
            Origin(cs[0], SoughtTo(cs, ops, m)) + |ReadSince(cs, ops, m)| > cs[0].cached
  {
    ReadsFromOrigin(cs, ops, m);
  }
}
