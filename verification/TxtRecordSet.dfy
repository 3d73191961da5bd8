/**
  The key/value pairs of a host's text records, some of them split over numbered fields, and the looking up
  of a field in them, which does not depend on the order of the records.
*/
module TxtRecordSets {
  import opened Types
  import opened Text
  import opened StringOrder

  type Values = map<string, seq<string>>

  datatype TXTRecord = TXTRecord(txt: string, ttl: int64)

  const DAY: int64 := 86_400_000_000_000

  // ---------- parsing one record ----------

  /** ASCII letters only. */
  function Lower(s: string): (r: string)
    ensures |r| == |s|
  {
    if s == "" then "" else Lower(s[..|s| - 1]) + [LowerChar(s[|s| - 1])]
  }

  function LowerChar(c: char): char {
    if 'A' <= c <= 'Z' then (c as int + 32) as char else c
  }

  function Dashed(s: string): (r: string)
    ensures |r| == |s|
  {
    if s == "" then "" else Dashed(s[..|s| - 1]) + [if s[|s| - 1] == '_' then '-' else s[|s| - 1]]
  }

  function KeyOf(field: string): string {
    Dashed(Lower(field))
  }

  lemma {:induction false} LowerAt(s: string, k: nat)
    requires k < |s|
    ensures Lower(s)[k] == LowerChar(s[k])
  {
    if k < |s| - 1 { LowerAt(s[..|s| - 1], k); }
  }

  lemma {:induction false} DashedAt(s: string, k: nat)
    requires k < |s|
    ensures Dashed(s)[k] == if s[k] == '_' then '-' else s[k]
  {
    if k < |s| - 1 { DashedAt(s[..|s| - 1], k); }
  }

  /** Capital letters become small, underscores dashes, and all other characters stay. */
  lemma KeyOfExact(field: string, k: nat)
    requires k < |field|
    ensures |KeyOf(field)| == |field|
    ensures 'A' <= field[k] <= 'Z' ==> KeyOf(field)[k] as int == field[k] as int + 32
    ensures !('A' <= field[k] <= 'Z') ==> KeyOf(field)[k] == if field[k] == '_' then '-' else field[k]
  {
    LowerAt(field, k);
    DashedAt(Lower(field), k);
    LowerCharExact(field[k]);
  }

  lemma LowerCharExact(c: char)
    ensures if 'A' <= c <= 'Z' then LowerChar(c) as int == c as int + 32 else LowerChar(c) == c
  {
  }

  /** The normalized key and the value; a record without a colon says nothing. */
  function Parsed(txt: string): Option<(string, string)> {
    var cut := Cut(txt, ':');
    if cut.None? then None else Some((KeyOf(cut.value.0), cut.value.1))
  }

  /** The first colon ends the key. */
  lemma ParsedExact(name: string, value: string)
    requires ':' !in name
    ensures Parsed(name + ":" + value) == Some((KeyOf(name), value)) && Parsed(name) == None
  {
    CutAtFirst(name, value, ':');
    assert name + [':'] + value == name + ":" + value;
    NoCut(name, ':');
  }

  // ---------- adding ----------

  /** What one record says of a key. */
  function Said(r: TXTRecord, key: string): seq<string> {
    var parsed := Parsed(r.txt);
    if parsed.Some? && parsed.value.0 == key then [parsed.value.1] else []
  }

  /** The values the records give a key, in their order. */
  function ValuesOf(records: seq<TXTRecord>, key: string): seq<string> {
    if records == [] then [] else ValuesOf(records[..|records| - 1], key) + Said(records[|records| - 1], key)
  }

  function MinTTL(records: seq<TXTRecord>): int64 {
    if records == [] then DAY
    else
      var rest := MinTTL(records[..|records| - 1]);
      if rest > records[|records| - 1].ttl then records[|records| - 1].ttl else rest
  }

  /** The least of a day and all times to live. */
  lemma {:induction false} MinTTLExact(records: seq<TXTRecord>)
    ensures MinTTL(records) <= 24 * 60 * 60 * 1_000_000_000
    ensures forall r :: r in records ==> MinTTL(records) <= r.ttl
    ensures MinTTL(records) == 24 * 60 * 60 * 1_000_000_000 || exists r :: r in records && MinTTL(records) == r.ttl
  {
    if records != [] {
      MinTTLExact(records[..|records| - 1]);
      assert records == records[..|records| - 1] + [records[|records| - 1]];
    }
  }

  /** `vals` lists for every key the values the records give it. */
  ghost predicate Collects(vals: Values, records: seq<TXTRecord>) {
    forall key :: (if key in vals then vals[key] else []) == ValuesOf(records, key)
  }

  // ---------- looking up ----------

  function Numbered(field: string, i: nat): string {
    field + "-" + Decimal(i)
  }

  lemma NumberedInjective(field: string, i: nat, j: nat)
    requires Numbered(field, i) == Numbered(field, j)
    ensures i == j
  {
    var n := |field| + 1;
    assert Numbered(field, i)[n..] == Decimal(i);
    assert Numbered(field, j)[n..] == Decimal(j);
    DecimalInjective(i, j);
  }

  /** The field, a dash, and the number in decimal. */
  lemma NumberedExact(field: string, i: nat)
    ensures var n := |field|;
            && |Numbered(field, i)| > n + 1
            && Numbered(field, i)[..n] == field && Numbered(field, i)[n] == '-'
            && AllDigits(Numbered(field, i)[n + 1..]) && Value(Numbered(field, i)[n + 1..]) == i
            && (Numbered(field, i)[n + 1] == '0' ==> i == 0)
  {
    ValueOfDecimal(i);
    assert Numbered(field, i)[|field| + 1..] == Decimal(i);
  }

  predicate Present(vals: Values, key: string) {
    key in vals && vals[key] != []
  }

  /** The first values of the fields numbered from 1 to n, joined. */
  function Joined(vals: Values, field: string, n: nat): string {
    if n == 0 || !Present(vals, Numbered(field, n)) then ""
    else Joined(vals, field, n - 1) + vals[Numbered(field, n)][0]
  }

  /** The numbered fields present without a gap are those up to n. */
  ghost predicate Reaches(vals: Values, field: string, n: nat) {
    && (forall i :: 1 <= i <= n ==> Present(vals, Numbered(field, i)))
    && !Present(vals, Numbered(field, n + 1))
  }

  ghost predicate Found(vals: Values, field: string, value: string) {
    if Present(vals, field) then value == vals[field][0]
    else exists n :: Reaches(vals, field, n) && value == Joined(vals, field, n)
  }

  lemma FoundUnique(vals: Values, field: string, v: string, w: string)
    requires Found(vals, field, v) && Found(vals, field, w)
    ensures v == w
  {
    if !Present(vals, field) {
      var m :| Reaches(vals, field, m) && v == Joined(vals, field, m);
      var n :| Reaches(vals, field, n) && w == Joined(vals, field, n);
      assert !(m + 1 <= n) && !(n + 1 <= m);
    }
  }

  lemma AddsNothing(vals: Values, records: seq<TXTRecord>, r: TXTRecord)
    requires Collects(vals, records) && Parsed(r.txt).None?
    ensures Collects(vals, records + [r])
  {
    assert (records + [r])[..|records|] == records;
    assert forall key :: ValuesOf(records + [r], key) == ValuesOf(records, key) + Said(r, key);
  }

  lemma AddsValue(vals: Values, records: seq<TXTRecord>, r: TXTRecord)
    requires Collects(vals, records) && Parsed(r.txt).Some?
    ensures var (key, value) := Parsed(r.txt).value;
            Collects(vals[key := (if key in vals then vals[key] else []) + [value]], records + [r])
  {
    assert (records + [r])[..|records|] == records;
    assert forall key :: ValuesOf(records + [r], key) == ValuesOf(records, key) + Said(r, key);
  }

  class TXTRecordSet {
    var vals: Values
    var minTTL: int64

    constructor ()
      ensures Collects(vals, []) && minTTL == MinTTL([])
    {
      vals, minTTL := map[], DAY;
    }

    method Add(txt: string, ttl: int64, ghost records: seq<TXTRecord>)
      requires Collects(vals, records) && minTTL == MinTTL(records)
      modifies this
      ensures Collects(vals, records + [TXTRecord(txt, ttl)]) && minTTL == MinTTL(records + [TXTRecord(txt, ttl)])
    {
      ghost var added := TXTRecord(txt, ttl);
      assert (records + [added])[..|records|] == records;
      if minTTL > ttl { minTTL := ttl; }
      var fields := Cut(txt, ':');
      if fields.None? {
        AddsNothing(vals, records, added);
        return;
      }
      var key := Dashed(Lower(fields.value.0));
      AddsValue(vals, records, added);
      vals := vals[key := (if key in vals then vals[key] else []) + [fields.value.1]];
    }

    method Finalize()
      modifies this
      ensures vals.Keys == old(vals).Keys && minTTL == old(minTTL)
      ensures forall key :: key in vals ==> vals[key] == Sort(old(vals)[key])
    {
      var rest := vals.Keys;
      while rest != {}
        invariant rest <= vals.Keys == old(vals).Keys && minTTL == old(minTTL)
        invariant forall key :: key in vals ==>
                    vals[key] == if key in rest then old(vals)[key] else Sort(old(vals)[key])
        decreases rest
      {
        var key :| key in rest;
        vals := vals[key := Sort(vals[key])];
        rest := rest - {key};
      }
    }

    /** The search ends because there are finitely many keys and no two numbered fields are the same. */
    method Lookup(field: string) returns (value: string)
      ensures Found(vals, field, value)
    {
      if field in vals && vals[field] != [] { return vals[field][0]; }
      value := "";
      var i := 1;
      ghost var seen: set<string> := {};
      while true
        invariant i >= 1 && value == Joined(vals, field, i - 1)
        invariant forall k :: 1 <= k < i ==> Present(vals, Numbered(field, k))
        invariant seen <= vals.Keys && forall k :: k in seen ==> exists j :: 1 <= j < i && k == Numbered(field, j)
        decreases vals.Keys - seen
      {
        var subfield := field + "-" + Decimal(i);
        assert subfield !in seen by {
          if subfield in seen {
            var j :| 1 <= j < i && subfield == Numbered(field, j);
            NumberedInjective(field, i, j);
          }
        }
        if subfield in vals && vals[subfield] != [] {
          value := value + vals[subfield][0];
          seen := seen + {subfield};
          i := i + 1;
        } else {
          break;
        }
      }
      assert Reaches(vals, field, i - 1);
    }
  }

  // ---------- order of the records ----------

  /** What a finalized set of these records is. */
  ghost predicate Finalized(vals: Values, records: seq<TXTRecord>) {
    forall key {:trigger FinalizedAt(vals, records, key)} :: FinalizedAt(vals, records, key)
  }

  ghost predicate FinalizedAt(vals: Values, records: seq<TXTRecord>, key: string) {
    (if key in vals then vals[key] else []) == Sort(ValuesOf(records, key))
  }

  lemma FinalizedAfter(before: Values, after: Values, records: seq<TXTRecord>)
    requires Collects(before, records) && after.Keys == before.Keys
    requires forall key :: key in after ==> after[key] == Sort(before[key])
    ensures Finalized(after, records)
  {
    forall key ensures FinalizedAt(after, records, key) {
      assert (if key in before then before[key] else []) == ValuesOf(records, key);
    }
  }

  method ResponseToTXTRecordSet(records: seq<TXTRecord>) returns (txts: TXTRecordSet)
    ensures fresh(txts) && Finalized(txts.vals, records) && txts.minTTL == MinTTL(records)
  {
    txts := new TXTRecordSet();
    var i := 0;
    assert records[..0] == [];
    while i < |records|
      invariant i <= |records|
      invariant Collects(txts.vals, records[..i]) && txts.minTTL == MinTTL(records[..i])
    {
      assert records[..i + 1] == records[..i] + [TXTRecord(records[i].txt, records[i].ttl)];
      txts.Add(records[i].txt, records[i].ttl, records[..i]);
      i := i + 1;
    }
    assert records[..i] == records;
    ghost var before := txts.vals;
    txts.Finalize();
    FinalizedAfter(before, txts.vals, records);
  }

  lemma {:induction false} ValuesOfConcat(a: seq<TXTRecord>, b: seq<TXTRecord>, key: string)
    ensures ValuesOf(a + b, key) == ValuesOf(a, key) + ValuesOf(b, key)
  {
    if b == [] {
      assert a + b == a;
    } else {
      assert (a + b)[..|a + b| - 1] == a + b[..|b| - 1];
      ValuesOfConcat(a, b[..|b| - 1], key);
    }
  }

  lemma {:induction false} MinTTLConcat(a: seq<TXTRecord>, b: seq<TXTRecord>)
    ensures var m, n := MinTTL(a), MinTTL(b); MinTTL(a + b) == if m < n then m else n
  {
    if b == [] {
      assert a + b == a;
      MinTTLExact(a);
    } else {
      assert (a + b)[..|a + b| - 1] == a + b[..|b| - 1];
      MinTTLConcat(a, b[..|b| - 1]);
    }
  }

  lemma ValuesAround(left: seq<TXTRecord>, x: TXTRecord, right: seq<TXTRecord>, key: string)
    ensures ValuesOf(left + [x] + right, key) == ValuesOf(left, key) + Said(x, key) + ValuesOf(right, key)
  {
    assert (left + [x])[..|left|] == left;
    ValuesOfConcat(left + [x], right, key);
  }

  lemma {:induction false} SameValues(a: seq<TXTRecord>, b: seq<TXTRecord>, key: string)
    requires multiset(a) == multiset(b)
    ensures multiset(ValuesOf(a, key)) == multiset(ValuesOf(b, key))
  {
    if a == [] {
      assert |multiset(b)| == |b|;
    } else {
      var left, right := FindLast(a, b);
      SameValues(a[..|a| - 1], left + right, key);
      SplitsSame(a, left, right, key);
    }
  }

  lemma SplitsSame(a: seq<TXTRecord>, left: seq<TXTRecord>, right: seq<TXTRecord>, key: string)
    requires a != [] && multiset(ValuesOf(a[..|a| - 1], key)) == multiset(ValuesOf(left + right, key))
    ensures multiset(ValuesOf(a, key)) == multiset(ValuesOf(left + [a[|a| - 1]] + right, key))
  {
    ValuesOfConcat(left, right, key);
    ValuesAround(left, a[|a| - 1], right, key);
    SameSplit(ValuesOf(a[..|a| - 1], key), ValuesOf(left, key), Said(a[|a| - 1], key), ValuesOf(right, key));
  }

  lemma {:induction false} SameTTL(a: seq<TXTRecord>, b: seq<TXTRecord>)
    requires multiset(a) == multiset(b)
    ensures MinTTL(a) == MinTTL(b)
  {
    if a == [] {
      assert |multiset(b)| == |b|;
    } else {
      var x, front := a[|a| - 1], a[..|a| - 1];
      var left, right := FindLast(a, b);
      SameTTL(front, left + right);
      assert a == front + [x];
      MinTTLConcat(left, right);
      MinTTLConcat(left, [x]);
      MinTTLConcat(left + [x], right);
      MinTTLConcat(front, [x]);
    }
  }

  lemma FinalizedAgree(vals: Values, a: seq<TXTRecord>, wals: Values, b: seq<TXTRecord>, key: string)
    requires multiset(a) == multiset(b) && Finalized(vals, a) && Finalized(wals, b)
    ensures Present(vals, key) == Present(wals, key) && (Present(vals, key) ==> vals[key] == wals[key])
  {
    SameValues(a, b, key);
    assert FinalizedAt(vals, a, key) && FinalizedAt(wals, b, key);
    var s, t := ValuesOf(a, key), ValuesOf(b, key);
    SortSorts(s);
    SortSorts(t);
    SortedUnique(Sort(s), Sort(t));
  }

  lemma {:induction false} JoinedAgree(
    vals: Values, a: seq<TXTRecord>, wals: Values, b: seq<TXTRecord>, field: string, n: nat)
    requires multiset(a) == multiset(b) && Finalized(vals, a) && Finalized(wals, b)
    ensures Joined(vals, field, n) == Joined(wals, field, n)
  {
    if n > 0 {
      FinalizedAgree(vals, a, wals, b, Numbered(field, n));
      JoinedAgree(vals, a, wals, b, field, n - 1);
    }
  }

  /** Lookup and TTL do not depend on the order in which the records were added. */
  lemma OrderDoesNotMatter(
    vals: Values, a: seq<TXTRecord>, wals: Values, b: seq<TXTRecord>, field: string, v: string, w: string)
    requires multiset(a) == multiset(b) && Finalized(vals, a) && Finalized(wals, b)
    requires Found(vals, field, v) && Found(wals, field, w)
    ensures v == w && MinTTL(a) == MinTTL(b)
  {
    SameTTL(a, b);
    FinalizedAgree(vals, a, wals, b, field);
    if !Present(vals, field) {
      var n :| Reaches(vals, field, n) && v == Joined(vals, field, n);
      forall i ensures Present(vals, Numbered(field, i)) == Present(wals, Numbered(field, i)) {
        FinalizedAgree(vals, a, wals, b, Numbered(field, i));
      }
      assert Reaches(wals, field, n);
      JoinedAgree(vals, a, wals, b, field, n);
      FoundUnique(wals, field, w, Joined(wals, field, n));
    }
  }

  // ---------- a field given as such ----------

  lemma {:induction false} ValuesAreSaid(records: seq<TXTRecord>, key: string, value: string)
    ensures value in ValuesOf(records, key) <==> exists r :: r in records && Parsed(r.txt) == Some((key, value))
  {
    if records != [] {
      var front, last := records[..|records| - 1], records[|records| - 1];
      ValuesAreSaid(front, key, value);
      assert records == front + [last];
      assert value in Said(last, key) <==> Parsed(last.txt) == Some((key, value));
    }
  }

  /** Of all values the records give a field, whatever their order, the least one is found. */
  lemma FindsLeast(vals: Values, records: seq<TXTRecord>, field: string, value: string, r: TXTRecord)
    requires Finalized(vals, records) && Found(vals, field, value)
    requires r in records && Names(r, field)
    ensures exists q :: q in records && Parsed(q.txt) == Some((field, value))
    ensures AtMost(value, Parsed(r.txt).value.1)
  {
    var given, other := ValuesOf(records, field), Parsed(r.txt).value.1;
    ValuesAreSaid(records, field, other);
    ValuesAreSaid(records, field, value);
    SortSorts(given);
    assert FinalizedAt(vals, records, field);
    assert other in multiset(Sort(given)) && vals[field] == Sort(given);
    assert value in multiset(Sort(given));
    AtMostTotal(value, value);
  }

  // ---------- values split over numbered fields ----------

  function Concat(parts: seq<string>): string {
    if parts == [] then "" else Concat(parts[..|parts| - 1]) + parts[|parts| - 1]
  }

  /** The records give each numbered field its part and nothing else, and do not go on. */
  ghost predicate Carries(records: seq<TXTRecord>, field: string, parts: seq<string>) {
    && ValuesOf(records, field) == [] && ValuesOf(records, Numbered(field, |parts| + 1)) == []
    && forall i {:trigger CarriesAt(records, field, parts, i)} ::
         0 <= i < |parts| ==> CarriesAt(records, field, parts, i)
  }

  ghost predicate CarriesAt(records: seq<TXTRecord>, field: string, parts: seq<string>, i: nat) {
    && i < |parts|
    && ValuesOf(records, Numbered(field, i + 1)) == [parts[i]]
  }

  lemma SortSmall(s: seq<string>)
    requires |s| <= 1
    ensures Sort(s) == s
  {
  }

  lemma CarriedAt(vals: Values, records: seq<TXTRecord>, field: string, parts: seq<string>, i: nat)
    requires Finalized(vals, records) && Carries(records, field, parts) && i < |parts|
    ensures Present(vals, Numbered(field, i + 1)) && vals[Numbered(field, i + 1)][0] == parts[i]
  {
    assert CarriesAt(records, field, parts, i);
    assert FinalizedAt(vals, records, Numbered(field, i + 1));
    SortSmall([parts[i]]);
  }

  lemma {:induction false} JoinsParts(vals: Values, records: seq<TXTRecord>, field: string, parts: seq<string>, n: nat)
    requires Finalized(vals, records) && Carries(records, field, parts) && n <= |parts|
    ensures Joined(vals, field, n) == Concat(parts[..n])
  {
    if n > 0 {
      CarriedAt(vals, records, field, parts, n - 1);
      JoinsParts(vals, records, field, parts, n - 1);
      assert parts[..n][..n - 1] == parts[..n - 1];
    }
  }

  /** A value split over numbered fields is found whole, whatever the order of the records. */
  lemma FindsParts(vals: Values, records: seq<TXTRecord>, field: string, parts: seq<string>, value: string)
    requires Finalized(vals, records) && Carries(records, field, parts) && Found(vals, field, value)
    ensures value == Concat(parts)
  {
    var n := |parts|;
    ReachesParts(vals, records, field, parts);
    JoinsParts(vals, records, field, parts, n);
    assert parts[..n] == parts;
    FoundUnique(vals, field, value, Joined(vals, field, n));
  }

  lemma ReachesParts(vals: Values, records: seq<TXTRecord>, field: string, parts: seq<string>)
    requires Finalized(vals, records) && Carries(records, field, parts)
    ensures !Present(vals, field) && Reaches(vals, field, |parts|)
  {
    assert FinalizedAt(vals, records, field) && FinalizedAt(vals, records, Numbered(field, |parts| + 1));
    forall i | 1 <= i <= |parts| ensures Present(vals, Numbered(field, i)) {
      CarriedAt(vals, records, field, parts, i - 1);
    }
  }

  /** The record names the field numbered i + 1, in whatever case and punctuation, and holds the i-th part. */
  ghost predicate IsChunk(r: TXTRecord, field: string, parts: seq<string>, i: nat) {
    && i < |parts|
    && Parsed(r.txt) == Some((Numbered(field, i + 1), parts[i]))
  }

  predicate Names(r: TXTRecord, key: string) {
    Parsed(r.txt).Some? && Parsed(r.txt).value.0 == key
  }

  ghost predicate AreChunks(chunks: seq<TXTRecord>, field: string, parts: seq<string>) {
    |chunks| == |parts| && forall i :: 0 <= i < |parts| ==> IsChunk(chunks[i], field, parts, i)
  }

  /** Records that say nothing of the field, its numbered fields that carry a part, or the one after. */
  ghost predicate AreOthers(others: seq<TXTRecord>, field: string, n: nat) {
    forall r :: r in others ==> !Names(r, field) && forall j :: 1 <= j <= n + 1 ==> !Names(r, Numbered(field, j))
  }

  lemma {:induction false} NobodyNames(records: seq<TXTRecord>, key: string)
    requires forall r :: r in records ==> !Names(r, key)
    ensures ValuesOf(records, key) == []
  {
    if records != [] {
      assert records[|records| - 1] in records;
      NobodyNames(records[..|records| - 1], key);
    }
  }

  lemma ChunkSays(r: TXTRecord, field: string, parts: seq<string>, m: nat, i: nat)
    requires IsChunk(r, field, parts, m)
    ensures Said(r, Numbered(field, i + 1)) == if i == m then [parts[m]] else []
  {
    if Numbered(field, m + 1) == Numbered(field, i + 1) { NumberedInjective(field, m + 1, i + 1); }
  }

  lemma {:induction false} ChunkValues(chunks: seq<TXTRecord>, field: string, parts: seq<string>, m: nat, i: nat)
    requires AreChunks(chunks, field, parts) && m <= |parts|
    ensures ValuesOf(chunks[..m], Numbered(field, i + 1)) == if i < m then [parts[i]] else []
  {
    if m > 0 {
      assert chunks[..m][..m - 1] == chunks[..m - 1];
      ChunkValues(chunks, field, parts, m - 1, i);
      ChunkSays(chunks[m - 1], field, parts, m - 1, i);
    }
  }

  lemma SplitValues(chunks: seq<TXTRecord>, others: seq<TXTRecord>, field: string, parts: seq<string>, i: nat)
    requires AreChunks(chunks, field, parts) && AreOthers(others, field, |parts|) && i <= |parts|
    ensures ValuesOf(chunks + others, Numbered(field, i + 1)) == if i < |parts| then [parts[i]] else []
  {
    ChunkValues(chunks, field, parts, |parts|, i);
    assert chunks[..|parts|] == chunks;
    NobodyNames(others, Numbered(field, i + 1));
    ValuesOfConcat(chunks, others, Numbered(field, i + 1));
  }

  lemma WholeUnnamed(chunks: seq<TXTRecord>, others: seq<TXTRecord>, field: string, parts: seq<string>)
    requires AreChunks(chunks, field, parts) && AreOthers(others, field, |parts|)
    ensures ValuesOf(chunks + others, field) == []
  {
    forall r | r in chunks ensures !Names(r, field) {
      var i :| 0 <= i < |chunks| && chunks[i] == r;
      assert IsChunk(chunks[i], field, parts, i);
      assert |Numbered(field, i + 1)| > |field|;
    }
    NobodyNames(chunks, field);
    NobodyNames(others, field);
    ValuesOfConcat(chunks, others, field);
  }

  lemma ChunkAt(
    records: seq<TXTRecord>, chunks: seq<TXTRecord>, others: seq<TXTRecord>, field: string, parts: seq<string>,
    i: nat)
    requires multiset(records) == multiset(chunks + others) && i <= |parts|
    requires AreChunks(chunks, field, parts) && AreOthers(others, field, |parts|)
    ensures ValuesOf(records, Numbered(field, i + 1)) == if i < |parts| then [parts[i]] else []
  {
    SplitValues(chunks, others, field, parts, i);
    SameValues(records, chunks + others, Numbered(field, i + 1));
    SameIfShort(ValuesOf(records, Numbered(field, i + 1)), ValuesOf(chunks + others, Numbered(field, i + 1)));
  }

  lemma ChunksCarry(
    records: seq<TXTRecord>, chunks: seq<TXTRecord>, others: seq<TXTRecord>, field: string, parts: seq<string>)
    requires multiset(records) == multiset(chunks + others)
    requires AreChunks(chunks, field, parts) && AreOthers(others, field, |parts|)
    ensures Carries(records, field, parts)
  {
    forall i | 0 <= i < |parts| ensures CarriesAt(records, field, parts, i) {
      ChunkAt(records, chunks, others, field, parts, i);
    }
    ChunkAt(records, chunks, others, field, parts, |parts|);
    WholeUnnamed(chunks, others, field, parts);
    SameValues(records, chunks + others, field);
    SameIfShort(ValuesOf(records, field), ValuesOf(chunks + others, field));
  }

  /** Chunks added in any order, among other records, are put together again. */
  lemma SplitValueIsWhole(vals: Values, records: seq<TXTRecord>, chunks: seq<TXTRecord>, others: seq<TXTRecord>,
                          field: string, parts: seq<string>, value: string)
    requires multiset(records) == multiset(chunks + others)
    requires AreChunks(chunks, field, parts) && AreOthers(others, field, |parts|)
    requires Finalized(vals, records) && Found(vals, field, value)
    ensures value == Concat(parts)
  {
    ChunksCarry(records, chunks, others, field, parts);
    FindsParts(vals, records, field, parts, value);
  }
}
