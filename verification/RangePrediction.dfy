/**
  Predicting from a Range header, before anything is known of the object, which bytes will be asked
  for, so that the download opened with the prediction can serve the request.
*/
module RangePrediction {
  import opened Types
  import opened Text

  datatype DownloadOptions = DownloadOptions(offset: int64, length: int64)

  datatype HTTPRange = HTTPRange(start: int64, length: int64)

  datatype RangeError = InvalidRange | PredictionFailed

  const BYTES := "bytes="

  // ---------- the header ----------

  /** What stands before and after the dash of one element, without the spaces around it. */
  function PredictBounds(start: string, end: string): Result<DownloadOptions, RangeError> {
    if start == "" then
      var i := ParseInt(end);
      if end == "" || end[0] == '-' || i.None? || i.value < 0 then Err(InvalidRange)
      else Ok(DownloadOptions(0 - i.value, -1))
    else
      var i := ParseInt(start);
      if i.None? || i.value < 0 then Err(InvalidRange)
      else if end == "" then Ok(DownloadOptions(i.value, -1))
      else
        var j := ParseInt(end);
        if j.None? || i.value > j.value then Err(InvalidRange)
        else Ok(DownloadOptions(i.value, Wrap(j.value - i.value + 1)))
  }

  /** One element of the range set: `first-last`, `first-` or `-suffix`. */
  function PredictElement(ra: string): Result<DownloadOptions, RangeError> {
    var cut := Cut(ra, '-');
    if cut.None? then Err(InvalidRange) else PredictBounds(Trim(cut.value.0), Trim(cut.value.1))
  }

  /** The first element that is not blank decides. */
  function PredictFirst(parts: seq<string>): Result<DownloadOptions, RangeError> {
    if parts == [] then Err(PredictionFailed)
    else if Trim(parts[0]) == "" then PredictFirst(parts[1..])
    else PredictElement(Trim(parts[0]))
  }

  /** Without a header there is nothing to predict. */
  function Predicted(s: string): Result<Option<DownloadOptions>, RangeError> {
    if s == "" then Ok(None)
    else if !(BYTES <= s) then Err(InvalidRange)
    else
      var first := PredictFirst(Split(s[|BYTES|..], ','));
      if first.Err? then Err(first.error) else Ok(Some(first.value))
  }

  method PredictOne(ra: string) returns (r: Result<DownloadOptions, RangeError>)
    ensures r == PredictElement(ra)
  {
    var cut := Cut(ra, '-');
    if cut.None? { return Err(InvalidRange); }
    var start, end := Trim(cut.value.0), Trim(cut.value.1);
    var offset: int64, length: int64;
    if start == "" {
      if end == "" || end[0] == '-' { return Err(InvalidRange); }
      var i := ParseInt(end);
      if i.None? || i.value < 0 { return Err(InvalidRange); }
      offset := 0 - i.value;
      length := -1;
    } else {
      var i := ParseInt(start);
      if i.None? || i.value < 0 { return Err(InvalidRange); }
      offset := i.value;
      if end == "" {
        length := -1;
      } else {
        var j := ParseInt(end);
        if j.None? || offset > j.value { return Err(InvalidRange); }
        length := Wrap(j.value - offset + 1);
      }
    }
    return Ok(DownloadOptions(offset, length));
  }

  method PredictRange(s: string) returns (r: Result<Option<DownloadOptions>, RangeError>)
    ensures r == Predicted(s)
  {
    if s == "" { return Ok(None); }
    if !(BYTES <= s) { return Err(InvalidRange); }
    var parts := Split(s[|BYTES|..], ',');
    var k := 0;
    while k < |parts|
      invariant k <= |parts|
      invariant PredictFirst(parts) == PredictFirst(parts[k..])
    {
      var ra := Trim(parts[k]);
      assert parts[k..][1..] == parts[k + 1..];
      k := k + 1;
      if ra == "" { continue; }
      var first := PredictOne(ra);
      if first.Err? { return Err(first.error); }
      return Ok(Some(first.value));
    }
    return Err(PredictionFailed);
  }

  // ---------- the range ----------

  /** A length that reaches past the end of the object is cut. */
  function Truncated(size: int64, r: HTTPRange): HTTPRange {
    if r.start < size && Wrap(r.start + r.length) > size then HTTPRange(r.start, Wrap(size - r.start)) else r
  }

  /** Start and length before they are cut. */
  function Absolute(size: int64, options: Option<DownloadOptions>): HTTPRange {
    if options.None? then HTTPRange(0, size)
    else if options.value.offset < 0 then
      HTTPRange(Wrap(size + options.value.offset), Wrap(size - options.value.offset))
    else if options.value.length < 0 then
      HTTPRange(options.value.offset, Wrap(size - options.value.offset))
    else HTTPRange(options.value.offset, options.value.length)
  }

  function AsRange(size: int64, options: Option<DownloadOptions>): HTTPRange {
    Truncated(size, Absolute(size, options))
  }

  method OptionsToRange(size: int64, options: Option<DownloadOptions>) returns (r: HTTPRange)
    ensures r == AsRange(size, options)
  {
    r := HTTPRange(0, 0);
    if options.None? {
      r := r.(length := size);
    } else if options.value.offset < 0 {
      r := HTTPRange(Wrap(size + options.value.offset), Wrap(size - options.value.offset));
    } else if options.value.length < 0 {
      r := HTTPRange(options.value.offset, Wrap(size - options.value.offset));
    } else {
      r := HTTPRange(options.value.offset, options.value.length);
    }
    ghost var absolute := Absolute(size, options);
    assert r == absolute;
    if r.start < size && Wrap(r.start + r.length) > size {
      r := r.(length := Wrap(size - r.start));
    }
    assert r == Truncated(size, absolute);
  }

  /** The opened download is handed out for the range it was opened for, and for no other. */
  function Reuses(available: bool, predicted: HTTPRange, offset: int64, length: int64): bool {
    available && predicted.start == offset && predicted.length == length
  }

  // ---------- section 2.1 of RFC 7233 ----------

  /** Positions are any strings of digits, leading zeros included. */
  datatype ByteRange =
    | FromTo(first: string, last: string)
    | From(first: string)
    | Suffix(length: string)
  {
    ghost predicate WellFormed() {
      match this
      case FromTo(first, last) => IsNumber(first) && IsNumber(last) && Value(first) <= Value(last)
      case From(first) => IsNumber(first)
      case Suffix(length) => IsNumber(length)
    }

    /** Every number fits the parser. */
    ghost predicate Fits() {
      && WellFormed()
      && match this
         case FromTo(first, last) => Value(last) < 0x8000_0000_0000_0000
         case From(first) => Value(first) < 0x8000_0000_0000_0000
         case Suffix(length) => Value(length) < 0x8000_0000_0000_0000
    }

    function Bounds(): (string, string) {
      match this
      case FromTo(first, last) => (first, last)
      case From(first) => (first, "")
      case Suffix(length) => ("", length)
    }

    function Show(): string {
      Bounds().0 + "-" + Bounds().1
    }

    ghost predicate Satisfiable(size: int) {
      && WellFormed()
      && match this
         case FromTo(first, last) => Value(first) < size
         case From(first) => Value(first) < size
         case Suffix(length) => Value(length) > 0 && size > 0
    }

    /** First position and number of the bytes selected. */
    ghost function Interval(size: nat): (int, int)
      requires WellFormed()
    {
      match this
      case FromTo(first, last) =>
        (Value(first), (if Value(last) < size then Value(last) + 1 else size) - Value(first))
      case From(first) => (Value(first), size - Value(first))
      case Suffix(length) =>
        var n := if Value(length) < size then Value(length) else size;
        (size - n, n)
    }
  }

  predicate IsNumber(s: string) {
    s != "" && AllDigits(s)
  }

  /** A header with this range, padded with spaces, after blank elements and before any other ones. */
  ghost predicate IsHeader(h: string, parts: seq<string>, k: nat, r: ByteRange) {
    IsFirst(h, parts, k, r.Show())
  }

  ghost predicate IsFirst(h: string, parts: seq<string>, k: nat, element: string) {
    && IsList(h, parts)
    && k < |parts| && (forall i :: 0 <= i < k ==> Blank(parts[i]))
    && Pads(parts[k], element)
  }

  ghost predicate IsList(h: string, parts: seq<string>) {
    && h == "bytes=" + Join(parts, ',')
    && parts != [] && forall i :: 0 <= i < |parts| ==> ',' !in parts[i]
  }

  ghost predicate Pads(part: string, s: string) {
    exists left, right :: Blank(left) && Blank(right) && part == left + s + right
  }

  lemma NumberIsPlain(s: string)
    requires IsNumber(s)
    ensures '-' !in s && Tight(s) && Trim(s) == s
    ensures ParseInt(s) == if Value(s) < 0x8000_0000_0000_0000 then Some(Value(s)) else None
  {
    TrimPadded("", s, "");
    assert "" + s + "" == s;
  }

  /** What the download is opened with. */
  ghost function OptionsOf(r: ByteRange): DownloadOptions
    requires r.WellFormed() && r.Fits()
  {
    match r
    case FromTo(first, last) => DownloadOptions(Value(first), Wrap(Value(last) - Value(first) + 1))
    case From(first) => DownloadOptions(Value(first), -1)
    case Suffix(length) => DownloadOptions(0 - Value(length), -1)
  }

  lemma PairPredicts(first: string, last: string, i: Option<int64>, j: Option<int64>)
    requires first != "" && last != "" && ParseInt(first) == i && ParseInt(last) == j && (i.Some? ==> i.value >= 0)
    ensures PredictBounds(first, last) ==
            if i.None? || j.None? || i.value > j.value then Err(InvalidRange)
            else Ok(DownloadOptions(i.value, Wrap(j.value - i.value + 1)))
  {
  }

  lemma BoundsPredict(r: ByteRange)
    requires r.WellFormed()
    ensures var (start, end) := r.Bounds();
            PredictBounds(start, end) == if r.Fits() then Ok(OptionsOf(r)) else Err(InvalidRange)
  {
    match r
    case FromTo(first, last) => FromToPredicts(first, last);
    case From(first) => FromPredicts(first);
    case Suffix(length) => SuffixPredicts(length);
  }

  lemma FromPredicts(first: string)
    requires IsNumber(first)
    ensures PredictBounds(first, "") ==
            if Value(first) < 0x8000_0000_0000_0000 then Ok(DownloadOptions(Value(first), -1)) else Err(InvalidRange)
  {
    NumberIsPlain(first);
  }

  lemma SuffixPredicts(length: string)
    requires IsNumber(length)
    ensures PredictBounds("", length) ==
            if Value(length) < 0x8000_0000_0000_0000
            then Ok(DownloadOptions(0 - Value(length), -1)) else Err(InvalidRange)
  {
    NumberIsPlain(length);
    assert length[0] != '-';
  }

  lemma FromToPredicts(first: string, last: string)
    requires IsNumber(first) && IsNumber(last) && Value(first) <= Value(last)
    ensures PredictBounds(first, last) ==
            if Value(last) < 0x8000_0000_0000_0000
            then Ok(DownloadOptions(Value(first), Wrap(Value(last) - Value(first) + 1))) else Err(InvalidRange)
  {
    NumberIsPlain(first);
    NumberIsPlain(last);
    PairPredicts(first, last, ParseInt(first), ParseInt(last));
  }

  lemma ElementCuts(start: string, end: string)
    requires '-' !in start && Trim(start) == start && Trim(end) == end
    ensures PredictElement(start + "-" + end) == PredictBounds(start, end)
  {
    CutAtFirst(start, end, '-');
    assert start + ['-'] + end == start + "-" + end;
  }

  lemma BoundsArePlain(r: ByteRange)
    requires r.WellFormed()
    ensures var (start, end) := r.Bounds();
            '-' !in start && Trim(start) == start && Trim(end) == end && Tight(r.Show()) && r.Show() != ""
  {
    match r
    case FromTo(first, last) =>
      NumberIsPlain(first);
      NumberIsPlain(last);
    case From(first) => NumberIsPlain(first);
    case Suffix(length) => NumberIsPlain(length);
  }

  lemma ElementPredicts(r: ByteRange)
    requires r.WellFormed()
    ensures Tight(r.Show()) && r.Show() != ""
    ensures PredictElement(r.Show()) == if r.Fits() then Ok(OptionsOf(r)) else Err(InvalidRange)
  {
    var (start, end) := r.Bounds();
    BoundsArePlain(r);
    ElementCuts(start, end);
    BoundsPredict(r);
  }

  lemma {:induction false} FirstDecides(parts: seq<string>, k: nat, element: string)
    requires k < |parts| && (forall i :: 0 <= i < k ==> Blank(parts[i]))
    requires Pads(parts[k], element) && Tight(element) && element != ""
    ensures PredictFirst(parts) == PredictElement(element)
  {
    if k == 0 {
      var left, right :| Blank(left) && Blank(right) && parts[0] == left + element + right;
      TrimPadded(left, element, right);
    } else {
      BlankTrims(parts[0]);
      FirstDecides(parts[1..], k - 1, element);
    }
  }

  /** The prediction is that of the first range; it fails just if a number does not fit 63 bits. */
  lemma HeaderPredicts(h: string, parts: seq<string>, k: nat, r: ByteRange)
    requires IsHeader(h, parts, k, r) && r.WellFormed()
    ensures Predicted(h) == if r.Fits() then Ok(Some(OptionsOf(r))) else Err(InvalidRange)
  {
    SplitOfJoin(parts, ',');
    assert h[|BYTES|..] == Join(parts, ',');
    ElementPredicts(r);
    FirstDecides(parts, k, r.Show());
  }

  lemma {:induction false} NothingDecides(parts: seq<string>)
    requires forall i :: 0 <= i < |parts| ==> Blank(parts[i])
    ensures PredictFirst(parts) == Err(PredictionFailed)
  {
    if parts != [] {
      BlankTrims(parts[0]);
      NothingDecides(parts[1..]);
    }
  }

  /** Refused are another unit and a header that asks for nothing. */
  lemma HeaderRefused(h: string, parts: seq<string>)
    requires h != "" && ("bytes=" <= h ==> IsList(h, parts) && forall i :: 0 <= i < |parts| ==> Blank(parts[i]))
    ensures Predicted(h) == if "bytes=" <= h then Err(PredictionFailed) else Err(InvalidRange)
  {
    if "bytes=" <= h {
      SplitOfJoin(parts, ',');
      assert h[|BYTES|..] == Join(parts, ',');
      NothingDecides(parts);
    }
  }

  /** Refused is also a first range without a dash, or one that ends before it starts. */
  lemma RangeRefused(h: string, parts: seq<string>, k: nat, element: string, first: string, last: string)
    requires IsFirst(h, parts, k, element) && element != "" && Tight(element)
    requires '-' !in element ||
             (element == first + "-" + last && IsNumber(first) && IsNumber(last) && Value(last) < Value(first))
    ensures Predicted(h) == Err(InvalidRange)
  {
    SplitOfJoin(parts, ',');
    assert h[|BYTES|..] == Join(parts, ',');
    FirstDecides(parts, k, element);
    if '-' !in element { NoCut(element, '-'); } else { BackwardsRefused(first, last); }
  }

  lemma BackwardsRefused(first: string, last: string)
    requires IsNumber(first) && IsNumber(last) && Value(last) < Value(first)
    ensures Tight(first + "-" + last) && PredictElement(first + "-" + last) == Err(InvalidRange)
  {
    NumberIsPlain(first);
    NumberIsPlain(last);
    ElementCuts(first, last);
    PairPredicts(first, last, ParseInt(first), ParseInt(last));
  }

  // ---------- when the prediction is right ----------

  /** With numbers below 2^62 nothing wraps around: the object's bytes from the offset on, as many as asked for. */
  lemma NothingWraps(size: int64, offset: int64, length: int64)
    requires 0 <= size < 0x4000_0000_0000_0000
    requires -0x4000_0000_0000_0000 < offset < 0x4000_0000_0000_0000 && length < 0x4000_0000_0000_0000
    ensures var r := AsRange(size, Some(DownloadOptions(offset, length)));
            && (offset < 0 ==> r.start == size + offset && r.length == -offset)
            && (0 <= offset < size && (length < 0 || offset + length > size) ==>
                  r.start == offset && r.length == size - offset)
            && (0 <= offset && 0 <= length && (offset >= size || offset + length <= size) ==>
                  r.start == offset && r.length == length)
  {
    WrapFits(size + offset);
    WrapFits(size - offset);
    WrapFits(size + offset + size - offset);
    WrapFits(offset + length);
    WrapFits(offset + size - offset);
    WrapFits(0 - offset);
  }

  /** The ranges that are predicted without overflow and without knowing the size. */
  ghost predicate Predictable(r: ByteRange, size: int64) {
    && r.WellFormed()
    && match r
       case FromTo(first, last) => Value(first) == 0 || Value(last) < 0x7FFF_FFFF_FFFF_FFFF
       case From(_) => true
       case Suffix(length) => Value(length) <= size < 0x4000_0000_0000_0000
  }

  /** The range is this interval. */
  ghost predicate Selects(range: HTTPRange, interval: (int, int)) {
    range.start == interval.0 && range.length == interval.1
  }

  lemma FromToExact(a: nat, b: nat, size: int64)
    requires a <= b < 0x8000_0000_0000_0000 && a < size
    ensures Selects(AsRange(size, Some(DownloadOptions(a, Wrap(b - a + 1)))),
                    (a, (if b < size then b + 1 else size) - a)) <==>
            a == 0 || b < 0x7FFF_FFFF_FFFF_FFFF
  {
    WrapFits(b - a + 1);
    WrapFits(b + 1);
    WrapFits(size - a);
    WrapFits(size);
  }

  lemma SuffixExact(n: nat, size: int64)
    requires 0 < n < 0x8000_0000_0000_0000 && 0 < size
    ensures var m := if n < size then n else size;
            Selects(AsRange(size, Some(DownloadOptions(0 - n, -1))), (size - m, m)) <==>
            n <= size < 0x4000_0000_0000_0000
  {
    WrapFits(size - n);
    WrapFits(size + n);
    WrapFits(size - n + Wrap(size + n));
    WrapFits(n);
    SumWraps(size, n);
  }

  lemma SumWraps(size: int64, n: nat)
    requires 0 < n < 0x8000_0000_0000_0000 && 0 < size
    ensures Wrap(size - n + Wrap(size + n)) > size <==> size < 0x4000_0000_0000_0000
  {
    WrapFits(size + n);
    WrapFits(size + size);
    var x := size - n + Wrap(size + n);
    assert x == size + size || x == size + size - 0x1_0000_0000_0000_0000;
  }

  lemma FromExact(a: nat, size: int64)
    requires a < size
    ensures Selects(AsRange(size, Some(DownloadOptions(a, -1))), (a, size - a))
  {
    WrapFits(size - a);
    WrapFits(size);
  }

  lemma OptionsExact(r: ByteRange, size: int64)
    requires r.WellFormed() && r.Fits() && r.Satisfiable(size) && size > 0
    ensures Selects(AsRange(size, Some(OptionsOf(r))), r.Interval(size)) <==> Predictable(r, size)
  {
    match r
    case FromTo(first, last) => FromToExact(Value(first), Value(last), size);
    case From(first) => FromExact(Value(first), size);
    case Suffix(length) => SuffixExact(Value(length), size);
  }

  /**
    For every satisfiable range whose numbers fit the parser, the prediction is exactly the interval of
    bytes the range selects if and only if the range is predictable.
  */
  lemma PredictionExact(h: string, parts: seq<string>, k: nat, r: ByteRange, size: int64)
    requires IsHeader(h, parts, k, r) && r.WellFormed() && r.Fits() && r.Satisfiable(size) && size > 0
    ensures Predicted(h).Ok?
    ensures Selects(AsRange(size, Predicted(h).value), r.Interval(size)) <==> Predictable(r, size)
  {
    HeaderPredicts(h, parts, k, r);
    OptionsExact(r, size);
  }

  /**
    So the opened download serves the interval the client selects just in the predictable cases, and then
    no other one.
  */
  lemma ReuseExact(
    h: string, parts: seq<string>, k: nat, r: ByteRange, size: int64, available: bool, offset: int64,
    length: int64)
    requires IsHeader(h, parts, k, r) && r.WellFormed() && r.Fits() && r.Satisfiable(size) && size > 0
    ensures Predicted(h).Ok?
    ensures var reused := Reuses(available, AsRange(size, Predicted(h).value), offset, length);
            && ((offset, length) == r.Interval(size) ==> (reused <==> available && Predictable(r, size)))
            && (Predictable(r, size) ==> (reused <==> available && (offset, length) == r.Interval(size)))
  {
    PredictionExact(h, parts, k, r, size);
  }

  /** Without a header the whole object is opened, and serves just the whole object. */
  lemma NoHeaderIsWhole(size: int64, available: bool, offset: int64, length: int64)
    requires size >= 0
    ensures Predicted("") == Ok(None) && AsRange(size, None) == HTTPRange(0, size)
    ensures Reuses(available, AsRange(size, None), offset, length) <==> available && offset == 0 && length == size
  {
    WrapFits(size);
  }

  lemma FromStartIsWhole(size: int64)
    requires size >= 0
    ensures AsRange(size, Some(DownloadOptions(0, -1))) == HTTPRange(0, size)
  {
    WrapFits(size);
  }

  lemma EmptySuffixInterval(length: string, size: nat)
    requires IsNumber(length) && Value(length) == 0
    ensures Suffix(length).Interval(size) == (size, 0)
  {
    var (first, n) := Suffix(length).Interval(size);
    assert n == 0 && first == size;
  }

  /** An empty suffix selects nothing, and is taken for the whole object. */
  lemma EmptySuffixIsWhole(h: string, parts: seq<string>, k: nat, r: ByteRange, size: int64)
    requires IsHeader(h, parts, k, r) && r.WellFormed() && r.Suffix? && Value(r.length) == 0 && size >= 0
    ensures Predicted(h).Ok? && AsRange(size, Predicted(h).value) == HTTPRange(0, size)
    ensures r.Interval(size) == (size, 0)
  {
    var options := DownloadOptions(0, -1);
    assert Predicted(h) == Ok(Some(options)) by {
      HeaderPredicts(h, parts, k, r);
      assert OptionsOf(r) == options;
    }
    FromStartIsWhole(size);
    EmptySuffixInterval(r.length, size);
  }
}
