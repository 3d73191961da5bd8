/**
  Lexicographic order of byte strings, as the store keeps its keys, and big-endian numbers in it. Numbers
  of equal width lie in the order of their values, and strings that differ within a common prefix length
  are ordered by that prefix, which is why a scan of the replication log runs in clock order.
*/
module ByteOrder {
  import opened Types

  predicate Less(a: Bytes, b: Bytes) {
    b != [] && (a == [] || a[0] < b[0] || (a[0] == b[0] && Less(a[1..], b[1..])))
  }

  function BigEndian(n: nat, width: nat): (b: Bytes)
    ensures |b| == width
  {
    if width == 0 then [] else BigEndian(n / 256, width - 1) + [n % 256]
  }

  function Number(b: Bytes): nat {
    if b == [] then 0 else 256 * Number(b[..|b| - 1]) + b[|b| - 1]
  }

  function Pow256(width: nat): (p: nat)
    ensures p > 0
  {
    if width == 0 then 1 else 256 * Pow256(width - 1)
  }

  // ---------- a strict total order ----------

  lemma {:induction false} LessIrreflexive(a: Bytes)
    ensures !Less(a, a)
  {
    if a != [] { LessIrreflexive(a[1..]); }
  }

  lemma {:induction false} LessTransitive(a: Bytes, b: Bytes, c: Bytes)
    requires Less(a, b) && Less(b, c)
    ensures Less(a, c)
  {
    if a != [] && a[0] == b[0] && b[0] == c[0] { LessTransitive(a[1..], b[1..], c[1..]); }
  }

  lemma {:induction false} LessTotal(a: Bytes, b: Bytes)
    ensures a == b || Less(a, b) || Less(b, a)
  {
    if a != [] && b != [] && a[0] == b[0] {
      LessTotal(a[1..], b[1..]);
      assert a == [a[0]] + a[1..] && b == [b[0]] + b[1..];
    }
  }

  // ---------- comparing concatenations ----------

  lemma {:induction false} LessAfterPrefix(p: Bytes, a: Bytes, b: Bytes)
    ensures Less(p + a, p + b) <==> Less(a, b)
  {
    if p == [] {
      assert p + a == a && p + b == b;
    } else {
      assert (p + a)[1..] == p[1..] + a && (p + b)[1..] == p[1..] + b;
      LessAfterPrefix(p[1..], a, b);
    }
  }

  /** Where heads of equal length differ, the tails do not matter. */
  lemma {:induction false} LessByHead(x: Bytes, y: Bytes, u: Bytes, v: Bytes)
    requires |x| == |y| && x != y
    ensures Less(x + u, y + v) <==> Less(x, y)
  {
    if x[0] == y[0] {
      assert x == [x[0]] + x[1..] && y == [y[0]] + y[1..];
      assert (x + u)[1..] == x[1..] + u && (y + v)[1..] == y[1..] + v;
      LessByHead(x[1..], y[1..], u, v);
    }
  }

  lemma {:induction false} LongerIsMore(a: Bytes, b: Bytes)
    ensures Less(a, a + b) <==> b != []
  {
    if b == [] {
      assert a + b == a;
      LessIrreflexive(a);
    } else if a != [] {
      assert (a + b)[1..] == a[1..] + b;
      LongerIsMore(a[1..], b);
    }
  }

  // ---------- big-endian numbers ----------

  lemma {:induction false} NumberOfBigEndian(n: nat, width: nat)
    requires n < Pow256(width)
    ensures Number(BigEndian(n, width)) == n
  {
    if width > 0 {
      NumberOfBigEndian(n / 256, width - 1);
      assert BigEndian(n, width)[..width - 1] == BigEndian(n / 256, width - 1);
    }
  }

  lemma {:induction false} BigEndianOfNumber(b: Bytes)
    ensures Number(b) < Pow256(|b|) && BigEndian(Number(b), |b|) == b
  {
    if b != [] {
      var front := b[..|b| - 1];
      BigEndianOfNumber(front);
      assert Number(b) / 256 == Number(front) && Number(b) % 256 == b[|b| - 1];
    }
  }

  /** Byte order of encodings of one width is numeric order. */
  lemma {:induction false} BigEndianOrder(n: nat, m: nat, width: nat)
    requires n < Pow256(width) && m < Pow256(width)
    ensures Less(BigEndian(n, width), BigEndian(m, width)) <==> n < m
  {
    if width > 0 {
      var x, y := BigEndian(n / 256, width - 1), BigEndian(m / 256, width - 1);
      BigEndianOrder(n / 256, m / 256, width - 1);
      if n / 256 == m / 256 {
        LessAfterPrefix(x, [n % 256], [m % 256]);
      } else {
        NumberOfBigEndian(n / 256, width - 1);
        NumberOfBigEndian(m / 256, width - 1);
        LessByHead(x, y, [n % 256], [m % 256]);
      }
    }
  }
}
