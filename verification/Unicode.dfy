/**
 Strings as JavaScript sees them. A Dafny `string` is a sequence of Unicode scalar values;
 JavaScript measures and sorts the UTF-16 code units of that sequence, and Node measures its UTF-8 bytes.
 */
module Unicode {
  import opened Wrappers

  /** The UTF-16 code units of one scalar value. */
  function UnitsOf(c: char): (u: seq<int>)
  {
    var n := c as int;
    if n < 0x10000 then [n]
    else [0xD800 + (n - 0x10000) / 0x400, 0xDC00 + (n - 0x10000) % 0x400]
  }

  function Units(s: string): seq<int>
  {
    if s == "" then [] else UnitsOf(s[0]) + Units(s[1..])
  }

  /** JavaScript's `length`. */
  function Length(s: string): nat
  {
    |Units(s)|
  }

  predicate UnitsBefore(a: seq<int>, b: seq<int>)
  {
    if b == [] then false
    else if a == [] then true
    else if a[0] == b[0] then UnitsBefore(a[1..], b[1..])
    else a[0] < b[0]
  }

  /** The order of `<` on strings and of `sort()` without a comparator. */
  predicate Before(a: string, b: string)
  {
    UnitsBefore(Units(a), Units(b))
  }

  type Byte = b: int | 0 <= b < 256

  /** A continuation byte: it carries the lowest six bits. */
  function Trail(n: nat): Byte {
    0x80 + n % 0x40
  }

  /** The UTF-8 bytes of one scalar value (section 3 of RFC 3629). */
  function BytesOf(c: char): (bytes: seq<Byte>)
    ensures 1 <= |bytes| <= 4
  {
    var n := c as int;
    var m := n / 0x40;
    var l := m / 0x40;
    if n < 0x80 then [n]
    else if n < 0x800 then [0xC0 + m, Trail(n)]
    else if n < 0x10000 then [0xE0 + l, Trail(m), Trail(n)]
    else [0xF0 + l / 0x40, Trail(l), Trail(m), Trail(n)]
  }

  /** `Buffer.byteLength(s, "utf8")`. */
  function ByteLength(s: string): nat
  {
    if s == "" then 0 else |BytesOf(s[0])| + ByteLength(s[1..])
  }

  predicate Ascii(s: string)
  {
    forall i :: 0 <= i < |s| ==> s[i] as int < 0x80
  }

  lemma {:induction false} AsciiLengths(s: string)
    requires Ascii(s)
    ensures Length(s) == |s| && ByteLength(s) == |s|
  {
    if s != "" {
      AsciiLengths(s[1..]);
    }
  }

  lemma {:induction false} ByteLengthConcat(a: string, b: string)
    ensures ByteLength(a + b) == ByteLength(a) + ByteLength(b)
  {
    if a == "" {
      assert a + b == b;
    } else {
      assert (a + b)[1..] == a[1..] + b;
      ByteLengthConcat(a[1..], b);
    }
  }

  /** Two prefixes of one text with the same number of bytes are the same prefix. */
  lemma {:induction false} PrefixByBytes(a: string, b: string, restA: string, restB: string)
    requires a + restA == b + restB
    requires ByteLength(a) == ByteLength(b)
    ensures a == b && restA == restB
  {
    if a == "" {
      assert b == "";
      assert restA == a + restA && restB == b + restB;
    } else {
      assert b != "";
      assert a[0] == (a + restA)[0] == (b + restB)[0] == b[0];
      assert a[1..] + restA == (a + restA)[1..] == (b + restB)[1..] == b[1..] + restB;
      PrefixByBytes(a[1..], b[1..], restA, restB);
      assert a == [a[0]] + a[1..] && b == [b[0]] + b[1..];
    }
  }

  lemma ConcatAssociative(a: string, b: string, c: string)
    ensures (a + b) + c == a + (b + c)
  {
  }

  // ---- The code unit order is a strict total order ----

  ghost predicate StrictTotal(less: (string, string) -> bool)
  {
    && (forall a :: !less(a, a))
    && (forall a, b :: less(a, b) || a == b || less(b, a))
    && (forall a, b, c :: less(a, b) && less(b, c) ==> less(a, c))
  }

  lemma {:induction false} UnitsTransitive(a: seq<int>, b: seq<int>, c: seq<int>)
    requires UnitsBefore(a, b) && UnitsBefore(b, c)
    ensures UnitsBefore(a, c)
  {
    if a != [] && a[0] == b[0] && b[0] == c[0] {
      UnitsTransitive(a[1..], b[1..], c[1..]);
    }
  }

  lemma {:induction false} UnitsTrichotomy(a: seq<int>, b: seq<int>)
    ensures a == b ==> !UnitsBefore(a, b)
    ensures a != b ==> UnitsBefore(a, b) || UnitsBefore(b, a)
  {
    if a != [] && b != [] && a[0] == b[0] {
      UnitsTrichotomy(a[1..], b[1..]);
      assert a == [a[0]] + a[1..] && b == [b[0]] + b[1..];
    }
  }

  // ---- What the code units and their order are ----

  /** The text that code units stand for (section 2.2 of RFC 2781); None for a surrogate that stands alone. */
  function FromUnits(u: seq<int>): (r: Option<string>)
  {
    if u == [] then Some("")
    else if 0 <= u[0] < 0xD800 || 0xE000 <= u[0] < 0x10000 then
      var rest :- FromUnits(u[1..]);
      Some([u[0] as char] + rest)
    else if 0xD800 <= u[0] < 0xDC00 && |u| >= 2 && 0xDC00 <= u[1] < 0xE000 then
      var rest :- FromUnits(u[2..]);
      Some([((u[0] - 0xD800) * 0x400 + (u[1] - 0xDC00) + 0x10000) as char] + rest)
    else None
  }

  /** The code units of a text stand for that text. */
  lemma {:induction false} UnitsRoundTrip(s: string)
    ensures FromUnits(Units(s)) == Some(s)
  {
    if s != "" {
      var u := UnitsOf(s[0]);
      assert Units(s)[0] == u[0] && (|u| == 2 ==> Units(s)[1] == u[1]);
      assert Units(s)[|u|..] == Units(s[1..]);
      UnitsRoundTrip(s[1..]);
      assert s == [s[0]] + s[1..];
    }
  }

  lemma UnitsInjective(a: string, b: string)
    requires Units(a) == Units(b)
    ensures a == b
  {
    UnitsRoundTrip(a);
    UnitsRoundTrip(b);
  }

  /** The two agree on their first `k` elements. */
  predicate SameTo<T(==)>(a: seq<T>, b: seq<T>, k: nat)
  {
    k <= |a| && k <= |b| && forall i :: 0 <= i < k ==> a[i] == b[i]
  }

  /** They agree up to place `k`, where the first is smaller. */
  predicate PartAt(a: seq<int>, b: seq<int>, k: nat)
  {
    k < |a| && k < |b| && SameTo(a, b, k) && a[k] < b[k]
  }

  /** A proper prefix comes first; otherwise the first code unit that differs decides. */
  ghost predicate Precedes(a: seq<int>, b: seq<int>)
  {
    (|a| < |b| && SameTo(a, b, |a|)) || exists k: nat :: PartAt(a, b, k)
  }

  lemma SameCons(x: int, a: seq<int>, b: seq<int>, k: nat)
    ensures SameTo([x] + a, [x] + b, k + 1) <==> SameTo(a, b, k)
  {
    var xa, xb := [x] + a, [x] + b;
    if SameTo(xa, xb, k + 1) {
      assert forall i :: 0 <= i < k ==> a[i] == xa[i + 1] && b[i] == xb[i + 1];
    }
  }

  lemma PrecedesCons(x: int, a: seq<int>, b: seq<int>)
    ensures Precedes([x] + a, [x] + b) <==> Precedes(a, b)
  {
    hide SameTo;
    var xa, xb := [x] + a, [x] + b;
    SameCons(x, a, b, |a|);
    if k: nat :| PartAt(a, b, k) {
      SameCons(x, a, b, k);
      assert PartAt(xa, xb, k + 1);
    }
    if k: nat :| PartAt(xa, xb, k) {
      if k > 0 {
        SameCons(x, a, b, k - 1);
        assert PartAt(a, b, k - 1);
      }
    }
  }

  lemma {:induction false} UnitsBeforeExactly(a: seq<int>, b: seq<int>)
    ensures UnitsBefore(a, b) <==> Precedes(a, b)
  {
    if a != [] && b != [] && a[0] == b[0] {
      assert a == [a[0]] + a[1..] && b == [b[0]] + b[1..];
      UnitsBeforeExactly(a[1..], b[1..]);
      PrecedesCons(a[0], a[1..], b[1..]);
    } else if a != [] && b != [] {
      assert a[0] < b[0] ==> PartAt(a, b, 0);
    }
  }

  /** What `<` on strings means, and `sort()` goes by. */
  lemma BeforeExactly(a: string, b: string)
    ensures Before(a, b) <==> Precedes(Units(a), Units(b))
  {
    UnitsBeforeExactly(Units(a), Units(b));
  }

  lemma BeforeIsStrictTotal()
    ensures StrictTotal(Before)
  {
    forall a, b
      ensures !Before(a, a)
      ensures Before(a, b) || a == b || Before(b, a)
    {
      UnitsTrichotomy(Units(a), Units(a));
      UnitsTrichotomy(Units(a), Units(b));
      if Units(a) == Units(b) {
        UnitsInjective(a, b);
      }
    }
    forall a, b, c | Before(a, b) && Before(b, c)
      ensures Before(a, c)
    {
      UnitsTransitive(Units(a), Units(b), Units(c));
    }
  }
}
