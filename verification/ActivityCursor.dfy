/**
 The pagination cursor of the activity center: the decimal timestamp zero-padded to 64 digits followed
 by the id in upper-case hex (protocol/activity_center_persistence.go:35).  Comparing cursors as text
 is comparing (timestamp, id bytes).
 */
module ActivityCursor {
  type Byte = b: int | 0 <= b < 256
  type Id = seq<Byte>
  type Uint64 = x: int | 0 <= x < 0x1_0000_0000_0000_0000

  const WIDTH := 64

  // ---------------------------------------------------------------------------
  // Text
  // ---------------------------------------------------------------------------

  /** SQLite's comparison of TEXT values: byte by byte, a proper prefix is smaller. */
  predicate TextLess(a: string, b: string) {
    b != [] && (a == [] || a[0] < b[0] || (a[0] == b[0] && TextLess(a[1..], b[1..])))
  }

  predicate BytesLess(a: Id, b: Id) {
    b != [] && (a == [] || a[0] < b[0] || (a[0] == b[0] && BytesLess(a[1..], b[1..])))
  }

  function DigitChar(d: int): char
    requires 0 <= d < 10
  {
    '0' + d as char
  }

  function HexChar(d: int): char
    requires 0 <= d < 16
  {
    if d < 10 then '0' + d as char else 'A' + (d - 10) as char
  }

  function Decimal(n: nat): string {
    if n < 10 then [DigitChar(n)] else Decimal(n / 10) + [DigitChar(n % 10)]
  }

  function Zeros(n: nat): string {
    seq(n, _ => '0')
  }

  /** substr(s, -n, n): the last n characters. */
  function Suffix(s: string, n: nat): string
    requires n <= |s|
  {
    s[|s| - n..]
  }

  function Padded(timestamp: nat): string {
    Suffix(Zeros(WIDTH) + Decimal(timestamp), WIDTH)
  }

  function Hex(id: Id): string {
    if id == [] then "" else [HexChar(id[0] / 16), HexChar(id[0] % 16)] + Hex(id[1..])
  }

  function Cursor(timestamp: nat, id: Id): string {
    Padded(timestamp) + Hex(id)
  }

  // ---------------------------------------------------------------------------
  // Text order
  // ---------------------------------------------------------------------------

  lemma {:induction false} TextIrreflexive(a: string)
    ensures !TextLess(a, a)
  {
    if a != [] { TextIrreflexive(a[1..]); }
  }

  lemma {:induction false} TextTotal(a: string, b: string)
    ensures TextLess(a, b) || a == b || TextLess(b, a)
  {
    if a != [] && b != [] && a[0] == b[0] {
      TextTotal(a[1..], b[1..]);
      assert a == [a[0]] + a[1..] && b == [b[0]] + b[1..];
    }
  }

  lemma {:induction false} TextTransitive(a: string, b: string, c: string)
    requires TextLess(a, b) && TextLess(b, c)
    ensures TextLess(a, c)
  {
    if a != [] && a[0] == b[0] && b[0] == c[0] { TextTransitive(a[1..], b[1..], c[1..]); }
  }

  /** After heads of one width, the heads decide unless they are equal. */
  lemma {:induction false} TextConcat(p: string, q: string, a: string, b: string)
    requires |p| == |q|
    ensures TextLess(p + a, q + b) <==> TextLess(p, q) || (p == q && TextLess(a, b))
  {
    if p == [] {
      assert p + a == a && q + b == b;
    } else {
      assert (p + a)[0] == p[0] && (p + a)[1..] == p[1..] + a;
      assert (q + b)[0] == q[0] && (q + b)[1..] == q[1..] + b;
      assert p == [p[0]] + p[1..] && q == [q[0]] + q[1..];
      TextConcat(p[1..], q[1..], a, b);
    }
  }

  // ---------------------------------------------------------------------------
  // Ids
  // ---------------------------------------------------------------------------

  lemma HexPairOrder(x: Byte, y: Byte)
    ensures var p, q := [HexChar(x / 16), HexChar(x % 16)], [HexChar(y / 16), HexChar(y % 16)];
            (TextLess(p, q) <==> x < y) && (p == q <==> x == y)
  {
    HexCharOrder(x / 16, y / 16);
    HexCharOrder(x % 16, y % 16);
    var p, q := [HexChar(x / 16), HexChar(x % 16)], [HexChar(y / 16), HexChar(y % 16)];
    assert p[1..] == [p[1]] && q[1..] == [q[1]];
    assert TextLess(p[1..], q[1..]) <==> p[1] < q[1];
    assert p == q <==> p[0] == q[0] && p[1] == q[1];
  }

  lemma HexCharOrder(d: int, e: int)
    requires 0 <= d < 16 && 0 <= e < 16
    ensures HexChar(d) < HexChar(e) <==> d < e
    ensures HexChar(d) == HexChar(e) <==> d == e
  {
  }

  /** Two upper-case hexadecimal digits per byte, the high one first. */
  lemma {:induction false} HexDigits(id: Id, i: nat)
    requires i < |id|
    ensures |Hex(id)| == 2 * |id|
    ensures Hex(id)[2 * i] == "0123456789ABCDEF"[id[i] / 16] && Hex(id)[2 * i + 1] == "0123456789ABCDEF"[id[i] % 16]
  {
    if i > 0 { HexDigits(id[1..], i - 1); } else if |id| > 1 { HexDigits(id[1..], 0); }
  }

  lemma {:induction false} HexOrder(a: Id, b: Id)
    ensures TextLess(Hex(a), Hex(b)) <==> BytesLess(a, b)
    ensures Hex(a) == Hex(b) <==> a == b
  {
    if a != [] && b != [] {
      HexOrder(a[1..], b[1..]);
      HexPairOrder(a[0], b[0]);
      var p, q := [HexChar(a[0] / 16), HexChar(a[0] % 16)], [HexChar(b[0] / 16), HexChar(b[0] % 16)];
      TextConcat(p, q, Hex(a[1..]), Hex(b[1..]));
      assert Hex(a) == p + Hex(a[1..]) && Hex(b) == q + Hex(b[1..]);
      assert Hex(a)[..2] == p && Hex(b)[..2] == q && Hex(a)[2..] == Hex(a[1..]) && Hex(b)[2..] == Hex(b[1..]);
      assert a == [a[0]] + a[1..] && b == [b[0]] + b[1..];
    }
  }

  // ---------------------------------------------------------------------------
  // Timestamps
  // ---------------------------------------------------------------------------

  function Pow10(n: nat): nat {
    if n == 0 then 1 else 10 * Pow10(n - 1)
  }

  /** The number n written with exactly w digits. */
  function Digits(n: nat, w: nat): string {
    if w == 0 then "" else Digits(n / 10, w - 1) + [DigitChar(n % 10)]
  }

  lemma {:induction false} DigitsLength(n: nat, w: nat)
    ensures |Digits(n, w)| == w
  {
    if w > 0 { DigitsLength(n / 10, w - 1); }
  }

  lemma {:induction false} DigitsOrder(m: nat, n: nat, w: nat)
    requires m < Pow10(w) && n < Pow10(w)
    ensures TextLess(Digits(m, w), Digits(n, w)) <==> m < n
    ensures Digits(m, w) == Digits(n, w) <==> m == n
  {
    if w > 0 {
      DigitsOrder(m / 10, n / 10, w - 1);
      DigitsLength(m / 10, w - 1);
      DigitsLength(n / 10, w - 1);
      var p, q := Digits(m / 10, w - 1), Digits(n / 10, w - 1);
      var a, b := [DigitChar(m % 10)], [DigitChar(n % 10)];
      TextConcat(p, q, a, b);
      assert TextLess(a, b) <==> m % 10 < n % 10;
      assert Digits(m, w)[..w - 1] == p && Digits(n, w)[..w - 1] == q;
      assert Digits(m, w)[w - 1] == a[0] && Digits(n, w)[w - 1] == b[0];
    }
  }

  lemma {:induction false} DecimalLength(n: nat, w: nat)
    requires n < Pow10(w) && w > 0
    ensures |Decimal(n)| <= w
  {
    if n >= 10 { DecimalLength(n / 10, w - 1); }
  }

  lemma {:induction false} DigitsOfZero(w: nat)
    ensures Digits(0, w) == Zeros(w)
  {
    if w > 0 {
      DigitsOfZero(w - 1);
      assert Zeros(w) == Zeros(w - 1) + ['0'];
    }
  }

  lemma {:induction false} PaddingIsDigits(n: nat, w: nat)
    requires |Decimal(n)| <= w
    ensures Zeros(w - |Decimal(n)|) + Decimal(n) == Digits(n, w)
  {
    if n < 10 {
      DigitsOfZero(w - 1);
    } else {
      PaddingIsDigits(n / 10, w - 1);
      assert w - |Decimal(n)| == w - 1 - |Decimal(n / 10)|;
      assert Zeros(w - |Decimal(n)|) + Decimal(n) == Zeros(w - |Decimal(n)|) + Decimal(n / 10) + [DigitChar(n % 10)];
    }
  }

  lemma PaddedIsDigits(n: nat)
    requires n < Pow10(WIDTH)
    ensures Padded(n) == Digits(n, WIDTH) && |Padded(n)| == WIDTH
  {
    DecimalLength(n, WIDTH);
    PaddingIsDigits(n, WIDTH);
    DigitsLength(n, WIDTH);
    assert Suffix(Zeros(WIDTH) + Decimal(n), WIDTH) == Zeros(WIDTH - |Decimal(n)|) + Decimal(n);
  }

  /** The number a decimal text stands for. */
  function ValueOf(s: string): int {
    if s == "" then 0 else 10 * ValueOf(s[..|s| - 1]) + (s[|s| - 1] as int - '0' as int)
  }

  lemma {:induction false} DigitsValue(n: nat, w: nat)
    requires n < Pow10(w)
    ensures ValueOf(Digits(n, w)) == n
  {
    if w > 0 {
      DigitsValue(n / 10, w - 1);
      var d := Digits(n, w);
      DigitsLength(n / 10, w - 1);
      assert d == Digits(n / 10, w - 1) + [DigitChar(n % 10)];
      assert d[..|d| - 1] == Digits(n / 10, w - 1);
    }
  }

  /** The first 64 characters of a cursor stand for the timestamp. */
  lemma PaddedValue(n: nat)
    requires n < Pow10(WIDTH)
    ensures |Padded(n)| == 64 && ValueOf(Padded(n)) == n
  {
    PaddedIsDigits(n);
    DigitsValue(n, WIDTH);
  }

  lemma {:induction false} Pow10Monotone(m: nat, n: nat)
    requires m <= n
    ensures Pow10(m) <= Pow10(n)
  {
    if m < n { Pow10Monotone(m, n - 1); }
  }

  /** Every 64-bit timestamp fits the padding. */
  lemma TimestampFits(t: Uint64)
    ensures t < Pow10(WIDTH)
  {
    assert Pow10(4) == 10_000;
    assert Pow10(8) == 100_000_000 by { assert Pow10(6) == 1_000_000; }
    assert Pow10(12) == 1_000_000_000_000 by { assert Pow10(10) == 10_000_000_000; }
    assert Pow10(16) == 10_000_000_000_000_000 by { assert Pow10(14) == 100_000_000_000_000; }
    assert Pow10(20) == 100_000_000_000_000_000_000 by { assert Pow10(18) == 1_000_000_000_000_000_000; }
    Pow10Monotone(20, WIDTH);
  }

  // ---------------------------------------------------------------------------
  // The cursor
  // ---------------------------------------------------------------------------

  predicate KeyLess(t: nat, a: Id, u: nat, b: Id) {
    t < u || (t == u && BytesLess(a, b))
  }

  lemma CursorOrder(t: nat, a: Id, u: nat, b: Id)
    requires t < Pow10(WIDTH) && u < Pow10(WIDTH)
    ensures TextLess(Cursor(t, a), Cursor(u, b)) <==> KeyLess(t, a, u, b)
    ensures Cursor(t, a) == Cursor(u, b) <==> t == u && a == b
  {
    PaddedIsDigits(t);
    PaddedIsDigits(u);
    DigitsOrder(t, u, WIDTH);
    HexOrder(a, b);
    TextConcat(Padded(t), Padded(u), Hex(a), Hex(b));
    assert Cursor(t, a)[..WIDTH] == Padded(t) && Cursor(t, a)[WIDTH..] == Hex(a);
    assert Cursor(u, b)[..WIDTH] == Padded(u) && Cursor(u, b)[WIDTH..] == Hex(b);
  }
}
