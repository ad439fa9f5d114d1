/** Decimal numerals as node names use them (internal/cluset/cluset.go). */
module Numerals {
  /** A 64-bit machine integer. */
  const MAX_INT: int := 0x7fff_ffff_ffff_ffff
  const MAX_UINT: int := 0xffff_ffff_ffff_ffff
  newtype int64 = x: int | -0x8000_0000_0000_0000 <= x < 0x8000_0000_0000_0000

  predicate IsDigit(c: char) {
    '0' <= c <= '9'
  }

  predicate AllDigits(s: string) {
    forall i :: 0 <= i < |s| ==> IsDigit(s[i])
  }

  function DigitValue(c: char): (d: int)
    requires IsDigit(c)
    ensures 0 <= d <= 9
  {
    c as int - '0' as int
  }

  function DigitChar(d: int): (c: char)
    requires 0 <= d <= 9
    ensures IsDigit(c) && DigitValue(c) == d
  {
    '0' + d as char
  }

  function Value(s: string): (v: nat)
    requires AllDigits(s)
  {
    if s == "" then 0 else 10 * Value(s[..|s| - 1]) + DigitValue(s[|s| - 1])
  }

  /** `%0*d` of a non-negative number: at least one digit and at least `width` of them. */
  function Pad(width: nat, n: nat): (s: string)
    ensures AllDigits(s) && |s| >= 1 && |s| >= width
    decreases n + width
  {
    if n < 10 && width <= 1 then [DigitChar(n)]
    else Pad(Shorter(width), n / 10) + [DigitChar(n % 10)]
  }

  function Shorter(width: nat): nat {
    if width > 0 then width - 1 else 0
  }

  /** Reading digits on from value `v` exceeds 64 unsigned bits before anything but a digit comes. */
  predicate Overflows(s: string, v: nat) {
    v > MAX_UINT || (s != "" && IsDigit(s[0]) && Overflows(s[1..], 10 * v + DigitValue(s[0])))
  }

  /** What is read of a text without sign. */
  function Unsigned(t: string): (v: int)
    ensures 0 <= v <= MAX_INT
  {
    if Overflows(t, 0) then MAX_INT
    else if t == "" || !AllDigits(t) then 0
    else if Value(t) > MAX_INT then MAX_INT
    else Value(t)
  }

  /** strconv.Atoi with its error ignored: the largest integer for a numeral that does not fit, 0 for anything else that
      is no numeral. It is left as soon as the digits exceed 64 unsigned bits, whatever follows them. */
  function Atoi(s: string): (v: int)
    requires '-' !in s
    ensures 0 <= v <= MAX_INT
  {
    Unsigned(if s != "" && s[0] == '+' then s[1..] else s)
  }

  /** The digits read so far decide together with the rest. */
  lemma {:induction false} OverflowsOn(p: string, rest: string)
    requires AllDigits(p) && Overflows(rest, Value(p))
    ensures Overflows(p + rest, 0)
    decreases |p|
  {
    if p == "" {
      assert p + rest == rest;
    } else {
      var front, last := p[..|p| - 1], p[|p| - 1];
      var more := [last] + rest;
      assert more[1..] == rest;
      assert Overflows(more, Value(front));
      OverflowsOn(front, more);
      assert p + rest == front + more;
    }
  }

  lemma ValueStep(p: string, c: char)
    requires AllDigits(p) && IsDigit(c)
    ensures AllDigits(p + [c]) && Value(p + [c]) == 10 * Value(p) + DigitValue(c)
  {
    assert (p + [c])[..|p|] == p;
  }

  lemma MoveOn(p: string, q: string)
    requires q != ""
    ensures p + q == p + [q[0]] + q[1..]
  {}

  lemma {:induction false} ValueGrows(s: string, p: string, q: string)
    requires s == p + q && AllDigits(s) && AllDigits(p) && AllDigits(q)
    ensures Value(s) >= Value(p)
    decreases |q|
  {
    if q == "" {
      assert s == p;
    } else {
      ValueStep(p, q[0]);
      MoveOn(p, q);
      ValueGrows(s, p + [q[0]], q[1..]);
    }
  }

  lemma OverflowStep(q: string, v: nat)
    requires q != "" && IsDigit(q[0])
    ensures Overflows(q, v) <==> v > MAX_UINT || Overflows(q[1..], 10 * v + DigitValue(q[0]))
  {}

  /** A numeral that fits never overflows on the way. */
  lemma {:induction false} FitsOn(s: string, p: string, q: string)
    requires s == p + q && AllDigits(s) && AllDigits(p) && AllDigits(q) && Value(s) <= MAX_UINT
    ensures !Overflows(q, Value(p))
    decreases |q|
  {
    ValueGrows(s, p, q);
    if q != "" {
      ValueStep(p, q[0]);
      MoveOn(p, q);
      FitsOn(s, p + [q[0]], q[1..]);
      OverflowStep(q, Value(p));
    }
  }

  /** Digits beyond 64 unsigned bits decide, whatever follows them. */
  lemma AtoiOverflow(p: string, rest: string)
    requires AllDigits(p) && Value(p) > MAX_UINT && '-' !in p + rest
    ensures Atoi(p + rest) == MAX_INT
  {
    OverflowsOn(p, rest);
    assert p != "" && (p + rest)[0] == p[0] && IsDigit(p[0]);
  }

  lemma Fits(s: string)
    requires AllDigits(s) && Value(s) <= MAX_UINT
    ensures !Overflows(s, 0)
  {
    FitsOn(s, "", s);
  }

  lemma UnsignedDigits(s: string)
    requires AllDigits(s) && s != "" && Value(s) <= MAX_INT
    ensures Unsigned(s) == Value(s)
  {
    Fits(s);
  }

  lemma AtoiDigits(s: string)
    requires AllDigits(s) && s != "" && Value(s) <= MAX_INT
    ensures '-' !in s && Atoi(s) == Value(s)
  {
    assert IsDigit(s[0]);
    UnsignedDigits(s);
  }

  /** Reading back a printed number. */
  lemma {:induction false} PadValue(width: nat, n: nat)
    ensures Value(Pad(width, n)) == n
    decreases n + width
  {
    if n < 10 && width <= 1 {
      assert Pad(width, n)[..0] == "";
    } else {
      PadValue(Shorter(width), n / 10);
      var s := Pad(Shorter(width), n / 10);
      assert (s + [DigitChar(n % 10)])[..|s|] == s;
    }
  }

  /** Printing back a numeral at its own width. */
  lemma {:induction false} PadOfValue(s: string)
    requires AllDigits(s) && s != ""
    ensures Pad(|s|, Value(s)) == s
    decreases |s|
  {
    var front, last := s[..|s| - 1], s[|s| - 1];
    assert s == front + [last];
    if front == "" {
      assert Value(front) == 0;
    } else {
      PadOfValue(front);
      Decompose(Value(front), DigitValue(last));
    }
  }

  lemma Decompose(a: nat, d: int)
    requires 0 <= d <= 9
    ensures (10 * a + d) / 10 == a && (10 * a + d) % 10 == d
  {}

  lemma PadStep(width: nat, n: nat)
    requires n >= 10 || width > 1
    ensures Pad(width, n) == Pad(Shorter(width), n / 10) + [DigitChar(n % 10)]
  {}

  /** Width 0 and width 1 print alike. */
  lemma PadNarrow(n: nat)
    ensures Pad(0, n) == Pad(1, n)
  {}

  /** From the printed length of a number on, larger numbers print the same whether that length or the original width is
      asked for. */
  lemma {:induction false} PadWidth(width: nat, low: nat, n: nat)
    requires low <= n
    ensures Pad(|Pad(width, low)|, n) == Pad(width, n)
    decreases n + width
  {
    if low < 10 && width <= 1 {
      if width == 0 { PadNarrow(n); }
    } else {
      var w := |Pad(Shorter(width), low / 10)|;
      PadWidth(Shorter(width), low / 10, n / 10);
      PadStep(w + 1, n);
      PadStep(width, n);
    }
  }

  /** The length of a string in bytes, as UTF-8. */
  function ByteLength(s: string): nat {
    if s == "" then 0 else ByteLength(s[..|s| - 1]) + ByteWidth(s[|s| - 1])
  }

  function ByteWidth(c: char): nat {
    var u := c as int;
    if u < 0x80 then 1 else if u < 0x800 then 2 else if u < 0x1_0000 then 3 else 4
  }

  lemma {:induction false} DigitBytes(s: string)
    requires AllDigits(s)
    ensures ByteLength(s) == |s|
  {
    if s != "" {
      DigitBytes(s[..|s| - 1]);
      assert IsDigit(s[|s| - 1]);
    }
  }
}
