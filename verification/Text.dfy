/** Decimal text and the byte order SQLite uses to compare text columns. */
module Text {

  predicate IsDigit(c: char) {
    '0' <= c <= '9'
  }

  predicate AllDigits(s: string) {
    forall i :: 0 <= i < |s| ==> IsDigit(s[i])
  }

  function Digit(d: nat): char
    requires d < 10
  {
    '0' + d as char
  }

  lemma DecimalDigits(d: nat)
    requires d < 10
    ensures Digit(d) == "0123456789"[d] && Value(Digit(d)) == d
  {
  }

  function Value(c: char): nat
    requires IsDigit(c)
  {
    (c - '0') as nat
  }

  function Pow10(w: nat): nat {
    if w == 0 then 1 else 10 * Pow10(w - 1)
  }

  /** The number a string of digits denotes. */
  function NatOf(s: string): nat
    requires AllDigits(s)
  {
    if s == [] then 0 else 10 * NatOf(s[..|s| - 1]) + Value(s[|s| - 1])
  }

  /** n in decimal, padded with leading zeros to at least the given width. */
  function Padded(n: nat, width: nat): (s: string)
    ensures AllDigits(s) && NatOf(s) == n
    ensures |s| >= width
    ensures |s| == width <==> n < Pow10(width)
    decreases n + width
  {
    if n == 0 && width == 0 then ""
    else
      var front := Padded(n / 10, if width > 0 then width - 1 else 0);
      var s := front + [Digit(n % 10)];
      assert s[..|s| - 1] == front;
      s
  }

  /** A string of width digits is the padded form of its own value. */
  lemma {:induction false} PaddedOfNat(s: string)
    requires AllDigits(s)
    ensures NatOf(s) < Pow10(|s|) && Padded(NatOf(s), |s|) == s
  {
    if s == [] {
    } else {
      var front := s[..|s| - 1];
      PaddedOfNat(front);
      assert NatOf(s) / 10 == NatOf(front) && NatOf(s) % 10 == Value(s[|s| - 1]);
      assert s == front + [s[|s| - 1]];
    }
  }

  /** Strict byte order on text. */
  predicate Less(a: string, b: string) {
    if b == [] then false
    else if a == [] then true
    else if a[0] != b[0] then a[0] < b[0]
    else Less(a[1..], b[1..])
  }

  /** The <= of a text column. */
  predicate AtMost(a: string, b: string) {
    a == b || Less(a, b)
  }

  /** Equal-length heads decide the order unless they are the same text. */
  lemma {:induction false} LessAppend(p: string, q: string, x: string, y: string)
    requires |p| == |q|
    ensures Less(p + x, q + y) <==> Less(p, q) || (p == q && Less(x, y))
  {
    if p == [] {
      assert p + x == x && q + y == y;
    } else {
      LessAppend(p[1..], q[1..], x, y);
      assert (p + x)[1..] == p[1..] + x && (q + y)[1..] == q[1..] + y;
      assert p == [p[0]] + p[1..] && q == [q[0]] + q[1..];
    }
  }

  lemma LessCons(c: char, x: string, y: string)
    ensures Less([c] + x, [c] + y) <==> Less(x, y)
  {
    assert ([c] + x)[1..] == x && ([c] + y)[1..] == y;
  }

  /** Fixed-width decimals compare as text exactly as they compare as numbers. */
  lemma {:induction false} LessPadded(a: nat, b: nat, w: nat)
    requires a < Pow10(w) && b < Pow10(w)
    ensures Less(Padded(a, w), Padded(b, w)) <==> a < b
  {
    hide NatOf;
    if w > 0 {
      LessPadded(a / 10, b / 10, w - 1);
      var p, q := Padded(a / 10, w - 1), Padded(b / 10, w - 1);
      var x, y := [Digit(a % 10)], [Digit(b % 10)];
      LessAppend(p, q, x, y);
      assert Less(x, y) <==> a % 10 < b % 10;
    }
  }

  /** A leading fixed-width field decides; the rest decides between equal fields. */
  lemma LessField(a: nat, b: nat, w: nat, x: string, y: string)
    requires a < Pow10(w) && b < Pow10(w)
    ensures Less(Padded(a, w) + x, Padded(b, w) + y) <==> a < b || (a == b && Less(x, y))
  {
    LessPadded(a, b, w);
    LessAppend(Padded(a, w), Padded(b, w), x, y);
  }

  // ---------- Searching ----------

  /** The position of the first c, or the length of the text if there is none. */
  function IndexOf(s: string, c: char): (i: nat)
    ensures i <= |s| && c !in s[..i] && (i < |s| ==> s[i] == c)
  {
    if s == [] || s[0] == c then 0
    else
      var i := 1 + IndexOf(s[1..], c);
      assert s[..i] == [s[0]] + s[1..][..i - 1];
      i
  }

  lemma {:induction false} FirstIndex(head: string, c: char, tail: string)
    requires c !in head
    ensures IndexOf(head + ([c] + tail), c) == |head|
  {
    if head == [] {
      assert head + ([c] + tail) == [c] + tail;
    } else {
      FirstIndex(head[1..], c, tail);
      assert (head + ([c] + tail))[1..] == head[1..] + ([c] + tail);
    }
  }
}
