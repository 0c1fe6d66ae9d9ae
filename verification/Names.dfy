/**
  File names of staged parts: a fixed-width hexadecimal offset, so that a directory listed
  by name lists the parts by offset.
 */
module Names {

  const DIGITS: string := "0123456789abcdef"
  const WIDTH: nat := 16

  function Pow16(w: nat): (p: nat)
    ensures p > 0
  {
    if w == 0 then 1 else 16 * Pow16(w - 1)
  }

  /** `n` in hexadecimal, padded to `w` digits. */
  function Hex(n: nat, w: nat): string {
    if w == 0 then [] else Hex(n / 16, w - 1) + [DIGITS[n % 16]]
  }

  ghost predicate HexDigits(s: string) {
    forall i :: 0 <= i < |s| ==> s[i] in DIGITS
  }

  lemma {:induction false} HexForm(n: nat, w: nat)
    ensures |Hex(n, w)| == w && HexDigits(Hex(n, w))
  {
    if w > 0 { HexForm(n / 16, w - 1); }
  }

  function DigitValue(c: char): (d: nat)
    ensures c in DIGITS ==> d < 16 && DIGITS[d] == c
  {
    if '0' <= c <= '9' then (c - '0') as nat
    else if 'a' <= c <= 'f' then (c - 'a') as nat + 10
    else 0
  }

  function Value(s: string): nat {
    if s == [] then 0 else 16 * Value(s[..|s| - 1]) + DigitValue(s[|s| - 1])
  }

  lemma {:induction false} ValueAppend(s: string, c: char)
    ensures Value(s + [c]) == 16 * Value(s) + DigitValue(c)
  {
    assert (s + [c])[..|s|] == s;
  }

  lemma {:induction false} DigitRoundTrip(d: nat)
    requires d < 16
    ensures DigitValue(DIGITS[d]) == d
  {
    assert if d < 10 then DIGITS[d] == '0' + d as char else DIGITS[d] == 'a' + (d - 10) as char;
  }

  lemma {:induction false} HexValue(n: nat, w: nat, v: nat)
    requires w > 0 && Value(Hex(n / 16, w - 1)) == v
    ensures Value(Hex(n, w)) == 16 * v + n % 16
  {
    ValueAppend(Hex(n / 16, w - 1), DIGITS[n % 16]);
    DigitRoundTrip(n % 16);
  }

  lemma {:induction false} ValueOfHex(n: nat, w: nat)
    requires n < Pow16(w)
    ensures Value(Hex(n, w)) == n
  {
    if w > 0 {
      DivLess(n, Pow16(w - 1));
      ValueOfHex(n / 16, w - 1);
      HexValue(n, w, n / 16);
    }
  }

  lemma {:induction false} DivLess(n: nat, p: nat)
    requires n < 16 * p
    ensures n / 16 < p && n == 16 * (n / 16) + n % 16
  {
  }

  /** The order of a directory listing. */
  predicate LexLess(a: string, b: string) {
    if b == [] then false
    else if a == [] then true
    else if a[0] != b[0] then a[0] < b[0]
    else LexLess(a[1..], b[1..])
  }

  lemma {:induction false} LexTrans(a: string, b: string, c: string)
    requires LexLess(a, b) && LexLess(b, c)
    ensures LexLess(a, c)
    decreases |a|
  {
    if a != [] && a[0] == b[0] && b[0] == c[0] {
      LexTrans(a[1..], b[1..], c[1..]);
    }
  }

  lemma {:induction false} LexTotal(a: string, b: string)
    ensures a == b || LexLess(a, b) || LexLess(b, a)
    decreases |a|
  {
    if a != [] && b != [] && a[0] == b[0] {
      LexTotal(a[1..], b[1..]);
      assert a[1..] == b[1..] ==> a == [a[0]] + a[1..] && b == [b[0]] + b[1..];
    }
  }

  lemma {:induction false} LexIrreflexive(a: string)
    ensures !LexLess(a, a)
  {
    if a != [] { LexIrreflexive(a[1..]); }
  }

  /** Among names of one length the last character only breaks ties. */
  lemma {:induction false} LexSnoc(a: string, b: string)
    requires |a| == |b| > 0 && LexLess(a, b)
    ensures var p, q := a[..|a| - 1], b[..|b| - 1];
            LexLess(p, q) || (p == q && a[|a| - 1] < b[|b| - 1])
    decreases |a|
  {
    if |a| > 1 && a[0] == b[0] {
      LexSnoc(a[1..], b[1..]);
      var p, q := a[..|a| - 1], b[..|b| - 1];
      assert p[1..] == a[1..][..|a| - 2] && q[1..] == b[1..][..|b| - 2];
      assert p == [a[0]] + p[1..] && q == [b[0]] + q[1..];
    }
  }

  /** Names in listing order carry offsets in numeric order. */
  lemma {:induction false} ValueOrdered(a: string, b: string)
    requires |a| == |b| && LexLess(a, b)
    requires HexDigits(a) && HexDigits(b)
    ensures Value(a) < Value(b)
    decreases |a|
  {
    LexSnoc(a, b);
    var p, q := a[..|a| - 1], b[..|b| - 1];
    if p != q {
      ValueOrdered(p, q);
    } else {
      LexIrreflexive(p);
      DigitsOrdered(a[|a| - 1], b[|b| - 1]);
    }
  }

  lemma {:induction false} DigitsOrdered(c: char, d: char)
    requires c in DIGITS && d in DIGITS && c < d
    ensures DigitValue(c) < DigitValue(d)
  {
  }

  ghost predicate Listed(names: seq<string>) {
    forall i, j :: 0 <= i < j < |names| ==> LexLess(names[i], names[j])
  }

  function PlaceName(names: seq<string>, name: string): (r: seq<string>)
    requires Listed(names) && name !in names
    ensures Listed(r) && forall x :: x in r <==> x == name || x in names
  {
    if names == [] then [name]
    else if LexLess(names[|names| - 1], name) then
      AfterLast(names, name);
      names + [name]
    else
      var last := names[|names| - 1];
      assert names == names[..|names| - 1] + [last];
      LexTotal(last, name);
      var r := PlaceName(names[..|names| - 1], name);
      BeforeLast(r, last);
      r + [last]
  }

  lemma BeforeLast(names: seq<string>, last: string)
    requires Listed(names) && forall x :: x in names ==> LexLess(x, last)
    ensures Listed(names + [last])
  {
    forall k | 0 <= k < |names| ensures LexLess(names[k], last) {
      assert names[k] in names;
    }
  }

  lemma AfterLast(names: seq<string>, name: string)
    requires Listed(names) && names != [] && LexLess(names[|names| - 1], name)
    ensures Listed(names + [name])
  {
    forall k | 0 <= k < |names| - 1 ensures LexLess(names[k], name) {
      LexTrans(names[k], names[|names| - 1], name);
    }
  }
}
