/** UUIDs, their canonical text, and the order in which transfers lock two accounts. */
module Uuids {

  const UUID_LIMIT: nat := 0x1_0000_0000_0000_0000_0000_0000_0000_0000

  /** The 128 bits read as a big-endian number. */
  type Uuid = u: nat | u < UUID_LIMIT

  type Digit = d: nat | d < 16

  /** The `width` low hexadecimal digits of u, most significant first. */
  function Digits(u: nat, width: nat): (ds: seq<Digit>)
    ensures |ds| == width
  {
    if width == 0 then [] else Digits(u / 16, width - 1) + [u % 16]
  }

  function HexChar(digit: Digit): char {
    if digit < 10 then '0' + digit as char else 'a' + (digit - 10) as char
  }

  function Hex(digits: seq<Digit>): (text: string)
    ensures |text| == |digits|
  {
    seq(|digits|, i requires 0 <= i < |digits| => HexChar(digits[i]))
  }

  /** The 8-4-4-4-12 text form. */
  function Text(u: Uuid): string {
    var h := Hex(Digits(u, 32));
    h[..8] + "-" + h[8..12] + "-" + h[12..16] + "-" + h[16..20] + "-" + h[20..]
  }

  /** Byte-wise order of two strings, as the language compares them. */
  predicate TextLess(s: string, t: string) {
    if |t| == 0 then false
    else if |s| == 0 then true
    else s[0] < t[0] || (s[0] == t[0] && TextLess(s[1..], t[1..]))
  }

  predicate DigitsLess(s: seq<Digit>, t: seq<Digit>) {
    if |t| == 0 then false
    else if |s| == 0 then true
    else s[0] < t[0] || (s[0] == t[0] && DigitsLess(s[1..], t[1..]))
  }

  /** The pair (first, second) in which TransferFunds takes the two row locks. */
  function LockOrder(from: Uuid, to: Uuid): (order: (Uuid, Uuid))
    ensures order == if from > to then (to, from) else (from, to)
  {
    TextOrderIsNumericOrder(to, from);
    if TextLess(Text(to), Text(from)) then (to, from) else (from, to)
  }

  // ---------------------------------------------------------------- proofs

  lemma {:induction false} DigitsLessAppend(s: seq<Digit>, t: seq<Digit>, x: Digit, y: Digit)
    requires |s| == |t|
    ensures DigitsLess(s + [x], t + [y]) <==> DigitsLess(s, t) || (s == t && x < y)
  {
    if |s| == 0 {
      assert s + [x] == [x] && t + [y] == [y];
    } else {
      assert (s + [x])[1..] == s[1..] + [x] && (t + [y])[1..] == t[1..] + [y];
      DigitsLessAppend(s[1..], t[1..], x, y);
      assert s == [s[0]] + s[1..] && t == [t[0]] + t[1..];
    }
  }

  function Power16(n: nat): nat {
    if n == 0 then 1 else 16 * Power16(n - 1)
  }

  lemma {:induction false} DigitsAreNumericOrder(u: nat, v: nat, width: nat)
    requires u < Power16(width) && v < Power16(width)
    ensures DigitsLess(Digits(u, width), Digits(v, width)) <==> u < v
    ensures Digits(u, width) == Digits(v, width) <==> u == v
  {
    if width > 0 {
      DigitsAreNumericOrder(u / 16, v / 16, width - 1);
      var s, t := Digits(u / 16, width - 1), Digits(v / 16, width - 1);
      DigitsLessAppend(s, t, u % 16, v % 16);
      assert (s + [u % 16])[..width - 1] == s && (t + [v % 16])[..width - 1] == t;
      assert (s + [u % 16])[width - 1] == u % 16 && (t + [v % 16])[width - 1] == v % 16;
    }
  }

  lemma {:induction false} TextLessConcat(s: string, s': string, t: string, t': string)
    requires |s| == |t|
    ensures TextLess(s + s', t + t') <==> TextLess(s, t) || (s == t && TextLess(s', t'))
  {
    if |s| == 0 {
      assert s + s' == s' && t + t' == t';
    } else {
      assert (s + s')[1..] == s[1..] + s' && (t + t')[1..] == t[1..] + t';
      TextLessConcat(s[1..], s', t[1..], t');
      assert s == [s[0]] + s[1..] && t == [t[0]] + t[1..];
    }
  }

  /** A separator at the same place on both sides does not affect the comparison. */
  lemma SeparatorIsNeutral(s: string, s': string, t: string, t': string)
    requires |s| == |t|
    ensures TextLess(s + "-" + s', t + "-" + t') <==> TextLess(s + s', t + t')
  {
    TextLessConcat(s, s', t, t');
    TextLessConcat(s + "-", s', t + "-", t');
    TextLessConcat(s, "-", t, "-");
    assert !TextLess("-", "-");
    if s + "-" == t + "-" {
      assert s == (s + "-")[..|s|] == (t + "-")[..|t|] == t;
    }
  }

  lemma {:induction false} HexKeepsOrder(s: seq<Digit>, t: seq<Digit>)
    requires |s| == |t|
    ensures TextLess(Hex(s), Hex(t)) <==> DigitsLess(s, t)
  {
    if |s| > 0 {
      HexKeepsOrder(s[1..], t[1..]);
      assert Hex(s)[1..] == Hex(s[1..]) && Hex(t)[1..] == Hex(t[1..]);
    }
  }

  lemma MoveSeparator(s: string, s': string, s'': string, t: string, t': string, t'': string)
    requires |s| == |t| && |s'| == |t'|
    ensures TextLess((s + "-" + s') + "-" + s'', (t + "-" + t') + "-" + t'')
            <==> TextLess(s + "-" + (s' + s''), t + "-" + (t' + t''))
  {
    SeparatorIsNeutral(s + "-" + s', s'', t + "-" + t', t'');
    assert (s + "-" + s') + s'' == s + "-" + (s' + s'');
    assert (t + "-" + t') + t'' == t + "-" + (t' + t'');
  }

  lemma GroupingIsNeutral(a: string, b: string, c: string, d: string, e: string,
                          a': string, b': string, c': string, d': string, e': string)
    requires |a| == |a'| && |b| == |b'| && |c| == |c'| && |d| == |d'|
    ensures TextLess(a + "-" + b + "-" + c + "-" + d + "-" + e, a' + "-" + b' + "-" + c' + "-" + d' + "-" + e')
            <==> TextLess(a + (b + (c + (d + e))), a' + (b' + (c' + (d' + e'))))
  {
    MoveSeparator(a + "-" + b + "-" + c, d, e, a' + "-" + b' + "-" + c', d', e');
    MoveSeparator(a + "-" + b, c, d + e, a' + "-" + b', c', d' + e');
    MoveSeparator(a, b, c + (d + e), a', b', c' + (d' + e'));
    SeparatorIsNeutral(a, b + (c + (d + e)), a', b' + (c' + (d' + e')));
  }

  lemma SplitIntoGroups(g: string)
    requires |g| == 32
    ensures g[..8] + (g[8..12] + (g[12..16] + (g[16..20] + g[20..]))) == g
  {
    assert g[16..20] + g[20..] == g[16..];
    assert g[12..16] + g[16..] == g[12..];
    assert g[8..12] + g[12..] == g[8..];
  }

  lemma PowerOfWidth()
    ensures Power16(32) == UUID_LIMIT
  {
    assert Power16(8) == 0x1_0000_0000;
    assert Power16(16) == 0x1_0000_0000_0000_0000;
    assert Power16(24) == 0x1_0000_0000_0000_0000_0000_0000;
  }

  /** Comparing canonical texts is comparing the 128-bit numbers. */
  lemma TextOrderIsNumericOrder(a: Uuid, b: Uuid)
    ensures TextLess(Text(a), Text(b)) <==> a < b
  {
    PowerOfWidth();
    DigitsAreNumericOrder(a, b, 32);
    HexKeepsOrder(Digits(a, 32), Digits(b, 32));
    var g, h := Hex(Digits(a, 32)), Hex(Digits(b, 32));
    GroupingIsNeutral(g[..8], g[8..12], g[12..16], g[16..20], g[20..], h[..8], h[8..12], h[12..16], h[16..20], h[20..]);
    SplitIntoGroups(g);
    SplitIntoGroups(h);
  }

  lemma {:induction false} EqualTextIsUnordered(s: string)
    ensures !TextLess(s, s)
  {
    if |s| > 0 {
      EqualTextIsUnordered(s[1..]);
    }
  }

  /** Different accounts have different texts, so the comparison never ties. */
  lemma TextIsInjective(a: Uuid, b: Uuid)
    requires Text(a) == Text(b)
    ensures a == b
  {
    EqualTextIsUnordered(Text(a));
    TextOrderIsNumericOrder(a, b);
    TextOrderIsNumericOrder(b, a);
  }

  /** The value of a lower-case hexadecimal digit. */
  function HexValue(c: char): nat {
    if '0' <= c <= '9' then c as int - '0' as int
    else if 'a' <= c <= 'f' then c as int - 'a' as int + 10
    else 0
  }

  /** Reads a text from left to right, skipping the separators. */
  function Parse(value: nat, text: string): nat
    decreases |text|
  {
    if text == [] then value
    else Parse(if text[0] == '-' then value else 16 * value + HexValue(text[0]), text[1..])
  }

  lemma {:induction false} ParseConcat(value: nat, s: string, t: string)
    ensures Parse(value, s + t) == Parse(Parse(value, s), t)
    decreases |s|
  {
    if s == [] {
      assert s + t == t;
    } else {
      assert (s + t)[1..] == s[1..] + t;
      ParseConcat(if s[0] == '-' then value else 16 * value + HexValue(s[0]), s[1..], t);
    }
  }

  lemma ParseSkipsSeparator(s: string, t: string)
    ensures Parse(0, s + "-" + t) == Parse(0, s + t)
  {
    ParseConcat(0, s + "-", t);
    ParseConcat(0, s, "-");
    ParseConcat(0, s, t);
    assert Parse(Parse(0, s), "-") == Parse(0, s);
  }

  lemma {:induction false} ParseDigits(u: nat, width: nat)
    requires u < Power16(width)
    ensures Parse(0, Hex(Digits(u, width))) == u
  {
    if width > 0 {
      ParseDigits(u / 16, width - 1);
      var init, c := Hex(Digits(u / 16, width - 1)), HexChar(u % 16);
      assert Hex(Digits(u, width)) == init + [c];
      ParseConcat(0, init, [c]);
      assert Parse(u / 16, [c]) == Parse(16 * (u / 16) + HexValue(c), []) == u;
    }
  }

  lemma ParseGroups(a: string, b: string, c: string, d: string, e: string)
    ensures Parse(0, a + "-" + b + "-" + c + "-" + d + "-" + e) == Parse(0, a + (b + (c + (d + e))))
  {
    hide Parse;
    ParseSkipsSeparator(a + "-" + b + "-" + c + "-" + d, e);
    Regroup(a + "-" + b + "-" + c + "-", d, e);
    ParseSkipsSeparator(a + "-" + b + "-" + c, d + e);
    Regroup(a + "-" + b + "-", c, d + e);
    ParseSkipsSeparator(a + "-" + b, c + (d + e));
    Regroup(a + "-", b, c + (d + e));
    ParseSkipsSeparator(a, b + (c + (d + e)));
  }

  predicate IsHex(text: string) {
    forall i :: 0 <= i < |text| ==> '0' <= text[i] <= '9' || 'a' <= text[i] <= 'f'
  }

  lemma HexIsHex(digits: seq<Digit>)
    ensures IsHex(Hex(digits))
  {
  }

  /** The text has the canonical form, and reading it back gives the number. */
  lemma TextRoundTrip(u: Uuid)
    ensures Parse(0, Text(u)) == u
    ensures var t := Text(u);
            && |t| == 36 && t[8] == t[13] == t[18] == t[23] == '-'
            && IsHex(t[..8]) && IsHex(t[9..13]) && IsHex(t[14..18]) && IsHex(t[19..23]) && IsHex(t[24..])
  {
    PowerOfWidth();
    ParseDigits(u, 32);
    var h := Hex(Digits(u, 32));
    HexIsHex(Digits(u, 32));
    ParseGroups(h[..8], h[8..12], h[12..16], h[16..20], h[20..]);
    SplitIntoGroups(h);
    assert Parse(0, Text(u)) == u;
    hide Parse, Digits, Hex, IsHex;
    HexParts(h);
    TextGroups(h[..8], h[8..12], h[12..16], h[16..20], h[20..]);
  }

  lemma HexParts(h: string)
    requires IsHex(h) && |h| == 32
    ensures IsHex(h[..8]) && IsHex(h[8..12]) && IsHex(h[12..16]) && IsHex(h[16..20]) && IsHex(h[20..])
  {
  }

  lemma TextGroups(a: string, b: string, c: string, d: string, e: string)
    requires |a| == 8 && |b| == |c| == |d| == 4 && |e| == 12
    ensures var t := a + "-" + b + "-" + c + "-" + d + "-" + e;
            && |t| == 36 && t[8] == t[13] == t[18] == t[23] == '-'
            && t[..8] == a && t[9..13] == b && t[14..18] == c && t[19..23] == d && t[24..] == e
  {
  }

  lemma Regroup(a: string, b: string, c: string)
    ensures (a + b) + c == a + (b + c)
  {
  }

  /** A transfer and its reverse lock the same two rows in the same sequence. */
  lemma LockOrderIsSymmetric(a: Uuid, b: Uuid)
    ensures LockOrder(a, b) == LockOrder(b, a)
    ensures a != b ==> LockOrder(a, b).0 < LockOrder(a, b).1
    ensures {LockOrder(a, b).0, LockOrder(a, b).1} == {a, b}
  {
  }
}
