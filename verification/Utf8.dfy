/** UTF-8, as `String::from_utf8` accepts it and `as_bytes` produces it. */
module Utf8 {
  import opened Prelude

  /** The number of octets `c` takes. */
  function Width(c: char): (w: nat)
    ensures 1 <= w <= 4
  {
    var n := c as int;
    if n < 0x80 then 1 else if n < 0x800 then 2 else if n < 0x1_0000 then 3 else 4
  }

  /** A continuation octet carrying six bits. */
  function Tail(low: int): byte
    requires 0 <= low < 64
  {
    (0x80 + low) as byte
  }

  function Two(n: int): bytes
    requires 0 <= n < 0x800
  {
    [(0xC0 + n / 64) as byte, Tail(n % 64)]
  }

  function Three(n: int): bytes
    requires 0 <= n < 0x1_0000
  {
    [(0xE0 + n / 64 / 64) as byte, Tail(n / 64 % 64), Tail(n % 64)]
  }

  function Four(n: int): bytes
    requires 0 <= n < 0x11_0000
  {
    [(0xF0 + n / 64 / 64 / 64) as byte, Tail(n / 64 / 64 % 64), Tail(n / 64 % 64), Tail(n % 64)]
  }

  function EncodeChar(c: char): (b: bytes)
    ensures |b| == Width(c)
  {
    var n := c as int;
    if n < 0x80 then [n as byte] else if n < 0x800 then Two(n) else if n < 0x1_0000 then Three(n) else Four(n)
  }

  function Encode(s: string): bytes {
    if s == [] then [] else EncodeChar(s[0]) + Encode(s[1..])
  }

  /** The first and the third example of section 7 of RFC 3629. */
  lemma ExamplesOfTheStandard()
    ensures Encode("A\U{2262}\U{0391}.") == [0x41, 0xE2, 0x89, 0xA2, 0xCE, 0x91, 0x2E]
    ensures Encode("\U{65E5}\U{672C}\U{8A9E}") == [0xE6, 0x97, 0xA5, 0xE6, 0x9C, 0xAC, 0xE8, 0xAA, 0x9E]
    ensures Encode("\U{FEFF}\U{233B4}") == [0xEF, 0xBB, 0xBF, 0xF0, 0xA3, 0x8E, 0xB4]
  {
    var a, b, c := "A\U{2262}\U{0391}.", "\U{65E5}\U{672C}\U{8A9E}", "\U{FEFF}\U{233B4}";
    assert a[1..][1..][1..][1..] == [] && b[1..][1..][1..] == [] && c[1..][1..] == [];
    assert a[1..][0] == a[1] && a[1..][1..][0] == a[2] && a[1..][1..][1..][0] == a[3];
    assert b[1..][0] == b[1] && b[1..][1..][0] == b[2] && c[1..][0] == c[1];
  }

  predicate IsTail(b: byte) {
    0x80 <= b < 0xC0
  }

  /** The value of an octet sequence from its lead bits and its continuation octets. */
  function Join(lead: int, tails: bytes): int
    requires lead >= 0
  {
    if tails == [] then lead else Join(lead, tails[..|tails| - 1]) * 64 + tails[|tails| - 1] as int % 64
  }

  lemma JoinLast(lead: int, tails: bytes, last: byte)
    requires lead >= 0 && IsTail(last)
    ensures Join(lead, tails + [last]) / 64 == Join(lead, tails)
    ensures Tail(Join(lead, tails + [last]) % 64) == last
    ensures Join(lead, tails + [last]) == Join(lead, tails) * 64 + last as int % 64
  {
    assert (tails + [last])[..|tails|] == tails;
  }

  predicate IsScalar(n: int) {
    0 <= n < 0xD800 || 0xE000 <= n < 0x11_0000
  }

  function ToChar(n: int): (c: char)
    requires IsScalar(n)
    ensures c as int == n
  {
    n as char
  }

  /** What `n`, read from a sequence of `width` octets, stands for; overlong forms and surrogates are refused. */
  function Checked(n: int, width: nat): (c: Option<char>)
    ensures c.Some? ==> c.value as int == n && Width(c.value) == width
    ensures IsScalar(n) && Width(ToChar(n)) == width ==> c == Some(ToChar(n))
  {
    if IsScalar(n) && Width(ToChar(n)) == width then Some(ToChar(n)) else None
  }

  /** The first character of `b`. */
  function DecodeChar(b: bytes): Option<char> {
    if b == [] then None
    else if b[0] < 0x80 then Checked(b[0] as int, 1)
    else if 0xC0 <= b[0] < 0xE0 && |b| >= 2 && IsTail(b[1]) then
      Checked(Join(b[0] as int - 0xC0, [b[1]]), 2)
    else if 0xE0 <= b[0] < 0xF0 && |b| >= 3 && IsTail(b[1]) && IsTail(b[2]) then
      Checked(Join(b[0] as int - 0xE0, [b[1], b[2]]), 3)
    else if 0xF0 <= b[0] < 0xF8 && |b| >= 4 && IsTail(b[1]) && IsTail(b[2]) && IsTail(b[3]) then
      Checked(Join(b[0] as int - 0xF0, [b[1], b[2], b[3]]), 4)
    else None
  }

  lemma ReadOne(x: byte, c: char)
    requires x < 0x80 && c as int == x as int
    ensures EncodeChar(c) == [x]
  {
  }

  lemma ReadTwo(x: byte, y: byte, c: char)
    requires 0xC0 <= x < 0xE0 && IsTail(y) && c as int == Join(x as int - 0xC0, [y]) && Width(c) == 2
    ensures EncodeChar(c) == [x, y]
  {
    JoinNone(x as int - 0xC0);
    JoinLast(x as int - 0xC0, [], y);
    assert [] + [y] == [y];
    hide Join;
  }

  lemma ReadThree(x: byte, y: byte, z: byte, c: char)
    requires 0xE0 <= x < 0xF0 && IsTail(y) && IsTail(z) && c as int == Join(x as int - 0xE0, [y, z]) && Width(c) == 3
    ensures EncodeChar(c) == [x, y, z]
  {
    hide Join;
    Peel3(x as int - 0xE0, y, z);
  }

  lemma ReadFour(x: byte, y: byte, z: byte, v: byte, c: char)
    requires 0xF0 <= x < 0xF8 && IsTail(y) && IsTail(z) && IsTail(v) && c as int == Join(x as int - 0xF0, [y, z, v]) &&
      Width(c) == 4
    ensures EncodeChar(c) == [x, y, z, v]
  {
    hide Join;
    Peel4(x as int - 0xF0, y, z, v);
  }

  /** An accepted character is the only reading of its octets. */
  lemma EncodeOfDecodeChar(b: bytes)
    requires DecodeChar(b).Some?
    ensures Width(DecodeChar(b).value) <= |b|
    ensures b[..Width(DecodeChar(b).value)] == EncodeChar(DecodeChar(b).value)
  {
    var c := DecodeChar(b).value;
    hide Join, EncodeChar, Tail;
    if Width(c) == 2 {
      ReadTwo(b[0], b[1], c);
      assert b[..2] == [b[0], b[1]];
    } else if Width(c) == 3 {
      ReadThree(b[0], b[1], b[2], c);
      assert b[..3] == [b[0], b[1], b[2]];
    } else if Width(c) == 4 {
      ReadFour(b[0], b[1], b[2], b[3], c);
      assert b[..4] == [b[0], b[1], b[2], b[3]];
    } else {
      ReadOne(b[0], c);
      assert b[..1] == [b[0]];
    }
  }

  lemma JoinNone(lead: int)
    requires lead >= 0
    ensures Join(lead, []) == lead
  {
  }

  lemma Peel3(lead: int, x: byte, y: byte)
    requires lead >= 0 && IsTail(x) && IsTail(y)
    ensures var n := Join(lead, [x, y]);
      n / 64 / 64 == lead && Tail(n / 64 % 64) == x && Tail(n % 64) == y &&
        n == (lead * 64 + x as int % 64) * 64 + y as int % 64
  {
    JoinLast(lead, [], x);
    JoinLast(lead, [x], y);
    assert [x] + [y] == [x, y];
    assert [] + [x] == [x];
  }

  lemma Peel4(lead: int, x: byte, y: byte, z: byte)
    requires lead >= 0 && IsTail(x) && IsTail(y) && IsTail(z)
    ensures var n := Join(lead, [x, y, z]);
      n / 64 / 64 / 64 == lead && Tail(n / 64 / 64 % 64) == x && Tail(n / 64 % 64) == y && Tail(n % 64) == z
      && n == ((lead * 64 + x as int % 64) * 64 + y as int % 64) * 64 + z as int % 64
  {
    Peel3(lead, x, y);
    JoinLast(lead, [x, y], z);
    assert [x, y] + [z] == [x, y, z];
  }

  function Decode(b: bytes): Option<string> {
    if b == [] then Some([])
    else
      match DecodeChar(b)
      case None => None
      case Some(c) =>
        if Width(c) > |b| then None
        else
          match Decode(b[Width(c)..])
          case None => None
          case Some(rest) => Some([c] + rest)
  }

  lemma {:induction false} EncodeOfDecode(b: bytes)
    requires Decode(b).Some?
    ensures Encode(Decode(b).value) == b
  {
    if b != [] {
      EncodeOfDecodeChar(b);
      var w := Width(DecodeChar(b).value);
      EncodeOfDecode(b[w..]);
      assert b == b[..w] + b[w..];
    }
  }

  lemma DecodeCharOfEncode(c: char, rest: bytes)
    ensures DecodeChar(EncodeChar(c) + rest) == Some(c)
  {
    var n := c as int;
    var b := EncodeChar(c) + rest;
    if Width(c) == 2 {
      JoinLast(n / 64, [], b[1]);
    } else if Width(c) == 3 {
      Peel3(n / 64 / 64, b[1], b[2]);
    } else if Width(c) == 4 {
      Peel4(n / 64 / 64 / 64, b[1], b[2], b[3]);
    }
  }

  lemma {:induction false} DecodeEncode(s: string)
    ensures Decode(Encode(s)) == Some(s)
  {
    if s != [] {
      DecodeCharOfEncode(s[0], Encode(s[1..]));
      DecodeEncode(s[1..]);
      assert Encode(s)[Width(s[0])..] == Encode(s[1..]);
      assert s == [s[0]] + s[1..];
    }
  }

  /** A sequence of octets is accepted as a text exactly if it is what that text is written as; so it is one text at
    * most, and it is refused only if there is none. */
  lemma DecodesExactly(b: bytes, s: string)
    ensures Decode(b) == Some(s) <==> Encode(s) == b
  {
    if Encode(s) == b {
      DecodeEncode(s);
    } else if Decode(b) == Some(s) {
      EncodeOfDecode(b);
    }
  }

  lemma EncodeFirst(s: string)
    requires s != []
    ensures Encode(s) == EncodeChar(s[0]) + Encode(s[1..])
  {
  }

  lemma EncodeMore(s: string, c: char)
    ensures Encode([c] + s) == EncodeChar(c) + Encode(s)
  {
    EncodeFirst([c] + s);
    hide EncodeChar, Encode;
    assert ([c] + s)[1..] == s;
  }

  lemma {:induction false} EncodeConcat(a: string, b: string)
    ensures Encode(a + b) == Encode(a) + Encode(b)
  {
    if a == [] {
      assert a + b == b;
    } else {
      hide *;
      var c, s := a[0], a[1..];
      EncodeConcat(s, b);
      EncodeMore(s, c);
      EncodeMore(s + b, c);
      assert a == [c] + s;
      assert a + b == [c] + (s + b);
      Regroup(EncodeChar(c), Encode(s), Encode(b));
    }
  }
}
