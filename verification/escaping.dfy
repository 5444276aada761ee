/**
 * The string escaping of JSON canonicalization, stated one UTF-16 code unit at
 * a time, with the decoder that undoes it. This is the reference the
 * code-point loops of `Jcs.escape` and `JsonCanonicalizer.escape` are proved
 * against. Unlike section 3.2.2.2 of RFC 8785, U+007F is escaped too.
 */
module Escaping {
  import opened Utf16
  import opened Wrappers

  const Backslash: Unit := '\\' as int
  const Quote: Unit := '"' as int

  /** Units written as a backslash and one letter. */
  predicate HasShortEscape(u: Unit) {
    u == 0x9 || u == 0x8 || u == 0xA || u == 0xD || u == 0xC || u == Quote || u == Backslash
  }

  /** C0 controls and DEL: written as `\u` and four hex digits unless they have a short escape. */
  predicate IsControl(u: Unit) {
    u <= 0x1F || u == 0x7F
  }

  /** Units that are not copied unchanged. */
  predicate NeedsEscape(u: Unit) {
    HasShortEscape(u) || IsControl(u)
  }

  /** The letter after the backslash of a short escape. */
  function ShortLetter(u: Unit): Unit
    requires HasShortEscape(u)
  {
    if u == 0x9 then 't' as int
    else if u == 0x8 then 'b' as int
    else if u == 0xA then 'n' as int
    else if u == 0xD then 'r' as int
    else if u == 0xC then 'f' as int
    else u
  }

  /** The unit a short-escape letter stands for, if it is one. */
  function ShortValue(letter: Unit): Option<Unit>
  {
    if letter == 't' as int then Some(0x9)
    else if letter == 'b' as int then Some(0x8)
    else if letter == 'n' as int then Some(0xA)
    else if letter == 'r' as int then Some(0xD)
    else if letter == 'f' as int then Some(0xC)
    else if letter == Quote || letter == Backslash then Some(letter)
    else None
  }

  /** A lowercase hexadecimal digit, as `%x` writes it. */
  function HexDigit(n: nat): (u: Unit)
    requires n < 16
  {
    if n < 10 then '0' as int + n else 'a' as int + (n - 10)
  }

  predicate IsLowerHex(u: Unit) {
    '0' as int <= u <= '9' as int || 'a' as int <= u <= 'f' as int
  }

  function HexValue(u: Unit): (n: nat)
    requires IsLowerHex(u)
    ensures n < 16
  {
    if u <= '9' as int then u - '0' as int else u - 'a' as int + 10
  }

  lemma HexRoundTrip(n: nat)
    requires n < 16
    ensures IsLowerHex(HexDigit(n)) && HexValue(HexDigit(n)) == n
  {
  }

  /** `String.format("%04x", u)`: four lowercase hex digits, zero-padded, most significant first. */
  function Hex4(u: Unit): (t: Text)
    ensures |t| == 4
    ensures forall i | 0 <= i < 4 :: IsLowerHex(t[i])
    ensures HexValue(t[0]) * 0x1000 + HexValue(t[1]) * 0x100 + HexValue(t[2]) * 0x10 + HexValue(t[3]) == u
  {
    var q1 := u / 0x10;
    var q2 := q1 / 0x10;
    var q3 := q2 / 0x10;
    HexRoundTrip(q3);
    HexRoundTrip(q2 % 0x10);
    HexRoundTrip(q1 % 0x10);
    HexRoundTrip(u % 0x10);
    [HexDigit(q3), HexDigit(q2 % 0x10), HexDigit(q1 % 0x10), HexDigit(u % 0x10)]
  }

  /** What the escaper writes for one code unit. */
  function EscapeUnit(u: Unit): (t: Text)
    ensures HasShortEscape(u) ==> t == [Backslash, ShortLetter(u)]
    ensures !HasShortEscape(u) && IsControl(u) ==> t == [Backslash, 'u' as int] + Hex4(u)
    ensures !NeedsEscape(u) ==> t == [u]
  {
    if HasShortEscape(u) then [Backslash, ShortLetter(u)]
    else if IsControl(u) then [Backslash, 'u' as int] + Hex4(u)
    else [u]
  }

  /** The per-unit escaping of a whole string. */
  function EscapeUnits(s: Text): Text
  {
    if |s| == 0 then [] else EscapeUnit(s[0]) + EscapeUnits(s[1..])
  }

  /**
   * Reads escaped text back: a backslash followed by a short-escape letter, or
   * by `u` and four lowercase hex digits, stands for one unit; any other unit
   * stands for itself.
   */
  function Unescape(t: Text): Text
    decreases |t|
  {
    if |t| == 0 then []
    else if t[0] == Backslash && 2 <= |t| && ShortValue(t[1]).Some? then
      [ShortValue(t[1]).value] + Unescape(t[2..])
    else if t[0] == Backslash && 6 <= |t| && t[1] == 'u' as int
            && IsLowerHex(t[2]) && IsLowerHex(t[3]) && IsLowerHex(t[4]) && IsLowerHex(t[5]) then
      [HexValue(t[2]) * 0x1000 + HexValue(t[3]) * 0x100 + HexValue(t[4]) * 0x10 + HexValue(t[5])]
        + Unescape(t[6..])
    else
      [t[0]] + Unescape(t[1..])
  }

  /** Unescaping reads back exactly the unit that was escaped in front of `rest`. */
  lemma UnescapeUnit(u: Unit, rest: Text)
    ensures Unescape(EscapeUnit(u) + rest) == [u] + Unescape(rest)
  {
    var t := EscapeUnit(u) + rest;
    if HasShortEscape(u) {
      assert t[1] == ShortLetter(u) && t[2..] == rest;
    } else if IsControl(u) {
      assert t[1] == 'u' as int;
      assert t[2..6] == Hex4(u) && t[6..] == rest;
      assert ShortValue(t[1]).None?;
    } else {
      assert t[0] == u && t[1..] == rest;
    }
  }

  /** Unescaping undoes escaping. */
  lemma {:induction false} UnescapeEscape(s: Text)
    ensures Unescape(EscapeUnits(s)) == s
  {
    if |s| == 0 {
    } else {
      UnescapeUnit(s[0], EscapeUnits(s[1..]));
      UnescapeEscape(s[1..]);
      assert s == [s[0]] + s[1..];
    }
  }

  /** Distinct strings escape to distinct text. */
  lemma EscapeUnitsInjective(a: Text, b: Text)
    ensures EscapeUnits(a) == EscapeUnits(b) <==> a == b
  {
    UnescapeEscape(a);
    UnescapeEscape(b);
  }

  /** Escaping works piecewise: it distributes over concatenation. */
  lemma {:induction false} EscapeUnitsAppend(a: Text, b: Text)
    ensures EscapeUnits(a + b) == EscapeUnits(a) + EscapeUnits(b)
    decreases |a|
  {
    if |a| == 0 {
      assert a + b == b;
    } else {
      assert (a + b)[1..] == a[1..] + b;
      EscapeUnitsAppend(a[1..], b);
    }
  }

  /** Escaping changes a string exactly when it holds a unit that needs escaping. */
  lemma {:induction false} EscapeUnitsIdentity(s: Text)
    ensures EscapeUnits(s) == s <==> forall i | 0 <= i < |s| :: !NeedsEscape(s[i])
    ensures |s| <= |EscapeUnits(s)|
  {
    if |s| > 0 {
      EscapeUnitsIdentity(s[1..]);
      assert forall i | 1 <= i < |s| :: s[i] == s[1..][i - 1];
      if NeedsEscape(s[0]) {
        assert |EscapeUnit(s[0])| >= 2;
        assert |EscapeUnits(s)| > |s|;
      } else {
        assert s == [s[0]] + s[1..];
      }
    }
  }

  /** Escaped text never holds a raw control character or DEL. */
  lemma {:induction false} EscapeUnitsHasNoControl(s: Text)
    ensures forall i | 0 <= i < |EscapeUnits(s)| :: !IsControl(EscapeUnits(s)[i])
  {
    if |s| > 0 {
      EscapeUnitsHasNoControl(s[1..]);
      var head, tail := EscapeUnit(s[0]), EscapeUnits(s[1..]);
      assert forall i | 0 <= i < |head| :: !IsControl(head[i]);
      assert EscapeUnits(s) == head + tail;
    }
  }
}
