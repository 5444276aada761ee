/**
 * Java strings as sequences of UTF-16 code units, the decoding of those units
 * into code points done by `String.codePoints()`, the re-encoding done by
 * `StringBuilder.appendCodePoint`, and the natural order of `String.compareTo`.
 */
module Utf16 {

  /** One UTF-16 code unit (a Java `char`). */
  type Unit = u: int | 0 <= u < 0x1_0000

  /** A Java `String`. */
  type Text = seq<Unit>

  /** A Unicode code point, as the `int` values of `String.codePoints()`. */
  type CodePoint = c: int | 0 <= c < 0x11_0000

  /** The code unit of a character of the Basic Multilingual Plane; the model applies it to ASCII only. */
  function UnitOf(c: char): Unit
  {
    if c as int < 0x1_0000 then c as int else 0
  }

  /** The code units of a string literal; every literal of the model is ASCII. */
  function Ascii(s: string): (t: Text)
    ensures |t| == |s|
    ensures forall i | 0 <= i < |s| :: t[i] == UnitOf(s[i])
  {
    seq(|s|, i requires 0 <= i < |s| => UnitOf(s[i]))
  }

  lemma AsciiAppend(s: string, t: string)
    ensures Ascii(s) + Ascii(t) == Ascii(s + t)
  {
  }

  predicate IsHighSurrogate(u: Unit) {
    0xD800 <= u < 0xDC00
  }

  predicate IsLowSurrogate(u: Unit) {
    0xDC00 <= u < 0xE000
  }

  /** The supplementary code point encoded by a surrogate pair. */
  function Combine(hi: Unit, lo: Unit): (c: CodePoint)
    requires IsHighSurrogate(hi) && IsLowSurrogate(lo)
    ensures 0x1_0000 <= c
  {
    0x1_0000 + (hi - 0xD800) * 0x400 + (lo - 0xDC00)
  }

  /**
   * `String.codePoints()`: a high surrogate immediately followed by a low
   * surrogate becomes one supplementary code point; every other unit, an
   * unpaired surrogate included, is its own code point.
   */
  function CodePoints(s: Text): (cps: seq<CodePoint>)
    ensures |cps| <= |s|
    decreases |s|
  {
    if |s| == 0 then []
    else if 2 <= |s| && IsHighSurrogate(s[0]) && IsLowSurrogate(s[1]) then
      [Combine(s[0], s[1])] + CodePoints(s[2..])
    else
      [s[0]] + CodePoints(s[1..])
  }

  /** `StringBuilder.appendCodePoint`: the code units written for one code point. */
  function Encode(c: CodePoint): (t: Text)
    ensures c < 0x1_0000 ==> t == [c]
    ensures 0x1_0000 <= c ==> |t| == 2 && IsHighSurrogate(t[0]) && IsLowSurrogate(t[1])
                              && Combine(t[0], t[1]) == c
  {
    if c < 0x1_0000 then [c]
    else [0xD800 + (c - 0x1_0000) / 0x400, 0xDC00 + (c - 0x1_0000) % 0x400]
  }

  /** The code units of a code-point sequence, each encoded in turn. */
  function EncodeAll(cps: seq<CodePoint>): Text
  {
    if |cps| == 0 then [] else Encode(cps[0]) + EncodeAll(cps[1..])
  }

  /** Encoding a surrogate pair's code point gives back the pair. */
  lemma EncodeCombine(hi: Unit, lo: Unit)
    requires IsHighSurrogate(hi) && IsLowSurrogate(lo)
    ensures Encode(Combine(hi, lo)) == [hi, lo]
  {
    var d := (hi - 0xD800) * 0x400 + (lo - 0xDC00);
    assert d / 0x400 == hi - 0xD800 && d % 0x400 == lo - 0xDC00;
  }

  /** Decoding a string into code points and encoding them back loses nothing. */
  lemma {:induction false} EncodeCodePoints(s: Text)
    ensures EncodeAll(CodePoints(s)) == s
    decreases |s|
  {
    if |s| == 0 {
    } else if 2 <= |s| && IsHighSurrogate(s[0]) && IsLowSurrogate(s[1]) {
      EncodeCombine(s[0], s[1]);
      EncodeCodePoints(s[2..]);
      assert s == [s[0], s[1]] + s[2..];
    } else {
      EncodeCodePoints(s[1..]);
      assert s == [s[0]] + s[1..];
    }
  }

  /**
   * `String.compareTo`: the difference of the first differing code units,
   * or of the lengths when one string is a prefix of the other.
   */
  function CompareTo(a: Text, b: Text): (r: int)
    ensures r == 0 <==> a == b
    ensures |a| == 0 ==> r == -|b|
    decreases |a|
  {
    if |a| == 0 || |b| == 0 then |a| - |b|
    else if a[0] != b[0] then a[0] - b[0]
    else
      assert a == [a[0]] + a[1..] && b == [b[0]] + b[1..];
      CompareTo(a[1..], b[1..])
  }

  /** The strict natural order of Java strings: lexicographic over UTF-16 code units. */
  predicate Below(a: Text, b: Text) {
    CompareTo(a, b) < 0
  }

  /** `compareTo` is antisymmetric: swapping the arguments negates the result. */
  lemma {:induction false} CompareToSwap(a: Text, b: Text)
    ensures CompareTo(b, a) == -CompareTo(a, b)
    decreases |a|
  {
    if |a| == 0 || |b| == 0 {
    } else if a[0] != b[0] {
    } else {
      CompareToSwap(a[1..], b[1..]);
    }
  }

  /** The natural order is transitive. */
  lemma {:induction false} BelowTransitive(a: Text, b: Text, c: Text)
    requires Below(a, b) && Below(b, c)
    ensures Below(a, c)
    decreases |a|
  {
    if |a| == 0 {
    } else if |b| == 0 || |c| == 0 {
    } else if a[0] == b[0] && b[0] == c[0] {
      BelowTransitive(a[1..], b[1..], c[1..]);
    }
  }

  /** Any two distinct strings are ordered one way or the other, and never both ways. */
  lemma BelowTotal(a: Text, b: Text)
    ensures a != b <==> (Below(a, b) || Below(b, a))
    ensures !(Below(a, b) && Below(b, a))
  {
    CompareToSwap(a, b);
  }

  /**
   * `String.replace(CharSequence, CharSequence)` for a one-unit target: every
   * occurrence of `c` in `s` is replaced by `rep`, scanning `s` only once.
   */
  function Replace(s: Text, c: Unit, rep: Text): (r: Text)
    ensures c !in rep ==> c !in r
    ensures c !in s ==> r == s
    ensures |s| <= |r| || |rep| == 0
  {
    if |s| == 0 then []
    else (if s[0] == c then rep else [s[0]]) + Replace(s[1..], c, rep)
  }

  /** One step of `Replace`: the first unit, replaced if it is `c`, then the rest. */
  lemma ReplaceCons(s: Text, c: Unit, rep: Text)
    requires |s| > 0
    ensures Replace(s, c, rep) == (if s[0] == c then rep else [s[0]]) + Replace(s[1..], c, rep)
  {
  }

  lemma Associate(x: Text, y: Text, z: Text)
    ensures x + (y + z) == (x + y) + z
  {
  }

  /** Replacing works piecewise: it distributes over concatenation. */
  lemma {:induction false} ReplaceAppend(a: Text, b: Text, c: Unit, rep: Text)
    ensures Replace(a + b, c, rep) == Replace(a, c, rep) + Replace(b, c, rep)
    decreases |a|
  {
    if |a| == 0 {
      assert a + b == b;
    } else {
      var head := if a[0] == c then rep else [a[0]];
      assert (a + b)[0] == a[0] && (a + b)[1..] == a[1..] + b;
      ReplaceCons(a + b, c, rep);
      ReplaceCons(a, c, rep);
      ReplaceAppend(a[1..], b, c, rep);
      Associate(head, Replace(a[1..], c, rep), Replace(b, c, rep));
    }
  }

  predicate IsAsciiUpper(u: Unit) {
    'A' as int <= u <= 'Z' as int
  }

  /**
   * `String.toLowerCase()` restricted to ASCII: only `A`..`Z` are lowered
   * and every other unit is kept. Java's full Unicode case mapping is not
   * modelled; the exponent texts it is applied to are ASCII.
   */
  function ToLowerCase(s: Text): (r: Text)
    ensures |r| == |s|
    ensures forall i | 0 <= i < |s| :: !IsAsciiUpper(r[i])
    ensures forall i | 0 <= i < |s| :: !IsAsciiUpper(s[i]) ==> r[i] == s[i]
    ensures forall i | 0 <= i < |s| :: IsAsciiUpper(s[i]) ==> r[i] == s[i] + 0x20
  {
    if |s| == 0 then []
    else [if IsAsciiUpper(s[0]) then s[0] + 0x20 else s[0]] + ToLowerCase(s[1..])
  }

  /** Lower-casing twice is lower-casing once. */
  lemma ToLowerCaseIdempotent(s: Text)
    ensures ToLowerCase(ToLowerCase(s)) == ToLowerCase(s)
  {
  }
}
