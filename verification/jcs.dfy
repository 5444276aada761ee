/**
 * `com.apicatalog.jcs.Jcs`: the string escaper, the number canonicalizer, the
 * recursive serializer and the canonical equality, over the JSON-P model.
 * Writes to a `Writer` are modelled as the text returned.
 */
module Jcs {
  import opened Wrappers
  import opened Utf16
  import opened Decimals
  import opened Json
  import opened Escaping

  /** The text written for one code point by the loop of `escape`. */
  function EscapeCodePoint(cp: CodePoint): Text
  {
    if cp == 0x9 then Ascii("\\t")
    else if cp == 0x8 then Ascii("\\b")
    else if cp == 0xA then Ascii("\\n")
    else if cp == 0xD then Ascii("\\r")
    else if cp == 0xC then Ascii("\\f")
    else if cp == '"' as int then Ascii("\\\"")
    else if cp == '\\' as int then Ascii("\\\\")
    else if 0x0 <= cp <= 0x1F || cp == 0x7F then Ascii("\\u") + Hex4(cp)
    else Encode(cp)
  }

  /** One code point below U+10000 is escaped like the unit it is. */
  lemma EscapeCodePointIsUnit(u: Unit)
    ensures EscapeCodePoint(u) == EscapeUnit(u)
  {
  }

  /** A supplementary code point needs no escape and is written back as its surrogate pair. */
  lemma EscapePair(hi: Unit, lo: Unit)
    requires IsHighSurrogate(hi) && IsLowSurrogate(lo)
    ensures EscapeCodePoint(Combine(hi, lo)) == [hi, lo]
  {
    EncodeCombine(hi, lo);
  }

  /**
   * `escape`: walks the code points of the string (a high surrogate followed
   * by a low one is a single code point) and writes each one escaped.
   */
  function Escape(s: Text): Text
    decreases |s|
  {
    if |s| == 0 then []
    else if 2 <= |s| && IsHighSurrogate(s[0]) && IsLowSurrogate(s[1]) then
      EscapeCodePoint(Combine(s[0], s[1])) + Escape(s[2..])
    else
      EscapeCodePoint(s[0]) + Escape(s[1..])
  }

  lemma EscapePairStep(s: Text)
    requires 2 <= |s| && IsHighSurrogate(s[0]) && IsLowSurrogate(s[1])
    ensures Escape(s) == [s[0], s[1]] + Escape(s[2..])
  {
    EscapePair(s[0], s[1]);
  }

  lemma EscapeUnitsPairStep(s: Text)
    requires 2 <= |s| && IsHighSurrogate(s[0]) && IsLowSurrogate(s[1])
    ensures EscapeUnits(s) == [s[0], s[1]] + EscapeUnits(s[2..])
  {
    assert EscapeUnit(s[0]) == [s[0]] && EscapeUnit(s[1]) == [s[1]];
    assert s[1..][1..] == s[2..];
    assert EscapeUnits(s[1..]) == [s[1]] + EscapeUnits(s[2..]);
  }

  lemma EscapeSingleStep(s: Text)
    requires 1 <= |s| && !(2 <= |s| && IsHighSurrogate(s[0]) && IsLowSurrogate(s[1]))
    ensures Escape(s) == EscapeUnit(s[0]) + Escape(s[1..])
  {
    EscapeCodePointIsUnit(s[0]);
  }

  /** The code-point loop of `escape` writes what escaping each code unit on its own would. */
  lemma {:induction false} EscapeIsPerUnit(s: Text)
    ensures Escape(s) == EscapeUnits(s)
    decreases |s|
  {
    if |s| == 0 {
    } else if 2 <= |s| && IsHighSurrogate(s[0]) && IsLowSurrogate(s[1]) {
      EscapePairStep(s);
      EscapeUnitsPairStep(s);
      EscapeIsPerUnit(s[2..]);
    } else {
      EscapeSingleStep(s);
      EscapeIsPerUnit(s[1..]);
    }
  }

  /**
   * `canonizeNumber`: "0" for zero, the exponent form with `E` turned into
   * `e+` from 10^21 up, the lower-cased exponent form at or below 10^-21, and
   * the plain form in between. The bounds compare the signed value, so every
   * negative number takes the lower-cased exponent form.
   */
  function CanonizeNumber(h: Host, d: Decimal): (r: Text)
    ensures d.unscaled == 0 ==> r == Ascii("0")
    ensures d.unscaled < 0 ==> r == ToLowerCase(h.exponential(d))
  {
    CompareToZero(d);
    NegativeBelowPositive(d, TenPow21);
    NegativeBelowPositive(d, TenPowMinus21);
    var toZero := Decimals.CompareTo(d, Zero);
    var toLarge := Decimals.CompareTo(d, TenPow21);
    var toSmall := Decimals.CompareTo(d, TenPowMinus21);
    if toZero == 0 then Ascii("0")
    else if toLarge >= 0 then Replace(h.exponential(d), 'E' as int, Ascii("e+"))
    else if toSmall <= 0 then ToLowerCase(h.exponential(d))
    else h.plain(d)
  }

  /** `canonize(JsonValue, Writer)` on a non-null value. */
  function Canonize(h: Host, v: Json): Text
    decreases v, 1
  {
    match v
    case Null => Ascii("null")
    case True => Ascii("true")
    case False => Ascii("false")
    case Str(s) => h.stringToString(s)
    case Num(d) => CanonizeNumber(h, d)
    case Arr(items) => Ascii("[") + ArrayItems(h, items, false) + Ascii("]")
    case Obj(ms) =>
      SortedMembersOf(ms);
      Ascii("{") + (if |ms| == 0 then [] else Properties(h, v, SortMembers(ms), 0, false)) + Ascii("}")
  }

  /** `canonize` on a possibly null reference: a null reference is written as `null`. */
  function CanonizeRef(h: Host, v: Option<Json>): Text
  {
    match v
    case None => Ascii("null")
    case Some(x) => Canonize(h, x)
  }

  /** The loop of `canonizeArray`: a comma before every item once `next` is set. */
  function ArrayItems(h: Host, items: seq<Json>, next: bool): Text
    decreases items
  {
    if |items| == 0 then []
    else (if next then Ascii(",") else []) + Canonize(h, items[0]) + ArrayItems(h, items[1..], true)
  }

  /** The text `"key":` that introduces a property. */
  function PropertyName(key: Text): Text
  {
    Ascii("\"") + Escape(key) + Ascii("\":")
  }

  /**
   * The loop of `canonizeObject` from position `i` of the sorted members
   * `sorted` of `obj`.
   */
  function Properties(h: Host, obj: Json, sorted: seq<Member>, i: nat, next: bool): Text
    requires MembersOf(sorted, obj) && i <= |sorted|
    decreases obj, 0, |sorted| - i
  {
    if i == |sorted| then []
    else
      assert sorted[i] in sorted;
      (if next then Ascii(",") else []) + PropertyName(sorted[i].key)
        + Canonize(h, sorted[i].value) + Properties(h, obj, sorted, i + 1, true)
  }

  /** `equals` on possibly null references: a null reference equals a JSON null and nothing else. */
  function EqualsRef(h: Host, a: Option<Json>, b: Option<Json>): bool
  {
    match (a, b)
    case (None, None) => true
    case (None, Some(y)) => y.Null?
    case (Some(x), None) => x.Null?
    case (Some(x), Some(y)) => Equals(h, x, y)
  }

  /** `equals` on two non-null values. */
  function Equals(h: Host, a: Json, b: Json): bool
    decreases a, 2
  {
    if TypeOf(a) != TypeOf(b) then false
    else match a
      case Null => true
      case True => true
      case False => true
      case Str(s) => s == b.chars
      case Num(d) => NumberEquals(h, d, b.number)
      case Arr(xs) => ArrayEquals(h, xs, b.items)
      case Obj(_) => ObjectEquals(h, a, b)
  }

  /** `numberEquals`: equal canonical text. */
  function NumberEquals(h: Host, x: Decimal, y: Decimal): bool
  {
    CanonizeNumber(h, x) == CanonizeNumber(h, y)
  }

  /** `arrayEquals`. */
  function ArrayEquals(h: Host, xs: seq<Json>, ys: seq<Json>): bool
    decreases xs, 1
  {
    if |xs| != |ys| then false
    else if |xs| == 0 then true
    else ArrayEqualsFrom(h, xs, ys, 0)
  }

  /** The index loop of `arrayEquals` from position `i`. */
  function ArrayEqualsFrom(h: Host, xs: seq<Json>, ys: seq<Json>, i: nat): bool
    requires |xs| == |ys| && i <= |xs|
    decreases xs, 0, |xs| - i
  {
    if i == |xs| then true
    else if !Equals(h, xs[i], ys[i]) then false
    else ArrayEqualsFrom(h, xs, ys, i + 1)
  }

  /** `objectEquals`. */
  function ObjectEquals(h: Host, a: Json, b: Json): bool
    requires a.Obj? && b.Obj?
    decreases a, 1
  {
    if |a.members| != |b.members| then false
    else if |a.members| == 0 then true
    else
      SortedMembersOf(a.members);
      SortedMembersOf(b.members);
      ObjectEqualsFrom(h, a, b, SortMembers(a.members), SortMembers(b.members), 0)
  }

  /**
   * The index loop of `objectEquals` over both objects' sorted members from
   * position `i`: escaped keys and values must match pairwise.
   */
  function ObjectEqualsFrom(h: Host, a: Json, b: Json, s1: seq<Member>, s2: seq<Member>, i: nat): bool
    requires a.Obj? && b.Obj?
    requires MembersOf(s1, a) && MembersOf(s2, b)
    requires |s1| == |s2| && i <= |s1|
    decreases a, 0, |s1| - i
  {
    if i == |s1| then true
    else
      assert s1[i] in s1;
      if Escape(s1[i].key) != Escape(s2[i].key) || !Equals(h, s1[i].value, s2[i].value) then false
      else ObjectEqualsFrom(h, a, b, s1, s2, i + 1)
  }
}
