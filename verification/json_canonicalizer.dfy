/**
 * `com.apicatalog.jcs.JsonCanonicalizer`: a second copy of the serializer,
 * written as methods that append to a writer. The writer is the text written
 * so far; each method returns it extended. Every method is proved to write
 * exactly what the corresponding `Jcs` function computes.
 */
module JsonCanonicalizer {
  import opened Wrappers
  import opened Utf16
  import opened Decimals
  import opened Json
  import opened Escaping
  import Jcs
  import JcsLemmas

  // ----- escape -----

  /** The text the loop of `escape` writes for a sequence of code points. */
  function EscapeAll(cps: seq<CodePoint>): Text
  {
    if |cps| == 0 then [] else Jcs.EscapeCodePoint(cps[0]) + EscapeAll(cps[1..])
  }

  lemma EscapeAllStep(cps: seq<CodePoint>, k: nat)
    requires k < |cps|
    ensures EscapeAll(cps[k..]) == Jcs.EscapeCodePoint(cps[k]) + EscapeAll(cps[k + 1..])
  {
    assert cps[k..][0] == cps[k] && cps[k..][1..] == cps[k + 1..];
  }

  /** Escaping the decoded code points one by one is `Jcs.escape`. */
  lemma {:induction false} EscapeAllCodePoints(s: Text)
    ensures EscapeAll(CodePoints(s)) == Jcs.Escape(s)
    decreases |s|
  {
    if |s| == 0 {
    } else if 2 <= |s| && IsHighSurrogate(s[0]) && IsLowSurrogate(s[1]) {
      var rest := CodePoints(s[2..]);
      assert CodePoints(s) == [Combine(s[0], s[1])] + rest;
      assert ([Combine(s[0], s[1])] + rest)[1..] == rest;
      EscapeAllCodePoints(s[2..]);
    } else {
      var rest := CodePoints(s[1..]);
      assert CodePoints(s) == [s[0]] + rest;
      assert ([s[0] as CodePoint] + rest)[1..] == rest;
      EscapeAllCodePoints(s[1..]);
    }
  }

  /**
   * One pass of the loop of `escape`: the chain of cases on one code point,
   * appended to the builder. A code point of the Basic Multilingual Plane
   * gets the escape of its unit; a supplementary one is copied as its
   * surrogate pair.
   */
  method AppendEscape(escaped: Text, ch: CodePoint) returns (r: Text)
    ensures ch < 0x1_0000 ==> r == escaped + EscapeUnit(ch)
    ensures 0x1_0000 <= ch ==> r == escaped + Encode(ch)
    ensures r == escaped + Jcs.EscapeCodePoint(ch)
  {
    if ch == 0x9 {
      r := escaped + Ascii("\\t");
    } else if ch == 0x8 {
      r := escaped + Ascii("\\b");
    } else if ch == 0xA {
      r := escaped + Ascii("\\n");
    } else if ch == 0xD {
      r := escaped + Ascii("\\r");
    } else if ch == 0xC {
      r := escaped + Ascii("\\f");
    } else if ch == '"' as int {
      r := escaped + Ascii("\\\"");
    } else if ch == '\\' as int {
      r := escaped + Ascii("\\\\");
    } else if 0x0 <= ch <= 0x1F || ch == 0x7F {
      r := escaped + Ascii("\\u") + Hex4(ch);
    } else {
      r := escaped + Encode(ch);
    }
    if ch < 0x1_0000 {
      Jcs.EscapeCodePointIsUnit(ch);
    }
  }

  /**
   * `escape`: decodes the string into code points and appends each one,
   * escaped, to a builder. It writes what `Jcs.escape` writes, which is what
   * escaping every code unit on its own writes.
   */
  method Escape(value: Text) returns (escaped: Text)
    ensures escaped == Jcs.Escape(value)
    ensures escaped == EscapeUnits(value)
  {
    var codePoints := CodePoints(value);
    escaped := [];
    for k := 0 to |codePoints|
      invariant escaped + EscapeAll(codePoints[k..]) == EscapeAll(codePoints)
    {
      var next := AppendEscape(escaped, codePoints[k]);
      EscapeAllStep(codePoints, k);
      Associate(escaped, Jcs.EscapeCodePoint(codePoints[k]), EscapeAll(codePoints[k + 1..]));
      escaped := next;
    }
    assert codePoints[|codePoints|..] == [];
    EscapeAllCodePoints(value);
    Jcs.EscapeIsPerUnit(value);
  }

  // ----- canonizeNumber -----

  /** `canonizeNumber(number, writer)`: writes what `Jcs.canonizeNumber` returns. */
  method CanonizeNumber(h: Host, number: Decimal, writer: Text) returns (w: Text)
    ensures w == writer + Jcs.CanonizeNumber(h, number)
  {
    var numberString: Text;
    if Decimals.CompareTo(number, Zero) == 0 {
      numberString := Ascii("0");
    } else if Decimals.CompareTo(number, TenPow21) >= 0 {
      numberString := Replace(h.exponential(number), 'E' as int, Ascii("e+"));
    } else if Decimals.CompareTo(number, TenPowMinus21) <= 0 {
      numberString := ToLowerCase(h.exponential(number));
    } else {
      numberString := h.plain(number);
    }
    w := writer + numberString;
  }

  // ----- canonize -----

  /**
   * `canonize(value, writer)`: a null reference and a JSON null are written
   * as `null`; containers go to their own methods; numbers are canonized;
   * `true`, `false` and strings are written as `toString()` writes them.
   */
  method Canonize(h: Host, value: Option<Json>, writer: Text) returns (w: Text)
    ensures w == writer + Jcs.CanonizeRef(h, value)
    decreases if value.Some? then value.value else Null, 3
  {
    match value
    case None =>
      w := writer + Ascii("null");
    case Some(v) =>
      match v
      case Null =>
        w := writer + Ascii("null");
      case Arr(_) =>
        w := CanonizeArray(h, v, writer);
      case Obj(_) =>
        w := CanonizeObject(h, v, writer);
      case Num(d) =>
        w := CanonizeNumber(h, d, writer);
      case True =>
        w := writer + Ascii("true");
      case False =>
        w := writer + Ascii("false");
      case Str(s) =>
        w := writer + h.stringToString(s);
  }

  /** `canonize(value)`: the text written into a fresh string writer. */
  method CanonizeString(h: Host, value: Option<Json>) returns (text: Text)
    ensures text == Jcs.CanonizeRef(h, value)
  {
    text := Canonize(h, value, []);
  }

  lemma ArrayItemsStep(h: Host, items: seq<Json>, k: nat, next: bool)
    requires k < |items|
    ensures Jcs.ArrayItems(h, items[k..], next)
         == (if next then Ascii(",") else []) + Jcs.Canonize(h, items[k]) + Jcs.ArrayItems(h, items[k + 1..], true)
  {
    assert items[k..][0] == items[k] && items[k..][1..] == items[k + 1..];
  }

  /** The quote, the escaped key and the closing `":` written in three steps make one property name. */
  lemma NameWritten(w: Text, key: Text)
    ensures w + Ascii("\"") + Jcs.Escape(key) + Ascii("\":") == w + Jcs.PropertyName(key)
  {
  }

  /**
   * `canonizeArray`: `[`, every item in order with a comma before all but
   * the first, then `]`.
   */
  method CanonizeArray(h: Host, value: Json, writer: Text) returns (w: Text)
    requires value.Arr?
    ensures w == writer + Jcs.Canonize(h, value)
    decreases value, 2
  {
    var items := value.items;
    var next := false;
    w := writer + Ascii("[");
    assert items[0..] == items;
    for k := 0 to |items|
      invariant next <==> 0 < k
      invariant w + Jcs.ArrayItems(h, items[k..], next) == writer + Ascii("[") + Jcs.ArrayItems(h, items, false)
    {
      ghost var before := w;
      ghost var comma: Text := if next then Ascii(",") else [];
      ArrayItemsStep(h, items, k, next);
      if next {
        w := w + Ascii(",");
      } else {
        assert w == w + comma;
      }
      assert items[k] in value.items;
      w := Canonize(h, Some(items[k]), w);
      Associate(before, comma, Jcs.Canonize(h, items[k]));
      Associate(before, comma + Jcs.Canonize(h, items[k]), Jcs.ArrayItems(h, items[k + 1..], true));
      next := true;
    }
    assert items[|items|..] == [];
    w := w + Ascii("]");
    Associate(writer, Ascii("["), Jcs.ArrayItems(h, items, false));
    Associate(writer, Ascii("[") + Jcs.ArrayItems(h, items, false), Ascii("]"));
  }

  /**
   * `canonizeObject`: `{`, then for every member in ascending key order a
   * comma before all but the first, the escaped key in quotes, a colon and
   * the value, then `}`.
   */
  method CanonizeObject(h: Host, value: Json, writer: Text) returns (w: Text)
    requires value.Obj?
    ensures w == writer + Jcs.Canonize(h, value)
    decreases value, 2
  {
    w := writer + Ascii("{");
    var properties := value.members;
    if |properties| > 0 {
      var sortedProperties := SortMembers(properties);
      JcsLemmas.CanonizeObjectStep(h, value);
      w := WriteProperties(h, value, sortedProperties, w);
      Associate(writer, Ascii("{"), Jcs.Properties(h, value, sortedProperties, 0, false));
      Associate(writer, Ascii("{") + Jcs.Properties(h, value, sortedProperties, 0, false), Ascii("}"));
    } else {
      assert w == writer + Ascii("{") + [];
    }
    w := w + Ascii("}");
  }

  /** The loop of `canonizeObject` over the sorted members. */
  method WriteProperties(h: Host, value: Json, sorted: seq<Member>, writer: Text) returns (w: Text)
    requires MembersOf(sorted, value)
    ensures w == writer + Jcs.Properties(h, value, sorted, 0, false)
    decreases value, 1
  {
    var next := false;
    w := writer;
    for k := 0 to |sorted|
      invariant next <==> 0 < k
      invariant w + Jcs.Properties(h, value, sorted, k, next) == writer + Jcs.Properties(h, value, sorted, 0, false)
    {
      w := WriteProperty(h, value, sorted, k, next, w);
      next := true;
    }
    assert w + [] == w;
  }

  /**
   * One pass of the loop of `canonizeObject`: the comma when a property was
   * written before, then `"key":` and the value of the `k`-th sorted member.
   */
  method WriteProperty(h: Host, value: Json, sorted: seq<Member>, k: nat, next: bool, writer: Text)
    returns (w: Text)
    requires MembersOf(sorted, value) && k < |sorted|
    ensures w + Jcs.Properties(h, value, sorted, k + 1, true) == writer + Jcs.Properties(h, value, sorted, k, next)
    decreases value, 0
  {
    var property := sorted[k];
    ghost var comma: Text := if next then Ascii(",") else [];
    JcsLemmas.PropertiesStep(h, value, sorted, k, next);
    w := writer;
    if next {
      w := w + Ascii(",");
    } else {
      assert w == w + comma;
    }
    w := w + Ascii("\"");
    var escaped := Escape(property.key);
    w := w + escaped;
    w := w + Ascii("\":");
    NameWritten(writer + comma, property.key);
    assert property in sorted;
    w := Canonize(h, Some(property.value), w);
    var name, text := Jcs.PropertyName(property.key), Jcs.Canonize(h, property.value);
    Associate(writer, comma, name);
    Associate(writer, comma + name, text);
    Associate(writer, comma + name + text, Jcs.Properties(h, value, sorted, k + 1, true));
  }
}
