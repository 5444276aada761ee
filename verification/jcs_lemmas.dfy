/**
 * Properties of `Jcs`: what the number canonicalizer's branches mean for the
 * value, the layout of arrays and objects, independence from member order,
 * and the rules of canonical equality.
 */
module JcsLemmas {
  import opened Wrappers
  import opened Utf16
  import opened Decimals
  import opened Json
  import opened Escaping
  import opened Jcs

  // ----- numbers -----

  /**
   * The branch `canonizeNumber` takes, stated on the exact value: zero,
   * at least 10^21, nonzero and at most 10^-21, or strictly in between.
   */
  lemma CanonizeNumberByValue(h: Host, d: Decimal)
    ensures Value(d) == 0.0 ==> CanonizeNumber(h, d) == Ascii("0")
    ensures Value(d) >= Large ==> CanonizeNumber(h, d) == Replace(h.exponential(d), 'E' as int, Ascii("e+"))
    ensures Value(d) != 0.0 && Value(d) <= Small ==> CanonizeNumber(h, d) == ToLowerCase(h.exponential(d))
    ensures Small < Value(d) < Large ==> CanonizeNumber(h, d) == h.plain(d)
  {
    ThresholdValues();
    ValueZero(d);
    CompareToZero(d);
    CompareToMeansValue(d, TenPow21);
    CompareToMeansValue(d, TenPowMinus21);
  }

  /** Whether the formatters look only at the value, as `DecimalFormat` does, and not at the scale. */
  ghost predicate ValueBased(h: Host) {
    forall x, y :: Value(x) == Value(y) ==> h.exponential(x) == h.exponential(y) && h.plain(x) == h.plain(y)
  }

  /** With value-based formatters, numbers of equal value (`1`, `1.0`, `1.00`) get the same text. */
  lemma CanonizeNumberSameValue(h: Host, a: Decimal, b: Decimal)
    requires ValueBased(h) && Value(a) == Value(b)
    ensures CanonizeNumber(h, a) == CanonizeNumber(h, b)
  {
    assert h.exponential(a) == h.exponential(b) && h.plain(a) == h.plain(b);
    var v := Value(a);
    CanonizeNumberByValue(h, a);
    CanonizeNumberByValue(h, b);
    if v == 0.0 {
    } else if v >= Large {
    } else if v <= Small {
    } else {
    }
  }

  /** A number at least 10^21 never shows an upper-case `E`; one at most 10^-21 shows no upper-case letter at all. */
  lemma CanonizeNumberExponentCase(h: Host, d: Decimal)
    ensures Value(d) >= Large ==> 'E' as int !in CanonizeNumber(h, d)
    ensures Value(d) <= Small ==> forall i | 0 <= i < |CanonizeNumber(h, d)| :: !IsAsciiUpper(CanonizeNumber(h, d)[i])
  {
    CanonizeNumberByValue(h, d);
  }

  // ----- layout -----

  /** The parts joined with one comma between neighbours. */
  function Join(parts: seq<Text>): Text
  {
    if |parts| == 0 then []
    else if |parts| == 1 then parts[0]
    else parts[0] + Ascii(",") + Join(parts[1..])
  }

  lemma JoinCons(p: Text, rest: seq<Text>)
    ensures Join([p] + rest) == p + (if |rest| == 0 then [] else Ascii(",") + Join(rest))
  {
    assert ([p] + rest)[1..] == rest;
  }

  /** The canonical text of every item, in order. */
  function ItemTexts(h: Host, items: seq<Json>): (r: seq<Text>)
    ensures |r| == |items|
  {
    if |items| == 0 then [] else [Canonize(h, items[0])] + ItemTexts(h, items[1..])
  }

  /** The text `"key":value` of every member, in order. */
  function MemberTexts(h: Host, ms: seq<Member>): (r: seq<Text>)
    ensures |r| == |ms|
  {
    if |ms| == 0 then [] else [PropertyName(ms[0].key) + Canonize(h, ms[0].value)] + MemberTexts(h, ms[1..])
  }

  lemma {:induction false} ArrayItemsJoin(h: Host, items: seq<Json>, next: bool)
    ensures ArrayItems(h, items, next)
         == (if next && |items| > 0 then Ascii(",") else []) + Join(ItemTexts(h, items))
    decreases |items|
  {
    if |items| > 0 {
      ArrayItemsJoin(h, items[1..], true);
      JoinCons(Canonize(h, items[0]), ItemTexts(h, items[1..]));
    }
  }

  /**
   * `canonizeArray` writes `[`, the items in their given order with exactly
   * one comma between neighbours, and `]`.
   */
  lemma ArrayLayout(h: Host, items: seq<Json>)
    ensures Canonize(h, Arr(items)) == Ascii("[") + Join(ItemTexts(h, items)) + Ascii("]")
  {
    ArrayItemsJoin(h, items, false);
  }

  lemma {:induction false} PropertiesJoin(h: Host, obj: Json, sorted: seq<Member>, i: nat, next: bool)
    requires MembersOf(sorted, obj) && i <= |sorted|
    ensures Properties(h, obj, sorted, i, next)
         == (if next && i < |sorted| then Ascii(",") else []) + Join(MemberTexts(h, sorted[i..]))
    decreases |sorted| - i
  {
    if i == |sorted| {
      assert MemberTexts(h, sorted[i..]) == [];
    } else {
      PropertiesStep(h, obj, sorted, i, next);
      PropertiesJoin(h, obj, sorted, i + 1, true);
      MemberTextsStep(h, sorted, i);
      JoinCons(PropertyName(sorted[i].key) + Canonize(h, sorted[i].value), MemberTexts(h, sorted[i + 1..]));
      var comma, name, text := if next then Ascii(",") else [], PropertyName(sorted[i].key), Canonize(h, sorted[i].value);
      Associate(comma, name, text);
      Associate(comma, name + text, Properties(h, obj, sorted, i + 1, true));
    }
  }

  lemma MemberTextsStep(h: Host, s: seq<Member>, i: nat)
    requires i < |s|
    ensures MemberTexts(h, s[i..]) == [PropertyName(s[i].key) + Canonize(h, s[i].value)] + MemberTexts(h, s[i + 1..])
  {
    assert s[i..][0] == s[i] && s[i..][1..] == s[i + 1..];
  }

  /**
   * `canonizeObject` writes `{`, then `"key":value` for every member in
   * ascending key order with exactly one comma between neighbours, and `}`.
   */
  lemma ObjectLayout(h: Host, ms: seq<Member>)
    ensures Canonize(h, Obj(ms)) == Ascii("{") + Join(MemberTexts(h, SortMembers(ms))) + Ascii("}")
  {
    var sorted := SortMembers(ms);
    if |ms| == 0 {
      assert sorted == [];
    } else {
      CanonizeObjectStep(h, Obj(ms));
      PropertiesJoin(h, Obj(ms), sorted, 0, false);
      assert sorted[0..] == sorted;
      assert Properties(h, Obj(ms), sorted, 0, false) == Join(MemberTexts(h, sorted));
    }
  }

  /** Empty containers are written as `[]` and `{}`. */
  lemma EmptyContainers(h: Host)
    ensures Canonize(h, Arr([])) == Ascii("[]")
    ensures Canonize(h, Obj([])) == Ascii("{}")
  {
  }

  /** A null reference and a JSON null are both written as `null`. */
  lemma NullReference(h: Host)
    ensures CanonizeRef(h, None) == Ascii("null")
    ensures CanonizeRef(h, Some(Null)) == Ascii("null")
  {
  }

  /** Reordering the members of an object (keys unique) does not change its text. */
  lemma MemberOrderIrrelevant(h: Host, ms: seq<Member>, ms': seq<Member>)
    requires UniqueKeys(ms) && multiset(ms) == multiset(ms')
    ensures Canonize(h, Obj(ms)) == Canonize(h, Obj(ms'))
  {
    ObjectLayout(h, ms);
    ObjectLayout(h, ms');
    SortIgnoresOrder(ms, ms');
  }

  /** A positive integer below 10^21 takes the plain form. */
  lemma PositiveIntegerIsPlain(h: Host, d: Decimal)
    requires d.scale == 0 && 0 < d.unscaled < 1_000_000_000_000_000_000_000
    ensures CanonizeNumber(h, d) == h.plain(d)
  {
    assert Value(d) == d.unscaled as real;
    ThresholdValues();
    CanonizeNumberByValue(h, d);
  }

  lemma ExampleOrder(a: Member, b: Member)
    requires a.key == Ascii("a") && b.key == Ascii("b")
    ensures SortMembers([b, a]) == [a, b]
  {
    assert Below(a.key, b.key);
    BelowTotal(a.key, b.key);
    assert [b, a][1..] == [a];
    assert SortMembers([a]) == [a] by {
      assert [a][1..] == [];
    }
    assert Insert(b, [a]) == [a] + Insert(b, []);
  }

  lemma ExampleItems(h: Host, x: Json, y: Json)
    requires Canonize(h, x) == Ascii("2") && Canonize(h, y) == Ascii("3")
    ensures Canonize(h, Arr([x, y])) == Ascii("[2,3]")
  {
    var parts := ItemTexts(h, [x, y]);
    assert parts == [Ascii("2"), Ascii("3")] by {
      assert [x, y][1..] == [y];
      assert ItemTexts(h, [y]) == [Ascii("3")] by {
        assert [y][1..] == [];
      }
    }
    assert Join(parts) == Ascii("2") + (Ascii(",") + Ascii("3")) by {
      JoinCons(Ascii("2"), [Ascii("3")]);
    }
    ArrayLayout(h, [x, y]);
    ExampleItemsText();
  }

  lemma ExampleItemsText()
    ensures Ascii("[") + (Ascii("2") + (Ascii(",") + Ascii("3"))) + Ascii("]") == Ascii("[2,3]")
  {
    AsciiAppend(",", "3");
    AsciiAppend("2", ",3");
    AsciiAppend("[", "2,3");
    AsciiAppend("[2,3", "]");
  }

  lemma ExampleMember(h: Host, key: Text, v: Json, k: string, t: string)
    requires key == Ascii(k) && Canonize(h, v) == Ascii(t)
    requires |k| == 1 && 'a' <= k[0] <= 'z'
    ensures PropertyName(key) + Canonize(h, v) == Ascii("\"") + Ascii(k) + Ascii("\":") + Ascii(t)
  {
    assert Escape(key) == key by {
      assert !NeedsEscape(key[0]);
      EscapeUnitsIdentity(key);
      EscapeIsPerUnit(key);
    }
  }

  /**
   * The object `{"b":1,"a":[2,3]}` is written as `{"a":[2,3],"b":1}`: for
   * any values `x`, `y`, `z` whose canonical texts are `1`, `2` and `3`, the
   * members come out in key order and the array keeps its order.
   */
  lemma ExampleObject(h: Host, a: Member, b: Member, x: Json, y: Json, z: Json)
    requires Canonize(h, x) == Ascii("1") && Canonize(h, y) == Ascii("2") && Canonize(h, z) == Ascii("3")
    requires a == Member(Ascii("a"), Arr([y, z])) && b == Member(Ascii("b"), x)
    ensures Canonize(h, Obj([b, a])) == Ascii("{\"a\":[2,3],\"b\":1}")
  {
    ExampleItems(h, y, z);
    ExampleMember(h, a.key, a.value, "a", "[2,3]");
    ExampleMember(h, b.key, b.value, "b", "1");
    ExampleShape(h, a, b);
    ExampleText(PropertyName(a.key) + Canonize(h, a.value), PropertyName(b.key) + Canonize(h, b.value));
  }

  lemma ExampleShape(h: Host, a: Member, b: Member)
    requires a.key == Ascii("a") && b.key == Ascii("b")
    ensures Canonize(h, Obj([b, a]))
         == Ascii("{") + ((PropertyName(a.key) + Canonize(h, a.value))
                          + (Ascii(",") + (PropertyName(b.key) + Canonize(h, b.value)))) + Ascii("}")
  {
    var ta := PropertyName(a.key) + Canonize(h, a.value);
    var tb := PropertyName(b.key) + Canonize(h, b.value);
    ExampleOrder(a, b);
    ObjectLayout(h, [b, a]);
    assert MemberTexts(h, [a, b]) == [ta, tb];
    JoinCons(ta, [tb]);
  }

  /** The text of a two-member object, written piece by piece, is the text of the whole literal. */
  lemma TwoMemberText(k1: string, t1: string, k2: string, t2: string)
    ensures Ascii("{") + ((Ascii("\"") + Ascii(k1) + Ascii("\":") + Ascii(t1))
                          + (Ascii(",") + (Ascii("\"") + Ascii(k2) + Ascii("\":") + Ascii(t2)))) + Ascii("}")
         == Ascii("{" + ("\"" + k1 + "\":" + t1) + ("," + ("\"" + k2 + "\":" + t2)) + "}")
  {
    AsciiAppend("\"", k1);
    AsciiAppend("\"" + k1, "\":");
    AsciiAppend("\"" + k1 + "\":", t1);
    AsciiAppend("\"", k2);
    AsciiAppend("\"" + k2, "\":");
    AsciiAppend("\"" + k2 + "\":", t2);
    AsciiAppend(",", "\"" + k2 + "\":" + t2);
    AsciiAppend("\"" + k1 + "\":" + t1, "," + ("\"" + k2 + "\":" + t2));
    AsciiAppend("{", ("\"" + k1 + "\":" + t1) + ("," + ("\"" + k2 + "\":" + t2)));
    AsciiAppend("{" + ("\"" + k1 + "\":" + t1) + ("," + ("\"" + k2 + "\":" + t2)), "}");
  }

  lemma ExampleText(ta: Text, tb: Text)
    requires ta == Ascii("\"") + Ascii("a") + Ascii("\":") + Ascii("[2,3]")
    requires tb == Ascii("\"") + Ascii("b") + Ascii("\":") + Ascii("1")
    ensures Ascii("{") + (ta + (Ascii(",") + tb)) + Ascii("}") == Ascii("{\"a\":[2,3],\"b\":1}")
  {
    TwoMemberText("a", "[2,3]", "b", "1");
    assert "{" + ("\"" + "a" + "\":" + "[2,3]") + ("," + ("\"" + "b" + "\":" + "1")) + "}" == "{\"a\":[2,3],\"b\":1}";
  }

  // ----- single unfoldings of the serializer and of equality -----

  lemma CanonizeObjectStep(h: Host, v: Json)
    requires v.Obj? && |v.members| > 0
    ensures MembersOf(SortMembers(v.members), v)
    ensures Canonize(h, v) == Ascii("{") + Properties(h, v, SortMembers(v.members), 0, false) + Ascii("}")
  {
    SortedMembersOf(v.members);
  }

  lemma PropertiesStep(h: Host, obj: Json, s: seq<Member>, i: nat, next: bool)
    requires MembersOf(s, obj) && i < |s|
    ensures Properties(h, obj, s, i, next)
         == (if next then Ascii(",") else []) + PropertyName(s[i].key) + Canonize(h, s[i].value)
            + Properties(h, obj, s, i + 1, true)
  {
    assert s[i] in s;
  }

  lemma EqualsObjectStep(h: Host, a: Json, b: Json)
    requires a.Obj? && b.Obj? && |a.members| == |b.members| > 0
    ensures MembersOf(SortMembers(a.members), a) && MembersOf(SortMembers(b.members), b)
    ensures Equals(h, a, b) == ObjectEqualsFrom(h, a, b, SortMembers(a.members), SortMembers(b.members), 0)
  {
    SortedMembersOf(a.members);
    SortedMembersOf(b.members);
  }

  lemma ObjectEqualsStep(h: Host, a: Json, b: Json, s1: seq<Member>, s2: seq<Member>, i: nat)
    requires MembersOf(s1, a) && MembersOf(s2, b) && |s1| == |s2| && i < |s1|
    ensures ObjectEqualsFrom(h, a, b, s1, s2, i)
        == (Escape(s1[i].key) == Escape(s2[i].key) && Equals(h, s1[i].value, s2[i].value)
            && ObjectEqualsFrom(h, a, b, s1, s2, i + 1))
  {
    assert s1[i] in s1;
  }

  // ----- equality -----

  /** The key comparison of `objectEquals`, on escaped keys, is the comparison of the raw keys. */
  lemma EscapedKeysEqual(k1: Text, k2: Text)
    ensures Escape(k1) == Escape(k2) <==> k1 == k2
  {
    EscapeIsPerUnit(k1);
    EscapeIsPerUnit(k2);
    EscapeUnitsInjective(k1, k2);
  }

  /**
   * The rules of `equals`: a null reference equals a JSON null and nothing
   * else; values of different types are unequal; strings compare by content;
   * numbers compare by canonical text; arrays and objects of different sizes
   * are unequal.
   */
  lemma EqualsRules(h: Host, a: Json, b: Json)
    ensures EqualsRef(h, None, None)
    ensures EqualsRef(h, None, Some(b)) <==> b.Null?
    ensures EqualsRef(h, Some(a), None) <==> a.Null?
    ensures TypeOf(a) != TypeOf(b) ==> !Equals(h, a, b)
    ensures a.Str? && b.Str? ==> (Equals(h, a, b) <==> a.chars == b.chars)
    ensures a.Num? && b.Num? ==> (Equals(h, a, b) <==> CanonizeNumber(h, a.number) == CanonizeNumber(h, b.number))
    ensures a.Arr? && b.Arr? && |a.items| != |b.items| ==> !Equals(h, a, b)
    ensures a.Obj? && b.Obj? && |a.members| != |b.members| ==> !Equals(h, a, b)
  {
  }

  /** The index loop of `arrayEquals` from `i` holds exactly when every later pair of elements is equal. */
  lemma {:induction false} ArrayEqualsFromAll(h: Host, xs: seq<Json>, ys: seq<Json>, i: nat)
    requires |xs| == |ys| && i <= |xs|
    ensures ArrayEqualsFrom(h, xs, ys, i) <==> forall j | i <= j < |xs| :: Equals(h, xs[j], ys[j])
    decreases |xs| - i
  {
    if i < |xs| {
      ArrayEqualsFromAll(h, xs, ys, i + 1);
    }
  }

  /** Two arrays are canonically equal exactly when they have the same length and equal elements at every position. */
  lemma ArrayElementwise(h: Host, xs: seq<Json>, ys: seq<Json>)
    ensures Equals(h, Arr(xs), Arr(ys)) <==> |xs| == |ys| && forall j | 0 <= j < |xs| :: Equals(h, xs[j], ys[j])
  {
    if |xs| == |ys| && |xs| > 0 {
      ArrayEqualsFromAll(h, xs, ys, 0);
    }
  }

  /**
   * Two members match when their names and their canonical values are
   * equal; by `EscapedKeysEqual` that is the comparison `objectEquals` makes
   * on escaped names.
   */
  predicate MembersMatch(h: Host, m1: Member, m2: Member)
  {
    m1.key == m2.key && Equals(h, m1.value, m2.value)
  }

  /** One pass of the loop of `objectEquals`, on matching members. */
  lemma MatchStep(h: Host, a: Json, b: Json, s1: seq<Member>, s2: seq<Member>, i: nat)
    requires MembersOf(s1, a) && MembersOf(s2, b) && |s1| == |s2| && i < |s1|
    ensures ObjectEqualsFrom(h, a, b, s1, s2, i)
         == (MembersMatch(h, s1[i], s2[i]) && ObjectEqualsFrom(h, a, b, s1, s2, i + 1))
  {
    ObjectEqualsStep(h, a, b, s1, s2, i);
    EscapedKeysEqual(s1[i].key, s2[i].key);
  }

  /** The index loop of `objectEquals` from `i` holds exactly when every later pair of members matches. */
  lemma {:induction false} ObjectEqualsFromAll(h: Host, a: Json, b: Json, s1: seq<Member>, s2: seq<Member>, i: nat)
    requires MembersOf(s1, a) && MembersOf(s2, b) && |s1| == |s2| && i <= |s1|
    ensures ObjectEqualsFrom(h, a, b, s1, s2, i) <==> forall j | i <= j < |s1| :: MembersMatch(h, s1[j], s2[j])
    decreases |s1| - i
  {
    if i < |s1| {
      var here := MembersMatch(h, s1[i], s2[i]);
      var later := forall j | i + 1 <= j < |s1| :: MembersMatch(h, s1[j], s2[j]);
      assert ObjectEqualsFrom(h, a, b, s1, s2, i) == (here && later) by {
        MatchStep(h, a, b, s1, s2, i);
        ObjectEqualsFromAll(h, a, b, s1, s2, i + 1);
      }
      assert (forall j | i <= j < |s1| :: MembersMatch(h, s1[j], s2[j])) == (here && later);
    }
  }

  /**
   * Two objects are canonically equal exactly when they have the same
   * number of members and, once both are sorted by key, the members at
   * every position have the same name (equivalently, the same escaped
   * name) and canonically equal values.
   */
  lemma ObjectElementwise(h: Host, a: Json, b: Json)
    requires a.Obj? && b.Obj?
    ensures Equals(h, a, b)
        <==> |a.members| == |b.members|
             && var s1, s2 := SortMembers(a.members), SortMembers(b.members);
                forall j | 0 <= j < |s1| :: s1[j].key == s2[j].key && Equals(h, s1[j].value, s2[j].value)
    ensures Equals(h, a, b)
        <==> |a.members| == |b.members|
             && var s1, s2 := SortMembers(a.members), SortMembers(b.members);
                forall j | 0 <= j < |s1| :: Escape(s1[j].key) == Escape(s2[j].key) && Equals(h, s1[j].value, s2[j].value)
  {
    var s1, s2 := SortMembers(a.members), SortMembers(b.members);
    if |a.members| == |b.members| {
      if |a.members| > 0 {
        EqualsObjectStep(h, a, b);
        ObjectEqualsFromAll(h, a, b, s1, s2, 0);
      }
      forall j | 0 <= j < |s1|
        ensures Escape(s1[j].key) == Escape(s2[j].key) <==> s1[j].key == s2[j].key
      {
        EscapedKeysEqual(s1[j].key, s2[j].key);
      }
    }
  }

  /**
   * `{"a":"1","b":2}` and `{"a":1,"b":2}` are not canonically equal, in
   * whatever order either object's members were given: the values under `a`
   * differ in type.
   */
  lemma ExampleUnequalObjects(h: Host, a1: Member, a2: Member, b: Member, m1: seq<Member>, m2: seq<Member>)
    requires a1 == Member(Ascii("a"), Str(Ascii("1"))) && a2 == Member(Ascii("a"), Num(Decimal(1, 0)))
    requires b == Member(Ascii("b"), Num(Decimal(2, 0)))
    requires multiset(m1) == multiset([b, a1]) && multiset(m2) == multiset([b, a2])
    ensures !Equals(h, Obj(m1), Obj(m2))
  {
    assert b.key[0] != a1.key[0];
    assert UniqueKeys([b, a1]) && UniqueKeys([b, a2]);
    SortIgnoresOrder([b, a1], m1);
    SortIgnoresOrder([b, a2], m2);
    ExampleOrder(a1, b);
    ExampleOrder(a2, b);
    assert |m1| == |multiset(m1)| == 2 && |m2| == |multiset(m2)| == 2;
    ObjectElementwise(h, Obj(m1), Obj(m2));
    assert SortMembers(m1)[0] == a1 && SortMembers(m2)[0] == a2;
    assert !Equals(h, a1.value, a2.value);
  }

  /** `equals` is reflexive. */
  lemma {:induction false} EqualsReflexive(h: Host, a: Json)
    ensures Equals(h, a, a)
    decreases a, 1
  {
    match a
    case Arr(xs) =>
      if |xs| > 0 {
        ArrayReflexiveFrom(h, xs, 0);
      }
    case Obj(ms) =>
      if |ms| > 0 {
        EqualsObjectStep(h, a, a);
        ObjectReflexiveFrom(h, a, SortMembers(ms), 0);
      }
    case _ =>
  }

  lemma {:induction false} ArrayReflexiveFrom(h: Host, xs: seq<Json>, i: nat)
    requires i <= |xs|
    ensures ArrayEqualsFrom(h, xs, xs, i)
    decreases xs, |xs| - i
  {
    if i < |xs| {
      EqualsReflexive(h, xs[i]);
      ArrayReflexiveFrom(h, xs, i + 1);
    }
  }

  lemma {:induction false} ObjectReflexiveFrom(h: Host, a: Json, s: seq<Member>, i: nat)
    requires MembersOf(s, a) && i <= |s|
    ensures ObjectEqualsFrom(h, a, a, s, s, i)
    decreases a, 0, |s| - i
  {
    if i < |s| {
      assert s[i] in s;
      ObjectEqualsStep(h, a, a, s, s, i);
      EqualsReflexive(h, s[i].value);
      ObjectReflexiveFrom(h, a, s, i + 1);
    }
  }

  /** `equals` is symmetric. */
  lemma {:induction false} EqualsSymmetric(h: Host, a: Json, b: Json)
    ensures Equals(h, a, b) == Equals(h, b, a)
    decreases a, 1
  {
    if TypeOf(a) == TypeOf(b) {
      match a
      case Arr(xs) =>
        if |xs| == |b.items| && |xs| > 0 {
          ArraySymmetricFrom(h, xs, b.items, 0);
        }
      case Obj(ms) =>
        if |ms| == |b.members| && |ms| > 0 {
          EqualsObjectStep(h, a, b);
          EqualsObjectStep(h, b, a);
          ObjectSymmetricFrom(h, a, b, SortMembers(ms), SortMembers(b.members), 0);
        }
      case _ =>
    }
  }

  lemma {:induction false} ArraySymmetricFrom(h: Host, xs: seq<Json>, ys: seq<Json>, i: nat)
    requires |xs| == |ys| && i <= |xs|
    ensures ArrayEqualsFrom(h, xs, ys, i) == ArrayEqualsFrom(h, ys, xs, i)
    decreases xs, |xs| - i
  {
    if i < |xs| {
      EqualsSymmetric(h, xs[i], ys[i]);
      ArraySymmetricFrom(h, xs, ys, i + 1);
    }
  }

  lemma {:induction false} ObjectSymmetricFrom(h: Host, a: Json, b: Json, s1: seq<Member>, s2: seq<Member>, i: nat)
    requires a.Obj? && b.Obj?
    requires MembersOf(s1, a) && MembersOf(s2, b)
    requires |s1| == |s2| && i <= |s1|
    ensures ObjectEqualsFrom(h, a, b, s1, s2, i) == ObjectEqualsFrom(h, b, a, s2, s1, i)
    decreases a, 0, |s1| - i
  {
    if i < |s1| {
      assert s1[i] in s1;
      var k1, k2 := Escape(s1[i].key) == Escape(s2[i].key), Escape(s2[i].key) == Escape(s1[i].key);
      var v1, v2 := Equals(h, s1[i].value, s2[i].value), Equals(h, s2[i].value, s1[i].value);
      var r1, r2 := ObjectEqualsFrom(h, a, b, s1, s2, i + 1), ObjectEqualsFrom(h, b, a, s2, s1, i + 1);
      assert ObjectEqualsFrom(h, a, b, s1, s2, i) == (k1 && v1 && r1) by {
        ObjectEqualsStep(h, a, b, s1, s2, i);
      }
      assert ObjectEqualsFrom(h, b, a, s2, s1, i) == (k2 && v2 && r2) by {
        ObjectEqualsStep(h, b, a, s2, s1, i);
      }
      assert v1 == v2 by {
        EqualsSymmetric(h, s1[i].value, s2[i].value);
      }
      assert r1 == r2 by {
        ObjectSymmetricFrom(h, a, b, s1, s2, i + 1);
      }
    }
  }

  /** Canonically equal values have the same canonical text. */
  lemma {:induction false} EqualsSameText(h: Host, a: Json, b: Json)
    requires Equals(h, a, b)
    ensures Canonize(h, a) == Canonize(h, b)
    decreases a, 1
  {
    if a.Arr? {
      ArraySameText(h, a, b);
    } else if a.Obj? {
      ObjectSameText(h, a, b);
    }
  }

  /**
   * The converse of `EqualsSameText` does not hold for every host: the
   * formatter's text is opaque, so a number may be written as text that
   * reads as another literal, and two values of different types then share
   * their canonical text.
   */
  lemma SameTextNotEqual(h: Host)
    requires h.plain(Decimal(5, 0)) == Ascii("null")
    ensures Canonize(h, Num(Decimal(5, 0))) == Canonize(h, Null)
    ensures !Equals(h, Num(Decimal(5, 0)), Null)
  {
    var five := Num(Decimal(5, 0));
    PositiveIntegerIsPlain(h, five.number);
    EqualsRules(h, five, Null);
  }

  lemma {:induction false} ArraySameText(h: Host, a: Json, b: Json)
    requires a.Arr? && Equals(h, a, b)
    ensures Canonize(h, a) == Canonize(h, b)
    decreases a, 0
  {
    if |a.items| > 0 {
      ArraySameTextFrom(h, a.items, b.items, 0, false);
      assert a.items[0..] == a.items && b.items[0..] == b.items;
    }
  }

  lemma {:induction false} ObjectSameText(h: Host, a: Json, b: Json)
    requires a.Obj? && Equals(h, a, b)
    ensures Canonize(h, a) == Canonize(h, b)
    decreases a, 0
  {
    if |a.members| > 0 {
      EqualsObjectStep(h, a, b);
      CanonizeObjectStep(h, a);
      CanonizeObjectStep(h, b);
      ObjectSameTextFrom(h, a, b, SortMembers(a.members), SortMembers(b.members), 0, false);
    }
  }

  lemma {:induction false} ArraySameTextFrom(h: Host, xs: seq<Json>, ys: seq<Json>, i: nat, next: bool)
    requires |xs| == |ys| && i <= |xs| && ArrayEqualsFrom(h, xs, ys, i)
    ensures ArrayItems(h, xs[i..], next) == ArrayItems(h, ys[i..], next)
    decreases xs, |xs| - i
  {
    if i < |xs| {
      EqualsSameText(h, xs[i], ys[i]);
      ArraySameTextFrom(h, xs, ys, i + 1, true);
      assert xs[i..][1..] == xs[i + 1..] && ys[i..][1..] == ys[i + 1..];
    }
  }

  lemma {:induction false} ObjectSameTextFrom(h: Host, a: Json, b: Json, s1: seq<Member>, s2: seq<Member>,
                                              i: nat, next: bool)
    requires a.Obj? && b.Obj?
    requires MembersOf(s1, a) && MembersOf(s2, b)
    requires |s1| == |s2| && i <= |s1| && ObjectEqualsFrom(h, a, b, s1, s2, i)
    ensures Properties(h, a, s1, i, next) == Properties(h, b, s2, i, next)
    decreases a, 0, |s1| - i
  {
    if i < |s1| {
      assert s1[i] in s1;
      ObjectEqualsStep(h, a, b, s1, s2, i);
      PropertiesStep(h, a, s1, i, next);
      PropertiesStep(h, b, s2, i, next);
      EqualsSameText(h, s1[i].value, s2[i].value);
      ObjectSameTextFrom(h, a, b, s1, s2, i + 1, true);
    }
  }

  /** Objects holding the same members (keys unique) in any order are canonically equal. */
  lemma EqualsIgnoresMemberOrder(h: Host, ms: seq<Member>, ms': seq<Member>)
    requires UniqueKeys(ms) && multiset(ms) == multiset(ms')
    ensures Equals(h, Obj(ms), Obj(ms'))
  {
    SortIgnoresOrder(ms, ms');
    assert |ms| == |multiset(ms)| == |ms'|;
    if |ms| > 0 {
      EqualsObjectStep(h, Obj(ms), Obj(ms'));
      EqualsOnSameSorted(h, Obj(ms), Obj(ms'), SortMembers(ms), 0);
    }
  }

  lemma {:induction false} EqualsOnSameSorted(h: Host, a: Json, b: Json, s: seq<Member>, i: nat)
    requires a.Obj? && b.Obj?
    requires MembersOf(s, a) && MembersOf(s, b) && i <= |s|
    ensures ObjectEqualsFrom(h, a, b, s, s, i)
    decreases |s| - i
  {
    if i < |s| {
      assert s[i] in s;
      ObjectEqualsStep(h, a, b, s, s, i);
      EqualsReflexive(h, s[i].value);
      EqualsOnSameSorted(h, a, b, s, i + 1);
    }
  }
}
