/**
 * The JSON-P object model the canonicalizers read (`JsonValue` and its
 * subtypes), the library behaviour they call but this model does not open
 * up, and the sorting of object members by key (`Collections.sort` over
 * `String` keys).
 */
module Json {
  import opened Utf16
  import opened Decimals

  /** A `JsonValue`. An object is a sequence of members; JSON-P never holds two members with one key. */
  datatype Json =
    | Null
    | True
    | False
    | Str(chars: Text)
    | Num(number: Decimal)
    | Arr(items: seq<Json>)
    | Obj(members: seq<Member>)

  datatype Member = Member(key: Text, value: Json)

  /** `JsonValue.ValueType`. */
  datatype ValueType = NullType | TrueType | FalseType | StringType | NumberType | ArrayType | ObjectType

  function TypeOf(v: Json): ValueType
  {
    match v
    case Null => NullType
    case True => TrueType
    case False => FalseType
    case Str(_) => StringType
    case Num(_) => NumberType
    case Arr(_) => ArrayType
    case Obj(_) => ObjectType
  }

  /**
   * Library code whose output the canonicalizers use but this model treats as
   * opaque: the two `DecimalFormat` instances (patterns "0E00" and
   * "0.#######") and `JsonString.toString()`.
   */
  datatype Host = Host(
    exponential: Decimal -> Text,
    plain: Decimal -> Text,
    stringToString: Text -> Text)

  predicate UniqueKeys(ms: seq<Member>) {
    forall i, j | 0 <= i < j < |ms| :: ms[i].key != ms[j].key
  }

  /** Members in ascending key order, by `String.compareTo`. */
  predicate SortedByKey(ms: seq<Member>) {
    forall i, j | 0 <= i < j < |ms| :: !Below(ms[j].key, ms[i].key)
  }

  /** Inserts `m` before the first member whose key is above its own. */
  function Insert(m: Member, sorted: seq<Member>): (r: seq<Member>)
    ensures |r| == |sorted| + 1
  {
    if |sorted| == 0 then [m]
    else if Below(m.key, sorted[0].key) then [m] + sorted
    else [sorted[0]] + Insert(m, sorted[1..])
  }

  /** Inserting adds exactly the one member. */
  lemma {:induction false} InsertMultiset(m: Member, sorted: seq<Member>)
    ensures multiset(Insert(m, sorted)) == multiset(sorted) + multiset{m}
    decreases |sorted|
  {
    if |sorted| > 0 && !Below(m.key, sorted[0].key) {
      InsertMultiset(m, sorted[1..]);
      assert sorted == [sorted[0]] + sorted[1..];
    }
  }

  /** Inserting into a key-sorted sequence keeps it key-sorted. */
  lemma {:induction false} InsertSorted(m: Member, sorted: seq<Member>)
    requires SortedByKey(sorted)
    ensures SortedByKey(Insert(m, sorted))
    decreases |sorted|
  {
    if |sorted| == 0 {
    } else if Below(m.key, sorted[0].key) {
      BelowTotal(m.key, sorted[0].key);
      forall j | 0 < j < |sorted| ensures !Below(sorted[j].key, m.key) {
        if Below(sorted[j].key, m.key) {
          BelowTransitive(sorted[j].key, m.key, sorted[0].key);
        }
      }
    } else {
      var rest := Insert(m, sorted[1..]);
      InsertSorted(m, sorted[1..]);
      InsertMultiset(m, sorted[1..]);
      assert sorted == [sorted[0]] + sorted[1..];
      SortedCons(sorted[0], rest, m, sorted[1..]);
    }
  }

  /** A member no key of `rest` is below can head the sorted `rest`. */
  lemma SortedCons(first: Member, rest: seq<Member>, m: Member, tail: seq<Member>)
    requires SortedByKey(rest) && SortedByKey([first] + tail)
    requires multiset(rest) == multiset(tail) + multiset{m}
    requires !Below(m.key, first.key)
    ensures SortedByKey([first] + rest)
  {
    forall j | 0 <= j < |rest| ensures !Below(rest[j].key, first.key) {
      assert rest[j] in multiset(rest);
      if rest[j] != m {
        assert rest[j] in multiset(tail);
        assert rest[j] in tail;
        var k :| 0 <= k < |tail| && tail[k] == rest[j];
        var s := [first] + tail;
        assert s[0] == first && s[k + 1] == rest[j];
        assert !Below(s[k + 1].key, s[0].key);
      }
    }
  }

  /** `Collections.sort` on the members of an object, by key: an insertion sort. */
  function SortMembers(ms: seq<Member>): (r: seq<Member>)
    ensures |r| == |ms|
  {
    if |ms| == 0 then [] else Insert(ms[0], SortMembers(ms[1..]))
  }

  /** Sorting yields the members in ascending key order, each as often as before. */
  lemma {:induction false} SortMembersSpec(ms: seq<Member>)
    ensures SortedByKey(SortMembers(ms))
    ensures multiset(SortMembers(ms)) == multiset(ms)
    decreases |ms|
  {
    if |ms| > 0 {
      var rest := SortMembers(ms[1..]);
      SortMembersSpec(ms[1..]);
      InsertSorted(ms[0], rest);
      InsertMultiset(ms[0], rest);
      assert SortMembers(ms) == Insert(ms[0], rest);
      assert multiset(ms) == multiset(ms[1..]) + multiset{ms[0]} by {
        assert ms == [ms[0]] + ms[1..];
      }
    }
  }

  /** Every member of `s` belongs to the object `obj`. */
  predicate MembersOf(s: seq<Member>, obj: Json)
  {
    obj.Obj? && forall m | m in s :: m in obj.members
  }

  /** The sorted members of an object belong to it. */
  lemma SortedMembersOf(ms: seq<Member>)
    ensures MembersOf(SortMembers(ms), Obj(ms))
  {
    SortMembersSpec(ms);
    forall m | m in SortMembers(ms)
      ensures m in ms
    {
      assert m in multiset(SortMembers(ms));
    }
  }

  /** With unique keys no member occurs twice. */
  lemma {:induction false} UniqueKeysNoRepeat(a: seq<Member>, x: Member)
    requires UniqueKeys(a)
    ensures multiset(a)[x] <= 1
  {
    if |a| > 0 {
      assert a == [a[0]] + a[1..];
      assert multiset(a) == multiset{a[0]} + multiset(a[1..]);
      UniqueKeysNoRepeat(a[1..], x);
      if x == a[0] {
        forall k | 0 <= k < |a| - 1 ensures a[1..][k] != x {
          assert a[1..][k] == a[k + 1];
        }
        assert x !in a[1..];
      }
    }
  }

  /** A member at two positions occurs at least twice. */
  lemma RepeatCounts(b: seq<Member>, i: nat, j: nat)
    requires i < j < |b| && b[i] == b[j]
    ensures multiset(b)[b[i]] >= 2
  {
    assert b == b[..i] + [b[i]] + b[i + 1..j] + [b[j]] + b[j + 1..];
    assert multiset(b) == multiset(b[..i]) + multiset{b[i]} + multiset(b[i + 1..j])
                          + multiset{b[j]} + multiset(b[j + 1..]);
  }

  /** Reordering members keeps their keys unique. */
  lemma UniqueKeysPermutation(a: seq<Member>, b: seq<Member>)
    requires UniqueKeys(a) && multiset(a) == multiset(b)
    ensures UniqueKeys(b)
  {
    forall i, j | 0 <= i < j < |b| ensures b[i].key != b[j].key {
      assert b[i] in multiset(a) && b[j] in multiset(a);
      var k :| 0 <= k < |a| && a[k] == b[i];
      var l :| 0 <= l < |a| && a[l] == b[j];
      if k == l {
        RepeatCounts(b, i, j);
        UniqueKeysNoRepeat(a, b[i]);
        assert false;
      } else if k < l {
        assert a[k].key != a[l].key;
      } else {
        assert a[l].key != a[k].key;
      }
    }
  }

  /** Two key-sorted orderings of the same members with unique keys start alike. */
  lemma SortedUniqueHead(a: seq<Member>, b: seq<Member>)
    requires SortedByKey(a) && SortedByKey(b) && UniqueKeys(a)
    requires multiset(a) == multiset(b) && 0 < |a| && 0 < |b|
    ensures a[0] == b[0]
  {
    assert a[0] in multiset(b) && b[0] in multiset(a);
    var k :| 0 <= k < |b| && b[k] == a[0];
    var l :| 0 <= l < |a| && a[l] == b[0];
    if a[0] != b[0] {
      assert 0 < k && 0 < l;
      BelowTotal(a[0].key, b[0].key);
      assert false;
    }
  }

  lemma TailMultiset(a: seq<Member>, b: seq<Member>)
    requires 0 < |a| && 0 < |b| && a[0] == b[0] && multiset(a) == multiset(b)
    ensures multiset(a[1..]) == multiset(b[1..])
  {
    assert a == [a[0]] + a[1..] && b == [b[0]] + b[1..];
    calc {
      multiset(a[1..]);
      multiset(a) - multiset{a[0]};
      multiset(b) - multiset{b[0]};
      multiset(b[1..]);
    }
  }

  /** Two key-sorted orderings of the same members with unique keys are the same sequence. */
  lemma {:induction false} SortedUniqueEqual(a: seq<Member>, b: seq<Member>)
    requires SortedByKey(a) && SortedByKey(b) && UniqueKeys(a)
    requires multiset(a) == multiset(b)
    ensures a == b
    decreases |a|
  {
    assert |a| == |multiset(a)| == |multiset(b)| == |b|;
    if |a| > 0 {
      SortedUniqueHead(a, b);
      TailMultiset(a, b);
      SortedUniqueEqual(a[1..], b[1..]);
      assert a == [a[0]] + a[1..] && b == [b[0]] + b[1..];
    }
  }

  /**
   * The sorted order of an object's members does not depend on the order the
   * members were given in.
   */
  lemma SortIgnoresOrder(ms: seq<Member>, ms': seq<Member>)
    requires UniqueKeys(ms) && multiset(ms) == multiset(ms')
    ensures SortMembers(ms) == SortMembers(ms')
  {
    SortMembersSpec(ms);
    SortMembersSpec(ms');
    UniqueKeysPermutation(ms, SortMembers(ms));
    SortedUniqueEqual(SortMembers(ms), SortMembers(ms'));
  }
}
