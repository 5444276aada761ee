/**
 * Properties of `JcsGenerator`: where commas go, what keys and closing
 * brackets are written as, and the agreement of the streaming generator with
 * the recursive serializer of `Jcs` on the traversal of any tree.
 */
module GeneratorLemmas {
  import opened Wrappers
  import opened Utf16
  import opened Decimals
  import opened Json
  import opened Jcs
  import opened JcsLemmas
  import opened JcsGenerator

  /** `r` with `t` written before its text. */
  function Prepend(t: Text, r: Result<Output, Fault>): Result<Output, Fault>
  {
    match r
    case Success(o) => Success(Output(t + o.text, o.stack))
    case Failure(f) => Failure(f)
  }

  /** A stack on which a value may come next: the root, a map whose key was visited, or a collection with children left. */
  predicate Ready(stack: seq<Frame>)
  {
    |stack| == 0
    || (stack[0].node == MapNode && stack[0].valueDue)
    || (stack[0].node == CollectionNode && stack[0].remaining > 0)
  }

  /** The comma written after a value once the visitor has moved on to `stack`. */
  function Separator(stack: seq<Frame>): Text
  {
    if TopHasNext(stack) then Ascii(",") else []
  }

  // ----- running event sequences -----

  /** A non-empty run whose first step succeeds writes that step's text before the rest of the run. */
  lemma RunCons(h: Host, stack: seq<Frame>, x: seq<Event>)
    requires |x| > 0 && Step(h, stack, x[0]).Success?
    ensures Run(h, stack, x) == Prepend(Step(h, stack, x[0]).value.text, Run(h, Step(h, stack, x[0]).value.stack, x[1..]))
  {
  }

  lemma PrependTwice(t: Text, u: Text, r: Result<Output, Fault>)
    ensures Prepend(t, Prepend(u, r)) == Prepend(t + u, r)
  {
    match r
    case Success(o) =>
      assert t + (u + o.text) == t + u + o.text;
    case Failure(_) =>
  }

  /** Running two event sequences one after the other writes the texts one after the other. */
  lemma {:induction false} RunThen(h: Host, stack: seq<Frame>, a: seq<Event>, b: seq<Event>, t: Text, s: seq<Frame>)
    requires Run(h, stack, a) == Success(Output(t, s))
    ensures Run(h, stack, a + b) == Prepend(t, Run(h, s, b))
    decreases |a|, 1
  {
    if |a| == 0 {
      assert a + b == b;
      match Run(h, s, b)
      case Success(o) =>
        assert [] + o.text == o.text;
      case Failure(_) =>
    } else {
      RunThenCons(h, stack, a, b, t, s);
    }
  }

  /** A successful non-empty run is a successful first step followed by a successful run of the rest. */
  lemma RunSplit(h: Host, stack: seq<Frame>, x: seq<Event>)
    requires |x| > 0 && Run(h, stack, x).Success?
    ensures Step(h, stack, x[0]).Success?
    ensures Run(h, Step(h, stack, x[0]).value.stack, x[1..]).Success?
    ensures Run(h, stack, x).value.text
         == Step(h, stack, x[0]).value.text + Run(h, Step(h, stack, x[0]).value.stack, x[1..]).value.text
    ensures Run(h, stack, x).value.stack == Run(h, Step(h, stack, x[0]).value.stack, x[1..]).value.stack
  {
  }

  /** The inductive step of `RunThen`: the first event of `a` is run first on both sides. */
  lemma {:induction false} RunThenCons(h: Host, stack: seq<Frame>, a: seq<Event>, b: seq<Event>, t: Text, s: seq<Frame>)
    requires |a| > 0 && Run(h, stack, a) == Success(Output(t, s))
    ensures Run(h, stack, a + b) == Prepend(t, Run(h, s, b))
    decreases |a|, 0
  {
    RunSplit(h, stack, a);
    var first := Step(h, stack, a[0]).value;
    var rest := Run(h, first.stack, a[1..]).value;
    assert (a + b)[0] == a[0] && (a + b)[1..] == a[1..] + b;
    RunCons(h, stack, a + b);
    RunThen(h, first.stack, a[1..], b, rest.text, rest.stack);
    PrependTwice(first.text, rest.text, Run(h, s, b));
  }

  /** Three event sequences run one after the other write their three texts one after the other. */
  lemma RunThree(h: Host, stack: seq<Frame>, a: seq<Event>, b: seq<Event>, c: seq<Event>,
                 ta: Text, sa: seq<Frame>, tb: Text, sb: seq<Frame>, tc: Text, sc: seq<Frame>)
    requires Run(h, stack, a) == Success(Output(ta, sa))
    requires Run(h, sa, b) == Success(Output(tb, sb))
    requires Run(h, sb, c) == Success(Output(tc, sc))
    ensures Run(h, stack, a + b + c) == Success(Output(ta + tb + tc, sc))
  {
    RunThen(h, stack, a, b, ta, sa);
    RunThen(h, stack, a + b, c, ta + tb, sb);
    Associate(ta + tb, tc, []);
  }

  lemma RunOne(h: Host, stack: seq<Frame>, e: Event)
    ensures Run(h, stack, [e]) == Step(h, stack, e)
  {
    assert [e][1..] == [];
    match Step(h, stack, e)
    case Success(o) =>
      assert o.text + [] == o.text;
    case Failure(_) =>
  }

  // ----- single events -----

  /**
   * When a value may come next, the visitor can move on, the value is not in
   * key position, and `detectNext` writes the separator of the stack it
   * moved to.
   */
  lemma ReadyTake(stack: seq<Frame>)
    requires Ready(stack)
    ensures Take(stack).Success?
    ensures ContextOf(stack) != PropertyKey
    ensures DetectNext(View(ContextOf(stack), OtherNode, TopHasNext(Take(stack).value))) == Separator(Take(stack).value)
  {
  }

  /**
   * After a value, exactly one comma is written when its parent has another
   * child after it, and nothing at the top level.
   */
  lemma CommaRule(stack: seq<Frame>)
    requires Ready(stack)
    ensures Take(stack).Success?
    ensures |stack| == 0 ==> Separator(Take(stack).value) == []
    ensures Separator(Take(stack).value) == [] || Separator(Take(stack).value) == Ascii(",")
    ensures |stack| > 0 ==>
      (Separator(Take(stack).value) == Ascii(",")
       <==> (if stack[0].node == MapNode then 0 < stack[0].remaining else 1 < stack[0].remaining))
  {
    assert |Ascii(",")| == 1;
  }

  /** A key is written as `"`, its escape, `"` and `:`, which is how the serializer writes a property name, and never followed by a comma. */
  lemma KeyStep(h: Host, stack: seq<Frame>, key: Text)
    requires |stack| > 0 && stack[0].node == MapNode && !stack[0].valueDue && stack[0].remaining > 0
    ensures Step(h, stack, StringEvent(key))
         == Success(Output(PropertyName(key), [Frame(MapNode, stack[0].remaining - 1, true)] + stack[1..]))
  {
    var next := [Frame(MapNode, stack[0].remaining - 1, true)] + stack[1..];
    assert Take(stack) == Success(next);
    assert ContextOf(stack) == PropertyKey;
    assert Step(h, stack, StringEvent(key)) == Success(Output(Quoted(key) + Ascii(":"), next));
    KeyText(key);
  }

  lemma KeyText(key: Text)
    ensures Quoted(key) + Ascii(":") == PropertyName(key)
  {
    AsciiAppend("\"", ":");
    assert "\"" + ":" == "\":";
    assert Quoted(key) + Ascii(":") == Ascii("\"") + Escape(key) + (Ascii("\"") + Ascii(":"));
  }

  /**
   * Ending a container whose children were all visited writes `}` for a map
   * and `]` for a collection, then a comma when the enclosing container has
   * another child.
   */
  lemma EndStep(h: Host, stack: seq<Frame>)
    requires |stack| > 0 && stack[0].remaining == 0 && !stack[0].valueDue && stack[0].node != OtherNode
    ensures Step(h, stack, EndEvent)
         == Success(Output((if stack[0].node == MapNode then Ascii("}") else Ascii("]")) + Separator(stack[1..]),
                           stack[1..]))
  {
  }

  /** `end()` fails exactly when the current node is neither a map nor a collection, and then with `IllegalStateException`. */
  lemma EndHandler(view: View)
    ensures End(view).Failure? <==> view.nodeType == OtherNode
    ensures End(view).Failure? ==> End(view).error == IllegalState
    ensures End(view).Success? ==> 1 <= |End(view).value| <= 2
    ensures End(view).Success? ==> (|End(view).value| == 2 <==> view.topHasNext)
    ensures End(view).Success? ==> End(view).value[0] == (if view.nodeType == MapNode then '}' else ']') as int
    ensures End(view).Success? && |End(view).value| == 2 ==> End(view).value[1] == ',' as int
  {
  }

  /** A set opens like a list, so everything after it is written the same way. */
  lemma SetLikeList(h: Host, stack: seq<Frame>, n: nat, rest: seq<Event>)
    ensures Run(h, stack, [BeginSetEvent(n)] + rest) == Run(h, stack, [BeginListEvent(n)] + rest)
  {
    assert ([BeginSetEvent(n)] + rest)[0] == BeginSetEvent(n) && ([BeginSetEvent(n)] + rest)[1..] == rest;
    assert ([BeginListEvent(n)] + rest)[0] == BeginListEvent(n) && ([BeginListEvent(n)] + rest)[1..] == rest;
  }

  /** Binary data is never written: generation fails at it. */
  lemma BinaryFails(h: Host, stack: seq<Frame>, bytes: seq<bv8>, rest: seq<Event>)
    ensures Run(h, stack, [BinaryEvent(bytes)] + rest).Failure?
  {
    assert ([BinaryEvent(bytes)] + rest)[0] == BinaryEvent(bytes);
  }

  /**
   * A `long` is canonized as the decimal of the same value: zero as `0`, a
   * positive one (always below 10^21) in the plain form, a negative one in
   * the lower-cased exponent form.
   */
  lemma LongRule(h: Host, view: View, n: Long)
    ensures n == 0 ==> LongValue(h, view, n) == Ascii("0") + DetectNext(view)
    ensures 0 < n ==> LongValue(h, view, n) == h.plain(Decimal(n, 0)) + DetectNext(view)
    ensures n < 0 ==> LongValue(h, view, n) == ToLowerCase(h.exponential(Decimal(n, 0))) + DetectNext(view)
  {
    if 0 < n {
      PositiveIntegerIsPlain(h, Decimal(n, 0));
    }
  }

  /**
   * A `BigInteger` within the `long` range is written exactly as that `long`;
   * outside it, generation stops with the arithmetic failure of
   * `longValueExact` wherever the visitor could take the node.
   */
  lemma BigIntegerLikeLong(h: Host, stack: seq<Frame>, i: int, rest: seq<Event>)
    ensures -0x8000_0000_0000_0000 <= i < 0x8000_0000_0000_0000 ==>
      Run(h, stack, [BigIntegerEvent(i)] + rest) == Run(h, stack, [LongEvent(i)] + rest)
    ensures !(-0x8000_0000_0000_0000 <= i < 0x8000_0000_0000_0000) && Take(stack).Success? ==>
      Run(h, stack, [BigIntegerEvent(i)] + rest) == Failure(Arithmetic)
  {
    var big := [BigIntegerEvent(i)] + rest;
    assert big[0] == BigIntegerEvent(i) && big[1..] == rest;
    if -0x8000_0000_0000_0000 <= i < 0x8000_0000_0000_0000 {
      var long := [LongEvent(i)] + rest;
      assert long[0] == LongEvent(i) && long[1..] == rest;
      BigIntegerStep(h, stack, i);
    }
  }

  /** Within the `long` range one `BigInteger` event steps exactly as the `long` event. */
  lemma BigIntegerStep(h: Host, stack: seq<Frame>, i: Long)
    ensures Step(h, stack, BigIntegerEvent(i)) == Step(h, stack, LongEvent(i))
  {
  }

  // ----- whole values -----

  /** A scalar is written as the serializer writes it, followed by the separator. */
  lemma ScalarRun(h: Host, v: Json, stack: seq<Frame>)
    requires Ready(stack) && !v.Arr? && !v.Obj?
    ensures Take(stack).Success?
    ensures Run(h, stack, Events(v))
         == Success(Output(Canonize(QuotingHost(h), v) + Separator(Take(stack).value), Take(stack).value))
  {
    ReadyTake(stack);
    var t := Take(stack).value;
    var e := Events(v)[0];
    assert Events(v) == [e];
    RunOne(h, stack, e);
    assert Step(h, stack, e) == Success(Output(ScalarText(h, v) + Separator(t), t)) by {
      ScalarStep(h, v, stack);
    }
    ScalarTextIsCanonical(h, v);
  }

  /** The text a handler writes for a scalar before any comma. */
  function ScalarText(h: Host, v: Json): Text
    requires !v.Arr? && !v.Obj?
  {
    match v
    case Null => Ascii("null")
    case True => Ascii("true")
    case False => Ascii("false")
    case Str(s) => Quoted(s)
    case Num(d) => CanonizeNumber(h, d)
  }

  lemma ScalarStep(h: Host, v: Json, stack: seq<Frame>)
    requires Ready(stack) && !v.Arr? && !v.Obj?
    ensures Take(stack).Success?
    ensures Step(h, stack, Events(v)[0]) == Success(Output(ScalarText(h, v) + Separator(Take(stack).value), Take(stack).value))
  {
    ReadyTake(stack);
    match v
    case Null => HandlerStep(h, stack, NullEvent, Ascii("null"));
    case True => HandlerStep(h, stack, BooleanEvent(true), Ascii("true"));
    case False => HandlerStep(h, stack, BooleanEvent(false), Ascii("false"));
    case Str(c) => HandlerStep(h, stack, StringEvent(c), Quoted(c));
    case Num(d) => HandlerStep(h, stack, NumericEvent(d), CanonizeNumber(h, d));
  }

  /** The handler of a scalar event writes the scalar's text, then the separator of the stack the visitor moved to. */
  lemma HandlerStep(h: Host, stack: seq<Frame>, e: Event, text: Text)
    requires Ready(stack)
    requires e == NullEvent ==> text == Ascii("null")
    requires e.BooleanEvent? ==> text == Ascii(if e.b then "true" else "false")
    requires e.StringEvent? ==> text == Quoted(e.s)
    requires e.NumericEvent? ==> text == CanonizeNumber(h, e.d)
    requires e.NullEvent? || e.BooleanEvent? || e.StringEvent? || e.NumericEvent?
    ensures Take(stack).Success?
    ensures Step(h, stack, e) == Success(Output(text + Separator(Take(stack).value), Take(stack).value))
  {
    ReadyTake(stack);
  }

  lemma ScalarTextIsCanonical(h: Host, v: Json)
    requires !v.Arr? && !v.Obj?
    ensures ScalarText(h, v) == Canonize(QuotingHost(h), v)
  {
    assert QuotingHost(h).exponential == h.exponential && QuotingHost(h).plain == h.plain;
  }

  lemma {:induction false} ValueRun(h: Host, v: Json, stack: seq<Frame>)
    requires Ready(stack)
    ensures Take(stack).Success?
    ensures Run(h, stack, Events(v))
         == Success(Output(Canonize(QuotingHost(h), v) + Separator(Take(stack).value), Take(stack).value))
    decreases v, 2
  {
    match v
    case Arr(_) => ArrayRun(h, v, stack);
    case Obj(_) => ObjectRun(h, v, stack);
    case _ => ScalarRun(h, v, stack);
  }

  /** Opening a list or a map writes its bracket and pushes a frame counting its children. */
  lemma BeginRun(h: Host, stack: seq<Frame>, e: Event)
    requires Ready(stack) && (e.BeginListEvent? || e.BeginMapEvent?)
    ensures Take(stack).Success?
    ensures e.BeginListEvent? ==>
      Run(h, stack, [e]) == Success(Output(Ascii("["), [Frame(CollectionNode, e.elements, false)] + Take(stack).value))
    ensures e.BeginMapEvent? ==>
      Run(h, stack, [e]) == Success(Output(Ascii("{"), [Frame(MapNode, e.entries, false)] + Take(stack).value))
  {
    ReadyTake(stack);
    RunOne(h, stack, e);
  }

  /** Closing a finished list or map writes its bracket and the separator, and pops its frame. */
  lemma CloseRun(h: Host, node: NodeType, t: seq<Frame>)
    requires node != OtherNode
    ensures Run(h, [Frame(node, 0, false)] + t, [EndEvent])
         == Success(Output((if node == MapNode then Ascii("}") else Ascii("]")) + Separator(t), t))
  {
    var closed := [Frame(node, 0, false)] + t;
    assert closed[1..] == t;
    EndStep(h, closed);
    RunOne(h, closed, EndEvent);
  }

  /** A part, the comma that follows it when more parts come, and the join of those parts: the join of all of them. */
  lemma JoinAfter(p: Text, rest: seq<Text>, sep: Text)
    requires sep == (if |rest| == 0 then [] else Ascii(","))
    ensures p + sep + Join(rest) == Join([p] + rest)
  {
    JoinCons(p, rest);
    if |rest| == 0 {
      assert p + [] + [] == p;
    } else {
      Associate(p, Ascii(","), Join(rest));
    }
  }

  /** A part run to its separator, then the run of the parts after it: the join of all of them. */
  lemma RunJoin(h: Host, stack: seq<Frame>, x: seq<Event>, y: seq<Event>,
                p: Text, rest: seq<Text>, after: seq<Frame>, end: seq<Frame>)
    requires Run(h, stack, x) == Success(Output(p + Separator(after), after))
    requires Run(h, after, y) == Success(Output(Join(rest), end))
    requires TopHasNext(after) <==> |rest| > 0
    ensures Run(h, stack, x + y) == Success(Output(Join([p] + rest), end))
  {
    RunThen(h, stack, x, y, p + Separator(after), after);
    JoinAfter(p, rest, Separator(after));
  }

  lemma {:induction false} ArrayRun(h: Host, v: Json, stack: seq<Frame>)
    requires Ready(stack) && v.Arr?
    ensures Take(stack).Success?
    ensures Run(h, stack, Events(v))
         == Success(Output(Canonize(QuotingHost(h), v) + Separator(Take(stack).value), Take(stack).value))
    decreases v, 1
  {
    var g := QuotingHost(h);
    var items := v.items;
    ReadyTake(stack);
    var t := Take(stack).value;
    var begin := BeginListEvent(|items|);
    var open := [Frame(CollectionNode, |items|, false)] + t;
    var closed := [Frame(CollectionNode, 0, false)] + t;
    var inner := Join(ItemTexts(g, items));
    BeginRun(h, stack, begin);
    ItemsRun(h, items, t);
    CloseRun(h, CollectionNode, t);
    RunThree(h, stack, [begin], ItemEvents(items), [EndEvent], Ascii("["), open, inner, closed,
             Ascii("]") + Separator(t), t);
    assert Events(v) == [begin] + ItemEvents(items) + [EndEvent];
    ArrayLayout(g, items);
    Associate(Ascii("[") + inner, Ascii("]"), Separator(t));
  }

  /** The elements of a collection, each followed by a comma except the last. */
  lemma {:induction false} ItemsRun(h: Host, items: seq<Json>, t: seq<Frame>)
    ensures Run(h, [Frame(CollectionNode, |items|, false)] + t, ItemEvents(items))
         == Success(Output(Join(ItemTexts(QuotingHost(h), items)), [Frame(CollectionNode, 0, false)] + t))
    decreases items
  {
    var g := QuotingHost(h);
    var stack := [Frame(CollectionNode, |items|, false)] + t;
    if |items| > 0 {
      var after := [Frame(CollectionNode, |items| - 1, false)] + t;
      assert stack[1..] == t;
      assert Take(stack) == Success(after);
      ValueRun(h, items[0], stack);
      ItemsRun(h, items[1..], t);
      var first := Canonize(g, items[0]);
      assert ItemTexts(g, items) == [first] + ItemTexts(g, items[1..]);
      RunJoin(h, stack, Events(items[0]), ItemEvents(items[1..]),
              first, ItemTexts(g, items[1..]), after, [Frame(CollectionNode, 0, false)] + t);
    }
  }

  lemma {:induction false} ObjectRun(h: Host, v: Json, stack: seq<Frame>)
    requires Ready(stack) && v.Obj?
    ensures Take(stack).Success?
    ensures Run(h, stack, Events(v))
         == Success(Output(Canonize(QuotingHost(h), v) + Separator(Take(stack).value), Take(stack).value))
    decreases v, 1
  {
    var g := QuotingHost(h);
    var ms := v.members;
    SortedMembersOf(ms);
    var sorted := SortMembers(ms);
    ReadyTake(stack);
    var t := Take(stack).value;
    var begin := BeginMapEvent(|ms|);
    var open := [Frame(MapNode, |ms|, false)] + t;
    var closed := [Frame(MapNode, 0, false)] + t;
    var inner := Join(MemberTexts(g, sorted));
    BeginRun(h, stack, begin);
    EntriesRun(h, v, sorted, t);
    CloseRun(h, MapNode, t);
    RunThree(h, stack, [begin], EntryEvents(v, sorted), [EndEvent], Ascii("{"), open, inner, closed,
             Ascii("}") + Separator(t), t);
    assert Events(v) == [begin] + EntryEvents(v, sorted) + [EndEvent];
    ObjectLayout(g, ms);
    Associate(Ascii("{") + inner, Ascii("}"), Separator(t));
  }

  /** The entries of a map, each as its key and value, followed by a comma except the last. */
  lemma {:induction false} EntriesRun(h: Host, obj: Json, s: seq<Member>, t: seq<Frame>)
    requires MembersOf(s, obj)
    ensures Run(h, [Frame(MapNode, |s|, false)] + t, EntryEvents(obj, s))
         == Success(Output(Join(MemberTexts(QuotingHost(h), s)), [Frame(MapNode, 0, false)] + t))
    decreases obj, 0, |s|, 1
  {
    var g := QuotingHost(h);
    var stack := [Frame(MapNode, |s|, false)] + t;
    if |s| > 0 {
      var m := s[0];
      var after := [Frame(MapNode, |s| - 1, false)] + t;
      var text := PropertyName(m.key) + Canonize(g, m.value);
      EntryEventsCons(obj, s);
      EntryRun(h, obj, m, |s|, t);
      EntriesRun(h, obj, s[1..], t);
      assert MemberTexts(g, s) == [text] + MemberTexts(g, s[1..]);
      RunJoin(h, stack, [StringEvent(m.key)] + Events(m.value), EntryEvents(obj, s[1..]),
              text, MemberTexts(g, s[1..]), after, [Frame(MapNode, 0, false)] + t);
    }
  }

  /** The events of a non-empty run of entries: the first entry's key and value, then the rest. */
  lemma EntryEventsCons(obj: Json, s: seq<Member>)
    requires MembersOf(s, obj) && |s| > 0
    ensures s[0] in obj.members && MembersOf(s[1..], obj)
    ensures EntryEvents(obj, s) == [StringEvent(s[0].key)] + Events(s[0].value) + EntryEvents(obj, s[1..])
  {
    assert s[0] in s;
  }

  /** One entry of a map with `n` entries left: its key, its value, and a comma when more entries follow. */
  lemma {:induction false} EntryRun(h: Host, obj: Json, m: Member, n: nat, t: seq<Frame>)
    requires obj.Obj? && m in obj.members && 0 < n
    ensures Run(h, [Frame(MapNode, n, false)] + t, [StringEvent(m.key)] + Events(m.value))
         == Success(Output(PropertyName(m.key) + Canonize(QuotingHost(h), m.value)
                           + Separator([Frame(MapNode, n - 1, false)] + t),
                           [Frame(MapNode, n - 1, false)] + t))
    decreases obj, 0, 0, 0
  {
    var stack := [Frame(MapNode, n, false)] + t;
    var due := [Frame(MapNode, n - 1, true)] + t;
    var after := [Frame(MapNode, n - 1, false)] + t;
    var name := PropertyName(m.key);
    var value := Canonize(QuotingHost(h), m.value);
    assert stack[1..] == t && due[1..] == t;
    KeyStep(h, stack, m.key);
    RunOne(h, stack, StringEvent(m.key));
    assert Take(due) == Success(after);
    ValueRun(h, m.value, due);
    RunThen(h, stack, [StringEvent(m.key)], Events(m.value), name, due);
    assert name + (value + Separator(after)) == name + value + Separator(after);
  }

  // ----- the generator and the serializer -----

  /**
   * Fed the traversal of a tree, members in ascending key order, the
   * generator writes exactly what the recursive serializer writes when it
   * writes strings quoted and escaped by `escape`.
   */
  lemma GeneratorMatchesSerializer(h: Host, v: Json)
    ensures Generate(h, Events(v)) == Success(Canonize(QuotingHost(h), v))
  {
    ValueRun(h, v, []);
    assert Canonize(QuotingHost(h), v) + [] == Canonize(QuotingHost(h), v);
  }

  /**
   * Two trees written one after the other, as two calls of `node(...)` on the
   * same writer do, give the two canonical texts back to back, with nothing
   * between them.
   */
  lemma TwoRootsConcatenate(h: Host, v: Json, w: Json)
    ensures Generate(h, Events(v) + Events(w))
         == Success(Canonize(QuotingHost(h), v) + Canonize(QuotingHost(h), w))
  {
    var g := QuotingHost(h);
    ValueRun(h, v, []);
    ValueRun(h, w, []);
    assert Canonize(g, v) + [] == Canonize(g, v) && Canonize(g, w) + [] == Canonize(g, w);
    RunThen(h, [], Events(v), Events(w), Canonize(g, v), []);
  }

  /** A list whose element is visited but which is never ended leaves the generator in an inconsistent state. */
  lemma UnclosedListFails(h: Host)
    ensures Generate(h, [BeginListEvent(1), NullEvent]) == Failure(IllegalState)
  {
    var open := [Frame(CollectionNode, 1, false)];
    var done := [Frame(CollectionNode, 0, false)];
    BeginRun(h, [], BeginListEvent(1));
    assert [Frame(CollectionNode, 1, false)] + Take([]).value == open;
    assert open[1..] == [] && [Frame(CollectionNode, 0, false)] + open[1..] == done;
    assert Take(open) == Success(done);
    var view := View(CollectionElement, OtherNode, false);
    assert DetectNext(view) == [];
    assert Step(h, open, NullEvent) == Success(Output(NullValue(view), done));
    RunOne(h, open, NullEvent);
    RunThen(h, [], [BeginListEvent(1)], [NullEvent], Ascii("["), open);
    assert [BeginListEvent(1)] + [NullEvent] == [BeginListEvent(1), NullEvent];
  }

  /** The generator's text does not depend on the order an object's members were given in. */
  lemma GeneratorIgnoresMemberOrder(h: Host, ms: seq<Member>, ms': seq<Member>)
    requires UniqueKeys(ms) && multiset(ms) == multiset(ms')
    ensures Generate(h, Events(Obj(ms))) == Generate(h, Events(Obj(ms')))
  {
    GeneratorMatchesSerializer(h, Obj(ms));
    GeneratorMatchesSerializer(h, Obj(ms'));
    MemberOrderIrrelevant(QuotingHost(h), ms, ms');
  }
}
