/**
 * `com.apicatalog.jcs.JcsGenerator`: a streaming generator driven by the
 * events of a tree traversal. Its handlers see the visitor only through the
 * current node's context and type and through whether the iterator on top of
 * the visitor's stack has a next element.
 *
 * The visitor itself belongs to a library this model does not open up. It is
 * modelled here by a stack of frames that count the children a container has
 * left, and by the event stream `Events` a traversal produces, with the
 * members of every object visited in ascending key order.
 */
module JcsGenerator {
  import opened Wrappers
  import opened Utf16
  import opened Decimals
  import opened Json
  import opened Jcs
  import opened JcsLemmas

  /** The node types `end()` tells apart; every other type of node is `OtherNode`. */
  datatype NodeType = MapNode | CollectionNode | OtherNode

  /** Where the node being visited sits: the root, a key or a value of a map entry, an element of a collection. */
  datatype Context = Root | PropertyKey | PropertyValue | CollectionElement

  /**
   * What a handler reads of the visitor: the current node's context and type,
   * and whether the stack's top is an iterator with a next element (false
   * when the stack is empty).
   */
  datatype View = View(context: Context, nodeType: NodeType, topHasNext: bool)

  /**
   * The failures of generation: `IllegalStateException` from `end()`,
   * `UnsupportedOperationException` from `binaryValue`, the
   * `ArithmeticException` of a `BigInteger` outside the `long` range, and
   * `Malformed` for an event that breaks the count of the container it is
   * in: an end before the last child, a child past the last, or an end with
   * no container open. Several complete root values in a row are not
   * malformed: they are what calling `node(...)` again on the same writer
   * produces.
   */
  datatype Fault = IllegalState | Unsupported | Arithmetic | Malformed

  /** A Java `long`. */
  type Long = n: int | -0x8000_0000_0000_0000 <= n < 0x8000_0000_0000_0000

  // ----- the handlers -----

  function BeginMap(): Text { Ascii("{") }

  function BeginList(): Text { Ascii("[") }

  function BeginSet(): Text { Ascii("[") }

  /** `end()`: closes the current map or collection, then a comma when the enclosing iterator has more. */
  function End(view: View): Result<Text, Fault>
  {
    if view.nodeType == MapNode then Success(Ascii("}") + (if view.topHasNext then Ascii(",") else []))
    else if view.nodeType == CollectionNode then Success(Ascii("]") + (if view.topHasNext then Ascii(",") else []))
    else Failure(IllegalState)
  }

  /** `detectNext`: a comma after an element or a property value whose iterator has more. */
  function DetectNext(view: View): Text
  {
    if (view.context == CollectionElement || view.context == PropertyValue) && view.topHasNext then Ascii(",")
    else []
  }

  function NullValue(view: View): Text
  {
    Ascii("null") + DetectNext(view)
  }

  function BooleanValue(view: View, node: bool): Text
  {
    Ascii(if node then "true" else "false") + DetectNext(view)
  }

  /** A string in quotes, escaped by `Jcs.escape`. */
  function Quoted(s: Text): Text
  {
    Ascii("\"") + Escape(s) + Ascii("\"")
  }

  /** `stringValue`: a key is followed by a colon, any other string by `detectNext`. */
  function StringValue(view: View, node: Text): Text
  {
    Quoted(node) + (if view.context == PropertyKey then Ascii(":") else DetectNext(view))
  }

  /** `numericValue(BigDecimal)`. */
  function NumericValue(h: Host, view: View, node: Decimal): Text
  {
    CanonizeNumber(h, node) + DetectNext(view)
  }

  /** `numericValue(long)`: the long as a decimal of scale zero. */
  function LongValue(h: Host, view: View, node: Long): Text
  {
    NumericValue(h, view, Decimal(node, 0))
  }

  /** `numericValue(BigInteger)`: through `longValueExact`, which fails outside the `long` range. */
  function BigIntegerValue(h: Host, view: View, node: int): Result<Text, Fault>
  {
    if -0x8000_0000_0000_0000 <= node < 0x8000_0000_0000_0000 then Success(LongValue(h, view, node))
    else Failure(Arithmetic)
  }

  /** `binaryValue`: unsupported. */
  function BinaryValue(view: View, node: seq<bv8>): Result<Text, Fault>
  {
    Failure(Unsupported)
  }

  // ----- the visitor -----

  /**
   * An open container on the visitor's stack: its node type, how many of its
   * children (elements, or entries of a map) are left, and for a map whether
   * the key of the current entry was visited and its value is due.
   */
  datatype Frame = Frame(node: NodeType, remaining: nat, valueDue: bool)

  /** The events a traversal delivers; a container's event carries its number of children. */
  datatype Event =
    | BeginMapEvent(entries: nat)
    | BeginListEvent(elements: nat)
    | BeginSetEvent(elements: nat)
    | EndEvent
    | NullEvent
    | BooleanEvent(b: bool)
    | StringEvent(s: Text)
    | NumericEvent(d: Decimal)
    | LongEvent(n: Long)
    | BigIntegerEvent(i: int)
    | BinaryEvent(bytes: seq<bv8>)

  /** The text written so far and the visitor's stack (top first). */
  datatype Output = Output(text: Text, stack: seq<Frame>)

  function ContextOf(stack: seq<Frame>): Context
  {
    if |stack| == 0 then Root
    else if stack[0].node == MapNode then (if stack[0].valueDue then PropertyValue else PropertyKey)
    else CollectionElement
  }

  function TopHasNext(stack: seq<Frame>): bool
  {
    |stack| > 0 && stack[0].remaining > 0
  }

  /**
   * The visitor moves to the next node of the top frame: a map's key starts
   * a new entry and its value completes it; a collection's element uses one
   * of its remaining children.
   */
  function Take(stack: seq<Frame>): Result<seq<Frame>, Fault>
  {
    if |stack| == 0 then Success([])
    else if stack[0].node == MapNode && stack[0].valueDue then
      Success([Frame(MapNode, stack[0].remaining, false)] + stack[1..])
    else if stack[0].remaining == 0 then Failure(Malformed)
    else if stack[0].node == MapNode then Success([Frame(MapNode, stack[0].remaining - 1, true)] + stack[1..])
    else Success([Frame(stack[0].node, stack[0].remaining - 1, false)] + stack[1..])
  }

  /** One event: the visitor updates its stack and calls the matching handler. */
  function Step(h: Host, stack: seq<Frame>, e: Event): Result<Output, Fault>
  {
    if e.EndEvent? then
      if |stack| == 0 || stack[0].remaining != 0 || stack[0].valueDue then Failure(Malformed)
      else
        var text :- End(View(ContextOf(stack[1..]), stack[0].node, TopHasNext(stack[1..])));
        Success(Output(text, stack[1..]))
    else
      var next :- Take(stack);
      var view := View(ContextOf(stack), OtherNode, TopHasNext(next));
      match e
      case BeginMapEvent(n) => Success(Output(BeginMap(), [Frame(MapNode, n, false)] + next))
      case BeginListEvent(n) => Success(Output(BeginList(), [Frame(CollectionNode, n, false)] + next))
      case BeginSetEvent(n) => Success(Output(BeginSet(), [Frame(CollectionNode, n, false)] + next))
      case NullEvent => Success(Output(NullValue(view), next))
      case BooleanEvent(b) => Success(Output(BooleanValue(view, b), next))
      case StringEvent(s) => Success(Output(StringValue(view, s), next))
      case NumericEvent(d) => Success(Output(NumericValue(h, view, d), next))
      case LongEvent(n) => Success(Output(LongValue(h, view, n), next))
      case BigIntegerEvent(i) =>
        var text :- BigIntegerValue(h, view, i);
        Success(Output(text, next))
      case BinaryEvent(bytes) =>
        match BinaryValue(view, bytes)
        case Success(text) => Success(Output(text, next))
        case Failure(f) => Failure(f)
  }

  /** A sequence of events, each written after the text of the ones before. */
  function Run(h: Host, stack: seq<Frame>, events: seq<Event>): Result<Output, Fault>
    decreases |events|
  {
    if |events| == 0 then Success(Output([], stack))
    else
      var first :- Step(h, stack, events[0]);
      var rest :- Run(h, first.stack, events[1..]);
      Success(Output(first.text + rest.text, rest.stack))
  }

  /**
   * `node(...)`: the generator fed the traversal of a whole tree, from an
   * empty stack. A traversal that leaves a container open ends the
   * generator in an inconsistent state, which `node(...)` reports as an
   * illegal state.
   */
  function Generate(h: Host, events: seq<Event>): Result<Text, Fault>
  {
    var out :- Run(h, [], events);
    if out.stack != [] then Failure(IllegalState) else Success(out.text)
  }

  // ----- the traversal of a tree -----

  /** The events of a traversal of `v`, the members of every object in ascending key order. */
  function Events(v: Json): seq<Event>
    decreases v, 1
  {
    match v
    case Null => [NullEvent]
    case True => [BooleanEvent(true)]
    case False => [BooleanEvent(false)]
    case Str(s) => [StringEvent(s)]
    case Num(d) => [NumericEvent(d)]
    case Arr(items) => [BeginListEvent(|items|)] + ItemEvents(items) + [EndEvent]
    case Obj(ms) =>
      SortedMembersOf(ms);
      [BeginMapEvent(|ms|)] + EntryEvents(v, SortMembers(ms)) + [EndEvent]
  }

  function ItemEvents(items: seq<Json>): seq<Event>
    decreases items
  {
    if |items| == 0 then [] else Events(items[0]) + ItemEvents(items[1..])
  }

  /** Every entry of `obj` in `s` as its key followed by its value. */
  function EntryEvents(obj: Json, s: seq<Member>): seq<Event>
    requires MembersOf(s, obj)
    decreases obj, 0, |s|
  {
    if |s| == 0 then []
    else
      assert s[0] in s;
      [StringEvent(s[0].key)] + Events(s[0].value) + EntryEvents(obj, s[1..])
  }

  /** The host under which the serializer writes strings as the generator does: quoted and escaped by `escape`. */
  function QuotingHost(h: Host): Host
  {
    h.(stringToString := Quoted)
  }
}
