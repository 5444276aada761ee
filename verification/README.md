# JSON Canonicalization Scheme (RFC 8785) in titanium-jcs: a Dafny model

This project models the canonicalization core of titanium-jcs, a Java
implementation of the JSON Canonicalization Scheme (JCS, RFC 8785). It covers
three classes:

- `Jcs`: the recursive serializer (`canonize`, `canonizeArray`,
  `canonizeObject`), the number rule (`canonizeNumber`), the string escaper
  (`escape`) and canonical equality (`equals`, `numberEquals`, `arrayEquals`,
  `objectEquals`);
- `JsonCanonicalizer`: a second copy of the serializer, written as methods that
  append to a writer;
- `JcsGenerator`: the streaming generator. A tree traversal drives it through
  events (`beginMap`, `beginList`, `beginSet`, `end`, the scalar handlers).
  It decides commas by peeking at the iterator on top of the visitor's stack.

The modules follow that structure:

| file | module | models |
|---|---|---|
| `wrappers.dfy` | `Wrappers` | `Option` and `Result` |
| `utf16.dfy` | `Utf16` | Java strings as UTF-16 code units; `codePoints()`, `appendCodePoint`, `compareTo`, `replace`, `toLowerCase` |
| `decimals.dfy` | `Decimals` | `BigDecimal` as an unscaled integer and a scale; `compareTo` proved to compare by value |
| `escaping.dfy` | `Escaping` | the escaping of one UTF-16 unit, and its inverse |
| `json.dfy` | `Json` | the JSON-P value model, and `Collections.sort` over member keys |
| `jcs.dfy` | `Jcs` | `Jcs.java` as pure functions |
| `jcs_lemmas.dfy` | `JcsLemmas` | properties of the serializer and of canonical equality |
| `json_canonicalizer.dfy` | `JsonCanonicalizer` | `JsonCanonicalizer.java` as methods with loops, each proved to write what `Jcs` computes |
| `generator.dfy` | `JcsGenerator` | the handlers of `JcsGenerator.java`, a stack machine for the visitor, and the event stream of a tree |
| `generator_lemmas.dfy` | `GeneratorLemmas` | the generator fed the events of any tree writes what the serializer writes |

**Strings.** A string is a sequence of UTF-16 code units (`Text`), so unpaired
surrogates can be represented. `escape` decodes the string into code points and
escapes each one. It is proved to equal escaping each code unit on its own
(`Jcs.EscapeIsPerUnit`). Escaping is proved injective and invertible.

**Numbers.** A number is a `Decimal(unscaled, scale)`, whose value is
`unscaled / 10^scale`. The two `DecimalFormat` instances and
`JsonString.toString()` are library code whose output the model does not
compute. They are fields of a `Host` value that every operation takes as a
parameter, and no theorem assumes anything about a formatter's output
unless it states the assumption (`ValueBased`, `QuotingHost`). The parts of
`canonizeNumber` the code itself performs are modelled concretely:

- the three comparisons against 0, 10^21 and 10^-21;
- `replace("E", "e+")`;
- `toLowerCase()`.

**Differences between the code and RFC 8785.** The model follows the code in
each of these:

- `escape` also writes U+007F as `\u007f`.
- `canonizeNumber` compares the signed value against 10^-21. So every negative
  number takes the lower-cased exponent branch, not the plain one.
  `Jcs.CanonizeNumber` states this, and `GeneratorLemmas.LongRule` states it
  for `long` values.
- `JcsGenerator` calls a `Jcs.canonizeNumber(BigDecimal)`, but `Jcs.java` as
  modelled declares only the `JsonNumber` overload. Both are modelled by the
  one function `Jcs.CanonizeNumber`, which takes a decimal.
- The tests call `Jcs.canonize` and `Jcs.equals` with a tree adapter. Those
  overloads are not part of this model.

**The generator.** The traversal that drives `JcsGenerator` lives in a tree
library this model does not open up. It is modelled by two things:

- a stack of frames, each counting the children its container has left
  (`Step`, `Run`);
- the event stream `Events(v)` that a traversal of a tree `v` produces, with
  every map's entries in ascending key order.

`Generate` runs a whole stream from an empty stack. A stream that breaks a
frame's count (an end before the last child, a child past the last, an end
with nothing open) is malformed. A stream that ends with a container still
open fails with an illegal state, the exception `node(...)` documents for an
inconsistent end state. Nothing in `JcsGenerator` stops a second root value:
the writer is kept between calls of `node(...)`, so a stream of two complete
trees writes their two canonical texts back to back
(`GeneratorLemmas.TwoRootsConcatenate`).

The headline theorem is `GeneratorLemmas.GeneratorMatchesSerializer`. For every
tree `v`, the generator run on `Events(v)` succeeds, and it writes exactly
`Jcs.canonize(v)`. That holds whenever a string's `toString()` is the string
quoted and escaped by `escape` (`QuotingHost`).

## Model

| member | source | states |
|---|---|---|
| Utf16.EncodeCodePoints | src/main/java/com/apicatalog/jcs/Jcs.java:282-311 | Decoding a string into code points and appending each code point back gives the same string. Surrogate pairs are combined and unpaired surrogates kept. |
| Utf16.CompareTo | src/main/java/com/apicatalog/jcs/Jcs.java:244 | `String.compareTo` is zero exactly when the strings are equal. The empty string compares below every longer one. |
| Utf16.BelowTotal | src/main/java/com/apicatalog/jcs/Jcs.java:244 | The order used to sort keys puts any two distinct strings one way or the other, never both ways. |
| Utf16.BelowTransitive | src/main/java/com/apicatalog/jcs/Jcs.java:244 | The order used to sort keys is transitive. |
| Utf16.Replace | src/main/java/com/apicatalog/jcs/Jcs.java:179 | After `replace("E", "e+")` no `E` remains, text without an `E` is unchanged, and nothing gets shorter. |
| Utf16.ReplaceAppend | src/main/java/com/apicatalog/jcs/Jcs.java:179 | Replacing distributes over concatenation. |
| Utf16.ToLowerCase | src/main/java/com/apicatalog/jcs/Jcs.java:183 | Lower-casing keeps the length, leaves no upper-case ASCII letter, maps each upper-case letter to its lower-case letter, and keeps every other unit. |
| Utf16.ToLowerCaseIdempotent | src/main/java/com/apicatalog/jcs/Jcs.java:183 | Lower-casing twice is lower-casing once. |
| Decimals.CompareToMeansValue | src/main/java/com/apicatalog/jcs/Jcs.java:174-182 | `BigDecimal.compareTo` is negative, zero or positive exactly when the first value is below, equal to or above the second, whatever the scales. |
| Decimals.CompareToZero | src/main/java/com/apicatalog/jcs/Jcs.java:174 | A decimal compares equal to zero exactly when its unscaled value is zero. |
| Decimals.ThresholdValues | src/main/java/com/apicatalog/jcs/Jcs.java:178-182 | `ONE.movePointRight(21)` is worth 10^21 and `ONE.movePointLeft(21)` is worth 10^-21. |
| Decimals.NegativeBelowPositive | src/main/java/com/apicatalog/jcs/Jcs.java:182 | Every negative decimal compares below every positive one, 10^-21 included. |
| Escaping.EscapeUnit | src/main/java/com/apicatalog/jcs/Jcs.java:286-311 | Tab, backspace, newline, carriage return, form feed, quote and backslash get their two-character escapes. Other C0 controls and DEL get `\u` and four lower-case hex digits. Every other unit is copied. |
| Escaping.Hex4 | src/main/java/com/apicatalog/jcs/Jcs.java:307-308 | The four digits of `%04x` are lower-case hex digits that read back as the unit's value. |
| Escaping.UnescapeEscape | src/main/java/com/apicatalog/jcs/Jcs.java:278-315 | Escaping loses nothing: reading the escapes back gives the original string. |
| Escaping.EscapeUnitsInjective | src/main/java/com/apicatalog/jcs/Jcs.java:421 | Two strings have equal escapes exactly when they are equal. |
| Escaping.EscapeUnitsAppend | src/main/java/com/apicatalog/jcs/Jcs.java:284-313 | Each code point's escape is appended to the builder in turn, so escaping a concatenation gives the concatenation of the two escapes. |
| Escaping.EscapeUnitsIdentity | src/main/java/com/apicatalog/jcs/Jcs.java:310-311 | Escaping leaves a string unchanged exactly when none of its units needs escaping, and it never shortens a string. |
| Escaping.EscapeUnitsHasNoControl | src/main/java/com/apicatalog/jcs/Jcs.java:307-308 | No escaped string contains a control character or DEL. |
| Json.SortMembersSpec | src/main/java/com/apicatalog/jcs/Jcs.java:242-244 | Sorting yields the members in ascending key order, and is a permutation of them. |
| Json.SortIgnoresOrder | src/main/java/com/apicatalog/jcs/Jcs.java:239-244 | With unique keys, the sorted members do not depend on the order the object lists them in. |
| Json.SortedMembersOf | src/main/java/com/apicatalog/jcs/Jcs.java:246-256 | Every sorted key belongs to the object, so `value.get(propertyName)` finds its member. |
| Jcs.EscapeCodePointIsUnit | src/main/java/com/apicatalog/jcs/Jcs.java:286-308 | On a code point of the Basic Multilingual Plane, the chain of cases in `escape` is the per-unit escape. |
| Jcs.EscapePair | src/main/java/com/apicatalog/jcs/Jcs.java:310-311 | A supplementary code point is re-encoded as the surrogate pair it was decoded from. |
| Jcs.EscapeIsPerUnit | src/main/java/com/apicatalog/jcs/Jcs.java:278-315 | `escape` over code points equals escaping every UTF-16 unit on its own. |
| Jcs.CanonizeNumber | src/main/java/com/apicatalog/jcs/Jcs.java:173-187 | Zero of any scale is written `0`. A negative number is always the lower-cased exponent form. |
| JcsLemmas.CanonizeNumberByValue | src/main/java/com/apicatalog/jcs/Jcs.java:173-187 | By value: 0 gives `0`. At least 10^21 gives the exponent form with `E` replaced by `e+`. A nonzero value up to 10^-21 gives the lower-cased exponent form. Anything in between gives the plain form. |
| JcsLemmas.CanonizeNumberExponentCase | src/main/java/com/apicatalog/jcs/Jcs.java:178-184 | Whatever the formatter writes, the text for a value of at least 10^21 holds no `E`, and the text for a value up to 10^-21 holds no upper-case ASCII letter. |
| JcsLemmas.CanonizeNumberSameValue | src/main/java/com/apicatalog/jcs/Jcs.java:380-382 | With formatters that depend only on the value, `1`, `1.0` and `1.00` get the same text and so are equal numbers. |
| JcsLemmas.PositiveIntegerIsPlain | src/main/java/com/apicatalog/jcs/Jcs.java:186 | A positive integer below 10^21 takes the plain form. |
| JcsLemmas.NullReference | src/main/java/com/apicatalog/jcs/Jcs.java:133-138 | A null reference and a JSON null are both written `null`. |
| JcsLemmas.ArrayLayout | src/main/java/com/apicatalog/jcs/Jcs.java:202-219 | An array is `[`, its items' texts in order joined by commas, then `]`. |
| JcsLemmas.ObjectLayout | src/main/java/com/apicatalog/jcs/Jcs.java:234-265 | An object is `{`, then its members in ascending key order, each written `"key":value` and joined by commas, then `}`. |
| JcsLemmas.EmptyContainers | src/main/java/com/apicatalog/jcs/Jcs.java:237-264 | The empty array is `[]` and the empty object is `{}`. |
| JcsLemmas.MemberOrderIrrelevant | src/main/java/com/apicatalog/jcs/Jcs.java:239-246 | The text of an object with unique keys does not depend on the order of its members. |
| JcsLemmas.ExampleOrder | src/main/java/com/apicatalog/jcs/Jcs.java:244 | Members keyed `b` then `a` are sorted to `a` then `b`. |
| JcsLemmas.ExampleItems | src/main/java/com/apicatalog/jcs/Jcs.java:202-219 | Items written `2` and `3` make the array `[2,3]`. |
| JcsLemmas.ExampleObject | src/main/java/com/apicatalog/jcs/Jcs.java:234-265 | `{"b":1,"a":[2,3]}` is written `{"a":[2,3],"b":1}`. |
| JcsLemmas.EqualsRules | src/main/java/com/apicatalog/jcs/Jcs.java:331-365 | Two null references are equal, and a null reference equals exactly a JSON null. Different types are never equal. Strings are equal exactly when their contents are. Numbers are equal exactly when their canonical texts are. Arrays or objects of different sizes are not equal. |
| JcsLemmas.ArrayElementwise | src/main/java/com/apicatalog/jcs/Jcs.java:429-459 | Two arrays are canonically equal exactly when they have the same length and the elements at every position are canonically equal. |
| JcsLemmas.ObjectElementwise | src/main/java/com/apicatalog/jcs/Jcs.java:384-427 | Two objects are canonically equal exactly when they have the same number of members and, with both sorted by name, the members at every position have equal escaped names (equivalently, equal names) and canonically equal values. |
| JcsLemmas.ExampleUnequalObjects | src/main/java/com/apicatalog/jcs/Jcs.java:416-423 | The object with `a` bound to the string `"1"` and `b` to `2` is not equal to the one with `a` bound to the number `1`, whatever order the members were given in. |
| JcsLemmas.EscapedKeysEqual | src/main/java/com/apicatalog/jcs/Jcs.java:421 | Comparing escaped keys is comparing the keys. |
| JcsLemmas.EqualsReflexive | src/main/java/com/apicatalog/jcs/Jcs.java:331-459 | Every value is canonically equal to itself. |
| JcsLemmas.EqualsSymmetric | src/main/java/com/apicatalog/jcs/Jcs.java:331-459 | Canonical equality does not depend on the order of its arguments. |
| JcsLemmas.EqualsSameText | src/main/java/com/apicatalog/jcs/Jcs.java:317-324 | Canonically equal values have the same canonical text. |
| JcsLemmas.SameTextNotEqual | src/main/java/com/apicatalog/jcs/Jcs.java:340-342 | A number and `null` are never equal, as their types differ, even under a host whose formatter writes that number as `null`, so that the two canonical texts coincide. |
| JcsLemmas.EqualsIgnoresMemberOrder | src/main/java/com/apicatalog/jcs/Jcs.java:398-427 | Two orderings of the same members with unique keys are canonically equal objects. |
| JsonCanonicalizer.EscapeAllCodePoints | src/main/java/com/apicatalog/jcs/JsonCanonicalizer.java:260-291 | Escaping the decoded code points one after another gives `Jcs.escape`. |
| JsonCanonicalizer.AppendEscape | src/main/java/com/apicatalog/jcs/JsonCanonicalizer.java:264-290 | The chain of cases on one code point appends the escape of its unit when the code point is in the Basic Multilingual Plane, its surrogate pair otherwise, and the same text as `Jcs.escape` in every case. |
| JsonCanonicalizer.Escape | src/main/java/com/apicatalog/jcs/JsonCanonicalizer.java:256-293 | The loop builds exactly `Jcs.escape` of its input, which is the per-unit escape. |
| JsonCanonicalizer.CanonizeNumber | src/main/java/com/apicatalog/jcs/JsonCanonicalizer.java:147-165 | It appends to the writer exactly the text `Jcs.canonizeNumber` returns. |
| JsonCanonicalizer.Canonize | src/main/java/com/apicatalog/jcs/JsonCanonicalizer.java:103-132 | It appends to the writer exactly the text `Jcs.canonize` writes, null references included. |
| JsonCanonicalizer.CanonizeString | src/main/java/com/apicatalog/jcs/JsonCanonicalizer.java:72-83 | It returns exactly the text `Jcs.canonize` returns. |
| JsonCanonicalizer.CanonizeArray | src/main/java/com/apicatalog/jcs/JsonCanonicalizer.java:180-197 | The loop appends `[`, the items with commas between them, then `]`: the array's canonical text. |
| JsonCanonicalizer.CanonizeObject | src/main/java/com/apicatalog/jcs/JsonCanonicalizer.java:212-243 | It appends the object's canonical text, and `{}` for an empty object. |
| JsonCanonicalizer.WriteProperties | src/main/java/com/apicatalog/jcs/JsonCanonicalizer.java:224-239 | The loop over the sorted keys appends every property with commas between them. |
| JsonCanonicalizer.WriteProperty | src/main/java/com/apicatalog/jcs/JsonCanonicalizer.java:226-238 | One pass writes the comma when a property came before, then `"`, the escaped key, `":` and the value. |
| GeneratorLemmas.CommaRule | src/main/java/com/apicatalog/jcs/JcsGenerator.java:220-226 | A value at the top level gets no comma. In a collection, a value gets a comma exactly when another element follows. In a map, it gets one exactly when another entry follows. |
| GeneratorLemmas.KeyStep | src/main/java/com/apicatalog/jcs/JcsGenerator.java:159-173 | A map key is written as `"`, the escaped key and `":`, the property name the serializer writes, and its value becomes due. |
| GeneratorLemmas.EndStep | src/main/java/com/apicatalog/jcs/JcsGenerator.java:113-135 | Ending a finished map writes `}` and ending a finished collection writes `]`. A comma follows when the enclosing iterator has more, and the frame is popped. |
| GeneratorLemmas.EndHandler | src/main/java/com/apicatalog/jcs/JcsGenerator.java:114-130 | `end()` fails with an illegal state exactly when the current node is neither a map nor a collection. Otherwise it writes `}` for a map or `]` for a collection, then a `,` exactly when the top iterator has a next element. |
| GeneratorLemmas.SetLikeList | src/main/java/com/apicatalog/jcs/JcsGenerator.java:87-105 | A set begins exactly as a list does. |
| GeneratorLemmas.BinaryFails | src/main/java/com/apicatalog/jcs/JcsGenerator.java:215-218 | Generation fails at binary data. |
| GeneratorLemmas.LongRule | src/main/java/com/apicatalog/jcs/JcsGenerator.java:175-213 | A `long` is written as the decimal of that value: zero as `0`, a positive one in the plain form, a negative one in the lower-cased exponent form, each followed by the separator. |
| GeneratorLemmas.BigIntegerLikeLong | src/main/java/com/apicatalog/jcs/JcsGenerator.java:184-192 | A `BigInteger` in the `long` range runs exactly as that `long`. Outside that range, generation stops with an arithmetic failure. |
| GeneratorLemmas.ScalarRun | src/main/java/com/apicatalog/jcs/JcsGenerator.java:137-213 | A null, boolean, string or number is written as the serializer writes it, followed by the comma its position calls for. |
| GeneratorLemmas.ItemsRun | src/main/java/com/apicatalog/jcs/Jcs.java:207-216 | The generator writes a collection's elements joined by commas, exactly as the serializer's loop does, and consumes the frame's whole count. |
| GeneratorLemmas.EntriesRun | src/main/java/com/apicatalog/jcs/Jcs.java:246-261 | The generator writes a map's sorted entries as the serializer's properties, joined by commas, and consumes the frame's whole count. |
| GeneratorLemmas.ValueRun | src/main/java/com/apicatalog/jcs/JcsGenerator.java:73-226 | From any position where a value may come, the events of a tree write its canonical text, then the comma its position calls for. |
| GeneratorLemmas.GeneratorMatchesSerializer | src/main/java/com/apicatalog/jcs/JcsGenerator.java:63-66 | The generator fed the traversal of any tree succeeds and writes exactly `Jcs.canonize` of it. |
| GeneratorLemmas.UnclosedListFails | src/main/java/com/apicatalog/jcs/JcsGenerator.java:59-61 | A stream that opens a list, visits its one element and never ends it leaves the generator in an inconsistent state, and generation fails with an illegal state. |
| GeneratorLemmas.TwoRootsConcatenate | src/main/java/com/apicatalog/jcs/JcsGenerator.java:41-66 | Two trees written one after the other on the same writer give exactly their two canonical texts, back to back. |
| GeneratorLemmas.GeneratorIgnoresMemberOrder | src/main/java/com/apicatalog/jcs/JcsGenerator.java:63-65 | Because entries are visited by key, the generator's output for an object with unique keys does not depend on the order of its members. |

## Left out

- Writers and `IOException`: a writer is the text written so far. The `canonize(value)` overloads are modelled by `Jcs.CanonizeRef` and `JsonCanonicalizer.CanonizeString`. Only their catching of `IOException` and its wrapping into `TreeIOException` are left out, because appending to a string cannot fail.
- `DecimalFormat`, with patterns "0E00" and "0.#######", and its two static instances: their output is the `Host` parameter's `exponential` and `plain` fields, not computed. The thresholds and the `replace`/`toLowerCase` steps around them are modelled. Whether shared formatter instances are thread-safe is outside a sequential model.
- `JsonString.toString()` is the `Host` field `stringToString`. The literals `true`, `false` and `null` are taken as their own text. The generator theorem uses `QuotingHost`, which assumes `toString()` writes the string quoted and escaped by `escape`. JSON-P's own escaping is not part of this model.
- `numericValue(double)`: floating point is not modelled.
- `JcsGenerator.BigIntegerValue`: `longValueExact` throws an `ArithmeticException`, which the `NumberFormatException` handler does not catch. It is modelled only as the failure `Arithmetic`.
- The tree library's `Visitor`, `TreeAdapter`, `TreeIO.comparingStringKeys` and `root(...).traverse`: they are replaced by the frame stack and by `Events`. `Events` visits map entries in ascending key order, by the same sort the serializer uses.
- `JcsGenerator.Generate`: every call of `node(...)` is taken to start from an empty stack; whether `root(...)` clears a stack a failed earlier call left behind lies in the tree library, which is not part of this model.
- `JcsGenerator.Step`: the `instanceof Iterator` test on the stack's top is always true in this model, because every frame is an iterator over children. Scalars are handled with the node type `OtherNode`, which only `end()` reads.
- `features()` returns null and carries no behaviour.
- The test classes and `package-info.java`: they hold no behaviour of the core.
- `Utf16.ToLowerCase`: it lower-cases ASCII letters only. The exponent strings it is applied to are ASCII, but full Unicode case mapping is not modelled.
- `Json.SortMembers`: `Collections.sort` is modelled as an insertion sort. Every sorting algorithm gives the same result on keys that are unique, as JSON-P keys are.
- `Jcs.Properties` and `Jcs.ObjectEqualsFrom` iterate over the sorted members themselves, not over keys followed by `get(key)`. `Json.SortedMembersOf` shows each sorted member belongs to the object.
- `JcsLemmas.EqualsSameText`: only one direction is proved, from canonical equality to equal text. The converse does not hold for every host, because the formatter and `toString()` outputs are opaque: a formatter may write a number as `null`, as `JcsLemmas.SameTextNotEqual` shows. The converse would need outputs that never read as other JSON text, an injective `stringToString`, and a proof that canonical text parses in one way only. None of these is stated.
- `JsonCanonicalizer.WriteProperties` and `JsonCanonicalizer.WriteProperty`: the loop of `canonizeObject` and the body of that loop are separate methods, to keep each proof small. Together they do what the one Java method does.
