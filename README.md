# Metric identity (Yuvi tag store)

This project models `com.pinterest.yuvi.tagstore.Metric` in Dafny. A `Metric` is the
identity of one time series. It holds three things:

- a metric name;
- the tags parsed from a list of raw `key=value` strings;
- `fullMetricName`, a canonical key: the name, then each distinct trimmed raw tag in
  `String.compareTo` order, each preceded by one space.

The constructor works in three steps. It rejects a blank name. It parses every non-null,
non-empty raw tag, trimmed, with `Tag.parseTag`, and any failure aborts the construction.
Then it builds the key from a `TreeSet` of the trimmed raw tags.

Modules:

- `Wrappers` (`wrappers.dfy`): `Option`.
- `JavaStrings` (`java_strings.dfy`): the `java.lang` and commons-lang behaviour the class
  uses. That is `Character.isWhitespace` (behind `StringUtils.isBlank`), `String.trim`
  (strips characters up to U+0020) and `String.compareTo`, proved to be a strict total order.
- `SortedSet` (`sorted_set.dfy`): a `TreeSet<String>` seen as its iteration order, a
  strictly ascending sequence. `Insert` models `add`. `AscendingUnique` proves that the
  iteration order depends only on the set of elements.
- `Metrics` (`metric.dfy`): the data model, the specification functions, and the methods.
  The methods are `ParseTags`, `GetFullMetricName` and `NewMetric` (the constructor). The
  loops sit in `ParseTags` and in the two helpers `GetFullMetricName` calls:
  `CollectSortedTags` fills the tree set and `AppendTags` runs the builder. Those three carry
  the loop invariants. Each method is proved equal to its specification function. `Metric` is immutable, so it is a datatype. The
  constructor's two `IllegalArgumentException`s become the `Fail` cases of `Result`.
- `MetricProperties` (`metric_properties.dfy`): lemmas about the key and the construction.

The tag parser is a parameter (`TagParser = string -> Option<Tag>`). `None` stands for the
exception it throws. A raw tag is an `Option<string>`, and `None` is a null list element.

Where the code and a natural reading of the class disagree, the model follows the code:

- A whitespace-only raw tag such as `"  "` is not skipped. It passes the non-empty test, is
  trimmed to `""`, is given to the parser, and adds a lone separator to the key
  (`WhitespaceTagKept`).
- The empty-key branch tests whether the raw list is empty, not whether the set is. The
  key is still the bare name whenever no raw tag is present (`FullNameIsNameIff`).
- Two whitespace notions are used: `Character.isWhitespace` for the name and "code point
  at most U+0020" for trimming.
- The comment on `fullMetricName` says the key uniquely identifies a metric. That holds if
  neither the name nor the tags contain a space (`FullNameInjective`). Without that
  restriction it fails. The name `"cpu x=1"` with no tags has the same key as the name
  `"cpu"` with the tag `"x=1"` (`FullNameCollision`, `ExampleCollision`).

## Model

| member | source | states |
|---|---|---|
| `Metrics.Construct` | yuvi/src/main/java/com/pinterest/yuvi/tagstore/Metric.java:40-53 | A blank name always gives `InvalidMetricName`, whatever the tags, and a non-blank name never does. A parse failure of any kept tag gives `TagParseError` carrying the raw list, and no metric. On success the name is stored untrimmed, there is one tag per kept raw tag equal to its parse, and the key is `FullMetricName`. |
| `Metrics.NewMetric` | yuvi/src/main/java/com/pinterest/yuvi/tagstore/Metric.java:40-53 | The constructor, run step by step: its result is exactly `Construct`'s. |
| `Metrics.ParsedTags` | yuvi/src/main/java/com/pinterest/yuvi/tagstore/Metric.java:61-69 | Parsing a list of strings succeeds iff every string parses. The result then has one tag per string, in the same order, each equal to that string's parse. |
| `Metrics.ParseTags` | yuvi/src/main/java/com/pinterest/yuvi/tagstore/Metric.java:61-69 | The loop, which stops at the first parse failure, returns `ParsedTags` of the trimmed non-null non-empty raw tags, in input order. |
| `Metrics.ParseFailurePropagates` | yuvi/src/main/java/com/pinterest/yuvi/tagstore/Metric.java:63-66 | One present raw tag whose trimmed form does not parse makes the parse of the whole list fail. |
| `Metrics.KeptAppend` | yuvi/src/main/java/com/pinterest/yuvi/tagstore/Metric.java:63-66 | The strings handed on from a concatenation of raw lists are those of the first list followed by those of the second. So order and duplicates are kept. |
| `Metrics.KeptElems` | yuvi/src/main/java/com/pinterest/yuvi/tagstore/Metric.java:73-77 | The kept strings are exactly the set of trimmed non-null non-empty raw tags. |
| `Metrics.SortedTags` | yuvi/src/main/java/com/pinterest/yuvi/tagstore/Metric.java:72-77 | The tree set built from the raw tags iterates in strictly ascending `compareTo` order and holds exactly the distinct trimmed present raw tags. |
| `Metrics.CollectSortedTags` | yuvi/src/main/java/com/pinterest/yuvi/tagstore/Metric.java:72-77 | The insertion loop yields `SortedTags` of the raw list. |
| `Metrics.SeparatedTags` | yuvi/src/main/java/com/pinterest/yuvi/tagstore/Metric.java:84-87 | The appended text is empty iff there are no tags, and otherwise starts with the separator. |
| `Metrics.AppendTags` | yuvi/src/main/java/com/pinterest/yuvi/tagstore/Metric.java:82-89 | The builder loop yields the name followed by a separator and each tag, in order. |
| `Metrics.FullMetricName` | yuvi/src/main/java/com/pinterest/yuvi/tagstore/Metric.java:71-91 | The key as a value. An empty raw list gives the bare name. Otherwise it is the name followed by `SeparatedTags` of the tree set. Its properties are the `MetricProperties.FullName*` lemmas below. |
| `Metrics.Present` | yuvi/src/main/java/com/pinterest/yuvi/tagstore/Metric.java:64 | The filter both loops apply (line 74 repeats it): the raw tag is non-null and non-empty. A whitespace-only string passes. |
| `Metrics.Kept` | yuvi/src/main/java/com/pinterest/yuvi/tagstore/Metric.java:63-76 | The trimmed raw tags that pass `Present`, in input order with duplicates kept. There are never more of them than raw tags. `KeptAppend` and `KeptElems` give its order and its set. |
| `Metrics.GetFullMetricName` | yuvi/src/main/java/com/pinterest/yuvi/tagstore/Metric.java:71-91 | The method, both loops and the empty-list branch, returns `FullMetricName`. |
| `Metrics.Equals` | yuvi/src/main/java/com/pinterest/yuvi/tagstore/Metric.java:93-113 | Field-by-field comparison of name, tag list and key holds exactly when the two metrics are the same value. |
| `Metrics.ToInt32` | yuvi/src/main/java/com/pinterest/yuvi/tagstore/Metric.java:117-120 | Java `int` wrap-around: the result is in the 32-bit range and congruent to the input modulo 2^32. |
| `Metrics.HashCode` | yuvi/src/main/java/com/pinterest/yuvi/tagstore/Metric.java:115-121 | The `31 * result + h` combination of the three field hashes, with wrap-around, is a Java `int`. |
| `MetricProperties.HashConsistentWithEquals` | yuvi/src/main/java/com/pinterest/yuvi/tagstore/Metric.java:93-121 | Equal metrics have equal hash codes, whatever the field hash functions are. |
| `MetricProperties.FullNameShape` | yuvi/src/main/java/com/pinterest/yuvi/tagstore/Metric.java:79-89 | For every raw list, including the empty one, the key is the name followed by the separated sorted tag set, so it starts with the name. |
| `MetricProperties.FullNameDependsOnlyOnTagSet` | yuvi/src/main/java/com/pinterest/yuvi/tagstore/Metric.java:71-89 | Two raw lists with the same set of trimmed present tags give the same key. |
| `MetricProperties.FullNamePermutationInvariant` | yuvi/src/main/java/com/pinterest/yuvi/tagstore/Metric.java:72-77 | Permuting the raw list leaves the key unchanged. |
| `MetricProperties.FullNameIgnoresDuplicate` | yuvi/src/main/java/com/pinterest/yuvi/tagstore/Metric.java:73-76 | Inserting anywhere a raw tag that is null, empty, or whose trimmed form is already present leaves the key unchanged. |
| `MetricProperties.FullNameIsNameIff` | yuvi/src/main/java/com/pinterest/yuvi/tagstore/Metric.java:79-91 | The key equals the name iff no raw tag is non-null and non-empty. This covers both the empty list and a list of empty or null entries. |
| `MetricProperties.AllParseAppend` | yuvi/src/main/java/com/pinterest/yuvi/tagstore/Metric.java:63-66 | All strings of a concatenation parse iff all strings of each part parse. |
| `MetricProperties.ParsedTagsFollowInputOrder` | yuvi/src/main/java/com/pinterest/yuvi/tagstore/Metric.java:61-69 | Parsing the raw list `a + b` succeeds iff parsing `a` and parsing `b` both do. It then gives `a`'s tags followed by `b`'s, duplicates included. |
| `MetricProperties.SeparatedTagsInjective` | yuvi/src/main/java/com/pinterest/yuvi/tagstore/Metric.java:84-87 | Tags free of the separator can be recovered from their separated text. |
| `MetricProperties.FullNameInjective` | yuvi/src/main/java/com/pinterest/yuvi/tagstore/Metric.java:24-25 | Suppose neither the names nor the trimmed tags contain a space. Then equal keys mean equal names and equal tag sets. This is the converse of `FullNameDependsOnlyOnTagSet`. |
| `MetricProperties.FullNameCollision` | yuvi/src/main/java/com/pinterest/yuvi/tagstore/Metric.java:24-25 | Without that restriction the key is not unique. For every name `n` and every tag `t` untouched by trimming, `(n + " " + t, [])` and `(n, [t])` have the same key. |
| `MetricProperties.ExampleCollision` | yuvi/src/main/java/com/pinterest/yuvi/tagstore/Metric.java:24-25 | The concrete case: `("cpu x=1", [])` and `("cpu", ["x=1"])` have the same key. |
| `MetricProperties.ExampleSortedKey` | yuvi/src/main/java/com/pinterest/yuvi/tagstore/Metric.java:71-89 | `["host=web1", "dc=us-east"]` and `["dc=us-east", "host=web1"]` both give the key `"cpu.load dc=us-east host=web1"`. |
| `MetricProperties.WhitespaceTagKept` | yuvi/src/main/java/com/pinterest/yuvi/tagstore/Metric.java:64-75 | A raw tag `"  "` is kept as `""`. The key of `("m", ["  "])` is `"m "`, and construction succeeds iff the parser accepts `""`. |
| `MetricProperties.EmptyTagList` | yuvi/src/main/java/com/pinterest/yuvi/tagstore/Metric.java:79-80 | `("requests", [])` gives a metric with no tags and key `"requests"`, whatever the parser. |
| `MetricProperties.BlankNameCheckedFirst` | yuvi/src/main/java/com/pinterest/yuvi/tagstore/Metric.java:41-45 | A whitespace-only name fails as `InvalidMetricName` even with an unparsable tag. A name with surrounding spaces is stored untrimmed. |
| `MetricProperties.OrderSensitiveEquality` | yuvi/src/main/java/com/pinterest/yuvi/tagstore/Metric.java:93-113 | Take two tags that parse to different values, given in two orders. The two constructions yield equal keys but unequal metrics. |
| `SortedSet.Insert` | yuvi/src/main/java/com/pinterest/yuvi/tagstore/Metric.java:75 | `TreeSet.add` keeps the iteration strictly ascending and adds exactly the new element. |
| `SortedSet.SortedOf` | yuvi/src/main/java/com/pinterest/yuvi/tagstore/Metric.java:72-77 | Adding a list of strings one by one gives a strictly ascending sequence of exactly their distinct values. |
| `SortedSet.AscendingUnique` | yuvi/src/main/java/com/pinterest/yuvi/tagstore/Metric.java:84 | Two strictly ascending sequences with the same elements are equal, so the iteration order depends only on the set. |
| `JavaStrings.IsWhitespace` | yuvi/src/main/java/com/pinterest/yuvi/tagstore/Metric.java:41 | `Character.isWhitespace`: the listed Unicode space and separator characters, which exclude the no-break spaces, plus U+0009 to U+000D and U+001C to U+001F. |
| `JavaStrings.IsBlank` | yuvi/src/main/java/com/pinterest/yuvi/tagstore/Metric.java:41 | `StringUtils.isBlank`, the negation of the test on the name: the string is empty or every character is `IsWhitespace`. |
| `JavaStrings.Less` | yuvi/src/main/java/com/pinterest/yuvi/tagstore/Metric.java:72 | `String.compareTo(a, b) < 0`, the order of the tree set: the first differing character decides, and otherwise the shorter string is smaller. The four `Less*` lemmas prove it a strict total order. |
| `JavaStrings.Trim` | yuvi/src/main/java/com/pinterest/yuvi/tagstore/Metric.java:65 | `String.trim` returns the contiguous piece after the leading run of characters at most U+0020. Every character dropped after the piece is also at most U+0020. The piece neither starts nor ends with such a character. |
| `JavaStrings.TrimEmptyIff` | yuvi/src/main/java/com/pinterest/yuvi/tagstore/Metric.java:75 | Trimming gives `""` iff every character is at most U+0020. |
| `JavaStrings.LessIrreflexive` | yuvi/src/main/java/com/pinterest/yuvi/tagstore/Metric.java:72 | No string is below itself under `compareTo`. |
| `JavaStrings.LessAsymmetric` | yuvi/src/main/java/com/pinterest/yuvi/tagstore/Metric.java:72 | `compareTo` never orders two strings both ways. |
| `JavaStrings.LessTransitive` | yuvi/src/main/java/com/pinterest/yuvi/tagstore/Metric.java:72 | The `compareTo` order is transitive. |
| `JavaStrings.LessTotal` | yuvi/src/main/java/com/pinterest/yuvi/tagstore/Metric.java:72 | Two different strings are ordered one way or the other. |

## Left out

- `Tag.parseTag` and the `Tag` class are not part of this model. The parser is a parameter, and a tag is a key/value pair compared by value; `Tag.equals` is assumed to be that.
- Characters: Dafny `char` is a Unicode scalar value, while Java compares and trims UTF-16 code units. `compareTo` can therefore differ for supplementary characters against U+E000–U+FFFF, and surrogate halves are not modelled.
- `JavaStrings.IsWhitespace` follows current Unicode data. U+180E, which older Java versions treat as whitespace, is not included.
- Null handling beyond the per-element skip. A null name or a null list would give an exception in Java, but Dafny strings and sequences cannot be null.
- `Metrics.Equals`: the `this == o` shortcut, and comparison with null or with another class (both return false), are not modelled; only Metric-to-Metric equality is.
- `Metrics.HashCode`: `String.hashCode` and `List.hashCode` are parameters, so the exact Java hash values are not modelled, only the combination and the 32-bit wrap-around.
- `toString`, the exception messages and the wrapped cause, and the `StringBuilder` initial capacity are diagnostics or performance details.
- `Metrics.GetFullMetricName`: its two loops are the helper methods `CollectSortedTags` and `AppendTags`, not one method body. The `TreeSet` is modelled by its iteration order (a sorted sequence), not as a red-black tree.
- `TAG_DELIMITER` is declared but Metric itself never uses it.
