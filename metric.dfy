/**
 * com.pinterest.yuvi.tagstore.Metric: the identity of one time series, a metric name and
 * the tags parsed from a list of raw "key=value" strings, plus the canonical key
 * (fullMetricName) built from the name and the sorted set of trimmed raw tags.
 *
 * A Metric is immutable once built, so it is a datatype; its constructor, which either
 * yields a Metric or throws, is the method NewMetric returning a Result.
 */
module Metrics {
  import opened Wrappers
  import opened JavaStrings
  import opened SortedSet

  /** Separates key from value inside one raw tag; Metric itself never looks for it. */
  const TAG_DELIMITER: char := '='
  /** Separates the name and the sorted tags in fullMetricName. */
  const METRIC_SEPARATOR: char := ' '

  /** A parsed tag. How Tag.parseTag splits and validates is not part of this model. */
  datatype Tag = Tag(key: string, value: string)

  /** Tag.parseTag: None stands for the exception it throws on a malformed tag. */
  type TagParser = string -> Option<Tag>

  /** One element of the rawTags list: None is a null element. */
  type RawTag = Option<string>

  datatype Metric = Metric(metricName: string, tags: seq<Tag>, fullMetricName: string)

  /** The two IllegalArgumentExceptions the constructor throws. */
  datatype MetricError =
    | InvalidMetricName
    | TagParseError(rawTags: seq<RawTag>)

  datatype Result = Ok(metric: Metric) | Fail(error: MetricError)

  /** Both loops of Metric only look at raw tags that are non-null and non-empty. Note that
      a whitespace-only string passes this test. */
  predicate Present(raw: RawTag) {
    raw.Some? && raw.value != ""
  }

  /** The trimmed present raw tags, in input order, duplicates included: what both loops
      of Metric hand on, to Tag.parseTag and to the tree set. */
  function Kept(rawTags: seq<RawTag>): (ks: seq<string>)
    ensures |ks| <= |rawTags|
  {
    if rawTags == [] then []
    else
      var last := rawTags[|rawTags| - 1];
      Kept(rawTags[..|rawTags| - 1]) + (if Present(last) then [Trim(last.value)] else [])
  }

  /** The set of distinct trimmed present raw tags. */
  function TagSet(rawTags: seq<RawTag>): set<string> {
    set raw | raw in rawTags && Present(raw) :: Trim(raw.value)
  }

  /** Kept holds exactly the strings of TagSet. */
  lemma {:induction false} KeptElems(rawTags: seq<RawTag>)
    ensures Elems(Kept(rawTags)) == TagSet(rawTags)
  {
    if rawTags != [] {
      var init, last := rawTags[..|rawTags| - 1], rawTags[|rawTags| - 1];
      KeptElems(init);
      assert rawTags == init + [last];
      var tail := if Present(last) then [Trim(last.value)] else [];
      assert Elems(Kept(init) + tail) == Elems(Kept(init)) + Elems(tail);
      assert TagSet(rawTags) == TagSet(init) + Elems(tail);
    }
  }

  /** Every kept tag parses. */
  predicate AllParse(parse: TagParser, ks: seq<string>) {
    forall i :: 0 <= i < |ks| ==> parse(ks[i]).Some?
  }

  /** The tags list parseTags builds from ks: None as soon as one of them does not parse,
      otherwise one parsed tag per string, in the same order. */
  function ParsedTags(parse: TagParser, ks: seq<string>): (r: Option<seq<Tag>>)
    ensures r.Some? <==> AllParse(parse, ks)
    ensures r.Some? ==> |r.value| == |ks|
    ensures r.Some? ==> forall i :: 0 <= i < |ks| ==> parse(ks[i]) == Some(r.value[i])
  {
    if ks == [] then Some([])
    else
      var init := ks[..|ks| - 1];
      match ParsedTags(parse, init)
      case None => None
      case Some(ts) =>
        match parse(ks[|ks| - 1])
        case None => None
        case Some(t) => Some(ts + [t])
  }

  /** The iteration order of the tree set built from the raw tags: strictly ascending under
      String.compareTo and holding exactly the distinct trimmed present raw tags. */
  function SortedTags(rawTags: seq<RawTag>): (s: seq<string>)
    ensures StrictlyAscending(s)
    ensures Elems(s) == TagSet(rawTags)
  {
    KeptElems(rawTags);
    SortedOf(Kept(rawTags))
  }

  /** What the StringBuilder loop appends after the name: a separator and the tag, for each
      tag in turn. It is empty exactly when there are no tags, and otherwise starts with the
      separator. */
  function SeparatedTags(ts: seq<string>): (r: string)
    ensures r == [] <==> ts == []
    ensures ts != [] ==> r[0] == METRIC_SEPARATOR
  {
    if ts == [] then ""
    else SeparatedTags(ts[..|ts| - 1]) + [METRIC_SEPARATOR] + ts[|ts| - 1]
  }

  /** getFullMetricName: the name alone when the raw list is empty, otherwise the name
      followed by the separated sorted tags. */
  function FullMetricName(metricName: string, rawTags: seq<RawTag>): string {
    if rawTags == [] then metricName
    else metricName + SeparatedTags(SortedTags(rawTags))
  }

  /** What constructing a Metric yields. The name is checked first, then the tags are
      parsed; only when both succeed is the key computed and a Metric produced. */
  function Construct(parse: TagParser, metricName: string, rawTags: seq<RawTag>): (r: Result)
    ensures r == Fail(InvalidMetricName) <==> IsBlank(metricName)
    ensures r.Fail? && r.error.TagParseError?
      <==> !IsBlank(metricName) && !AllParse(parse, Kept(rawTags))
    ensures r.Fail? && r.error.TagParseError? ==> r.error.rawTags == rawTags
    ensures r.Ok? ==> r.metric.metricName == metricName
    ensures r.Ok? ==> r.metric.fullMetricName == FullMetricName(metricName, rawTags)
    ensures r.Ok? ==> |r.metric.tags| == |Kept(rawTags)|
    ensures r.Ok? ==> forall i :: 0 <= i < |Kept(rawTags)| ==>
      parse(Kept(rawTags)[i]) == Some(r.metric.tags[i])
  {
    if IsBlank(metricName) then Fail(InvalidMetricName)
    else
      match ParsedTags(parse, Kept(rawTags))
      case None => Fail(TagParseError(rawTags))
      case Some(tags) => Ok(Metric(metricName, tags, FullMetricName(metricName, rawTags)))
  }

  /** Kept of a prefix one longer than another: the new raw tag contributes itself,
      trimmed, when it is present. */
  lemma KeptStep(rawTags: seq<RawTag>, i: nat)
    requires i < |rawTags|
    ensures Present(rawTags[i]) ==> Kept(rawTags[..i + 1]) == Kept(rawTags[..i]) + [Trim(rawTags[i].value)]
    ensures !Present(rawTags[i]) ==> Kept(rawTags[..i + 1]) == Kept(rawTags[..i])
  {
    assert rawTags[..i + 1][..i] == rawTags[..i];
    assert Kept(rawTags[..i]) + [] == Kept(rawTags[..i]);
  }

  /** Kept distributes over concatenation of raw tag lists. */
  lemma {:induction false} KeptAppend(a: seq<RawTag>, b: seq<RawTag>)
    ensures Kept(a + b) == Kept(a) + Kept(b)
  {
    if b == [] {
      assert a + b == a;
    } else {
      var init, last := b[..|b| - 1], b[|b| - 1];
      KeptAppend(a, init);
      var ab := a + b;
      assert ab[..|ab| - 1] == a + init;
      assert ab[|ab| - 1] == last;
      var tail := if Present(last) then [Trim(last.value)] else [];
      calc {
        Kept(ab);
        Kept(a + init) + tail;
        Kept(a) + Kept(init) + tail;
        Kept(a) + (Kept(init) + tail);
        Kept(a) + Kept(b);
      }
    }
  }

  /** The tags kept from a prefix of the raw list come first among all the kept tags. */
  lemma {:induction false} KeptPrefix(rawTags: seq<RawTag>, j: nat)
    requires j <= |rawTags|
    ensures Kept(rawTags[..j]) <= Kept(rawTags)
  {
    if j < |rawTags| {
      var init := rawTags[..|rawTags| - 1];
      KeptPrefix(init, j);
      assert init[..j] == rawTags[..j];
    } else {
      assert rawTags[..j] == rawTags;
    }
  }

  /** One raw tag that is present but does not parse makes the whole list fail. */
  lemma ParseFailurePropagates(parse: TagParser, rawTags: seq<RawTag>, i: nat)
    requires i < |rawTags| && Present(rawTags[i]) && parse(Trim(rawTags[i].value)).None?
    ensures ParsedTags(parse, Kept(rawTags)) == None
  {
    KeptStep(rawTags, i);
    KeptPrefix(rawTags, i + 1);
    var ks := Kept(rawTags[..i + 1]);
    assert Kept(rawTags)[|ks| - 1] == ks[|ks| - 1];
  }

  /** One more present raw tag that parses extends the parsed prefix by its tag. */
  lemma ParseStep(parse: TagParser, rawTags: seq<RawTag>, i: nat, tags: seq<Tag>)
    requires i < |rawTags| && Present(rawTags[i]) && parse(Trim(rawTags[i].value)).Some?
    requires ParsedTags(parse, Kept(rawTags[..i])) == Some(tags)
    ensures ParsedTags(parse, Kept(rawTags[..i + 1]))
      == Some(tags + [parse(Trim(rawTags[i].value)).value])
  {
    KeptStep(rawTags, i);
    var ks := Kept(rawTags[..i + 1]);
    assert ks[..|ks| - 1] == Kept(rawTags[..i]);
  }

  /** parseTags. A parse failure ends the loop at once, as the exception does. */
  method ParseTags(parse: TagParser, rawTags: seq<RawTag>) returns (r: Option<seq<Tag>>)
    ensures r == ParsedTags(parse, Kept(rawTags))
  {
    var tags: seq<Tag> := [];
    var i := 0;
    while i < |rawTags|
      invariant 0 <= i <= |rawTags|
      invariant ParsedTags(parse, Kept(rawTags[..i])) == Some(tags)
    {
      var rawTag := rawTags[i];
      KeptStep(rawTags, i);
      if rawTag.Some? && !(rawTag.value == "") {
        var tag := parse(Trim(rawTag.value));
        if tag.None? {
          ParseFailurePropagates(parse, rawTags, i);
          return None;
        }
        ParseStep(parse, rawTags, i, tags);
        tags := tags + [tag.value];
      }
      i := i + 1;
    }
    assert rawTags[..i] == rawTags;
    return Some(tags);
  }

  /** The first loop of getFullMetricName: add each trimmed present raw tag to a tree set. */
  method CollectSortedTags(rawTags: seq<RawTag>) returns (sortedTags: seq<string>)
    ensures sortedTags == SortedTags(rawTags)
  {
    sortedTags := [];
    var i := 0;
    while i < |rawTags|
      invariant 0 <= i <= |rawTags|
      invariant sortedTags == SortedOf(Kept(rawTags[..i]))
    {
      var rawTag := rawTags[i];
      KeptStep(rawTags, i);
      if rawTag.Some? && !(rawTag.value == "") {
        var ks := Kept(rawTags[..i + 1]);
        assert ks[..|ks| - 1] == Kept(rawTags[..i]);
        sortedTags := Insert(sortedTags, Trim(rawTag.value));
      }
      i := i + 1;
    }
    assert rawTags[..i] == rawTags;
  }

  /** The StringBuilder loop of getFullMetricName: after the name, append a separator and
      the tag for each tag in turn. */
  method AppendTags(metricName: string, sortedTags: seq<string>) returns (builder: string)
    ensures builder == metricName + SeparatedTags(sortedTags)
  {
    builder := metricName;
    var j := 0;
    while j < |sortedTags|
      invariant 0 <= j <= |sortedTags|
      invariant builder == metricName + SeparatedTags(sortedTags[..j])
    {
      assert sortedTags[..j + 1][..j] == sortedTags[..j];
      builder := builder + [METRIC_SEPARATOR];
      builder := builder + sortedTags[j];
      j := j + 1;
    }
    assert sortedTags[..j] == sortedTags;
  }

  /** getFullMetricName. Note that the test is on the raw list being empty, not the set. */
  method GetFullMetricName(metricName: string, rawTags: seq<RawTag>) returns (full: string)
    ensures full == FullMetricName(metricName, rawTags)
  {
    var sortedTags := CollectSortedTags(rawTags);
    if rawTags == [] {
      return metricName;
    }
    full := AppendTags(metricName, sortedTags);
  }

  /** The Metric constructor: validate the name, parse the tags, compute the key. */
  method NewMetric(parse: TagParser, metricName: string, rawTags: seq<RawTag>) returns (r: Result)
    ensures r == Construct(parse, metricName, rawTags)
  {
    if IsBlank(metricName) {
      return Fail(InvalidMetricName);
    }
    var tags := ParseTags(parse, rawTags);
    if tags.None? {
      return Fail(TagParseError(rawTags));
    }
    var full := GetFullMetricName(metricName, rawTags);
    return Ok(Metric(metricName, tags.value, full));
  }

  /** equals on two Metrics: name, tag list (element by element) and key all agree; this
      is exactly equality of the values. Comparison with null or another class is false and
      is not modelled. */
  function Equals(a: Metric, b: Metric): (r: bool)
    ensures r <==> a == b
  {
    a.metricName == b.metricName && a.tags == b.tags && a.fullMetricName == b.fullMetricName
  }

  const INT_MODULUS: int := 0x1_0000_0000

  /** A Java int: the value congruent to x modulo 2^32 in [-2^31, 2^31). */
  function ToInt32(x: int): (r: int)
    ensures -0x8000_0000 <= r < 0x8000_0000
    ensures (x - r) % INT_MODULUS == 0
  {
    (x + 0x8000_0000) % INT_MODULUS - 0x8000_0000
  }

  /** hashCode, over the hashes of the three fields, which are parameters here
      (String.hashCode and List.hashCode are not part of this model). */
  function HashCode(m: Metric, stringHash: string -> int, listHash: seq<Tag> -> int): (h: int)
    ensures -0x8000_0000 <= h < 0x8000_0000
  {
    var result := stringHash(m.metricName);
    var result := ToInt32(31 * result + listHash(m.tags));
    ToInt32(31 * result + stringHash(m.fullMetricName))
  }
}
