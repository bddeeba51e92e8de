/**
 * What Metric promises about its canonical key and its construction: the key depends only
 * on the name and the set of trimmed raw tags, it is the name alone exactly when no raw tag
 * is present, and (when neither name nor tags contain the separator) it determines both.
 */
module MetricProperties {
  import opened Wrappers
  import opened JavaStrings
  import opened SortedSet
  import opened Metrics

  /** Whatever the raw list, the key is the name followed by the separated iteration of the
      tree set of trimmed present raw tags; in particular it starts with the name. */
  lemma FullNameShape(metricName: string, rawTags: seq<RawTag>)
    ensures FullMetricName(metricName, rawTags) == metricName + SeparatedTags(SortedTags(rawTags))
    ensures metricName <= FullMetricName(metricName, rawTags)
  {
    if rawTags == [] {
      ElemsEmpty(SortedTags(rawTags));
      assert metricName + [] == metricName;
    }
  }

  /** The key depends on the raw tags only through their set of trimmed present entries. */
  lemma FullNameDependsOnlyOnTagSet(metricName: string, a: seq<RawTag>, b: seq<RawTag>)
    requires TagSet(a) == TagSet(b)
    ensures FullMetricName(metricName, a) == FullMetricName(metricName, b)
  {
    FullNameShape(metricName, a);
    FullNameShape(metricName, b);
    AscendingUnique(SortedTags(a), SortedTags(b));
  }

  /** Permuting the raw tag list leaves the key unchanged. */
  lemma FullNamePermutationInvariant(metricName: string, a: seq<RawTag>, b: seq<RawTag>)
    requires multiset(a) == multiset(b)
    ensures FullMetricName(metricName, a) == FullMetricName(metricName, b)
  {
    forall raw ensures raw in a <==> raw in b {
      assert raw in a <==> raw in multiset(a);
      assert raw in b <==> raw in multiset(b);
    }
    assert TagSet(a) == TagSet(b);
    FullNameDependsOnlyOnTagSet(metricName, a, b);
  }

  /** Inserting, anywhere in the list, a raw tag that is absent (null or empty) or whose
      trimmed form is already there leaves the key unchanged. */
  lemma FullNameIgnoresDuplicate(metricName: string, before: seq<RawTag>, raw: RawTag, after: seq<RawTag>)
    requires !Present(raw) || Trim(raw.value) in TagSet(before + after)
    ensures FullMetricName(metricName, before + [raw] + after) == FullMetricName(metricName, before + after)
  {
    var a, b := before + [raw] + after, before + after;
    forall x | x in a ensures x in b || x == raw {
      var i :| 0 <= i < |a| && a[i] == x;
      if i < |before| {
        assert b[i] == x;
      } else if i > |before| {
        assert b[i - 1] == x;
      }
    }
    forall x | x in b ensures x in a {
      var i :| 0 <= i < |b| && b[i] == x;
      if i < |before| {
        assert a[i] == x;
      } else {
        assert a[i + 1] == x;
      }
    }
    assert TagSet(a) == TagSet(b);
    FullNameDependsOnlyOnTagSet(metricName, a, b);
  }

  /** The key is the bare name exactly when no raw tag is present: the list is empty, or
      every entry is null or empty. */
  lemma FullNameIsNameIff(metricName: string, rawTags: seq<RawTag>)
    ensures FullMetricName(metricName, rawTags) == metricName
      <==> forall i :: 0 <= i < |rawTags| ==> !Present(rawTags[i])
  {
    FullNameShape(metricName, rawTags);
    var s := SortedTags(rawTags);
    if FullMetricName(metricName, rawTags) == metricName {
      assert |SeparatedTags(s)| == 0;
      forall i | 0 <= i < |rawTags|
        ensures Present(rawTags[i]) ==> Trim(rawTags[i].value) in TagSet(rawTags)
      {
      }
    } else {
      ElemsEmpty(s);
      var t :| t in TagSet(rawTags);
      var raw :| raw in rawTags && Present(raw) && Trim(raw.value) == t;
      var i :| 0 <= i < |rawTags| && rawTags[i] == raw;
    }
  }

  /** Every string of a concatenation parses exactly when every string of each part does. */
  lemma AllParseAppend(parse: TagParser, ka: seq<string>, kb: seq<string>)
    ensures AllParse(parse, ka + kb) <==> AllParse(parse, ka) && AllParse(parse, kb)
  {
    var k := ka + kb;
    forall i | 0 <= i < |kb| ensures k[|ka| + i] == kb[i] { }
    if AllParse(parse, ka) && AllParse(parse, kb) {
      forall i | 0 <= i < |k| ensures parse(k[i]).Some? {
        if i >= |ka| {
          assert k[|ka| + (i - |ka|)] == kb[i - |ka|];
        }
      }
    }
    if AllParse(parse, k) {
      forall i | 0 <= i < |ka| ensures parse(ka[i]).Some? {
        assert k[i] == ka[i];
      }
      forall i | 0 <= i < |kb| ensures parse(kb[i]).Some? {
        assert parse(k[|ka| + i]).Some?;
      }
    }
  }

  /** The tags list follows the raw list: parsing a + b succeeds exactly when parsing a and
      parsing b both do, and then gives the tags of a followed by those of b, duplicates
      included. */
  lemma ParsedTagsFollowInputOrder(parse: TagParser, a: seq<RawTag>, b: seq<RawTag>)
    ensures var r := ParsedTags(parse, Kept(a + b));
      var ra, rb := ParsedTags(parse, Kept(a)), ParsedTags(parse, Kept(b));
      (r.Some? <==> ra.Some? && rb.Some?) && (r.Some? ==> r.value == ra.value + rb.value)
  {
    KeptAppend(a, b);
    var ka, kb := Kept(a), Kept(b);
    var k := ka + kb;
    AllParseAppend(parse, ka, kb);
    var r := ParsedTags(parse, k);
    if r.Some? {
      var ta, tb := ParsedTags(parse, ka).value, ParsedTags(parse, kb).value;
      forall i | 0 <= i < |k| ensures r.value[i] == (ta + tb)[i] {
        if i >= |ka| {
          assert k[|ka| + (i - |ka|)] == kb[i - |ka|];
        }
      }
    }
  }

  /** Separated tags built front to back: the first tag comes first. */
  lemma {:induction false} SeparatedTagsCons(t: string, ts: seq<string>)
    ensures SeparatedTags([t] + ts) == [METRIC_SEPARATOR] + t + SeparatedTags(ts)
  {
    var u := [t] + ts;
    if ts == [] {
      assert u[..0] == [];
    } else {
      var init, last := ts[..|ts| - 1], ts[|ts| - 1];
      SeparatedTagsCons(t, init);
      assert u[..|u| - 1] == [t] + init;
      calc {
        SeparatedTags(u);
        SeparatedTags([t] + init) + [METRIC_SEPARATOR] + last;
        [METRIC_SEPARATOR] + t + SeparatedTags(init) + [METRIC_SEPARATOR] + last;
        [METRIC_SEPARATOR] + t + (SeparatedTags(init) + [METRIC_SEPARATOR] + last);
        [METRIC_SEPARATOR] + t + SeparatedTags(ts);
      }
    }
  }

  /** If a1 + b1 == a2 + b2 with b1 empty or starting with the separator and a2 the longer
      prefix, then a2 holds the separator at position |a1|. */
  lemma SeparatorInLonger(a1: string, b1: string, a2: string, b2: string)
    ensures a1 + b1 == a2 + b2 && |a1| < |a2| && (b1 == [] || b1[0] == METRIC_SEPARATOR)
      ==> METRIC_SEPARATOR in a2
  {
    if a1 + b1 == a2 + b2 && |a1| < |a2| && (b1 == [] || b1[0] == METRIC_SEPARATOR) {
      assert (a1 + b1)[|a1|] == a2[|a1|];
    }
  }

  /** A string free of the separator followed by nothing or by something that starts with
      the separator: such a split of a string is unique. */
  lemma SplitAtSeparator(a1: string, b1: string, a2: string, b2: string)
    requires a1 + b1 == a2 + b2
    requires METRIC_SEPARATOR !in a1 && METRIC_SEPARATOR !in a2
    requires b1 == [] || b1[0] == METRIC_SEPARATOR
    requires b2 == [] || b2[0] == METRIC_SEPARATOR
    ensures a1 == a2 && b1 == b2
  {
    SeparatorInLonger(a1, b1, a2, b2);
    SeparatorInLonger(a2, b2, a1, b1);
    var k := a1 + b1;
    assert a1 == k[..|a1|] && a2 == k[..|a2|];
  }

  /** Separator-free tags can be read back from their separated form. */
  lemma {:induction false} SeparatedTagsInjective(ts1: seq<string>, ts2: seq<string>)
    requires forall t :: t in ts1 ==> METRIC_SEPARATOR !in t
    requires forall t :: t in ts2 ==> METRIC_SEPARATOR !in t
    requires SeparatedTags(ts1) == SeparatedTags(ts2)
    ensures ts1 == ts2
  {
    if ts1 != [] && ts2 != [] {
      var t1, rest1 := ts1[0], ts1[1..];
      var t2, rest2 := ts2[0], ts2[1..];
      assert ts1 == [t1] + rest1 && ts2 == [t2] + rest2;
      SeparatedTagsCons(t1, rest1);
      SeparatedTagsCons(t2, rest2);
      var k := SeparatedTags(ts1);
      assert k[1..] == t1 + SeparatedTags(rest1);
      assert k[1..] == t2 + SeparatedTags(rest2);
      SplitAtSeparator(t1, SeparatedTags(rest1), t2, SeparatedTags(rest2));
      SeparatedTagsInjective(rest1, rest2);
    }
  }

  /** The partner of FullNameDependsOnlyOnTagSet: when neither the names nor the trimmed
      raw tags contain the separator, equal keys mean equal names and equal tag sets. */
  lemma FullNameInjective(n1: string, a: seq<RawTag>, n2: string, b: seq<RawTag>)
    requires METRIC_SEPARATOR !in n1 && METRIC_SEPARATOR !in n2
    requires forall t :: t in TagSet(a) ==> METRIC_SEPARATOR !in t
    requires forall t :: t in TagSet(b) ==> METRIC_SEPARATOR !in t
    requires FullMetricName(n1, a) == FullMetricName(n2, b)
    ensures n1 == n2 && TagSet(a) == TagSet(b)
  {
    FullNameShape(n1, a);
    FullNameShape(n2, b);
    var s1, s2 := SortedTags(a), SortedTags(b);
    SplitAtSeparator(n1, SeparatedTags(s1), n2, SeparatedTags(s2));
    forall t | t in s1 ensures METRIC_SEPARATOR !in t {
      assert t in Elems(s1);
    }
    forall t | t in s2 ensures METRIC_SEPARATOR !in t {
      assert t in Elems(s2);
    }
    SeparatedTagsInjective(s1, s2);
  }

  /** Without that restriction the key does not identify the metric: a name holding the
      separator collides with a shorter name plus a tag, for every such name and tag. */
  lemma FullNameCollision(name: string, t: string)
    requires t != [] && !IsTrimmed(t[0]) && !IsTrimmed(t[|t| - 1])
    ensures FullMetricName(name + [METRIC_SEPARATOR] + t, []) == FullMetricName(name, [Some(t)])
  {
    SortedTagsOfOne(t);
    assert SeparatedTags([t]) == SeparatedTags([]) + [METRIC_SEPARATOR] + t;
  }

  /** The tree set of one raw tag that needs no trimming holds just that tag. */
  lemma SortedTagsOfOne(t: string)
    requires t != [] && !IsTrimmed(t[0]) && !IsTrimmed(t[|t| - 1])
    ensures SortedTags([Some(t)]) == [t]
  {
    TrimFixed(t);
    var raw: seq<RawTag> := [Some(t)];
    assert raw[..0] == [];
    assert Kept(raw) == [t];
    assert [t][..0] == [];
    assert SortedOf([t]) == Insert([], t);
  }

  /** The collision on concrete values: ("cpu x=1", []) and ("cpu", ["x=1"]). */
  lemma ExampleCollision()
    ensures FullMetricName("cpu x=1", []) == FullMetricName("cpu", [Some("x=1")])
  {
    var name, t := "cpu", "x=1";
    assert name + [METRIC_SEPARATOR] + t == "cpu x=1";
    assert !IsTrimmed(t[0]) && !IsTrimmed(t[|t| - 1]);
    FullNameCollision(name, t);
  }

  /** Kept of two present raw tags that need no trimming. */
  lemma KeptOfTwo(x: string, y: string)
    requires x != [] && !IsTrimmed(x[0]) && !IsTrimmed(x[|x| - 1])
    requires y != [] && !IsTrimmed(y[0]) && !IsTrimmed(y[|y| - 1])
    ensures Kept([Some(x), Some(y)]) == [x, y]
  {
    TrimFixed(x);
    TrimFixed(y);
    var raw: seq<RawTag> := [Some(x), Some(y)];
    assert raw[..1] == [Some(x)] && raw[..1][..0] == [];
  }

  /** The two tags of the example, in either order, sort as dc before host. */
  lemma ExampleSorted()
    ensures SortedOf(["host=web1", "dc=us-east"]) == ["dc=us-east", "host=web1"]
    ensures SortedOf(["dc=us-east", "host=web1"]) == ["dc=us-east", "host=web1"]
  {
    var host, dc := "host=web1", "dc=us-east";
    assert SortedOf([host]) == [host];
    assert SortedOf([dc]) == [dc];
    assert Less(dc, host);
    assert SortedOf([host, dc]) == Insert([host], dc);
    assert SortedOf([dc, host]) == Insert([dc], host);
  }

  /** The tree set of the example's raw tags, in either order. */
  lemma ExampleSortedTags()
    ensures SortedTags([Some("host=web1"), Some("dc=us-east")]) == ["dc=us-east", "host=web1"]
    ensures SortedTags([Some("dc=us-east"), Some("host=web1")]) == ["dc=us-east", "host=web1"]
  {
    KeptOfTwo("host=web1", "dc=us-east");
    KeptOfTwo("dc=us-east", "host=web1");
    ExampleSorted();
  }

  /** The key text the example's tree set yields. */
  lemma ExampleSeparated()
    ensures "cpu.load" + SeparatedTags(["dc=us-east", "host=web1"]) == "cpu.load dc=us-east host=web1"
  {
    var s := ["dc=us-east", "host=web1"];
    assert SeparatedTags(s[..1]) == " dc=us-east";
  }

  /** The same tags in two orders give the same key, the tags in ascending order. */
  lemma ExampleSortedKey()
    ensures FullMetricName("cpu.load", [Some("host=web1"), Some("dc=us-east")])
      == "cpu.load dc=us-east host=web1"
    ensures FullMetricName("cpu.load", [Some("dc=us-east"), Some("host=web1")])
      == "cpu.load dc=us-east host=web1"
  {
    ExampleSortedTags();
    ExampleSeparated();
  }

  /** A whitespace-only raw tag is not skipped: it is trimmed to the empty string, which is
      what the tag parser is given and what follows the separator in the key. */
  lemma WhitespaceTagKept(parse: TagParser)
    ensures Kept([Some("  ")]) == [""]
    ensures FullMetricName("m", [Some("  ")]) == "m "
    ensures Construct(parse, "m", [Some("  ")]).Ok? <==> parse("").Some?
  {
    assert Trim("  ") == "" by {
      TrimEmptyIff("  ");
    }
    var raw: seq<RawTag> := [Some("  ")];
    assert Kept(raw) == Kept(raw[..0]) + [""];
    assert SortedTags(raw) == [""];
    assert SeparatedTags([""]) == SeparatedTags([]) + " " + "";
    assert !IsWhitespace("m"[0]);
  }

  /** Every metric, whatever the parser: an empty tag list gives the name as key and no
      tags. */
  lemma EmptyTagList(parse: TagParser)
    ensures Construct(parse, "requests", []) == Ok(Metric("requests", [], "requests"))
  {
    assert !IsWhitespace("requests"[0]);
  }

  /** A blank name fails as InvalidMetricName even when the tags would not parse: the name
      is checked first. A non-blank name never gives that error. */
  lemma BlankNameCheckedFirst(parse: TagParser)
    ensures Construct(parse, " \t", [Some("bad")]) == Fail(InvalidMetricName)
    ensures Construct(parse, " cpu ", []) == Ok(Metric(" cpu ", [], " cpu "))
  {
    assert IsBlank(" \t");
    assert !IsWhitespace(" cpu "[1]);
  }

  /** Equality follows the input order of the tags although the key does not: two tags
      that parse to different values, given in two orders, give equal keys but unequal
      metrics. */
  lemma OrderSensitiveEquality(parse: TagParser, metricName: string, x: string, y: string)
    requires !IsBlank(metricName)
    requires x != [] && !IsTrimmed(x[0]) && !IsTrimmed(x[|x| - 1])
    requires y != [] && !IsTrimmed(y[0]) && !IsTrimmed(y[|y| - 1])
    requires parse(x).Some? && parse(y).Some? && parse(x) != parse(y)
    ensures var m1 := Construct(parse, metricName, [Some(x), Some(y)]);
      var m2 := Construct(parse, metricName, [Some(y), Some(x)]);
      m1.Ok? && m2.Ok? && m1.metric.fullMetricName == m2.metric.fullMetricName
      && !Equals(m1.metric, m2.metric)
  {
    var a: seq<RawTag> := [Some(x), Some(y)];
    var b: seq<RawTag> := [Some(y), Some(x)];
    KeptOfTwo(x, y);
    KeptOfTwo(y, x);
    assert multiset(a) == multiset(b) by {
      assert a == [a[0]] + [a[1]] && b == [a[1]] + [a[0]];
    }
    FullNamePermutationInvariant(metricName, a, b);
    assert AllParse(parse, [x, y]) && AllParse(parse, [y, x]);
    var m1 := Construct(parse, metricName, a);
    var m2 := Construct(parse, metricName, b);
    assert parse(x) == Some(m1.metric.tags[0]);
    assert parse(y) == Some(m2.metric.tags[0]);
  }

  /** hashCode agrees with equals, whatever the field hashes are. */
  lemma HashConsistentWithEquals(a: Metric, b: Metric, stringHash: string -> int, listHash: seq<Tag> -> int)
    requires Equals(a, b)
    ensures HashCode(a, stringHash, listHash) == HashCode(b, stringHash, listHash)
  {
  }
}
