/**
 * A java.util.TreeSet<String> in its natural order, seen through its iteration order: a
 * strictly ascending sequence. Building it by repeated `add` and iterating it are the two
 * things Metric does with one.
 */
module SortedSet {
  import opened JavaStrings

  /** Every element is below every later one under String.compareTo (so no duplicates). */
  predicate StrictlyAscending(s: seq<string>) {
    forall i, j :: 0 <= i < j < |s| ==> Less(s[i], s[j])
  }

  /** The set of strings a sequence holds. */
  function Elems(s: seq<string>): set<string> {
    set x | x in s
  }

  lemma ElemsEmpty(s: seq<string>)
    ensures Elems(s) == {} <==> s == []
  {
    if s != [] {
      assert s[0] in Elems(s);
    }
  }

  /** TreeSet.add: x joins the set at its place in the order; adding a present element
      changes nothing. */
  function Insert(s: seq<string>, x: string): (r: seq<string>)
    requires StrictlyAscending(s)
    ensures StrictlyAscending(r)
    ensures Elems(r) == Elems(s) + {x}
  {
    if s == [] then [x]
    else if x == s[0] then s
    else if Less(x, s[0]) then
      assert forall j :: 0 < j < |s| ==> Less(x, s[j]) by {
        forall j | 0 < j < |s| ensures Less(x, s[j]) {
          LessTransitive(x, s[0], s[j]);
        }
      }
      [x] + s
    else
      var t := Insert(s[1..], x);
      LessTotal(x, s[0]);
      assert Elems(s) == {s[0]} + Elems(s[1..]) by {
        assert s == [s[0]] + s[1..];
      }
      forall y | y in t ensures Less(s[0], y) {
        assert y in Elems(t);
        if y != x {
          assert y in Elems(s[1..]);
          var j :| 0 <= j < |s[1..]| && s[1..][j] == y;
          assert s[j + 1] == y;
        }
      }
      assert Elems([s[0]] + t) == {s[0]} + Elems(t);
      [s[0]] + t
  }

  /** The tree set holding the elements of ks, added one by one in order. */
  function SortedOf(ks: seq<string>): (r: seq<string>)
    ensures StrictlyAscending(r)
    ensures Elems(r) == Elems(ks)
  {
    if ks == [] then []
    else
      var init := ks[..|ks| - 1];
      assert ks == init + [ks[|ks| - 1]];
      assert Elems(ks) == Elems(init) + {ks[|ks| - 1]};
      Insert(SortedOf(init), ks[|ks| - 1])
  }

  /** A strictly ascending sequence is determined by its set of elements: the order in which
      strings are added to a tree set, and how often, does not show in its iteration. */
  lemma {:induction false} AscendingUnique(a: seq<string>, b: seq<string>)
    requires StrictlyAscending(a) && StrictlyAscending(b)
    requires Elems(a) == Elems(b)
    ensures a == b
  {
    if a == [] {
      ElemsEmpty(b);
    } else {
      assert a[0] in Elems(b);
      assert b != [];
      assert b[0] in Elems(a);
      if a[0] != b[0] {
        var i :| 0 <= i < |a| && a[i] == b[0];
        var j :| 0 <= j < |b| && b[j] == a[0];
        assert Less(a[0], b[0]);
        assert Less(b[0], a[0]);
        LessAsymmetric(a[0], b[0]);
        assert false;
      }
      assert Elems(a[1..]) == Elems(b[1..]) by {
        forall x | x in Elems(a[1..]) ensures x in Elems(b[1..]) {
          var i :| 1 <= i < |a| && a[i] == x;
          assert Less(a[0], x);
          LessIrreflexive(x);
          assert x in Elems(b);
          var j :| 0 <= j < |b| && b[j] == x;
          assert j != 0;
          assert b[j] == b[1..][j - 1];
        }
        forall x | x in Elems(b[1..]) ensures x in Elems(a[1..]) {
          var j :| 1 <= j < |b| && b[j] == x;
          assert Less(b[0], x);
          LessIrreflexive(x);
          assert x in Elems(a);
          var i :| 0 <= i < |a| && a[i] == x;
          assert i != 0;
          assert a[i] == a[1..][i - 1];
        }
      }
      AscendingUnique(a[1..], b[1..]);
      assert a == [a[0]] + a[1..] && b == [b[0]] + b[1..];
    }
  }
}
