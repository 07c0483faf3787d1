/** Byte-wise string order, and ascending sequences of strings: the order of
    ordered maps and of sorted session lists. */
module Ordering {
  import opened Core

  predicate Less(a: string, b: string) {
    b != [] && (a == [] || a[0] < b[0] || (a[0] == b[0] && Less(a[1..], b[1..])))
  }

  /** Text is ordered by its first difference, and a proper prefix comes first. */
  lemma {:induction false} LessExactly(a: string, b: string)
    ensures Less(a, b) <==> FirstDifference(a, b)
  {
    if a != [] && b != [] {
      LessExactly(a[1..], b[1..]);
      DifferenceShifts(a, b);
    }
  }

  lemma DifferenceShifts(a: string, b: string)
    requires a != [] && b != []
    ensures FirstDifference(a, b) <==> a[0] < b[0] || (a[0] == b[0] && FirstDifference(a[1..], b[1..]))
  {
    var x, y := a[1..], b[1..];
    assert a == [a[0]] + x && b == [b[0]] + y;
    if a[0] < b[0] {
      assert DiffersAt(a, b, 0);
    } else if a[0] == b[0] {
      if i: nat :| DiffersAt(x, y, i) {
        assert a[..i+1] == [a[0]] + x[..i] && b[..i+1] == [b[0]] + y[..i];
        assert DiffersAt(a, b, i + 1);
      }
    }
    if i: nat :| DiffersAt(a, b, i) {
      if i > 0 {
        assert a[0] == a[..i][0] && b[0] == b[..i][0];
        assert x[..i-1] == a[..i][1..] && y[..i-1] == b[..i][1..];
        assert DiffersAt(x, y, i - 1);
      }
    }
  }

  ghost predicate DiffersAt(a: string, b: string, i: nat) {
    i < |a| && i < |b| && a[..i] == b[..i] && a[i] < b[i]
  }

  ghost predicate FirstDifference(a: string, b: string) {
    (a <= b && a != b) || exists i: nat :: DiffersAt(a, b, i)
  }

  lemma {:induction false} LessIrreflexive(a: string)
    ensures !Less(a, a)
  {
    if a != [] {
      LessIrreflexive(a[1..]);
    }
  }

  lemma {:induction false} LessTransitive(a: string, b: string, c: string)
    requires Less(a, b) && Less(b, c)
    ensures Less(a, c)
  {
    if a != [] && a[0] == b[0] == c[0] {
      LessTransitive(a[1..], b[1..], c[1..]);
    }
  }

  lemma {:induction false} LessTotal(a: string, b: string)
    ensures Less(a, b) || a == b || Less(b, a)
  {
    if a != [] && b != [] && a[0] == b[0] {
      LessTotal(a[1..], b[1..]);
      assert a == [a[0]] + a[1..] && b == [b[0]] + b[1..];
    }
  }

  /** Strictly ascending, hence without duplicates. */
  ghost predicate Ascending(s: seq<string>) {
    forall i, j :: 0 <= i < j < |s| ==> Less(s[i], s[j])
  }

  ghost predicate Sorted(s: seq<string>) {
    forall i, j :: 0 <= i < j < |s| ==> s[i] == s[j] || Less(s[i], s[j])
  }

  /** The strictly ascending listing of a set. */
  ghost predicate Lists(s: seq<string>, keys: set<string>) {
    Ascending(s) && forall x :: x in s <==> x in keys
  }

  lemma {:induction false} ListingIsUnique(s: seq<string>, t: seq<string>, keys: set<string>)
    requires Lists(s, keys) && Lists(t, keys)
    ensures s == t
  {
    if s == [] {
      assert forall i :: 0 <= i < |t| ==> t[i] in t;
    } else {
      assert s[0] in s && s[0] in t;
      assert t[0] in t && t[0] in s;
      FirstIsLeast(s, t[0]);
      FirstIsLeast(t, s[0]);
      if s[0] != t[0] {
        LessTransitive(s[0], t[0], s[0]);
        LessIrreflexive(s[0]);
      }
      TailLists(s, keys);
      TailLists(t, keys);
      ListingIsUnique(s[1..], t[1..], keys - {s[0]});
    }
  }

  lemma FirstIsLeast(s: seq<string>, x: string)
    requires Ascending(s) && x in s
    ensures s[0] == x || Less(s[0], x)
  {}

  lemma TailLists(s: seq<string>, keys: set<string>)
    requires Lists(s, keys) && s != []
    ensures Lists(s[1..], keys - {s[0]})
  {
    assert s == [s[0]] + s[1..];
    LessIrreflexive(s[0]);
  }

  /** The elements of a set, in some order. */
  method Collect(keys: set<string>) returns (s: seq<string>)
    ensures multiset(s) == multiset(keys)
  {
    s := [];
    var rest := keys;
    while rest != {}
      invariant rest <= keys
      invariant multiset(s) == multiset(keys - rest)
      decreases rest
    {
      var x :| x in rest;
      assert keys - (rest - {x}) == (keys - rest) + {x};
      s, rest := s + [x], rest - {x};
    }
    assert keys - {} == keys;
  }

  function Insert(x: string, s: seq<string>): seq<string> {
    if s == [] || Less(x, s[0]) then [x] + s else [s[0]] + Insert(x, s[1..])
  }

  lemma {:induction false} InsertCounts(x: string, s: seq<string>)
    ensures multiset(Insert(x, s)) == multiset(s) + multiset{x}
    ensures forall y :: y in Insert(x, s) <==> y in s || y == x
  {
    if s != [] && !Less(x, s[0]) {
      InsertCounts(x, s[1..]);
      assert s == [s[0]] + s[1..];
    }
  }

  lemma ConsSorted(x: string, s: seq<string>)
    requires Sorted(s) && forall y :: y in s ==> y == x || Less(x, y)
    ensures Sorted([x] + s)
  {
    hide Less;
  }

  lemma {:induction false} InsertSorts(x: string, s: seq<string>)
    requires Sorted(s)
    ensures Sorted(Insert(x, s)) && multiset(Insert(x, s)) == multiset(s) + multiset{x}
  {
    InsertCounts(x, s);
    if s == [] || Less(x, s[0]) {
      forall y | y in s ensures Less(x, y) {
        if s[0] != y { LessTransitive(x, s[0], y); }
      }
      ConsSorted(x, s);
    } else {
      LessTotal(x, s[0]);
      InsertSorts(x, s[1..]);
      InsertCounts(x, s[1..]);
      ConsSorted(s[0], Insert(x, s[1..]));
    }
  }

  method Sort(ids: seq<string>) returns (s: seq<string>)
    ensures Sorted(s) && multiset(s) == multiset(ids)
  {
    s := [];
    for i := 0 to |ids|
      invariant Sorted(s) && multiset(s) == multiset(ids[..i])
    {
      InsertSorts(ids[i], s);
      assert ids[..i+1] == ids[..i] + [ids[i]];
      s := Insert(ids[i], s);
    }
    assert ids[..|ids|] == ids;
  }

  /** Drops every element equal to its predecessor. */
  method Dedup(ids: seq<string>) returns (s: seq<string>)
    requires Sorted(ids)
    ensures Lists(s, set x | x in ids)
  {
    s := [];
    for i := 0 to |ids|
      invariant Ascending(s)
      invariant forall x :: x in s <==> x in ids[..i]
      invariant if i == 0 then s == [] else s != [] && s[|s|-1] == ids[i-1]
    {
      assert ids[..i+1] == ids[..i] + [ids[i]];
      if s == [] || s[|s|-1] != ids[i] {
        Extend(s, ids, i);
        s := s + [ids[i]];
      }
    }
    assert ids[..|ids|] == ids;
  }

  lemma Extend(s: seq<string>, ids: seq<string>, i: nat)
    requires Sorted(ids) && i < |ids| && Ascending(s)
    requires s == [] || (i > 0 && s[|s|-1] == ids[i-1] && ids[i-1] != ids[i])
    ensures Ascending(s + [ids[i]])
  {
    forall j | 0 <= j < |s| ensures Less(s[j], ids[i]) {
      assert Less(ids[i-1], ids[i]);
      if j < |s| - 1 {
        LessTransitive(s[j], s[|s|-1], ids[i]);
      }
    }
  }

  /** The sorted keys of a hash map. */
  method SortedKeys(keys: set<string>) returns (s: seq<string>)
    ensures Lists(s, keys)
  {
    var unordered := Collect(keys);
    s := Sort(unordered);
    forall i, j | 0 <= i < j < |s| ensures Less(s[i], s[j]) {
      if s[i] == s[j] {
        CountedTwice(s, i, j);
        assert false;
      }
    }
    forall x ensures x in s <==> x in keys {
      assert x in s <==> x in multiset(s);
    }
  }

  /** The keys of an ordered map, in order. */
  ghost function Listing(keys: set<string>): (s: seq<string>)
    ensures Lists(s, keys)
  {
    ListingExists(keys);
    var s :| Lists(s, keys);
    s
  }

  lemma {:induction false} ListingExists(keys: set<string>)
    ensures exists s :: Lists(s, keys)
  {
    if keys == {} {
      assert Lists([], keys);
    } else {
      var x :| x in keys;
      ListingExists(keys - {x});
      var s :| Lists(s, keys - {x});
      InsertSorts(x, s);
      var t := Insert(x, s);
      InsertAscends(x, s);
      forall y ensures y in t <==> y in keys {
        assert y in t <==> y in multiset(t);
        assert y in s <==> y in multiset(s);
      }
      assert Lists(t, keys);
    }
  }

  lemma {:induction false} InsertAscends(x: string, s: seq<string>)
    requires Ascending(s) && x !in s
    ensures Ascending(Insert(x, s))
    ensures forall y :: y in Insert(x, s) <==> y == x || y in s
  {
    if s == [] {
    } else if Less(x, s[0]) {
      forall j | 0 <= j < |s| ensures Less(x, s[j]) {
        if j > 0 { LessTransitive(x, s[0], s[j]); }
      }
    } else {
      LessTotal(x, s[0]);
      InsertAscends(x, s[1..]);
      assert s == [s[0]] + s[1..];
      var t := Insert(x, s[1..]);
      forall j | 0 <= j < |t| ensures Less(s[0], t[j]) {
        assert t[j] in t;
      }
    }
  }
}
