/**
 * Ordinal string order (StringComparer.Ordinal) and the ordinal sort of a
 * key set that gives the schema's AllTagNames
 * (`Elements.Keys.OrderBy(k => k, StringComparer.Ordinal).ToImmutableArray()`,
 * Schema/XamlSchema.cs:66-68 and 214-216).
 */
module OrdinalOrder {

  /** a comes strictly before b in ordinal order: the first differing
      character decides, and a proper prefix comes first. */
  predicate OrdinalLess(a: string, b: string)
    decreases |a|
  {
    if |a| == 0 then |b| > 0
    else |b| > 0 && (a[0] < b[0] || (a[0] == b[0] && OrdinalLess(a[1..], b[1..])))
  }

  lemma {:induction false} OrdinalLessIrreflexive(a: string)
    ensures !OrdinalLess(a, a)
    decreases |a|
  {
    if |a| > 0 {
      OrdinalLessIrreflexive(a[1..]);
    }
  }

  lemma {:induction false} OrdinalLessTransitive(a: string, b: string, c: string)
    requires OrdinalLess(a, b) && OrdinalLess(b, c)
    ensures OrdinalLess(a, c)
    decreases |a|
  {
    if |a| > 0 && a[0] == b[0] && b[0] == c[0] {
      OrdinalLessTransitive(a[1..], b[1..], c[1..]);
    }
  }

  /** Any two different strings are ordered one way or the other. */
  lemma {:induction false} OrdinalLessTotal(a: string, b: string)
    requires a != b
    ensures OrdinalLess(a, b) || OrdinalLess(b, a)
    decreases |a|
  {
    if |a| > 0 && |b| > 0 && a[0] == b[0] {
      assert a == [a[0]] + a[1..] && b == [b[0]] + b[1..];
      OrdinalLessTotal(a[1..], b[1..]);
    }
  }

  /** Strictly increasing in ordinal order, hence without duplicates. */
  predicate SortedOrdinal(s: seq<string>) {
    forall i, j :: 0 <= i < j < |s| ==> OrdinalLess(s[i], s[j])
  }

  /** s lists exactly the strings of keys, in ordinal order. */
  predicate IsOrdinalSortingOf(s: seq<string>, keys: set<string>) {
    SortedOrdinal(s) && (forall x :: x in s ==> x in keys) && (forall x :: x in keys ==> x in s)
  }

  /** A sorted sequence holds each of its strings once. */
  lemma SortedHasNoDuplicates(s: seq<string>)
    requires SortedOrdinal(s)
    ensures forall i, j :: 0 <= i < j < |s| ==> s[i] != s[j]
  {
    forall i, j | 0 <= i < j < |s|
      ensures s[i] != s[j]
    {
      OrdinalLessIrreflexive(s[i]);
    }
  }

  /** A sorting is empty exactly when its key set is. */
  lemma MemberOfSorting(s: seq<string>, keys: set<string>)
    requires IsOrdinalSortingOf(s, keys)
    ensures s == [] <==> keys == {}
  {
    if s != [] {
      assert s[0] in keys;
    } else {
      assert forall x :: x !in keys;
    }
  }

  /** The ordinal sorting of a key set is unique: AllTagNames is determined by
      the element keys alone. */
  lemma {:induction false} SortingIsUnique(s: seq<string>, t: seq<string>, keys: set<string>)
    requires IsOrdinalSortingOf(s, keys) && IsOrdinalSortingOf(t, keys)
    ensures s == t
    decreases |s|
  {
    if s == [] || t == [] {
      MemberOfSorting(s, keys);
      MemberOfSorting(t, keys);
    } else {
      if s[0] != t[0] {
        assert t[0] in s && s[0] in t;
        var j :| 0 <= j < |s| && s[j] == t[0];
        var k :| 0 <= k < |t| && t[k] == s[0];
        assert OrdinalLess(s[0], t[0]);
        assert OrdinalLess(t[0], s[0]);
        OrdinalLessTransitive(s[0], t[0], s[0]);
        OrdinalLessIrreflexive(s[0]);
      }
      SortedHasNoDuplicates(s);
      SortedHasNoDuplicates(t);
      var rest := keys - {s[0]};
      forall x
        ensures x in s[1..] <==> x in rest
      {
        if x in s[1..] {
          var i :| 1 <= i < |s| && s[i] == x;
        }
      }
      forall x
        ensures x in t[1..] <==> x in rest
      {
        if x in t[1..] {
          var i :| 1 <= i < |t| && t[i] == x;
        }
      }
      SortingIsUnique(s[1..], t[1..], rest);
    }
  }

  /** The ordinal minimum of a non-empty set. */
  method MinOrdinal(candidates: set<string>) returns (m: string)
    requires candidates != {}
    ensures m in candidates
    ensures forall x :: x in candidates && x != m ==> OrdinalLess(m, x)
  {
    m :| m in candidates;
    var others := candidates - {m};
    while others != {}
      invariant others <= candidates && m in candidates && m !in others
      invariant forall x :: x in candidates - others && x != m ==> OrdinalLess(m, x)
      decreases |others|
    {
      var x :| x in others;
      if OrdinalLess(x, m) {
        forall y | y in candidates - others && y != x
          ensures OrdinalLess(x, y)
        {
          if y != m {
            OrdinalLessTransitive(x, m, y);
          }
        }
        m := x;
      } else {
        OrdinalLessTotal(m, x);
      }
      others := others - {x};
    }
  }

  /** `keys.OrderBy(k => k, StringComparer.Ordinal).ToImmutableArray()`. */
  method SortOrdinal(keys: set<string>) returns (s: seq<string>)
    ensures IsOrdinalSortingOf(s, keys)
  {
    s := [];
    var rest := keys;
    while rest != {}
      invariant rest <= keys
      invariant SortedOrdinal(s)
      invariant forall x :: x in keys <==> x in s || x in rest
      invariant forall i, y :: 0 <= i < |s| && y in rest ==> OrdinalLess(s[i], y)
      decreases |rest|
    {
      var m := MinOrdinal(rest);
      s := s + [m];
      rest := rest - {m};
    }
    forall x | x in s
      ensures x in keys
    {
      var i :| 0 <= i < |s| && s[i] == x;
    }
  }
}
