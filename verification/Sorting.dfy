/** Sorting by keys that are compared as sequences of numbers: bytes or UTF-16 code units. */
module Sorting {
  import opened Unicode

  /** Lexicographic order by the first difference: there the smaller element decides, or the end of the text. */
  predicate Lexical(a: seq<int>, b: seq<int>) {
    exists k | 0 <= k <= |a| && k < |b| :: a[..k] == b[..k] && (k == |a| || a[k] < b[k])
  }

  lemma HeadsAgree(a: seq<int>, b: seq<int>, k: nat)
    requires k <= |a| && k <= |b| && a[..k] == b[..k] && a != [] && b != []
    ensures k > 0 ==> a[0] == b[0]
  {
    assert k > 0 ==> a[..k][0] == a[0] && b[..k][0] == b[0];
  }

  lemma {:induction false} LessIsLexical(a: seq<int>, b: seq<int>)
    ensures Less(a, b) <==> Lexical(a, b)
  {
    if a != [] && b != [] && a[0] == b[0] {
      var s, t := a[1..], b[1..];
      LessIsLexical(s, t);
      if Lexical(s, t) {
        var k :| 0 <= k <= |s| && k < |t| && s[..k] == t[..k] && (k == |s| || s[k] < t[k]);
        assert a[..k + 1] == [a[0]] + s[..k] && b[..k + 1] == [b[0]] + t[..k];
      }
      if Lexical(a, b) {
        var k :| 0 <= k <= |a| && k < |b| && a[..k] == b[..k] && (k == |a| || a[k] < b[k]);
        assert s[..k - 1] == a[..k][1..] && t[..k - 1] == b[..k][1..];
      }
    } else if b != [] {
      assert a[..0] == b[..0];
      if a != [] && Lexical(a, b) {
        var k :| 0 <= k <= |a| && k < |b| && a[..k] == b[..k] && (k == |a| || a[k] < b[k]);
        HeadsAgree(a, b, k);
      }
    }
  }

  /** A text comes before every longer text that begins with it. */
  lemma PrefixFirst(p: seq<int>, x: seq<int>)
    requires x != []
    ensures Less(p, p + x)
  {
    LessIsLexical(p, p + x);
    assert p[..|p|] == (p + x)[..|p|];
  }

  datatype Keyed<+T> = Keyed(key: seq<int>, item: T)

  /** Array.prototype.sort, comparing the keys element by element. */
  function Insert<T>(e: Keyed<T>, sorted: seq<Keyed<T>>): (r: seq<Keyed<T>>)
    ensures |r| == |sorted| + 1
  {
    if sorted == [] || !Less(sorted[0].key, e.key) then [e] + sorted
    else [sorted[0]] + Insert(e, sorted[1..])
  }

  function Sort<T>(entries: seq<Keyed<T>>): (r: seq<Keyed<T>>)
    ensures |r| == |entries|
  {
    if entries == [] then [] else Insert(entries[0], Sort(entries[1..]))
  }

  lemma {:induction false} InsertElements<T(!new)>(e: Keyed<T>, sorted: seq<Keyed<T>>)
    ensures forall x :: x in Insert(e, sorted) <==> x == e || x in sorted
  {
    if sorted != [] && Less(sorted[0].key, e.key) {
      InsertElements(e, sorted[1..]);
    }
  }

  lemma {:induction false} SortElements<T(!new)>(entries: seq<Keyed<T>>)
    ensures forall x :: x in Sort(entries) <==> x in entries
  {
    if entries != [] {
      SortElements(entries[1..]);
      InsertElements(entries[0], Sort(entries[1..]));
    }
  }

  ghost predicate Ascending<T>(s: seq<Keyed<T>>) {
    forall i, j | 0 <= i < j < |s| :: Less(s[i].key, s[j].key)
  }

  ghost predicate DistinctSortKeys<T>(s: seq<Keyed<T>>) {
    forall i, j | 0 <= i < j < |s| :: s[i].key != s[j].key
  }

  lemma {:induction false} InsertAscending<T(!new)>(e: Keyed<T>, sorted: seq<Keyed<T>>)
    requires Ascending(sorted) && forall x | x in sorted :: x.key != e.key
    ensures Ascending(Insert(e, sorted))
  {
    if sorted != [] {
      LessTotal(sorted[0].key, e.key);
      if Less(sorted[0].key, e.key) {
        var rest := Insert(e, sorted[1..]);
        InsertAscending(e, sorted[1..]);
        InsertElements(e, sorted[1..]);
        forall k | 0 <= k < |rest| ensures Less(sorted[0].key, rest[k].key) {
          assert rest[k] in rest;
          if rest[k] != e {
            assert rest[k] in sorted[1..];
            var m :| 0 <= m < |sorted[1..]| && sorted[1..][m] == rest[k];
            assert rest[k] == sorted[m + 1];
          }
        }
      } else {
        forall x | x in sorted ensures Less(e.key, x.key) {
          if x != sorted[0] {
            LessTransitive(e.key, sorted[0].key, x.key);
          }
        }
      }
    }
  }

  lemma {:induction false} SortAscending<T(!new)>(entries: seq<Keyed<T>>)
    requires DistinctSortKeys(entries)
    ensures Ascending(Sort(entries))
  {
    if entries != [] {
      SortAscending(entries[1..]);
      SortElements(entries[1..]);
      forall x | x in Sort(entries[1..]) ensures x.key != entries[0].key {
        assert x in entries[1..];
        var k :| 0 <= k < |entries[1..]| && entries[1..][k] == x;
        assert x == entries[k + 1];
      }
      InsertAscending(entries[0], Sort(entries[1..]));
    }
  }

  lemma {:induction false} AscendingUnique<T(!new)>(s: seq<Keyed<T>>, t: seq<Keyed<T>>)
    requires Ascending(s) && Ascending(t)
    requires forall x :: x in s <==> x in t
    ensures s == t
  {
    assert (t == [] || t[0] in s) && (s == [] || s[0] in t);
    if s != [] && t != [] {
      var i :| 0 <= i < |t| && t[i] == s[0];
      var j :| 0 <= j < |s| && s[j] == t[0];
      if i > 0 && j > 0 {
        LessTotal(s[0].key, t[0].key);
        assert false;
      }
      LessTotal(s[0].key, s[0].key);
      assert s[0] == t[0];
      AscendingTail(s);
      AscendingTail(t);
      forall x ensures x in s[1..] <==> x in t[1..] {
        assert x in s[1..] <==> x in s && x != s[0];
        assert x in t[1..] <==> x in t && x != t[0];
      }
      AscendingUnique(s[1..], t[1..]);
      assert s == [s[0]] + s[1..] && t == [t[0]] + t[1..];
    }
  }

  lemma AscendingTail<T(!new)>(s: seq<Keyed<T>>)
    requires Ascending(s) && s != []
    ensures Ascending(s[1..])
    ensures forall x :: x in s[1..] <==> x in s && x != s[0]
  {
    forall k | 0 < k < |s| ensures s[k] != s[0] {
      LessTotal(s[0].key, s[k].key);
    }
    assert forall x :: x in s <==> x == s[0] || x in s[1..];
  }

  lemma SortDetermined<T(!new)>(a: seq<Keyed<T>>, b: seq<Keyed<T>>)
    requires DistinctSortKeys(a) && DistinctSortKeys(b)
    requires forall x :: x in a <==> x in b
    ensures Sort(a) == Sort(b)
  {
    SortAscending(a);
    SortAscending(b);
    SortElements(a);
    SortElements(b);
    AscendingUnique(Sort(a), Sort(b));
  }
}
