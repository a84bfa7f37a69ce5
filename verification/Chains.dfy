/** requiredWalletChains (src/continuation-v3.js): the chains that the steps of a route touch, each once, sorted. */
module Chains {
  import opened Unicode
  import opened Json
  import opened Sorting

  /** The part before the first ':'. */
  function Before(t: Text): Text {
    if t == [] || t[0] == 58 then [] else [t[0]] + Before(t[1..])
  }

  /** Strictly ascending by code units: no text twice. */
  ghost predicate Sorted(texts: seq<Text>) {
    forall i, j | 0 <= i < j < |texts| :: Less(texts[i], texts[j])
  }

  function InsertOnce(t: Text, sorted: seq<Text>): seq<Text> {
    if sorted == [] || Less(t, sorted[0]) then [t] + sorted
    else if t == sorted[0] then sorted
    else [sorted[0]] + InsertOnce(t, sorted[1..])
  }

  /** The chains of some endpoint texts. */
  function ChainsOf(endpoints: seq<Text>): seq<Text> {
    if endpoints == [] then [] else InsertOnce(Before(endpoints[0]), ChainsOf(endpoints[1..]))
  }

  lemma {:induction false} InsertOnceSorted(t: Text, sorted: seq<Text>)
    requires Sorted(sorted)
    ensures Sorted(InsertOnce(t, sorted)) && forall x :: x in InsertOnce(t, sorted) <==> x == t || x in sorted
  {
    if sorted != [] {
      LessTotal(t, sorted[0]);
      if Less(t, sorted[0]) {
        forall i | 0 <= i < |sorted| ensures Less(t, sorted[i]) {
          if i > 0 {
            LessTransitive(t, sorted[0], sorted[i]);
          }
        }
      } else if t != sorted[0] {
        var rest := InsertOnce(t, sorted[1..]);
        InsertOnceSorted(t, sorted[1..]);
        forall k | 0 <= k < |rest| ensures Less(sorted[0], rest[k]) {
          assert rest[k] in rest;
          if rest[k] != t {
            assert rest[k] in sorted[1..];
            var m :| 0 <= m < |sorted[1..]| && sorted[1..][m] == rest[k];
            assert rest[k] == sorted[m + 1];
          }
        }
        assert forall x :: x in sorted <==> x == sorted[0] || x in sorted[1..];
      }
    }
  }

  /** Each chain of each endpoint, once, in order. */
  lemma {:induction false} ChainsOfMeaning(endpoints: seq<Text>)
    ensures Sorted(ChainsOf(endpoints))
    ensures forall x :: x in ChainsOf(endpoints) <==> exists i | 0 <= i < |endpoints| :: x == Before(endpoints[i])
  {
    if endpoints != [] {
      ChainsOfMeaning(endpoints[1..]);
      InsertOnceSorted(Before(endpoints[0]), ChainsOf(endpoints[1..]));
      forall x ensures x in ChainsOf(endpoints) <==> exists i | 0 <= i < |endpoints| :: x == Before(endpoints[i]) {
        if x in ChainsOf(endpoints[1..]) {
          var i :| 0 <= i < |endpoints[1..]| && x == Before(endpoints[1..][i]);
          assert x == Before(endpoints[i + 1]);
        }
        if exists i | 0 <= i < |endpoints| :: x == Before(endpoints[i]) {
          var i :| 0 <= i < |endpoints| && x == Before(endpoints[i]);
          if i > 0 {
            assert x == Before(endpoints[1..][i - 1]);
          }
        }
      }
    }
  }

  // ----- the loop over a set, then a sort -----

  function Keys(texts: seq<Text>): (r: seq<Keyed<Text>>)
    ensures |r| == |texts| && forall i | 0 <= i < |r| :: r[i] == Keyed(texts[i], texts[i])
  {
    seq(|texts|, i requires 0 <= i < |texts| => Keyed(texts[i], texts[i]))
  }

  /** chains.add for both ends of each step, then [...chains].sort(). */
  method RequiredWalletChains(froms: seq<Text>, tos: seq<Text>) returns (r: seq<Text>)
    requires |froms| == |tos|
    ensures r == ChainsOf(froms + tos)
  {
    var chains: seq<Text> := [];
    for k := 0 to |froms|
      invariant forall i, j | 0 <= i < j < |chains| :: chains[i] != chains[j]
      invariant forall x :: x in chains <==> exists i | 0 <= i < k :: x == Before(froms[i]) || x == Before(tos[i])
    {
      var from, to := Before(froms[k]), Before(tos[k]);
      if from !in chains {
        chains := chains + [from];
      }
      if to !in chains {
        chains := chains + [to];
      }
    }
    var sorted := Sort(Keys(chains));
    r := seq(|sorted|, i requires 0 <= i < |sorted| => sorted[i].item);
    SortedTexts(chains, sorted, r);
    ChainsOfMeaning(froms + tos);
    SameElements(froms, tos, r);
    SortedUnique(r, ChainsOf(froms + tos));
  }

  lemma SortedTexts(texts: seq<Text>, sorted: seq<Keyed<Text>>, r: seq<Text>)
    requires forall i, j | 0 <= i < j < |texts| :: texts[i] != texts[j]
    requires sorted == Sort(Keys(texts)) && |r| == |sorted| && forall i | 0 <= i < |r| :: r[i] == sorted[i].item
    ensures Sorted(r) && forall x :: x in r <==> x in texts
  {
    SortAscending(Keys(texts));
    SortElements(Keys(texts));
    forall i | 0 <= i < |sorted| ensures sorted[i].key == sorted[i].item {
      assert sorted[i] in Keys(texts);
    }
    forall x ensures x in r <==> x in texts {
      if x in r {
        var i :| 0 <= i < |r| && r[i] == x;
        assert sorted[i] in Keys(texts);
      }
      if x in texts {
        var i :| 0 <= i < |texts| && texts[i] == x;
        assert Keys(texts)[i] in Keys(texts);
        assert Keyed(x, x) in sorted;
        var j :| 0 <= j < |sorted| && sorted[j] == Keyed(x, x);
        assert r[j] == x;
      }
    }
  }

  lemma SameElements(froms: seq<Text>, tos: seq<Text>, r: seq<Text>)
    requires |froms| == |tos|
    requires forall x :: x in r <==> exists i | 0 <= i < |froms| :: x == Before(froms[i]) || x == Before(tos[i])
    ensures forall x :: x in r <==> x in ChainsOf(froms + tos)
  {
    var all := froms + tos;
    ChainsOfMeaning(all);
    forall x ensures x in r <==> x in ChainsOf(all) {
      if x in r {
        var i :| 0 <= i < |froms| && (x == Before(froms[i]) || x == Before(tos[i]));
        assert all[i] == froms[i] && all[|froms| + i] == tos[i];
      }
      if x in ChainsOf(all) {
        var i :| 0 <= i < |all| && x == Before(all[i]);
        assert i < |froms| || all[i] == tos[i - |froms|];
      }
    }
  }

  lemma SortedUnique(a: seq<Text>, b: seq<Text>)
    requires Sorted(a) && Sorted(b) && forall x :: x in a <==> x in b
    ensures a == b
  {
    forall x ensures x in Keys(a) <==> x in Keys(b) {
      if x in Keys(a) {
        assert x.item in a && x.item in b;
        var i :| 0 <= i < |b| && b[i] == x.item;
        assert Keys(b)[i] == x;
      }
      if x in Keys(b) {
        assert x.item in b && x.item in a;
        var i :| 0 <= i < |a| && a[i] == x.item;
        assert Keys(a)[i] == x;
      }
    }
    AscendingUnique(Keys(a), Keys(b));
    assert |a| == |Keys(a)| && |b| == |Keys(b)|;
    forall i | 0 <= i < |a| ensures a[i] == b[i] {
      assert Keys(a)[i].item == Keys(b)[i].item;
    }
  }
}
