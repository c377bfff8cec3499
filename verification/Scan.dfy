/** Key order, prefix ranges, and the bounded pages that `store_scan_page` cuts from them. */
module Scan {
  import opened Bytes

  // ----- the order of a BTreeMap<String, _>

  predicate Less(a: bytes, b: bytes)
    decreases |a|
  {
    if b == [] then false
    else if a == [] then true
    else a[0] < b[0] || (a[0] == b[0] && Less(a[1..], b[1..]))
  }

  lemma {:induction false} LessTotal(a: bytes, b: bytes)
    ensures a == b || Less(a, b) || Less(b, a)
    ensures !(Less(a, b) && Less(b, a)) && !Less(a, a)
    decreases |a|
  {
    if a != [] {
      LessTotal(a[1..], a[1..]);
    }
    if a != [] && b != [] {
      LessTotal(a[1..], b[1..]);
      if a[0] == b[0] && a[1..] == b[1..] {
        assert a == [a[0]] + a[1..] && b == [b[0]] + b[1..];
      }
    }
  }

  lemma {:induction false} LessTransitive(a: bytes, b: bytes, c: bytes)
    requires Less(a, b) && Less(b, c)
    ensures Less(a, c)
    decreases |a|
  {
    if a != [] && b[0] == c[0] && a[0] == b[0] {
      LessTransitive(a[1..], b[1..], c[1..]);
    }
  }

  /** Between a prefix and a key that has it, every key has it: prefix ranges are contiguous. */
  lemma {:induction false} PrefixContiguous(prefix: bytes, low: bytes, high: bytes)
    requires (prefix == low || Less(prefix, low)) && Less(low, high) && prefix <= high
    ensures prefix <= low
    decreases |prefix|
  {
    if prefix != low && prefix != [] {
      assert prefix[0] == high[0];
      assert prefix[1..] <= high[1..];
      PrefixContiguous(prefix[1..], low[1..], high[1..]);
      assert prefix == [prefix[0]] + prefix[1..] && low == [low[0]] + low[1..];
    }
  }

  lemma {:induction false} PrefixLess(prefix: bytes, key: bytes)
    requires prefix <= key
    ensures prefix == key || Less(prefix, key)
    decreases |prefix|
  {
    if prefix != [] {
      assert prefix[0] == key[0] && prefix[1..] <= key[1..];
      PrefixLess(prefix[1..], key[1..]);
      assert prefix == [prefix[0]] + prefix[1..] && key == [key[0]] + key[1..];
    }
  }

  predicate Least(k: bytes, keys: set<bytes>) {
    k in keys && forall other :: other in keys ==> !Less(other, k)
  }

  lemma {:induction false} LeastExists(keys: set<bytes>)
    requires keys != {}
    ensures exists k :: Least(k, keys)
    decreases |keys|
  {
    var k :| k in keys;
    var rest := keys - {k};
    LessTotal(k, k);
    if rest == {} {
      assert keys == {k};
      assert Least(k, keys);
    } else {
      LeastExists(rest);
      var low :| Least(low, rest);
      LessTotal(k, low);
      if Less(k, low) {
        forall other | other in keys ensures !Less(other, k) {
          if Less(other, k) { LessTransitive(other, k, low); }
        }
        assert Least(k, keys);
      } else {
        assert Least(low, keys);
      }
    }
  }

  ghost predicate Ascending(order: seq<bytes>) {
    forall i, j :: 0 <= i < j < |order| ==> Less(order[i], order[j])
  }

  lemma LeastUnique(keys: set<bytes>)
    ensures forall a, b :: Least(a, keys) && Least(b, keys) ==> a == b
  {
    forall a, b | Least(a, keys) && Least(b, keys) ensures a == b {
      LessTotal(a, b);
    }
  }

  /** The keys of an index in the order its map iterates them. */
  function Order(keys: set<bytes>): (order: seq<bytes>)
    ensures forall k :: k in order <==> k in keys
    decreases |keys|
  {
    if keys == {} then [] else
    LeastExists(keys);
    LeastUnique(keys);
    var k :| k in keys && Least(k, keys);
    [k] + Order(keys - {k})
  }

  lemma {:induction false} OrderAscending(keys: set<bytes>)
    ensures Ascending(Order(keys))
    decreases |keys|
  {
    var order := Order(keys);
    if keys != {} {
      var k := order[0];
      assert Least(k, keys);
      assert order[1..] == Order(keys - {k});
      OrderAscending(keys - {k});
      forall j | 0 < j < |order| ensures Less(k, order[j]) {
        assert order[j] in order[1..];
        LessTotal(k, order[j]);
      }
      forall i, j | 0 < i < j < |order| ensures Less(order[i], order[j]) {
        assert Less(order[1..][i - 1], order[1..][j - 1]);
      }
    }
  }

  lemma {:induction false} OrderLength(keys: set<bytes>)
    ensures |Order(keys)| == |keys|
    decreases |keys|
  {
    if keys != {} {
      var k := Order(keys)[0];
      OrderLength(keys - {k});
    }
  }

  // ----- one page

  /** What `store_scan_page` returns over keys in iteration order. */
  function Page(order: seq<bytes>, prefix: bytes, after: bytes, limit: nat): seq<bytes>
    decreases |order|
  {
    if order == [] then [] else
    var start := if after == [] then prefix else after;
    if Less(order[0], start) then Page(order[1..], prefix, after, limit) else
    if !(prefix <= order[0]) then [] else
    if !Less(after, order[0]) then Page(order[1..], prefix, after, limit) else
    if limit == 0 then [] else
    [order[0]] + Page(order[1..], prefix, after, limit - 1)
  }

  /** The keys a scan is for: those with the prefix, past the cursor. */
  function Matching(order: seq<bytes>, prefix: bytes, after: bytes): seq<bytes>
    decreases |order|
  {
    if order == [] then []
    else (if prefix <= order[0] && Less(after, order[0]) then [order[0]] else [])
         + Matching(order[1..], prefix, after)
  }

  /** The cursors the callers pass: none, or the last key of a page with the same prefix. */
  predicate Cursor(prefix: bytes, after: bytes) { after == [] || prefix <= after }

  function Min(a: nat, b: nat): nat { if a < b then a else b }

  lemma {:induction false} NoneMatch(order: seq<bytes>, prefix: bytes, after: bytes, low: bytes)
    requires Ascending(order) && (forall i :: 0 <= i < |order| ==> Less(low, order[i]))
    requires (prefix == low || Less(prefix, low)) && !(prefix <= low)
    ensures Matching(order, prefix, after) == []
    decreases |order|
  {
    if order != [] {
      if prefix <= order[0] {
        PrefixContiguous(prefix, low, order[0]);
      }
      AscendingTail(order);
      NoneMatch(order[1..], prefix, after, low);
    }
  }

  lemma AscendingTail(order: seq<bytes>)
    requires Ascending(order) && order != []
    ensures Ascending(order[1..])
    ensures forall i :: 0 <= i < |order[1..]| ==> Less(order[0], order[1..][i])
  {}

  /** A page is the first `limit` of the matching keys: stopping at the first foreign key loses none. */
  lemma {:induction false} PageExact(order: seq<bytes>, prefix: bytes, after: bytes, limit: nat)
    requires Ascending(order) && Cursor(prefix, after)
    ensures var all := Matching(order, prefix, after);
            Page(order, prefix, after, limit) == all[..Min(limit, |all|)]
    decreases |order|
  {
    hide Less, Ascending;
    if order != [] {
      var k := order[0];
      var start := if after == [] then prefix else after;
      AscendingTail(order);
      if Less(k, start) {
        BelowStart(prefix, after, k);
        PageExact(order[1..], prefix, after, limit);
      } else if !(prefix <= k) {
        LessTotal(k, start);
        StartAbovePrefix(prefix, after, k);
        NoneMatch(order[1..], prefix, after, k);
      } else if !Less(after, k) {
        PageExact(order[1..], prefix, after, limit);
      } else if limit > 0 {
        PageExact(order[1..], prefix, after, limit - 1);
      }
    }
  }

  lemma BelowStart(prefix: bytes, after: bytes, k: bytes)
    requires Cursor(prefix, after) && Less(k, if after == [] then prefix else after)
    ensures !(prefix <= k && Less(after, k))
  {
    if after == [] {
      if prefix <= k { PrefixLess(prefix, k); LessTotal(prefix, k); }
    } else {
      LessTotal(after, k);
    }
  }

  lemma StartAbovePrefix(prefix: bytes, after: bytes, k: bytes)
    requires Cursor(prefix, after)
    requires var start := if after == [] then prefix else after; k == start || Less(start, k)
    ensures prefix == k || Less(prefix, k)
  {
    if after != [] {
      PrefixLess(prefix, after);
      if prefix != after && after != k {
        LessTransitive(prefix, after, k);
      }
    }
  }

  // ----- following the cursors

  lemma {:induction false} MatchingProperties(order: seq<bytes>, prefix: bytes, after: bytes)
    requires Ascending(order)
    ensures var all := Matching(order, prefix, after);
            && Ascending(all)
            && (forall k :: k in all <==> k in order && prefix <= k && Less(after, k))
    decreases |order|
  {
    hide Less;
    if order != [] {
      AscendingTail(order);
      MatchingProperties(order[1..], prefix, after);
      var rest := Matching(order[1..], prefix, after);
      var all := Matching(order, prefix, after);
      if prefix <= order[0] && Less(after, order[0]) {
        assert all == [order[0]] + rest;
        forall j | 0 < j < |all| ensures Less(all[0], all[j]) {
          assert all[j] in rest;
          assert all[j] in order[1..];
        }
      } else {
        assert all == rest;
      }
      assert forall k :: k in order <==> k == order[0] || k in order[1..];
    }
  }

  /** Past the last key of a page, what matches is what the page left. */
  lemma {:induction false} MatchingRest(order: seq<bytes>, prefix: bytes, after: bytes, n: nat)
    requires Ascending(order) && 0 < n <= |Matching(order, prefix, after)|
    ensures var all := Matching(order, prefix, after);
            Matching(order, prefix, all[n - 1]) == all[n..]
    decreases |order|
  {
    hide Less;
    var all := Matching(order, prefix, after);
    var k, rest := order[0], Matching(order[1..], prefix, after);
    AscendingTail(order);
    MatchingProperties(order[1..], prefix, after);
    if prefix <= k && Less(after, k) {
      assert all == [k] + rest;
      LessTotal(k, k);
      if n == 1 {
        AllPast(order[1..], prefix, after, k);
        assert all[1..] == rest;
      } else {
        MatchingRest(order[1..], prefix, after, n - 1);
        assert rest[n - 2] in rest && rest[n - 2] in order[1..];
        LessTotal(k, rest[n - 2]);
        assert all[n..] == rest[n - 1..];
      }
    } else {
      assert all == rest;
      MatchingRest(order[1..], prefix, after, n);
      assert rest[n - 1] in rest && rest[n - 1] in order[1..];
      LessTotal(k, rest[n - 1]);
    }
  }

  lemma {:induction false} AllPast(order: seq<bytes>, prefix: bytes, after: bytes, low: bytes)
    requires Less(after, low) && forall i :: 0 <= i < |order| ==> Less(low, order[i])
    ensures Matching(order, prefix, low) == Matching(order, prefix, after)
    decreases |order|
  {
    hide Less;
    if order != [] {
      LessTransitive(after, low, order[0]);
      assert forall i :: 0 <= i < |order[1..]| ==> order[1..][i] == order[i + 1];
      AllPast(order[1..], prefix, after, low);
    }
  }

  /** What a client reads that asks for pages until one comes back empty. */
  ghost function Follow(order: seq<bytes>, prefix: bytes, after: bytes, limit: nat): seq<bytes>
    requires Ascending(order) && Cursor(prefix, after)
    decreases |Matching(order, prefix, after)|
  {
    var page := Page(order, prefix, after, limit);
    PageExact(order, prefix, after, limit);
    if page == [] then [] else
    MatchingRest(order, prefix, after, |page|);
    MatchingProperties(order, prefix, after);
    assert page[|page| - 1] == Matching(order, prefix, after)[|page| - 1];
    assert page[|page| - 1] in Matching(order, prefix, after);
    page + Follow(order, prefix, page[|page| - 1], limit)
  }

  /** Paging repeats nothing and loses nothing: any limit of at least 1 reads every matching key in order. */
  lemma {:induction false} FollowComplete(order: seq<bytes>, prefix: bytes, after: bytes, limit: nat)
    requires Ascending(order) && Cursor(prefix, after) && limit > 0
    ensures Follow(order, prefix, after, limit) == Matching(order, prefix, after)
    decreases |Matching(order, prefix, after)|
  {
    hide Less, Ascending, Page, Matching;
    var page := Page(order, prefix, after, limit);
    var all := Matching(order, prefix, after);
    PageExact(order, prefix, after, limit);
    if page != [] {
      MatchingRest(order, prefix, after, |page|);
      MatchingProperties(order, prefix, after);
      assert page[|page| - 1] == all[|page| - 1] && all[|page| - 1] in all;
      assert all == page + all[|page|..];
      FollowComplete(order, prefix, page[|page| - 1], limit);
    }
  }

  /** The keys with a prefix in a store, read page by page, each once and in ascending order. */
  lemma PagesEnumerate(keys: set<bytes>, prefix: bytes, limit: nat)
    requires limit > 0 && [] !in keys
    ensures Ascending(Order(keys))
    ensures var read := Follow(Order(keys), prefix, [], limit);
            Ascending(read) && forall k :: k in read <==> k in keys && prefix <= k
  {
    OrderAscending(keys);
    FollowComplete(Order(keys), prefix, [], limit);
    MatchingProperties(Order(keys), prefix, []);
  }

  /** The loop of `store_scan_page` over the keys in the order the index iterates them. */
  method ScanPage(order: seq<bytes>, prefix: bytes, after: bytes, limit: nat) returns (records: seq<bytes>)
    ensures records == Page(order, prefix, after, limit)
  {
    var start := if after == [] then prefix else after;
    records := [];
    var i := 0;
    assert order[0..] == order;
    while i < |order|
      invariant 0 <= i <= |order| && |records| <= limit
      invariant Page(order, prefix, after, limit) == records + Page(order[i..], prefix, after, limit - |records|)
    {
      var key := order[i];
      assert order[i..][1..] == order[i + 1..];
      i := i + 1;
      if Less(key, start) {
        continue;
      }
      if !(prefix <= key) {
        break;
      }
      if !Less(after, key) {
        continue;
      }
      if |records| == limit {
        break;
      }
      records := records + [key];
    }
  }
}
