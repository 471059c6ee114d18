/**
 * The `filterList` step of each site scraper: which enumerated URLs are
 * left to fetch, given the advertisements already stored.
 *
 * Two algorithms exist.  db-writer, slando, irr, nn and posrednikov ask
 * for every stored error-free row whose `ad_url` is in the list and
 * splice the first occurrence of each such URL out of the list, in place;
 * avito and the legacy scraper ask for the newest such row only and keep
 * the part of the list before that URL.  Both then keep the last `limit`
 * entries when a limit is configured.
 *
 * The advertisement table is a sequence of rows in insertion (id) order.
 */
module ListFilter {
  import opened Wrappers

  /** A stored advertisement as the filters see it: its URL and its error column. */
  datatype Row = Row(adUrl: string, error: Option<string>)

  predicate Distinct(s: seq<string>)
  {
    forall i, j :: 0 <= i < j < |s| ==> s[i] != s[j]
  }

  // ------------------------------------------------------------- queries

  /**
   * `select ad_url ... where {ad_url: list, error: null} order by id DESC`:
   * the URLs of the error-free rows whose URL is in `list`, newest first.
   */
  function KnownGood(store: seq<Row>, list: seq<string>): (urls: seq<string>)
    ensures forall u :: u in urls <==> u in list && Row(u, None) in store
  {
    if store == [] then []
    else
      var row := store[|store| - 1];
      var rest := KnownGood(store[..|store| - 1], list);
      assert forall r :: r in store <==> r in store[..|store| - 1] || r == row by {
        assert store == store[..|store| - 1] + [row];
      }
      if row.error.None? && row.adUrl in list then [row.adUrl] + rest else rest
  }

  /** Row `j` is the newest error-free row whose URL is in `list`. */
  predicate NewestGood(store: seq<Row>, list: seq<string>, j: int)
  {
    && 0 <= j < |store| && store[j].error.None? && store[j].adUrl in list
    && forall j' :: j < j' < |store| ==> !(store[j'].error.None? && store[j'].adUrl in list)
  }

  /** `order by id DESC`: the first URL the query returns is that of the newest matching row. */
  lemma {:induction false} KnownGoodNewest(store: seq<Row>, list: seq<string>)
    ensures KnownGood(store, list) != [] ==>
              exists j :: NewestGood(store, list, j) && store[j].adUrl == KnownGood(store, list)[0]
    decreases |store|
  {
    if store != [] {
      var n := |store| - 1;
      var init := store[..n];
      if !(store[n].error.None? && store[n].adUrl in list) && KnownGood(init, list) != [] {
        KnownGoodNewest(init, list);
        var j :| NewestGood(init, list, j) && init[j].adUrl == KnownGood(init, list)[0];
        assert NewestGood(store, list, j);
      } else if store[n].error.None? && store[n].adUrl in list {
        assert NewestGood(store, list, n);
      }
    }
  }

  /**
   * The legacy scraper's query, `where {ad_url: list}`: the URLs of all
   * rows whose URL is in `list`, erroneous ones included, newest first.
   */
  function KnownAny(store: seq<Row>, list: seq<string>): (urls: seq<string>)
    ensures forall u :: u in urls <==> u in list && exists e :: Row(u, e) in store
  {
    if store == [] then []
    else
      var row := store[|store| - 1];
      var rest := KnownAny(store[..|store| - 1], list);
      assert forall r :: r in store <==> r in store[..|store| - 1] || r == row by {
        assert store == store[..|store| - 1] + [row];
      }
      if row.adUrl in list then [row.adUrl] + rest else rest
  }

  /** Row `j` is the newest row whose URL is in `list`, whatever its error column. */
  predicate NewestAny(store: seq<Row>, list: seq<string>, j: int)
  {
    && 0 <= j < |store| && store[j].adUrl in list
    && forall j' :: j < j' < |store| ==> store[j'].adUrl !in list
  }

  /** The first URL of the legacy query is that of the newest row with a URL of the list. */
  lemma {:induction false} KnownAnyNewest(store: seq<Row>, list: seq<string>)
    ensures KnownAny(store, list) != [] ==>
              exists j :: NewestAny(store, list, j) && store[j].adUrl == KnownAny(store, list)[0]
    decreases |store|
  {
    if store != [] {
      var n := |store| - 1;
      var init := store[..n];
      if store[n].adUrl !in list && KnownAny(init, list) != [] {
        assert KnownAny(store, list) == KnownAny(init, list);
        KnownAnyNewest(init, list);
        var j :| NewestAny(init, list, j) && init[j].adUrl == KnownAny(init, list)[0];
        NewestAnyBelowOther(store, list, j);
      } else if store[n].adUrl in list {
        assert NewestAny(store, list, n);
      }
    }
  }

  /** A newest row stays the newest when a row of another URL is added after it. */
  lemma {:induction false} NewestAnyBelowOther(store: seq<Row>, list: seq<string>, j: int)
    requires store != [] && store[|store| - 1].adUrl !in list
    requires NewestAny(store[..|store| - 1], list, j)
    ensures NewestAny(store, list, j)
  {
    assert forall j' :: 0 <= j' < |store| - 1 ==> store[..|store| - 1][j'] == store[j'];
  }

  // --------------------------------------------------------------- limit

  /**
   * `if (limit && limit < filtered.length) filtered = filtered.slice(length - limit)`;
   * a `limit` of 0 stands for no limit.
   */
  function LimitTail(list: seq<string>, limit: nat): (r: seq<string>)
    ensures limit != 0 && limit < |list| ==> |r| == limit
    ensures !(limit != 0 && limit < |list|) ==> r == list
    ensures r == list[|list| - |r|..]
  {
    if limit != 0 && limit < |list| then list[|list| - limit..] else list
  }

  /** Keeping the tail twice is keeping it once, and the tail never exceeds the limit. */
  lemma {:induction false} LimitTailIdempotent(list: seq<string>, limit: nat)
    ensures LimitTail(LimitTail(list, limit), limit) == LimitTail(list, limit)
    ensures limit != 0 ==> |LimitTail(list, limit)| <= limit
  {
  }

  // ------------------------------------------------- remove every known URL

  /** Index of the first `u` in `list`, or -1 (`list.indexOf(u)`). */
  function Find(list: seq<string>, u: string): (k: int)
    ensures -1 <= k < |list|
    ensures k == -1 <==> u !in list
    ensures k >= 0 ==> list[k] == u && u !in list[..k]
  {
    if list == [] then -1
    else if list[0] == u then 0
    else
      var k := Find(list[1..], u);
      if k == -1 then -1
      else
        assert list[..k + 1] == [list[0]] + list[1..][..k];
        k + 1
  }

  /** A position holding `u` with no `u` before it is the first occurrence. */
  lemma {:induction false} FindUnique(s: seq<string>, u: string, j: nat)
    requires j < |s| && s[j] == u && u !in s[..j]
    ensures Find(s, u) == j
  {
    var k := Find(s, u);
    assert forall i :: 0 <= i < j ==> s[..j][i] == s[i];
    assert forall i :: 0 <= i < k ==> s[..k][i] == s[i];
  }

  /** The first occurrence of a URL in a list is not moved by appending to it. */
  lemma {:induction false} FindAppend(s: seq<string>, x: string, u: string)
    requires u in s
    ensures Find(s + [x], u) == Find(s, u)
  {
    var k := Find(s, u);
    assert (s + [x])[..k] == s[..k];
    FindUnique(s + [x], u, k);
  }

  /** `list` without the first occurrence of `u`, if any. */
  function RemoveFirst(list: seq<string>, u: string): (r: seq<string>)
    ensures |r| == if u in list then |list| - 1 else |list|
    ensures forall x :: x in r ==> x in list
  {
    if list == [] then []
    else if list[0] == u then list[1..]
    else [list[0]] + RemoveFirst(list[1..], u)
  }

  /** Without an occurrence there is nothing to remove. */
  lemma {:induction false} RemoveAbsent(list: seq<string>, u: string)
    requires u !in list
    ensures RemoveFirst(list, u) == list
  {
    if list != [] {
      RemoveAbsent(list[1..], u);
      assert [list[0]] + list[1..] == list;
    }
  }

  /** Cutting out the element at the first occurrence of `u` removes that occurrence. */
  lemma {:induction false} CutAtFirst(list: seq<string>, u: string, k: nat)
    requires k < |list| && list[k] == u && u !in list[..k]
    ensures list[..k] + list[k + 1..] == RemoveFirst(list, u)
  {
    if k == 0 {
      assert list[..0] + list[1..] == list[1..];
    } else {
      assert list[0] in list[..k];
      assert list[1..][..k - 1] == list[1..k];
      assert u !in list[1..][..k - 1];
      CutAtFirst(list[1..], u, k - 1);
      SpliceShift(list, k - 1);
    }
  }

  /** `list.splice(list.indexOf(u), 1)` guarded by `idx !== -1` removes the first occurrence. */
  lemma {:induction false} SpliceRemovesFirst(list: seq<string>, u: string)
    ensures Find(list, u) == -1 ==> RemoveFirst(list, u) == list
    ensures Find(list, u) >= 0 ==> list[..Find(list, u)] + list[Find(list, u) + 1..] == RemoveFirst(list, u)
  {
    var k := Find(list, u);
    if k == -1 {
      RemoveAbsent(list, u);
    } else {
      CutAtFirst(list, u, k);
    }
  }

  /** Cutting one element out of `list` past its head is cutting it out of the tail. */
  lemma {:induction false} SpliceShift(list: seq<string>, k: nat)
    requires k + 1 < |list|
    ensures list[..k + 1] + list[k + 2..] == [list[0]] + (list[1..][..k] + list[1..][k + 1..])
  {
    assert list[..k + 1] == [list[0]] + list[1..][..k];
    assert list[k + 2..] == list[1..][k + 1..];
  }

  /** The URLs removed one after the other, each at its first occurrence. */
  function RemoveEach(list: seq<string>, drop: seq<string>): (r: seq<string>)
    ensures |r| <= |list|
    ensures forall x :: x in r ==> x in list
    decreases |drop|
  {
    if drop == [] then list else RemoveEach(RemoveFirst(list, drop[0]), drop[1..])
  }

  /** The reference: the URLs of `list` not in `drop`, in their order. */
  function Without(list: seq<string>, drop: seq<string>): (r: seq<string>)
    ensures |r| <= |list|
    ensures forall u :: u in r <==> u in list && u !in drop
  {
    if list == [] then []
    else (if list[0] in drop then [] else [list[0]]) + Without(list[1..], drop)
  }

  /** On a list without repeats, removing the first `u` is removing every `u`. */
  lemma {:induction false} RemoveFirstDistinct(list: seq<string>, u: string)
    requires Distinct(list)
    ensures RemoveFirst(list, u) == Without(list, [u])
    ensures Distinct(RemoveFirst(list, u))
  {
    if list != [] {
      assert Distinct(list[1..]);
      if list[0] == u {
        assert u !in list[1..];
        WithoutNothing(list[1..], [u]);
      } else {
        RemoveFirstDistinct(list[1..], u);
        assert list[0] !in RemoveFirst(list[1..], u);
      }
    }
  }

  /** Dropping URLs the list does not hold changes nothing. */
  lemma {:induction false} WithoutNothing(list: seq<string>, drop: seq<string>)
    requires forall u :: u in drop ==> u !in list
    ensures Without(list, drop) == list
  {
    if list != [] {
      WithoutNothing(list[1..], drop);
    }
  }

  /** Dropping `u` and then the rest is dropping them all at once. */
  lemma {:induction false} WithoutTwice(list: seq<string>, u: string, rest: seq<string>)
    ensures Without(Without(list, [u]), rest) == Without(list, [u] + rest)
  {
    if list != [] {
      WithoutTwice(list[1..], u, rest);
      var w := Without(list[1..], [u]);
      if list[0] != u {
        assert Without(list, [u]) == [list[0]] + w;
        assert ([list[0]] + w)[1..] == w;
        assert list[0] in [u] + rest <==> list[0] in rest;
      } else {
        assert Without(list, [u]) == w;
        assert list[0] in [u] + rest;
      }
    }
  }

  /**
   * On a list without repeats (the deduplicated list `run` passes in),
   * splicing out each known URL keeps exactly the unknown URLs, in order.
   */
  lemma {:induction false} RemoveEachDistinct(list: seq<string>, drop: seq<string>)
    requires Distinct(list)
    ensures RemoveEach(list, drop) == Without(list, drop)
    decreases |drop|
  {
    if drop == [] {
      WithoutNothing(list, drop);
    } else {
      RemoveFirstDistinct(list, drop[0]);
      RemoveEachDistinct(RemoveFirst(list, drop[0]), drop[1..]);
      WithoutTwice(list, drop[0], drop[1..]);
      assert [drop[0]] + drop[1..] == drop;
    }
  }

  /** Removing `drop[i..]` is removing `drop[i]` first, then the rest. */
  lemma {:induction false} RemoveEachStep(list: seq<string>, drop: seq<string>, i: nat)
    requires i < |drop|
    ensures RemoveEach(list, drop[i..]) == RemoveEach(RemoveFirst(list, drop[i]), drop[i + 1..])
  {
    assert drop[i..][1..] == drop[i + 1..];
  }

  /** The forEach over the query rows that splices each known URL out of `list`. */
  method SpliceKnown(list: seq<string>, known: seq<string>) returns (rest: seq<string>)
    ensures rest == RemoveEach(list, known)
  {
    rest := list;
    var i := 0;
    while i < |known|
      invariant 0 <= i <= |known|
      invariant RemoveEach(list, known) == RemoveEach(rest, known[i..])
    {
      var idx := Find(rest, known[i]);
      SpliceRemovesFirst(rest, known[i]);
      RemoveEachStep(rest, known, i);
      if idx != -1 {
        rest := rest[..idx] + rest[idx + 1..];
      }
      i := i + 1;
    }
  }

  /**
   * The splice variant of `filterList`.  `guarded` says whether the site
   * returns an empty list at once (db-writer, slando, posrednikov) or
   * queries anyway (irr, nn); `queried` says whether the table was asked.
   */
  method SpliceFilter(list: seq<string>, store: seq<Row>, limit: nat, guarded: bool)
    returns (filtered: seq<string>, queried: bool)
    ensures queried <==> !guarded || list != []
    ensures !queried ==> filtered == list
    ensures queried ==> filtered == LimitTail(RemoveEach(list, KnownGood(store, list)), limit)
  {
    if guarded && list == [] {
      return list, false;
    }
    queried := true;
    var rest := SpliceKnown(list, KnownGood(store, list));
    filtered := LimitTail(rest, limit);
  }

  /**
   * What the splice filter leaves of a deduplicated list: only URLs with
   * no error-free stored row, in list order, at most `limit` of them, and
   * the newest of those when the limit cuts.
   */
  lemma {:induction false} SpliceFilterKeepsUnknown(list: seq<string>, store: seq<Row>, limit: nat)
    requires Distinct(list)
    ensures var kept := RemoveEach(list, KnownGood(store, list));
            && kept == Without(list, KnownGood(store, list))
            && (forall u :: u in kept <==> u in list && Row(u, None) !in store)
            && (limit != 0 ==> |LimitTail(kept, limit)| <= limit)
  {
    RemoveEachDistinct(list, KnownGood(store, list));
  }

  /** Filtering an already filtered list against the same table changes nothing more. */
  lemma {:induction false} SpliceFilterIdempotent(list: seq<string>, store: seq<Row>)
    requires Distinct(list)
    ensures var kept := RemoveEach(list, KnownGood(store, list));
            RemoveEach(kept, KnownGood(store, kept)) == kept
  {
    var kept := RemoveEach(list, KnownGood(store, list));
    RemoveEachDistinct(list, KnownGood(store, list));
    WithoutDistinct(list, KnownGood(store, list));
    RemoveEachDistinct(kept, KnownGood(store, kept));
    WithoutNothing(kept, KnownGood(store, kept));
  }

  /** Filtering keeps a list free of repeats. */
  lemma {:induction false} WithoutDistinct(list: seq<string>, drop: seq<string>)
    requires Distinct(list)
    ensures Distinct(Without(list, drop))
  {
    if list != [] {
      assert Distinct(list[1..]);
      WithoutDistinct(list[1..], drop);
    }
  }

  // ------------------------------------------------- cut at the newest known

  /** `list.slice(0, idx)` with JavaScript's rule for a negative end. */
  function SliceTo(list: seq<string>, idx: int): (r: seq<string>)
    ensures idx >= 0 ==> r == list[..if idx <= |list| then idx else |list|]
    ensures idx < 0 ==> r == list[..if |list| + idx >= 0 then |list| + idx else 0]
  {
    if idx >= 0 then list[..if idx <= |list| then idx else |list|]
    else list[..if |list| + idx >= 0 then |list| + idx else 0]
  }

  /**
   * The cut variant of `filterList`: with no known row the whole list,
   * otherwise the part before the newest known URL; then the limit tail.
   */
  function CutAtNewest(list: seq<string>, known: seq<string>, limit: nat): (r: seq<string>)
    ensures forall x :: x in r ==> x in list
    ensures limit != 0 ==> |r| <= limit
    ensures known != [] && known[0] in list ==> known[0] !in r
  {
    if known == [] then LimitTail(list, limit)
    else LimitTail(SliceTo(list, Find(list, known[0])), limit)
  }

  /** avito.js: the newest stored error-free row decides the cut. */
  function AvitoFilter(list: seq<string>, store: seq<Row>, limit: nat): (r: seq<string>)
    ensures forall x :: x in r ==> x in list
    ensures limit != 0 ==> |r| <= limit
    ensures forall j :: NewestGood(store, list, j) ==> store[j].adUrl !in r
  {
    KnownGoodNewest(store, list);
    CutAtNewest(list, KnownGood(store, list), limit)
  }

  /** scrapers.js: the newest stored row decides, whatever its error column. */
  function LegacyFilter(list: seq<string>, store: seq<Row>, limit: nat): (r: seq<string>)
    ensures forall x :: x in r ==> x in list
    ensures limit != 0 ==> |r| <= limit
    ensures forall j :: NewestAny(store, list, j) ==> store[j].adUrl !in r
  {
    KnownAnyNewest(store, list);
    CutAtNewest(list, KnownAny(store, list), limit)
  }

  /**
   * Because the query only returns URLs of the list, `indexOf` always
   * finds the newest one: the result is a prefix of the list that stops
   * right before that URL (then cut to the limit), so it never holds the
   * newest known URL when the list has no repeats.
   */
  lemma {:induction false} CutNeverMissesIndex(list: seq<string>, known: seq<string>, limit: nat)
    requires known != [] && known[0] in list
    ensures Find(list, known[0]) >= 0
    ensures var k := Find(list, known[0]);
            CutAtNewest(list, known, limit) == LimitTail(list[..k], limit) && known[0] !in list[..k]
  {
  }

  /** The avito cut keeps nothing from the newest error-free stored URL onwards. */
  lemma {:induction false} AvitoFilterStopsAtNewest(list: seq<string>, store: seq<Row>, limit: nat)
    ensures var known := KnownGood(store, list);
            && (known == [] ==> AvitoFilter(list, store, limit) == LimitTail(list, limit))
            && (known != [] ==>
                  && known[0] in list && Row(known[0], None) in store
                  && (exists j :: NewestGood(store, list, j) && store[j].adUrl == known[0])
                  && AvitoFilter(list, store, limit) == LimitTail(list[..Find(list, known[0])], limit))
  {
    var known := KnownGood(store, list);
    KnownGoodNewest(store, list);
    if known != [] {
      assert known[0] in known;
      CutNeverMissesIndex(list, known, limit);
    }
  }

  /** The legacy cut also stops at a newest stored URL whose row recorded an error. */
  lemma {:induction false} LegacyFilterStopsAtNewest(list: seq<string>, store: seq<Row>, limit: nat)
    ensures var known := KnownAny(store, list);
            && (known == [] ==> LegacyFilter(list, store, limit) == LimitTail(list, limit))
            && (known != [] ==>
                  && known[0] in list
                  && (exists j :: NewestAny(store, list, j) && store[j].adUrl == known[0])
                  && LegacyFilter(list, store, limit) == LimitTail(list[..Find(list, known[0])], limit))
  {
    var known := KnownAny(store, list);
    KnownAnyNewest(store, list);
    if known != [] {
      assert known[0] in known;
      CutNeverMissesIndex(list, known, limit);
    }
  }

  /**
   * Where the two cut variants differ: a newest row that recorded an error
   * stops the legacy cut but not the avito one.
   */
  lemma {:induction false} ErrorRowOnlyStopsLegacy(u: string, v: string)
    requires u != v
    ensures AvitoFilter([u, v], [Row(v, Some("e"))], 0) == [u, v]
    ensures LegacyFilter([u, v], [Row(v, Some("e"))], 0) == [u]
  {
    var store := [Row(v, Some("e"))];
    assert store[..0] == [];
    assert KnownGood(store, [u, v]) == [];
    assert KnownAny(store, [u, v]) == [v];
    assert Find([u, v], v) == 1;
  }
}
