/**
 * One run of a scraper, as `BaseScraper.prototype.run` drives it
 * (models/scrapers/base-scraper.js): record the start and emit
 * `execution:start`; enumerate the item URLs; reject an empty list; drop
 * repeated URLs; let the site's `filterList` cut the list; reverse it;
 * fetch the items one at a time, turning an item error into a
 * `[url, err]` entry and dropping items that come back empty; record the
 * finish and emit exactly one of `execution:error` / `execution:finished`.
 *
 * The browser work is abstract: the enumeration is a `Result`, the site
 * filter and the per-item fetch are function parameters.  Also here:
 * `tryParseJson` and the array form of `runCode`.
 */
module Pipeline {
  import opened Wrappers
  import opened Values
  import ListFilter

  type Time = int

  /** An error a stage calls back with: always an Error object, so always truthy. */
  type Raised = f: Fault | f.Thrown? witness Thrown("", "Error")

  predicate Distinct(s: seq<string>)
  {
    forall i, j :: 0 <= i < j < |s| ==> s[i] != s[j]
  }

  // ------------------------------------------------------------- dedup

  /**
   * `nodups`: the URLs in list order, each kept where it first occurs
   * (the forEach that pushes a URL unless `nodups.indexOf(url)` finds it).
   */
  function Dedup(list: seq<string>): (r: seq<string>)
    ensures |r| <= |list|
    decreases |list|
  {
    if list == [] then []
    else
      var d := Dedup(list[..|list| - 1]);
      if list[|list| - 1] in d then d else d + [list[|list| - 1]]
  }

  /** Dedup keeps exactly the URLs of the list. */
  lemma {:induction false} DedupSameSet(list: seq<string>)
    ensures forall u :: u in Dedup(list) <==> u in list
    decreases |list|
  {
    if list != [] {
      var init := list[..|list| - 1];
      DedupSameSet(init);
      assert list == init + [list[|list| - 1]];
    }
  }

  /** Dedup leaves no URL twice. */
  lemma {:induction false} DedupDistinct(list: seq<string>)
    ensures Distinct(Dedup(list))
    decreases |list|
  {
    if list != [] {
      DedupDistinct(list[..|list| - 1]);
    }
  }

  /** A list without repeats passes dedup unchanged. */
  lemma {:induction false} DedupOfDistinct(list: seq<string>)
    requires Distinct(list)
    ensures Dedup(list) == list
    decreases |list|
  {
    if list != [] {
      var init := list[..|list| - 1];
      assert Distinct(init);
      DedupOfDistinct(init);
      assert list[|list| - 1] !in init;
      assert init + [list[|list| - 1]] == list;
    }
  }

  /** Deduplicating twice is deduplicating once. */
  lemma {:induction false} DedupIdempotent(list: seq<string>)
    ensures Dedup(Dedup(list)) == Dedup(list)
  {
    DedupDistinct(list);
    DedupOfDistinct(Dedup(list));
  }

  /**
   * Dedup keeps the order of first occurrences: a URL comes before another
   * in `nodups` exactly when it first occurs earlier in the list.
   */
  lemma {:induction false} DedupKeepsFirstOrder(list: seq<string>)
    ensures forall i, j :: 0 <= i < j < |Dedup(list)| ==>
              Dedup(list)[i] in list && Dedup(list)[j] in list &&
              ListFilter.Find(list, Dedup(list)[i]) < ListFilter.Find(list, Dedup(list)[j])
    decreases |list|
  {
    if list != [] {
      var init := list[..|list| - 1];
      var x := list[|list| - 1];
      var d := Dedup(init);
      var r := Dedup(list);
      DedupKeepsFirstOrder(init);
      DedupSameSet(init);
      assert list == init + [x];
      forall u | u in d ensures u in list && ListFilter.Find(list, u) == ListFilter.Find(init, u) {
        ListFilter.FindAppend(init, x, u);
      }
      if x !in d {
        assert x !in init;
        ListFilter.FindUnique(list, x, |init|);
        assert r == d + [x];
      }
      forall i, j | 0 <= i < j < |r|
        ensures r[i] in list && r[j] in list && ListFilter.Find(list, r[i]) < ListFilter.Find(list, r[j])
      {
        if x in d {
          assert r == d;
        }
        assert r[i] == d[i] && d[i] in d;
        if j < |d| {
          assert r[j] == d[j] && d[j] in d;
        } else {
          assert r[j] == x && ListFilter.Find(list, x) == |init|;
          assert ListFilter.Find(init, d[i]) < |init|;
        }
      }
    } else {
      assert Dedup(list) == [];
    }
  }

  /** The forEach of `run` that fills `nodups`. */
  method Nodups(list: seq<string>) returns (nodups: seq<string>)
    ensures nodups == Dedup(list)
  {
    nodups := [];
    var i := 0;
    while i < |list|
      invariant 0 <= i <= |list|
      invariant nodups == Dedup(list[..i])
    {
      assert list[..i + 1][..i] == list[..i];
      if list[i] !in nodups {
        nodups := nodups + [list[i]];
      }
      i := i + 1;
    }
    assert list[..i] == list;
  }

  // ----------------------------------------------------------- reverse

  /** `s` back to front. */
  function Reversed(s: seq<string>): (r: seq<string>)
    ensures |r| == |s|
    ensures forall i :: 0 <= i < |s| ==> r[i] == s[|s| - 1 - i]
  {
    if s == [] then [] else Reversed(s[1..]) + [s[0]]
  }

  /** Reversing twice gives the list back. */
  lemma {:induction false} ReversedTwice(s: seq<string>)
    ensures Reversed(Reversed(s)) == s
  {
  }

  /** Reversing keeps every URL, as often as it occurs. */
  lemma {:induction false} ReversedSameMultiset(s: seq<string>)
    ensures multiset(Reversed(s)) == multiset(s)
  {
    if s != [] {
      ReversedSameMultiset(s[1..]);
      assert s == [s[0]] + s[1..];
    }
  }

  /** `filtered.reverse()`: reverses the array in place. */
  method ReverseInPlace(a: array<string>)
    modifies a
    ensures a[..] == Reversed(old(a[..]))
  {
    var i, j := 0, a.Length - 1;
    while i < j
      invariant 0 <= i && j == a.Length - 1 - i && i <= a.Length - i
      invariant forall k :: 0 <= k < i ==> a[k] == old(a[a.Length - 1 - k]) && a[a.Length - 1 - k] == old(a[k])
      invariant forall k :: i <= k <= j ==> a[k] == old(a[k])
    {
      a[i], a[j] := a[j], a[i];
      i, j := i + 1, j - 1;
    }
  }

  // -------------------------------------------------------- item stage

  /** What `getItemData` calls back with: `(err, item)`. */
  datatype Reply = Reply(err: Option<Fault>, item: Value)

  /** One element of the result array: an item, or the `[url, err]` pair of a failed fetch. */
  datatype Entry = Item(rec: Value) | Failed(url: string, err: Fault)

  predicate ErrTruthy(e: Option<Fault>)
  {
    e.Some? && FaultTruthy(e.value)
  }

  /** What the per-item callback pushes for one reply: `[url, err]`, the item, or nothing. */
  function EntryFor(url: string, r: Reply): (es: seq<Entry>)
    ensures ErrTruthy(r.err) ==> es == [Failed(url, r.err.value)]
    ensures !ErrTruthy(r.err) && Truthy(r.item) ==> es == [Item(r.item)]
    ensures !ErrTruthy(r.err) && !Truthy(r.item) ==> es == []
  {
    if ErrTruthy(r.err) then [Failed(url, r.err.value)]
    else if Truthy(r.item) then [Item(r.item)]
    else []
  }

  /** An entry the item stage can produce: a truthy item or a failure with a truthy error. */
  predicate WellFormed(e: Entry)
  {
    match e
    case Item(v) => Truthy(v)
    case Failed(_, err) => FaultTruthy(err)
  }

  /** The result array of the item stage for the URLs in visiting order. */
  function Collect(urls: seq<string>, detail: string -> Reply): (data: seq<Entry>)
    ensures |data| <= |urls|
  {
    if urls == [] then []
    else EntryFor(urls[0], detail(urls[0])) + Collect(urls[1..], detail)
  }

  /**
   * Every collected entry is a truthy item or a failure with a truthy
   * error, and every failure names one of the visited URLs.
   */
  lemma {:induction false} CollectEntries(urls: seq<string>, detail: string -> Reply)
    ensures forall e :: e in Collect(urls, detail) ==> WellFormed(e)
    ensures forall e :: e in Collect(urls, detail) && e.Failed? ==> e.url in urls
  {
    if urls != [] {
      CollectEntries(urls[1..], detail);
      var head := EntryFor(urls[0], detail(urls[0]));
      assert Collect(urls, detail) == head + Collect(urls[1..], detail);
      forall e | e in Collect(urls, detail) && e.Failed? ensures e.url in urls {
        if e in head {
          assert e.url == urls[0];
        } else {
          assert e.url in urls[1..];
        }
      }
    }
  }

  /** Concatenation is associative. */
  lemma AppendAssoc<T>(a: seq<T>, b: seq<T>, c: seq<T>)
    ensures a + (b + c) == (a + b) + c
  {
  }

  /** The entries for `urls[i..]` are those of `urls[i]` followed by those for the rest. */
  lemma {:induction false} CollectStep(urls: seq<string>, i: nat, detail: string -> Reply)
    requires i < |urls|
    ensures Collect(urls[i..], detail) == EntryFor(urls[i], detail(urls[i])) + Collect(urls[i + 1..], detail)
  {
    assert urls[i..][1..] == urls[i + 1..];
  }

  /**
   * Items are independent: the entries for a list are the entries for its
   * first part followed by those for the rest, so a failing item neither
   * stops the loop nor changes what the others contribute.
   */
  lemma {:induction false} CollectConcat(a: seq<string>, b: seq<string>, detail: string -> Reply)
    ensures Collect(a + b, detail) == Collect(a, detail) + Collect(b, detail)
  {
    if a == [] {
      assert a + b == b;
    } else {
      assert (a + b)[0] == a[0];
      assert (a + b)[1..] == a[1..] + b;
      CollectConcat(a[1..], b, detail);
      var h := EntryFor(a[0], detail(a[0]));
      assert h + (Collect(a[1..], detail) + Collect(b, detail)) == (h + Collect(a[1..], detail)) + Collect(b, detail);
    }
  }

  /** When every fetch fails, each URL contributes its `[url, err]` pair, in order. */
  lemma {:induction false} CollectAllFailing(urls: seq<string>, detail: string -> Reply)
    requires forall i :: 0 <= i < |urls| ==> ErrTruthy(detail(urls[i]).err)
    ensures |Collect(urls, detail)| == |urls|
    ensures forall i :: 0 <= i < |urls| ==>
              Collect(urls, detail)[i].Failed? && Collect(urls, detail)[i].url == urls[i] &&
              Some(Collect(urls, detail)[i].err) == detail(urls[i]).err
  {
    if urls != [] {
      CollectAllFailing(urls[1..], detail);
    }
  }

  // ------------------------------------------------------ tryParseJson

  const BlockedHint := "\nSeems that we are blocked or page structure changed"

  /** What `JSON.parse` does with the page's answer: a value, or a thrown SyntaxError. */
  datatype ParseOutcome = ParsedValue(v: Value) | SyntaxError(message: string, stack: Stack)

  /** `tryParseJson`: the value it returns (`None` is `null`) and the error it passed to the callback. */
  datatype Parsed = Parsed(value: Option<Value>, reported: Option<Fault>)

  /**
   * `tryParseJson(json, callback)`: a truthy parsed value is returned and
   * the callback is not called; otherwise (a parse error, or a falsy value
   * which becomes `new Error('No data')`) the error's message gets the
   * blocked-page hint appended, the callback receives it, and `null` is
   * returned.  `frames` stands for the call-site part of the new error's stack.
   */
  function TryParseJson(parse: ParseOutcome, frames: string): (r: Parsed)
    ensures r.value.Some? <==> parse.ParsedValue? && Truthy(parse.v)
    ensures r.value.Some? ==> r.value.value == parse.v && r.reported.None?
    ensures r.value.None? ==> r.reported.Some? && r.reported.value.Thrown?
    ensures r.value.None? && parse.SyntaxError? ==>
              r.reported.value == Thrown(parse.message + BlockedHint, parse.stack)
    ensures r.value.None? && parse.ParsedValue? ==>
              r.reported.value.message == "No data" + BlockedHint
    ensures r.reported.Some? ==>
              |r.reported.value.message| >= |BlockedHint| &&
              r.reported.value.message[|r.reported.value.message| - |BlockedHint|..] == BlockedHint
  {
    match parse
    case ParsedValue(v) =>
      if Truthy(v) then Parsed(Some(v), None)
      else
        var e := NewError("No data", frames);
        Parsed(None, Some(Thrown(e.message + BlockedHint, e.stack)))
    case SyntaxError(m, st) =>
      Parsed(None, Some(Thrown(m + BlockedHint, st)))
  }

  // ------------------------------------------------- runCode, array form

  /** Index of the first truthy result, or -1 when there is none. */
  function FirstTruthyAt(results: seq<Value>): (k: int)
    ensures -1 <= k < |results|
    ensures k == -1 <==> forall i :: 0 <= i < |results| ==> !Truthy(results[i])
    ensures k >= 0 ==> Truthy(results[k]) && forall i :: 0 <= i < k ==> !Truthy(results[i])
  {
    if results == [] then -1
    else if Truthy(results[0]) then 0
    else
      var k := FirstTruthyAt(results[1..]);
      if k == -1 then -1 else k + 1
  }

  /**
   * The array branch of `runCode`: the page functions run in order, and
   * the `callbacked` flag lets only the first truthy result through to the
   * callback.  `results[i]` is what the i-th function evaluated to; the
   * answer is the list of values the callback received.
   */
  method RunCodeSeries(results: seq<Value>) returns (calls: seq<Value>)
    ensures |calls| <= 1
    ensures calls == [] <==> FirstTruthyAt(results) == -1
    ensures calls != [] ==> calls[0] == results[FirstTruthyAt(results)]
  {
    var callbacked := false;
    calls := [];
    var i := 0;
    while i < |results|
      invariant 0 <= i <= |results|
      invariant callbacked <==> calls != []
      invariant !callbacked ==> forall k :: 0 <= k < i ==> !Truthy(results[k])
      invariant callbacked ==> 0 <= FirstTruthyAt(results) < i && calls == [results[FirstTruthyAt(results)]]
    {
      var res := results[i];
      if Truthy(res) && !callbacked {
        callbacked := true;
        calls := calls + [res];
      }
      i := i + 1;
    }
  }

  // --------------------------------------------------------------- run

  /** What a scraper emits about a run. */
  datatype Event = Started | Errored(err: Fault) | Finished(data: seq<Entry>)

  /** The empty-list error's message. */
  const EmptyListMessage := "Empty URL list"

  /**
   * The terminal event of a run: the first stage error, else the result
   * array.  `frames` stands for the stack lines of the empty-list error.
   */
  function Outcome(listing: Result<seq<string>, Raised>, filter: seq<string> -> Result<seq<string>, Raised>,
                   detail: string -> Reply, frames: string): (e: Event)
    ensures e != Started
  {
    match listing
    case Err(f) => Errored(f)
    case Ok(list) =>
      if list == [] then Errored(NewError(EmptyListMessage, frames))
      else
        match filter(Dedup(list))
        case Err(f) => Errored(f)
        case Ok(filtered) =>
          if filtered == [] then Finished([])
          else Finished(Collect(Reversed(filtered), detail))
  }

  /** The URLs a run fetches, in the order it fetches them. */
  function Fetched(listing: Result<seq<string>, Raised>, filter: seq<string> -> Result<seq<string>, Raised>): seq<string>
  {
    if listing.Err? || listing.value == [] then []
    else
      match filter(Dedup(listing.value))
      case Err(_) => []
      case Ok(filtered) => Reversed(filtered)
  }

  /** An empty enumeration fails the run with 'Empty URL list' and fetches nothing. */
  lemma {:induction false} EmptyListFails(filter: seq<string> -> Result<seq<string>, Raised>, detail: string -> Reply, frames: string)
    ensures Outcome(Ok([]), filter, detail, frames).Errored?
    ensures Outcome(Ok([]), filter, detail, frames).err.message == EmptyListMessage
    ensures Fetched(Ok([]), filter) == []
  {
  }

  /**
   * A listing or filter stage that fails ends the run in that stage's
   * error, and nothing is fetched.
   */
  lemma {:induction false} StageErrorsFail(listing: Result<seq<string>, Raised>, filter: seq<string> -> Result<seq<string>, Raised>,
                          detail: string -> Reply, frames: string)
    ensures listing.Err? ==>
              Outcome(listing, filter, detail, frames) == Errored(listing.error) && Fetched(listing, filter) == []
    ensures listing.Ok? && listing.value != [] && filter(Dedup(listing.value)).Err? ==>
              Outcome(listing, filter, detail, frames) == Errored(filter(Dedup(listing.value)).error)
              && Fetched(listing, filter) == []
  {
  }

  /**
   * Once the filter has answered, the run finishes: the item stage never
   * fails it.  The result has at most one entry per filtered URL, the
   * failures name fetched URLs, and an empty filtered list gives `[]`.
   */
  lemma {:induction false} ItemStageNeverFails(list: seq<string>, filter: seq<string> -> Result<seq<string>, Raised>,
                            detail: string -> Reply, frames: string)
    requires list != [] && filter(Dedup(list)).Ok?
    ensures Outcome(Ok(list), filter, detail, frames).Finished?
    ensures |Outcome(Ok(list), filter, detail, frames).data| <= |filter(Dedup(list)).value|
    ensures filter(Dedup(list)).value == [] ==> Outcome(Ok(list), filter, detail, frames).data == []
    ensures forall e :: e in Outcome(Ok(list), filter, detail, frames).data && e.Failed? ==>
              e.url in filter(Dedup(list)).value
  {
    var filtered := filter(Dedup(list)).value;
    if filtered != [] {
      var data := Collect(Reversed(filtered), detail);
      CollectEntries(Reversed(filtered), detail);
      forall e | e in data && e.Failed? ensures e.url in filtered {
        var k :| 0 <= k < |filtered| && Reversed(filtered)[k] == e.url;
        assert filtered[|filtered| - 1 - k] == e.url;
      }
    }
  }

  /** `BaseScraper.prototype.filterList`: the list is passed on as it is. */
  function KeepAll(urls: seq<string>): Result<seq<string>, Raised>
  {
    Ok(urls)
  }

  /**
   * With the default filter a run fetches every enumerated URL, each
   * exactly once.
   */
  lemma {:induction false} DefaultFilterFetchesEach(list: seq<string>)
    requires list != []
    ensures Distinct(Fetched(Ok(list), KeepAll))
    ensures forall u :: u in Fetched(Ok(list), KeepAll) <==> u in list
  {
    var d := Dedup(list);
    DedupSameSet(list);
    DedupDistinct(list);
    ReversedSameMultiset(d);
    var f := Reversed(d);
    assert Fetched(Ok(list), KeepAll) == f;
    forall u ensures u in f <==> u in d {
      assert u in f <==> u in multiset(f);
      assert u in d <==> u in multiset(d);
    }
  }

  /** A scraper object as `run` sees it: its timestamps, what it emitted and what it fetched. */
  class Scraper {
    var started: Option<Time>
    var finished: Option<Time>
    var events: seq<Event>
    var fetched: seq<string>

    constructor ()
      ensures started == None && finished == None && events == [] && fetched == []
    {
      started, finished, events, fetched := None, None, [], [];
    }

    /**
     * The sequential per-item loop: each URL of `filtered` is fetched in
     * turn and its reply pushed as an entry.
     */
    method ProcessItems(filtered: array<string>, detail: string -> Reply) returns (data: seq<Entry>)
      modifies this`fetched
      ensures data == Collect(filtered[..], detail)
      ensures fetched == old(fetched) + filtered[..]
    {
      data := [];
      ghost var urls := filtered[..];
      var i := 0;
      while i < filtered.Length
        invariant 0 <= i <= filtered.Length
        invariant fetched == old(fetched) + urls[..i]
        invariant Collect(urls, detail) == data + Collect(urls[i..], detail)
      {
        var url := filtered[i];
        assert url == urls[i];
        fetched := fetched + [url];
        var reply := detail(url);
        CollectStep(urls, i, detail);
        ghost var before := data;
        ghost var rest := Collect(urls[i + 1..], detail);
        if ErrTruthy(reply.err) {
          data := data + [Failed(url, reply.err.value)];
        } else if Truthy(reply.item) {
          data := data + [Item(reply.item)];
        }
        assert data == before + EntryFor(url, reply);
        AppendAssoc(before, EntryFor(url, reply), rest);
        assert urls[..i + 1] == urls[..i] + [url];
        i := i + 1;
      }
      assert urls[i..] == [];
    }

    /**
     * `run()` started at `now` and ending at `later`: `execution:start`
     * first, then the stages, then exactly one terminal event.
     */
    method Run(now: Time, later: Time, listing: Result<seq<string>, Raised>,
               filter: seq<string> -> Result<seq<string>, Raised>, detail: string -> Reply, frames: string)
      modifies this
      ensures started == Some(now) && finished == Some(later)
      ensures events == old(events) + [Started, Outcome(listing, filter, detail, frames)]
      ensures fetched == old(fetched) + Fetched(listing, filter)
    {
      started := Some(now);
      events := events + [Started];
      var terminal: Event;
      if listing.Err? {
        terminal := Errored(listing.error);
      } else if listing.value == [] {
        terminal := Errored(NewError(EmptyListMessage, frames));
      } else {
        var nodups := Nodups(listing.value);
        var answer := filter(nodups);
        if answer.Err? {
          terminal := Errored(answer.error);
        } else if answer.value == [] {
          terminal := Finished([]);
        } else {
          var a := new string[|answer.value|](i requires 0 <= i < |answer.value| => answer.value[i]);
          assert a[..] == answer.value;
          ReverseInPlace(a);
          var data := ProcessItems(a, detail);
          terminal := Finished(data);
        }
      }
      finished := Some(later);
      events := events + [terminal];
    }
  }
}
