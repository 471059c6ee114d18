/**
 * The `execution:error` and `execution:finished` handlers of the site
 * scrapers: one execution row per run, then one advertisement row per
 * result entry, signed with the run's SID, the execution id and (on most
 * sites) a checksum.
 *
 * The database is an object holding the two tables as sequences; the
 * execution id is the row's position, counted from 1, as an
 * auto-increment column hands it out.  An insert the database refuses is
 * modelled by `accepts`: the row is not stored and the loop goes on.
 * SHA-1 is the parameter `sha1`; what matters is the string it is given.
 */
module Persistence {
  import opened Wrappers
  import opened Values
  import Pipeline

  /** The site scrapers whose handlers differ. */
  datatype Site = DbWriter | Slando | Irr | Nn | Posrednikov | Avito

  type Time = int

  /** A row of the executions table. `records` is only written on success. */
  datatype Execution = Execution(
    id: nat,
    sid: int,
    start: Option<Time>,
    finish: Option<Time>,
    records: Option<nat>,
    error: Option<string>)

  // ----------------------------------------------------- error handler

  /**
   * The error text an `execution:error` row stores: 'Unknown error' for a
   * missing or falsy error, otherwise the error's stack or the error itself.
   */
  function ErrorText(err: Option<Fault>): (t: string)
    ensures t != ""
    ensures !Pipeline.ErrTruthy(err) ==> t == "Unknown error"
    ensures Pipeline.ErrTruthy(err) && err.value.Thrown? ==> t == err.value.stack
    ensures Pipeline.ErrTruthy(err) && err.value.Text? ==> t == err.value.text
  {
    if err.None? || !FaultTruthy(err.value) then "Unknown error" else StackOrSelf(err.value)
  }

  // -------------------------------------------------- finished handler

  /** The `error` column of a `[url, err]` entry: db-writer prefixes the time of writing. */
  function ErrorColumn(site: Site, err: Fault, now: Time): string
  {
    if site == DbWriter then IntText(now) + ": " + StackOrSelf(err) else StackOrSelf(err)
  }

  /**
   * The stored error ends with the error's stack (or the error itself);
   * db-writer puts the time first, elsewhere a falsy error leaves it empty.
   */
  lemma {:induction false} ErrorColumnText(site: Site, err: Fault, now: Time)
    ensures var r := ErrorColumn(site, err, now);
            && |r| >= |StackOrSelf(err)| && r[|r| - |StackOrSelf(err)|..] == StackOrSelf(err)
            && (site == DbWriter ==> |r| >= |IntText(now)| + 2 && r[..|IntText(now)|] == IntText(now))
            && (site != DbWriter ==> (r != "" <==> FaultTruthy(err)))
  {
    var r := ErrorColumn(site, err, now);
    if site == DbWriter {
      assert r == (IntText(now) + ": ") + StackOrSelf(err);
    }
  }

  /** The record a `[url, err]` entry becomes before it is signed. */
  function FailedRecord(site: Site, url: string, err: Fault, now: Time): (r: Record)
    ensures r.Keys == {"ad_url", "error"} && Get(r, "ad_url") == Str(url)
    ensures Get(r, "error") == Str(ErrorColumn(site, err, now))
  {
    map["ad_url" := Str(url), "error" := Str(ErrorColumn(site, err, now))]
  }

  /** What `sha1(item.sid, ':', item.ad_url, ...)` is given: irr and nn leave the error out. */
  function Preimage(site: Site, sid: int, rec: Record): string
  {
    var head := IntText(sid) + ":" + JoinPart(Get(rec, "ad_url"));
    if site == Irr || site == Nn then head else head + ":" + JoinPart(Get(rec, "error"))
  }

  /**
   * The checksum's input starts with the sid and ':'; it ends after the URL
   * exactly on irr and nn, and goes on with ':' and the error elsewhere.
   */
  lemma {:induction false} PreimageShape(site: Site, sid: int, rec: Record)
    ensures var r := Preimage(site, sid, rec);
            && |r| > |IntText(sid)| && r[..|IntText(sid)| + 1] == IntText(sid) + ":"
            && (site == Irr || site == Nn <==> |r| == |IntText(sid)| + 1 + |JoinPart(Get(rec, "ad_url"))|)
  {
    var r := Preimage(site, sid, rec);
    var p, u := IntText(sid) + ":", JoinPart(Get(rec, "ad_url"));
    var tail := if site == Irr || site == Nn then u else u + ":" + JoinPart(Get(rec, "error"));
    assert r == p + tail;
    assert r[..|p|] == p;
  }

  /** db-writer's rule: a record with neither a phone nor an error gets the phone 'empty'. */
  predicate PhoneRule(site: Site, rec: Record)
  {
    site == DbWriter && !Truthy(Get(rec, "ad_landlord_phone")) && !Truthy(Get(rec, "error"))
  }

  /** The keys signing may write. */
  predicate Signing(k: string)
  {
    k == "sid" || k == "eid" || k == "checksum" || k == "ad_landlord_phone"
  }

  /**
   * `item.sid`, `item.eid`, the checksum (not on avito) and db-writer's
   * phone rule, applied to a record.
   */
  function Sign(site: Site, sid: int, eid: nat, sha1: string -> string, base: Record): (r: Record)
    ensures Get(r, "sid") == Num(sid) && Get(r, "eid") == Num(eid)
  {
    var r1 := base["sid" := Num(sid)]["eid" := Num(eid)];
    var r2 := if site == Avito then r1 else r1["checksum" := Str(sha1(Preimage(site, sid, r1)))];
    if PhoneRule(site, r2) then r2["ad_landlord_phone" := Str("empty")] else r2
  }

  /** What signing writes: the checksum (except on avito) and db-writer's phone. */
  lemma {:induction false} SignColumns(site: Site, sid: int, eid: nat, sha1: string -> string, base: Record)
    ensures var r := Sign(site, sid, eid, sha1, base);
            && (site != Avito ==> "checksum" in r && Get(r, "checksum") == Str(sha1(Preimage(site, sid, base))))
            && (site == Avito ==> Get(r, "checksum") == Get(base, "checksum"))
            && (PhoneRule(site, base) ==> Get(r, "ad_landlord_phone") == Str("empty"))
            && (!PhoneRule(site, base) ==> Get(r, "ad_landlord_phone") == Get(base, "ad_landlord_phone"))
  {
    var r1 := base["sid" := Num(sid)]["eid" := Num(eid)];
    var r2 := if site == Avito then r1 else r1["checksum" := Str(sha1(Preimage(site, sid, r1)))];
    assert Preimage(site, sid, r1) == Preimage(site, sid, base) by {
      assert Get(r1, "ad_url") == Get(base, "ad_url") && Get(r1, "error") == Get(base, "error");
    }
    assert Get(r2, "ad_landlord_phone") == Get(base, "ad_landlord_phone") && Get(r2, "error") == Get(base, "error");
  }

  /** Signing keeps every column and changes none but the ones it writes. */
  lemma {:induction false} SignKeeps(site: Site, sid: int, eid: nat, sha1: string -> string, base: Record)
    ensures var r := Sign(site, sid, eid, sha1, base);
            && (forall k :: k in base ==> k in r)
            && (forall k :: k in r && !Signing(k) ==> k in base && r[k] == base[k])
  {
  }

  /** Entries the handlers can store: `[url, err]` pairs and plain objects. */
  predicate Storable(e: Pipeline.Entry)
  {
    e.Failed? || e.rec.Obj?
  }

  /** The advertisement row one entry of the result array becomes. */
  function RecordFor(site: Site, sid: int, eid: nat, now: Time, sha1: string -> string, e: Pipeline.Entry): (r: Record)
    requires Storable(e)
    ensures Get(r, "sid") == Num(sid) && Get(r, "eid") == Num(eid)
  {
    match e
    case Failed(url, err) => Sign(site, sid, eid, sha1, FailedRecord(site, url, err, now))
    case Item(v) => Sign(site, sid, eid, sha1, v.fields)
  }

  /**
   * The row of a `[url, err]` entry: its URL, the site's error column, no
   * phone, and a checksum except on avito.
   */
  lemma {:induction false} FailedColumns(site: Site, sid: int, eid: nat, now: Time, sha1: string -> string, url: string, err: Fault)
    ensures var r := RecordFor(site, sid, eid, now, sha1, Pipeline.Failed(url, err));
            && Get(r, "ad_url") == Str(url) && Get(r, "error") == Str(ErrorColumn(site, err, now))
            && "ad_landlord_phone" !in r
            && (site != Avito ==> Get(r, "checksum") == Str(sha1(Preimage(site, sid, FailedRecord(site, url, err, now)))))
            && (site == Avito ==> "checksum" !in r)
  {
    var base := FailedRecord(site, url, err, now);
    FailedKeepsNoPhone(site, url, err, now);
    SignColumns(site, sid, eid, sha1, base);
    SignKeeps(site, sid, eid, sha1, base);
    assert !Signing("ad_url") && !Signing("error");
  }

  /** db-writer's error column is never empty, so its phone rule never fires on a failed fetch. */
  lemma {:induction false} FailedKeepsNoPhone(site: Site, url: string, err: Fault, now: Time)
    ensures !PhoneRule(site, FailedRecord(site, url, err, now))
  {
    if site == DbWriter {
      assert ErrorColumn(site, err, now)[|IntText(now)|] == ':';
    }
  }

  /** The row of an object entry keeps every field signing does not write, and (except on avito) carries its checksum. */
  lemma {:induction false} ItemColumns(site: Site, sid: int, eid: nat, now: Time, sha1: string -> string, fields: Record)
    ensures var r := RecordFor(site, sid, eid, now, sha1, Pipeline.Item(Obj(fields)));
            && (forall k :: k in fields && !Signing(k) ==> Get(r, k) == fields[k])
            && (site != Avito ==> Get(r, "checksum") == Str(sha1(Preimage(site, sid, fields))))
  {
    SignColumns(site, sid, eid, sha1, fields);
    SignKeeps(site, sid, eid, sha1, fields);
  }

  /** The rows `row` makes of a result array, in its order: the i-th row is the i-th entry's. */
  function Rows(row: Pipeline.Entry --> Record, data: seq<Pipeline.Entry>): seq<Record>
    requires forall e :: e in data ==> row.requires(e)
  {
    seq(|data|, i requires 0 <= i < |data| => row(data[i]))
  }

  /** The row maker of one execution. */
  function RowMaker(site: Site, sid: int, eid: nat, now: Time, sha1: string -> string): Pipeline.Entry --> Record
  {
    e requires Storable(e) => RecordFor(site, sid, eid, now, sha1, e)
  }

  /** The rows for a whole result array. */
  function Records(site: Site, sid: int, eid: nat, now: Time, sha1: string -> string, data: seq<Pipeline.Entry>): (rs: seq<Record>)
    requires forall e :: e in data ==> Storable(e)
    ensures |rs| == |data|
    ensures forall i :: 0 <= i < |rs| ==> Get(rs[i], "sid") == Num(sid) && Get(rs[i], "eid") == Num(eid)
  {
    Rows(RowMaker(site, sid, eid, now, sha1), data)
  }

  /** The rows the database takes, in insertion order. */
  function Accepted(rs: seq<Record>, accepts: Record -> bool): (r: seq<Record>)
    ensures |r| <= |rs|
  {
    if rs == [] then []
    else Accepted(rs[..|rs| - 1], accepts) + (if accepts(rs[|rs| - 1]) then [rs[|rs| - 1]] else [])
  }

  lemma {:induction false} RowsSnoc(row: Pipeline.Entry --> Record, data: seq<Pipeline.Entry>, i: nat)
    requires i < |data| && forall e :: e in data ==> row.requires(e)
    ensures Rows(row, data[..i + 1]) == Rows(row, data[..i]) + [row(data[i])]
  {
    assert data[..i + 1][..i] == data[..i];
  }

  /** One turn of the insert loop: the next entry's row is stored if the database takes it. */
  lemma {:induction false} StoreStep(site: Site, sid: int, eid: nat, now: Time, sha1: string -> string,
                  data: seq<Pipeline.Entry>, i: nat, accepts: Record -> bool)
    requires i < |data| && forall e :: e in data ==> Storable(e)
    ensures var r := RecordFor(site, sid, eid, now, sha1, data[i]);
            (Accepted(Records(site, sid, eid, now, sha1, data[..i + 1]), accepts)
               == Accepted(Records(site, sid, eid, now, sha1, data[..i]), accepts) + (if accepts(r) then [r] else []))
  {
    RowsSnoc(RowMaker(site, sid, eid, now, sha1), data, i);
    AcceptedSnoc(Records(site, sid, eid, now, sha1, data[..i]), RecordFor(site, sid, eid, now, sha1, data[i]), accepts);
  }

  lemma {:induction false} AcceptedSnoc(rs: seq<Record>, r: Record, accepts: Record -> bool)
    ensures Accepted(rs + [r], accepts) == Accepted(rs, accepts) + (if accepts(r) then [r] else [])
  {
    assert (rs + [r])[..|rs|] == rs;
  }

  /** A refused row is skipped and no other row is lost: stored rows are exactly the accepted ones. */
  lemma {:induction false} AcceptedMembers(rs: seq<Record>, accepts: Record -> bool)
    ensures forall r :: r in Accepted(rs, accepts) <==> r in rs && accepts(r)
  {
    if rs != [] {
      var init := rs[..|rs| - 1];
      AcceptedMembers(init, accepts);
      assert rs == init + [rs[|rs| - 1]];
    }
  }

  /** When every insert succeeds, every entry is stored, in order. */
  lemma {:induction false} AcceptedAll(rs: seq<Record>, accepts: Record -> bool)
    requires forall r :: r in rs ==> accepts(r)
    ensures Accepted(rs, accepts) == rs
  {
    if rs != [] {
      var init := rs[..|rs| - 1];
      AcceptedAll(init, accepts);
      assert rs == init + [rs[|rs| - 1]];
    }
  }

  /**
   * irr and nn leave the error out of the checksum, so the row of a failed
   * fetch and the row of a successful one for the same URL collide.
   */
  lemma {:induction false} ChecksumIgnoresError(site: Site, sid: int, eid1: nat, eid2: nat, now: Time, sha1: string -> string,
                             url: string, err: Fault, fields: Record)
    requires site == Irr || site == Nn
    requires Get(fields, "ad_url") == Str(url)
    ensures RecordFor(site, sid, eid1, now, sha1, Pipeline.Failed(url, err))["checksum"]
         == RecordFor(site, sid, eid2, now, sha1, Pipeline.Item(Obj(fields)))["checksum"]
  {
    FailedColumns(site, sid, eid1, now, sha1, url, err);
    ItemColumns(site, sid, eid2, now, sha1, fields);
    assert Preimage(site, sid, FailedRecord(site, url, err, now)) == Preimage(site, sid, fields);
  }

  /**
   * db-writer, slando and posrednikov sign the error too: the row of a
   * failed fetch and an error-free row for the same URL are given different
   * strings to hash.
   */
  lemma {:induction false} ChecksumSeparatesError(site: Site, sid: int, now: Time, url: string, err: Fault, fields: Record)
    requires site == DbWriter || site == Slando || site == Posrednikov
    requires FaultTruthy(err)
    requires Get(fields, "ad_url") == Str(url) && (Get(fields, "error") == Undefined || Get(fields, "error") == Null)
    ensures Preimage(site, sid, FailedRecord(site, url, err, now)) != Preimage(site, sid, fields)
  {
    var head := IntText(sid) + ":" + url;
    assert Preimage(site, sid, fields) == head + ":";
    assert |Preimage(site, sid, FailedRecord(site, url, err, now))| == |head| + 1 + |ErrorColumn(site, err, now)|;
  }

  /** The database: the executions and advertisements tables. */
  class Store {
    var executions: seq<Execution>
    var ads: seq<Record>

    constructor ()
      ensures executions == [] && ads == []
    {
      executions, ads := [], [];
    }

    /** `execution:error`: exactly one execution row, holding the normalised error and no record count. */
    method RecordError(sid: int, started: Option<Time>, finished: Option<Time>, err: Option<Fault>)
      modifies this`executions
      ensures executions == old(executions) + [Execution(|old(executions)| + 1, sid, started, finished, None, Some(ErrorText(err)))]
    {
      var text: string;
      if err.None? || !FaultTruthy(err.value) {
        text := "Unknown error";
      } else {
        text := StackOrSelf(err.value);
      }
      executions := executions + [Execution(|executions| + 1, sid, started, finished, None, Some(text))];
    }

    /**
     * `execution:finished`: one execution row with `records = |data|` and
     * no error, then one insert per entry, signed with that row's id; a
     * refused insert does not stop the loop.
     */
    method RecordFinished(site: Site, sid: int, started: Option<Time>, finished: Option<Time>,
                          data: seq<Pipeline.Entry>, now: Time, sha1: string -> string, accepts: Record -> bool)
      requires forall e :: e in data ==> Storable(e)
      modifies this`executions, this`ads
      ensures executions == old(executions) + [Execution(|old(executions)| + 1, sid, started, finished, Some(|data|), None)]
      ensures ads == old(ads) + Accepted(Records(site, sid, |old(executions)| + 1, now, sha1, data), accepts)
    {
      var eid := |executions| + 1;
      var stored: seq<Record> := [];
      var i := 0;
      while i < |data|
        invariant 0 <= i <= |data|
        invariant executions == old(executions) && ads == old(ads)
        invariant stored == Accepted(Records(site, sid, eid, now, sha1, data[..i]), accepts)
      {
        var item := RecordFor(site, sid, eid, now, sha1, data[i]);
        StoreStep(site, sid, eid, now, sha1, data, i, accepts);
        if accepts(item) {
          stored := stored + [item];
        }
        i := i + 1;
      }
      assert data[..i] == data;
      executions := executions + [Execution(eid, sid, started, finished, Some(|data|), None)];
      ads := ads + stored;
    }

    /** The legacy scraper's `execution:finished`: entries are errors, strings or objects, and no checksum. */
    method RecordLegacyFinished(sid: int, started: Option<Time>, finished: Option<Time>,
                                data: seq<LegacyEntry>, accepts: Record -> bool)
      modifies this
      ensures executions == old(executions) + [Execution(|old(executions)| + 1, sid, started, finished, Some(|data|), None)]
      ensures ads == old(ads) + Accepted(LegacyRecords(sid, |old(executions)| + 1, data), accepts)
    {
      var eid := |executions| + 1;
      executions := executions + [Execution(eid, sid, started, finished, Some(|data|), None)];
      var i := 0;
      while i < |data|
        invariant 0 <= i <= |data|
        invariant executions == old(executions) + [Execution(eid, sid, started, finished, Some(|data|), None)]
        invariant ads == old(ads) + Accepted(LegacyRecords(sid, eid, data[..i]), accepts)
      {
        var item := LegacyRecord(sid, eid, data[i]);
        LegacyStoreStep(sid, eid, data, i, accepts);
        if accepts(item) {
          ads := ads + [item];
        }
        i := i + 1;
      }
      assert data[..i] == data;
    }
  }

  /** One stored run: the result array's length is the execution's record count, and every entry is stored. */
  lemma {:induction false} FinishedStoresEveryEntry(site: Site, sid: int, eid: nat, now: Time, sha1: string -> string,
                                 data: seq<Pipeline.Entry>, accepts: Record -> bool)
    requires forall e :: e in data ==> Storable(e)
    requires forall r :: accepts(r)
    ensures |Accepted(Records(site, sid, eid, now, sha1, data), accepts)| == |data|
    ensures forall r :: r in Accepted(Records(site, sid, eid, now, sha1, data), accepts) ==>
              Get(r, "sid") == Num(sid) && Get(r, "eid") == Num(eid)
  {
    var rs := Records(site, sid, eid, now, sha1, data);
    AcceptedAll(rs, accepts);
    forall r | r in rs ensures Get(r, "sid") == Num(sid) && Get(r, "eid") == Num(eid) {
      var i :| 0 <= i < |rs| && rs[i] == r;
    }
  }

  // ------------------------------------------------------ legacy handler

  /** An entry of the legacy scraper's result array: an Error, a string, or an object. */
  datatype LegacyEntry = LFault(f: Fault) | LObj(rec: Record)

  /** An Error becomes `{error: stack}`, a string `{error: it}`, an object stays; then sid and eid. */
  function LegacyRecord(sid: int, eid: nat, e: LegacyEntry): (r: Record)
    ensures Get(r, "sid") == Num(sid) && Get(r, "eid") == Num(eid)
    ensures e.LFault? ==> r.Keys == {"error", "sid", "eid"} && Get(r, "error") == Str(StackOrSelf(e.f))
    ensures e.LObj? ==> forall k :: k in e.rec && k != "sid" && k != "eid" ==> Get(r, k) == e.rec[k]
    ensures e.LObj? ==> r.Keys == e.rec.Keys + {"sid", "eid"}
  {
    var base := match e
      case LFault(f) => map["error" := Str(StackOrSelf(f))]
      case LObj(rec) => rec;
    base["sid" := Num(sid)]["eid" := Num(eid)]
  }

  /** The legacy rows for a whole result array, in its order. */
  function LegacyRecords(sid: int, eid: nat, data: seq<LegacyEntry>): (rs: seq<Record>)
  {
    seq(|data|, i requires 0 <= i < |data| => LegacyRecord(sid, eid, data[i]))
  }

  /** One turn of the legacy insert loop. */
  lemma {:induction false} LegacyStoreStep(sid: int, eid: nat, data: seq<LegacyEntry>, i: nat, accepts: Record -> bool)
    requires i < |data|
    ensures var r := LegacyRecord(sid, eid, data[i]);
            Accepted(LegacyRecords(sid, eid, data[..i + 1]), accepts)
              == Accepted(LegacyRecords(sid, eid, data[..i]), accepts) + (if accepts(r) then [r] else [])
  {
    var r := LegacyRecord(sid, eid, data[i]);
    assert LegacyRecords(sid, eid, data[..i + 1]) == LegacyRecords(sid, eid, data[..i]) + [r];
    AcceptedSnoc(LegacyRecords(sid, eid, data[..i]), r, accepts);
  }
}
