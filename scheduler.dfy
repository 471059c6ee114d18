/**
 * The per-source task scheduler of models/scheduler.js.
 *
 * Each configured source gets a task spec (a `Task` here) whose fields the
 * three scraper lifecycle handlers (`execution:start`, `execution:error`,
 * `execution:finished`) and `runNow` update in place.  Time is the `now`
 * parameter of each event; a `setTimeout` is a `Timer` entered into the
 * task's `pending` set (the timers the runtime will fire to call
 * `spec.run`), and `clearTimeout` removes it from that set.
 */
module Scheduler {
  import opened Wrappers
  import opened Values
  import Text

  type Time = int

  /**
   * One entry of the `scrapers` configuration.  A `timeout` or `limit` of 0
   * stands for the setting being absent (both are only checked for truthiness).
   */
  datatype Conf = Conf(sid: int, interval: nat, timeout: nat, limit: nat)

  /** `spec.status`: 'idle', 'working' or 'error'. */
  datatype Status = Idle | Working | Failed

  function StatusName(s: Status): (r: string)
    ensures s == Idle <==> r == "idle"
    ensures s == Working <==> r == "working"
    ensures s == Failed <==> r == "error"
  {
    match s
    case Idle => "idle"
    case Working => "working"
    case Failed => "error"
  }

  /**
   * `spec.message`: absent until the first event, a note written by the
   * scheduler, or the error value the scraper reported, passed on as is.
   */
  datatype Message = Unset | Note(text: string) | Reported(err: Option<Fault>)

  const ScrapingNote := "Scraping around..."

  /** `util.format('Fetched %d records', n)`. */
  function FetchedNote(n: nat): (r: string)
    ensures |r| > |"Fetched  records"|
    ensures r[..8] == "Fetched " && r[|r| - 8..] == " records"
  {
    "Fetched " + NatText(n) + " records"
  }

  /** The five fields `copy(spec, 'sid,status,last,next,message')` hands to listeners. */
  datatype Snapshot = Snapshot(sid: int, status: Status, last: Option<Time>, next: Option<Time>, message: Message)

  /** What the scheduler emits: `exec:start`, `exec:error` and `exec:finished`. */
  datatype Broadcast =
    | ExecStart(spec: Snapshot)
    | ExecError(err: Option<Fault>, spec: Snapshot)
    | ExecFinished(spec: Snapshot)

  /** A timer handle returned by `setTimeout`. */
  datatype Timer = Timer(id: nat, due: Time)

  // ------------------------------------------------------------------ copy

  /** The property list 'sid,status,last,next,message': five names joined by commas. */
  const SnapshotProps := "sid" + [','] + ("status" + [','] + ("last" + [','] + ("next" + [','] + "message")))

  /**
   * The keys `copy` visits: the comma-separated segments, trimmed, up to
   * (not including) the first empty segment, where `keys.shift()` yields a
   * falsy value and the loop stops.
   */
  function Names(parts: seq<string>): (r: seq<string>)
    ensures |r| <= |parts|
    ensures forall i :: 0 <= i < |r| ==> parts[i] != "" && r[i] == Text.Trim(parts[i])
    ensures |r| < |parts| ==> parts[|r|] == ""
  {
    if parts == [] || parts[0] == "" then []
    else
      var rest := Names(parts[1..]);
      assert forall i :: 1 <= i <= |rest| ==> parts[1..][i - 1] == parts[i];
      [Text.Trim(parts[0])] + rest
  }

  function CopiedKeys(props: string): seq<string>
  {
    Names(Text.Split(props, ','))
  }

  /**
   * `copy(src, props)`: a fresh object holding, for every key named in
   * `props`, the source's value (`undefined` where the source has none),
   * and nothing else.
   */
  method Copy(src: Record, props: string) returns (dest: Record)
    ensures forall k :: k in dest <==> k in CopiedKeys(props)
    ensures forall k :: k in dest ==> dest[k] == Get(src, k)
  {
    var keys := Text.Split(props, ',');
    ghost var done: seq<string> := [];
    dest := map[];
    while keys != [] && keys[0] != ""
      invariant Names(Text.Split(props, ',')) == done + Names(keys)
      invariant forall k :: k in dest <==> k in done
      invariant forall k :: k in dest ==> dest[k] == Get(src, k)
      decreases |keys|
    {
      var k := Text.Trim(keys[0]);
      NamesStep(done, keys);
      keys := keys[1..];
      dest := dest[k := Get(src, k)];
      done := done + [k];
    }
  }

  /** One turn of the copy loop: the next non-empty segment moves to the visited names. */
  lemma {:induction false} NamesStep(done: seq<string>, keys: seq<string>)
    requires keys != [] && keys[0] != ""
    ensures done + Names(keys) == (done + [Text.Trim(keys[0])]) + Names(keys[1..])
  {
    var rest := Names(keys[1..]);
    assert Names(keys) == [Text.Trim(keys[0])] + rest;
    assert done + ([Text.Trim(keys[0])] + rest) == (done + [Text.Trim(keys[0])]) + rest;
  }

  /** Splitting five separator-free names joined by the separator gives them back. */
  lemma {:induction false} SplitFive(a: string, b: string, c: string, d: string, e: string, sep: char)
    requires sep !in a && sep !in b && sep !in c && sep !in d && sep !in e
    ensures Text.Split(a + [sep] + (b + [sep] + (c + [sep] + (d + [sep] + e))), sep) == [a, b, c, d, e]
  {
    Text.SplitNone(e, sep);
    Text.SplitFirst(d, e, sep);
    Text.SplitFirst(c, d + [sep] + e, sep);
    Text.SplitFirst(b, c + [sep] + (d + [sep] + e), sep);
    Text.SplitFirst(a, b + [sep] + (c + [sep] + (d + [sep] + e)), sep);
  }

  /** A key name `copy` reads back as itself: non-empty, no comma, no white-space margin. */
  predicate PlainKey(w: string)
  {
    ',' !in w && w != [] && !Text.IsSpace(w[0]) && !Text.IsSpace(w[|w| - 1])
  }

  /** The names of a list of plain keys are the keys themselves. */
  lemma {:induction false} NamesOfPlain(parts: seq<string>)
    requires forall i :: 0 <= i < |parts| ==> PlainKey(parts[i])
    ensures Names(parts) == parts
  {
    if parts != [] {
      Text.TrimOfTrimmed(parts[0]);
      NamesOfPlain(parts[1..]);
    }
  }

  /** Plain keys joined by commas come back from `copy`'s key parsing unchanged. */
  lemma {:induction false} CopiedKeysFive(a: string, b: string, c: string, d: string, e: string)
    requires PlainKey(a) && PlainKey(b) && PlainKey(c) && PlainKey(d) && PlainKey(e)
    ensures CopiedKeys(a + [','] + (b + [','] + (c + [','] + (d + [','] + e)))) == [a, b, c, d, e]
  {
    SplitFive(a, b, c, d, e, ',');
    NamesOfPlain([a, b, c, d, e]);
  }

  /** The key list the scheduler passes to `copy`. */
  lemma {:induction false} SnapshotPropsKeys()
    ensures CopiedKeys(SnapshotProps) == ["sid", "status", "last", "next", "message"]
  {
    assert PlainKey("sid") && PlainKey("status") && PlainKey("last") && PlainKey("next") && PlainKey("message");
    CopiedKeysFive("sid", "status", "last", "next", "message");
  }

  /**
   * Whatever a task object holds (its `run` closure and `_tm` handle
   * included), a broadcast copy has exactly the five snapshot keys.
   */
  lemma {:induction false} CopyOmitsHandles()
    ensures (set k | k in CopiedKeys(SnapshotProps)) == {"sid", "status", "last", "next", "message"}
    ensures "run" !in CopiedKeys(SnapshotProps) && "_tm" !in CopiedKeys(SnapshotProps)
  {
    SnapshotPropsKeys();
    SnapshotKeySet(CopiedKeys(SnapshotProps));
  }

  lemma {:induction false} SnapshotKeySet(keys: seq<string>)
    requires keys == ["sid", "status", "last", "next", "message"]
    ensures (set k | k in keys) == {"sid", "status", "last", "next", "message"}
    ensures "run" !in keys && "_tm" !in keys
  {
  }

  // ------------------------------------------------------------------ tasks

  /** One task spec: the object `scheduleScraping` builds for a configuration entry. */
  class Task {
    const conf: Conf
    const sid: int
    var status: Status
    var last: Option<Time>
    var next: Option<Time>
    var message: Message
    /** `spec._tm`: the handle of the last timer a lifecycle handler armed. */
    var tm: Option<Timer>
    /** The armed timers (not yet fired or cleared) that will call `spec.run`. */
    var pending: set<Timer>
    /** Number of timers armed for this task so far; also the next timer's id. */
    var armed: nat
    /** `scraper.started`: when the scraper's current or last run began. */
    var started: Option<Time>
    /** Number of calls of `spec.run()`. */
    var runs: nat
    /** The events this task's handlers emitted on the scheduler, oldest first. */
    var emitted: seq<Broadcast>

    ghost predicate Valid()
      reads this
    {
      && sid == conf.sid
      && (forall t :: t in pending ==> t.id < armed)
      && (tm.Some? ==> tm.value.id < armed)
    }

    function View(): (s: Snapshot)
      reads this
      ensures s.sid == sid && s.status == status && s.last == last && s.next == next && s.message == message
    {
      Snapshot(sid, status, last, next, message)
    }

    /**
     * The state the forEach body of `scheduleScraping` leaves a task in:
     * status 'idle' and last/next null, then either an immediate run (no
     * timeout: the start handler has made it 'working' and `next` is now)
     * or a start timer of `timeout` ms that is NOT stored in `_tm`.
     */
    ghost predicate Initialised(c: Conf, now: Time)
      reads this
    {
      && Valid() && conf == c && last == None && tm == None
      && (c.timeout == 0 ==>
            && status == Working && message == Note(ScrapingNote)
            && next == Some(now) && started == Some(now) && runs == 1
            && pending == {} && armed == 0
            && emitted == [ExecStart(Snapshot(c.sid, Working, None, None, Note(ScrapingNote)))])
      && (c.timeout != 0 ==>
            && status == Idle && message == Unset
            && next == Some(now + c.timeout) && started == None && runs == 0
            && pending == {Timer(0, now + c.timeout)} && armed == 1
            && emitted == [])
    }

    constructor (c: Conf, now: Time)
      ensures Initialised(c, now)
    {
      conf := c;
      sid := c.sid;
      status := Idle;
      last := None;
      next := None;
      message := Unset;
      tm := None;
      pending := {};
      armed := 0;
      started := None;
      runs := 0;
      emitted := [];
      new;
      if c.timeout == 0 {
        Run(now);
        next := Some(now);
      } else {
        pending := {Timer(0, now + c.timeout)};
        armed := 1;
        next := Some(now + c.timeout);
      }
    }

    /**
     * `spec.run()`: the scraper records its start time and emits
     * `execution:start`, whose handler makes this task 'working' and
     * broadcasts it.  The handler does not touch `last` or `next`.
     * Nothing here checks the status: a run that is already working is
     * started again.
     */
    method Run(now: Time)
      requires Valid()
      modifies this
      ensures Valid()
      ensures started == Some(now) && runs == old(runs) + 1
      ensures status == Working && message == Note(ScrapingNote)
      ensures last == old(last) && next == old(next)
      ensures tm == old(tm) && pending == old(pending) && armed == old(armed)
      ensures emitted == old(emitted) + [ExecStart(Snapshot(sid, Working, last, next, Note(ScrapingNote)))]
    {
      started := Some(now);
      runs := runs + 1;
      status := Working;
      message := Note(ScrapingNote);
      emitted := emitted + [ExecStart(View())];
    }

    /** Arms a fresh timer of `delay` ms and stores its handle in `_tm`. */
    method ArmTimer(now: Time, delay: nat)
      requires Valid()
      modifies this`tm, this`pending, this`armed
      ensures Valid()
      ensures tm == Some(Timer(old(armed), now + delay)) && armed == old(armed) + 1
      ensures tm.value !in old(pending) && pending == old(pending) + {tm.value}
    {
      var t := Timer(armed, now + delay);
      tm := Some(t);
      pending := pending + {t};
      armed := armed + 1;
    }

    /**
     * The `execution:error` handler: status 'error', the error as message,
     * `last` = the run's start, `next` = now + interval, broadcast, and a
     * new interval timer stored in `_tm`.
     */
    method OnError(err: Option<Fault>, now: Time)
      requires Valid()
      modifies this
      ensures Valid()
      ensures status == Failed && message == Reported(err)
      ensures last == old(started) && next == Some(now + conf.interval)
      ensures tm == Some(Timer(old(armed), now + conf.interval)) && armed == old(armed) + 1
      ensures tm.value !in old(pending) && pending == old(pending) + {tm.value}
      ensures started == old(started) && runs == old(runs)
      ensures emitted == old(emitted) + [ExecError(err, Snapshot(sid, Failed, last, next, Reported(err)))]
    {
      status := Failed;
      message := Reported(err);
      last := started;
      next := Some(now + conf.interval);
      emitted := emitted + [ExecError(err, View())];
      ArmTimer(now, conf.interval);
    }

    /**
     * The `execution:finished` handler: status 'idle', message
     * 'Fetched N records' with N the number of result entries, `last` = the
     * run's start, `next` = now + interval, broadcast, new interval timer.
     */
    method OnFinished(count: nat, now: Time)
      requires Valid()
      modifies this
      ensures Valid()
      ensures status == Idle && message == Note(FetchedNote(count))
      ensures last == old(started) && next == Some(now + conf.interval)
      ensures tm == Some(Timer(old(armed), now + conf.interval)) && armed == old(armed) + 1
      ensures tm.value !in old(pending) && pending == old(pending) + {tm.value}
      ensures started == old(started) && runs == old(runs)
      ensures emitted == old(emitted) + [ExecFinished(Snapshot(sid, Idle, last, next, Note(FetchedNote(count))))]
    {
      status := Idle;
      message := Note(FetchedNote(count));
      last := started;
      next := Some(now + conf.interval);
      emitted := emitted + [ExecFinished(View())];
      ArmTimer(now, conf.interval);
    }

    /**
     * What `runNow` does to a task that is not working: the timer in `_tm`
     * leaves the queue, the run starts now with 'Scraping around...' and is
     * broadcast, and `last`, `next` and `_tm` itself stay as they were.
     */
    twostate predicate Restarted(now: Time)
      reads this
    {
      && pending == old(pending) - (if old(tm).Some? then {old(tm).value} else {})
      && runs == old(runs) + 1 && started == Some(now)
      && status == Working && message == Note(ScrapingNote)
      && last == old(last) && next == old(next) && tm == old(tm) && armed == old(armed)
      && emitted == old(emitted) + [ExecStart(Snapshot(sid, Working, last, next, Note(ScrapingNote)))]
    }

    /**
     * `runNow` on this task: nothing at all while it is working; otherwise
     * the timer in `_tm` is cleared and it runs.  Only `_tm` is
     * cleared: any other pending timer (the start timer in particular)
     * stays armed.
     */
    method RunNow(now: Time)
      requires Valid()
      modifies this
      ensures Valid()
      ensures old(status) == Working ==> unchanged(this)
      ensures old(status) != Working ==> Restarted(now)
    {
      if status != Working {
        if tm.Some? {
          pending := pending - {tm.value};
        }
        Run(now);
      }
    }

    /**
     * A pending timer fires: it leaves the queue and calls `spec.run`,
     * whatever its task's status.
     */
    method Fire(t: Timer, now: Time)
      requires Valid() && t in pending
      modifies this
      ensures Valid()
      ensures pending == old(pending) - {t}
      ensures runs == old(runs) + 1 && started == Some(now)
      ensures status == Working && message == Note(ScrapingNote)
      ensures last == old(last) && next == old(next) && tm == old(tm) && armed == old(armed)
      ensures emitted == old(emitted) + [ExecStart(Snapshot(sid, Working, last, next, Note(ScrapingNote)))]
    {
      pending := pending - {t};
      Run(now);
    }
  }

  /**
   * Because the start timer is not kept in `_tm`, `runNow` before the
   * timeout cannot cancel it: when it fires, the source is run a second
   * time although the first run is still working.
   */
  method StartTimerSurvivesRunNow(c: Conf, now: Time, later: Time) returns (runs: nat, status: Status, stillArmed: bool)
    requires c.timeout > 0
    ensures stillArmed
    ensures runs == 2 && status == Working
  {
    var t := new Task(c, now);
    t.RunNow(now);
    stillArmed := Timer(0, now + c.timeout) in t.pending;
    t.Fire(Timer(0, now + c.timeout), later);
    runs, status := t.runs, t.status;
  }

  // -------------------------------------------------------------- scheduler

  /** Index `i` holds the last configuration entry with its SID (a later one replaces it in `tasks`). */
  predicate LastWithSid(configs: seq<Conf>, i: int)
    requires 0 <= i < |configs|
  {
    LastBefore(configs, i, |configs|)
  }

  /** No entry after the `k`-th and before the `n`-th repeats its SID. */
  predicate LastBefore(configs: seq<Conf>, k: int, n: int)
    requires 0 <= k < n <= |configs|
  {
    forall j :: k < j < n ==> configs[j].sid != configs[k].sid
  }

  /**
   * One step of `scheduleScraping`: a fresh task for `c` is stored under
   * its SID; a SID seen for the first time joins the for-in order.
   */
  method Enter(m: map<int, Task>, order: seq<int>, c: Conf, now: Time)
    returns (m': map<int, Task>, order': seq<int>)
    requires forall s :: s in order <==> s in m
    requires forall a, b :: 0 <= a < b < |order| ==> order[a] != order[b]
    ensures m'.Keys == m.Keys + {c.sid}
    ensures forall s :: s in m && s != c.sid ==> m'[s] == m[s]
    ensures fresh(m'[c.sid]) && m'[c.sid].Initialised(c, now)
    ensures forall s :: s in order' <==> s in m'
    ensures forall a, b :: 0 <= a < b < |order'| ==> order'[a] != order'[b]
  {
    var t := new Task(c, now);
    order' := if c.sid in m then order else order + [c.sid];
    m' := m[c.sid := t];
  }

  /** Every entry before the `n`-th that is the last with its SID is what `confs` holds for that SID. */
  ghost predicate LastConfs(configs: seq<Conf>, n: int, confs: map<int, Conf>)
    requires 0 <= n <= |configs|
  {
    forall k :: 0 <= k < n && LastBefore(configs, k, n) ==> configs[k].sid in confs && confs[configs[k].sid] == configs[k]
  }

  /** Storing the `n`-th entry under its SID keeps `LastConfs` one entry further. */
  lemma {:induction false} LastConfsStep(configs: seq<Conf>, n: int, confs: map<int, Conf>)
    requires 0 <= n < |configs| && LastConfs(configs, n, confs)
    ensures LastConfs(configs, n + 1, confs[configs[n].sid := configs[n]])
  {
    var confs' := confs[configs[n].sid := configs[n]];
    forall k | 0 <= k < n + 1 && LastBefore(configs, k, n + 1)
      ensures configs[k].sid in confs' && confs'[configs[k].sid] == configs[k]
    {
      if k < n {
        assert configs[n].sid != configs[k].sid;
        assert LastBefore(configs, k, n);
      }
    }
  }

  /**
   * The loop of `scheduleScraping`: `Enter` for each configuration entry
   * in turn; `confs` is the entry each stored task was made from.
   */
  method Build(configs: seq<Conf>, now: Time) returns (m: map<int, Task>, order: seq<int>, ghost confs: map<int, Conf>)
    ensures forall s :: s in order <==> s in m
    ensures forall a, b :: 0 <= a < b < |order| ==> order[a] != order[b]
    ensures confs.Keys == m.Keys
    ensures forall s :: s in confs ==> confs[s].sid == s && confs[s] in configs
    ensures forall k :: 0 <= k < |configs| ==> configs[k].sid in m
    ensures LastConfs(configs, |configs|, confs)
    ensures forall s :: s in m ==> fresh(m[s]) && m[s].Initialised(confs[s], now)
  {
    m := map[];
    order := [];
    confs := map[];
    var i := 0;
    while i < |configs|
      invariant 0 <= i <= |configs|
      invariant forall s :: s in order <==> s in m
      invariant forall a, b :: 0 <= a < b < |order| ==> order[a] != order[b]
      invariant confs.Keys == m.Keys
      invariant forall s :: s in confs ==> confs[s].sid == s && confs[s] in configs
      invariant forall k :: 0 <= k < i ==> configs[k].sid in m
      invariant LastConfs(configs, i, confs)
      invariant forall s :: s in m ==> fresh(m[s]) && m[s].Initialised(confs[s], now)
    {
      LastConfsStep(configs, i, confs);
      m, order := Enter(m, order, configs[i], now);
      confs := confs[configs[i].sid := configs[i]];
      i := i + 1;
    }
  }

  /** The scheduler: `tasks` maps each SID to its task spec. */
  class Scheduler {
    var tasks: map<int, Task>
    /** The own keys of `tasks`, each once: what a for-in over `tasks` visits. */
    var sids: seq<int>

    ghost predicate Valid()
      reads this, tasks.Values
    {
      && (forall s :: s in tasks ==> tasks[s].Valid() && tasks[s].sid == s)
      && (forall s :: s in sids <==> s in tasks)
      && (forall a, b :: 0 <= a < b < |sids| ==> sids[a] != sids[b])
    }

    /**
     * `scheduleScraping`: one task per configuration entry, stored under
     * its SID (a later entry with the same SID replaces the earlier one),
     * each armed as `Task.Initialised` says.
     */
    constructor (configs: seq<Conf>, now: Time)
      ensures Valid()
      ensures forall i :: 0 <= i < |configs| ==> configs[i].sid in tasks
      ensures forall s :: s in tasks ==> fresh(tasks[s]) && tasks[s].conf in configs
      ensures forall i :: 0 <= i < |configs| && LastWithSid(configs, i) ==>
                tasks[configs[i].sid].Initialised(configs[i], now)
    {
      var m, order, confs := Build(configs, now);
      tasks := m;
      sids := order;
    }

    /**
     * `runNow(sid)`: no effect for an unknown SID or a working task;
     * otherwise its `_tm` is cleared and it runs.
     */
    method RunNow(sid: int, now: Time)
      requires Valid()
      modifies if sid in tasks then {tasks[sid]} else {}
      ensures Valid()
      ensures sid !in tasks ==> unchanged(tasks.Values)
      ensures sid in tasks && old(tasks[sid].status) == Working ==> unchanged(tasks[sid])
      ensures sid in tasks && old(tasks[sid].status) != Working ==> tasks[sid].Restarted(now)
    {
      if sid in tasks {
        var t := tasks[sid];
        t.RunNow(now);
        assert Valid() by {
          forall s | s in tasks ensures tasks[s].Valid() && tasks[s].sid == s {
          }
        }
      }
    }
  }
}
