/**
 * The socket façade of controller/io.js: the `scheduler:tasks` snapshot,
 * the `scheduler:run-now` command and the rebroadcast of the scheduler's
 * `exec:*` events to every connected socket.
 */
module ControllerIo {
  import opened Wrappers
  import opened Values
  import Scheduler

  /** One entry of the `scheduler:tasks` answer: exactly these four fields. */
  datatype TaskEntry = TaskEntry(
    status: Scheduler.Status,
    last: Option<Scheduler.Time>,
    message: Scheduler.Message,
    next: Option<Scheduler.Time>)

  /** The entry a broadcast snapshot and a task answer share: all but the SID. */
  function EntryOf(s: Scheduler.Snapshot): (e: TaskEntry)
    ensures e.status == s.status && e.last == s.last && e.message == s.message && e.next == s.next
  {
    TaskEntry(s.status, s.last, s.message, s.next)
  }

  /**
   * `scheduler:tasks`: one entry per SID in `scheduler.tasks`, holding
   * a task's status, last, message and next and nothing else.
   */
  method TasksSnapshot(s: Scheduler.Scheduler) returns (out: map<int, TaskEntry>)
    requires s.Valid()
    ensures out.Keys == s.tasks.Keys
    ensures forall sid :: sid in out ==> out[sid] == EntryOf(s.tasks[sid].View())
  {
    out := map[];
    var i := 0;
    while i < |s.sids|
      invariant 0 <= i <= |s.sids|
      invariant forall sid :: sid in out <==> sid in s.sids[..i]
      invariant forall sid :: sid in out ==> out[sid] == EntryOf(s.tasks[sid].View())
    {
      var sid := s.sids[i];
      var task := s.tasks[sid];
      out := out[sid := TaskEntry(task.status, task.last, task.message, task.next)];
      assert s.sids[..i + 1] == s.sids[..i] + [sid];
      i := i + 1;
    }
    assert s.sids[..i] == s.sids;
    assert forall sid :: sid in out.Keys <==> sid in s.tasks.Keys;
  }

  /** What the façade sends to every socket. */
  datatype Outgoing = Outgoing(event: string, payload: Scheduler.Broadcast)

  function EventName(b: Scheduler.Broadcast): (r: string)
    ensures b.ExecStart? <==> r == "exec:start"
    ensures b.ExecError? <==> r == "exec:error"
    ensures b.ExecFinished? <==> r == "exec:finished"
  {
    match b
    case ExecStart(_) => "exec:start"
    case ExecError(_, _) => "exec:error"
    case ExecFinished(_) => "exec:finished"
  }

  /** The façade: the scheduler it serves and what it has sent to the sockets. */
  class Io {
    const scheduler: Scheduler.Scheduler
    var sent: seq<Outgoing>

    constructor (s: Scheduler.Scheduler)
      ensures scheduler == s && sent == []
    {
      scheduler := s;
      sent := [];
    }

    /** A scheduler event is passed on to the sockets under its own name, payload unchanged. */
    method Rebroadcast(b: Scheduler.Broadcast)
      modifies this`sent
      ensures sent == old(sent) + [Outgoing(EventName(b), b)]
    {
      sent := sent + [Outgoing(EventName(b), b)];
    }

    /** `scheduler:run-now`: the SID goes to `scheduler.runNow` as received. */
    method RunNow(sid: int, now: Scheduler.Time)
      requires scheduler.Valid()
      modifies if sid in scheduler.tasks then {scheduler.tasks[sid]} else {}
      ensures scheduler.Valid()
      ensures sid !in scheduler.tasks ==> unchanged(scheduler.tasks.Values)
      ensures sid in scheduler.tasks && old(scheduler.tasks[sid].status) == Scheduler.Working ==>
                unchanged(scheduler.tasks[sid])
      ensures sid in scheduler.tasks && old(scheduler.tasks[sid].status) != Scheduler.Working ==>
                scheduler.tasks[sid].Restarted(now)
    {
      scheduler.RunNow(sid, now);
    }
  }
}
