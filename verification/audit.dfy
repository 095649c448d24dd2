/** The audit log (logController): `writeLog` appends one entry per logged
    admin action, best effort, and `getLogs` reads the newest hundred. The
    database insert is modelled by the `insertSucceeds` parameter and the
    `created_at` default by the `now` parameter. */
module AuditLog {
  import opened Wrappers
  import opened Queries

  /** The `x-user-id` header the handlers pass as actor: absent, one value, or
      the array Express produces for a repeated header. */
  datatype ActorHeader = NoActor | OneActor(value: string) | ManyActors(values: seq<string>)

  /** One row of `audit_logs`. An actor of `None` is an `undefined` id. */
  datatype LogEntry = LogEntry(actorId: Option<string>, action: string, details: string, createdAt: int)

  const LogLimit := 100

  /** `!actor_id` is false: a non-empty string, or any array (even an empty one). */
  predicate Truthy(actor: ActorHeader) {
    match actor
    case NoActor => false
    case OneActor(v) => v != ""
    case ManyActors(_) => true
  }

  /** The row `writeLog` inserts, if it inserts one. */
  function EntryFor(actor: ActorHeader, action: string, details: string, now: int): (e: Option<LogEntry>)
    ensures e.None? <==> !Truthy(actor)
    ensures e.Some? ==> e.value.action == action && e.value.details == details && e.value.createdAt == now
    ensures e.Some? && actor.OneActor? ==> e.value.actorId == Some(actor.value)
    ensures e.Some? && actor.ManyActors? ==>
              e.value.actorId == if |actor.values| > 0 then Some(actor.values[0]) else None
  {
    match actor
    case NoActor => None
    case OneActor(v) => if v == "" then None else Some(LogEntry(Some(v), action, details, now))
    case ManyActors(vs) => Some(LogEntry(if |vs| > 0 then Some(vs[0]) else None, action, details, now))
  }

  /** The `audit_logs` table. */
  class AuditTrail {
    var entries: seq<LogEntry>

    constructor ()
      ensures entries == []
    {
      entries := [];
    }

    /** `writeLog`: nothing for an anonymous actor; otherwise one insert, whose
        failure is swallowed. It never reports an error to its caller. */
    method WriteLog(actor: ActorHeader, action: string, details: string, insertSucceeds: bool, now: int)
      modifies this
      ensures var e := EntryFor(actor, action, details, now);
              entries == if e.Some? && insertSucceeds then old(entries) + [e.value] else old(entries)
    {
      if !Truthy(actor) {
        return;
      }
      var e := EntryFor(actor, action, details, now);
      if insertSucceeds {
        entries := entries + [e.value];
      }
    }
  }

  function NewestFirst(e: LogEntry): int {
    -e.createdAt
  }

  /** `getLogs`: at most 100 entries, newest first. */
  function RecentLogs(entries: seq<LogEntry>): (r: seq<LogEntry>)
    ensures |r| == if |entries| < LogLimit then |entries| else LogLimit
    ensures forall i, j :: 0 <= i < j < |r| ==> r[i].createdAt >= r[j].createdAt
  {
    var sorted := SortBy(entries, NewestFirst);
    var k := if |entries| < LogLimit then |entries| else LogLimit;
    assert forall i, j :: 0 <= i < j < k ==> sorted[i].createdAt >= sorted[j].createdAt by {
      forall i, j | 0 <= i < j < k ensures sorted[i].createdAt >= sorted[j].createdAt {
        assert NewestFirst(sorted[i]) <= NewestFirst(sorted[j]);
      }
    }
    sorted[..k]
  }

  /** The entries `getLogs` returns are entries of the log, and none left out
      is newer than one returned. */
  lemma RecentLogsAreNewest(entries: seq<LogEntry>)
    ensures multiset(RecentLogs(entries)) <= multiset(entries)
    ensures forall e :: e in multiset(entries) - multiset(RecentLogs(entries)) ==>
              forall i :: 0 <= i < |RecentLogs(entries)| ==> e.createdAt <= RecentLogs(entries)[i].createdAt
  {
    var sorted := SortBy(entries, NewestFirst);
    var k := if |entries| < LogLimit then |entries| else LogLimit;
    assert RecentLogs(entries) == sorted[..k];
    NewestPrefix(sorted, k);
  }

  /** A prefix of entries sorted newest first leaves no newer entry behind. */
  lemma NewestPrefix(sorted: seq<LogEntry>, k: nat)
    requires SortedBy(sorted, NewestFirst) && k <= |sorted|
    ensures multiset(sorted[..k]) <= multiset(sorted)
    ensures forall e :: e in multiset(sorted) - multiset(sorted[..k]) ==>
              forall i :: 0 <= i < k ==> e.createdAt <= sorted[i].createdAt
  {
    TakeSorted(sorted, NewestFirst, k);
    forall e, i | e in multiset(sorted) - multiset(sorted[..k]) && 0 <= i < k
      ensures e.createdAt <= sorted[i].createdAt
    {
      assert NewestFirst(sorted[i]) <= NewestFirst(e);
    }
  }
}
