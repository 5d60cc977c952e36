/** The local log backend: entries appended in memory, a disk scan, and a cache
    of the last scan. Each call is one atomic step. */
module LocalLogs {
  import opened Integers
  import opened LogQuery
  import opened Options

  const TTL := 5_000_000_000

  datatype Answer = Answer(entries: seq<LogEntry>, total: nat)

  /** The answer to a query over the given entries. */
  function AnswerOf(entries: seq<LogEntry>, q: Query): Answer {
    var found := StableSorted(Matching(entries, q), q.Ascending());
    var limit := if q.limit <= 0 then 50 else q.limit;
    Answer(if |found| > limit then found[..limit] else found, |found|)
  }

  /** The answer is the limit-prefix of the stable time sort of the matching
      entries, and there is only one such sort. */
  lemma AnswerExactly(entries: seq<LogEntry>, q: Query, sorted: seq<LogEntry>)
    requires IsStableSort(Matching(entries, q), sorted, q.Ascending())
    ensures var a := AnswerOf(entries, q);
      && a.total == |sorted| == |Matching(entries, q)|
      && a.entries <= sorted
      && |a.entries| == (if q.limit <= 0 then Min(50, a.total) else Min(q.limit, a.total))
      && forall i, j :: 0 <= i < j < |a.entries| ==>
           if q.sort == "time:asc" then a.entries[i].timestamp <= a.entries[j].timestamp
           else a.entries[i].timestamp >= a.entries[j].timestamp
  {
    var m := Matching(entries, q);
    StableSortedIsStable(m, q.Ascending());
    StableSortUnique(sorted, StableSorted(m, q.Ascending()), q.Ascending());
  }

  // ---- the backend as a value ----

  /** A cached scan: what the disk held, and when. */
  datatype Held = Held(disk: seq<LogEntry>, at: int)

  datatype Backend = Backend(echo: seq<LogEntry>, held: Option<Held>)

  datatype Call =
    | AppendCall(entry: LogEntry, now: int)
    | QueryCall(q: Query, now: int, cancelled: bool, disk: Option<seq<LogEntry>>)

  function Stamped(e: LogEntry, now: int): LogEntry {
    if e.timestamp == 0 then e.(timestamp := now) else e
  }

  /** What a scan finds on disk: nothing without a directory, None on an error. */
  function DiskOf(hasDir: bool, disk: Option<seq<LogEntry>>): Option<seq<LogEntry>> {
    if hasDir then disk else Some([])
  }

  predicate CacheHit(b: Backend, now: int) { b.held.Some? && now - b.held.value.at < TTL }

  /** The disk entries a query works on. */
  function Base(b: Backend, hasDir: bool, call: Call): Option<seq<LogEntry>>
    requires call.QueryCall?
  {
    if call.cancelled then None
    else if CacheHit(b, call.now) then Some(b.held.value.disk)
    else DiskOf(hasDir, call.disk)
  }

  function Step(b: Backend, hasDir: bool, call: Call): Backend {
    match call
    case AppendCall(e, now) => Backend(b.echo + [Stamped(e, now)], None)
    case QueryCall(_, now, _, _) =>
      var base := Base(b, hasDir, call);
      if base.None? || CacheHit(b, now) then b
      else if base.value + b.echo == [] then b.(held := None)
      else b.(held := Some(Held(base.value, now)))
  }

  /** An append stamps an entry without a time and drops the cache; a query less than
      five seconds after the last scan answers from that, whatever the disk now says;
      any other scans, and a scan that fails or is cancelled changes nothing. */
  lemma StepsMean(b: Backend, hasDir: bool, e: LogEntry, q: Query, now: int, cancelled: bool, disk: Option<seq<LogEntry>>)
    ensures Step(b, hasDir, AppendCall(e, now)) ==
      Backend(b.echo + [if e.timestamp == 0 then e.(timestamp := now) else e], None)
    ensures var call := QueryCall(q, now, cancelled, disk);
      var recent := b.held.Some? && now - b.held.value.at < 5_000_000_000;
      var failed := cancelled || (!recent && hasDir && disk.None?);
      var found := if hasDir && disk.Some? then disk.value else [];
      && (failed ==> Reply(b, hasDir, call) == None && Step(b, hasDir, call) == b)
      && (!failed && recent ==>
           && Reply(b, hasDir, call) == Some(AnswerOf(b.held.value.disk + b.echo, q))
           && Step(b, hasDir, call) == b)
      && (!failed && !recent ==>
           && Reply(b, hasDir, call) == Some(AnswerOf(found + b.echo, q))
           && Step(b, hasDir, call) == Backend(b.echo, if found + b.echo == [] then None else Some(Held(found, now))))
  {
  }

  function Run(hasDir: bool, calls: seq<Call>): Backend
    decreases |calls|
  {
    if calls == [] then Backend([], None) else Step(Run(hasDir, calls[..|calls| - 1]), hasDir, calls[|calls| - 1])
  }

  /** What a query returns; None stands for an error. */
  function Reply(b: Backend, hasDir: bool, call: Call): Option<Answer>
    requires call.QueryCall?
  {
    match Base(b, hasDir, call)
    case None => None
    case Some(base) => Some(AnswerOf(base + b.echo, call.q))
  }

  // ---- the imperative form ----

  class Local {
    const hasDir: bool
    var echo: seq<LogEntry>
    var cache: array?<LogEntry>
    var cacheAt: int
    ghost var snapshot: seq<LogEntry>

    /** A cache that is there is the disk snapshot followed by every entry appended. */
    ghost predicate Valid()
      reads this, cache
    {
      cache != null ==> cache.Length > 0 && cache[..] == snapshot + echo
    }

    ghost function Contents(): Backend
      reads this
    {
      Backend(echo, if cache == null then None else Some(Held(snapshot, cacheAt)))
    }

    constructor (hasDir: bool)
      ensures Valid() && this.hasDir == hasDir && Contents() == Backend([], None)
    {
      this.hasDir, echo, cache, cacheAt, snapshot := hasDir, [], null, 0, [];
    }

    method Append(entry: LogEntry, now: int)
      requires Valid()
      modifies this
      ensures Valid() && Contents() == Step(old(Contents()), hasDir, AppendCall(entry, now))
    {
      var e := entry;
      if e.timestamp == 0 {
        e := e.(timestamp := now);
      }
      echo := echo + [e];
      cache := null;
    }

    /** scan; the slice it returns is the caller's own. */
    method Scan(ghost call: Call, now: int, cancelled: bool, disk: Option<seq<LogEntry>>) returns (r: array?<LogEntry>)
      requires Valid() && call.QueryCall? && call.now == now && call.cancelled == cancelled && call.disk == disk
      modifies this
      ensures Valid() && Contents() == Step(old(Contents()), hasDir, call)
      ensures var base := Base(old(Contents()), hasDir, call);
        if base.None? then r == null
        else r != null && fresh(r) && r != cache && r[..] == base.value + old(echo)
    {
      if cancelled {
        return null;
      }
      if cache != null && now - cacheAt < TTL {
        r := Copy(cache[..]);
        return;
      }
      var out: seq<LogEntry> := [];
      if hasDir {
        if disk.None? {
          return null;
        }
        out := disk.value;
      }
      snapshot := out;
      out := out + echo;
      cacheAt := now;
      if out == [] {
        cache := null;
      } else {
        cache := Copy(out);
      }
      r := Copy(out);
    }

    /** Query: filters, sorts its own slice in place and cuts it to the limit. */
    method Query(q: Query, now: int, cancelled: bool, disk: Option<seq<LogEntry>>) returns (r: Option<Answer>)
      requires Valid()
      modifies this
      ensures Valid() && Contents() == Step(old(Contents()), hasDir, QueryCall(q, now, cancelled, disk))
      ensures r == Reply(old(Contents()), hasDir, QueryCall(q, now, cancelled, disk))
    {
      hide Step, Matching, StableSorted, Base;
      var entries := Scan(QueryCall(q, now, cancelled, disk), now, cancelled, disk);
      if entries == null {
        return None;
      }
      var matching := FilterEntries(entries, q);
      var filtered := Copy(matching);
      SortStable(filtered, q.sort == "time:asc");
      var limit := if q.limit <= 0 then 50 else q.limit;
      var total := filtered.Length;
      var page := filtered[..];
      if |page| > limit {
        page := page[..limit];
      }
      return Some(Answer(page, total));
    }
  }

  method Copy(s: seq<LogEntry>) returns (a: array<LogEntry>)
    ensures fresh(a) && a[..] == s
  {
    a := new LogEntry[|s|](i requires 0 <= i < |s| => s[i]);
  }

  // ---- over all runs ----

  /** The entries appended, in order. */
  function Appended(calls: seq<Call>): seq<LogEntry> {
    if calls == [] then [] else
      var last := calls[|calls| - 1];
      Appended(calls[..|calls| - 1]) + if last.AppendCall? then [Stamped(last.entry, last.now)] else []
  }

  lemma {:induction false} EchoIsAppended(hasDir: bool, calls: seq<Call>)
    ensures Run(hasDir, calls).echo == Appended(calls)
  {
    if calls != [] {
      EchoIsAppended(hasDir, calls[..|calls| - 1]);
    }
  }

  /** The i-th call read this from disk, and nothing was appended after it. */
  predicate ReadAt(hasDir: bool, calls: seq<Call>, i: nat, disk: seq<LogEntry>, at: int)
    requires i < |calls|
  {
    && calls[i].QueryCall? && calls[i].now == at && !calls[i].cancelled
    && DiskOf(hasDir, calls[i].disk) == Some(disk)
    && forall j :: i < j < |calls| ==> calls[j].QueryCall?
  }

  /** What is cached was read from disk by some query, with no append since. */
  lemma {:induction false} HeldWasRead(hasDir: bool, calls: seq<Call>) returns (i: nat)
    requires Run(hasDir, calls).held.Some?
    ensures i < |calls|
    ensures var h := Run(hasDir, calls).held.value; ReadAt(hasDir, calls, i, h.disk, h.at)
  {
    var front, last := calls[..|calls| - 1], calls[|calls| - 1];
    if Run(hasDir, calls).held == Run(hasDir, front).held {
      i := HeldWasRead(hasDir, front);
    } else {
      i := |calls| - 1;
    }
  }

  /** In any run, a query that succeeds answers over what the disk held at most
      five seconds ago, read after the last append, followed by every entry
      appended so far. */
  lemma QuerySeesEverything(hasDir: bool, calls: seq<Call>, call: Call) returns (i: nat, disk: seq<LogEntry>)
    requires call.QueryCall? && Reply(Run(hasDir, calls), hasDir, call).Some?
    ensures i <= |calls|
    ensures var all := calls + [call];
      && all[i].QueryCall? && call.now - all[i].now < 5_000_000_000
      && ReadAt(hasDir, all, i, disk, all[i].now)
    ensures Reply(Run(hasDir, calls), hasDir, call) == Some(AnswerOf(disk + Appended(calls), call.q))
  {
    var b := Run(hasDir, calls);
    EchoIsAppended(hasDir, calls);
    disk := Base(b, hasDir, call).value;
    if CacheHit(b, call.now) {
      i := HeldWasRead(hasDir, calls);
    } else {
      i := |calls|;
    }
  }
}
