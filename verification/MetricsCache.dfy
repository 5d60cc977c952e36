/** The bounded cache of host metrics. */
module MetricsCache {
  import opened Options

  datatype DataStatus = Fresh | Stale | Unavailable

  datatype Metrics = Metrics(reading: string, status: DataStatus, warnings: seq<string>)

  datatype Entry = Entry(snapshot: Metrics, expiresAt: int)

  datatype Step =
    | Store(host: string, entry: Entry, pick: string)
    | Drop(host: string)

  type Entries = map<string, Entry>

  /** The key a map iteration comes to first: any key at all, by way of pick. */
  ghost function Victim(keys: set<string>, pick: string): (k: string)
    requires keys != {}
    ensures k in keys && (pick in keys ==> k == pick)
  {
    if pick in keys then pick else var k :| k in keys; k
  }

  ghost function Kept(m: Entries, max: nat, host: string, pick: string): Entries {
    if host !in m && |m| >= max && m != map[] then m - {Victim(m.Keys, pick)} else m
  }

  ghost function Apply(m: Entries, max: nat, step: Step): Entries {
    match step
    case Store(host, entry, pick) => Kept(m, max, host, pick)[host := entry]
    case Drop(host) => m - {host}
  }

  ghost function Run(max: nat, steps: seq<Step>): Entries {
    if steps == [] then map[] else Apply(Run(max, steps[..|steps| - 1]), max, steps[|steps| - 1])
  }

  class Cache {
    const ttl: int
    const max: nat
    var entries: Entries

    ghost predicate Valid()
      reads this
    {
      max > 0 && |entries| <= max
    }

    constructor (ttl: int, maxEntries: int)
      ensures Valid() && entries == map[]
      ensures this.ttl == if ttl < 0 then 30_000_000_000 else ttl
      ensures max == if maxEntries <= 0 then 256 else maxEntries
    {
      this.ttl := if ttl < 0 then 30_000_000_000 else ttl;
      max := if maxEntries <= 0 then 256 else maxEntries;
      entries := map[];
    }

    method StoreEntry(host: string, snapshot: Metrics, expiresAt: int) returns (ghost pick: string)
      requires Valid()
      modifies this
      ensures Valid() && entries == Apply(old(entries), max, Store(host, Entry(snapshot, expiresAt), pick))
    {
      BoundKept(entries, max, host, Entry(snapshot, expiresAt));
      pick := "";
      if host !in entries && |entries| >= max {
        assert entries.Keys != {};
        var k :| k in entries.Keys;
        pick := k;
        entries := entries - {k};
      }
      entries := entries[host := Entry(snapshot, expiresAt)];
    }

    method Invalidate(host: string)
      requires Valid()
      modifies this
      ensures Valid() && entries == Apply(old(entries), max, Drop(host))
    {
      assert (entries - {host}).Keys == entries.Keys - {host};
      entries := entries - {host};
    }

    /** collected is the collector's answer at this moment: metrics, or the text of
        an error. */
    method GetOrCollect(host: string, now: int, collected: Option<Metrics>, error: string)
      returns (r: Metrics, ghost pick: string)
      requires Valid()
      modifies this
      ensures Valid()
      ensures r ==
        if host in old(entries) && now < old(entries)[host].expiresAt then old(entries)[host].snapshot
        else if collected.Some? then collected.value
        else if host in old(entries) then Metrics(old(entries)[host].snapshot.reading, Stale, old(entries)[host].snapshot.warnings)
        else Metrics("", Unavailable, [error])
      ensures entries ==
        if (host in old(entries) && now < old(entries)[host].expiresAt) || collected.None? then old(entries)
        else Apply(old(entries), max, Store(host, Entry(collected.value, now + ttl), pick))
    {
      hide Apply;
      pick := "";
      if host in entries && entries[host].expiresAt > now {
        return entries[host].snapshot, pick;
      }
      match collected {
        case None =>
          if host in entries {
            return entries[host].snapshot.(status := Stale), pick;
          }
          return Metrics("", Unavailable, [error]), pick;
        case Some(m) =>
          pick := StoreEntry(host, m, now + ttl);
          return m, pick;
      }
    }
  }

  /** What a store does: the host's new entry, every other one as it was, but for one
      arbitrary other that goes if the host is new and the cache full. */
  lemma StoreMeans(m: Entries, max: nat, host: string, entry: Entry, pick: string)
    requires 0 < max
    ensures var t := Apply(m, max, Store(host, entry, pick));
      && host in t && t[host] == entry
      && (forall h :: h in t && h != host ==> h in m && t[h] == m[h])
      && (host in m || |m| < max ==> forall h :: h in m ==> h in t)
      && (host !in m && |m| >= max ==> exists gone :: gone in m && gone !in t && forall h :: h in m && h != gone ==> h in t)
    ensures host !in m && |m| >= max && pick in m ==> pick !in Apply(m, max, Store(host, entry, pick))
  {
    if host !in m && |m| >= max {
      assert m.Keys != {};
      assert Victim(m.Keys, pick) in m;
    }
  }

  lemma DropMeans(m: Entries, max: nat, host: string)
    ensures var t := Apply(m, max, Drop(host));
      host !in t && forall h :: h != host ==> (h in t <==> h in m) && (h in t ==> t[h] == m[h])
  {
  }

  /** A store keeps the bound, whatever is evicted. */
  lemma BoundKept(m: Entries, max: nat, host: string, entry: Entry)
    requires |m| <= max && max > 0
    ensures forall pick :: |Apply(m, max, Store(host, entry, pick))| <= max
  {
    forall pick ensures |Apply(m, max, Store(host, entry, pick))| <= max {
      var kept := Kept(m, max, host, pick);
      if host in m {
        assert kept[host := entry].Keys == m.Keys;
      } else {
        if |m| >= max {
          assert m.Keys != {};
          assert kept.Keys == m.Keys - {Victim(m.Keys, pick)};
        }
        assert kept[host := entry].Keys == kept.Keys + {host};
      }
    }
  }

  /** The last thing stored for a host, unless it was invalidated since. */
  function LastStored(steps: seq<Step>, host: string): Option<Entry> {
    if steps == [] then None else
      var last := steps[|steps| - 1];
      if last.host == host then (if last.Store? then Some(last.entry) else None)
      else LastStored(steps[..|steps| - 1], host)
  }

  /** However stores and invalidations of any hosts interleave: the cache stays
      within its bound, and what it holds for a host is the last snapshot stored for
      that very host, with no invalidation since; the latest store is always there. */
  lemma {:induction false} CacheIsCurrent(max: nat, steps: seq<Step>)
    requires max > 0
    ensures var m := Run(max, steps);
      && |m| <= max
      && (forall h :: h in m ==> LastStored(steps, h) == Some(m[h]))
      && (steps != [] && steps[|steps| - 1].Store? ==> steps[|steps| - 1].host in m)
  {
    if steps != [] {
      var front, last := steps[..|steps| - 1], steps[|steps| - 1];
      CacheIsCurrent(max, front);
      var m := Run(max, front);
      match last
      case Store(host, entry, pick) => BoundKept(m, max, host, entry);
      case Drop(host) => assert (m - {host}).Keys == m.Keys - {host};
    }
  }
}
