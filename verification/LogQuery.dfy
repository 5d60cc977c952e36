/** Log entries, the filters of a query, and the stable sort by time. */
module LogQuery {

  /** A time is a count of nanoseconds; 0 is the zero time.Time. */
  datatype LogEntry = LogEntry(id: string, timestamp: int, level: string, source: string, message: string, host: string)

  datatype Filter = Filter(key: string, op: string, value: string)

  datatype Query = Query(text: string, from: int, to: int, filters: seq<Filter>, limit: int, sort: string) {
    predicate Ascending() { sort == "time:asc" }
  }

  // ---- matching ----

  predicate HasPrefix(s: string, p: string) { p <= s }

  predicate HasSuffix(s: string, p: string) { |p| <= |s| && s[|s| - |p|..] == p }

  predicate Contains(s: string, p: string) { exists i :: 0 <= i <= |s| && HasPrefix(s[i..], p) }

  function Each(s: string, f: char -> char): string {
    seq(|s|, i requires 0 <= i < |s| => f(s[i]))
  }

  const LOWER: char -> char := c => if 'A' <= c <= 'Z' then c + 32 as char else c

  function ToLower(s: string): string { Each(s, LOWER) }

  function LookupField(e: LogEntry, key: string): string {
    match key
    case "level" => e.level
    case "source" => e.source
    case "host" => e.host
    case "message" => e.message
    case _ => ""
  }

  predicate ApplyOp(actual: string, op: string, want: string) {
    match op
    case "eq" => actual == want
    case "" => actual == want
    case "neq" => actual != want
    case "prefix" => HasPrefix(actual, want)
    case "suffix" => HasSuffix(actual, want)
    case "contains" => Contains(actual, want)
    case _ => false
  }

  predicate Passes(e: LogEntry, f: Filter) { ApplyOp(LookupField(e, f.key), f.op, f.value) }

  lemma ContainsMeans(s: string, p: string)
    ensures Contains(s, p) <==> exists front, rest :: s == front + p + rest
  {
    if i :| 0 <= i <= |s| && HasPrefix(s[i..], p) {
      assert s == s[..i] + p + s[i..][|p|..];
    }
    if front, rest :| s == front + p + rest {
      assert s[|front|..] == p + rest && HasPrefix(s[|front|..], p);
    }
  }

  lemma PrefixMeans(s: string, p: string)
    ensures HasPrefix(s, p) <==> exists rest :: s == p + rest
  {
    if HasPrefix(s, p) { assert s == p + s[|p|..]; }
  }

  lemma SuffixMeans(s: string, p: string)
    ensures HasSuffix(s, p) <==> exists front :: s == front + p
  {
    if HasSuffix(s, p) { assert s == s[..|s| - |p|] + p; }
  }

  /** What the operators of a filter say of a field's value; any other never holds. */
  lemma OperatorsMean(actual: string, op: string, want: string)
    ensures op == "eq" || op == "" ==> (ApplyOp(actual, op, want) <==> actual == want)
    ensures op == "neq" ==> (ApplyOp(actual, op, want) <==> actual != want)
    ensures op == "prefix" ==> (ApplyOp(actual, op, want) <==> exists rest :: actual == want + rest)
    ensures op == "suffix" ==> (ApplyOp(actual, op, want) <==> exists front :: actual == front + want)
    ensures op == "contains" ==> (ApplyOp(actual, op, want) <==> exists front, rest :: actual == front + want + rest)
    ensures ApplyOp(actual, op, want) ==> op in ["eq", "", "neq", "prefix", "suffix", "contains"]
  {
    PrefixMeans(actual, want);
    SuffixMeans(actual, want);
    ContainsMeans(actual, want);
    hide HasPrefix, HasSuffix, Contains;
  }

  lemma LowerMeans(s: string, i: nat)
    requires i < |s|
    ensures |ToLower(s)| == |s|
    ensures ToLower(s)[i] == if 'A' <= s[i] <= 'Z' then 'a' + (s[i] - 'A') else s[i]
  {
  }

  lemma EachConcat(a: string, b: string, f: char -> char)
    ensures Each(a + b, f) == Each(a, f) + Each(b, f)
    ensures |Each(a, f)| == |a|
  {
  }

  /** What a text contains after a change of its characters is what some part of it
      becomes. */
  lemma FoundInEach(s: string, f: char -> char, p: string)
    ensures Contains(Each(s, f), p) <==> exists front, found, rest :: s == front + found + rest && Each(found, f) == p
  {
    var t := Each(s, f);
    ContainsMeans(t, p);
    EachConcat(s, "", f);
    hide Contains, Each;
    if front, rest :| t == front + p + rest {
      var i, j := |front|, |front| + |p|;
      assert s == s[..i] + s[i..j] + s[j..];
      EachConcat(s[..i] + s[i..j], s[j..], f);
      EachConcat(s[..i], s[i..j], f);
      assert t[i..j] == p && t[i..j] == Each(s[i..j], f);
    }
    if front, found, rest :| s == front + found + rest && Each(found, f) == p {
      EachConcat(front + found, rest, f);
      EachConcat(front, found, f);
      assert t == Each(front, f) + p + Each(rest, f);
    }
  }

  /** The fields a filter can name, and what else keeps an entry out of an answer: its
      time, or a message without the text in any case. */
  lemma MatchesMeans(e: LogEntry, q: Query)
    ensures Matches(e, q) <==>
      && (q.from != 0 ==> e.timestamp >= q.from) && (q.to != 0 ==> e.timestamp <= q.to)
      && (q.text != "" ==>
           exists front, found, rest :: e.message == front + found + rest && ToLower(found) == ToLower(q.text))
      && forall f :: f in q.filters ==> ApplyOp(LookupField(e, f.key), f.op, f.value)
    ensures LookupField(e, "level") == e.level && LookupField(e, "source") == e.source
    ensures LookupField(e, "host") == e.host && LookupField(e, "message") == e.message
    ensures forall key :: key !in ["level", "source", "host", "message"] ==> LookupField(e, key) == ""
  {
    FoundInEach(e.message, LOWER, ToLower(q.text));
    hide Contains, ApplyOp, Each;
  }

  method MatchFilters(e: LogEntry, filters: seq<Filter>) returns (ok: bool)
    ensures ok <==> forall f :: f in filters ==> Passes(e, f)
  {
    for i := 0 to |filters|
      invariant forall j :: 0 <= j < i ==> Passes(e, filters[j])
    {
      var f := filters[i];
      var actual := LookupField(e, f.key);
      if !ApplyOp(actual, f.op, f.value) {
        assert f in filters && !Passes(e, f);
        return false;
      }
    }
    return true;
  }

  predicate Matches(e: LogEntry, q: Query) {
    && (q.from == 0 || e.timestamp >= q.from)
    && (q.to == 0 || e.timestamp <= q.to)
    && (q.text == "" || Contains(ToLower(e.message), ToLower(q.text)))
    && forall f :: f in q.filters ==> Passes(e, f)
  }

  /** The matching entries, in their order. */
  function Matching(entries: seq<LogEntry>, q: Query): (r: seq<LogEntry>)
    ensures |r| <= |entries|
    ensures forall i :: 0 <= i < |r| ==> r[i] in entries && Matches(r[i], q)
  {
    if entries == [] then [] else
      var last := |entries| - 1;
      Matching(entries[..last], q) + if Matches(entries[last], q) then [entries[last]] else []
  }

  /** Filtering keeps the order and every entry that matches, each as often as it is
      there. */
  lemma {:induction false} MatchingConcat(a: seq<LogEntry>, b: seq<LogEntry>, q: Query)
    ensures Matching(a + b, q) == Matching(a, q) + Matching(b, q)
  {
    hide Matches;
    if b == [] {
      assert a + b == a;
    } else {
      assert (a + b)[..|a + b| - 1] == a + b[..|b| - 1];
      MatchingConcat(a, b[..|b| - 1], q);
    }
  }

  lemma MatchingOne(e: LogEntry, q: Query)
    ensures Matching([e], q) == if Matches(e, q) then [e] else []
  {
    hide Matches;
    assert [e][..0] == [] && Matching([], q) == [];
  }

  /** filterEntries. */
  method FilterEntries(entries: array<LogEntry>, q: Query) returns (out: seq<LogEntry>)
    ensures out == Matching(entries[..], q)
  {
    var needle := ToLower(q.text);
    out := [];
    for i := 0 to entries.Length
      invariant out == Matching(entries[..i], q)
    {
      assert entries[..i + 1][..i] == entries[..i];
      var e := entries[i];
      if q.from != 0 && e.timestamp < q.from {
        continue;
      }
      if q.to != 0 && e.timestamp > q.to {
        continue;
      }
      if needle != "" && !Contains(ToLower(e.message), needle) {
        continue;
      }
      var ok := MatchFilters(e, q.filters);
      if !ok {
        continue;
      }
      out := out + [e];
    }
    assert entries[..entries.Length] == entries[..];
  }

  // ---- the stable sort ----

  predicate Before(a: LogEntry, b: LogEntry, asc: bool) {
    if asc then a.timestamp < b.timestamp else a.timestamp > b.timestamp
  }

  ghost predicate Ordered(s: seq<LogEntry>, asc: bool) {
    forall i, j :: 0 <= i < j < |s| ==> !Before(s[j], s[i], asc)
  }

  /** The entries with the given time, in their order. */
  function At(s: seq<LogEntry>, time: int): seq<LogEntry> {
    if s == [] then [] else (if s[0].timestamp == time then [s[0]] else []) + At(s[1..], time)
  }

  lemma {:induction false} AtConcat(a: seq<LogEntry>, b: seq<LogEntry>, time: int)
    ensures At(a + b, time) == At(a, time) + At(b, time)
  {
    if a == [] {
      assert a + b == b;
    } else {
      var first := if a[0].timestamp == time then [a[0]] else [];
      assert (a + b)[0] == a[0] && (a + b)[1..] == a[1..] + b;
      assert At(a + b, time) == first + At(a[1..] + b, time);
      assert At(a, time) == first + At(a[1..], time);
      hide At;
      AtConcat(a[1..], b, time);
    }
  }

  /** A stable sort: the same entries, ordered by time, those of equal time in
      their old order. */
  ghost predicate IsStableSort(s: seq<LogEntry>, r: seq<LogEntry>, asc: bool) {
    Ordered(r, asc) && forall time :: At(r, time) == At(s, time)
  }

  function Insert(s: seq<LogEntry>, e: LogEntry, asc: bool): (r: seq<LogEntry>)
    ensures |r| == |s| + 1
  {
    if s == [] || !Before(e, s[|s| - 1], asc) then s + [e]
    else Insert(s[..|s| - 1], e, asc) + [s[|s| - 1]]
  }

  function StableSorted(s: seq<LogEntry>, asc: bool): (r: seq<LogEntry>)
    ensures |r| == |s|
  {
    if s == [] then [] else Insert(StableSorted(s[..|s| - 1], asc), s[|s| - 1], asc)
  }

  lemma {:induction false} InsertKeepsOrder(s: seq<LogEntry>, e: LogEntry, asc: bool)
    requires Ordered(s, asc)
    ensures Ordered(Insert(s, e, asc), asc)
    ensures forall x :: x in Insert(s, e, asc) ==> x in s || x == e
  {
    if s != [] && Before(e, s[|s| - 1], asc) {
      var front, last := s[..|s| - 1], s[|s| - 1];
      InsertKeepsOrder(front, e, asc);
      var r := Insert(front, e, asc);
      forall i | 0 <= i < |r| ensures !Before(last, r[i], asc) {
        assert r[i] in r;
        if r[i] != e {
          var k :| 0 <= k < |front| && front[k] == r[i];
          assert s[k] == r[i];
        }
      }
    }
  }

  lemma {:induction false} InsertKeepsTimes(s: seq<LogEntry>, e: LogEntry, asc: bool, time: int)
    ensures At(Insert(s, e, asc), time) == At(s, time) + At([e], time)
  {
    if s == [] || !Before(e, s[|s| - 1], asc) {
      AtConcat(s, [e], time);
    } else {
      var front, last := s[..|s| - 1], s[|s| - 1];
      assert s == front + [last];
      InsertKeepsTimes(front, e, asc, time);
      AtConcat(Insert(front, e, asc), [last], time);
      AtConcat(front, [last], time);
      assert At([e], time) == [] || At([last], time) == [];
    }
  }

  lemma StableSortedIsStable(s: seq<LogEntry>, asc: bool)
    ensures IsStableSort(s, StableSorted(s, asc), asc)
    ensures var r := StableSorted(s, asc); forall i, j :: 0 <= i < j < |r| ==>
      if asc then r[i].timestamp <= r[j].timestamp else r[i].timestamp >= r[j].timestamp
  {
    StableSortedOrdered(s, asc);
  }

  lemma {:induction false} StableSortedOrdered(s: seq<LogEntry>, asc: bool)
    ensures IsStableSort(s, StableSorted(s, asc), asc)
  {
    if s != [] {
      var front, last := s[..|s| - 1], s[|s| - 1];
      var r := StableSorted(front, asc);
      StableSortedOrdered(front, asc);
      InsertKeepsOrder(r, last, asc);
      assert s == front + [last];
      hide Ordered, Insert, At;
      forall time ensures At(StableSorted(s, asc), time) == At(s, time) {
        InsertKeepsTimes(r, last, asc, time);
        AtConcat(front, [last], time);
      }
    }
  }

  lemma {:induction false} AtFinds(s: seq<LogEntry>, i: nat)
    requires i < |s|
    ensures At(s, s[i].timestamp) != []
  {
    if i > 0 && s[0].timestamp != s[i].timestamp { AtFinds(s[1..], i - 1); }
  }

  lemma HeadIsFound(s: seq<LogEntry>)
    ensures s != [] ==> At(s, s[0].timestamp) != []
  {
  }

  lemma {:induction false} AtFirst(s: seq<LogEntry>, time: int)
    requires At(s, time) != []
    ensures exists i :: 0 <= i < |s| && s[i].timestamp == time
  {
    if s[0].timestamp != time {
      AtFirst(s[1..], time);
      var i :| 0 <= i < |s[1..]| && s[1..][i].timestamp == time;
      assert s[i + 1].timestamp == time;
    }
  }

  /** There is only one stable sort. */
  lemma {:induction false} StableSortUnique(a: seq<LogEntry>, b: seq<LogEntry>, asc: bool)
    requires Ordered(a, asc) && Ordered(b, asc) && forall time :: At(a, time) == At(b, time)
    ensures a == b
  {
    if a == [] {
      HeadIsFound(b);
    } else if b == [] {
      HeadIsFound(a);
    } else {
      var t, u := a[0].timestamp, b[0].timestamp;
      AtFinds(a, 0);
      AtFinds(b, 0);
      AtFirst(b, t);
      AtFirst(a, u);
      assert t == u;
      assert a[0] == At(a, t)[0] == At(b, t)[0] == b[0];
      forall time ensures At(a[1..], time) == At(b[1..], time) {
        assert At(a, time) == At(b, time);
        SameTail(a, b, time);
      }
      StableSortUnique(a[1..], b[1..], asc);
      assert a == [a[0]] + a[1..] && b == [b[0]] + b[1..];
    }
  }

  lemma SameTail(a: seq<LogEntry>, b: seq<LogEntry>, time: int)
    requires a != [] && b != [] && a[0] == b[0] && At(a, time) == At(b, time)
    ensures At(a[1..], time) == At(b[1..], time)
  {
    var x, y := At(a[1..], time), At(b[1..], time);
    if a[0].timestamp == time {
      assert ([a[0]] + x)[1..] == x && ([b[0]] + y)[1..] == y;
    } else {
      assert [] + x == x && [] + y == y;
    }
  }

  /** sort.SliceStable by time, in place: by insertion. */
  method SortStable(a: array<LogEntry>, asc: bool)
    modifies a
    ensures a[..] == StableSorted(old(a[..]), asc)
  {
    ghost var s := a[..];
    for n := 0 to a.Length
      invariant a[..n] == StableSorted(s[..n], asc) && a[n..] == s[n..]
    {
      hide StableSorted, Insert;
      assert a[n] == a[n..][0] == s[n];
      StableSortedNext(s, n, asc);
      ghost var rest := a[n + 1..];
      assert rest == a[n..][1..] == s[n + 1..];
      SinkLast(a, n, asc);
    }
    assert s[..a.Length] == s && a[..a.Length] == a[..];
  }

  lemma StableSortedNext(s: seq<LogEntry>, n: nat, asc: bool)
    requires n < |s|
    ensures StableSorted(s[..n + 1], asc) == Insert(StableSorted(s[..n], asc), s[n], asc)
  {
    assert s[..n + 1][..n] == s[..n];
  }

  /** The gap for e has sunk to j: what lies above it is done. */
  ghost predicate GapAt(s: seq<LogEntry>, e: LogEntry, asc: bool, cur: seq<LogEntry>, j: int) {
    && |cur| == |s| + 1 && 0 <= j <= |s| && cur[..j] == s[..j]
    && Insert(s, e, asc) == Insert(s[..j], e, asc) + cur[j + 1..]
  }

  lemma GapSinks(s: seq<LogEntry>, e: LogEntry, asc: bool, cur: seq<LogEntry>, j: int)
    requires GapAt(s, e, asc, cur, j) && j > 0 && Before(e, cur[j - 1], asc)
    ensures GapAt(s, e, asc, cur[j := cur[j - 1]], j - 1)
  {
    var t := s[..j];
    assert t[j - 1] == cur[..j][j - 1] == cur[j - 1] && t[..j - 1] == s[..j - 1];
    var next := cur[j := cur[j - 1]];
    assert next[..j - 1] == cur[..j][..j - 1] && next[j..] == [cur[j - 1]] + cur[j + 1..];
  }

  lemma GapFilled(s: seq<LogEntry>, e: LogEntry, asc: bool, cur: seq<LogEntry>, j: int)
    requires GapAt(s, e, asc, cur, j) && (j > 0 ==> !Before(e, cur[j - 1], asc))
    ensures cur[j := e] == Insert(s, e, asc)
  {
    var t := s[..j];
    assert j > 0 ==> t[j - 1] == cur[..j][j - 1] == cur[j - 1];
    assert Insert(t, e, asc) == t + [e];
    assert cur[j := e] == cur[..j] + [e] + cur[j + 1..];
  }

  /** Moves a[n] down to its place among the entries before it. */
  method SinkLast(a: array<LogEntry>, n: nat, asc: bool)
    requires n < a.Length
    modifies a
    ensures a[..n + 1] == Insert(old(a[..n]), old(a[n]), asc)
    ensures a[n + 1..] == old(a[n + 1..])
  {
    hide GapAt, Insert, Before;
    ghost var s, rest := a[..n], a[n + 1..];
    var e := a[n];
    var j := n;
    GapOpens(s, e, asc, a[..n + 1]);
    while j > 0 && Before(e, a[j - 1], asc)
      invariant 0 <= j <= n && a[n + 1..] == rest
      invariant GapAt(s, e, asc, a[..n + 1], j)
    {
      ghost var cur := a[..n + 1];
      GapSinks(s, e, asc, cur, j);
      a[j] := a[j - 1];
      assert a[..n + 1] == cur[j := cur[j - 1]];
      j := j - 1;
    }
    ghost var cur := a[..n + 1];
    GapFilled(s, e, asc, cur, j);
    a[j] := e;
    assert a[..n + 1] == cur[j := e];
  }

  lemma GapOpens(s: seq<LogEntry>, e: LogEntry, asc: bool, cur: seq<LogEntry>)
    requires |cur| == |s| + 1 && cur[..|s|] == s
    ensures GapAt(s, e, asc, cur, |s|)
  {
    assert s[..|s|] == s && cur[|s| + 1..] == [];
  }
}
