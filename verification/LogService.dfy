/** The log service in front of the local backend: defaults, limits, and the
    degraded flag. */
module LogService {
  import opened Integers
  import opened LogQuery
  import opened LocalLogs
  import opened Options
  import Decimal

  // ---- itoa ----

  function Pow10(n: nat): nat { if n == 0 then 1 else 10 * Pow10(n - 1) }

  /** -n in two's complement. */
  function Negate(n: int): int { if n == MIN_INT64 then MIN_INT64 else -n }

  function Digits(n: nat): string { if n == 0 then "" else Decimal.ShowNat(n) }

  /** The digits still to come, then those already in the buffer. */
  ghost predicate Written(value: nat, n: nat, tail: string) {
    Digits(value) == Digits(n) + tail
  }

  lemma WriteDigit(value: nat, n: nat, tail: string)
    requires Written(value, n, tail) && n > 0
    ensures Written(value, n / 10, [Decimal.DigitChar(n % 10)] + tail)
  {
  }

  lemma AllWritten(value: nat, s: string)
    requires Written(value, 0, s) && value > 0
    ensures s == Decimal.ShowNat(value)
  {
  }

  lemma Int64Digits(n: int)
    requires 0 <= n <= MAX_INT64 + 1
    ensures n < Pow10(19)
  {
    assert Pow10(4) == 10000;
    assert Pow10(8) == 10000 * Pow10(4);
  }

  lemma OneDigitLess(n: nat, i: nat)
    requires 0 < n < Pow10(i)
    ensures i >= 1 && n / 10 < Pow10(i - 1)
  {
  }

  /** The index into the 20-byte buffer never goes below 0, and the result is the
      decimal numeral of n; only for the least int64, whose negation wraps, it is
      the bare sign. */
  method Itoa(value: int) returns (s: string)
    requires MIN_INT64 <= value <= MAX_INT64
    ensures s == if value == MIN_INT64 then "-" else Decimal.Show(value)
  {
    if value == 0 {
      return "0";
    }
    var n := value;
    var neg := n < 0;
    if neg {
      n := Negate(n);
    }
    var buf := new char[20];
    var i := buf.Length;
    if n > 0 { i := WriteDigits(buf, n); }
    if neg {
      ghost var tail := buf[i..];
      i := i - 1;
      buf[i] := '-';
      assert buf[i..] == "-" + tail;
    }
    return buf[i..];
  }

  /** The loop of itoa. */
  method WriteDigits(buf: array<char>, value: int) returns (i: nat)
    requires buf.Length == 20 && 0 < value <= MAX_INT64
    modifies buf
    ensures 1 <= i < 20 && buf[i..] == Decimal.ShowNat(value)
  {
    hide Written, Pow10;
    var n := value;
    i := buf.Length;
    Int64Digits(n);
    NothingWritten(n);
    assert buf[20..] == "";
    while n > 0
      invariant 0 <= n && 1 <= i <= 20 && n < Pow10(i - 1) && Written(value, n, buf[i..])
      invariant n < value ==> i < 20
    {
      ghost var tail := buf[i..];
      WriteDigit(value, n, tail);
      OneDigitLess(n, i - 1);
      i := i - 1;
      buf[i] := Decimal.DigitChar(n % 10);
      assert buf[i..] == [buf[i]] + tail;
      n := n / 10;
    }
    AllWritten(value, buf[i..]);
  }

  lemma NothingWritten(n: nat)
    ensures Written(n, n, "")
  {
  }

  // ---- the query ----

  const HOUR := 3_600_000_000_000

  datatype Config = Config(maxPageSize: int, rejectStructured: bool)

  /** What the local backend supports. */
  const MAX_TIME_RANGE := 7 * 24 * HOUR
  const MAX_QUERY_LENGTH := 1024

  datatype ServiceError = TimeRangeExceeded | QueryTooLong | Structured | BackendFailed

  datatype Outcome =
    | Served(answer: Answer, degraded: bool, reason: string)
    | Rejected(error: ServiceError)

  function WithDefaultRange(q: Query, now: int): Query {
    if q.from == 0 && q.to == 0 then q.(from := now - 24 * HOUR, to := now)
    else if q.from == 0 || q.to == 0 then q.(to := now)
    else q
  }

  const UPPER: char -> char := c => if 'a' <= c <= 'z' then c - 32 as char else c

  function ToUpper(s: string): string { Each(s, UPPER) }

  predicate LooksStructured(s: string) {
    s != "" && (Contains(ToUpper(s), " AND ") || Contains(ToUpper(s), " OR ") || Contains(s, ":*"))
  }

  /** The query as the backend gets it, or why it does not. */
  function Admitted(c: Config, q: Query, now: int): Option<ServiceError> {
    var r := WithDefaultRange(q, now);
    if r.to - r.from > MAX_TIME_RANGE then Some(TimeRangeExceeded)
    else if |r.text| > MAX_QUERY_LENGTH then Some(QueryTooLong)
    else if c.rejectStructured && LooksStructured(r.text) then Some(Structured)
    else None
  }

  function Clamped(c: Config, q: Query, now: int): Query {
    var r := WithDefaultRange(q, now);
    r.(limit := Min(r.limit, c.maxPageSize))
  }

  class Service {
    const backend: Local
    const config: Config

    constructor (backend: Local, config: Config)
      ensures this.backend == backend
      ensures this.config == if config.maxPageSize == 0 then config.(maxPageSize := 1000) else config
    {
      this.backend := backend;
      this.config := if config.maxPageSize == 0 then config.(maxPageSize := 1000) else config;
    }

    /** A rejected query never reaches the backend; an accepted one is answered by
        it with the limit clamped, and is degraded exactly if that limit is
        positive and more entries matched. */
    method Query(query: Query, now: int, cancelled: bool, disk: Option<seq<LogEntry>>) returns (r: Outcome)
      requires backend.Valid() && MIN_INT64 <= query.limit <= MAX_INT64 && MIN_INT64 <= config.maxPageSize <= MAX_INT64
      modifies backend
      ensures backend.Valid()
      ensures Admitted(config, query, now).Some? ==>
        r == Rejected(Admitted(config, query, now).value) && backend.Contents() == old(backend.Contents())
      ensures Admitted(config, query, now).None? ==>
        var q := Clamped(config, query, now);
        var call := QueryCall(q, now, cancelled, disk);
        && backend.Contents() == Step(old(backend.Contents()), backend.hasDir, call)
        && match Reply(old(backend.Contents()), backend.hasDir, call) {
             case None => r == Rejected(BackendFailed)
             case Some(a) =>
               && r.Served? && r.answer == a
               && (r.degraded <==> q.limit > 0 && a.total > q.limit)
               && r.reason == if r.degraded then "limit: capped to " + Decimal.Show(q.limit) else ""
           }
    {
      hide Admitted, Clamped, Reply, Step;
      var q, error := Prepare(query, now);
      if error.Some? {
        return Rejected(error.value);
      }
      BoundedLimit(config, query, now);
      var answer := backend.Query(q, now, cancelled, disk);
      if answer.None? {
        return Rejected(BackendFailed);
      }
      if q.limit > 0 && answer.value.total > q.limit {
        var shown := Itoa(q.limit);
        return Served(answer.value, true, "limit: capped to " + shown);
      }
      return Served(answer.value, false, "");
    }

    /** Everything before the call of the backend. */
    method Prepare(query: Query, now: int) returns (q: Query, error: Option<ServiceError>)
      ensures error == Admitted(config, query, now)
      ensures error.None? ==> q == Clamped(config, query, now)
    {
      hide LooksStructured;
      q, error := query, None;
      if q.from == 0 && q.to == 0 {
        q := q.(from := now - 24 * HOUR, to := now);
      } else if q.from == 0 {
        q := q.(to := now);
      } else if q.to == 0 {
        q := q.(to := now);
      }
      if q.to - q.from > MAX_TIME_RANGE {
        return q, Some(TimeRangeExceeded);
      }
      if |q.text| > MAX_QUERY_LENGTH {
        return q, Some(QueryTooLong);
      }
      if config.rejectStructured && LooksStructured(q.text) {
        return q, Some(Structured);
      }
      if q.limit > config.maxPageSize {
        q := q.(limit := config.maxPageSize);
      }
    }
  }

  lemma BoundedLimit(c: Config, q: Query, now: int)
    requires MIN_INT64 <= q.limit <= MAX_INT64 && MIN_INT64 <= c.maxPageSize <= MAX_INT64
    ensures MIN_INT64 <= Clamped(c, q, now).limit <= MAX_INT64
  {
  }

  /** The degraded flag tells the truth about truncation exactly if the limit in
      force is positive or nothing beyond the backend's default of 50 matched. */
  lemma DegradedIffTruncated(entries: seq<LogEntry>, q: Query)
    ensures var a := AnswerOf(entries, q);
      var degraded := q.limit > 0 && a.total > q.limit;
      (degraded <==> |a.entries| < a.total) <==> q.limit > 0 || a.total <= 50
  {
  }

  /** Fifty-one matches and no limit: one is cut off, and the flag stays down. */
  lemma SilentTruncation(e: LogEntry, q: Query)
    requires q.limit == 0 && Matches(e, q)
    ensures var a := AnswerOf(seq(51, _ => e), q);
      a.total == 51 && |a.entries| == 50
  {
    AllMatch(e, q, 51);
  }

  lemma {:induction false} AllMatch(e: LogEntry, q: Query, n: nat)
    requires Matches(e, q)
    ensures |Matching(seq(n, _ => e), q)| == n
  {
    if n > 0 {
      AllMatch(e, q, n - 1);
      assert seq(n, _ => e)[..n - 1] == seq(n - 1, _ => e);
    }
  }

  /** Which queries are turned away for their range, over all bounds; now is later than
      a week after the zero time. An upper bound alone never gets through: it is replaced
      by now while the lower bound stays at the zero time. A query with no bound always
      does. */
  lemma RejectedForRange(c: Config, q: Query, now: int)
    requires now > 604_800_000_000_000
    ensures Admitted(c, q, now) == Some(TimeRangeExceeded) <==>
      || (q.from == 0 && q.to != 0)
      || (q.from != 0 && q.to == 0 && now - q.from > 604_800_000_000_000)
      || (q.from != 0 && q.to != 0 && q.to - q.from > 604_800_000_000_000)
  {
  }

  /** Any other query is turned away for a text of more than 1024 characters, or for
      looking structured where that is not allowed. */
  lemma RejectedForText(c: Config, q: Query, now: int)
    ensures var e := Admitted(c, q, now);
      e != Some(TimeRangeExceeded) ==>
        && (e == Some(QueryTooLong) <==> |q.text| > 1024)
        && (e == Some(Structured) <==> |q.text| <= 1024 && c.rejectStructured && LooksStructured(q.text))
        && e != Some(BackendFailed)
  {
  }

  /** What the backend gets: the last day where no bound is given, no upper bound but now
      where one is missing, a limit of at most the page size, and the rest as it came. */
  lemma ServedAs(c: Config, q: Query, now: int)
    ensures var r := Clamped(c, q, now);
      && r.from == (if q.from == 0 && q.to == 0 then now - 86_400_000_000_000 else q.from)
      && r.to == (if q.from == 0 || q.to == 0 then now else q.to)
      && r.limit == (if q.limit > c.maxPageSize then c.maxPageSize else q.limit)
      && (r.text, r.filters, r.sort) == (q.text, q.filters, q.sort)
  {
  }

  /** A text looks structured exactly if it holds ":*", or the word AND or OR, in any
      case, between spaces. */
  lemma StructuredMeans(s: string)
    ensures LooksStructured(s) <==>
      || (exists front, rest :: s == front + ":*" + rest)
      || (exists front, found, rest :: s == front + found + rest && ToUpper(found) == " AND ")
      || (exists front, found, rest :: s == front + found + rest && ToUpper(found) == " OR ")
  {
    FoundInEach(s, UPPER, " AND ");
    FoundInEach(s, UPPER, " OR ");
    ContainsMeans(s, ":*");
    EachConcat(s, "", UPPER);
    NothingInside(ToUpper(s));
    NothingInside(s);
    hide Contains, Each;
  }

  lemma NothingInside(up: string)
    ensures up == "" ==> !Contains(up, " AND ") && !Contains(up, " OR ") && !Contains(up, ":*")
  {
  }

  lemma UpperMeans(s: string, i: nat)
    requires i < |s|
    ensures |ToUpper(s)| == |s|
    ensures ToUpper(s)[i] == if 'a' <= s[i] <= 'z' then 'A' + (s[i] - 'a') else s[i]
  {
  }
}
