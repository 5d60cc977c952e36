/** The alert condition language: "<metric> <op> <threshold>". */
module AlertDsl {
  import opened GoStrings
  import opened Integers
  import opened Options
  import Decimal

  datatype ConditionOp = GT | LT | GTE | LTE | EQ

  function Text(op: ConditionOp): (s: string)
    ensures 1 <= |s| <= 2
  {
    match op case GT => ">" case LT => "<" case GTE => ">=" case LTE => "<=" case EQ => "=="
  }

  /** Thresholds are the finite float64 values; NaN and the infinities are left out. */
  datatype Condition = Condition(metric: string, op: ConditionOp, threshold: real)

  datatype DslError =
    | EmptyDsl
    | MissingMetric
    | IllegalMetric(metric: string)
    | MissingThreshold
    | NotANumber(text: string)
    | NoOperator(text: string)

  datatype Parsed = Ok(condition: Condition) | Err(error: DslError)

  // ---- finding an operator ----

  /** The white space of the grammar; narrower than that of strings.TrimSpace. */
  predicate IsBlank(c: char) { c == ' ' || c == '\t' || c == '\n' || c == '\r' }

  predicate BoundedAt(s: string, op: ConditionOp, i: nat) {
    var w := Text(op);
    && i + |w| <= |s| && s[i..i + |w|] == w
    && (i == 0 || IsBlank(s[i - 1]))
    && (i + |w| == |s| || IsBlank(s[i + |w|]))
  }

  /** The first place at or after from where op stands between blanks, or -1. */
  function FirstBounded(s: string, op: ConditionOp, from: nat): (i: int)
    ensures i >= 0 ==> BoundedAt(s, op, i) && i >= from
    ensures forall j :: from <= j < (if i < 0 then |s| else i) ==> !BoundedAt(s, op, j)
    ensures i >= -1
    decreases |s| - from
  {
    if from >= |s| then -1
    else if BoundedAt(s, op, from) then from
    else FirstBounded(s, op, from + 1)
  }

  method IndexOp(s: string, op: ConditionOp) returns (index: int)
    ensures index == FirstBounded(s, op, 0)
  {
    hide Text, FirstBounded;
    var w := Text(op);
    var i := 0;
    while i + |w| <= |s|
      invariant 0 <= i
      invariant i <= |s| ==> FirstBounded(s, op, 0) == FirstBounded(s, op, i)
      invariant i <= |s|
      decreases |s| - i
    {
      FirstBoundedStep(s, op, i);
      if s[i..i + |w|] != w {
        i := i + 1;
        continue;
      }
      var leftOk := i == 0 || IsBlank(s[i - 1]);
      var rightOk := i + |w| == |s| || IsBlank(s[i + |w|]);
      if leftOk && rightOk {
        return i;
      }
      i := i + 1;
    }
    return -1;
  }

  lemma FirstBoundedStep(s: string, op: ConditionOp, from: nat)
    ensures FirstBounded(s, op, from) ==
      if from >= |s| then -1 else if BoundedAt(s, op, from) then from else FirstBounded(s, op, from + 1)
  {
  }

  /** An operator found in a text is written there, and stands between blanks or at the
      text's ends. */
  lemma BoundedMeans(s: string, op: ConditionOp, i: nat)
    ensures var w := match op case GT => ">" case LT => "<" case GTE => ">=" case LTE => "<=" case EQ => "==";
      BoundedAt(s, op, i) <==>
        && w <= s[Min(i, |s|)..]
        && (i == 0 || i > |s| || s[i - 1] in " \t\n\r")
        && (i + |w| >= |s| || s[i + |w|] in " \t\n\r")
  {
  }

  // ---- metric names ----

  predicate IsNameChar(c: char) {
    'a' <= c <= 'z' || 'A' <= c <= 'Z' || '0' <= c <= '9' || c == '_' || c == '.'
  }

  predicate ValidName(s: string) {
    s != "" && forall i :: 0 <= i < |s| ==> IsNameChar(s[i])
  }

  method ValidMetricName(s: string) returns (ok: bool)
    ensures ok == ValidName(s)
    ensures ok <==> s != "" && forall i :: 0 <= i < |s| ==>
      'a' <= s[i] <= 'z' || 'A' <= s[i] <= 'Z' || '0' <= s[i] <= '9' || s[i] == '_' || s[i] == '.'
  {
    if s == "" {
      return false;
    }
    for i := 0 to |s|
      invariant forall j :: 0 <= j < i ==> IsNameChar(s[j])
    {
      if !IsNameChar(s[i]) {
        return false;
      }
    }
    return true;
  }

  // ---- parsing ----

  type Parser = string -> Option<real>

  /** What becomes of s when its operator is op at i. */
  function SplitAt(s: string, op: ConditionOp, i: nat, parse: Parser): Parsed
    requires BoundedAt(s, op, i)
  {
    var metric := TrimSpace(s[..i]);
    var rest := TrimSpace(s[i + |Text(op)|..]);
    if metric == "" then Err(MissingMetric)
    else if !ValidName(metric) then Err(IllegalMetric(metric))
    else if rest == "" then Err(MissingThreshold)
    else match parse(rest)
      case None => Err(NotANumber(rest))
      case Some(v) => Ok(Condition(metric, op, v))
  }

  const PRIORITY: seq<ConditionOp> := [GTE, LTE, EQ, GT, LT]

  /** The operators are tried in the given order. */
  function ParseInOrder(s: string, ops: seq<ConditionOp>, parse: Parser): Parsed {
    if ops == [] then Err(NoOperator(s)) else
      var i := FirstBounded(s, ops[0], 0);
      if i < 0 then ParseInOrder(s, ops[1..], parse) else SplitAt(s, ops[0], i, parse)
  }

  function Parse(s: string, parse: Parser): Parsed {
    var t := TrimSpace(s);
    if t == "" then Err(EmptyDsl) else ParseInOrder(t, PRIORITY, parse)
  }

  /** parse is strconv.ParseFloat. */
  method ParseDSL(text: string, parse: Parser) returns (r: Parsed)
    ensures r == Parse(text, parse)
  {
    hide Text, TrimSpace, FirstBounded, BoundedAt, SplitAt;
    var s := TrimSpace(text);
    if s == "" {
      return Err(EmptyDsl);
    }
    var n := 0;
    while n < |PRIORITY|
      invariant 0 <= n <= |PRIORITY|
      invariant ParseInOrder(s, PRIORITY[n..], parse) == Parse(text, parse)
    {
      var op := PRIORITY[n];
      assert PRIORITY[n..][0] == op && PRIORITY[n..][1..] == PRIORITY[n + 1..];
      n := n + 1;
      var idx := IndexOp(s, op);
      if idx < 0 {
        continue;
      }
      r := ParseParts(s, op, idx, parse);
      return;
    }
    return Err(NoOperator(s));
  }

  /** The rest of the loop body, once the operator is found. */
  method ParseParts(s: string, op: ConditionOp, idx: nat, parse: Parser) returns (r: Parsed)
    requires BoundedAt(s, op, idx)
    ensures r == SplitAt(s, op, idx, parse)
  {
    hide Text, TrimSpace, BoundedAt, ValidName;
    InRange(s, op, idx);
    var metric := TrimSpace(s[..idx]);
    var rest := TrimSpace(s[idx + |Text(op)|..]);
    if metric == "" {
      return Err(MissingMetric);
    }
    var valid := ValidMetricName(metric);
    if !valid {
      return Err(IllegalMetric(metric));
    }
    if rest == "" {
      return Err(MissingThreshold);
    }
    match parse(rest) {
      case None => return Err(NotANumber(rest));
      case Some(v) => return Ok(Condition(metric, op, v));
    }
  }

  lemma InRange(s: string, op: ConditionOp, i: nat)
    requires BoundedAt(s, op, i)
    ensures i + |Text(op)| <= |s|
  {
  }

  // ---- printing ----

  type Formatter = real -> string

  /** Whether v == float64(int64(v)). */
  predicate IsInt64(v: real) { v.Floor as real == v && MIN_INT64 <= v.Floor <= MAX_INT64 }

  /** format is strconv.FormatFloat(v, 'f', -1, 64). */
  function FormatThreshold(v: real, format: Formatter): string {
    if IsInt64(v) then Decimal.Show(v.Floor) else format(v)
  }

  function String(c: Condition, format: Formatter): string {
    c.metric + " " + Text(c.op) + " " + FormatThreshold(c.threshold, format)
  }

  /** Condition.Eval. */
  function Eval(c: Condition, value: real): bool {
    match c.op
    case GT => value > c.threshold
    case LT => value < c.threshold
    case GTE => value >= c.threshold
    case LTE => value <= c.threshold
    case EQ => value == c.threshold
  }

  // ---- what strconv promises ----

  const TWO53 := 0x20_0000_0000_0000

  predicate IsScaled(v: real, m: int, e: nat) {
    || (e <= 971 && v == (m * Pow2(e)) as real)
    || (e <= 1074 && v * (Pow2(e) as real) == m as real)
  }

  /** A finite float64: a 53-bit integer scaled by a power of two within range. */
  ghost predicate IsFloat64(v: real) {
    exists m: int, e: nat :: -TWO53 < m < TWO53 && IsScaled(v, m, e)
  }

  /** Integers of up to 53 bits, and the first power of two beyond, are floats. */
  lemma IntegersAreFloats(n: int)
    requires -TWO53 <= n <= TWO53
    ensures IsFloat64(n as real) && IsInt64(n as real)
  {
    assert Pow2(0) == 1 && Pow2(1) == 2;
    if n == TWO53 || n == -TWO53 {
      var half := if n > 0 then 0x10_0000_0000_0000 else -0x10_0000_0000_0000;
      assert IsScaled(n as real, half, 1);
    } else {
      assert IsScaled(n as real, n, 0);
    }
  }

  predicate IsOperatorChar(c: char) { c == '<' || c == '>' || c == '=' }

  /** No number contains a space or an operator character. */
  ghost predicate RejectsOperators(parse: Parser) {
    forall s :: parse(s).Some? ==> s != "" && forall c :: c in s ==> !IsSpace(c) && !IsOperatorChar(c)
  }

  /** Decimal integers and shortest renderings read back exactly. */
  ghost predicate ReadsBack(parse: Parser, format: Formatter) {
    && (forall n: int :: IsFloat64(n as real) ==> parse(Decimal.Show(n)) == Some(n as real))
    && (forall v :: IsFloat64(v) ==> parse(format(v)) == Some(v))
  }

  ghost predicate YieldsFloats(parse: Parser) {
    forall s :: parse(s).Some? ==> IsFloat64(parse(s).value)
  }

  // ---- one operator, whatever the order ----

  /** Text on both sides of the operator holds no operator character. */
  ghost predicate Alone(s: string, op: ConditionOp, i: nat) {
    && BoundedAt(s, op, i)
    && (forall k :: 0 <= k < i ==> !IsOperatorChar(s[k]))
    && (forall k :: i + |Text(op)| <= k < |s| ==> !IsOperatorChar(s[k]))
  }

  lemma SplitIsAlone(s: string, op: ConditionOp, i: nat, parse: Parser)
    requires RejectsOperators(parse) && BoundedAt(s, op, i) && SplitAt(s, op, i, parse).Ok?
    ensures Alone(s, op, i)
  {
    var n := i + |Text(op)|;
    InRange(s, op, i);
    forall k | 0 <= k < i ensures !IsOperatorChar(s[k]) {
      assert s[k] in s[..i];
      TrimDropsSpaces(s[..i], s[k]);
    }
    forall k | n <= k < |s| ensures !IsOperatorChar(s[k]) {
      assert s[k] in s[n..];
      TrimDropsSpaces(s[n..], s[k]);
    }
  }

  /** Then no other operator stands between blanks anywhere in the text. */
  lemma AloneIsUnique(s: string, op: ConditionOp, i: nat, op2: ConditionOp, j: nat)
    requires Alone(s, op, i) && BoundedAt(s, op2, j)
    ensures op2 == op && j == i
  {
    var w, v := Text(op), Text(op2);
    assert s[j] == s[j..j + |v|][0] == v[0];
    assert s[i] == s[i..i + |w|][0] == w[0];
    assert i <= j < i + |w|;
    if |w| == 2 { assert s[i + 1] == s[i..i + 2][1] == w[1]; }
    if |v| == 2 { assert s[j + 1] == s[j..j + 2][1] == v[1]; }
  }

  /** Any order that tries op at all finds it. */
  lemma {:induction false} AnyOrderFinds(s: string, ops: seq<ConditionOp>, parse: Parser, op: ConditionOp, i: nat)
    requires Alone(s, op, i) && op in ops
    ensures ParseInOrder(s, ops, parse) == SplitAt(s, op, i, parse)
  {
    hide Alone, SplitAt, BoundedAt;
    var j := FirstBounded(s, ops[0], 0);
    if j >= 0 {
      AloneIsUnique(s, op, i, ops[0], j);
    } else {
      NotMissed(s, op, i);
      AnyOrderFinds(s, ops[1..], parse, op, i);
    }
  }

  lemma NotMissed(s: string, op: ConditionOp, i: nat)
    requires Alone(s, op, i)
    ensures FirstBounded(s, op, 0) >= 0
  {
    assert i < |s|;
  }

  lemma {:induction false} SuccessHasOperator(s: string, ops: seq<ConditionOp>, parse: Parser) returns (op: ConditionOp, i: nat)
    requires ParseInOrder(s, ops, parse).Ok?
    ensures op in ops && BoundedAt(s, op, i) && SplitAt(s, op, i, parse) == ParseInOrder(s, ops, parse)
  {
    hide SplitAt, BoundedAt;
    if FirstBounded(s, ops[0], 0) >= 0 {
      op, i := ops[0], FirstBounded(s, ops[0], 0);
    } else {
      op, i := SuccessHasOperator(s, ops[1..], parse);
    }
  }

  ghost predicate SplitsInto(t: string, op: ConditionOp, i: nat, parse: Parser, c: Condition) {
    BoundedAt(t, op, i) && SplitAt(t, op, i, parse) == Ok(c)
  }

  /** What is accepted, without a word about the order of the operators: the text
      splits at some operator between blanks into a name and a number. */
  lemma AcceptedExactly(text: string, parse: Parser, c: Condition)
    requires RejectsOperators(parse)
    ensures Parse(text, parse) == Ok(c) <==> exists op: ConditionOp, i: nat :: SplitsInto(TrimSpace(text), op, i, parse, c)
  {
    if Parse(text, parse) == Ok(c) {
      var op, i := SuccessHasOperator(TrimSpace(text), PRIORITY, parse);
      assert SplitsInto(TrimSpace(text), op, i, parse, c);
    }
    forall op, i: nat | SplitsInto(TrimSpace(text), op, i, parse, c) ensures Parse(text, parse) == Ok(c) {
      SplitIsAccepted(text, op, i, parse, c);
    }
  }

  lemma SplitIsAccepted(text: string, op: ConditionOp, i: nat, parse: Parser, c: Condition)
    requires RejectsOperators(parse) && SplitsInto(TrimSpace(text), op, i, parse, c)
    ensures Parse(text, parse) == Ok(c)
  {
    var t := TrimSpace(text);
    InRange(t, op, i);
    SplitIsAlone(t, op, i, parse);
    AnyOrderFinds(t, PRIORITY, parse, op, i);
  }

  /** An accepted text has exactly one operator between blanks. */
  lemma OneOperator(text: string, parse: Parser) returns (op: ConditionOp, i: nat)
    requires RejectsOperators(parse) && Parse(text, parse).Ok?
    ensures op == Parse(text, parse).condition.op
    ensures forall op2, j: nat :: BoundedAt(TrimSpace(text), op2, j) <==> op2 == op && j == i
  {
    var t := TrimSpace(text);
    hide TrimSpace, FirstBounded;
    op, i := SuccessHasOperator(t, PRIORITY, parse);
    SplitIsAlone(t, op, i, parse);
    forall op2, j: nat | BoundedAt(t, op2, j) ensures op2 == op && j == i {
      AloneIsUnique(t, op, i, op2, j);
    }
  }

  /** Trying the operators in another order never changes a successful result. */
  lemma OrderIrrelevant(s: string, ops: seq<ConditionOp>, other: seq<ConditionOp>, parse: Parser)
    requires RejectsOperators(parse) && ParseInOrder(s, ops, parse).Ok?
    requires forall op :: op in ops ==> op in other
    ensures ParseInOrder(s, other, parse) == ParseInOrder(s, ops, parse)
  {
    hide ParseInOrder, SplitAt, BoundedAt;
    var op, i := SuccessHasOperator(s, ops, parse);
    SplitIsAlone(s, op, i, parse);
    AnyOrderFinds(s, other, parse, op, i);
  }

  // ---- printing and parsing ----

  predicate PlainNumber(s: string) {
    s != "" && forall i :: 0 <= i < |s| ==> !IsSpace(s[i]) && !IsOperatorChar(s[i])
  }

  lemma PrintedAlone(metric: string, op: ConditionOp, number: string)
    requires ValidName(metric) && PlainNumber(number)
    ensures Alone(metric + " " + Text(op) + " " + number, op, |metric| + 1)
  {
    var w := Text(op);
    var s := metric + " " + w + " " + number;
    hide Text;
    assert s[|metric| + 1..|metric| + 1 + |w|] == w;
    assert s[|metric|] == ' ' && s[|metric| + 1 + |w|] == ' ';
    assert forall k :: |metric| + 2 + |w| <= k < |s| ==> s[k] == number[k - |metric| - 2 - |w|];
  }

  lemma PrintedSplits(metric: string, op: ConditionOp, number: string)
    requires ValidName(metric) && PlainNumber(number)
    ensures var s := metric + " " + Text(op) + " " + number;
      && TrimSpace(s) == s && |metric| + 1 + |Text(op)| <= |s|
      && TrimSpace(s[..|metric| + 1]) == metric
      && TrimSpace(s[|metric| + 1 + |Text(op)|..]) == number
  {
    var w := Text(op);
    var s := metric + " " + w + " " + number;
    hide Text, TrimSpace;
    assert s[0] == metric[0] && s[|s| - 1] == number[|number| - 1];
    TrimNothing(s);
    TrimNothing(metric);
    TrimPadding(metric);
    TrimNothing(number);
    TrimPadding(number);
    assert s[..|metric| + 1] == metric + " ";
    assert s[|metric| + 1 + |w|..] == " " + number;
  }

  /** Parsing what String prints gives back the condition: for every metric name,
      every operator and every float64. */
  lemma ConditionRoundTrip(c: Condition, parse: Parser, format: Formatter)
    requires RejectsOperators(parse) && ReadsBack(parse, format)
    requires ValidName(c.metric) && IsFloat64(c.threshold)
    ensures Parse(String(c, format), parse) == Ok(c)
  {
    var number := FormatThreshold(c.threshold, format);
    assert parse(number) == Some(c.threshold) by {
      if IsInt64(c.threshold) { assert IsFloat64(c.threshold.Floor as real); }
    }
    var s := String(c, format);
    assert PlainNumber(number);
    PrintedSplits(c.metric, c.op, number);
    PrintedAlone(c.metric, c.op, number);
    hide Text, TrimSpace, ReadsBack, FormatThreshold, ValidName, Alone;
    AnyOrderFinds(s, PRIORITY, parse, c.op, |c.metric| + 1);
    assert s == c.metric + " " + Text(c.op) + " " + number;
  }

  /** What text parses to a condition on this metric and threshold. */
  lemma ReadsAs(metric: string, op: ConditionOp, number: string, parse: Parser)
    requires RejectsOperators(parse) && ValidName(metric) && parse(number).Some?
    ensures Parse(metric + " " + Text(op) + " " + number, parse) == Ok(Condition(metric, op, parse(number).value))
  {
    assert PlainNumber(number);
    PrintedSplits(metric, op, number);
    PrintedAlone(metric, op, number);
    hide Text, TrimSpace, ValidName, Alone;
    AnyOrderFinds(metric + " " + Text(op) + " " + number, PRIORITY, parse, op, |metric| + 1);
  }

  /** Each operator as it is written is accepted, and the condition holds of exactly
      the values it says. */
  lemma OperatorsMean(metric: string, number: string, parse: Parser)
    requires RejectsOperators(parse) && ValidName(metric) && parse(number).Some?
    ensures var t := parse(number).value;
      && (var p := Parse(metric + " > " + number, parse); p.Ok? && forall v :: Eval(p.condition, v) <==> v > t)
      && (var p := Parse(metric + " < " + number, parse); p.Ok? && forall v :: Eval(p.condition, v) <==> v < t)
      && (var p := Parse(metric + " >= " + number, parse); p.Ok? && forall v :: Eval(p.condition, v) <==> v >= t)
      && (var p := Parse(metric + " <= " + number, parse); p.Ok? && forall v :: Eval(p.condition, v) <==> v <= t)
      && (var p := Parse(metric + " == " + number, parse); p.Ok? && forall v :: Eval(p.condition, v) <==> v == t)
  {
    ReadsAs(metric, GT, number, parse);
    ReadsAs(metric, LT, number, parse);
    ReadsAs(metric, GTE, number, parse);
    ReadsAs(metric, LTE, number, parse);
    ReadsAs(metric, EQ, number, parse);
    hide Parse, RejectsOperators, ValidName;
    assert metric + " " + Text(GT) + " " + number == metric + " > " + number;
    assert metric + " " + Text(LT) + " " + number == metric + " < " + number;
    assert metric + " " + Text(GTE) + " " + number == metric + " >= " + number;
    assert metric + " " + Text(LTE) + " " + number == metric + " <= " + number;
    assert metric + " " + Text(EQ) + " " + number == metric + " == " + number;
  }

  /** Which texts are turned away for being empty, and which for want of an operator. */
  lemma NothingToRead(text: string, parse: Parser)
    ensures Parse(text, parse) == Err(EmptyDsl) <==> forall c :: c in text ==> c == ' ' || '\t' <= c <= '\r'
    ensures Parse(text, parse) == Err(NoOperator(TrimSpace(text))) <==>
      TrimSpace(text) != "" && forall op, i: nat :: !BoundedAt(TrimSpace(text), op, i)
  {
    TrimsToEmpty(text);
    InOrderFails(TrimSpace(text), PRIORITY, parse);
    hide TrimSpace, SplitAt;
    forall op: ConditionOp ensures op in PRIORITY {
      assert op == PRIORITY[match op case GTE => 0 case LTE => 1 case EQ => 2 case GT => 3 case LT => 4];
    }
  }

  lemma TrimsToEmpty(s: string)
    ensures TrimSpace(s) == "" <==> forall c :: c in s ==> c == ' ' || '\t' <= c <= '\r'
  {
    var a, b := TrimIs(s);
    if TrimSpace(s) == "" {
      forall c | c in s ensures IsSpace(c) { TrimDropsSpaces(s, c); }
    } else {
      assert TrimSpace(s)[0] in s;
    }
  }

  lemma {:induction false} InOrderFails(s: string, ops: seq<ConditionOp>, parse: Parser)
    ensures ParseInOrder(s, ops, parse) != Err(EmptyDsl)
    ensures ParseInOrder(s, ops, parse) == Err(NoOperator(s)) <==> forall op, i: nat :: op in ops ==> !BoundedAt(s, op, i)
  {
    hide BoundedAt, FirstBounded, Text, TrimSpace, ValidName;
    if ops != [] {
      InOrderFails(s, ops[1..], parse);
      NoneBounded(s, ops[0]);
      assert ops == [ops[0]] + ops[1..];
    }
  }

  lemma NoneBounded(s: string, op: ConditionOp)
    ensures FirstBounded(s, op, 0) < 0 <==> forall i: nat :: !BoundedAt(s, op, i)
  {
    forall i: nat | BoundedAt(s, op, i) ensures i < |s| {
      InRange(s, op, i);
    }
  }

  /** Every integer up to 2^53 in size round-trips, for every operator. */
  lemma IntegerRoundTrip(metric: string, op: ConditionOp, n: int, parse: Parser, format: Formatter)
    requires RejectsOperators(parse) && ReadsBack(parse, format)
    requires ValidName(metric) && -TWO53 <= n <= TWO53
    ensures String(Condition(metric, op, n as real), format) == metric + " " + Text(op) + " " + Decimal.Show(n)
    ensures Parse(metric + " " + Text(op) + " " + Decimal.Show(n), parse) == Ok(Condition(metric, op, n as real))
  {
    IntegersAreFloats(n);
    ConditionRoundTrip(Condition(metric, op, n as real), parse, format);
  }

  /** Printing an accepted text and parsing again changes nothing any more. */
  lemma ReprintIsStable(text: string, parse: Parser, format: Formatter)
    requires RejectsOperators(parse) && ReadsBack(parse, format) && YieldsFloats(parse)
    requires Parse(text, parse).Ok?
    ensures Parse(String(Parse(text, parse).condition, format), parse) == Parse(text, parse)
  {
    var t := TrimSpace(text);
    var op, i := SuccessHasOperator(t, PRIORITY, parse);
    ConditionRoundTrip(Parse(text, parse).condition, parse, format);
  }
}
