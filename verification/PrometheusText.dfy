/** The parser for Prometheus samples: text exposition format, version 0.0.4. */
module PrometheusText {
  import opened GoStrings
  import opened Options

  datatype Sample<V> = Sample(name: string, labels: map<string, string>, value: V)

  // ---- parsing ----

  predicate IsSeparator(c: char) { c == ' ' || c == ',' }

  function SkipSeparators(s: string): (t: string)
    ensures |t| <= |s|
  {
    if s != "" && IsSeparator(s[0]) then SkipSeparators(s[1..]) else s
  }

  /** A quoted value after its opening quote, and what follows the closing one. */
  function QuotedValue(s: string): (r: (string, string))
    ensures |r.1| <= |s|
  {
    if s == "" then ("", "")
    else if s[0] == '"' then ("", s[1..])
    else if s[0] == '\\' && |s| > 1 && s[1] == '"' then
      var r := QuotedValue(s[2..]);
      ("\"" + r.0, r.1)
    else
      var r := QuotedValue(s[1..]);
      ([s[0]] + r.0, r.1)
  }

  /** The labels of a label set, read after those in out. */
  function LabelsFrom(s: string, out: map<string, string>): map<string, string>
    decreases |s|
  {
    if s == "" then out else
      var t := SkipSeparators(s);
      var eq := Index(t, '=');
      if eq < 0 || eq + 1 >= |t| || t[eq + 1] != '"' then out else
        var r := QuotedValue(t[eq + 2..]);
        LabelsFrom(r.1, out[TrimSpace(t[..eq]) := r.0])
  }

  /** parseLabels, its three inner loops as methods of their own. */
  method ParseLabels(body: string) returns (out: map<string, string>)
    ensures out == LabelsFrom(body, map[])
  {
    hide SkipSeparators, QuotedValue, TrimSpace, LabelsFrom;
    out := map[];
    var i := 0;
    assert body[0..] == body;
    while i < |body|
      invariant 0 <= i <= |body|
      invariant LabelsFrom(body[i..], out) == LabelsFrom(body, map[])
      decreases |body| - i
    {
      ghost var start := i;
      i := PassSeparators(body, i);
      var keyStart := i;
      i := PassKey(body, i);
      LabelsFromStep(body, start, keyStart, i, out);
      if i >= |body| {
        return;
      }
      var key := TrimSpace(body[keyStart..i]);
      i := i + 1;
      if i >= |body| || body[i] != '"' {
        return;
      }
      i := i + 1;
      var value;
      value, i := PassValue(body, i);
      out := out[key := value];
    }
    LabelsFromEnd(body[i..], out);
  }

  method PassSeparators(body: string, start: nat) returns (i: nat)
    requires start <= |body|
    ensures start <= i <= |body| && body[i..] == SkipSeparators(body[start..])
  {
    i := start;
    while i < |body| && IsSeparator(body[i])
      invariant start <= i <= |body|
      invariant SkipSeparators(body[i..]) == SkipSeparators(body[start..])
    {
      assert body[i..][1..] == body[i + 1..];
      i := i + 1;
    }
  }

  method PassKey(body: string, start: nat) returns (i: nat)
    requires start <= |body|
    ensures start <= i <= |body| && '=' !in body[start..i] && (i < |body| ==> body[i] == '=')
  {
    i := start;
    while i < |body| && body[i] != '='
      invariant start <= i <= |body| && '=' !in body[start..i]
    {
      i := i + 1;
    }
  }

  method PassValue(body: string, start: nat) returns (value: string, i: nat)
    requires start <= |body|
    ensures start <= i <= |body| && value == QuotedValue(body[start..]).0 && body[i..] == QuotedValue(body[start..]).1
  {
    hide QuotedValue;
    value, i := "", start;
    while i < |body| && body[i] != '"'
      invariant start <= i <= |body|
      invariant QuotedValue(body[start..]).0 == value + QuotedValue(body[i..]).0
      invariant QuotedValue(body[start..]).1 == QuotedValue(body[i..]).1
      decreases |body| - i
    {
      ValueStep(body, i);
      if body[i] == '\\' && i + 1 < |body| && body[i + 1] == '"' {
        value := value + "\"";
        i := i + 2;
        continue;
      }
      value := value + [body[i]];
      i := i + 1;
    }
    ValueStep(body, i);
    if i < |body| {
      i := i + 1;
    }
  }

  /** QuotedValue, by position in the text. */
  lemma ValueStep(body: string, i: nat)
    requires i <= |body|
    ensures var r := QuotedValue(body[i..]);
      if i == |body| then r == ("", "")
      else if body[i] == '"' then r == ("", body[i + 1..])
      else if body[i] == '\\' && i + 1 < |body| && body[i + 1] == '"' then
        r.0 == "\"" + QuotedValue(body[i + 2..]).0 && r.1 == QuotedValue(body[i + 2..]).1
      else r.0 == [body[i]] + QuotedValue(body[i + 1..]).0 && r.1 == QuotedValue(body[i + 1..]).1
  {
    var s := body[i..];
    if s != "" {
      assert s[1..] == body[i + 1..];
      if |s| > 1 { assert s[2..] == body[i + 2..]; }
    }
  }

  /** One turn of the outer loop, by what its inner loops have passed. */
  lemma LabelsFromStep(body: string, start: nat, keyStart: nat, i: nat, out: map<string, string>)
    requires start <= keyStart <= i <= |body| && start < |body|
    requires body[keyStart..] == SkipSeparators(body[start..])
    requires '=' !in body[keyStart..i] && (i < |body| ==> body[i] == '=')
    ensures LabelsFrom(body[start..], out) ==
      if i + 1 >= |body| || body[i + 1] != '"' then out else
        var r := QuotedValue(body[i + 2..]);
        LabelsFrom(r.1, out[TrimSpace(body[keyStart..i]) := r.0])
  {
    hide TrimSpace, QuotedValue, SkipSeparators, Index;
    var t := body[keyStart..];
    assert t[..i - keyStart] == body[keyStart..i];
    IndexIs(t, '=', i - keyStart);
    if i < |body| { assert i + 2 <= |body| ==> t[i - keyStart + 2..] == body[i + 2..]; }
  }

  lemma LabelsFromEnd(s: string, out: map<string, string>)
    requires s == ""
    ensures LabelsFrom(s, out) == out
  {
  }

  /** splitNameAndLabels. */
  function SplitNameAndLabels(head: string): (string, map<string, string>) {
    var open := Index(head, '{');
    if open < 0 then (head, map[]) else
      var body := head[open + 1..];
      var close := LastIndex(body, '}');
      if close < 0 then (head[..open], map[]) else (head[..open], LabelsFrom(body[..close], map[]))
  }

  /** splitSample; parse is strconv.ParseFloat. */
  function SplitSample<V>(line: string, parse: string -> Option<V>): Option<Sample<V>> {
    var i := LastIndex(line, ' ');
    if i <= 0 then None else
      match parse(line[i + 1..])
      case None => None
      case Some(v) =>
        var (name, labels) := SplitNameAndLabels(line[..i]);
        if name == "" then None else Some(Sample(name, labels, v))
  }

  // ---- printing ----

  datatype Label = Label(key: string, value: string)

  function EscapeQuotes(v: string): string {
    if v == "" then "" else (if v[0] == '"' then "\\\"" else [v[0]]) + EscapeQuotes(v[1..])
  }

  function PrintLabel(l: Label): string {
    l.key + "=\"" + EscapeQuotes(l.value) + "\""
  }

  function PrintLabels(ls: seq<Label>): string {
    if ls == [] then "" else PrintLabel(ls[0]) + if |ls| == 1 then "" else "," + PrintLabels(ls[1..])
  }

  function PrintSample(name: string, ls: seq<Label>, numeral: string): string {
    name + (if ls == [] then "" else "{" + PrintLabels(ls) + "}") + " " + numeral
  }

  /** Later labels of the same key win. */
  function Collect(ls: seq<Label>, out: map<string, string>): map<string, string> {
    if ls == [] then out else Collect(ls[1..], out[ls[0].key := ls[0].value])
  }

  // ---- a value by itself ----

  predicate EndsInBackslash(v: string) { v != "" && v[|v| - 1] == '\\' }

  /** A value with its quotes escaped reads back exactly unless it ends in a
      backslash, which would swallow the closing quote. */
  lemma {:induction false} ValueRoundTrip(v: string, rest: string)
    ensures QuotedValue(EscapeQuotes(v) + "\"" + rest) == (v, rest) <==> !EndsInBackslash(v)
  {
    var text := EscapeQuotes(v) + "\"" + rest;
    if v == "" {
      assert text == "\"" + rest;
    } else {
      var w := v[1..];
      var after := EscapeQuotes(w) + "\"" + rest;
      ValueRoundTrip(w, rest);
      assert v == [v[0]] + w;
      assert EndsInBackslash(v) <==> EndsInBackslash(w) || (w == "" && v[0] == '\\');
      if v[0] == '"' {
        assert text == "\\\"" + after;
        assert text[2..] == after;
      } else {
        assert text == [v[0]] + after;
        assert text[1..] == after;
        if v[0] == '\\' && w == "" { assert after == "\"" + rest; }
      }
    }
  }

  /** The escaping of the exposition format: backslash, quote and newline. */
  function EscapeAll(v: string): string {
    if v == "" then "" else
      (if v[0] == '"' then "\\\"" else if v[0] == '\\' then "\\\\" else if v[0] == '\n' then "\\n" else [v[0]])
      + EscapeAll(v[1..])
  }

  predicate NeedsMore(c: char) { c == '\\' || c == '\n' }

  function Count(s: string, p: char -> bool): nat {
    if s == "" then 0 else (if p(s[0]) then 1 else 0) + Count(s[1..], p)
  }

  /** What QuotedValue passes: one character for each it returns, one more for
      each quote, and the closing quote if there is one. */
  lemma {:induction false} QuotedLength(s: string)
    ensures var r := QuotedValue(s);
      |s| == |r.0| + Count(r.0, c => c == '"') + |r.1| || |s| == |r.0| + Count(r.0, c => c == '"') + 1 + |r.1|
  {
    if s == "" || s[0] == '"' {
    } else if s[0] == '\\' && |s| > 1 && s[1] == '"' {
      QuotedLength(s[2..]);
      var w := QuotedValue(s[2..]).0;
      assert ("\"" + w)[1..] == w;
    } else {
      QuotedLength(s[1..]);
      var w := QuotedValue(s[1..]).0;
      assert ([s[0]] + w)[1..] == w;
    }
  }

  lemma {:induction false} EscapedLength(v: string)
    ensures |EscapeAll(v)| == |v| + Count(v, c => c == '"') + Count(v, NeedsMore)
    ensures Count(v, NeedsMore) == 0 ==> EscapeAll(v) == EscapeQuotes(v) && !EndsInBackslash(v)
  {
    if v != "" {
      EscapedLength(v[1..]);
      if |v| > 1 { assert v[1..][|v| - 2] == v[|v| - 1]; }
    }
  }

  /** A value escaped as the format says reads back exactly if it holds neither a
      backslash nor a newline. */
  lemma FormatRoundTrip(v: string, rest: string)
    ensures QuotedValue(EscapeAll(v) + "\"" + rest) == (v, rest) <==> Count(v, NeedsMore) == 0
  {
    EscapedLength(v);
    QuotedLength(EscapeAll(v) + "\"" + rest);
    ValueRoundTrip(v, rest);
  }

  // ---- a whole sample ----

  /** A key the parser reads back: no '=', not trimmed, not taken for a comma. */
  predicate ReadableKey(k: string) {
    '=' !in k && TrimSpace(k) == k && (k != "" ==> k[0] != ',')
  }

  predicate Readable(ls: seq<Label>) {
    forall i :: 0 <= i < |ls| ==> ReadableKey(ls[i].key) && !EndsInBackslash(ls[i].value)
  }

  /** One label at the front of the text. */
  lemma OneLabel(l: Label, tail: string, out: map<string, string>)
    requires ReadableKey(l.key) && !EndsInBackslash(l.value)
    ensures LabelsFrom(PrintLabel(l) + tail, out) == LabelsFrom(tail, out[l.key := l.value])
  {
    var rest := EscapeQuotes(l.value) + "\"" + tail;
    var s := l.key + "=\"" + rest;
    assert PrintLabel(l) + tail == s;
    ValueRoundTrip(l.value, tail);
    StartsWithKey(l.key, "\"" + rest);
    hide QuotedValue, TrimSpace, SkipSeparators, Index, EscapeQuotes;
    assert l.key + "=" + ("\"" + rest) == s;
    assert s[|l.key| + 1] == '"' && s[|l.key| + 2..] == rest && s[..|l.key|] == l.key;
  }

  lemma StartsWithKey(k: string, rest: string)
    requires ReadableKey(k)
    ensures var s := k + "=" + rest; SkipSeparators(s) == s && Index(s, '=') == |k|
  {
    var s := k + "=" + rest;
    assert s[..|k|] == k;
    IndexIs(s, '=', |k|);
    assert s[0] == if k == "" then '=' else k[0];
  }

  lemma SkipComma(s: string, out: map<string, string>)
    ensures LabelsFrom("," + s, out) == LabelsFrom(s, out)
  {
    assert ("," + s)[1..] == s;
  }

  lemma {:induction false} LabelsRoundTrip(ls: seq<Label>, out: map<string, string>)
    requires Readable(ls)
    ensures LabelsFrom(PrintLabels(ls), out) == Collect(ls, out)
  {
    if ls != [] {
      hide LabelsFrom, PrintLabel, ReadableKey, EndsInBackslash;
      var l, rest := ls[0], ls[1..];
      var next := out[l.key := l.value];
      var tail := if |ls| == 1 then "" else "," + PrintLabels(rest);
      OneLabel(l, tail, out);
      LabelsRoundTrip(rest, next);
      if |ls| > 1 { SkipComma(PrintLabels(rest), next); }
    }
  }

  lemma HeadRoundTrip(name: string, ls: seq<Label>)
    requires '{' !in name && Readable(ls)
    ensures SplitNameAndLabels(name + if ls == [] then "" else "{" + PrintLabels(ls) + "}") == (name, Collect(ls, map[]))
  {
    hide LabelsFrom, PrintLabels, Readable;
    if ls == [] {
      assert name + "" == name;
    } else {
      var text := PrintLabels(ls);
      var head := name + ("{" + text + "}");
      assert head[..|name|] == name;
      IndexIs(head, '{', |name|);
      var body := head[|name| + 1..];
      assert body == text + "}";
      LastIndexIs(body, '}', |text|);
      LabelsRoundTrip(ls, map[]);
    }
  }

  /** Printing a sample and parsing the line gives back its name, its labels and
      its value. The name may hold anything but '{', a value anything but a
      backslash at its end, the numeral anything but a space. */
  lemma SampleRoundTrip<V>(name: string, ls: seq<Label>, numeral: string, parse: string -> Option<V>, v: V)
    requires name != "" && '{' !in name && Readable(ls)
    requires ' ' !in numeral && parse(numeral) == Some(v)
    ensures SplitSample(PrintSample(name, ls, numeral), parse) == Some(Sample(name, Collect(ls, map[]), v))
  {
    hide SplitNameAndLabels, PrintLabels, Collect, Readable;
    var head := name + if ls == [] then "" else "{" + PrintLabels(ls) + "}";
    var line := PrintSample(name, ls, numeral);
    assert line == head + " " + numeral;
    assert line[|head| + 1..] == numeral && line[..|head|] == head;
    LastIndexIs(line, ' ', |head|);
    HeadRoundTrip(name, ls);
  }

  lemma {:induction false} NoQuoteNoEscape(v: string)
    requires '"' !in v
    ensures EscapeQuotes(v) == v
  {
    if v != "" {
      NoQuoteNoEscape(v[1..]);
      assert v == [v[0]] + v[1..];
    }
  }

  /** A line as exporters write it: the name, two labels in braces, a space, the value. */
  lemma LineReads<V>(name: string, k1: string, v1: string, k2: string, v2: string, numeral: string,
                     parse: string -> Option<V>, v: V)
    requires name != "" && '{' !in name && ' ' !in numeral && parse(numeral) == Some(v)
    requires ReadableKey(k1) && ReadableKey(k2) && !EndsInBackslash(v1) && !EndsInBackslash(v2)
    requires '"' !in v1 && '"' !in v2
    ensures SplitSample(name + "{" + k1 + "=\"" + v1 + "\"," + k2 + "=\"" + v2 + "\"} " + numeral, parse) ==
            Some(Sample(name, map[k1 := v1][k2 := v2], v))
  {
    var ls := [Label(k1, v1), Label(k2, v2)];
    SampleRoundTrip(name, ls, numeral, parse, v);
    NoQuoteNoEscape(v1);
    NoQuoteNoEscape(v2);
    TwoLabels(ls);
    hide SplitSample, Collect, Readable, ReadableKey, EscapeQuotes, PrintLabels;
    assert PrintSample(name, ls, numeral) == name + ("{" + PrintLabels(ls) + "}") + " " + numeral;
    Joined(name, k1, v1, k2, v2, numeral, PrintLabels(ls));
  }

  lemma TwoLabels(ls: seq<Label>)
    requires |ls| == 2
    ensures PrintLabels(ls) == PrintLabel(ls[0]) + ("," + PrintLabel(ls[1]))
    ensures Collect(ls, map[]) == map[ls[0].key := ls[0].value][ls[1].key := ls[1].value]
  {
    assert ls[1..] == [ls[1]] && ls[1..][1..] == [];
    assert PrintLabels([ls[1]]) == PrintLabel(ls[1]) + "";
    var m := map[ls[0].key := ls[0].value];
    assert Collect([ls[1]], m) == Collect([], m[ls[1].key := ls[1].value]);
    assert map[][ls[0].key := ls[0].value] == m && Collect(ls, map[]) == Collect([ls[1]], m);
  }

  lemma Joined(name: string, k1: string, v1: string, k2: string, v2: string, numeral: string, text: string)
    requires text == k1 + "=\"" + v1 + "\"" + ("," + (k2 + "=\"" + v2 + "\""))
    ensures name + ("{" + text + "}") + " " + numeral ==
            name + "{" + k1 + "=\"" + v1 + "\"," + k2 + "=\"" + v2 + "\"} " + numeral
  {
  }

  predicate DistinctKeys(ls: seq<Label>) {
    forall i, j :: 0 <= i < j < |ls| ==> ls[i].key != ls[j].key
  }

  /** With distinct keys the labels read back are exactly the labels printed. */
  lemma {:induction false} CollectsAll(ls: seq<Label>, out: map<string, string>)
    requires DistinctKeys(ls)
    ensures var m := Collect(ls, out);
      && (forall i :: 0 <= i < |ls| ==> ls[i].key in m && m[ls[i].key] == ls[i].value)
      && (forall k :: k !in Keys(ls) ==> (k in m <==> k in out) && (k in out ==> m[k] == out[k]))
  {
    if ls != [] {
      var l, rest := ls[0], ls[1..];
      CollectsAll(rest, out[l.key := l.value]);
      var m := Collect(ls, out);
      assert l.key !in Keys(rest);
      forall i | 0 <= i < |ls| ensures ls[i].key in m && m[ls[i].key] == ls[i].value {
        if i > 0 { assert ls[i] == rest[i - 1]; }
      }
      forall k | k !in Keys(ls) ensures k !in Keys(rest) && k != l.key {
        assert forall i :: 0 <= i < |rest| ==> rest[i] == ls[i + 1];
      }
    }
  }

  function Keys(ls: seq<Label>): set<string> { set i | 0 <= i < |ls| :: ls[i].key }

  /** Which lines are samples at all. */
  lemma AcceptedExactly<V>(line: string, parse: string -> Option<V>)
    ensures var i := LastIndex(line, ' ');
      SplitSample(line, parse).Some? <==> i > 0 && line[0] != '{' && parse(line[i + 1..]).Some?
  {
    hide LabelsFrom, LastIndex, Index;
    var i := LastIndex(line, ' ');
    if i > 0 {
      var head := line[..i];
      if head[0] == '{' { IndexIs(head, '{', 0); }
    }
  }
}
