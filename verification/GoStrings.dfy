/** The parts of Go's strings package the parsers use. */
module GoStrings {
  function Index(s: string, c: char): (i: int)
    ensures -1 <= i < |s|
    ensures i < 0 ==> c !in s
    ensures i >= 0 ==> s[i] == c && c !in s[..i]
  {
    if s == "" then -1
    else if s[0] == c then 0
    else
      var i := Index(s[1..], c);
      if i < 0 then -1 else
        assert s[..i + 1] == [s[0]] + s[1..][..i];
        i + 1
  }

  function LastIndex(s: string, c: char): (i: int)
    ensures -1 <= i < |s|
    ensures i < 0 ==> c !in s
    ensures i >= 0 ==> s[i] == c && c !in s[i + 1..]
  {
    if s == "" then -1
    else if s[|s| - 1] == c then |s| - 1
    else
      var i := LastIndex(s[..|s| - 1], c);
      assert s == s[..|s| - 1] + [s[|s| - 1]];
      i
  }

  predicate IsSpace(c: char) { c == ' ' || ('\t' <= c <= '\r') }

  function TrimSpace(s: string): (t: string)
    ensures |t| <= |s|
  {
    if s == "" then ""
    else if IsSpace(s[0]) then TrimSpace(s[1..])
    else if IsSpace(s[|s| - 1]) then TrimSpace(s[..|s| - 1])
    else s
  }

  /** What is trimmed is white space before and after, and no end of the rest is. */
  lemma {:induction false} TrimIs(s: string) returns (a: string, b: string)
    ensures s == a + TrimSpace(s) + b
    ensures forall c :: c in a || c in b ==> c == ' ' || '\t' <= c <= '\r'
    ensures var t := TrimSpace(s); t != "" ==>
      && t[0] != ' ' && !('\t' <= t[0] <= '\r')
      && t[|t| - 1] != ' ' && !('\t' <= t[|t| - 1] <= '\r')
  {
    TrimStep(s);
    hide TrimSpace;
    if s == "" {
      a, b := "", "";
    } else if IsSpace(s[0]) {
      a, b := TrimIs(s[1..]);
      a := [s[0]] + a;
      assert s == [s[0]] + s[1..];
    } else if IsSpace(s[|s| - 1]) {
      a, b := TrimIs(s[..|s| - 1]);
      b := b + [s[|s| - 1]];
      assert s == s[..|s| - 1] + [s[|s| - 1]];
    } else {
      a, b := "", "";
      assert s == "" + s + "";
    }
  }

  lemma TrimStep(s: string)
    ensures TrimSpace(s) ==
      if s == "" then "" else if IsSpace(s[0]) then TrimSpace(s[1..])
      else if IsSpace(s[|s| - 1]) then TrimSpace(s[..|s| - 1]) else s
  {
  }

  lemma {:induction false} IndexIs(s: string, c: char, k: nat)
    requires k <= |s| && c !in s[..k] && (k < |s| ==> s[k] == c)
    ensures Index(s, c) == if k < |s| then k else -1
  {
    if k > 0 {
      assert s[0] in s[..k] && s[..k][1..] == s[1..][..k - 1];
      IndexIs(s[1..], c, k - 1);
    }
  }

  lemma {:induction false} LastIndexIs(s: string, c: char, k: nat)
    requires k < |s| && s[k] == c && c !in s[k + 1..]
    ensures LastIndex(s, c) == k
  {
    if k < |s| - 1 {
      assert s[|s| - 1] in s[k + 1..];
      assert s[..|s| - 1][k + 1..] == s[k + 1..][..|s| - k - 2];
      LastIndexIs(s[..|s| - 1], c, k);
    }
  }

  /** Trimming drops nothing but spaces. */
  lemma {:induction false} TrimDropsSpaces(s: string, c: char)
    requires c in s
    ensures IsSpace(c) || c in TrimSpace(s)
  {
    if IsSpace(s[0]) {
      assert s == [s[0]] + s[1..];
      if c != s[0] { TrimDropsSpaces(s[1..], c); }
    } else if IsSpace(s[|s| - 1]) {
      assert s == s[..|s| - 1] + [s[|s| - 1]];
      if c != s[|s| - 1] { TrimDropsSpaces(s[..|s| - 1], c); }
    }
  }

  /** A single space around text without one at its ends goes. */
  lemma TrimPadding(s: string)
    requires TrimSpace(s) == s
    ensures TrimSpace(s + " ") == s && TrimSpace(" " + s) == s
  {
    assert (s + " ")[..|s|] == s && (" " + s)[1..] == s;
    if s == "" {
      assert s + " " == " ";
    }
  }

  /** Text that neither starts nor ends with a space is left alone. */
  lemma TrimNothing(s: string)
    requires s != "" ==> !IsSpace(s[0]) && !IsSpace(s[|s| - 1])
    ensures TrimSpace(s) == s
  {
  }
}
