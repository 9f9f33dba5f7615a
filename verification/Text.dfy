/** The string operations of Go's `strings` package that the operator uses. */
module Text {

  /** Replaces every occurrence of the character `c` by `repl`. */
  function ReplaceAll(s: string, c: char, repl: string): string {
    if s == "" then ""
    else (if s[0] == c then repl else [s[0]]) + ReplaceAll(s[1..], c, repl)
  }

  /** The part of `s` before the first `sep`, or all of `s`. */
  function Before(s: string, sep: char): string {
    if s == "" || s[0] == sep then "" else [s[0]] + Before(s[1..], sep)
  }

  predicate HasPrefix(s: string, prefix: string) {
    prefix <= s
  }

  function TrimPrefix(s: string, prefix: string): string {
    if HasPrefix(s, prefix) then s[|prefix|..] else s
  }

  function TrimSuffix(s: string, suffix: string): string {
    if |suffix| <= |s| && s[|s| - |suffix|..] == suffix then s[..|s| - |suffix|] else s
  }

  ghost predicate OccursAt(s: string, sub: string, i: int) {
    0 <= i && i + |sub| <= |s| && s[i..i + |sub|] == sub
  }

  /** The first position at which `sub` occurs in `s`, or -1. */
  function Index(s: string, sub: string): (i: int)
    ensures i == -1 || OccursAt(s, sub, i)
    ensures forall j | 0 <= j && (i == -1 || j < i) :: !OccursAt(s, sub, j)
    decreases |s|
  {
    if sub <= s then
      assert s[0..|sub|] == sub;
      0
    else if s == "" then -1
    else
      var rest := Index(s[1..], sub);
      assert forall j | 0 < j :: OccursAt(s, sub, j) == OccursAt(s[1..], sub, j - 1);
      assert !OccursAt(s, sub, 0);
      if rest == -1 then -1 else rest + 1
  }

  lemma OccurrenceContains(s: string, sub: string, i: int, k: nat)
    requires OccursAt(s, sub, i) && k < |sub|
    ensures s[i + k] == sub[k]
  {
    assert s[i..i + |sub|][k] == sub[k];
  }

  /** A marker whose first character does not occur before it is found where it stands. */
  lemma IndexAfterText(text: string, marker: string, tail: string)
    requires marker != "" && marker[0] !in text
    ensures Index(text + (marker + tail), marker) == |text|
  {
    var s := text + (marker + tail);
    assert s[|text|..|text| + |marker|] == marker;
    assert OccursAt(s, marker, |text|);
    assert Index(s, marker) >= |text|;
  }

  lemma IndexAbsent(s: string, marker: string, k: nat)
    requires k < |marker| && marker[k] !in s
    ensures Index(s, marker) == -1
  {
    var i := Index(s, marker);
    if i != -1 {
      OccurrenceContains(s, marker, i, k);
    }
  }

  lemma {:induction false} ReplaceAllConcat(s: string, t: string, c: char, repl: string)
    ensures ReplaceAll(s + t, c, repl) == ReplaceAll(s, c, repl) + ReplaceAll(t, c, repl)
  {
    if s == "" {
      assert s + t == t;
    } else {
      assert (s + t)[1..] == s[1..] + t;
      ReplaceAllConcat(s[1..], t, c, repl);
    }
  }

  lemma {:induction false} ReplaceAllAbsent(s: string, c: char, repl: string)
    requires c !in s
    ensures ReplaceAll(s, c, repl) == s
  {
    if s != "" {
      ReplaceAllAbsent(s[1..], c, repl);
    }
  }

  /** Deleting a character removes it and adds none. */
  lemma {:induction false} ReplaceAllDeletes(s: string, c: char)
    ensures c !in ReplaceAll(s, c, "")
    ensures forall x | x in ReplaceAll(s, c, "") :: x in s
  {
    if s != "" {
      ReplaceAllDeletes(s[1..], c);
    }
  }

  lemma {:induction false} BeforeSeparator(s: string, t: string, sep: char)
    requires sep !in s
    ensures Before(s + [sep] + t, sep) == s
  {
    if s == "" {
      assert s + [sep] + t == [sep] + t;
    } else {
      assert (s + [sep] + t)[1..] == s[1..] + [sep] + t;
      BeforeSeparator(s[1..], t, sep);
    }
  }

  /** Two strings split at their first separator are equal only if both halves are. */
  lemma SplitUnique(a: string, b: string, c: string, d: string, sep: char)
    requires sep !in a && sep !in c
    requires a + [sep] + b == c + [sep] + d
    ensures a == c && b == d
  {
    BeforeSeparator(a, b, sep);
    BeforeSeparator(c, d, sep);
    var whole := a + [sep] + b;
    assert whole[|a| + 1..] == b;
    assert (c + [sep] + d)[|c| + 1..] == d;
  }
}
