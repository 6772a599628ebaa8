/** Text helpers shared by the settings readers. */
module Texts {

  predicate Space(c: char) { c == ' ' || ('\t' <= c <= '\r') }

  /** Without leading and trailing white space. */
  function Trim(s: string): string {
    if s != "" && Space(s[0]) then Trim(s[1..])
    else if s != "" && Space(s[|s| - 1]) then Trim(s[..|s| - 1])
    else s
  }

  /** What is left of a text stands in it between spaces, tabs and line ends, and neither starts nor ends with
      one. */
  lemma {:induction false} TrimExactly(s: string)
    ensures var t := Trim(s);
      && (t != "" ==> t[0] as int !in {9, 10, 11, 12, 13, 32} && t[|t| - 1] as int !in {9, 10, 11, 12, 13, 32})
      && exists i :: 0 <= i <= |s| - |t| && TrimmedAt(s, i, t)
  {
    hide TrimmedAt;
    if s != "" && Space(s[0]) {
      TrimExactly(s[1..]);
      var i :| 0 <= i <= |s| - 1 - |Trim(s)| && TrimmedAt(s[1..], i, Trim(s));
      AfterSpace(s, i, Trim(s));
    } else if s != "" && Space(s[|s| - 1]) {
      TrimExactly(s[..|s| - 1]);
      var i :| 0 <= i <= |s| - 1 - |Trim(s)| && TrimmedAt(s[..|s| - 1], i, Trim(s));
      BeforeSpace(s, i, Trim(s));
    } else {
      Untrimmed(s);
    }
  }

  lemma AfterSpace(s: string, i: nat, t: string)
    requires s != "" && Space(s[0]) && i + |t| < |s| && TrimmedAt(s[1..], i, t)
    ensures TrimmedAt(s, i + 1, t)
  {
    assert s[1..][i..i + |t|] == s[i + 1..i + 1 + |t|];
    assert forall k :: 0 < k < |s| ==> s[k] == s[1..][k - 1];
  }

  lemma BeforeSpace(s: string, i: nat, t: string)
    requires s != "" && Space(s[|s| - 1]) && i + |t| < |s| && TrimmedAt(s[..|s| - 1], i, t)
    ensures TrimmedAt(s, i, t)
  {
    assert s[..|s| - 1][i..i + |t|] == s[i..i + |t|];
    assert forall k :: 0 <= k < |s| - 1 ==> s[k] == s[..|s| - 1][k];
  }

  lemma Untrimmed(s: string)
    ensures TrimmedAt(s, 0, s)
  {
    assert s[0..|s|] == s;
  }

  predicate TrimmedAt(s: string, i: nat, t: string)
    requires i + |t| <= |s|
  {
    && s[i..i + |t|] == t
    && forall k :: 0 <= k < |s| && !(i <= k < i + |t|) ==> s[k] as int in {9, 10, 11, 12, 13, 32}
  }
}
