/** LIKE with the backslash as its escape character, case folded for ASCII letters only. */
module LikePattern {

  /** The same letter, whatever its case, for the letters of ASCII; any other character only itself. */
  predicate SameLetter(a: char, b: char) {
    || a == b
    || ('A' <= a <= 'Z' && b as int == a as int + 32)
    || ('A' <= b <= 'Z' && a as int == b as int + 32)
  }

  /** v stands in t at i, letter by letter. */
  predicate StandsAt(t: string, i: int, v: string) {
    0 <= i <= |t| - |v| && forall k :: 0 <= k < |v| ==> SameLetter(t[i + k], v[k])
  }

  predicate Occurs(t: string, v: string) { exists i :: 0 <= i <= |t| && StandsAt(t, i, v) }

  function Fold(c: char): char {
    if 'A' <= c <= 'Z' then (c as int + 32) as char else c
  }

  predicate SameFold(a: string, b: string) {
    |a| == |b| && forall i :: 0 <= i < |a| ==> Fold(a[i]) == Fold(b[i])
  }

  predicate Special(c: char) { c == '\\' || c == '%' || c == '_' }

  function Escape(v: string): string {
    if v == "" then "" else Literal(v[0]) + Escape(v[1..])
  }

  predicate Matches(p: string, t: string)
    decreases |p| + |t|
  {
    if p == "" then t == ""
    else if p[0] == '%' then Matches(p[1..], t) || (t != "" && Matches(p, t[1..]))
    else if p[0] == '_' then t != "" && Matches(p[1..], t[1..])
    else if p[0] == '\\' then |p| > 1 && t != "" && Fold(p[1]) == Fold(t[0]) && Matches(p[2..], t[1..])
    else t != "" && Fold(p[0]) == Fold(t[0]) && Matches(p[1..], t[1..])
  }

  predicate Contains(t: string, v: string) {
    exists i :: 0 <= i <= |t| && StartsWith(t[i..], v)
  }

  predicate StartsWith(t: string, v: string) {
    |v| <= |t| && SameFold(t[..|v|], v)
  }

  lemma SameFoldExactly(a: string, b: string)
    ensures SameFold(a, b) <==> |a| == |b| && StandsAt(a, 0, b)
  {
    forall k | 0 <= k < |b| == |a| ensures Fold(a[k]) == Fold(b[k]) <==> SameLetter(a[0 + k], b[k]) {}
  }

  lemma StartsExactly(t: string, v: string)
    ensures StartsWith(t, v) <==> |v| <= |t| && forall k :: 0 <= k < |v| ==> SameLetter(t[k], v[k])
  {
    forall k | 0 <= k < |v| <= |t| ensures Fold(t[..|v|][k]) == Fold(v[k]) <==> SameLetter(t[k], v[k]) {}
  }

  lemma ContainsOccurs(t: string, v: string)
    ensures Contains(t, v) <==> Occurs(t, v)
  {
    hide StartsWith, SameLetter;
    forall i | 0 <= i <= |t| ensures StartsWith(t[i..], v) <==> StandsAt(t, i, v) { StartsExactly(t[i..], v); }
  }

  lemma {:induction false} StartsStep(t: string, v: string)
    requires v != ""
    ensures StartsWith(t, v) <==> t != "" && Fold(t[0]) == Fold(v[0]) && StartsWith(t[1..], v[1..])
  {
    if t != "" && |v| <= |t| {
      var a, b := t[1..][..|v| - 1], v[1..];
      assert forall i :: 0 <= i < |v| - 1 ==> a[i] == t[i + 1] && b[i] == v[i + 1];
      if Fold(t[0]) == Fold(v[0]) && SameFold(a, b) {
        forall i | 0 <= i < |v| ensures Fold(t[..|v|][i]) == Fold(v[i]) {
          if i > 0 { assert Fold(a[i - 1]) == Fold(b[i - 1]); }
        }
      }
      if SameFold(t[..|v|], v) {
        assert Fold(t[..|v|][0]) == Fold(v[0]);
        forall i | 0 <= i < |v| - 1 ensures Fold(a[i]) == Fold(b[i]) {
          assert Fold(t[..|v|][i + 1]) == Fold(v[i + 1]);
        }
      }
    }
  }

  function Literal(c: char): string { if Special(c) then ['\\', c] else [c] }

  lemma LiteralHead(c: char, q: string, t: string)
    ensures Matches(Literal(c) + q, t) <==> t != "" && Fold(c) == Fold(t[0]) && Matches(q, t[1..])
  {
    var p := Literal(c) + q;
    if Special(c) {
      assert p[2..] == q;
    } else {
      assert p[1..] == q;
    }
  }

  /** Escaped text at the head of a pattern stands for itself. */
  lemma {:induction false} EscapedIsLiteral(v: string, rest: string, t: string)
    ensures Matches(Escape(v) + rest, t) <==> StartsWith(t, v) && Matches(rest, t[|v|..])
  {
    if v == "" {
      assert Escape(v) + rest == rest;
    } else {
      var q := Escape(v[1..]) + rest;
      assert Escape(v) + rest == Literal(v[0]) + q;
      LiteralHead(v[0], q, t);
      StartsStep(t, v);
      if t != "" {
        EscapedIsLiteral(v[1..], rest, t[1..]);
        hide Matches, StartsWith, Escape;
        if |v| <= |t| { assert t[1..][|v| - 1..] == t[|v|..]; }
      }
    }
  }

  lemma {:induction false} TrailingPercent(t: string)
    ensures Matches("%", t)
  {
    if t == "" { assert Matches("", t); } else { TrailingPercent(t[1..]); }
  }

  lemma {:induction false} LeadingPercent(q: string, t: string)
    ensures Matches("%" + q, t) <==> exists i :: 0 <= i <= |t| && Matches(q, t[i..])
    decreases |t|
  {
    var p := "%" + q;
    assert p[1..] == q;
    assert t[0..] == t;
    if t != "" {
      LeadingPercent(q, t[1..]);
      if exists i :: 0 <= i <= |t| - 1 && Matches(q, t[1..][i..]) {
        var i :| 0 <= i <= |t| - 1 && Matches(q, t[1..][i..]);
        assert t[1..][i..] == t[i + 1..];
      }
      forall i | 0 < i <= |t| && Matches(q, t[i..]) ensures Matches(q, t[1..][i - 1..]) {
        assert t[1..][i - 1..] == t[i..];
      }
    }
  }

  /** The pattern built from user text matches exactly the texts that contain it, letter by letter and with
      every special character of it taken as itself. */
  lemma ContainsExactly(v: string, t: string)
    ensures Matches("%" + Escape(v) + "%", t) <==> Contains(t, v)
    ensures Matches("%" + Escape(v) + "%", t) <==> Occurs(t, v)
  {
    ContainsOccurs(t, v);
    var q := Escape(v) + "%";
    assert "%" + Escape(v) + "%" == "%" + q;
    LeadingPercent(q, t);
    forall i | 0 <= i <= |t| ensures Matches(q, t[i..]) <==> StartsWith(t[i..], v) {
      EscapedIsLiteral(v, "%", t[i..]);
      if |v| <= |t[i..]| { TrailingPercent(t[i..][|v|..]); }
    }
  }
}
