// SQL's LIKE with the backslash escape, and the pattern the search box builds.
module LikePattern {
  import opened Text

  // s LIKE p. '%' matches any run, '_' any one character, a backslash makes
  // the next character literal (a pattern ending in one matches nothing here).
  predicate Like(s: string, p: string)
    decreases |p|, |s|
  {
    if p == "" then s == ""
    else if p[0] == '%' then Like(s, p[1..]) || (s != "" && Like(s[1..], p))
    else if p[0] == '_' then s != "" && Like(s[1..], p[1..])
    else if p[0] == '\\' then |p| > 1 && s != "" && s[0] == p[1] && Like(s[1..], p[2..])
    else s != "" && s[0] == p[0] && Like(s[1..], p[1..])
  }

  // text.replace(c, with) for a one-character c.
  function Replace(text: string, c: char, with: string): string {
    if text == "" then ""
    else (if text[0] == c then with else [text[0]]) + Replace(text[1..], c, with)
  }

  // manager/db.py likePattern: three replacements, one after the other.
  function Escaped(text: string): string {
    Replace(Replace(Replace(text, '\\', "\\\\"), '%', "\\%"), '_', "\\_")
  }

  function Pattern(text: string): string { "%" + Escaped(text) + "%" }

  predicate Special(c: char) { c == '\\' || c == '%' || c == '_' }

  // The independent reference: every special character, at once, gains a backslash.
  function EscapeEach(text: string): string {
    if text == "" then "" else EscapeOne(text[0]) + EscapeEach(text[1..])
  }

  function EscapeOne(c: char): string { if Special(c) then ['\\', c] else [c] }

  lemma {:induction false} ReplaceConcat(a: string, b: string, c: char, with: string)
    ensures Replace(a + b, c, with) == Replace(a, c, with) + Replace(b, c, with)
  {
    if a == "" {
      assert a + b == b;
    } else {
      assert (a + b)[1..] == a[1..] + b;
      ReplaceConcat(a[1..], b, c, with);
    }
  }

  // The order of the replacements is what makes this true: the backslashes
  // written by the last two are never escaped again.
  lemma {:induction false} SequentialIsSimultaneous(text: string)
    ensures Escaped(text) == EscapeEach(text)
  {
    if text != "" {
      SequentialIsSimultaneous(text[1..]);
      var c, rest := text[0], text[1..];
      var one := if c == '\\' then "\\\\" else [c];
      var r1 := Replace(rest, '\\', "\\\\");
      assert Replace(text, '\\', "\\\\") == one + r1;
      ReplaceConcat(one, r1, '%', "\\%");
      var two := Replace(one, '%', "\\%");
      assert two == if c == '%' then "\\%" else one by { ReplaceUnits(one); }
      ReplaceConcat(two, Replace(r1, '%', "\\%"), '_', "\\_");
      assert Replace(two, '_', "\\_") == if c == '_' then "\\_" else two by { ReplaceUnits(two); }
    }
  }

  lemma ReplaceUnits(one: string)
    requires 0 < |one| <= 2
    ensures forall c: char, with: string {:trigger Replace(one, c, with)} ::
              Replace(one, c, with) ==
              (if one[0] == c then with else [one[0]]) +
              (if |one| == 2 then (if one[1] == c then with else [one[1]]) else "")
  {
    forall c: char, with: string {:trigger Replace(one, c, with)}
      ensures Replace(one, c, with) ==
              (if one[0] == c then with else [one[0]]) +
              (if |one| == 2 then (if one[1] == c then with else [one[1]]) else "")
    {
      assert Replace(one[1..], c, with) ==
             if |one| == 2 then (if one[1] == c then with else [one[1]]) else "" by {
        if |one| == 2 {
          assert one[1..] == [one[1]] && one[1..][1..] == "";
          assert Replace(one[1..][1..], c, with) == "";
        }
      }
    }
  }

  // An escaped text followed by '%' matches exactly the strings it begins.
  lemma {:induction false} EscapedIsPrefix(s: string, q: string)
    ensures Like(s, EscapeEach(q) + "%") <==> q <= s
    decreases |q|
  {
    if q == "" {
      AnyMatches(s);
      assert EscapeEach(q) + "%" == "%";
    } else {
      EscapedStep(s, q[0], EscapeEach(q[1..]) + "%");
      assert EscapeEach(q) + "%" == EscapeOne(q[0]) + (EscapeEach(q[1..]) + "%");
      if s != "" {
        EscapedIsPrefix(s[1..], q[1..]);
        PrefixStep(q, s);
      }
    }
  }

  lemma EscapedStep(s: string, c: char, p: string)
    ensures Like(s, EscapeOne(c) + p) <==> s != "" && s[0] == c && Like(s[1..], p)
  {
    var e := EscapeOne(c) + p;
    if Special(c) {
      assert e == ['\\', c] + p && e[2..] == p;
    } else {
      assert e == [c] + p && e[1..] == p;
    }
  }

  lemma PrefixStep(q: string, s: string)
    requires q != "" && s != ""
    ensures q <= s <==> q[0] == s[0] && q[1..] <= s[1..]
  {
    assert q == [q[0]] + q[1..] && s == [s[0]] + s[1..];
  }

  lemma {:induction false} AnyMatches(s: string)
    ensures Like(s, "%")
  {
    if s != "" {
      AnyMatches(s[1..]);
    } else {
      assert Like("", "%"[1..]);
    }
  }

  // A pattern beginning with '%' matches when some suffix matches the rest.
  lemma {:induction false} LeadingPercent(s: string, p: string)
    requires p != "" && p[0] == '%'
    ensures Like(s, p) <==> exists i: nat :: i <= |s| && Like(s[i..], p[1..])
  {
    if Like(s, p[1..]) {
      assert s[0..] == s;
    } else if s == "" {
      assert forall i: nat :: i <= |s| ==> s[i..] == s;
    } else {
      LeadingPercent(s[1..], p);
      assert Like(s, p) <==> Like(s[1..], p);
      forall i: nat | i <= |s| - 1
        ensures s[1..][i..] == s[i + 1..]
      {
      }
      if exists i: nat :: i <= |s| && Like(s[i..], p[1..]) {
        var i: nat :| i <= |s| && Like(s[i..], p[1..]);
        assert i != 0 by { assert s[0..] == s; }
        assert Like(s[1..][i - 1..], p[1..]);
      }
      if exists i: nat :: i <= |s[1..]| && Like(s[1..][i..], p[1..]) {
        var i: nat :| i <= |s[1..]| && Like(s[1..][i..], p[1..]);
        assert Like(s[i + 1..], p[1..]);
      }
    }
  }

  // The pattern does not end inside an escape.
  predicate Closed(p: string) {
    p == "" || (if p[0] == '\\' then |p| > 1 && Closed(p[2..]) else Closed(p[1..]))
  }

  ghost predicate Begins(s: string, p: string) { exists j: nat :: j <= |s| && Like(s[..j], p) }

  // Some stretch of the string matches.
  ghost predicate Within(s: string, p: string) { exists i: nat :: i <= |s| && Begins(s[i..], p) }

  lemma BeginsWith(s: string, j: nat, p: string)
    requires j <= |s| && Like(s[..j], p)
    ensures Begins(s, p)
  {
  }

  // One step of a match, whatever follows in the pattern.
  lemma BeginsStep(s: string, p: string)
    requires p != "" && p[0] != '%' && Closed(p)
    ensures var n := if p[0] == '\\' then 2 else 1;
            Begins(s, p) <==> s != "" && (p[0] == '_' || s[0] == p[n - 1]) && Begins(s[1..], p[n..])
  {
    var n := if p[0] == '\\' then 2 else 1;
    if Begins(s, p) {
      var j: nat :| j <= |s| && Like(s[..j], p);
      assert s[..j][1..] == s[1..][..j - 1];
      BeginsWith(s[1..], j - 1, p[n..]);
    }
    if s != "" && (p[0] == '_' || s[0] == p[n - 1]) && Begins(s[1..], p[n..]) {
      var j: nat :| j <= |s[1..]| && Like(s[1..][..j], p[n..]);
      assert s[..j + 1][1..] == s[1..][..j];
      BeginsWith(s, j + 1, p);
    }
  }

  lemma BeginsAny(s: string, p: string)
    requires p != "" && p[0] == '%'
    ensures Begins(s, p) <==> Begins(s, p[1..]) || (s != "" && Begins(s[1..], p))
  {
    if Begins(s, p) && !Begins(s, p[1..]) {
      var j: nat :| j <= |s| && Like(s[..j], p);
      assert !Like(s[..j], p[1..]);
      assert s[..j][1..] == s[1..][..j - 1];
      BeginsWith(s[1..], j - 1, p);
    }
    if Begins(s, p[1..]) {
      var j: nat :| j <= |s| && Like(s[..j], p[1..]);
      BeginsWith(s, j, p);
    } else if s != "" && Begins(s[1..], p) {
      var j: nat :| j <= |s[1..]| && Like(s[1..][..j], p);
      assert s[..j + 1][1..] == s[1..][..j];
      BeginsWith(s, j + 1, p);
    }
  }

  // A closed pattern followed by '%' matches when some beginning matches it.
  lemma {:induction false} TrailingPercent(s: string, p: string)
    requires Closed(p)
    ensures Like(s, p + "%") <==> Begins(s, p)
    decreases |p|, |s|
  {
    if p == "" {
      AnyMatches(s);
      assert p + "%" == "%";
      BeginsWith(s, 0, p);
    } else if p[0] == '%' {
      assert (p + "%")[1..] == p[1..] + "%";
      BeginsAny(s, p);
      TrailingPercent(s, p[1..]);
      if s != "" {
        TrailingPercent(s[1..], p);
      }
    } else {
      var n := if p[0] == '\\' then 2 else 1;
      assert (p + "%")[n..] == p[n..] + "%";
      BeginsStep(s, p);
      if s != "" {
        TrailingPercent(s[1..], p[n..]);
      }
    }
  }

  // A closed pattern between two '%' matches when some stretch matches it.
  lemma AnywhereMeansWithin(s: string, p: string)
    requires Closed(p)
    ensures Like(s, "%" + p + "%") <==> Within(s, p)
  {
    var all := "%" + p + "%";
    assert all[1..] == p + "%";
    LeadingPercent(s, all);
    forall i: nat | i <= |s|
      ensures Like(s[i..], all[1..]) <==> Begins(s[i..], p)
    {
      TrailingPercent(s[i..], p);
    }
  }

  // An open one turns the last '%' into a character of the string.
  lemma {:induction false} OpenIsClosed(p: string)
    requires !Closed(p)
    ensures p != "" && p[|p| - 1] == '\\' && Closed(p[..|p| - 1])
    decreases |p|
  {
    var n := if p[0] == '\\' then 2 else 1;
    if |p| > 1 {
      OpenIsClosed(p[n..]);
      assert p[..|p| - 1][n..] == p[n..][..|p| - 1 - n];
    }
  }

  ghost predicate EndsInPercent(s: string, p: string) {
    s != "" && s[|s| - 1] == '%' && Like(s[..|s| - 1], p)
  }

  lemma {:induction false} TrailingEscape(s: string, p: string)
    requires Closed(p)
    ensures Like(s, p + "\\%") <==> EndsInPercent(s, p)
    decreases |p|, |s|
  {
    var all := p + "\\%";
    if p == "" {
      assert all == "\\%" && all[2..] == "";
    } else if p[0] == '%' {
      assert all[1..] == p[1..] + "\\%";
      TrailingEscape(s, p[1..]);
      if s != "" {
        TrailingEscape(s[1..], p);
        assert |s| > 1 ==> s[1..][..|s| - 2] == s[..|s| - 1][1..];
      }
    } else {
      var n := if p[0] == '\\' then 2 else 1;
      assert all[n..] == p[n..] + "\\%";
      if s != "" {
        TrailingEscape(s[1..], p[n..]);
        assert |s| > 1 ==> s[1..][..|s| - 2] == s[..|s| - 1][1..];
      }
    }
  }

  ghost predicate WithinToPercent(s: string, p: string) {
    exists i: nat :: i <= |s| && EndsInPercent(s[i..], p)
  }

  lemma OpenMeansAtTheEnd(s: string, p: string)
    requires !Closed(p)
    ensures Like(s, "%" + p + "%") <==> WithinToPercent(s, p[..|p| - 1])
  {
    OpenIsClosed(p);
    var q := p[..|p| - 1];
    assert ("%" + p + "%")[1..] == q + "\\%";
    ToPercent(s, "%" + p + "%", q);
  }

  lemma ToPercent(s: string, all: string, q: string)
    requires Closed(q) && all != "" && all[0] == '%' && all[1..] == q + "\\%"
    ensures Like(s, all) <==> WithinToPercent(s, q)
  {
    LeadingPercent(s, all);
    forall i: nat | i <= |s|
      ensures Like(s[i..], all[1..]) <==> EndsInPercent(s[i..], q)
    {
      TrailingEscape(s[i..], q);
    }
  }

  // What the search box promises: the pattern means "contains", whatever was typed.
  lemma {:induction false} PatternMeansContains(q: string, s: string)
    ensures Like(s, Pattern(q)) <==> Contains(s, q)
  {
    SequentialIsSimultaneous(q);
    var p := Pattern(q);
    assert p[1..] == EscapeEach(q) + "%";
    LeadingPercent(s, p);
    forall i: nat | i <= |s|
      ensures Like(s[i..], p[1..]) <==> OccursAt(s, q, i)
    {
      EscapedIsPrefix(s[i..], q);
      if i + |q| <= |s| {
        assert s[i..][..|q|] == s[i..i + |q|];
      }
    }
  }
}
