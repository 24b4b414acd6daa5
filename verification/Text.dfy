/** The few string operations rules are written in. */
module Text {

  predicate IsSpace(c: char) {
    c in {' ', '\t', '\n', '\r', '\U{000B}', '\U{000C}'}
  }

  function TrimLeft(s: string): string {
    if s != "" && IsSpace(s[0]) then TrimLeft(s[1..]) else s
  }

  function TrimRight(s: string): string {
    if s != "" && IsSpace(s[|s| - 1]) then TrimRight(s[..|s| - 1]) else s
  }

  function Strip(s: string): string {
    TrimRight(TrimLeft(s))
  }

  /** Case folding works character by character, and folds no character away. */
  function CaseFold(fold: char -> string, s: string): string {
    if s == "" then "" else fold(s[0]) + CaseFold(fold, s[1..])
  }

  ghost predicate Folds(fold: char -> string) {
    forall c :: fold(c) != ""
  }

  function UpperChar(c: char): char {
    if 'a' <= c <= 'z' then c - 'a' + 'A' else c
  }

  function Upper(s: string): string {
    seq(|s|, i requires 0 <= i < |s| => UpperChar(s[i]))
  }

  predicate StartsWith(s: string, prefix: string) {
    |prefix| <= |s| && s[..|prefix|] == prefix
  }

  predicate EndsWith(s: string, suffix: string) {
    |suffix| <= |s| && s[|s| - |suffix|..] == suffix
  }

  predicate Contains(s: string, part: string) {
    exists i {:trigger s[i..]} :: 0 <= i <= |s| && StartsWith(s[i..], part)
  }

  /** Text in the order Python sorts it: by the first character that differs. */
  predicate TextLeq(a: string, b: string) {
    a == "" || (b != "" && (a[0] < b[0] || (a[0] == b[0] && TextLeq(a[1..], b[1..]))))
  }

  lemma {:induction false} TextLeqTotal(a: string, b: string)
    ensures TextLeq(a, b) || TextLeq(b, a)
  {
    if a != "" && b != "" {
      TextLeqTotal(a[1..], b[1..]);
    }
  }

  lemma {:induction false} TextLeqTransitive(a: string, b: string, c: string)
    requires TextLeq(a, b) && TextLeq(b, c)
    ensures TextLeq(a, c)
  {
    if a != "" && a[0] == b[0] == c[0] {
      TextLeqTransitive(a[1..], b[1..], c[1..]);
    }
  }

  lemma {:induction false} TextLeqAntisymmetric(a: string, b: string)
    requires TextLeq(a, b) && TextLeq(b, a)
    ensures a == b
  {
    if a != "" {
      TextLeqAntisymmetric(a[1..], b[1..]);
      assert a == [a[0]] + a[1..] && b == [b[0]] + b[1..];
    }
  }

  /** This text of the set comes before all the others. */
  predicate First(k: string, s: set<string>) {
    k in s && forall j :: j in s ==> TextLeq(k, j)
  }

  lemma {:induction false} FirstExists(s: set<string>)
    requires s != {}
    ensures exists k :: First(k, s)
    decreases |s|
  {
    hide First;
    var x :| x in s;
    if s == {x} {
      OnlyIsFirst(x);
    } else {
      FirstExists(s - {x});
      var k :| First(k, s - {x});
      FirstOfMore(s, x, k);
    }
  }

  lemma OnlyIsFirst(x: string)
    ensures First(x, {x})
  {
    TextLeqTotal(x, x);
  }

  lemma FirstOfMore(s: set<string>, x: string, k: string)
    requires x in s && First(k, s - {x})
    ensures First(x, s) || First(k, s)
  {
    hide TextLeq;
    TextLeqTotal(x, x);
    TextLeqTotal(x, k);
    if TextLeq(x, k) {
      forall j | j in s - {x}
        ensures TextLeq(x, j)
      {
        TextLeqTransitive(x, k, j);
      }
    }
  }

  lemma StartsExactlyWhen(s: string, prefix: string)
    ensures StartsWith(s, prefix) <==> exists after :: s == prefix + after
  {
    if StartsWith(s, prefix) {
      assert s == prefix + s[|prefix|..];
    }
  }

  lemma EndsExactlyWhen(s: string, suffix: string)
    ensures EndsWith(s, suffix) <==> exists before :: s == before + suffix
  {
    if EndsWith(s, suffix) {
      assert s == s[..|s| - |suffix|] + suffix;
    }
  }

  lemma ContainsExactlyWhen(s: string, part: string)
    ensures Contains(s, part) <==> exists before, after {:trigger before + part + after} :: s == before + part + after
  {
    if i :| 0 <= i <= |s| && StartsWith(s[i..], part) {
      assert s == s[..i] + part + s[i..][|part|..];
    }
    if before, after :| s == before + part + after {
      assert s[|before|..] == part + after;
      assert StartsWith(s[|before|..], part);
    }
  }

  lemma Associates(x: string, y: string, z: string)
    ensures x + (y + z) == (x + y) + z
  {
  }

  lemma {:induction false} CaseFoldSplits(fold: char -> string, a: string, b: string)
    ensures CaseFold(fold, a + b) == CaseFold(fold, a) + CaseFold(fold, b)
  {
    if a == "" {
      assert a + b == b;
    } else {
      CaseFoldSplits(fold, a[1..], b);
      assert (a + b)[1..] == a[1..] + b;
      Associates(fold(a[0]), CaseFold(fold, a[1..]), CaseFold(fold, b));
    }
  }

  lemma CaseFoldEmpty(fold: char -> string, s: string)
    requires Folds(fold)
    ensures CaseFold(fold, s) == "" <==> s == ""
  {
  }

  lemma {:induction false} TrimLeftIsSuffix(s: string)
    ensures exists k {:trigger s[k..]} :: 0 <= k <= |s| && TrimLeft(s) == s[k..] && (k > 0 ==> IsSpace(s[0]))
  {
    if s != "" && IsSpace(s[0]) {
      TrimLeftIsSuffix(s[1..]);
      var k :| 0 <= k <= |s[1..]| && TrimLeft(s[1..]) == s[1..][k..];
      assert s[1..][k..] == s[k + 1..];
    } else {
      assert s[0..] == s;
    }
  }

  lemma {:induction false} TrimRightIsPrefix(s: string)
    ensures exists k {:trigger s[..k]} :: 0 <= k <= |s| && TrimRight(s) == s[..k]
  {
    if s != "" && IsSpace(s[|s| - 1]) {
      var t := s[..|s| - 1];
      TrimRightIsPrefix(t);
      var k :| 0 <= k <= |t| && TrimRight(t) == t[..k];
      assert t[..k] == s[..k];
    } else {
      assert s[..|s|] == s;
    }
  }

  lemma CutMiddle(s: string, k: nat, m: nat)
    requires k <= |s| && m <= |s| - k
    ensures s == s[..k] + s[k..][..m] + s[k + m..]
  {
  }

  lemma StripCuts(s: string)
    ensures exists k, m {:trigger s[k..][..m]} ::
              0 <= k <= |s| && 0 <= m <= |s| - k && Strip(s) == s[k..][..m] && (k > 0 ==> IsSpace(s[0]))
  {
    TrimLeftIsSuffix(s);
    TrimRightIsPrefix(TrimLeft(s));
    hide TrimLeft, TrimRight, IsSpace;
  }

  /** Stripping takes a stretch out of the middle. */
  lemma StripIsInside(s: string)
    ensures exists before, after {:trigger before + Strip(s) + after} :: s == before + Strip(s) + after
    ensures s != "" && !IsSpace(s[0]) ==> StartsWith(s, Strip(s))
  {
    StripCuts(s);
    hide Strip, IsSpace;
    var k, m :| 0 <= k <= |s| && 0 <= m <= |s| - k && Strip(s) == s[k..][..m] && (k > 0 ==> IsSpace(s[0]));
    CutMiddle(s, k, m);
  }

  /** What stripping leaves has no space at either end, and what it takes off is space. */
  lemma StripExactly(s: string)
    ensures Strip(s) == "" || (!IsSpace(Strip(s)[0]) && !IsSpace(Strip(s)[|Strip(s)| - 1]))
    ensures exists before, after {:trigger before + Strip(s) + after} ::
              s == before + Strip(s) + after && AllSpace(before) && AllSpace(after)
  {
    TrimLeftExactly(s);
    TrimRightExactly(TrimLeft(s));
    var before :| s == before + TrimLeft(s) && AllSpace(before);
    var after :| TrimLeft(s) == Strip(s) + after && AllSpace(after);
    assert s == before + Strip(s) + after by {
      Associates(before, Strip(s), after);
    }
    if Strip(s) != "" {
      assert TrimLeft(s)[0] == Strip(s)[0];
    }
  }

  predicate AllSpace(s: string) {
    forall i :: 0 <= i < |s| ==> IsSpace(s[i])
  }

  lemma {:induction false} TrimLeftExactly(s: string)
    ensures TrimLeft(s) == "" || !IsSpace(TrimLeft(s)[0])
    ensures exists before :: s == before + TrimLeft(s) && AllSpace(before)
  {
    if s != "" && IsSpace(s[0]) {
      TrimLeftExactly(s[1..]);
      var before :| s[1..] == before + TrimLeft(s[1..]) && AllSpace(before);
      assert s == [s[0]] + before + TrimLeft(s);
      assert AllSpace([s[0]] + before);
    } else {
      assert s == "" + s && AllSpace("");
    }
  }

  lemma {:induction false} TrimRightExactly(s: string)
    ensures TrimRight(s) == "" || !IsSpace(TrimRight(s)[|TrimRight(s)| - 1])
    ensures exists after :: s == TrimRight(s) + after && AllSpace(after)
  {
    if s != "" && IsSpace(s[|s| - 1]) {
      var front := s[..|s| - 1];
      TrimRightExactly(front);
      var after :| front == TrimRight(front) + after && AllSpace(after);
      assert s == TrimRight(s) + (after + [s[|s| - 1]]);
      assert AllSpace(after + [s[|s| - 1]]);
    } else {
      assert s == s + "" && AllSpace("");
    }
  }

  /** Nothing is left exactly where there was nothing but space. */
  lemma StripsToNothingExactlyWhen(s: string)
    ensures Strip(s) == "" <==> AllSpace(s)
  {
    StripExactly(s);
    hide Strip, IsSpace;
    var before, after :| s == before + Strip(s) + after && AllSpace(before) && AllSpace(after);
    if Strip(s) != "" {
      assert s[|before|] == Strip(s)[0];
    }
    if Strip(s) == "" {
      assert s == before + after;
    }
  }
}
