/**
 Turning one subject into a pattern: its fixed words, with each run of digits captured.
 `digit` is whatever the engine's `\d` accepts.
 */
module Patterns {
  import opened Common
  import opened Sorting
  import opened Text

  const MINIMUM_LITERAL := 4
  const MAXIMUM_SUBJECT := 300
  const MAXIMUM_VALUE := 500

  /** A generated pattern between `^` and `$`: escaped text, and named runs of `\d+`. */
  datatype Piece = Lit(text: string) | Run(index: nat)

  // ---------------------------------------------------------------- runs and gaps

  predicate NoDigits(digit: char -> bool, s: string) {
    forall i :: 0 <= i < |s| ==> !digit(s[i])
  }

  predicate AllDigits(digit: char -> bool, s: string) {
    forall i :: 0 <= i < |s| ==> digit(s[i])
  }

  function TextSpan(digit: char -> bool, s: string): (n: nat)
    ensures n <= |s|
  {
    if s == "" || digit(s[0]) then 0 else 1 + TextSpan(digit, s[1..])
  }

  function DigitSpan(digit: char -> bool, s: string): (n: nat)
    ensures n <= |s|
  {
    if s == "" || !digit(s[0]) then 0 else 1 + DigitSpan(digit, s[1..])
  }

  lemma {:induction false} TextSpanStops(digit: char -> bool, s: string)
    ensures var n := TextSpan(digit, s);
            NoDigits(digit, s[..n]) && (n < |s| ==> digit(s[n]))
  {
    if s != "" && !digit(s[0]) {
      TextSpanStops(digit, s[1..]);
      var n := TextSpan(digit, s[1..]);
      assert s[..n + 1] == [s[0]] + s[1..][..n];
    }
  }

  lemma {:induction false} DigitSpanStops(digit: char -> bool, s: string)
    ensures var n := DigitSpan(digit, s);
            AllDigits(digit, s[..n]) && (n < |s| ==> !digit(s[n]))
  {
    if s != "" && digit(s[0]) {
      DigitSpanStops(digit, s[1..]);
      var n := DigitSpan(digit, s[1..]);
      assert s[..n + 1] == [s[0]] + s[1..][..n];
    }
  }

  /** Where the first run of digits ends. */
  function RunEnd(digit: char -> bool, s: string): (n: nat)
    requires TextSpan(digit, s) < |s|
    ensures TextSpan(digit, s) < n <= |s|
  {
    var t := TextSpan(digit, s);
    TextSpanStops(digit, s);
    assert s[t..][0] == s[t];
    t + DigitSpan(digit, s[t..])
  }

  lemma SliceAt(digit: char -> bool, s: string, t: nat, k: nat)
    requires t + k <= |s| && AllDigits(digit, s[t..][..k])
    requires k < |s[t..]| ==> !digit(s[t..][k])
    ensures AllDigits(digit, s[t..t + k]) && (t + k < |s| ==> !digit(s[t + k]))
  {
    assert s[t..][..k] == s[t..t + k];
    hide AllDigits;
  }

  /** What follows the first run is empty or begins with something else. */
  lemma RunEnds(digit: char -> bool, s: string)
    requires TextSpan(digit, s) < |s|
    ensures NoDigits(digit, s[..TextSpan(digit, s)])
    ensures AllDigits(digit, s[TextSpan(digit, s)..RunEnd(digit, s)])
    ensures RunEnd(digit, s) < |s| ==> !digit(s[RunEnd(digit, s)])
  {
    hide TextSpan, DigitSpan, NoDigits, AllDigits;
    var t := TextSpan(digit, s);
    TextSpanStops(digit, s);
    DigitSpanStops(digit, s[t..]);
    SliceAt(digit, s, t, DigitSpan(digit, s[t..]));
  }

  lemma {:induction false} TextSpanIs(digit: char -> bool, text: string, rest: string)
    requires NoDigits(digit, text) && (rest != "" ==> digit(rest[0]))
    ensures TextSpan(digit, text + rest) == |text|
  {
    if text == "" {
      assert text + rest == rest;
    } else {
      TextSpanIs(digit, text[1..], rest);
      assert (text + rest)[1..] == text[1..] + rest;
    }
  }

  lemma {:induction false} DigitSpanIs(digit: char -> bool, run: string, rest: string)
    requires AllDigits(digit, run) && (rest != "" ==> !digit(rest[0]))
    ensures DigitSpan(digit, run + rest) == |run|
  {
    if run == "" {
      assert run + rest == rest;
    } else {
      DigitSpanIs(digit, run[1..], rest);
      assert (run + rest)[1..] == run[1..] + rest;
    }
  }

  /** The stretches with no digits, as `DIGITS.split` gives them. */
  function Gaps(digit: char -> bool, s: string): (gaps: seq<string>)
    ensures gaps != []
    decreases |s|
  {
    var t := TextSpan(digit, s);
    if t == |s| then [s] else [s[..t]] + Gaps(digit, s[RunEnd(digit, s)..])
  }

  /** The maximal runs of digits, as `DIGITS.finditer` finds them. */
  function Runs(digit: char -> bool, s: string): seq<string>
    decreases |s|
  {
    var t := TextSpan(digit, s);
    if t == |s| then []
    else [s[t..RunEnd(digit, s)]] + Runs(digit, s[RunEnd(digit, s)..])
  }

  function Pieces(digit: char -> bool, s: string, index: nat): seq<Piece>
    decreases |s|
  {
    var t := TextSpan(digit, s);
    if t == |s| then [Lit(s)]
    else [Lit(s[..t]), Run(index)] + Pieces(digit, s[RunEnd(digit, s)..], index + 1)
  }

  function NumbersAsCaptures(digit: char -> bool, s: string): Option<seq<Piece>> {
    if Runs(digit, s) == [] then None else Some(Pieces(digit, s, 1))
  }

  // ---------------------------------------------------------------- the generator, as it runs

  function FindRuns(digit: char -> bool, s: string, from: nat): seq<(nat, nat)>
    requires from <= |s|
    decreases |s| - from
  {
    var rest := s[from..];
    var t := TextSpan(digit, rest);
    if t == |rest| then []
    else [(from + t, from + RunEnd(digit, rest))] + FindRuns(digit, s, from + RunEnd(digit, rest))
  }

  lemma PiecesStep(digit: char -> bool, s: string, index: nat)
    requires TextSpan(digit, s) < |s|
    ensures Pieces(digit, s, index)
            == [Lit(s[..TextSpan(digit, s)]), Run(index)] + Pieces(digit, s[RunEnd(digit, s)..], index + 1)
  {
    hide TextSpan, RunEnd;
  }

  lemma FindRunsStep(digit: char -> bool, s: string, from: nat)
    requires from <= |s| && TextSpan(digit, s[from..]) < |s| - from
    ensures var rest := s[from..];
            FindRuns(digit, s, from)
            == [(from + TextSpan(digit, rest), from + RunEnd(digit, rest))]
               + FindRuns(digit, s, from + RunEnd(digit, rest))
  {
    hide TextSpan, RunEnd;
  }

  lemma FindRunsNonEmpty(digit: char -> bool, s: string, from: nat)
    requires from <= |s| && FindRuns(digit, s, from) != []
    ensures TextSpan(digit, s[from..]) < |s| - from
  {
  }

  /** What one turn of the generator's loop takes off the front of the rest. */
  lemma NextRun(digit: char -> bool, s: string, from: nat, index: nat)
    requires from <= |s| && FindRuns(digit, s, from) != []
    ensures var runs := FindRuns(digit, s, from);
            && from <= runs[0].0 <= runs[0].1 <= |s|
            && runs[1..] == FindRuns(digit, s, runs[0].1)
            && Pieces(digit, s[from..], index)
               == [Lit(s[from..runs[0].0]), Run(index)] + Pieces(digit, s[runs[0].1..], index + 1)
  {
    hide *;
    var rest := s[from..];
    FindRunsNonEmpty(digit, s, from);
    FindRunsStep(digit, s, from);
    PiecesStep(digit, rest, index);
    var t, e := TextSpan(digit, rest), RunEnd(digit, rest);
    assert rest[..t] == s[from..from + t];
    assert rest[e..] == s[from + e..];
  }

  lemma NoRunLeft(digit: char -> bool, s: string, from: nat, index: nat)
    requires from <= |s| && FindRuns(digit, s, from) == []
    ensures Pieces(digit, s[from..], index) == [Lit(s[from..])]
  {
  }

  lemma FirstRun(digit: char -> bool, s: string)
    ensures NumbersAsCaptures(digit, s)
            == if FindRuns(digit, s, 0) == [] then None else Some(Pieces(digit, s[0..], 1))
  {
    assert s[0..] == s;
    hide Pieces, RunEnd;
  }

  method GeneratePattern(digit: char -> bool, subject: string) returns (pattern: Option<seq<Piece>>)
    ensures pattern == NumbersAsCaptures(digit, subject)
  {
    hide *;
    var runs := FindRuns(digit, subject, 0);
    FirstRun(digit, subject);
    if runs == [] {
      return None;
    }
    var pieces: seq<Piece>, cursor := [], 0;
    for index := 0 to |runs|
      invariant cursor <= |subject|
      invariant runs[index..] == FindRuns(digit, subject, cursor)
      invariant pieces + Pieces(digit, subject[cursor..], index + 1) == Pieces(digit, subject[0..], 1)
    {
      NextRun(digit, subject, cursor, index + 1);
      assert runs[index] == runs[index..][0] && runs[index + 1..] == runs[index..][1..];
      var (start, end) := runs[index];
      pieces := pieces + [Lit(subject[cursor..start])];
      pieces := pieces + [Run(index + 1)];
      cursor := end;
    }
    NoRunLeft(digit, subject, cursor, |runs| + 1);
    pieces := pieces + [Lit(subject[cursor..])];
    return Some(pieces);
  }

  // ---------------------------------------------------------------- what a pattern accepts

  /** The pieces consume exactly `w`, the runs taking `captured` in turn. */
  predicate Full(digit: char -> bool, ps: seq<Piece>, w: string, captured: seq<string>)
    decreases |ps|
  {
    if ps == [] then w == "" && captured == []
    else
      match ps[0]
      case Lit(text) => StartsWith(w, text) && Full(digit, ps[1..], w[|text|..], captured)
      case Run(_) =>
        && captured != [] && captured[0] != "" && AllDigits(digit, captured[0])
        && StartsWith(w, captured[0])
        && Full(digit, ps[1..], w[|captured[0]|..], captured[1..])
  }

  /** `^...$` under search: `$` also matches just before one closing newline. */
  predicate Found(digit: char -> bool, ps: seq<Piece>, w: string, captured: seq<string>) {
    || Full(digit, ps, w, captured)
    || (w != "" && w[|w| - 1] == '\n' && Full(digit, ps, w[..|w| - 1], captured))
  }

  lemma SpanOfJoin(digit: char -> bool, text: string, run: string, rest: string)
    requires NoDigits(digit, text) && run != "" && AllDigits(digit, run) && (rest != "" ==> !digit(rest[0]))
    ensures var w := text + run + rest;
            && TextSpan(digit, w) == |text| && |text| < |w| && RunEnd(digit, w) == |text| + |run|
            && w[..|text|] == text && w[|text|..|text| + |run|] == run && w[|text| + |run|..] == rest
  {
    var w := text + run + rest;
    assert w == text + (run + rest) && w[|text|..] == run + rest;
    TextSpanIs(digit, text, run + rest);
    DigitSpanIs(digit, run, rest);
  }

  /** A gap after a run is empty only at the very end. */
  lemma GapOfRest(digit: char -> bool, s: string)
    ensures (s == "" || !digit(s[0])) <==> (Gaps(digit, s)[0] != "" || Gaps(digit, s) == [""])
    ensures Gaps(digit, s) == [""] <==> s == ""
  {
  }

  lemma StartsJoined(w: string, text: string, run: string)
    requires StartsWith(w, text)
    ensures StartsWith(w[|text|..], run) <==> StartsWith(w, text + run)
    ensures |run| <= |w| - |text| ==> w[|text|..][|run|..] == w[|text| + |run|..]
  {
    var w1 := w[|text|..];
    assert w == text + w1;
    if |run| <= |w1| {
      assert (text + w1)[..|text| + |run|] == text + w1[..|run|];
    }
  }

  /** A gap, then a run, then the rest. */
  lemma FullStep(digit: char -> bool, s: string, index: nat, w: string, captured: seq<string>)
    requires TextSpan(digit, s) < |s|
    ensures var text := s[..TextSpan(digit, s)];
            Full(digit, Pieces(digit, s, index), w, captured) <==>
              && captured != [] && captured[0] != "" && AllDigits(digit, captured[0])
              && StartsWith(w, text + captured[0])
              && Full(digit, Pieces(digit, s[RunEnd(digit, s)..], index + 1), w[|text| + |captured[0]|..], captured[1..])
  {
    PiecesStep(digit, s, index);
    var ps := Pieces(digit, s, index);
    var text, later := s[..TextSpan(digit, s)], Pieces(digit, s[RunEnd(digit, s)..], index + 1);
    hide TextSpan, RunEnd, Pieces;
    assert ps[0] == Lit(text) && ps[1..] == [Run(index)] + later && ps[1..][1..] == later;
    if StartsWith(w, text) && captured != [] {
      var run, w1 := captured[0], w[|text|..];
      StartsJoined(w, text, run);
      assert Full(digit, ps, w, captured) <==> Full(digit, ps[1..], w1, captured);
    }
    if captured != [] && StartsWith(w, text + captured[0]) {
      assert w[..|text|] == (text + captured[0])[..|text|] == text;
    }
  }

  lemma GapsStep(digit: char -> bool, text: string, run: string, rest: string)
    requires NoDigits(digit, text) && run != "" && AllDigits(digit, run) && (rest != "" ==> !digit(rest[0]))
    ensures Gaps(digit, text + run + rest) == [text] + Gaps(digit, rest)
    ensures Runs(digit, text + run + rest) == [run] + Runs(digit, rest)
  {
    SpanOfJoin(digit, text, run, rest);
    hide TextSpan, RunEnd;
  }

  /** Another run of digits in place of the first, before a variant of the rest. */
  lemma JoinIsVariant(digit: char -> bool, s: string, run: string, rest: string)
    requires TextSpan(digit, s) < |s| && run != "" && AllDigits(digit, run)
    requires Gaps(digit, rest) == Gaps(digit, s[RunEnd(digit, s)..])
    ensures var w := s[..TextSpan(digit, s)] + run + rest;
            Gaps(digit, w) == Gaps(digit, s) && Runs(digit, w) == [run] + Runs(digit, rest)
  {
    var text, later := s[..TextSpan(digit, s)], s[RunEnd(digit, s)..];
    RunEnds(digit, s);
    assert Gaps(digit, s) == [text] + Gaps(digit, later);
    GapOfRest(digit, later);
    GapOfRest(digit, rest);
    hide *;
    GapsStep(digit, text, run, rest);
  }

  lemma {:induction false} AcceptsOnlyVariants(digit: char -> bool, s: string, index: nat, w: string, captured: seq<string>)
    requires Full(digit, Pieces(digit, s, index), w, captured)
    ensures Gaps(digit, w) == Gaps(digit, s) && captured == Runs(digit, w)
    decreases |s|
  {
    if TextSpan(digit, s) == |s| {
      NothingToCapture(digit, s, index, w, captured);
    } else {
      hide *;
      FullStep(digit, s, index, w, captured);
      var text, run := s[..TextSpan(digit, s)], captured[0];
      var rest := w[|text| + |run|..];
      AcceptsOnlyVariants(digit, s[RunEnd(digit, s)..], index + 1, rest, captured[1..]);
      JoinIsVariant(digit, s, run, rest);
      assert w == text + run + rest by {
        StartJoins(w, text + run);
      }
    }
  }

  lemma NothingToCapture(digit: char -> bool, s: string, index: nat, w: string, captured: seq<string>)
    requires TextSpan(digit, s) == |s| && Full(digit, Pieces(digit, s, index), w, captured)
    ensures Gaps(digit, w) == Gaps(digit, s) && captured == Runs(digit, w)
  {
    assert Pieces(digit, s, index)[1..] == [] && w[|s|..] == "" && w == s;
  }

  lemma StartJoins(w: string, front: string)
    requires StartsWith(w, front)
    ensures w == front + w[|front|..]
  {
  }

  lemma {:induction false} AcceptsEveryVariant(digit: char -> bool, s: string, index: nat, w: string)
    requires Gaps(digit, w) == Gaps(digit, s)
    ensures Full(digit, Pieces(digit, s, index), w, Runs(digit, w))
    decreases |s|
  {
    hide *;
    if TextSpan(digit, s) == |s| {
      OneGapVariant(digit, s, index, w);
    } else {
      VariantHasRun(digit, s, w);
      RunsStep(digit, w);
      RunEnds(digit, w);
      var t, e := TextSpan(digit, w), RunEnd(digit, w);
      AcceptsEveryVariant(digit, s[RunEnd(digit, s)..], index + 1, w[e..]);
      OneMoreRun(digit, s, index, w[t..e], w[e..], Runs(digit, w[e..]));
      assert w[..t] + w[t..e] + w[e..] == w;
    }
  }

  /** In front of what the later pieces consume, the first gap and any run of digits. */
  lemma OneMoreRun(digit: char -> bool, s: string, index: nat, run: string, rest: string, later: seq<string>)
    requires TextSpan(digit, s) < |s| && run != "" && AllDigits(digit, run)
    requires Full(digit, Pieces(digit, s[RunEnd(digit, s)..], index + 1), rest, later)
    ensures Full(digit, Pieces(digit, s, index), s[..TextSpan(digit, s)] + run + rest, [run] + later)
  {
    var text := s[..TextSpan(digit, s)];
    var w := text + run + rest;
    FullStep(digit, s, index, w, [run] + later);
    hide *;
    assert w[..|text + run|] == text + run && w[|text| + |run|..] == rest;
    assert StartsWith(w, text + run) by {
      StartsThere(w, |text|, |text| + |run|);
      assert w[..|text|] == text && w[|text|..|text| + |run|] == run;
    }
    assert ([run] + later)[1..] == later;
  }

  lemma StartsThere(w: string, t: nat, e: nat)
    requires t <= e <= |w|
    ensures StartsWith(w, w[..t] + w[t..e])
  {
    assert w[..t] + w[t..e] == w[..e];
  }

  lemma RunsStep(digit: char -> bool, s: string)
    requires TextSpan(digit, s) < |s|
    ensures Runs(digit, s) == [s[TextSpan(digit, s)..RunEnd(digit, s)]] + Runs(digit, s[RunEnd(digit, s)..])
  {
    hide TextSpan, RunEnd;
  }

  lemma OneGapVariant(digit: char -> bool, s: string, index: nat, w: string)
    requires Gaps(digit, w) == Gaps(digit, s) && TextSpan(digit, s) == |s|
    ensures Full(digit, Pieces(digit, s, index), w, Runs(digit, w))
  {
    assert |Gaps(digit, w)| == 1;
    assert TextSpan(digit, w) == |w| && w == s;
    assert Pieces(digit, s, index)[1..] == [] && w[|s|..] == "";
  }

  /**
   The generated pattern accepts exactly the strings with the same fixed words between their
   runs of digits, and what it captures is those runs, so there is one way to match at most.
   */
  lemma AcceptsExactlyVariants(digit: char -> bool, s: string, index: nat, w: string, captured: seq<string>)
    ensures Full(digit, Pieces(digit, s, index), w, captured) <==>
              Gaps(digit, w) == Gaps(digit, s) && captured == Runs(digit, w)
  {
    if Full(digit, Pieces(digit, s, index), w, captured) {
      AcceptsOnlyVariants(digit, s, index, w, captured);
    }
    if Gaps(digit, w) == Gaps(digit, s) {
      AcceptsEveryVariant(digit, s, index, w);
    }
  }

  lemma VariantHasRun(digit: char -> bool, s: string, w: string)
    requires Gaps(digit, w) == Gaps(digit, s) && TextSpan(digit, s) < |s|
    ensures TextSpan(digit, w) == TextSpan(digit, s) < |w|
    ensures Gaps(digit, w[RunEnd(digit, w)..]) == Gaps(digit, s[RunEnd(digit, s)..])
    ensures w[..TextSpan(digit, w)] == s[..TextSpan(digit, s)]
  {
    assert Gaps(digit, s) == [s[..TextSpan(digit, s)]] + Gaps(digit, s[RunEnd(digit, s)..]);
    assert |Gaps(digit, w)| > 1;
    hide TextSpan, RunEnd;
    assert Gaps(digit, w)[1..] == Gaps(digit, w[RunEnd(digit, w)..]);
    assert Gaps(digit, s)[1..] == Gaps(digit, s[RunEnd(digit, s)..]);
    assert Gaps(digit, w)[0] == w[..TextSpan(digit, w)];
  }

  /** Single-spaced text: no space at the front, and no space but the ordinary one. */
  ghost predicate Collapsed(s: string) {
    s != "" && !IsSpace(s[0]) && forall i :: 0 <= i < |s| && IsSpace(s[i]) ==> s[i] == ' '
  }

  /** What a search for the pattern of `s` finds, with the one newline `$` lets by. */
  lemma SearchExactlyWhen(digit: char -> bool, s: string, w: string, captured: seq<string>)
    requires !digit('\n')
    ensures Found(digit, Pieces(digit, s, 1), w, captured) <==>
              || (Gaps(digit, w) == Gaps(digit, s) && captured == Runs(digit, w))
              || (w != "" && w[|w| - 1] == '\n' && Gaps(digit, w[..|w| - 1]) == Gaps(digit, s)
                  && captured == Runs(digit, w[..|w| - 1]))
    ensures Found(digit, Pieces(digit, s, 1), s, Runs(digit, s))
  {
    AcceptsExactlyVariants(digit, s, 1, w, captured);
    AcceptsExactlyVariants(digit, s, 1, s, Runs(digit, s));
    if w != "" {
      AcceptsExactlyVariants(digit, s, 1, w[..|w| - 1], captured);
    }
  }

  // ---------------------------------------------------------------- the wider readings

  function FixedOpening(digit: char -> bool, s: string): Option<string> {
    var t := TextSpan(digit, s);
    if t == |s| then None
    else
      var opening := Strip(s[..t]);
      if |opening| >= MINIMUM_LITERAL then Some(opening) else None
  }

  /** The first of the longest, stripped. */
  function Longest(gaps: seq<string>): (r: string)
    requires gaps != []
    ensures exists g :: g in gaps && r == Strip(g)
  {
    if |gaps| == 1 then
      assert gaps[0] in gaps;
      Strip(gaps[0])
    else
      var rest, first := Longest(gaps[1..]), Strip(gaps[0]);
      assert gaps[0] in gaps && forall g :: g in gaps[1..] ==> g in gaps;
      if |first| >= |rest| then first else rest
  }

  function LongestFixedPhrase(digit: char -> bool, s: string): Option<string> {
    var longest := Longest(Gaps(digit, s));
    if |longest| >= MINIMUM_LITERAL then Some(longest) else None
  }

  ghost predicate Inside(g: string, s: string) {
    exists a, b {:trigger a + g + b} :: s == a + g + b
  }

  lemma InsideSuffix(g: string, s: string, from: nat)
    requires from <= |s| && Inside(g, s[from..])
    ensures Inside(g, s)
  {
    var a, b :| s[from..] == a + g + b;
    assert s == (s[..from] + a) + g + b;
  }

  lemma {:induction false} GapsAreInside(digit: char -> bool, s: string)
    ensures forall g :: g in Gaps(digit, s) ==> Inside(g, s)
    ensures StartsWith(s, Gaps(digit, s)[0])
    decreases |s|
  {
    var t := TextSpan(digit, s);
    if t == |s| {
      assert s == "" + s + "";
    } else {
      var e := RunEnd(digit, s);
      GapsAreInside(digit, s[e..]);
      assert s == "" + s[..t] + s[t..];
      forall g | g in Gaps(digit, s)
        ensures Inside(g, s)
      {
        assert g == s[..t] || g in Gaps(digit, s[e..]);
        if g in Gaps(digit, s[e..]) {
          InsideSuffix(g, s, e);
        }
      }
    }
  }

  lemma FoldStartsWith(fold: char -> string, s: string, prefix: string)
    requires StartsWith(s, prefix)
    ensures StartsWith(CaseFold(fold, s), CaseFold(fold, prefix))
  {
    assert s == prefix + s[|prefix|..];
    CaseFoldSplits(fold, prefix, s[|prefix|..]);
  }

  lemma FoldContains(fold: char -> string, a: string, part: string, b: string)
    ensures Contains(CaseFold(fold, a + part + b), CaseFold(fold, part))
  {
    CaseFoldSplits(fold, a + part, b);
    CaseFoldSplits(fold, a, part);
    var s, p := CaseFold(fold, a + part + b), CaseFold(fold, part);
    var i := |CaseFold(fold, a)|;
    assert s[i..] == p + CaseFold(fold, b);
    assert StartsWith(s[i..], p);
  }

  lemma OpeningOpens(digit: char -> bool, s: string, w: string)
    requires Collapsed(s) && Gaps(digit, w) == Gaps(digit, s) && FixedOpening(digit, s).Some?
    ensures StartsWith(w, FixedOpening(digit, s).value)
  {
    GapsAreInside(digit, w);
    var gap := s[..TextSpan(digit, s)];
    assert Gaps(digit, s)[0] == gap;
    assert gap != "" by {
      assert Strip("") == "";
    }
    StripIsInside(gap);
  }

  lemma StripInside(g: string, s: string)
    requires Inside(g, s)
    ensures Inside(Strip(g), s)
  {
    StripIsInside(g);
    hide Strip;
    var x, y :| g == x + Strip(g) + y;
    var a, b :| s == a + g + b;
    assert s == (a + x) + Strip(g) + (y + b);
  }

  lemma PhraseIsInside(digit: char -> bool, s: string, w: string)
    requires Gaps(digit, w) == Gaps(digit, s) && LongestFixedPhrase(digit, s).Some?
    ensures Inside(LongestFixedPhrase(digit, s).value, w)
  {
    GapsAreInside(digit, w);
    var phrase := LongestFixedPhrase(digit, s).value;
    assert phrase == Longest(Gaps(digit, s));
    hide *;
    var g :| g in Gaps(digit, s) && phrase == Strip(g);
    StripInside(g, w);
  }

  lemma FoldContainsInside(fold: char -> string, part: string, s: string, tail: string)
    requires Inside(part, s)
    ensures Contains(CaseFold(fold, s + tail), CaseFold(fold, part))
  {
    var a, b :| s == a + part + b;
    assert s + tail == a + part + (b + tail);
    FoldContains(fold, a, part, b + tail);
  }

  /** Every string with the same fixed words is caught by both wider readings, case aside. */
  lemma WiderReadingsCatchVariants(digit: char -> bool, fold: char -> string, s: string, w: string, tail: string)
    requires Collapsed(s) && Gaps(digit, w) == Gaps(digit, s)
    ensures FixedOpening(digit, s).Some? ==>
              StartsWith(CaseFold(fold, w + tail), CaseFold(fold, FixedOpening(digit, s).value))
    ensures LongestFixedPhrase(digit, s).Some? ==>
              Contains(CaseFold(fold, w + tail), CaseFold(fold, LongestFixedPhrase(digit, s).value))
  {
    var opening, phrase := FixedOpening(digit, s), LongestFixedPhrase(digit, s);
    if opening.Some? {
      OpeningOpens(digit, s, w);
    }
    if phrase.Some? {
      PhraseIsInside(digit, s, w);
      FoldContainsInside(fold, phrase.value, w, tail);
    }
    hide Gaps, FixedOpening, LongestFixedPhrase, Collapsed, CaseFold, Contains;
    if opening.Some? {
      assert StartsWith(w + tail, opening.value);
      FoldStartsWith(fold, w + tail, opening.value);
    }
  }

  /** So everything the pattern finds, both wider readings find. */
  lemma PatternIsNarrowest(digit: char -> bool, fold: char -> string, s: string, w: string, captured: seq<string>)
    requires Collapsed(s) && !digit('\n') && Found(digit, Pieces(digit, s, 1), w, captured)
    ensures FixedOpening(digit, s).Some? ==>
              StartsWith(CaseFold(fold, w), CaseFold(fold, FixedOpening(digit, s).value))
    ensures LongestFixedPhrase(digit, s).Some? ==>
              Contains(CaseFold(fold, w), CaseFold(fold, LongestFixedPhrase(digit, s).value))
  {
    SearchExactlyWhen(digit, s, w, captured);
    hide *;
    if Gaps(digit, w) == Gaps(digit, s) {
      assert w + "" == w;
      WiderReadingsCatchVariants(digit, fold, s, w, "");
    } else {
      var front := w[..|w| - 1];
      assert front + [w[|w| - 1]] == w;
      WiderReadingsCatchVariants(digit, fold, s, front, [w[|w| - 1]]);
    }
  }

  // ---------------------------------------------------------------- the pattern as text

  function Decimal(n: nat): (r: string)
    ensures r != ""
  {
    if n < 10 then ["0123456789"[n]] else Decimal(n / 10) + ["0123456789"[n % 10]]
  }

  function Escaped(special: char -> bool, s: string): string {
    if s == "" then ""
    else (if special(s[0]) then ['\\', s[0]] else [s[0]]) + Escaped(special, s[1..])
  }

  function Rendered(special: char -> bool, ps: seq<Piece>, runs: nat): string {
    if ps == [] then ""
    else
      (match ps[0]
       case Lit(text) => Escaped(special, text)
       case Run(i) => "(?P<" + (if runs == 1 then "number" else "number_" + Decimal(i)) + ">\\d+)")
      + Rendered(special, ps[1..], runs)
  }

  /** The value a condition would have to hold; `^` and `$` are its first and last characters. */
  function PatternText(digit: char -> bool, special: char -> bool, s: string): string {
    "^" + Rendered(special, Pieces(digit, s, 1), |Runs(digit, s)|) + "$"
  }

  /** What the fixed words take up once escaped. */
  function WordCost(digit: char -> bool, special: char -> bool, s: string): nat {
    if s == "" then 0
    else (if digit(s[0]) then 0 else if special(s[0]) then 2 else 1) + WordCost(digit, special, s[1..])
  }

  /** What this many captures take up, numbered from `index` where there is more than one. */
  function NameCost(index: nat, count: nat, runs: nat): nat
    decreases count
  {
    if count == 0 then 0
    else (if runs == 1 then 15 else 16 + |Decimal(index)|) + NameCost(index + 1, count - 1, runs)
  }

  lemma {:induction false} WordCostSplits(digit: char -> bool, special: char -> bool, a: string, b: string)
    ensures WordCost(digit, special, a + b) == WordCost(digit, special, a) + WordCost(digit, special, b)
  {
    if a == "" {
      assert a + b == b;
    } else {
      WordCostSplits(digit, special, a[1..], b);
      assert (a + b)[1..] == a[1..] + b;
    }
  }

  lemma {:induction false} DigitsCostNothing(digit: char -> bool, special: char -> bool, s: string)
    requires AllDigits(digit, s)
    ensures WordCost(digit, special, s) == 0
  {
    if s != "" {
      DigitsCostNothing(digit, special, s[1..]);
    }
  }

  lemma {:induction false} EscapedLength(digit: char -> bool, special: char -> bool, s: string)
    requires NoDigits(digit, s)
    ensures |Escaped(special, s)| == WordCost(digit, special, s)
  {
    if s != "" {
      EscapedLength(digit, special, s[1..]);
    }
  }

  lemma FirstGapCost(digit: char -> bool, special: char -> bool, s: string)
    requires TextSpan(digit, s) < |s|
    ensures WordCost(digit, special, s)
            == |Escaped(special, s[..TextSpan(digit, s)])| + WordCost(digit, special, s[RunEnd(digit, s)..])
  {
    RunEnds(digit, s);
    hide TextSpan, RunEnd, WordCost, Escaped;
    var t, e := TextSpan(digit, s), RunEnd(digit, s);
    assert s == s[..t] + (s[t..e] + s[e..]);
    WordCostSplits(digit, special, s[..t], s[t..e] + s[e..]);
    WordCostSplits(digit, special, s[t..e], s[e..]);
    DigitsCostNothing(digit, special, s[t..e]);
    EscapedLength(digit, special, s[..t]);
  }

  lemma RenderedStep(special: char -> bool, text: string, index: nat, later: seq<Piece>, runs: nat)
    ensures |Rendered(special, [Lit(text), Run(index)] + later, runs)|
            == |Escaped(special, text)| + (if runs == 1 then 15 else 16 + |Decimal(index)|) + |Rendered(special, later, runs)|
  {
    var ps := [Lit(text), Run(index)] + later;
    assert ps[1..][0] == Run(index) && ps[1..][1..] == later;
  }

  /** The pattern is as long as its escaped words and its captures together. */
  lemma {:induction false} RenderedLength(digit: char -> bool, special: char -> bool, s: string, index: nat, runs: nat)
    ensures |Rendered(special, Pieces(digit, s, index), runs)|
            == WordCost(digit, special, s) + NameCost(index, |Runs(digit, s)|, runs)
    decreases |s|
  {
    var t := TextSpan(digit, s);
    TextSpanStops(digit, s);
    if t == |s| {
      assert s[..t] == s;
      EscapedLength(digit, special, s);
      assert Pieces(digit, s, index)[1..] == [];
    } else {
      var rest := s[RunEnd(digit, s)..];
      FirstGapCost(digit, special, s);
      RenderedLength(digit, special, rest, index + 1, runs);
      PiecesStep(digit, s, index);
      assert |Runs(digit, s)| == 1 + |Runs(digit, rest)|;
      hide TextSpan, RunEnd, Pieces, Runs, Rendered, WordCost;
      RenderedStep(special, s[..t], index, Pieces(digit, rest, index + 1), runs);
    }
  }

  lemma PatternLength(digit: char -> bool, special: char -> bool, s: string)
    ensures |PatternText(digit, special, s)|
            == 2 + WordCost(digit, special, s) + NameCost(1, |Runs(digit, s)|, |Runs(digit, s)|)
  {
    RenderedLength(digit, special, s, 1, |Runs(digit, s)|);
  }

  lemma {:induction false} NamesCostMore(index: nat, count: nat, runs: nat)
    requires runs > 1
    ensures NameCost(index, count, runs) >= 17 * count
    decreases count
  {
    if count > 0 {
      NamesCostMore(index + 1, count - 1, runs);
    }
  }

  // ---------------------------------------------------------------- what is suggested

  datatype Reading = PatternReading(value: string) | ExactReading(value: string)
                   | OpeningReading(value: string) | PhraseReading(value: string)
  {
    function Breadth(): nat {
      match this
      case ExactReading(_) => 1
      case PatternReading(_) => 2
      case OpeningReading(_) => 3
      case PhraseReading(_) => 4
    }
  }

  predicate NoBroader(a: Reading, b: Reading) {
    a.Breadth() <= b.Breadth()
  }

  /** The readings in the order they are built: the pattern, where there is one, comes first. */
  function Readings(text: string, pattern: Option<string>, opening: Option<string>, phrase: Option<string>): seq<Reading> {
    (if pattern.Some? then [PatternReading(pattern.value)] else [])
    + [ExactReading(text)]
    + (if opening.Some? then [OpeningReading(opening.value)] else [])
    + (if phrase.Some? then [PhraseReading(phrase.value)] else [])
  }

  /** The part of a subject that is read. */
  function Read(text: string): string {
    if |text| > MAXIMUM_SUBJECT then text[..MAXIMUM_SUBJECT] else text
  }

  /** `None` where the source raises: nothing to read, or a value no condition may hold. */
  function Suggest(digit: char -> bool, special: char -> bool, narrows: string -> bool, text: string): Option<seq<Reading>> {
    var s := Read(text);
    var pattern := PatternText(digit, special, s);
    var named := Runs(digit, s) != [] && narrows(pattern);
    if s == "" || (named && |pattern| > MAXIMUM_VALUE) then None
    else
      Some(StableSort(
             Readings(s, if named then Some(pattern) else None, FixedOpening(digit, s), LongestFixedPhrase(digit, s)),
             NoBroader))
  }

  /** The pattern with its captures takes more characters than a condition's value is allowed. */
  predicate TooLong(digit: char -> bool, special: char -> bool, s: string) {
    var n := |Runs(digit, s)|;
    2 + WordCost(digit, special, s) + NameCost(1, n, n) > MAXIMUM_VALUE
  }

  /**
   For every subject: suggesting raises exactly when there is nothing to read, or it has numbers,
   its pattern would narrow, and its words and the names of its numbers are too long together.
   */
  lemma RefusedExactlyWhen(digit: char -> bool, special: char -> bool, narrows: string -> bool, text: string)
    ensures var s := Read(text);
            Suggest(digit, special, narrows, text).None? <==>
              || text == ""
              || (Runs(digit, s) != [] && narrows(PatternText(digit, special, s)) && TooLong(digit, special, s))
  {
    PatternLength(digit, special, Read(text));
    hide PatternText, WordCost, NameCost, Runs, StableSort, Readings, FixedOpening, LongestFixedPhrase;
  }

  /** Thirty numbers are always too many. */
  lemma ManyNumbersOverflow(digit: char -> bool, special: char -> bool, narrows: string -> bool, text: string)
    requires |Runs(digit, Read(text))| >= 30
    ensures TooLong(digit, special, Read(text))
    ensures narrows(PatternText(digit, special, Read(text))) ==> Suggest(digit, special, narrows, text).None?
  {
    var s := Read(text);
    NamesCostMore(1, |Runs(digit, s)|, |Runs(digit, s)|);
    RefusedExactlyWhen(digit, special, narrows, text);
    hide Suggest, PatternText, WordCost, NameCost, Runs;
  }

  const NOTICE := "Transfer "

  function Transfers(n: nat): string {
    if n == 0 then "" else NOTICE + "1" + Transfers(n - 1)
  }

  lemma TransfersBegin(n: nat)
    ensures Transfers(n) == "" || Transfers(n)[0] == NOTICE[0]
    ensures n > 0 ==> Transfers(n) == NOTICE + "1" + Transfers(n - 1) && |Transfers(n)| == 10 + |Transfers(n - 1)|
    ensures |Transfers(0)| == 0
  {
  }

  lemma {:induction false} TransferRuns(digit: char -> bool, n: nat)
    requires digit('1') && NoDigits(digit, NOTICE)
    ensures |Transfers(n)| == 10 * n && |Runs(digit, Transfers(n))| == n
  {
    if n == 0 {
      assert Runs(digit, "") == [];
    } else {
      hide *;
      TransferRuns(digit, n - 1);
      TransfersBegin(n);
      TransfersBegin(n - 1);
      OneTransfer(digit, Transfers(n - 1));
    }
  }

  lemma OneTransfer(digit: char -> bool, rest: string)
    requires digit('1') && NoDigits(digit, NOTICE) && (rest == "" || rest[0] == NOTICE[0])
    ensures |Runs(digit, NOTICE + "1" + rest)| == 1 + |Runs(digit, rest)|
  {
    hide Gaps, Runs;
    GapsStep(digit, NOTICE, "1", rest);
  }

  /** Such a subject, of 300 characters and so within the limit, is refused where its pattern narrows. */
  lemma RefusedWithinTheLimit(digit: char -> bool, special: char -> bool, narrows: string -> bool)
    requires digit('1') && NoDigits(digit, NOTICE)
    requires narrows(PatternText(digit, special, Transfers(30)))
    ensures |Transfers(30)| == MAXIMUM_SUBJECT && Suggest(digit, special, narrows, Transfers(30)).None?
  {
    TransferRuns(digit, 30);
    hide Suggest, PatternText, Runs, Transfers;
    ManyNumbersOverflow(digit, special, narrows, Transfers(30));
  }

  predicate DifferentBreadth(a: Reading, b: Reading) {
    a.Breadth() != b.Breadth()
  }

  /** No two readings are equally broad. */
  lemma ReadingsDiffer(text: string, pattern: Option<string>, opening: Option<string>, phrase: Option<string>)
    ensures var found := Readings(text, pattern, opening, phrase);
            && Pairwise(found, DifferentBreadth) && ExactReading(text) in found
            && forall x :: x in found ==> x.Breadth() > 1 || x == ExactReading(text)
  {
  }

  lemma SuggestionsByBreadth(text: string, pattern: Option<string>, opening: Option<string>, phrase: Option<string>)
    ensures var r := StableSort(Readings(text, pattern, opening, phrase), NoBroader);
            && multiset(r) == multiset(Readings(text, pattern, opening, phrase))
            && r != [] && r[0] == ExactReading(text)
            && (forall i, j :: 0 <= i < j < |r| ==> r[i].Breadth() < r[j].Breadth())
  {
    var found := Readings(text, pattern, opening, phrase);
    ReadingsDiffer(text, pattern, opening, phrase);
    hide Readings;
    SortSorts(found, NoBroader, DifferentBreadth);
    SortElements(found, NoBroader);
    var r := StableSort(found, NoBroader);
    MembersOf(r, found);
    hide StableSort;
    var k :| 0 <= k < |r| && r[k] == ExactReading(text);
    assert r[0] in r;
    assert k > 0 ==> NoBroader(r[0], r[k]);
  }

  /**
   Readings come narrowest first, and so the exact subject is the first one whether or not it
   holds numbers: the pattern that was meant to be the default is never in front of it.
   */
  lemma ExactComesFirst(digit: char -> bool, special: char -> bool, narrows: string -> bool, text: string)
    ensures var r := Suggest(digit, special, narrows, text);
            r.Some? ==>
              && r.value != [] && r.value[0].ExactReading?
              && forall i, j :: 0 <= i < j < |r.value| ==> r.value[i].Breadth() < r.value[j].Breadth()
  {
    var s := Read(text);
    var pattern := PatternText(digit, special, s);
    var named := Runs(digit, s) != [] && narrows(pattern);
    SuggestionsByBreadth(s, if named then Some(pattern) else None, FixedOpening(digit, s), LongestFixedPhrase(digit, s));
    hide PatternText, FixedOpening, LongestFixedPhrase, Runs, StableSort, Readings;
  }
}
