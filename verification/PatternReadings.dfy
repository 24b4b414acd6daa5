/** Which readings of a subject are offered, and how the text of a generated pattern reads. */
module PatternReadings {
  import opened Common
  import opened Patterns
  import opened Sorting
  import opened Text

  // ---------------------------------------------------------------- which readings there are

  /** There is an opening exactly where words enough come before a first number. */
  lemma OpeningExactlyWhen(digit: char -> bool, s: string)
    ensures FixedOpening(digit, s).Some? <==> Runs(digit, s) != [] && |Strip(Gaps(digit, s)[0])| >= 4
    ensures FixedOpening(digit, s).Some? ==> FixedOpening(digit, s).value == Strip(Gaps(digit, s)[0])
  {
    hide RunEnd, Strip;
  }

  lemma {:induction false} LongestIsLongest(gaps: seq<string>)
    requires gaps != []
    ensures exists n :: 0 <= n < |gaps| && Longest(gaps) == Strip(gaps[n])
                        && (forall k :: 0 <= k < n ==> |Strip(gaps[k])| < |Longest(gaps)|)
                        && (forall k :: 0 <= k < |gaps| ==> |Strip(gaps[k])| <= |Longest(gaps)|)
  {
    hide Strip;
    if |gaps| > 1 {
      var later := gaps[1..];
      LongestIsLongest(later);
      var n :| 0 <= n < |later| && Longest(later) == Strip(later[n])
               && (forall k :: 0 <= k < n ==> |Strip(later[k])| < |Longest(later)|)
               && (forall k :: 0 <= k < |later| ==> |Strip(later[k])| <= |Longest(later)|);
      assert forall k :: 1 <= k < |gaps| ==> gaps[k] == later[k - 1];
      var m := if |Strip(gaps[0])| >= |Longest(later)| then 0 else n + 1;
      assert Longest(gaps) == Strip(gaps[m]);
      assert forall k :: 0 <= k < |gaps| ==> |Strip(gaps[k])| <= |Longest(gaps)|;
      assert forall k :: 0 <= k < m ==> |Strip(gaps[k])| < |Longest(gaps)|;
    } else {
      assert Longest(gaps) == Strip(gaps[0]);
    }
  }

  /** There is a phrase exactly where some stretch between numbers has words enough, and it is the first of the longest. */
  lemma PhraseExactlyWhen(digit: char -> bool, s: string)
    ensures var gaps, phrase := Gaps(digit, s), LongestFixedPhrase(digit, s);
            && (phrase.Some? <==> exists k :: 0 <= k < |gaps| && |Strip(gaps[k])| >= 4)
            && (phrase.Some? ==>
                  exists n :: 0 <= n < |gaps| && phrase.value == Strip(gaps[n])
                              && (forall k :: 0 <= k < n ==> |Strip(gaps[k])| < |phrase.value|)
                              && (forall k :: 0 <= k < |gaps| ==> |Strip(gaps[k])| <= |phrase.value|))
  {
    LongestIsLongest(Gaps(digit, s));
    hide Strip, Gaps, Longest;
  }

  /** What is suggested: the subject itself, and each wider or numbered reading that there is. */
  lemma SuggestsExactly(digit: char -> bool, special: char -> bool, narrows: string -> bool, text: string, r: Reading)
    requires Suggest(digit, special, narrows, text).Some?
    ensures var s := Read(text);
            r in Suggest(digit, special, narrows, text).value <==>
              match r {
                case ExactReading(value) => value == s
                case PatternReading(value) =>
                  Runs(digit, s) != [] && value == PatternText(digit, special, s) && narrows(value)
                case OpeningReading(value) => FixedOpening(digit, s) == Some(value)
                case PhraseReading(value) => LongestFixedPhrase(digit, s) == Some(value)
              }
  {
    var s := Read(text);
    var pattern := PatternText(digit, special, s);
    var named := Runs(digit, s) != [] && narrows(pattern);
    var found := Readings(s, if named then Some(pattern) else None, FixedOpening(digit, s), LongestFixedPhrase(digit, s));
    SortElements(found, NoBroader);
    MembersOf(StableSort(found, NoBroader), found);
    ReadingsAre(s, if named then Some(pattern) else None, FixedOpening(digit, s), LongestFixedPhrase(digit, s), r);
    hide StableSort, PatternText, FixedOpening, LongestFixedPhrase, Runs, Readings;
  }

  lemma ReadingsAre(text: string, pattern: Option<string>, opening: Option<string>, phrase: Option<string>, r: Reading)
    ensures r in Readings(text, pattern, opening, phrase) <==>
              match r {
                case ExactReading(value) => value == text
                case PatternReading(value) => pattern == Some(value)
                case OpeningReading(value) => opening == Some(value)
                case PhraseReading(value) => phrase == Some(value)
              }
  {
  }

  /** What a decimal numeral stands for. */
  function Value(s: string): nat {
    if s == "" then 0
    else 10 * Value(s[..|s| - 1]) + (if '0' <= s[|s| - 1] <= '9' then s[|s| - 1] as int - '0' as int else 0)
  }

  lemma {:induction false} DecimalReadsBack(n: nat)
    ensures Value(Decimal(n)) == n
  {
    if n >= 10 {
      DecimalReadsBack(n / 10);
      assert Decimal(n)[..|Decimal(n)| - 1] == Decimal(n / 10);
    } else {
      assert Decimal(n)[..0] == "";
    }
  }

  /** No two captures of a pattern have the same name, so it is one an engine accepts. */
  lemma CaptureNamesDiffer(i: nat, j: nat)
    requires i != j
    ensures "number_" + Decimal(i) != "number_" + Decimal(j)
  {
    DecimalReadsBack(i);
    DecimalReadsBack(j);
    assert ("number_" + Decimal(i))[7..] == Decimal(i) && ("number_" + Decimal(j))[7..] == Decimal(j);
    hide Decimal, Value;
  }

  /** Gap and run by turns, the runs numbered one after the other. */
  lemma {:induction false} PiecesNumbered(digit: char -> bool, s: string, index: nat, k: nat)
    requires k <= |Runs(digit, s)|
    ensures |Pieces(digit, s, index)| == 2 * |Runs(digit, s)| + 1 && |Gaps(digit, s)| == |Runs(digit, s)| + 1
    ensures Pieces(digit, s, index)[2 * k] == Lit(Gaps(digit, s)[k])
    ensures k < |Runs(digit, s)| ==> Pieces(digit, s, index)[2 * k + 1] == Run(index + k)
    decreases |s|
  {
    if TextSpan(digit, s) < |s| {
      FirstTurn(digit, s, index);
      hide *;
      var rest, j := s[RunEnd(digit, s)..], if k > 0 then k - 1 else 0;
      PiecesNumbered(digit, rest, index + 1, j);
      TurnAt(s[..TextSpan(digit, s)], index, Pieces(digit, rest, index + 1), k);
      assert k > 0 ==> Gaps(digit, s)[k] == Gaps(digit, rest)[k - 1];
    }
  }

  lemma TurnAt(text: string, index: nat, later: seq<Piece>, k: nat)
    requires 2 * k <= |later| + 1
    ensures var ps := [Lit(text), Run(index)] + later;
            && ps[2 * k] == (if k == 0 then Lit(text) else later[2 * (k - 1)])
            && (2 * k + 1 < |ps| ==> ps[2 * k + 1] == if k == 0 then Run(index) else later[2 * (k - 1) + 1])
  {
  }

  lemma FirstTurn(digit: char -> bool, s: string, index: nat)
    requires TextSpan(digit, s) < |s|
    ensures var text, rest := s[..TextSpan(digit, s)], s[RunEnd(digit, s)..];
            && Pieces(digit, s, index) == [Lit(text), Run(index)] + Pieces(digit, rest, index + 1)
            && Gaps(digit, s) == [text] + Gaps(digit, rest)
            && |Runs(digit, s)| == 1 + |Runs(digit, rest)|
  {
    hide TextSpan, RunEnd;
  }

  // ---------------------------------------------------------------- the text reads back as the pattern

  /** The language of the patterns written: a character standing for itself, or a named run of digits. */
  datatype Token = Ch(c: char) | Digits(name: string)

  function Upto(text: string, c: char): (n: nat)
    ensures n <= |text|
  {
    if text == "" || text[0] == c then 0 else 1 + Upto(text[1..], c)
  }

  /** How an engine reads that language: a backslash takes the next character as it is. */
  function Tokens(text: string): seq<Token>
    decreases |text|
  {
    if text == "" then []
    else if text[0] == '\\' then if |text| == 1 then [] else [Ch(text[1])] + Tokens(text[2..])
    else if StartsWith(text, "(?P<") then
      var n := Upto(text[4..], '>');
      var rest := text[4 + n..];
      if StartsWith(rest, ">\\d+)") then [Digits(text[4..4 + n])] + Tokens(rest[5..]) else []
    else [Ch(text[0])] + Tokens(text[1..])
  }

  function NameOf(index: nat, runs: nat): string {
    if runs == 1 then "number" else "number_" + Decimal(index)
  }

  function Letters(s: string): seq<Token> {
    seq(|s|, i requires 0 <= i < |s| => Ch(s[i]))
  }

  /** What the pieces come to: the words letter by letter, and each run under its name. */
  function Spelled(ps: seq<Piece>, runs: nat): seq<Token> {
    if ps == [] then []
    else
      (match ps[0]
       case Lit(text) => Letters(text)
       case Run(i) => [Digits(NameOf(i, runs))])
      + Spelled(ps[1..], runs)
  }

  lemma PlainReads(c: char, rest: string)
    requires c != '\\' && c != '('
    ensures Tokens([c] + rest) == [Ch(c)] + Tokens(rest)
  {
    var text := [c] + rest;
    assert text[1..] == rest;
    assert !StartsWith(text, "(?P<") by {
      assert text[0] != "(?P<"[0];
    }
  }

  lemma EscapeReads(c: char, rest: string)
    ensures Tokens(['\\', c] + rest) == [Ch(c)] + Tokens(rest)
  {
    var text := ['\\', c] + rest;
    assert text[2..] == rest;
  }

  lemma EscapedSplits(special: char -> bool, s: string, tail: string)
    requires s != ""
    ensures Escaped(special, s) + tail
            == (if special(s[0]) then ['\\', s[0]] else [s[0]]) + (Escaped(special, s[1..]) + tail)
  {
    Associates(if special(s[0]) then ['\\', s[0]] else [s[0]], Escaped(special, s[1..]), tail);
  }

  lemma LettersSplit(s: string, later: seq<Token>)
    requires s != ""
    ensures [Ch(s[0])] + (Letters(s[1..]) + later) == Letters(s) + later
  {
    assert Letters(s) == [Ch(s[0])] + Letters(s[1..]);
  }

  lemma {:induction false} EscapedReads(special: char -> bool, s: string, tail: string)
    requires special('\\') && special('(')
    ensures Tokens(Escaped(special, s) + tail) == Letters(s) + Tokens(tail)
    decreases |s|
  {
    if s == "" {
      assert Escaped(special, s) + tail == tail;
    } else {
      hide Tokens, Letters, Escaped;
      var rest := Escaped(special, s[1..]) + tail;
      EscapedReads(special, s[1..], tail);
      EscapedSplits(special, s, tail);
      LettersSplit(s, Tokens(tail));
      if special(s[0]) {
        EscapeReads(s[0], rest);
      } else {
        PlainReads(s[0], rest);
      }
    }
  }

  lemma {:induction false} UptoIs(name: string, rest: string, c: char)
    requires c !in name && rest != "" && rest[0] == c
    ensures Upto(name + rest, c) == |name|
  {
    if name == "" {
      assert name + rest == rest;
    } else {
      UptoIs(name[1..], rest, c);
      assert (name + rest)[1..] == name[1..] + rest;
    }
  }

  lemma CaptureReads(name: string, tail: string)
    requires '>' !in name
    ensures Tokens("(?P<" + name + ">\\d+)" + tail) == [Digits(name)] + Tokens(tail)
  {
    var open, close := "(?P<", ">\\d+)";
    var text := open + name + close + tail;
    var rest := close + tail;
    assert text[4..] == name + rest && text[..4] == open;
    UptoIs(name, rest, '>');
    assert text[4 + |name|..] == rest && text[4..4 + |name|] == name;
    assert rest[..5] == close && rest[5..] == tail;
  }

  lemma {:induction false} DecimalIsDigits(n: nat)
    ensures forall c :: c in Decimal(n) ==> c in "0123456789"
  {
    if n >= 10 {
      DecimalIsDigits(n / 10);
    }
  }

  lemma {:induction false} RenderedReads(special: char -> bool, ps: seq<Piece>, runs: nat)
    requires special('\\') && special('(')
    ensures Tokens(Rendered(special, ps, runs)) == Spelled(ps, runs)
  {
    if ps != [] {
      var later := Rendered(special, ps[1..], runs);
      RenderedReads(special, ps[1..], runs);
      hide Tokens;
      match ps[0] {
        case Lit(text) =>
          EscapedReads(special, text, later);
        case Run(i) =>
          DecimalIsDigits(i);
          assert '>' !in NameOf(i, runs);
          CaptureReads(NameOf(i, runs), later);
          assert Rendered(special, ps, runs) == "(?P<" + NameOf(i, runs) + ">\\d+)" + later;
      }
    }
  }

  /** Between its anchors the text of a pattern reads as its words and its numbered captures, however it had to be escaped. */
  lemma PatternTextReads(digit: char -> bool, special: char -> bool, s: string)
    requires special('\\') && special('(')
    ensures var text := PatternText(digit, special, s);
            && |text| >= 2 && text[0] == '^' && text[|text| - 1] == '$'
            && Tokens(text[1..|text| - 1]) == Spelled(Pieces(digit, s, 1), |Runs(digit, s)|)
  {
    var body := Rendered(special, Pieces(digit, s, 1), |Runs(digit, s)|);
    RenderedReads(special, Pieces(digit, s, 1), |Runs(digit, s)|);
    assert PatternText(digit, special, s)[1..|body| + 1] == body;
    hide Rendered, Pieces, Runs;
  }
}
