/**
 * The two pure rules main_scraper applies while building one scraped row:
 * the truncation of the aggregated showtimes cell to the spreadsheet's cell
 * budget, and the running time in minutes read from the "Running Time" text
 * with the patterns `(\d+)\s*Hours?` and `(\d+)\s*Minutes?`, case-insensitive.
 */
module RecordBuilder {
  import opened Wrappers
  import opened Records

  /** SHEETS_CELL_CHAR_LIMIT. */
  const CellCharLimit: nat := 49900

  const TruncationMarker: string := "...[TRUNCATED]"

  /** The showtimes cell as stored: longer data is cut to the limit and marked. */
  function TruncateForCell(data: string): (cell: string)
    ensures |cell| <= CellCharLimit + |TruncationMarker|
    ensures |data| <= CellCharLimit ==> cell == data
    ensures |data| > CellCharLimit ==> data[..CellCharLimit] <= cell && |cell| == CellCharLimit + |TruncationMarker|
  {
    if |data| > CellCharLimit then data[..CellCharLimit] + TruncationMarker else data
  }

  // ---- the regular expression `(\d+)\s*<word>s?` under re.IGNORECASE ----

  predicate IsDigit(c: char) {
    '0' <= c <= '9'
  }

  /** The characters `\s` matches in a str pattern (those for which str.isspace holds). */
  predicate IsSpace(c: char) {
    || '\t' <= c <= '\r'
    || '\U{1C}' <= c <= ' '
    || c == '\U{85}' || c == '\U{A0}' || c == '\U{1680}'
    || '\U{2000}' <= c <= '\U{200A}'
    || c == '\U{2028}' || c == '\U{2029}' || c == '\U{202F}' || c == '\U{205F}' || c == '\U{3000}'
  }

  function LowerAscii(c: char): char {
    if 'A' <= c <= 'Z' then (c as int + 32) as char else c
  }

  /** The end of the run of digits starting at `i`. */
  function DigitRunEnd(s: string, i: nat): (j: nat)
    requires i <= |s|
    ensures i <= j <= |s|
    ensures forall k :: i <= k < j ==> IsDigit(s[k])
    ensures j == |s| || !IsDigit(s[j])
    decreases |s| - i
  {
    if i < |s| && IsDigit(s[i]) then DigitRunEnd(s, i + 1) else i
  }

  /** The end of the run of whitespace starting at `i`. */
  function SpaceRunEnd(s: string, i: nat): (j: nat)
    requires i <= |s|
    ensures i <= j <= |s|
    ensures forall k :: i <= k < j ==> IsSpace(s[k])
    ensures j == |s| || !IsSpace(s[j])
    decreases |s| - i
  {
    if i < |s| && IsSpace(s[i]) then SpaceRunEnd(s, i + 1) else i
  }

  /** `word` (lower-case letters) occurs at `i`, ignoring ASCII case. */
  predicate WordAt(s: string, i: nat, word: string) {
    i + |word| <= |s| && forall k :: 0 <= k < |word| ==> LowerAscii(s[i + k]) == word[k]
  }

  /** The greedy match: the whole digit run at `i`, the whole whitespace run after it, then the word. */
  predicate MatchesAt(s: string, i: nat, word: string) {
    i < |s| && IsDigit(s[i]) && WordAt(s, SpaceRunEnd(s, DigitRunEnd(s, i)), word)
  }

  /** The value of a run of decimal digits, as `int()` reads it. */
  function DigitsValue(d: string): nat
    requires forall k :: 0 <= k < |d| ==> IsDigit(d[k])
  {
    if d == [] then 0
    else
      assert IsDigit(d[|d| - 1]);
      10 * DigitsValue(d[..|d| - 1]) + (d[|d| - 1] as int - '0' as int)
  }

  /** `re.search`: the leftmost position, from `from` on, where the pattern matches. */
  function Search(s: string, word: string, from: nat): (r: Option<nat>)
    ensures r.Some? ==> from <= r.value < |s| && MatchesAt(s, r.value, word)
    ensures r.Some? ==> forall j :: from <= j < r.value ==> !MatchesAt(s, j, word)
    ensures r.None? ==> forall j :: from <= j ==> !MatchesAt(s, j, word)
    decreases |s| - from
  {
    if from >= |s| then None
    else if MatchesAt(s, from, word) then Some(from)
    else Search(s, word, from + 1)
  }

  /** `int(m.group(1))` for the leftmost match, or 0 without one. */
  function Captured(s: string, word: string): (n: nat)
    ensures n > 0 ==> Search(s, word, 0).Some?
  {
    match Search(s, word, 0)
    case None => 0
    case Some(i) => DigitsValue(s[i..DigitRunEnd(s, i)])
  }

  /** `Running Time (Minutes)`: hours times 60 plus minutes, or 'N/A' when that is 0. */
  function RunningTimeMinutes(rt: string): (v: Value)
    ensures (v.Number? && v.n > 0) || v == Text(Sentinel)
    ensures v.Number? ==> Search(rt, "hour", 0).Some? || Search(rt, "minute", 0).Some?
  {
    var total := 60 * Captured(rt, "hour") + Captured(rt, "minute");
    if total > 0 then Number(total) else Text(Sentinel)
  }
}

/** What the two rules promise. */
module RecordBuilderProperties {
  import opened Wrappers
  import opened Records
  import opened RecordBuilder

  /** The stored cell never exceeds the limit plus the marker: 49914 characters, under the 50000 of a cell. */
  lemma TruncatedLength(data: string)
    ensures |TruncateForCell(data)| <= CellCharLimit + |TruncationMarker| == 49914 < 50000
  {
  }

  /** Data within the limit is stored as it is. */
  lemma ShortDataKept(data: string)
    requires |data| <= CellCharLimit
    ensures TruncateForCell(data) == data
  {
  }

  /** Longer data keeps its first 49900 characters, followed by the marker. */
  lemma LongDataCut(data: string)
    requires |data| > CellCharLimit
    ensures |TruncateForCell(data)| == CellCharLimit + |TruncationMarker|
    ensures TruncateForCell(data)[..CellCharLimit] == data[..CellCharLimit]
    ensures TruncateForCell(data)[CellCharLimit..] == TruncationMarker
  {
  }

  /** Truncating a stored cell again changes nothing. */
  lemma TruncateIdempotent(data: string)
    ensures TruncateForCell(TruncateForCell(data)) == TruncateForCell(data)
  {
    if |data| > CellCharLimit {
      var once := TruncateForCell(data);
      assert once[..CellCharLimit] == data[..CellCharLimit];
    }
  }

  /**
   * The declarative reading of `(\d+)\s*<word>`: digits on [i, j), at least
   * one, whitespace on [j, k), then the word.
   */
  predicate RegexSplit(s: string, i: nat, j: nat, k: nat, word: string) {
    && i < j <= k <= |s|
    && (forall p :: i <= p < j ==> IsDigit(s[p]))
    && (forall p :: j <= p < k ==> IsSpace(s[p]))
    && WordAt(s, k, word)
  }

  lemma {:induction false} DigitRunFrom(s: string, i: nat, j: nat)
    requires i <= j <= |s|
    requires forall p :: i <= p < j ==> IsDigit(s[p])
    requires j == |s| || !IsDigit(s[j])
    ensures DigitRunEnd(s, i) == j
    decreases j - i
  {
    if i < j {
      DigitRunFrom(s, i + 1, j);
    }
  }

  lemma {:induction false} SpaceRunFrom(s: string, i: nat, j: nat)
    requires i <= j <= |s|
    requires forall p :: i <= p < j ==> IsSpace(s[p])
    requires j == |s| || !IsSpace(s[j])
    ensures SpaceRunEnd(s, i) == j
    decreases j - i
  {
    if i < j {
      SpaceRunFrom(s, i + 1, j);
    }
  }

  /**
   * Backtracking cannot find another split: the only one takes the whole
   * digit run and the whole whitespace run, so the greedy match is the match
   * and group 1 is the whole digit run.
   */
  lemma MatchIsGreedy(s: string, i: nat, word: string)
    requires word != [] && 'a' <= word[0] <= 'z'
    ensures MatchesAt(s, i, word) <==> exists j, k :: RegexSplit(s, i, j, k, word)
    ensures forall j, k :: RegexSplit(s, i, j, k, word) ==> j == DigitRunEnd(s, i) && k == SpaceRunEnd(s, j)
  {
    forall j: nat, k: nat | RegexSplit(s, i, j, k, word) ensures j == DigitRunEnd(s, i) && k == SpaceRunEnd(s, j) {
      assert LowerAscii(s[k]) == word[0];
      DigitRunFrom(s, i, j);
      SpaceRunFrom(s, j, k);
    }
    if MatchesAt(s, i, word) {
      var j := DigitRunEnd(s, i);
      assert RegexSplit(s, i, j, SpaceRunEnd(s, j), word);
    }
  }

  /** The leftmost match starts a digit run, so group 1 holds every digit of the number. */
  lemma LeftmostStartsRun(s: string, word: string)
    requires Search(s, word, 0).Some?
    ensures var i := Search(s, word, 0).value; i == 0 || !IsDigit(s[i - 1])
  {
    var i := Search(s, word, 0).value;
    if i > 0 && IsDigit(s[i - 1]) {
      assert DigitRunEnd(s, i - 1) == DigitRunEnd(s, i);
      assert MatchesAt(s, i - 1, word);
    }
  }

  /** 'N/A' exactly when neither pattern yields a non-zero number; otherwise 60 * hours + minutes. */
  lemma RunningTimeRule(rt: string)
    ensures RunningTimeMinutes(rt) == Text(Sentinel) <==> Captured(rt, "hour") == 0 && Captured(rt, "minute") == 0
    ensures RunningTimeMinutes(rt).Number? ==>
      RunningTimeMinutes(rt).n == 60 * Captured(rt, "hour") + Captured(rt, "minute") > 0
    ensures Overrides(RunningTimeMinutes(rt)) <==> RunningTimeMinutes(rt).Number?
  {
  }

  lemma NotWordAt(s: string, i: nat, word: string)
    requires word != [] && i <= |s|
    requires i < |s| ==> LowerAscii(s[i]) != word[0]
    ensures !WordAt(s, i, word)
  {
    if i < |s| {
      assert s[i + 0] == s[i];
    }
  }

  /** The leftmost match of `word` in `s` has its digits on [i, j). */
  lemma CapturedFrom(s: string, word: string, i: nat, j: nat, k: nat)
    requires word != [] && 'a' <= word[0] <= 'z'
    requires RegexSplit(s, i, j, k, word)
    requires forall p :: 0 <= p < i ==> !MatchesAt(s, p, word)
    ensures DigitRunEnd(s, i) == j && SpaceRunEnd(s, j) == k
    ensures Captured(s, word) == DigitsValue(s[i..j])
  {
    MatchIsGreedy(s, i, word);
  }

  /** A position that matches one word cannot match a word with another first letter. */
  lemma OtherWordFails(s: string, i: nat, j: nat, k: nat, word: string, other: string)
    requires word != [] && 'a' <= word[0] <= 'z'
    requires other != [] && other[0] != word[0]
    requires RegexSplit(s, i, j, k, word)
    ensures !MatchesAt(s, i, other)
  {
    MatchIsGreedy(s, i, word);
    assert LowerAscii(s[k]) == word[0];
  }

  lemma HoursAndMinutes(a: string)
    requires a == "2 Hours 15 Minutes"
    ensures RunningTimeMinutes(a) == Number(135)
  {
    ExampleParts(a);
    CapturedFrom(a, "hour", 0, 1, 2);
    OtherWordFails(a, 0, 1, 2, "hour", "minute");
    CapturedFrom(a, "minute", 8, 10, 11);
    assert DigitsValue("2") == 2 && DigitsValue("15") == 15;
  }

  lemma ExampleParts(a: string)
    requires a == "2 Hours 15 Minutes"
    ensures RegexSplit(a, 0, 1, 2, "hour") && RegexSplit(a, 8, 10, 11, "minute")
    ensures forall p :: 1 <= p < 8 ==> !IsDigit(a[p])
    ensures a[0..1] == "2" && a[8..10] == "15"
  {
    assert a[2..6] == "Hour" && a[11..17] == "Minute";
  }

  /** "Mins" is not "Minutes": only the hours are read. */
  lemma MinsIsNotMinutes(b: string)
    requires b == "1 Hour 30 Mins"
    ensures RunningTimeMinutes(b) == Number(60)
  {
    SecondExampleParts(b);
    CapturedFrom(b, "hour", 0, 1, 2);
    OtherWordFails(b, 0, 1, 2, "hour", "minute");
    MinutesAfterThirty(b);
    assert forall p :: 0 <= p < |b| ==> !MatchesAt(b, p, "minute");
    assert DigitsValue("1") == 1;
  }

  lemma SecondExampleParts(b: string)
    requires b == "1 Hour 30 Mins"
    ensures RegexSplit(b, 0, 1, 2, "hour")
    ensures forall p :: 0 <= p < |b| && p != 0 && p != 7 && p != 8 ==> !IsDigit(b[p])
    ensures b[0..1] == "1" && |b| == 14 && b[10..14] == "Mins" && IsDigit(b[7]) && IsDigit(b[8]) && b[9] == ' '
  {
    assert b[2..6] == "Hour";
  }

  lemma MinutesAfterThirty(b: string)
    requires |b| == 14 && b[10..14] == "Mins"
    requires IsDigit(b[7]) && IsDigit(b[8]) && b[9] == ' '
    ensures !MatchesAt(b, 7, "minute") && !MatchesAt(b, 8, "minute")
  {
    assert DigitRunEnd(b, 9) == 9 && DigitRunEnd(b, 8) == 9 && DigitRunEnd(b, 7) == 9;
    assert !IsSpace(b[10]) && SpaceRunEnd(b, 10) == 10 && SpaceRunEnd(b, 9) == 10;
    assert |"minute"| > 14 - 10;
  }

  lemma MissingRunningTime(n: string)
    requires n == Sentinel
    ensures RunningTimeMinutes(n) == Text(Sentinel)
  {
    assert forall j :: 0 <= j < |n| ==> !IsDigit(n[j]);
  }
}
