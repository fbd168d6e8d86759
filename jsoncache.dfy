/** The cache keys of pkg/jsoncache/jsoncache.go. A key is a prefix read off the clock (which the
    model takes as a value), a dash, and the caller's key lower-cased with every run of characters
    other than ASCII letters, digits and `_` replaced by a single dash. The temp-file reads and
    writes around it are not part of this model. */
module JsonCache {
  import opened Text

  /** `InvalidateCachePeriod` is an `int`; the named periods are 1, 2 and 3. */
  type InvalidateCachePeriod = int

  const InvalidateHourly: InvalidateCachePeriod := 1
  const InvalidateDaily: InvalidateCachePeriod := 2
  const InvalidateWeekly: InvalidateCachePeriod := 3

  /** What `createKey` reads off the clock: the UTC time in the layout `2006-01-02-15`, the local
      date in the layout `2006-01-02`, the local year and month in the layout `2006-01-`, and the
      ISO week number of the UTC time. */
  datatype Clock = Clock(UtcHour: string, LocalDate: string, LocalMonth: string, IsoWeek: nat)

  /** `fmt.Sprintf("%02d", n)`: the decimal digits, padded with a zero to at least two. */
  function TwoDigits(n: nat): (r: string)
    ensures |r| >= 2 && r[|r| - 1] == '0' + (n % 10) as char
    ensures forall k :: 0 <= k < |r| ==> '0' <= r[k] <= '9'
  {
    var d := DecimalString(n);
    if |d| < 2 then "0" + d else d
  }

  /** The prefix the period selects; any other period leaves it empty. */
  function Prefix(i: InvalidateCachePeriod, now: Clock): string {
    if i == InvalidateHourly then now.UtcHour
    else if i == InvalidateDaily then now.LocalDate
    else if i == InvalidateWeekly then now.LocalMonth + "week" + TwoDigits(now.IsoWeek)
    else ""
  }

  /** A character the class `\W` does not match: an ASCII letter, digit or underscore. */
  predicate IsWordChar(c: char) {
    'a' <= c <= 'z' || 'A' <= c <= 'Z' || '0' <= c <= '9' || c == '_'
  }

  /** `ReplaceAllString(s, "-")` with the pattern `\W+`, read left to right: the leftmost-longest
      matches are the maximal runs of non-word characters, and each becomes one dash. `inRun` says
      whether the text before `s` ended inside such a run, whose dash is already written. */
  function Replace(s: string, inRun: bool): string {
    if s == [] then [] else Emitted(s[0], inRun) + Replace(s[1..], !IsWordChar(s[0]))
  }

  /** What one character contributes: itself if it is a word character, the run's dash if it
      starts a run, and nothing inside a run. */
  function Emitted(c: char, inRun: bool): string {
    if IsWordChar(c) then [c] else if inRun then [] else "-"
  }

  function ReplaceNonWordRuns(s: string): string {
    Replace(s, false)
  }

  /** The normalised part of a key. */
  function Normalise(input: string): string {
    ReplaceNonWordRuns(ToLower(input))
  }

  /** `createKey` with the clock passed in: the period's prefix, a dash, then only lower-case
      letters, digits, underscores and single dashes. */
  function CreateKey(input: string, i: InvalidateCachePeriod, now: Clock): (key: string)
    ensures var p := Prefix(i, now);
            |key| > |p| && key[..|p|] == p && key[|p|] == '-' &&
            (forall k :: |p| < k < |key| ==>
               key[k] == '-' || key[k] == '_' || '0' <= key[k] <= '9' || 'a' <= key[k] <= 'z') &&
            (forall k :: |p| < k < |key| - 1 ==> !(key[k] == '-' && key[k + 1] == '-'))
  {
    NormalisedAlphabet(input);
    var key := Prefix(i, now) + "-" + Normalise(input);
    assert key[|Prefix(i, now)| + 1..] == Normalise(input);
    key
  }

  // Properties of the replacement.

  /** Every character of the replacement is a dash or a word character of the input. */
  lemma {:induction false} ReplacedChars(s: string, inRun: bool)
    ensures forall k :: 0 <= k < |Replace(s, inRun)| ==>
              Replace(s, inRun)[k] == '-' || (IsWordChar(Replace(s, inRun)[k]) && Replace(s, inRun)[k] in s)
  {
    if s != [] {
      ReplacedChars(s[1..], !IsWordChar(s[0]));
      var t := Replace(s[1..], !IsWordChar(s[0]));
      var h := Emitted(s[0], inRun);
      var r := Replace(s, inRun);
      forall k | 0 <= k < |r| ensures r[k] == '-' || (IsWordChar(r[k]) && r[k] in s) {
        if k >= |h| {
          assert r[k] == t[k - |h|];
          if r[k] != '-' {
            var j :| 0 <= j < |s[1..]| && s[1..][j] == r[k];
            assert s[j + 1] == r[k];
          }
        }
      }
    }
  }

  /** A dash in the replacement is always followed by a word character (or ends the text), and
      inside a run the replacement does not start with a dash. */
  lemma {:induction false} DashThenWord(s: string, inRun: bool)
    ensures forall k :: 0 <= k < |Replace(s, inRun)| - 1 && Replace(s, inRun)[k] == '-' ==>
              IsWordChar(Replace(s, inRun)[k + 1])
    ensures inRun && Replace(s, inRun) != [] ==> IsWordChar(Replace(s, inRun)[0])
  {
    if s != [] {
      DashThenWord(s[1..], !IsWordChar(s[0]));
      var t := Replace(s[1..], !IsWordChar(s[0]));
      var h := Emitted(s[0], inRun);
      var r := Replace(s, inRun);
      forall k | 0 <= k < |r| - 1 && r[k] == '-' ensures IsWordChar(r[k + 1]) {
        assert r[k + 1] == t[k + 1 - |h|];
        if k >= |h| {
          assert r[k] == t[k - |h|];
        }
      }
    }
  }

  /** The replacement is canonical: its non-word characters are single dashes. */
  lemma ReplacedShape(s: string, inRun: bool)
    ensures Canonical(Replace(s, inRun))
  {
    ReplacedChars(s, inRun);
    DashThenWord(s, inRun);
  }

  /** The replacement never holds two dashes in a row. */
  lemma NoDoubleDash(s: string)
    ensures forall k :: 0 <= k < |ReplaceNonWordRuns(s)| - 1 ==>
              !(ReplaceNonWordRuns(s)[k] == '-' && ReplaceNonWordRuns(s)[k + 1] == '-')
  {
    DashThenWord(s, false);
  }

  /** Text without two adjacent non-word characters, whose non-word characters are dashes: the
      form the replacement produces. */
  predicate Canonical(s: string) {
    (forall k :: 0 <= k < |s| && !IsWordChar(s[k]) ==> s[k] == '-') &&
    (forall k :: 0 <= k < |s| - 1 && !IsWordChar(s[k]) ==> IsWordChar(s[k + 1]))
  }

  /** The replacement leaves canonical text as it is. */
  lemma {:induction false} CanonicalFixed(s: string, inRun: bool)
    requires Canonical(s) && (inRun && s != [] ==> IsWordChar(s[0]))
    ensures Replace(s, inRun) == s
  {
    if s != [] {
      var t := s[1..];
      assert Canonical(t) by {
        forall k | 0 <= k < |t| && !IsWordChar(t[k]) ensures t[k] == '-' {
          assert t[k] == s[k + 1];
        }
        forall k | 0 <= k < |t| - 1 && !IsWordChar(t[k]) ensures IsWordChar(t[k + 1]) {
          assert t[k] == s[k + 1] && t[k + 1] == s[k + 2];
        }
      }
      assert !IsWordChar(s[0]) && t != [] ==> IsWordChar(t[0]);
      CanonicalFixed(t, !IsWordChar(s[0]));
      assert s == [s[0]] + t;
    }
  }

  /** Replacing twice is replacing once. */
  lemma ReplaceIdempotent(s: string)
    ensures ReplaceNonWordRuns(ReplaceNonWordRuns(s)) == ReplaceNonWordRuns(s)
  {
    ReplacedShape(s, false);
    CanonicalFixed(ReplaceNonWordRuns(s), false);
  }

  /** A text of word characters only is left as it is... */
  lemma {:induction false} WordsKept(s: string, inRun: bool)
    requires forall k :: 0 <= k < |s| ==> IsWordChar(s[k])
    ensures Replace(s, inRun) == s
  {
    if s != [] {
      WordsKept(s[1..], false);
      assert s == [s[0]] + s[1..];
    }
  }

  /** ...and a run of non-word characters becomes a single dash, or nothing when its dash is
      already written. */
  lemma {:induction false} RunReplaced(s: string, inRun: bool)
    requires s != [] && forall k :: 0 <= k < |s| ==> !IsWordChar(s[k])
    ensures Replace(s, inRun) == if inRun then [] else "-"
  {
    if |s| > 1 {
      RunReplaced(s[1..], true);
    }
  }

  /** Whether a text read from a state `inRun` ends inside a run. */
  function EndsInRun(s: string, inRun: bool): bool {
    if s == [] then inRun else !IsWordChar(s[|s| - 1])
  }

  /** The replacement of a concatenation is the replacement of the first part followed by that of
      the second, read from the state the first part ends in. */
  lemma {:induction false} ReplaceAppend(a: string, b: string, inRun: bool)
    ensures Replace(a + b, inRun) == Replace(a, inRun) + Replace(b, EndsInRun(a, inRun))
  {
    if a == [] {
      assert a + b == b;
    } else {
      var c, t := a[0], a[1..];
      assert a == [c] + t && a + b == [c] + (t + b);
      ReplaceAppend(t, b, !IsWordChar(c));
      ReplaceAppendStep(c, t, b, inRun);
    }
  }

  /** One step of the induction above: putting a character in front of both sides. */
  lemma ReplaceAppendStep(c: char, t: string, b: string, inRun: bool)
    requires Replace(t + b, !IsWordChar(c)) == Replace(t, !IsWordChar(c)) + Replace(b, EndsInRun(t, !IsWordChar(c)))
    ensures Replace([c] + (t + b), inRun) == Replace([c] + t, inRun) + Replace(b, EndsInRun([c] + t, inRun))
  {
    var f := !IsWordChar(c);
    ReplaceCons(c, t, inRun);
    ReplaceCons(c, t + b, inRun);
    EndsInRunCons(c, t, inRun);
    var h, rt, rb := Emitted(c, inRun), Replace(t, f), Replace(b, EndsInRun(t, f));
    AppendAssoc(h, rt, rb);
  }

  lemma AppendAssoc(x: string, y: string, z: string)
    ensures x + (y + z) == (x + y) + z
  {
  }

  /** The replacement of a text with one more character in front. */
  lemma ReplaceCons(c: char, s: string, inRun: bool)
    ensures Replace([c] + s, inRun) == Emitted(c, inRun) + Replace(s, !IsWordChar(c))
  {
    assert ([c] + s)[0] == c && ([c] + s)[1..] == s;
  }

  lemma EndsInRunCons(c: char, s: string, inRun: bool)
    ensures EndsInRun([c] + s, inRun) == EndsInRun(s, !IsWordChar(c))
  {
    if s != [] {
      assert ([c] + s)[|s|] == s[|s| - 1];
    }
  }

  /** The word characters of a text, in order. */
  function WordChars(s: string): (w: string)
    ensures forall k :: 0 <= k < |w| ==> IsWordChar(w[k])
  {
    if s == [] then []
    else if IsWordChar(s[0]) then [s[0]] + WordChars(s[1..])
    else WordChars(s[1..])
  }

  /** The replacement loses no word character and adds none. */
  lemma {:induction false} ReplaceKeepsWordChars(s: string, inRun: bool)
    ensures WordChars(Replace(s, inRun)) == WordChars(s)
  {
    if s != [] {
      var f := !IsWordChar(s[0]);
      ReplaceKeepsWordChars(s[1..], f);
      var t := Replace(s[1..], f);
      assert Replace(s, inRun) == Emitted(s[0], inRun) + t;
      if IsWordChar(s[0]) {
        assert ([s[0]] + t)[1..] == t;
      } else if !inRun {
        var r := "-" + t;
        assert r[0] == '-' && r[1..] == t;
      } else {
        assert [] + t == t;
      }
    }
  }

  // Properties of the key.

  /** The normalised part uses only `0-9`, `a-z`, `_` and `-`, never two dashes in a row, and keeps
      the lower-cased word characters of the input in order. */
  lemma NormalisedAlphabet(input: string)
    ensures forall k :: 0 <= k < |Normalise(input)| ==>
              Normalise(input)[k] == '-' || Normalise(input)[k] == '_' ||
              '0' <= Normalise(input)[k] <= '9' || 'a' <= Normalise(input)[k] <= 'z'
    ensures forall k :: 0 <= k < |Normalise(input)| - 1 ==>
              !(Normalise(input)[k] == '-' && Normalise(input)[k + 1] == '-')
    ensures WordChars(Normalise(input)) == WordChars(ToLower(input))
  {
    var l := ToLower(input);
    ReplacedChars(l, false);
    NoDoubleDash(l);
    ReplaceKeepsWordChars(l, false);
    var n := Normalise(input);
    forall k | 0 <= k < |n| && n[k] != '-' ensures !IsAsciiUpper(n[k]) {
      var j :| 0 <= j < |l| && l[j] == n[k];
    }
  }

  /** Normalising a normalised key part changes nothing. */
  lemma NormaliseIdempotent(input: string)
    ensures Normalise(Normalise(input)) == Normalise(input)
  {
    var n := Normalise(input);
    NormalisedAlphabet(input);
    assert ToLower(n) == n;
    ReplaceIdempotent(ToLower(input));
  }

  /** The key is the prefix, a dash and the normalised part; a period other than hourly, daily
      or weekly gives an empty prefix, so the key then starts with the dash. */
  lemma KeyShape(input: string, i: InvalidateCachePeriod, now: Clock)
    ensures var key := CreateKey(input, i, now);
            var p := Prefix(i, now);
            |key| == |p| + 1 + |Normalise(input)| && key[..|p|] == p && key[|p|] == '-' &&
            key[|p| + 1..] == Normalise(input)
    ensures i != InvalidateHourly && i != InvalidateDaily && i != InvalidateWeekly ==>
              CreateKey(input, i, now) == "-" + Normalise(input)
  {
  }

  /** The periods pick the UTC hour, the local date, and the local month with the ISO week. */
  lemma PeriodPrefixes(now: Clock)
    ensures Prefix(InvalidateHourly, now) == now.UtcHour
    ensures Prefix(InvalidateDaily, now) == now.LocalDate
    ensures Prefix(InvalidateWeekly, now) == now.LocalMonth + "week" + TwoDigits(now.IsoWeek)
    ensures now.IsoWeek == 7 ==> Prefix(InvalidateWeekly, now) == now.LocalMonth + "week07"
    ensures now.IsoWeek == 42 ==> Prefix(InvalidateWeekly, now) == now.LocalMonth + "week42"
  {
    assert DecimalString(7) == "7";
    assert DecimalString(4) == "4";
    assert DecimalString(42) == DecimalString(4) + "2";
  }

  /** The three keys the tests expect: "ABC" hourly... */
  lemma HourlyKeyVector(now: Clock)
    ensures CreateKey("ABC", InvalidateHourly, now) == now.UtcHour + "-abc"
  {
    HourlyLowered();
  }

  /** ...then "@ABC@" daily, where each `@` becomes a dash of its own... */
  lemma DailyKeyVector(now: Clock)
    ensures CreateKey("@ABC@", InvalidateDaily, now) == now.LocalDate + "--abc-"
  {
    DailyLowered();
    DailyReplaced();
  }

  lemma DailyReplaced()
    ensures ReplaceNonWordRuns("@abc@") == "-abc-"
  {
    assert "@"[1..] == [] && Replace("@", false) == "-";
    assert "c@"[1..] == "@" && Replace("c@", false) == "c-";
    assert "bc@"[1..] == "c@" && Replace("bc@", false) == "bc-";
    assert "abc@"[1..] == "bc@" && Replace("abc@", true) == "abc-";
    assert "@abc@"[1..] == "abc@";
  }

  /** ...and "a/B/c" weekly, where each slash becomes a dash. */
  lemma WeeklyKeyVector(now: Clock)
    ensures CreateKey("a/B/c", InvalidateWeekly, now) ==
              now.LocalMonth + "week" + TwoDigits(now.IsoWeek) + "-a-b-c"
  {
    WeeklyLowered();
    WeeklyReplaced();
  }

  lemma WeeklyReplaced()
    ensures ReplaceNonWordRuns("a/b/c") == "a-b-c"
  {
    assert "c"[1..] == [] && Replace("c", true) == "c";
    assert "/c"[1..] == "c" && Replace("/c", false) == "-c";
    assert "b/c"[1..] == "/c" && Replace("b/c", false) == "b-c";
    assert "/b/c"[1..] == "b/c" && Replace("/b/c", false) == "-b-c";
    assert "a/b/c"[1..] == "/b/c";
  }

  lemma DailyLowered()
    ensures ToLower("@ABC@") == "@abc@"
  {
    var l := ToLower("@ABC@");
    assert l[0] == LowerRune('@') == '@';
    assert l[1] == LowerRune('A') == 'a';
    assert l[2] == LowerRune('B') == 'b';
    assert l[3] == LowerRune('C') == 'c';
    assert l[4] == LowerRune('@') == '@';
  }

  lemma WeeklyLowered()
    ensures ToLower("a/B/c") == "a/b/c"
  {
    var l := ToLower("a/B/c");
    assert l[0] == LowerRune('a') == 'a';
    assert l[1] == LowerRune('/') == '/';
    assert l[2] == LowerRune('B') == 'b';
    assert l[3] == LowerRune('/') == '/';
    assert l[4] == LowerRune('c') == 'c';
  }

  lemma HourlyLowered()
    ensures ToLower("ABC") == "abc"
  {
    var l := ToLower("ABC");
    assert l[0] == LowerRune('A') == 'a';
    assert l[1] == LowerRune('B') == 'b';
    assert l[2] == LowerRune('C') == 'c';
  }
}
