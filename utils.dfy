/**
 * The two display formatters of the application's utility library:
 * `formatDuration`, which renders a millisecond count as `MM:SS`, and
 * `snakeCaseToTitleCase`, which turns `some_status` into `Some Status`.
 */
module Utils {
  import opened Wrappers

  // ---------------------------------------------------------------------
  // Decimal digits
  // ---------------------------------------------------------------------

  predicate IsDigit(c: char)
  {
    '0' <= c <= '9'
  }

  predicate AllDigits(s: string)
  {
    forall i :: 0 <= i < |s| ==> IsDigit(s[i])
  }

  function DigitChar(d: nat): (c: char)
    requires d < 10
    ensures IsDigit(c)
  {
    ('0' as int + d) as char
  }

  function DigitValue(c: char): nat
    requires IsDigit(c)
  {
    c as int - '0' as int
  }

  /**
   * `n.toString()` for a non-negative integer: its decimal digits, most
   * significant first, with no leading zero.
   */
  function DecimalString(n: nat): (s: string)
    ensures 1 <= |s| && AllDigits(s)
    ensures |s| == 1 <==> n < 10
  {
    if n < 10 then [DigitChar(n)] else DecimalString(n / 10) + [DigitChar(n % 10)]
  }

  /** The value of a string of decimal digits (leading zeros allowed). */
  function ParseDecimal(s: string): nat
    requires AllDigits(s)
  {
    if s == [] then 0 else 10 * ParseDecimal(s[..|s| - 1]) + DigitValue(s[|s| - 1])
  }

  /** Reading back the digits of `n` gives `n`. */
  lemma {:induction false} ParseDecimalString(n: nat)
    ensures ParseDecimal(DecimalString(n)) == n
  {
    var s := DecimalString(n);
    if n >= 10 {
      assert s[..|s| - 1] == DecimalString(n / 10);
      ParseDecimalString(n / 10);
    }
  }

  /** `k` copies of `c`. */
  function Repeat(c: char, k: nat): (r: string)
    ensures |r| == k && forall i :: 0 <= i < k ==> r[i] == c
  {
    if k == 0 then [] else [c] + Repeat(c, k - 1)
  }

  /** Leading zeros do not change the value of a digit string. */
  lemma {:induction false} ParseDecimalLeadingZeros(k: nat, s: string)
    requires AllDigits(s)
    ensures AllDigits(Repeat('0', k) + s)
    ensures ParseDecimal(Repeat('0', k) + s) == ParseDecimal(s)
  {
    var z := Repeat('0', k);
    assert AllDigits(z + s);
    if s == [] {
      assert z + s == z;
      if k > 0 {
        assert z[..|z| - 1] == Repeat('0', k - 1) + [] by {
          assert Repeat('0', k - 1) + [] == Repeat('0', k - 1);
        }
        ParseDecimalLeadingZeros(k - 1, []);
      }
    } else {
      var init := s[..|s| - 1];
      assert (z + s)[..|z + s| - 1] == z + init;
      assert (z + s)[|z + s| - 1] == s[|s| - 1];
      ParseDecimalLeadingZeros(k, init);
    }
  }

  /**
   * `s.padStart(width, fill)` for a one-character `fill`: `s` itself when it
   * is already `width` long, otherwise `s` behind enough copies of `fill`.
   */
  function PadStart(s: string, width: nat, fill: char): (r: string)
    ensures |r| == if |s| < width then width else |s|
    ensures forall i :: 0 <= i < |s| ==> r[|r| - |s| + i] == s[i]
    ensures forall i :: 0 <= i < |r| - |s| ==> r[i] == fill
  {
    if |s| >= width then s else Repeat(fill, width - |s|) + s
  }

  // ---------------------------------------------------------------------
  // formatDuration
  // ---------------------------------------------------------------------

  const MsPerMinute: nat := 60_000
  const MsPerSecond: nat := 1_000

  /** `Math.floor(duration / 60_000)`: whole minutes, with no upper bound. */
  function WholeMinutes(duration: nat): (m: nat)
    ensures m * MsPerMinute <= duration < (m + 1) * MsPerMinute
  {
    duration / MsPerMinute
  }

  /** `Math.floor((duration % 60_000) / 1000)`: the whole seconds left over. */
  function SecondsOfMinute(duration: nat): (s: nat)
    ensures s < 60
  {
    (duration % MsPerMinute) / MsPerSecond
  }

  /**
   * One field of the clock: its decimal digits, with a '0' in front of a
   * single digit (`ClockFieldIsPadStart` shows this is `padStart(2, "0")`).
   */
  function ClockField(n: nat): (r: string)
    ensures |r| >= 2 && AllDigits(r)
    ensures n < 100 ==> |r| == 2
  {
    if n < 10 then ['0', DigitChar(n)] else DecimalString(n)
  }

  /** A clock field is the decimal text padded at the start with '0' to two characters. */
  lemma ClockFieldIsPadStart(n: nat)
    ensures ClockField(n) == PadStart(DecimalString(n), 2, '0')
  {
    if n < 10 {
      assert PadStart(DecimalString(n), 2, '0') == Repeat('0', 1) + [DigitChar(n)];
    } else {
      assert |DecimalString(n / 10)| >= 1;
    }
  }

  /**
   * Two digit fields joined by a colon: the colon is the third character
   * from the end and every other character is a digit.
   */
  function JoinClock(minutes: string, seconds: string): (r: string)
    requires AllDigits(minutes) && AllDigits(seconds) && |minutes| >= 2 && |seconds| == 2
    ensures |r| == |minutes| + 3 && r[|r| - 3] == ':'
    ensures forall i :: 0 <= i < |r| && i != |r| - 3 ==> IsDigit(r[i])
  {
    minutes + ":" + seconds
  }

  /**
   * `formatDuration(duration)`: the whole minutes, a colon, then the whole
   * seconds left over, both fields at least two digits wide; the
   * milliseconds are dropped.
   */
  function FormatDuration(duration: nat): (r: string)
    ensures |r| >= 5
    ensures r[|r| - 3] == ':'
    ensures forall i :: 0 <= i < |r| && i != |r| - 3 ==> IsDigit(r[i])
  {
    var m := ClockField(WholeMinutes(duration));
    var s := ClockField(SecondsOfMinute(duration));
    assert |s| == 2;
    JoinClock(m, s)
  }

  /**
   * Reads an `M...M:SS` clock back as milliseconds: `None` unless the text is
   * a digit string, a colon and exactly two more digits.
   */
  function ParseClock(text: string): (r: Option<nat>)
    ensures r.Some? ==> r.value % MsPerSecond == 0
  {
    if |text| >= 4 && text[|text| - 3] == ':'
       && AllDigits(text[..|text| - 3]) && AllDigits(text[|text| - 2..])
    then Some(ParseDecimal(text[..|text| - 3]) * MsPerMinute + ParseDecimal(text[|text| - 2..]) * MsPerSecond)
    else None
  }

  /**
   * The two fields account for every whole second of the duration: only the
   * sub-second remainder is dropped, never rounded up.
   */
  lemma DurationFields(duration: nat)
    ensures WholeMinutes(duration) * MsPerMinute + SecondsOfMinute(duration) * MsPerSecond
            == duration - duration % MsPerSecond
  {
    var q, r := duration / 60000, duration % 60000;
    assert duration == 60000 * q + r;
    var a, b := r / 1000, r % 1000;
    assert r == 1000 * a + b;
    assert duration == 1000 * (60 * q + a) + b;
    assert duration % 1000 == b;
  }

  /** The text of a clock field reads back as the number it shows. */
  lemma ClockFieldValue(n: nat)
    ensures ParseDecimal(ClockField(n)) == n
  {
    ParseDecimalString(n);
    if n < 10 {
      assert ClockField(n) == Repeat('0', 1) + DecimalString(n);
      ParseDecimalLeadingZeros(1, DecimalString(n));
    }
  }

  /** Two digit fields around a colon read back as their values, in milliseconds. */
  lemma ClockRoundTrip(minutes: string, seconds: string)
    requires AllDigits(minutes) && AllDigits(seconds) && |minutes| >= 2 && |seconds| == 2
    ensures ParseClock(JoinClock(minutes, seconds))
            == Some(ParseDecimal(minutes) * MsPerMinute + ParseDecimal(seconds) * MsPerSecond)
  {
    var r := JoinClock(minutes, seconds);
    assert r[..|r| - 3] == minutes;
    assert r[|r| - 2..] == seconds;
  }

  /** The clock of whole minutes and seconds reads back as those, in milliseconds. */
  lemma ClockFieldsRoundTrip(minutes: nat, seconds: nat)
    requires seconds < 60
    ensures ParseClock(JoinClock(ClockField(minutes), ClockField(seconds)))
            == Some(minutes * MsPerMinute + seconds * MsPerSecond)
  {
    ClockRoundTrip(ClockField(minutes), ClockField(seconds));
    ClockFieldValue(minutes);
    ClockFieldValue(seconds);
  }

  /** Round trip: reading the clock back gives the duration truncated to whole seconds. */
  lemma FormatDurationRoundTrip(duration: nat)
    ensures ParseClock(FormatDuration(duration)) == Some(duration - duration % MsPerSecond)
  {
    var minutes, seconds := WholeMinutes(duration), SecondsOfMinute(duration);
    assert FormatDuration(duration) == JoinClock(ClockField(minutes), ClockField(seconds));
    ClockFieldsRoundTrip(minutes, seconds);
    DurationFields(duration);
  }

  /** Dropping the milliseconds keeps both clock fields. */
  lemma WholeSecondFields(duration: nat)
    ensures WholeMinutes(duration - duration % MsPerSecond) == WholeMinutes(duration)
    ensures SecondsOfMinute(duration - duration % MsPerSecond) == SecondsOfMinute(duration)
  {
    var t := duration - duration % MsPerSecond;
    var q, r := duration / 60000, duration % 60000;
    var a, b := r / 1000, r % 1000;
    assert duration == 60000 * q + 1000 * a + b;
    assert duration % 1000 == b;
    assert t == 60000 * q + 1000 * a;
    assert t / 60000 == q;
    assert t % 60000 == 1000 * a;
  }

  /** Two durations that agree to the whole second format alike. */
  lemma FormatDurationIgnoresMilliseconds(duration: nat)
    ensures FormatDuration(duration - duration % MsPerSecond) == FormatDuration(duration)
  {
    WholeSecondFields(duration);
  }

  /** The minutes field is not capped at two digits: 100 minutes or more give a wider clock. */
  lemma FormatDurationWidth(duration: nat)
    ensures duration < 100 * MsPerMinute ==> |FormatDuration(duration)| == 5
    ensures duration >= 100 * MsPerMinute ==> |FormatDuration(duration)| >= 6
  {
    var minutes := WholeMinutes(duration);
    if minutes >= 100 {
      assert |DecimalString(minutes / 10)| >= 2;
    }
  }

  // ---------------------------------------------------------------------
  // snakeCaseToTitleCase
  // ---------------------------------------------------------------------

  /**
   * `toUpperCase` on one character. Only ASCII letters are mapped; every
   * other character is left as it is.
   */
  function ToUpper(c: char): (u: char)
    ensures 'a' <= c <= 'z' ==> 'A' <= u <= 'Z' && u as int == c as int - 32
    ensures !('a' <= c <= 'z') ==> u == c
    ensures !('a' <= u <= 'z')
  {
    if 'a' <= c <= 'z' then (c as int - 32) as char else c
  }

  /** `str.split(sep)`: the pieces between separators; empty pieces included. */
  function Split(s: string, sep: char): (words: seq<string>)
    ensures |words| >= 1
    ensures forall k :: 0 <= k < |words| ==> sep !in words[k]
  {
    if s == [] then [[]]
    else
      var rest := Split(s[1..], sep);
      if s[0] == sep then [[]] + rest
      else [[s[0]] + rest[0]] + rest[1..]
  }

  /**
   * `words.join(sep)`. When no word holds the separator, splitting the
   * joined text gives the words back.
   */
  function Join(words: seq<string>, sep: char): (r: string)
    ensures |words| >= 1 && (forall k :: 0 <= k < |words| ==> sep !in words[k]) ==> Split(r, sep) == words
  {
    if |words| == 0 then []
    else if |words| == 1 then
      assert sep !in words[0] ==> Split(words[0], sep) == words by {
        if sep !in words[0] { SplitWord(words[0], sep); }
      }
      words[0]
    else
      var rest := Join(words[1..], sep);
      assert (forall k :: 0 <= k < |words| ==> sep !in words[k]) ==> Split(words[0] + [sep] + rest, sep) == words by {
        if forall k :: 0 <= k < |words| ==> sep !in words[k] {
          assert forall k :: 0 <= k < |words[1..]| ==> sep !in words[1..][k] by {
            forall k | 0 <= k < |words[1..]| ensures sep !in words[1..][k] {
              assert words[1..][k] == words[k + 1];
            }
          }
          SplitAfterWord(words[0], rest, sep);
          assert words == [words[0]] + words[1..];
        }
      }
      words[0] + [sep] + rest
  }

  /** A piece without the separator splits into itself. */
  lemma {:induction false} SplitWord(w: string, sep: char)
    requires sep !in w
    ensures Split(w, sep) == [w]
  {
    if w != [] {
      SplitWord(w[1..], sep);
      assert [w[0]] + w[1..] == w;
    }
  }

  /** A piece without the separator, then the separator, splits off as the first piece. */
  lemma {:induction false} SplitAfterWord(w: string, t: string, sep: char)
    requires sep !in w
    ensures Split(w + [sep] + t, sep) == [w] + Split(t, sep)
  {
    var s := w + [sep] + t;
    if w == [] {
      assert s[0] == sep && s[1..] == t;
    } else {
      assert s[0] == w[0] && s[1..] == w[1..] + [sep] + t;
      SplitAfterWord(w[1..], t, sep);
      assert [w[0]] + w[1..] == w;
    }
  }

  /** Splitting and joining with the same separator gives back the input. */
  lemma {:induction false} JoinSplit(s: string, sep: char)
    ensures Join(Split(s, sep), sep) == s
  {
    if s != [] {
      var rest := Split(s[1..], sep);
      JoinSplit(s[1..], sep);
      if s[0] != sep {
        JoinCons(s[0], rest[0], rest[1..], sep);
        assert [rest[0]] + rest[1..] == rest;
      }
    }
  }

  /** Prepending a character to the first word prepends it to the joined text. */
  lemma JoinCons(c: char, w: string, ws: seq<string>, sep: char)
    ensures Join([[c] + w] + ws, sep) == [c] + Join([w] + ws, sep)
  {
    if |ws| > 0 {
      assert ([[c] + w] + ws)[1..] == ws;
      assert ([w] + ws)[1..] == ws;
    }
  }

  /** `word.charAt(0).toUpperCase() + word.slice(1)`. */
  function Capitalize(word: string): (r: string)
    ensures |r| == |word|
  {
    if word == [] then [] else [ToUpper(word[0])] + word[1..]
  }

  /** `words.map(capitalize)`. */
  function CapitalizeAll(words: seq<string>): (r: seq<string>)
    ensures |r| == |words|
    ensures forall k :: 0 <= k < |words| ==> r[k] == Capitalize(words[k])
  {
    if words == [] then [] else [Capitalize(words[0])] + CapitalizeAll(words[1..])
  }

  /**
   * `snakeCaseToTitleCase(str)`: split on '_', capitalize each word, join
   * with ' '. The result is the character-by-character reference `TitleFrom`.
   */
  function SnakeCaseToTitleCase(str: string): (r: string)
    ensures r == TitleFrom(str, true)
  {
    var ws := Split(str, '_');
    TitleFromWords(str, true);
    assert CapitalizeAll(ws) == [Capitalize(ws[0])] + CapitalizeAll(ws[1..]);
    Join(CapitalizeAll(ws), ' ')
  }

  /**
   * Reference definition, one character at a time: '_' becomes ' ', the
   * first character of a word (at the start, or after '_') is upper-cased,
   * and everything else is copied.
   */
  function TitleFrom(s: string, atWordStart: bool): (r: string)
    ensures |r| == |s|
  {
    if s == [] then []
    else if s[0] == '_' then [' '] + TitleFrom(s[1..], true)
    else [if atWordStart then ToUpper(s[0]) else s[0]] + TitleFrom(s[1..], false)
  }

  // The words joined with ' ', the first one capitalized only when `capFirst`.
  function JoinTitle(words: seq<string>, capFirst: bool): string
    requires |words| >= 1
  {
    Join([if capFirst then Capitalize(words[0]) else words[0]] + CapitalizeAll(words[1..]), ' ')
  }

  lemma {:induction false} TitleFromWords(s: string, atWordStart: bool)
    ensures TitleFrom(s, atWordStart) == JoinTitle(Split(s, '_'), atWordStart)
  {
    if s != [] {
      var rest := Split(s[1..], '_');
      TitleFromWords(s[1..], s[0] == '_');
      if s[0] == '_' {
        var ws := [[]] + rest;
        assert Split(s, '_') == ws;
        assert ws[1..] == rest;
        assert CapitalizeAll(rest) == [Capitalize(rest[0])] + CapitalizeAll(rest[1..]);
        assert ([[]] + CapitalizeAll(rest))[1..] == CapitalizeAll(rest);
      } else {
        var w := [s[0]] + rest[0];
        var ws := [w] + rest[1..];
        assert Split(s, '_') == ws;
        assert ws[1..] == rest[1..];
        var c := if atWordStart then ToUpper(s[0]) else s[0];
        assert (if atWordStart then Capitalize(w) else w) == [c] + rest[0];
        JoinCons(c, rest[0], CapitalizeAll(rest[1..]), ' ');
      }
    }
  }

  lemma {:induction false} TitleFromAt(s: string, atWordStart: bool, i: nat)
    requires i < |s|
    ensures TitleFrom(s, atWordStart)[i]
            == if s[i] == '_' then ' '
               else if (if i == 0 then atWordStart else s[i - 1] == '_') then ToUpper(s[i])
               else s[i]
  {
    if i > 0 {
      TitleFromAt(s[1..], s[0] == '_', i - 1);
    }
  }

  /**
   * What `snakeCaseToTitleCase` does to each character: the output has the
   * input's length, every '_' becomes ' ', the first character of each word
   * is upper-cased, and every other character is copied unchanged (there is
   * no lower-casing).
   */
  lemma TitleCaseAt(str: string, i: nat)
    requires i < |str|
    ensures |SnakeCaseToTitleCase(str)| == |str|
    ensures SnakeCaseToTitleCase(str)[i]
            == if str[i] == '_' then ' '
               else if i == 0 || str[i - 1] == '_' then ToUpper(str[i])
               else str[i]
  {
    TitleFromAt(str, true, i);
  }

  /** The output has the input's length and contains no '_'. */
  lemma TitleCaseShape(str: string)
    ensures |SnakeCaseToTitleCase(str)| == |str|
    ensures '_' !in SnakeCaseToTitleCase(str)
  {
    var r := SnakeCaseToTitleCase(str);
    forall i | 0 <= i < |r| ensures r[i] != '_' {
      TitleCaseAt(str, i);
    }
  }

  function Count(s: string, c: char): nat
  {
    if s == [] then 0 else (if s[0] == c then 1 else 0) + Count(s[1..], c)
  }

  lemma {:induction false} TitleFromSpaces(s: string, atWordStart: bool)
    ensures Count(TitleFrom(s, atWordStart), ' ') == Count(s, ' ') + Count(s, '_')
  {
    if s != [] {
      TitleFromSpaces(s[1..], s[0] == '_');
      var r := TitleFrom(s, atWordStart);
      assert r[1..] == TitleFrom(s[1..], s[0] == '_');
    }
  }

  /** Each '_' removed becomes exactly one ' ' added; the spaces already there stay. */
  lemma TitleCaseSpaces(str: string)
    ensures Count(SnakeCaseToTitleCase(str), ' ') == Count(str, ' ') + Count(str, '_')
  {
    TitleFromSpaces(str, true);
  }

  /** Applying `snakeCaseToTitleCase` a second time changes nothing. */
  lemma TitleCaseIdempotent(str: string)
    ensures SnakeCaseToTitleCase(SnakeCaseToTitleCase(str)) == SnakeCaseToTitleCase(str)
  {
    var t := SnakeCaseToTitleCase(str);
    var tt := SnakeCaseToTitleCase(t);
    TitleCaseShape(str);
    TitleCaseShape(t);
    forall i | 0 <= i < |t| ensures tt[i] == t[i] {
      TitleCaseAt(t, i);
      TitleCaseAt(str, i);
    }
  }
}
