/**
 * `format_duration` of list/views.py: whole seconds rendered as `"{h}h {m}m {s}s"`,
 * dropping every unit whose value is zero and falling back to `"0s"`.
 * A reader for such strings is the partner that the round-trip lemmas use.
 */
module DurationFormat {
  import opened Common
  import opened Text

  datatype Hms = Hms(hours: nat, minutes: nat, seconds: nat)

  function TotalSeconds(d: Hms): nat {
    d.hours * 3600 + d.minutes * 60 + d.seconds
  }

  /** One `f"{n}{unit}"` token. */
  function Token(n: nat, unit: char): string {
    Digits(n) + [unit]
  }

  /** Hours, minutes and seconds of a whole-second count, as the source computes them. */
  function Decompose(totalSeconds: nat): (d: Hms)
    ensures d.minutes < 60 && d.seconds < 60
    ensures TotalSeconds(d) == totalSeconds
  {
    var hours := totalSeconds / 3600;
    var remainder := totalSeconds % 3600;
    var minutes := remainder / 60;
    var seconds := remainder % 60;
    Hms(hours, minutes, seconds)
  }

  /** The `parts` list: one token per non-zero unit, hours first. */
  function PartsOf(d: Hms): seq<string> {
    (if d.hours > 0 then [Token(d.hours, 'h')] else [])
    + (if d.minutes > 0 then [Token(d.minutes, 'm')] else [])
    + (if d.seconds > 0 then [Token(d.seconds, 's')] else [])
  }

  function FormatDuration(totalSeconds: nat): string {
    var parts := PartsOf(Decompose(totalSeconds));
    if parts == [] then "0s" else Join(parts, ' ')
  }

  // ---------------------------------------------------------------------------
  // Reading a formatted duration back

  predicate IsUnit(u: char) { u == 'h' || u == 'm' || u == 's' }

  /** Position of a unit in the order hours, minutes, seconds. */
  function UnitRank(u: char): nat {
    if u == 'h' then 0 else if u == 'm' then 1 else 2
  }

  /**
   * A token: a non-empty run of digits that does not start with `0`,
   * followed by a unit letter. Zero-padded tokens such as `01h` are refused.
   */
  function ReadToken(t: string): Option<(nat, char)> {
    if |t| >= 2 && t[0] != '0' && AllDigits(t[..|t| - 1]) && IsUnit(t[|t| - 1])
    then Some((ParseDigits(t[..|t| - 1]), t[|t| - 1]))
    else None
  }

  function SetUnit(d: Hms, u: char, v: nat): Hms {
    if u == 'h' then d.(hours := v) else if u == 'm' then d.(minutes := v) else d.(seconds := v)
  }

  /**
   * Reads a list of tokens that carry non-zero values and whose units come in
   * strictly increasing rank, each at least `minRank`; anything else is refused.
   */
  function ReadTokens(ts: seq<string>, minRank: nat): Option<Hms> {
    if ts == [] then Some(Hms(0, 0, 0))
    else match ReadToken(ts[0])
      case None => None
      case Some((v, u)) =>
        if v == 0 || UnitRank(u) < minRank then None
        else match ReadTokens(ts[1..], UnitRank(u) + 1)
          case None => None
          case Some(d) => Some(SetUnit(d, u, v))
  }

  /** Reads `"0s"` or single-space separated tokens in the order h, m, s. */
  function ReadDuration(s: string): Option<Hms> {
    if s == "0s" then Some(Hms(0, 0, 0)) else ReadTokens(Split(s, ' '), 0)
  }

  lemma TokenRead(v: nat, u: char)
    requires v > 0 && IsUnit(u)
    ensures ReadToken(Token(v, u)) == Some((v, u))
  {
    var t := Token(v, u);
    assert t[..|t| - 1] == Digits(v);
    assert t[0] == Digits(v)[0];
    ParseDigitsOfDigits(v);
  }

  lemma ReadTokensCons(v: nat, u: char, rest: seq<string>, minRank: nat, d: Hms)
    requires v > 0 && IsUnit(u) && minRank <= UnitRank(u)
    requires ReadTokens(rest, UnitRank(u) + 1) == Some(d)
    ensures ReadTokens([Token(v, u)] + rest, minRank) == Some(SetUnit(d, u, v))
  {
    TokenRead(v, u);
    assert ([Token(v, u)] + rest)[1..] == rest;
  }

  lemma PartsAreSpaceFree(d: Hms)
    ensures forall k :: 0 <= k < |PartsOf(d)| ==> ' ' !in PartsOf(d)[k]
  {
    forall k | 0 <= k < |PartsOf(d)| ensures ' ' !in PartsOf(d)[k] {
      var t := PartsOf(d)[k];
      assert AllDigits(t[..|t| - 1]) && t[|t| - 1] != ' ';
      forall j | 0 <= j < |t| ensures t[j] != ' ' {
        if j < |t| - 1 { assert t[..|t| - 1][j] == t[j]; }
      }
    }
  }

  /** The tokens of any hours/minutes/seconds triple read back as that triple. */
  lemma ReadParts(d: Hms)
    ensures ReadTokens(PartsOf(d), 0) == Some(d)
  {
    var h, m, s := d.hours, d.minutes, d.seconds;
    var sp := if s > 0 then [Token(s, 's')] else [];
    var mp := if m > 0 then [Token(m, 'm')] else [];
    var hp := if h > 0 then [Token(h, 'h')] else [];
    var ds := Hms(0, 0, s);
    assert ReadTokens(sp, 2) == Some(ds) by {
      if s > 0 {
        ReadTokensCons(s, 's', [], 2, Hms(0, 0, 0));
        assert [Token(s, 's')] + [] == sp;
      }
    }
    var dm := Hms(0, m, s);
    assert ReadTokens(mp + sp, 1) == Some(dm) by {
      if m > 0 {
        ReadTokensCons(m, 'm', sp, 1, ds);
        assert mp + sp == [Token(m, 'm')] + sp;
      } else {
        assert mp + sp == sp;
        if s > 0 {
          ReadTokensCons(s, 's', [], 1, Hms(0, 0, 0));
          assert [Token(s, 's')] + [] == sp;
        }
      }
    }
    assert PartsOf(d) == hp + (mp + sp);
    if h > 0 {
      ReadTokensCons(h, 'h', mp + sp, 0, dm);
      assert hp + (mp + sp) == [Token(h, 'h')] + (mp + sp);
    } else {
      assert hp + (mp + sp) == mp + sp;
      if m > 0 {
        ReadTokensCons(m, 'm', sp, 0, ds);
        assert mp + sp == [Token(m, 'm')] + sp;
      } else {
        assert mp + sp == sp;
        if s > 0 {
          ReadTokensCons(s, 's', [], 0, Hms(0, 0, 0));
          assert [Token(s, 's')] + [] == sp;
        }
      }
    }
  }

  /** A token, read as digits followed by one more character, is never `"0s"` for a positive value. */
  lemma TokenNotZero(v: nat, u: char)
    requires v > 0
    ensures Token(v, u) != "0s"
  {
    assert Token(v, u)[0] == Digits(v)[0];
  }

  /** `"0s"` is produced exactly for zero seconds, and the result is never empty. */
  lemma FormatDurationZero(n: nat)
    ensures FormatDuration(n) == "0s" <==> n == 0
    ensures FormatDuration(n) != ""
  {
    var d := Decompose(n);
    var parts := PartsOf(d);
    if parts != [] {
      if |parts| == 1 {
        var v := if d.hours > 0 then d.hours else if d.minutes > 0 then d.minutes else d.seconds;
        var u := if d.hours > 0 then 'h' else if d.minutes > 0 then 'm' else 's';
        assert parts[0] == Token(v, u);
        TokenNotZero(v, u);
      } else {
        assert |Join(parts, ' ')| > 2;
      }
    }
  }

  /**
   * Reading the formatted string back gives minutes and seconds below 60
   * that add up, with the hours, to exactly the input.
   */
  lemma FormatDurationRoundTrip(n: nat)
    ensures ReadDuration(FormatDuration(n)).Some?
    ensures n > 0 ==> ReadTokens(Split(FormatDuration(n), ' '), 0).Some?
    ensures var d := ReadDuration(FormatDuration(n)).value;
      d.minutes < 60 && d.seconds < 60 && TotalSeconds(d) == n
  {
    ReadFormatted(n);
    FormatDurationZero(n);
    var d := Decompose(n);
  }

  /** The reader recovers exactly the decomposition the formatter rendered. */
  lemma ReadFormatted(n: nat)
    ensures ReadDuration(FormatDuration(n)) == Some(Decompose(n))
    ensures n > 0 ==> ReadTokens(Split(FormatDuration(n), ' '), 0) == Some(Decompose(n))
  {
    var d := Decompose(n);
    var parts := PartsOf(d);
    if parts == [] {
      assert d == Hms(0, 0, 0);
      assert n == 0;
    } else {
      assert FormatDuration(n) == Join(parts, ' ');
      FormatDurationZero(n);
      ReadJoined(d);
    }
  }

  /** Split on spaces, the joined tokens of a triple read back as that triple. */
  lemma ReadJoined(d: Hms)
    requires PartsOf(d) != []
    ensures ReadTokens(Split(Join(PartsOf(d), ' '), ' '), 0) == Some(d)
  {
    ReadParts(d);
    PartsAreSpaceFree(d);
    SplitJoin(PartsOf(d), ' ');
  }

  /** Distinct durations are rendered differently. */
  lemma FormatDurationInjective(a: nat, b: nat)
    requires FormatDuration(a) == FormatDuration(b)
    ensures a == b
  {
    FormatDurationRoundTrip(a);
    FormatDurationRoundTrip(b);
  }

  function TotalLength(parts: seq<string>): nat {
    if parts == [] then 0 else |parts[0]| + TotalLength(parts[1..])
  }

  lemma {:induction false} JoinLength(parts: seq<string>)
    ensures |Join(parts, ' ')| == TotalLength(parts) + (if |parts| == 0 then 0 else |parts| - 1)
  {
    if |parts| > 1 {
      JoinLength(parts[1..]);
    }
  }

  lemma {:induction false} TotalLengthAppend(a: seq<string>, b: seq<string>)
    ensures TotalLength(a + b) == TotalLength(a) + TotalLength(b)
  {
    if a == [] {
      assert a + b == b;
    } else {
      assert (a + b)[1..] == a[1..] + b;
      TotalLengthAppend(a[1..], b);
    }
  }

  /** The rendering is at most nine characters longer than the hour count. */
  lemma FormatDurationLength(n: nat)
    ensures |FormatDuration(n)| <= |Digits(n / 3600)| + 9
  {
    var d := Decompose(n);
    DigitsLength(d.minutes, 2);
    DigitsLength(d.seconds, 2);
    var hp := if d.hours > 0 then [Token(d.hours, 'h')] else [];
    var mp := if d.minutes > 0 then [Token(d.minutes, 'm')] else [];
    var sp := if d.seconds > 0 then [Token(d.seconds, 's')] else [];
    assert PartsOf(d) == hp + mp + sp;
    TotalLengthAppend(hp + mp, sp);
    TotalLengthAppend(hp, mp);
    assert TotalLength(hp) <= |Digits(n / 3600)| + 1;
    assert TotalLength(mp) <= 3 && TotalLength(sp) <= 3;
    JoinLength(PartsOf(d));
  }

  /**
   * For the 9000..10800 second range of the `duration_seconds` help text the
   * rendering starts with the hour token `2h` (or is exactly `3h`) and fits the
   * 20-character `duration` column.
   */
  lemma LongVideoDuration(n: nat)
    requires 9000 <= n <= 10800
    ensures |FormatDuration(n)| <= 20
    ensures n < 10800 ==> FormatDuration(n)[..2] == "2h"
    ensures n == 10800 ==> FormatDuration(n) == "3h"
  {
    FormatDurationLength(n);
    var d := Decompose(n);
    var parts := PartsOf(d);
    assert d.hours == 2 || d.hours == 3;
    assert parts[0] == Token(d.hours, 'h') == [DigitChar(d.hours), 'h'];
    if |parts| > 1 {
      assert Join(parts, ' ')[..2] == parts[0];
    }
  }

  /** Worked values of the rendering. */
  lemma FormatDurationExamples()
    ensures FormatDuration(7200) == "2h"
    ensures FormatDuration(600) == "10m"
  {
    assert Decompose(7200) == Hms(2, 0, 0);
    assert Token(2, 'h') == "2h";
    assert PartsOf(Hms(2, 0, 0)) == ["2h"];
    assert Decompose(600) == Hms(0, 10, 0);
    assert Token(10, 'm') == "10m";
    assert PartsOf(Hms(0, 10, 0)) == ["10m"];
  }

  lemma FormatDurationExamplesMixed()
    ensures FormatDuration(61) == "1m 1s"
    ensures FormatDuration(3661) == "1h 1m 1s"
  {
    assert Token(1, 'h') == "1h" && Token(1, 'm') == "1m" && Token(1, 's') == "1s";
    assert Decompose(61) == Hms(0, 1, 1);
    assert PartsOf(Hms(0, 1, 1)) == ["1m", "1s"];
    assert Join(["1m", "1s"], ' ') == "1m 1s";
    assert Decompose(3661) == Hms(1, 1, 1);
    assert PartsOf(Hms(1, 1, 1)) == ["1h", "1m", "1s"];
    assert Join(["1h", "1m", "1s"], ' ') == "1h 1m 1s";
  }

  lemma FormatDurationExampleLong()
    ensures FormatDuration(9263) == "2h 34m 23s"
  {
    assert Decompose(9263) == Hms(2, 34, 23);
    LongExampleTokens();
    assert PartsOf(Hms(2, 34, 23)) == ["2h", "34m", "23s"];
    LongExampleJoin();
  }

  lemma LongExampleTokens()
    ensures Token(2, 'h') == "2h" && Token(34, 'm') == "34m" && Token(23, 's') == "23s"
  {
    assert Digits(34) == Digits(3) + [DigitChar(4)];
    assert Digits(23) == Digits(2) + [DigitChar(3)];
  }

  lemma LongExampleJoin()
    ensures Join(["2h", "34m", "23s"], ' ') == "2h 34m 23s"
  {
    assert ["2h", "34m", "23s"][1..] == ["34m", "23s"];
    assert ["34m", "23s"][1..] == ["23s"];
  }
}
