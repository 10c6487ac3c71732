/**
 * The `m:ss` clock text shown for a track's length and for the playback
 * position: `formatTime` in src/components/MusicPlayer.tsx and
 * `formatDuration` in src/components/TrackItem.tsx are the same
 * expression, modelled once as `MinSec` on whole seconds.
 */
module TimeFormat {
  import opened Options

  predicate IsDigit(c: char) {
    '0' <= c <= '9'
  }

  predicate AllDigits(s: string) {
    forall i :: 0 <= i < |s| ==> IsDigit(s[i])
  }

  function DigitChar(d: nat): (c: char)
    requires d < 10
    ensures IsDigit(c)
  {
    (48 + d) as char
  }

  function DigitValue(c: char): nat
    requires IsDigit(c)
  {
    c as int - 48
  }

  /** `${n}` for a whole number: decimal digits, no sign, no leading zero. */
  function Decimal(n: nat): (s: string)
    ensures 1 <= |s| && AllDigits(s)
    ensures |s| > 1 ==> s[0] != '0'
    ensures |s| == 1 <==> n < 10
  {
    if n < 10 then [DigitChar(n)] else Decimal(n / 10) + [DigitChar(n % 10)]
  }

  /** The number a string of decimal digits denotes. */
  function DecimalValue(s: string): nat
    requires AllDigits(s)
  {
    if |s| == 0 then 0 else 10 * DecimalValue(s[..|s| - 1]) + DigitValue(s[|s| - 1])
  }

  /** Reading back a rendered number gives the number. */
  lemma {:induction false} DecimalRoundTrip(n: nat)
    ensures DecimalValue(Decimal(n)) == n
  {
    if n >= 10 {
      DecimalRoundTrip(n / 10);
      var s := Decimal(n);
      assert s[..|s| - 1] == Decimal(n / 10);
    }
  }

  /** The seconds field: two digits, a leading `0` added below ten. */
  function SecondsField(secs: nat): (f: string)
    requires secs < 60
    ensures |f| == 2 && AllDigits(f)
    ensures DecimalValue(f) == secs
    ensures f[0] == '0' <==> secs < 10
  {
    if secs < 10 then
      var f := "0" + Decimal(secs);
      assert f == ['0', DigitChar(secs)] && f[..1] == "0" && ""[..0] == "";
      assert DecimalValue("0") == 0;
      f
    else
      assert Decimal(secs) == [DigitChar(secs / 10), DigitChar(secs % 10)];
      Decimal(secs)
  }

  /** How a digit string, a colon and a two-digit field line up when joined. */
  lemma ClockLayout(m: string, f: string)
    requires 1 <= |m| && AllDigits(m) && |f| == 2 && AllDigits(f)
    ensures var r := m + ":" + f;
            && |r| >= 4 && r[|r| - 3] == ':'
            && (forall i :: 0 <= i < |r| && i != |r| - 3 ==> IsDigit(r[i]))
            && r[..|r| - 3] == m && r[|r| - 2..] == f
            && r[|r| - 2] == f[0] && r[0] == m[0]
  {
    var r := m + ":" + f;
    assert r[..|r| - 3] == m;
    assert r[|r| - 2..] == f;
  }

  /**
   * `${mins}:${secs < 10 ? '0' : ''}${secs}` with `mins = seconds / 60` and
   * `secs = seconds % 60`: whole minutes, one colon, and a seconds field of
   * exactly two digits that is zero-padded exactly when it is below ten.
   */
  function MinSec(seconds: nat): (r: string)
    ensures |r| >= 4 && r[|r| - 3] == ':'
    ensures forall i :: 0 <= i < |r| && i != |r| - 3 ==> IsDigit(r[i])
    ensures DecimalValue(r[..|r| - 3]) == seconds / 60
    ensures DecimalValue(r[|r| - 2..]) == seconds % 60 < 60
    ensures r[|r| - 2] == '0' <==> seconds % 60 < 10
    ensures |r| - 3 > 1 ==> r[0] != '0'
  {
    var m, f := Decimal(seconds / 60), SecondsField(seconds % 60);
    DecimalRoundTrip(seconds / 60);
    ClockLayout(m, f);
    m + ":" + f
  }

  /** The colon sits at the one position `MinSec` reserves for it, and nowhere else. */
  lemma MinSecOneColon(seconds: nat, i: int)
    requires 0 <= i < |MinSec(seconds)|
    ensures MinSec(seconds)[i] == ':' <==> i == |MinSec(seconds)| - 3
  {
  }

  /** Reads `m:ss` text back into seconds; anything else is rejected. */
  function ParseMinSec(s: string): (r: Option<nat>)
  {
    if |s| >= 4 && s[|s| - 3] == ':' && AllDigits(s[..|s| - 3]) && AllDigits(s[|s| - 2..])
    then Some(DecimalValue(s[..|s| - 3]) * 60 + DecimalValue(s[|s| - 2..]))
    else None
  }

  /** The minutes and seconds fields recombine into the input: `mins * 60 + secs == seconds`. */
  lemma MinSecRoundTrip(seconds: nat)
    ensures ParseMinSec(MinSec(seconds)) == Some(seconds)
  {
    var r := MinSec(seconds);
    assert AllDigits(r[..|r| - 3]);
    assert AllDigits(r[|r| - 2..]);
  }

  /** Different whole-second values never print the same. */
  lemma MinSecInjective(a: nat, b: nat)
    requires MinSec(a) == MinSec(b)
    ensures a == b
  {
    MinSecRoundTrip(a);
    MinSecRoundTrip(b);
  }
}
