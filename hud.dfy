/** The text the game prints on row 1: the help line and the score readout
    `"Score: %3d"`, right-aligned so that its last character is on column 80. */
module Hud {
  import opened Screen

  const HelpText: string := "Press 'q' to quit, 'r' to restart. Press enter to hop."

  function DigitChar(d: nat): (ch: char)
    requires d < 10
    ensures '0' <= ch <= '9'
  {
    "0123456789"[d]
  }

  function DigitValue(ch: char): (d: nat)
    requires '0' <= ch <= '9'
    ensures d < 10
  {
    (ch as int) - ('0' as int)
  }

  /** The decimal digits of n, most significant first, without leading zeros. */
  function Decimal(n: nat): (s: string)
    ensures 1 <= |s|
    ensures forall k :: 0 <= k < |s| ==> '0' <= s[k] <= '9'
    ensures |s| > 1 ==> s[0] != '0'
  {
    if n < 10 then [DigitChar(n)] else Decimal(n / 10) + [DigitChar(n % 10)]
  }

  /** The value of a string of decimal digits. */
  function DecimalValue(s: string): nat
    requires forall k :: 0 <= k < |s| ==> '0' <= s[k] <= '9'
  {
    if s == [] then 0 else 10 * DecimalValue(s[..|s| - 1]) + DigitValue(s[|s| - 1])
  }

  /** Reading back the digits gives the number. */
  lemma {:induction false} DecimalRoundTrip(n: nat)
    ensures DecimalValue(Decimal(n)) == n
  {
    var s := Decimal(n);
    if n < 10 {
      assert s[..0] == [];
    } else {
      assert s[..|s| - 1] == Decimal(n / 10);
      DecimalRoundTrip(n / 10);
      assert DigitValue(DigitChar(n % 10)) == n % 10;
    }
  }

  /** Different scores print differently. */
  lemma DecimalInjective(m: nat, n: nat)
    requires Decimal(m) == Decimal(n)
    ensures m == n
  {
    DecimalRoundTrip(m);
    DecimalRoundTrip(n);
  }

  /** `%3d` of a non-negative value: the digits, left-padded with spaces to width 3. */
  function Pad3(digits: string): (s: string)
    ensures |s| == if |digits| < 3 then 3 else |digits|
    ensures s[|s| - |digits|..] == digits
    ensures forall k :: 0 <= k < |s| - |digits| ==> s[k] == ' '
  {
    if |digits| < 3 then seq(3 - |digits|, _ => ' ') + digits else digits
  }

  function ScoreText(points: nat): string {
    "Score: " + Pad3(Decimal(points))
  }

  /** The 1-based column the score is printed from: `SCREEN_W - len + 1`. */
  function ScoreColumn(points: nat): int {
    W - |ScoreText(points)| + 1
  }

  /** The readout is printed in full and its last character lands on column 80;
      it holds the score's digits after "Score: " and at least three characters of them. */
  lemma ScoreRightAligned(points: nat)
    ensures var s := ScoreText(points);
            && PrintableLen(s) == |s|
            && ScoreColumn(points) + PrintableLen(s) - 1 == W
            && |s| >= 10
            && s[..7] == "Score: "
            && DecimalValue(s[|s| - |Decimal(points)|..]) == points
  {
    var s := ScoreText(points);
    var p := Pad3(Decimal(points));
    assert s[7..] == p;
    forall k | 0 <= k < |s|
      ensures !IsCntrl(s[k])
    {
      if k >= 7 {
        assert s[k] == p[k - 7];
        if k - 7 >= |p| - |Decimal(points)| {
          assert p[k - 7] == p[|p| - |Decimal(points)|..][k - 7 - (|p| - |Decimal(points)|)];
        }
      }
    }
    PrintableLenAll(s);
    assert s[|s| - |Decimal(points)|..] == p[|p| - |Decimal(points)|..];
    DecimalRoundTrip(points);
  }

  /** The largest value of the C code's `int` score counter. */
  const INT_MAX: int := 0x7fff_ffff

  function Pow10(k: nat): (p: nat)
    ensures p >= 1
  {
    if k == 0 then 1 else 10 * Pow10(k - 1)
  }

  /** A number below 10^k has at most k digits. */
  lemma {:induction false} DecimalLength(n: nat, k: nat)
    requires 1 <= k && n < Pow10(k)
    ensures |Decimal(n)| <= k
  {
    if n >= 10 {
      assert k >= 2;
      assert n / 10 < Pow10(k - 1);
      DecimalLength(n / 10, k - 1);
    }
  }

  /** Every score an `int` can hold is at most ten digits, so the readout is at
      most 17 characters and starts at column 64 or later. */
  lemma ScoreOnScreen(points: nat)
    requires points <= INT_MAX
    ensures 64 <= ScoreColumn(points) <= W - 9
  {
    assert Pow10(10) == 10_000_000_000;
    DecimalLength(points, 10);
  }

  /** The effect of the two `print` calls of a frame: the help line from
      column 1, then the score readout. */
  function HudOver(points: nat, R: int, C: int, cell: Cell): Cell {
    PrintOver(1, ScoreColumn(points), ScoreText(points), R, C,
              PrintOver(1, 1, HelpText, R, C, cell))
  }

  /** The text is all on row 1: every other row is left as it was. */
  lemma HudOffRow1(points: nat, R: int, C: int, cell: Cell)
    requires R != 0
    ensures HudOver(points, R, C, cell) == cell
  {
  }

  /** The last digit of a number is its units digit. */
  lemma DecimalLast(n: nat)
    ensures Decimal(n)[|Decimal(n)| - 1] == DigitChar(n % 10)
  {
  }

  /** The last character the score print writes is cell (1, 80), and it is the units digit. */
  lemma ScoreLastCell(points: nat, cell: Cell)
    requires points <= INT_MAX
    ensures PrintOver(1, ScoreColumn(points), ScoreText(points), 0, W - 1, cell).glyph == DigitChar(points % 10)
  {
    ScoreRightAligned(points);
    ScoreOnScreen(points);
    var s := ScoreText(points);
    var d := Decimal(points);
    assert s[|s| - 1] == d[|d| - 1] by {
      assert s[7..] == Pad3(d);
    }
    DecimalLast(points);
  }

  /** Cell (1, 80) shows the score's units digit, whatever was drawn before. */
  lemma ScoreInCorner(points: nat, cell: Cell)
    requires points <= INT_MAX
    ensures HudOver(points, 0, W - 1, cell).glyph == DigitChar(points % 10)
  {
    ScoreLastCell(points, PrintOver(1, 1, HelpText, 0, W - 1, cell));
  }
}
