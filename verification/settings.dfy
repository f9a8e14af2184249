/** The board size of connectn/consts.py: defaults of 6 rows, 7 columns and a streak of 4,
    which the command line `python connectn rows cols streak` may override. */
module Settings {
  import opened Wrappers

  const DefaultRows: int := 6
  const DefaultCols: int := 7
  const DefaultStreak: int := 4

  /** The largest number of rows or columns the command line may ask for. */
  const MaxSide: int := 20

  datatype Size = Size(rows: int, cols: int, streak: int)

  // ---------------------------------------------------------------------------
  // Decimal integers, as `int(text)` reads them and `str(n)` writes them
  // ---------------------------------------------------------------------------

  predicate IsDigit(ch: char) {
    '0' <= ch <= '9'
  }

  function DigitValue(ch: char): nat
    requires IsDigit(ch)
  {
    (ch - '0') as nat
  }

  function DigitChar(d: nat): (ch: char)
    requires d < 10
    ensures IsDigit(ch) && DigitValue(ch) == d
  {
    ('0' as int + d) as char
  }

  predicate AllDigits(s: string) {
    forall i :: 0 <= i < |s| ==> IsDigit(s[i])
  }

  /** The value of a string of decimal digits, most significant first. */
  function DigitsValue(s: string): nat
    requires AllDigits(s)
  {
    if s == [] then 0 else DigitsValue(s[..|s| - 1]) * 10 + DigitValue(s[|s| - 1])
  }

  /** `int(text)` for an optional sign followed by one or more decimal digits; `None` where
      Python raises `ValueError`. */
  function ParseInt(text: string): (v: Option<int>)
    ensures v.Some? ==> |text| > 0
    ensures v.Some? <==> (|text| > 0 && AllDigits(text))
                         || (|text| > 1 && (text[0] == '-' || text[0] == '+') && AllDigits(text[1..]))
    ensures v.Some? && text[0] == '-' ==> v.value <= 0
    ensures v.Some? && text[0] != '-' ==> v.value >= 0
  {
    if |text| > 0 && (text[0] == '-' || text[0] == '+') then
      var digits := text[1..];
      if |digits| > 0 && AllDigits(digits) then
        var magnitude: int := DigitsValue(digits);
        Some(if text[0] == '-' then -magnitude else magnitude)
      else None
    else if |text| > 0 && AllDigits(text) then Some(DigitsValue(text))
    else None
  }

  /** `str(n)` for `n >= 0`: the decimal digits without leading zeros. */
  function NatToDigits(n: nat): (s: string)
    ensures |s| > 0 && AllDigits(s)
  {
    if n < 10 then [DigitChar(n)] else NatToDigits(n / 10) + [DigitChar(n % 10)]
  }

  /** `str(n)`. */
  function IntToString(n: int): string {
    if n < 0 then "-" + NatToDigits(-n) else NatToDigits(n)
  }

  /** The digits of `n` read back as `n`. */
  lemma {:induction false} DigitsRoundTrip(n: nat)
    ensures DigitsValue(NatToDigits(n)) == n
  {
    if n >= 10 {
      DigitsRoundTrip(n / 10);
      var s := NatToDigits(n);
      assert s[..|s| - 1] == NatToDigits(n / 10);
    }
  }

  /** `int(str(n)) == n`. */
  lemma ParseShowsInt(n: int)
    ensures ParseInt(IntToString(n)) == Some(n)
  {
    var text := IntToString(n);
    if n < 0 {
      DigitsRoundTrip(-n);
      assert text[0] == '-' && text[1..] == NatToDigits(-n);
    } else {
      DigitsRoundTrip(n);
      assert IsDigit(text[0]);
    }
  }

  // ---------------------------------------------------------------------------
  // The command line
  // ---------------------------------------------------------------------------

  /** `int(sys.argv[i])`: `None` where the argument is missing (`IndexError`) or is not an
      integer (`ValueError`); both are caught by the bare `except`. */
  function Arg(argv: seq<string>, i: nat): (v: Option<int>)
    ensures i >= |argv| ==> v.None?
    ensures i < |argv| ==>
              (v.Some? <==> (|argv[i]| > 0 && AllDigits(argv[i]))
                            || (|argv[i]| > 1 && (argv[i][0] == '-' || argv[i][0] == '+') && AllDigits(argv[i][1..])))
  {
    if i < |argv| then ParseInt(argv[i]) else None
  }

  /** One of the first two arguments: used when it is an integer in `1..20`, else the default. */
  function Side(argv: seq<string>, i: nat, default: int): (side: int)
    requires 1 <= default <= MaxSide
    ensures 1 <= side <= MaxSide
    ensures Arg(argv, i).Some? && 0 < Arg(argv, i).value <= MaxSide ==> side == Arg(argv, i).value
    ensures !(Arg(argv, i).Some? && 0 < Arg(argv, i).value <= MaxSide) ==> side == default
  {
    match Arg(argv, i)
    case Some(v) => if 0 < v <= MaxSide then v else default
    case None => default
  }

  /** The board size after the module's command-line handling of `sys.argv`. The streak is
      `argv[3]` when that fits the board; otherwise the default streak, shrunk to the smaller
      side when it does not fit. */
  function BoardSize(argv: seq<string>): (size: Size)
    ensures size.rows == Side(argv, 1, DefaultRows) && size.cols == Side(argv, 2, DefaultCols)
    ensures 1 <= size.rows <= MaxSide && 1 <= size.cols <= MaxSide
    ensures 1 <= size.streak <= Min(size.rows, size.cols)
    ensures Arg(argv, 3).Some? && 0 < Arg(argv, 3).value <= Min(size.rows, size.cols) ==>
              size.streak == Arg(argv, 3).value
    ensures !(Arg(argv, 3).Some? && 0 < Arg(argv, 3).value <= Min(size.rows, size.cols)) ==>
              size.streak == Min(DefaultStreak, Min(size.rows, size.cols))
  {
    var rows := Side(argv, 1, DefaultRows);
    var cols := Side(argv, 2, DefaultCols);
    var fallback := if DefaultStreak > Min(rows, cols) then Min(rows, cols) else DefaultStreak;
    var streak :=
      match Arg(argv, 3)
      case Some(v) => if 0 < v && v <= Min(rows, cols) then v else fallback
      case None => fallback;
    Size(rows, cols, streak)
  }

  /** Without arguments the board is the standard 6 by 7 board with a streak of 4. */
  lemma NoArgumentsGiveDefaults(program: string)
    ensures BoardSize([program]) == Size(DefaultRows, DefaultCols, DefaultStreak)
  {
  }

  /** Every size the command line may ask for is honoured when written in decimal:
      `python connectn rows cols streak` gives exactly that board. */
  lemma ValidArgumentsAreUsed(program: string, rows: int, cols: int, streak: int)
    requires 1 <= rows <= MaxSide && 1 <= cols <= MaxSide && 1 <= streak <= Min(rows, cols)
    ensures BoardSize([program, IntToString(rows), IntToString(cols), IntToString(streak)]) == Size(rows, cols, streak)
  {
    ParseShowsInt(rows);
    ParseShowsInt(cols);
    ParseShowsInt(streak);
  }
}
