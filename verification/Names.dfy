/** Collection names: `msg_box_<year>_<month>_<shard>`, their parsing by the
    cleaner, and the order of their year-month part. */
module Names {
  import opened Text

  function Digit(d: int): char
    requires 0 <= d < 10
  {
    (48 + d) as char
  }

  /** Decimal digits of `n`, zero-padded to at least `width` places. */
  function Padded(n: nat, width: nat): (s: string)
    ensures |s| >= 1 && |s| >= width
    ensures forall i :: 0 <= i < |s| ==> '0' <= s[i] <= '9'
    decreases n, width
  {
    if n < 10 && width <= 1 then [Digit(n)]
    else Padded(n / 10, if width == 0 then 0 else width - 1) + [Digit(n % 10)]
  }

  function Parse(s: string): int
  {
    if s == "" then 0 else 10 * Parse(s[..|s| - 1]) + (s[|s| - 1] as int - 48)
  }

  lemma {:induction false} ParsePadded(n: nat, width: nat)
    ensures Parse(Padded(n, width)) == n
    decreases n, width
  {
    var s := Padded(n, width);
    if n < 10 && width <= 1 {
      assert s[..0] == "";
    } else {
      var w := if width == 0 then 0 else width - 1;
      assert s[..|s| - 1] == Padded(n / 10, w);
      ParsePadded(n / 10, w);
    }
  }

  function Pow10(w: nat): nat { if w == 0 then 1 else 10 * Pow10(w - 1) }

  /** On numbers that fit, padding fixes the length and string order is number order. */
  lemma {:induction false} PaddedOrder(a: nat, b: nat, w: nat)
    requires w >= 1 && a < Pow10(w) && b < Pow10(w)
    ensures |Padded(a, w)| == |Padded(b, w)| == w
    ensures Less(Padded(a, w), Padded(b, w)) <==> a < b
    ensures Padded(a, w) == Padded(b, w) <==> a == b
    decreases w
  {
    hide Less, Parse, Padded;
    ParsePadded(a, w);
    ParsePadded(b, w);
    PaddedStep(a, w);
    PaddedStep(b, w);
    DigitOrder(a % 10, b % 10);
    if w > 1 {
      PaddedOrder(a / 10, b / 10, w - 1);
      LessConcat(Padded(a / 10, w - 1), Padded(b / 10, w - 1), [Digit(a % 10)], [Digit(b % 10)]);
    }
  }

  lemma PaddedStep(n: nat, w: nat)
    requires w >= 1 && n < Pow10(w)
    ensures w == 1 ==> n < 10 && Padded(n, w) == [Digit(n % 10)]
    ensures w > 1 ==> n / 10 < Pow10(w - 1) && Padded(n, w) == Padded(n / 10, w - 1) + [Digit(n % 10)]
  {
    if w == 1 { assert Pow10(1) == 10; }
  }

  lemma DigitOrder(a: int, b: int)
    requires 0 <= a < 10 && 0 <= b < 10
    ensures Less([Digit(a)], [Digit(b)]) <==> a < b
  {
  }

  // ----- year and month ----------------------------------------------------

  /** chrono's `%Y`: four digits, and outside 0-9999 also a sign. */
  function YearString(y: int): string
  {
    if 0 <= y <= 9999 then Padded(y, 4)
    else if y > 9999 then "+" + Padded(y, 4)
    else "-" + Padded(-y, 4)
  }

  function MonthString(m: int): string { Padded(m % 12 + 1, 2) }

  /** chrono's `%Y_%m` for month number `m`. */
  function YearMonth(m: int): string
  {
    YearString(m / 12) + "_" + MonthString(m)
  }

  function CollectionName(m: int, shard: nat): string
  {
    "msg_box_" + YearMonth(m) + "_" + Padded(shard, 1)
  }

  lemma NoUnderscore(m: int, shard: nat)
    ensures '_' !in YearString(m / 12) && '_' !in MonthString(m) && '_' !in Padded(shard, 1)
  {
  }

  /** Splitting a name always gives the same five parts, so part 3 exists. */
  lemma NameParts(m: int, shard: nat)
    ensures Split(CollectionName(m, shard), '_') ==
            ["msg", "box", YearString(m / 12), MonthString(m), Padded(shard, 1)]
  {
    NoUnderscore(m, shard);
    FiveParts(YearString(m / 12), MonthString(m), Padded(shard, 1));
  }

  lemma FiveParts(y: string, mo: string, sh: string)
    requires '_' !in y && '_' !in mo && '_' !in sh
    ensures Split("msg_box_" + (y + "_" + mo) + "_" + sh, '_') == ["msg", "box", y, mo, sh]
  {
    hide Split;
    var tail3 := mo + ['_'] + sh;
    var tail2 := y + ['_'] + tail3;
    var tail1 := "box" + ['_'] + tail2;
    SplitWhole(sh, '_');
    SplitOff(mo, sh, '_');
    SplitOff(y, tail3, '_');
    SplitOff("box", tail2, '_');
    SplitOff("msg", tail1, '_');
    assert "msg_box_" + (y + "_" + mo) + "_" + sh == "msg" + ['_'] + tail1;
  }

  /** The year-month text that the cleaner rebuilds from a name. */
  function ParsedYearMonth(name: string): string
    requires |Split(name, '_')| >= 4
  {
    Split(name, '_')[2] + "_" + Split(name, '_')[3]
  }

  function ParseYear(s: string): int
  {
    if s != "" && s[0] == '+' then Parse(s[1..])
    else if s != "" && s[0] == '-' then -Parse(s[1..])
    else Parse(s)
  }

  lemma ParseYearString(y: int)
    ensures ParseYear(YearString(y)) == y
  {
    var n := if y < 0 then -y else y;
    ParsePadded(n, 4);
    assert ("+" + Padded(n, 4))[1..] == Padded(n, 4) && ("-" + Padded(n, 4))[1..] == Padded(n, 4);
  }

  datatype Place = Place(month: int, shard: int)

  /** Reads a collection name back. */
  function ParseName(name: string): Place
    requires |Split(name, '_')| == 5
  {
    var parts := Split(name, '_');
    Place(12 * ParseYear(parts[2]) + Parse(parts[3]) - 1, Parse(parts[4]))
  }

  /** The round trip: a name gives back its month and shard, for every year. */
  lemma NameRoundTrip(m: int, shard: nat)
    ensures |Split(CollectionName(m, shard), '_')| == 5
    ensures ParseName(CollectionName(m, shard)) == Place(m, shard)
    ensures ParsedYearMonth(CollectionName(m, shard)) == YearMonth(m)
  {
    NameParts(m, shard);
    ParseYearString(m / 12);
    ParsePadded(m % 12 + 1, 2);
    ParsePadded(shard, 1);
  }

  lemma NamesInjective(m: int, shard: nat, m': int, shard': nat)
    ensures CollectionName(m, shard) == CollectionName(m', shard') <==> m == m' && shard == shard'
  {
    NameRoundTrip(m, shard);
    NameRoundTrip(m', shard');
  }

  /** For years 0 to 9999 the text order of `YYYY_MM` is the order in time. */
  lemma YearMonthOrder(m: int, m': int)
    requires 0 <= m < 12 * 10_000 && 0 <= m' < 12 * 10_000
    ensures Less(YearMonth(m), YearMonth(m')) <==> m < m'
  {
    hide Less, Padded, Pow10;
    Powers();
    PaddedOrder(m / 12, m' / 12, 4);
    PaddedOrder(m % 12 + 1, m' % 12 + 1, 2);
    TwoLevelOrder(YearString(m / 12), YearString(m' / 12), MonthString(m), MonthString(m'));
  }

  lemma Powers()
    ensures Pow10(2) == 100 && Pow10(4) == 10_000
  {
    assert Pow10(1) == 10 && Pow10(3) == 10 * Pow10(2);
  }

  lemma TwoLevelOrder(y: string, y': string, mo: string, mo': string)
    requires |y| == |y'|
    ensures Less(y + "_" + mo, y' + "_" + mo') <==> Less(y, y') || (y == y' && Less(mo, mo'))
  {
    hide Less;
    LessConcat(y + "_", y' + "_", mo, mo');
    LessConcat(y, y', "_", "_");
    LessIrreflexive("_");
    assert (y + "_")[..|y|] == y && (y' + "_")[..|y|] == y';
  }

  /** Before year 0 the minus sign sorts first: no month from 0 to 9999 comes before it. */
  lemma SignedYearFirst(m: int, m': int)
    requires 0 <= m < 12 * 10_000 && m' < 0
    ensures !Less(YearMonth(m), YearMonth(m'))
  {
    hide Padded;
    var a, b := YearMonth(m), YearMonth(m');
    assert YearString(m / 12)[0] != '-' && a[0] == YearString(m / 12)[0];
    assert b[0] == '-';
  }

  /** Beyond, the sign sorts first: January 10000 comes before December 9999. */
  lemma YearMonthOrderEndsAt9999()
    ensures Less(YearMonth(12 * 10_000), YearMonth(12 * 9_999 + 11))
  {
    assert YearString(10_000)[0] == '+';
  }
}
