/** The object keys the pipeline writes: `temp_csv/<name>.csv` for its
    intermediate tables and `result/result_<timestamp>.xlsx` for a result. */
module Naming {

  const TempPrefix := "temp_csv/"
  const ResultPrefix := "result/"

  function Digit(d: nat): (c: char)
    requires d < 10
    ensures '0' <= c <= '9'
  {
    (48 + d) as char
  }

  function DigitValue(c: char): nat
  {
    if '0' <= c <= '9' then c as int - 48 else 0
  }

  /** `str(n)` for a natural number: its decimal digits, no leading zero. */
  function NatToString(n: nat): (s: string)
    ensures |s| >= 1
    ensures forall i :: 0 <= i < |s| ==> '0' <= s[i] <= '9'
  {
    if n < 10 then [Digit(n)] else NatToString(n / 10) + [Digit(n % 10)]
  }

  /** The number a string of decimal digits denotes. */
  function ParseNat(s: string): nat
  {
    if s == [] then 0 else ParseNat(s[..|s| - 1]) * 10 + DigitValue(s[|s| - 1])
  }

  lemma {:induction false} ParseNatToString(n: nat)
    ensures ParseNat(NatToString(n)) == n
  {
    if n >= 10 {
      ParseNatToString(n / 10);
      var s := NatToString(n);
      assert s[..|s| - 1] == NatToString(n / 10);
    }
  }

  /** Different counters give different names. */
  lemma NatToStringInjective(a: nat, b: nat)
    requires NatToString(a) == NatToString(b)
    ensures a == b
  {
    ParseNatToString(a);
    ParseNatToString(b);
  }

  /** `f'temp_csv/{name}.csv'`, the key `save_csv_to_aws` writes. */
  function TempKey(name: string): (k: string)
    ensures TempPrefix <= k
  {
    TempPrefix + name + ".csv"
  }

  const MyShopKey := TempKey("my_shop")
  const JoinedKey := TempKey("joined_table")

  /** The key of the `i`-th competitor table, `temp_csv/table_<i>.csv`. */
  function TableKey(i: nat): string
  {
    TempKey("table_" + NatToString(i))
  }

  /** Competitor keys differ from one another and from the primary's and the
      joined table's keys. */
  lemma TableKeysDistinct(i: nat, j: nat)
    ensures TableKey(i) == TableKey(j) ==> i == j
    ensures TableKey(i) != MyShopKey && TableKey(i) != JoinedKey
  {
    assert TableKey(i)[9] == 't';
    assert MyShopKey[9] == 'm' && JoinedKey[9] == 'j';
    if TableKey(i) == TableKey(j) {
      var a, b := NatToString(i), NatToString(j);
      assert |a| == |b|;
      assert a == TableKey(i)[15..15 + |a|];
      assert b == TableKey(j)[15..15 + |b|];
      NatToStringInjective(i, j);
    }
  }

  /** A local date and time as `datetime.now()` gives it, to the second. */
  datatype DateTime = DateTime(year: int, month: int, day: int, hour: int, minute: int, second: int) {
    predicate Valid() {
      && 1 <= year <= 9999 && 1 <= month <= 12 && 1 <= day <= 31
      && 0 <= hour < 24 && 0 <= minute < 60 && 0 <= second < 60
    }
  }

  type Timestamp = t: DateTime | t.Valid() witness DateTime(1, 1, 1, 0, 0, 0)

  /** The last `w` decimal digits of `n`, zero-padded (strftime's `%d`, `%m`,
      `%H`, `%M`, `%S` with w = 2 and `%Y` with w = 4). */
  function Padded(n: nat, w: nat): (s: string)
    ensures |s| == w
    ensures forall i :: 0 <= i < w ==> '0' <= s[i] <= '9'
  {
    if w == 0 then [] else Padded(n / 10, w - 1) + [Digit(n % 10)]
  }

  function Pow10(w: nat): nat
  {
    if w == 0 then 1 else 10 * Pow10(w - 1)
  }

  lemma {:induction false} ParsePadded(n: nat, w: nat)
    requires n < Pow10(w)
    ensures ParseNat(Padded(n, w)) == n
  {
    if w > 0 {
      ParsePadded(n / 10, w - 1);
      var s := Padded(n, w);
      assert s[..|s| - 1] == Padded(n / 10, w - 1);
    }
  }

  /** `now.strftime('%d_%m_%Y__%H_%M_%S')`. */
  function FormatTimestamp(t: Timestamp): (s: string)
    ensures |s| == 20
  {
    Padded(t.day, 2) + "_" + Padded(t.month, 2) + "_" + Padded(t.year, 4) + "__"
      + Padded(t.hour, 2) + "_" + Padded(t.minute, 2) + "_" + Padded(t.second, 2)
  }

  /** The fields read back from the digit positions of a formatted timestamp. */
  function ParseTimestamp(s: string): DateTime
    requires |s| == 20
  {
    DateTime(ParseNat(s[6..10]), ParseNat(s[3..5]), ParseNat(s[0..2]),
             ParseNat(s[12..14]), ParseNat(s[15..17]), ParseNat(s[18..20]))
  }

  lemma FormatTimestampRoundTrip(t: Timestamp)
    ensures ParseTimestamp(FormatTimestamp(t)) == t
  {
    var s := FormatTimestamp(t);
    assert s[0..2] == Padded(t.day, 2);
    assert s[3..5] == Padded(t.month, 2);
    assert s[6..10] == Padded(t.year, 4);
    assert s[12..14] == Padded(t.hour, 2);
    assert s[15..17] == Padded(t.minute, 2);
    assert s[18..20] == Padded(t.second, 2);
    assert Pow10(2) == 100 && Pow10(4) == 10000;
    ParsePadded(t.day, 2);
    ParsePadded(t.month, 2);
    ParsePadded(t.year, 4);
    ParsePadded(t.hour, 2);
    ParsePadded(t.minute, 2);
    ParsePadded(t.second, 2);
  }

  /** `f'result/result_{cur_date}.xlsx'`, the key `save_xlsx_to_aws` writes
      and returns. */
  function ResultKey(t: Timestamp): string
  {
    ResultPrefix + "result_" + FormatTimestamp(t) + ".xlsx"
  }

  /** The result key names its second: two different seconds give two
      different keys, and a result key never lies under `temp_csv/`. */
  lemma ResultKeyProperties(a: Timestamp, b: Timestamp)
    ensures ResultKey(a) == ResultKey(b) ==> a == b
    ensures |ResultKey(a)| == 39 && ResultPrefix <= ResultKey(a)
    ensures !(TempPrefix <= ResultKey(a))
  {
    assert ResultKey(a)[0] == 'r';
    if ResultKey(a) == ResultKey(b) {
      assert FormatTimestamp(a) == ResultKey(a)[14..34];
      assert FormatTimestamp(b) == ResultKey(b)[14..34];
      FormatTimestampRoundTrip(a);
      FormatTimestampRoundTrip(b);
    }
  }
}
