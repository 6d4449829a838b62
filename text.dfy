/**
 * The string helpers the record projection relies on: Python's `",".join`,
 * its inverse `str.split(",")`, and `str(int)` with its inverse `int(str)`.
 */
module Text {

  /** Sum of the lengths of `parts`. */
  function TotalLength(parts: seq<string>): nat
    decreases |parts|
  {
    if |parts| == 0 then 0 else |parts[0]| + TotalLength(parts[1..])
  }

  /** `",".join(parts)`: the parts with one comma between each two and nothing else added. */
  function Join(parts: seq<string>): (r: string)
    ensures |parts| > 0 ==> |r| == TotalLength(parts) + |parts| - 1
    decreases |parts|
  {
    if |parts| == 0 then ""
    else if |parts| == 1 then parts[0]
    else parts[0] + "," + Join(parts[1..])
  }

  /** The join is empty exactly for no parts or a single empty part. */
  lemma JoinIsEmpty(parts: seq<string>)
    ensures Join(parts) == "" <==> parts == [] || parts == [""]
  {
    if |parts| >= 2 {
      assert Join(parts)[|parts[0]|] == ',';
    } else if |parts| == 1 {
      assert parts == [parts[0]];
    }
  }

  /** Index of the first comma of `s`. */
  function FirstComma(s: string): (i: nat)
    requires ',' in s
    ensures i < |s| && s[i] == ',' && ',' !in s[..i]
  {
    if s[0] == ',' then 0
    else
      var i := 1 + FirstComma(s[1..]);
      assert s[..i] == [s[0]] + s[1..][..i - 1];
      i
  }

  /** `s.split(",")`: the comma-free pieces of `s`, in order. */
  function Split(s: string): (parts: seq<string>)
    ensures |parts| > 0
    decreases |s|
  {
    if ',' !in s then [s]
    else
      var i := FirstComma(s);
      [s[..i]] + Split(s[i + 1..])
  }

  predicate CommaFree(parts: seq<string>) {
    forall k :: 0 <= k < |parts| ==> ',' !in parts[k]
  }

  /** The first comma of `p + "," + rest` is the one after `p` when `p` has none. */
  lemma CommaAfter(p: string, rest: string)
    requires ',' !in p
    ensures var s := p + "," + rest;
            && ',' in s && FirstComma(s) == |p|
            && s[..|p|] == p && s[|p| + 1..] == rest
  {
    var s := p + "," + rest;
    assert s[|p|] == ',';
    assert s[..|p|] == p;
    var i := FirstComma(s);
    assert forall k :: 0 <= k < |p| ==> s[k] == s[..|p|][k];
    assert forall k :: 0 <= k < i ==> s[k] == s[..i][k];
    assert s[|p| + 1..] == rest;
  }

  /** Splitting a join of comma-free parts gives the parts back. */
  lemma {:induction false} SplitJoin(parts: seq<string>)
    requires |parts| > 0 && CommaFree(parts)
    ensures Split(Join(parts)) == parts
    decreases |parts|
  {
    if |parts| == 1 {
      assert Join(parts) == parts[0];
    } else {
      var p, rest := parts[0], Join(parts[1..]);
      assert Join(parts) == p + "," + rest;
      CommaAfter(p, rest);
      assert CommaFree(parts[1..]) by {
        assert forall k :: 0 <= k < |parts| - 1 ==> parts[1..][k] == parts[k + 1];
      }
      SplitJoin(parts[1..]);
      var s := p + "," + rest;
      assert Split(s) == [s[..|p|]] + Split(s[|p| + 1..]);
      assert parts == [p] + parts[1..];
    }
  }

  predicate IsDigit(c: char) {
    '0' <= c <= '9'
  }

  /** The character of a decimal digit. */
  function DigitChar(d: nat): (c: char)
    requires d < 10
    ensures IsDigit(c)
  {
    ('0' as int + d) as char
  }

  /** `str(n)` for `n >= 0`. */
  function NatToDecimal(n: nat): (s: string)
    ensures |s| > 0 && forall k :: 0 <= k < |s| ==> IsDigit(s[k])
    decreases n
  {
    if n < 10 then [DigitChar(n)] else NatToDecimal(n / 10) + [DigitChar(n % 10)]
  }

  /** `str(n)`: decimal digits, with a leading `-` for a negative number. */
  function IntToDecimal(n: int): (s: string)
    ensures |s| > 0 && ',' !in s
  {
    if n < 0 then "-" + NatToDecimal(-n) else NatToDecimal(n)
  }

  /** Value of a digit character. */
  function DigitValue(c: char): (d: nat)
    requires IsDigit(c)
    ensures d < 10 && DigitChar(d) == c
  {
    c as int - '0' as int
  }

  /** `int(s)` for a string of digits. */
  function DecimalToNat(s: string): nat
    requires forall k :: 0 <= k < |s| ==> IsDigit(s[k])
    decreases |s|
  {
    if |s| == 0 then 0 else 10 * DecimalToNat(s[..|s| - 1]) + DigitValue(s[|s| - 1])
  }

  /** `int(s)` for a string that `IntToDecimal` can produce. */
  function DecimalToInt(s: string): int
    requires IsDecimal(s)
  {
    if s[0] == '-' then -(DecimalToNat(s[1..]) as int) else DecimalToNat(s)
  }

  lemma {:induction false} NatDecimalRoundTrip(n: nat)
    ensures DecimalToNat(NatToDecimal(n)) == n
    decreases n
  {
    if n >= 10 {
      var s := NatToDecimal(n);
      NatDecimalRoundTrip(n / 10);
      assert s[..|s| - 1] == NatToDecimal(n / 10);
      assert DigitValue(s[|s| - 1]) == n % 10;
    }
  }

  /** A string `DecimalToInt` accepts. */
  predicate IsDecimal(s: string) {
    && |s| > 0
    && (s[0] == '-' || IsDigit(s[0]))
    && (forall k :: 0 < k < |s| ==> IsDigit(s[k]))
  }

  /** `int(str(n)) == n`. */
  lemma DecimalRoundTrip(n: int)
    ensures IsDecimal(IntToDecimal(n)) && DecimalToInt(IntToDecimal(n)) == n
  {
    var s := IntToDecimal(n);
    if n < 0 {
      var t := NatToDecimal(-n);
      assert s == "-" + t;
      assert s[1..] == t;
      assert forall k :: 0 < k < |s| ==> s[k] == t[k - 1];
      NatDecimalRoundTrip(-n);
    } else {
      NatDecimalRoundTrip(n);
    }
  }

  /** `[str(x) for x in xs]`. */
  function DecimalAll(xs: seq<int>): (r: seq<string>)
    ensures |r| == |xs| && CommaFree(r)
    ensures forall k :: 0 <= k < |xs| ==> r[k] == IntToDecimal(xs[k])
  {
    seq(|xs|, k requires 0 <= k < |xs| => IntToDecimal(xs[k]))
  }

  /** `[int(p) for p in s.split(",")]`; a piece that is not a number reads as 0 (never the case for joined ids). */
  function ParseIds(s: string): seq<int>
  {
    var parts := Split(s);
    seq(|parts|, k requires 0 <= k < |parts| =>
      if IsDecimal(parts[k]) then DecimalToInt(parts[k]) else 0)
  }

  /** A non-empty list of ids survives `",".join(str(x) ...)` followed by parsing. */
  lemma JoinedIdsRoundTrip(ids: seq<int>)
    requires |ids| > 0
    ensures ParseIds(Join(DecimalAll(ids))) == ids
  {
    var parts := DecimalAll(ids);
    SplitJoin(parts);
    forall k | 0 <= k < |ids| ensures ParseIds(Join(parts))[k] == ids[k] {
      DecimalRoundTrip(ids[k]);
    }
  }

  lemma JoinedIdsReadBack(ids: seq<int>)
    ensures ids != [] ==> ParseIds(Join(DecimalAll(ids))) == ids
  {
    if ids != [] {
      JoinedIdsRoundTrip(ids);
    }
  }

  /** Decimal strings are never empty, so the joined ids are empty exactly when there are none. */
  lemma JoinedIdsEmpty(ids: seq<int>)
    ensures Join(DecimalAll(ids)) == "" <==> ids == []
  {
    JoinIsEmpty(DecimalAll(ids));
    if |ids| == 1 {
      assert DecimalAll(ids)[0] != "";
    }
  }

  /** `",".join(str(x) for x in ids)`: empty exactly for no ids, and the ids can be read back. */
  function JoinIds(ids: seq<int>): (r: string)
    ensures r == "" <==> ids == []
    ensures ids != [] ==> ParseIds(r) == ids
  {
    JoinedIdsEmpty(ids);
    JoinedIdsReadBack(ids);
    Join(DecimalAll(ids))
  }
}
