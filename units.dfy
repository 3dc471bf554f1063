// Byte-unit formatting of directory sizes (formatByUnit in filesum.go).
//
// The Go loop walks once over the units KB, MB, GB and divides the running
// value by 1024 whenever it is still at least 1024. The closed form below
// (thresholds at powers of 1024) is the reference the loop is proved against.
module Units {

  const KiB := 1024
  const MiB := 1024 * 1024
  const GiB := 1024 * 1024 * 1024

  /** The unit labels, in the order the loop may reach them; there is no TB. */
  const UnitNames: seq<string> := ["byte", "KB", "MB", "GB"]

  /** 1024 raised to k, for the four units. */
  function Scale(k: nat): (p: int)
    requires k < 4
    ensures p >= 1
  {
    [1, KiB, MiB, GiB][k]
  }

  /** Index of the unit a size is reported in: the largest k <= 3 with 1024^k <= size. */
  function UnitIndex(size: int): (k: nat)
    ensures k < 4
    ensures k > 0 ==> size >= Scale(k)
    ensures k < 3 ==> size < Scale(k) * KiB
  {
    if size < KiB then 0
    else if size < MiB then 1
    else if size < GiB then 2
    else 3
  }

  /** The number that is printed: the size divided (truncating) by 1024^k. */
  function ScaledValue(size: int): int {
    size / Scale(UnitIndex(size))
  }

  function UnitName(size: int): string {
    UnitNames[UnitIndex(size)]
  }

  /** Decimal rendering of an integer, as Go's %d verb writes it: a minus sign only for negatives. */
  function DecimalString(n: int): string {
    if n < 0 then "-" + Digits(-n) else Digits(n)
  }

  /** The decimal digits of n, most significant first. */
  function Digits(n: nat): (s: string)
    ensures |s| >= 1
  {
    if n < 10 then [DigitChar(n)] else Digits(n / 10) + [DigitChar(n % 10)]
  }

  function DigitChar(d: nat): (c: char)
    requires d < 10
    ensures IsDigit(c) && DigitValue(c) == d
  {
    "0123456789"[d]
  }

  predicate IsDigit(c: char) {
    '0' <= c <= '9'
  }

  function DigitValue(c: char): int {
    c as int - '0' as int
  }

  /** Reads a string of decimal digits back, most significant first. */
  function DigitsValue(s: string): int {
    if s == [] then 0 else DigitsValue(s[..|s| - 1]) * 10 + DigitValue(s[|s| - 1])
  }

  /** Digits writes only decimal digits, and no leading zero. */
  lemma {:induction false} DigitsWellFormed(n: nat)
    ensures forall k :: 0 <= k < |Digits(n)| ==> IsDigit(Digits(n)[k])
    ensures Digits(n)[0] == '0' ==> n == 0
  {
    if n >= 10 {
      DigitsWellFormed(n / 10);
      var s := Digits(n);
      assert forall k :: 0 <= k < |s| - 1 ==> s[k] == Digits(n / 10)[k];
    }
  }

  /** %d writes a leading minus sign exactly for negative values, then only digits. */
  lemma DecimalSign(n: int)
    ensures |DecimalString(n)| >= 1
    ensures DecimalString(n)[0] == '-' <==> n < 0
    ensures forall k :: 1 <= k < |DecimalString(n)| ==> IsDigit(DecimalString(n)[k])
  {
    DigitsWellFormed(if n < 0 then -n else n);
  }

  /** Reads back what DecimalString writes: an optional minus sign, then digits. */
  function ParseDecimal(s: string): int {
    if s != [] && s[0] == '-' then -DigitsValue(s[1..]) else DigitsValue(s)
  }

  lemma {:induction false} DigitsRoundTrip(n: nat)
    ensures DigitsValue(Digits(n)) == n
  {
    if n >= 10 {
      var s := Digits(n);
      assert s[..|s| - 1] == Digits(n / 10);
      DigitsRoundTrip(n / 10);
    }
  }

  /** The decimal text of every integer reads back as that integer. */
  lemma DecimalRoundTrip(n: int)
    ensures ParseDecimal(DecimalString(n)) == n
  {
    if n < 0 {
      DigitsRoundTrip(-n);
      assert DecimalString(n)[1..] == Digits(-n);
    } else {
      DigitsRoundTrip(n);
      DigitsWellFormed(n);
    }
  }

  /** The string formatByUnit returns: "<value> <unit>". */
  function Label(size: int): string {
    DecimalString(ScaledValue(size)) + " " + UnitName(size)
  }

  /**
   * One step of the loop: the value is still at least 1024 exactly when the
   * size reaches the next unit, and dividing it once more is dividing the
   * size by the next power of 1024.
   */
  lemma NextUnitStep(size: int, k: nat)
    requires size >= 0 && k < 3
    ensures size / Scale(k) >= KiB <==> size >= Scale(k + 1)
    ensures size / Scale(k) / KiB == size / Scale(k + 1)
  {
    if k == 0 {
    } else if k == 1 {
      assert size / 1024 / 1024 == size / 1048576;
    } else {
      assert size / 1048576 / 1024 == size / 1073741824;
    }
  }

  /**
   * formatByUnit (filesum.go:59-70): one pass over KB, MB, GB, dividing by
   * 1024 (Go's truncating division; the operand is positive there) while
   * the value is still at least 1024.
   */
  method FormatByUnit(size: int) returns (s: string)
    ensures s == Label(size)
  {
    var value := size;
    var unit := "byte";
    var units := ["KB", "MB", "GB"];
    var i := 0;
    while i < |units|
      invariant 0 <= i <= 3
      invariant var k := if UnitIndex(size) < i then UnitIndex(size) else i;
        value == size / Scale(k) && unit == UnitNames[k]
    {
      var k := if UnitIndex(size) < i then UnitIndex(size) else i;
      if size >= 0 && k < 3 {
        NextUnitStep(size, k);
      }
      if value >= 1024 {
        value := value / 1024;
        unit := units[i];
      }
      i := i + 1;
    }
    s := DecimalString(value) + " " + unit;
  }

  /**
   * Sizes below 1024 (negative ones included) come back unchanged, in bytes;
   * for a non-negative size the value printed is non-negative and below
   * 1024 unless the unit is GB, the last one.
   */
  lemma FormattedRange(size: int)
    ensures size < KiB ==> ScaledValue(size) == size && UnitName(size) == "byte"
    ensures size >= 0 ==> 0 <= ScaledValue(size)
    ensures size >= 0 && UnitName(size) != "GB" ==> ScaledValue(size) < KiB
  {
    var k := UnitIndex(size);
    if size >= 0 && k < 3 {
      NextUnitStep(size, k);
    }
  }

  /** Worked values in bytes: nothing is divided below 1024. */
  lemma LabelExamplesBytes()
    ensures Label(0) == "0 byte"
    ensures Label(1023) == "1023 byte"
  {
    assert UnitName(0) == "byte" && UnitName(1023) == "byte";
    assert ScaledValue(0) == 0 && ScaledValue(1023) == 1023;
    assert Digits(0) == "0";
    assert Digits(10) == "10";
    assert Digits(102) == "102";
    assert Digits(1023) == "1023";
  }

  /** Worked values in KB and MB: the division truncates at every step. */
  lemma LabelExamplesScaled()
    ensures Label(1024) == "1 KB"
    ensures Label(1048576) == "1 MB"
    ensures Label(1500000) == "1 MB"
    ensures Label(20000000) == "19 MB"
  {
    assert UnitName(1024) == "KB" && ScaledValue(1024) == 1;
    assert UnitName(1048576) == "MB" && ScaledValue(1048576) == 1;
    assert UnitName(1500000) == "MB" && ScaledValue(1500000) == 1;
    assert UnitName(20000000) == "MB" && ScaledValue(20000000) == 19;
    assert Digits(1) == "1";
    assert Digits(19) == "19";
  }

  /** Worked values in GB: the last unit, so the value may exceed 1023. */
  lemma LabelExamplesGB()
    ensures Label(10000000000) == "9 GB"
    ensures Label(5000000000000) == "4656 GB"
  {
    assert UnitName(10000000000) == "GB" && ScaledValue(10000000000) == 9;
    assert UnitName(5000000000000) == "GB" && ScaledValue(5000000000000) == 4656;
    assert Digits(9) == "9";
    assert Digits(46) == "46";
    assert Digits(465) == "465";
    assert Digits(4656) == "4656";
  }
}
