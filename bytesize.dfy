/**
  `formatBytes` (script.js lines 31-36): a byte count shown as a number of
  Bytes, KB, MB or GB. The unit is chosen by base-1024 bucketing; the model
  does the bucketing with exact integers and keeps the divisor, leaving the
  two-decimal number text aside.
 */
module ByteSize {

  /** The unit table, `sizes`. */
  const Units: seq<string> := ["Bytes", "KB", "MB", "GB"]

  /** `1024^i`. */
  function Pow1024(i: nat): (r: nat)
    ensures r >= 1
  {
    if i == 0 then 1 else 1024 * Pow1024(i - 1)
  }

  /** The bucket of a positive byte count, computed by repeated division:
      the exponent `i` with `1024^i <= bytes < 1024^(i+1)`. */
  function UnitIndex(bytes: nat): (i: nat)
    requires bytes > 0
    ensures Pow1024(i) <= bytes < Pow1024(i + 1)
  {
    if bytes < 1024 then 0
    else
      var j := UnitIndex(bytes / 1024);
      assert Pow1024(j + 1) == 1024 * Pow1024(j);
      assert Pow1024(j + 2) == 1024 * Pow1024(j + 1);
      assert 1024 * Pow1024(j) <= 1024 * (bytes / 1024) <= bytes;
      assert bytes < 1024 * (bytes / 1024 + 1) <= 1024 * Pow1024(j + 1);
      j + 1
  }

  /** Powers of 1024 grow strictly. */
  lemma {:induction false} Pow1024Monotonic(i: nat, j: nat)
    requires i < j
    ensures Pow1024(i) < Pow1024(j)
    decreases j
  {
    if i + 1 < j {
      Pow1024Monotonic(i, j - 1);
    }
  }

  /** The bucket is the only exponent that brackets the byte count, so it is
      the largest `i` with `1024^i <= bytes`. */
  lemma UnitIndexUnique(bytes: nat, i: nat)
    requires bytes > 0
    requires Pow1024(i) <= bytes < Pow1024(i + 1)
    ensures i == UnitIndex(bytes)
  {
    var k := UnitIndex(bytes);
    if i < k {
      if i + 1 < k { Pow1024Monotonic(i + 1, k); }
    } else if k < i {
      if k + 1 < i { Pow1024Monotonic(k + 1, i); }
    }
  }

  /** `sizes[i]`, which is `undefined` past the end of the table. */
  function UnitName(i: nat): (u: string)
    ensures u == "undefined" <==> i >= |Units|
    ensures i < |Units| ==> u == Units[i]
  {
    if i < |Units| then Units[i] else "undefined"
  }

  /** What `formatBytes` produces: the literal text "0 Bytes" for zero, and
      otherwise `bytes / divisor` (to two decimals) followed by a unit. */
  datatype SizeText =
    | ZeroBytes
    | Scaled(bytes: nat, divisor: nat, unit: string)

  function FormatBytes(bytes: nat): (r: SizeText)
    ensures r.ZeroBytes? <==> bytes == 0
    ensures r.Scaled? ==>
      && r.bytes == bytes
      && r.divisor == Pow1024(UnitIndex(bytes))
      && r.unit == UnitName(UnitIndex(bytes))
      && r.divisor <= bytes < 1024 * r.divisor
  {
    if bytes == 0 then ZeroBytes
    else
      var i := UnitIndex(bytes);
      Scaled(bytes, Pow1024(i), UnitName(i))
  }

  /** The chosen unit stays inside the four-entry table exactly when the
      byte count is below `1024^4`; from 1 TiB on it reads "undefined". */
  lemma UnitWithinTable(bytes: nat)
    requires bytes > 0
    ensures UnitIndex(bytes) < |Units| <==> bytes < Pow1024(4)
    ensures FormatBytes(bytes).unit == "undefined" <==> bytes >= Pow1024(4)
  {
    var i := UnitIndex(bytes);
    if i < 4 {
      if i < 3 { Pow1024Monotonic(i + 1, 4); }
    } else {
      if i > 4 { Pow1024Monotonic(4, i); }
    }
  }

  /** Examples: 1024 and 1536 are in KB, 2^20 is 1 MB, 2^30 is 1 GB. */
  lemma FormatBytesExamples()
    ensures FormatBytes(1024) == Scaled(1024, 1024, "KB")
    ensures FormatBytes(1536) == Scaled(1536, 1024, "KB")
    ensures FormatBytes(1048576) == Scaled(1048576, 1048576, "MB")
    ensures FormatBytes(1073741824) == Scaled(1073741824, 1073741824, "GB")
    ensures FormatBytes(1023) == Scaled(1023, 1, "Bytes")
  {
    assert Pow1024(3) == 1073741824;
    UnitIndexUnique(1024, 1);
    UnitIndexUnique(1536, 1);
    assert Pow1024(2) == 1048576;
    UnitIndexUnique(1048576, 2);
    UnitIndexUnique(1073741824, 3);
    UnitIndexUnique(1023, 0);
  }
}
