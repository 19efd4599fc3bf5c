/** How PMSS.java chooses the number of auxiliary files from the size of
    the input file. */
module Sizing {

  const Megabyte := 1024 * 1024

  /** Euclidean division of a non-negative dividend: q * b is the largest
      multiple of b not above a. */
  lemma DivBounds(a: int, b: int)
    requires a >= 0 && b > 0
    ensures 0 <= a / b && (a / b) * b <= a < (a / b) * b + b
  {
    var q, r := a / b, a % b;
    assert a == q * b + r && 0 <= r < b;
  }

  /** Java's int division, which truncates toward zero: the quotient has the
      sign of the dividend, and q * b lies within one divisor of a on the side
      of zero. */
  function TruncatingDiv(a: int, b: int): (q: int)
    requires b > 0
    ensures a >= 0 ==> 0 <= q && q * b <= a < q * b + b
    ensures a < 0 ==> q <= 0 && q * b - b < a <= q * b
  {
    if a >= 0 then
      DivBounds(a, b);
      a / b
    else
      var m := (-a) / b;
      DivBounds(-a, b);
      assert (-m) * b == -(m * b);
      -m
  }

  /** Java's (int) cast of a long: the low 32 bits, two's complement. */
  function IntCast(x: int): (y: int)
    ensures -0x8000_0000 <= y < 0x8000_0000
    ensures (y - x) % 0x1_0000_0000 == 0
  {
    var low := x % 0x1_0000_0000;
    if low >= 0x8000_0000 then low - 0x1_0000_0000 else low
  }

  /** getFileSizeMegaBytes as written (PMSS.java:78-80): the cast to int
      binds tighter than the division, so the byte length is truncated to 32
      bits before it is divided. */
  function MegabytesAsWritten(length: int): int
    requires 0 <= length
  {
    TruncatingDiv(IntCast(length), Megabyte)
  }

  /** The evidently intended size: whole megabytes, rounded down. */
  function Megabytes(length: int): (mb: int)
    requires 0 <= length
    ensures mb * Megabyte <= length < (mb + 1) * Megabyte
    ensures mb >= 0
  {
    length / Megabyte
  }

  /** Below 2 GiB the cast changes nothing, and both agree. */
  lemma AsWrittenAgreesBelowTwoGiB(length: int)
    requires 0 <= length < 0x8000_0000
    ensures MegabytesAsWritten(length) == Megabytes(length)
  {
  }

  /** A file of exactly 2 GiB is reported as -2048 megabytes. */
  lemma AsWrittenTwoGiB()
    ensures MegabytesAsWritten(0x8000_0000) == -2048
    ensures Megabytes(0x8000_0000) == 2048
    ensures AuxiliaryFiles(MegabytesAsWritten(0x8000_0000)) == 2
    ensures AuxiliaryFiles(Megabytes(0x8000_0000)) == 50
  {
  }

  /** The number of auxiliary files (PMSS.java:84-95): 50 above 100 MB, 2
      below 10 MB, 24 otherwise. */
  function AuxiliaryFiles(sizeMb: int): (files: int)
    ensures files == 2 || files == 24 || files == 50
    ensures files == 50 <==> sizeMb > 100
    ensures files == 2 <==> sizeMb < 10
  {
    if sizeMb > 100 then 50 else if sizeMb < 10 then 2 else 24
  }

  /** A larger file never gets fewer auxiliary files, and there are always
      at least two, as the polyphase distribution needs. */
  lemma AuxiliaryFilesMonotone(a: int, b: int)
    requires a <= b
    ensures 2 <= AuxiliaryFiles(a) <= AuxiliaryFiles(b)
  {
  }

  /** With the intended size the file count never decreases with the
      length; the size as written breaks this at 2 GiB. */
  lemma CorrectedFileCountMonotone(a: int, b: int)
    requires 0 <= a <= b
    ensures AuxiliaryFiles(Megabytes(a)) <= AuxiliaryFiles(Megabytes(b))
  {
    AuxiliaryFilesMonotone(Megabytes(a), Megabytes(b));
  }

  lemma AsWrittenNotMonotone()
    ensures AuxiliaryFiles(MegabytesAsWritten(0x7FFF_FFFF)) == 50
    ensures AuxiliaryFiles(MegabytesAsWritten(0x8000_0000)) == 2
  {
  }
}
