/**
 Values shared by the file lister, the partition planner and the plugin's
 transaction: optional and failing results, the errors the transaction can
 raise, the records that flow between the lister and the planner, and Java's
 32-bit `int` narrowing.
 */
module Common {

  /** Largest value of a Java `int`. */
  const Int32Max: int := 0x7fff_ffff
  /** Smallest value of a Java `int`. */
  const Int32Min: int := -0x8000_0000

  datatype Option<+T> = None | Some(value: T)

  /** The exceptions that abort a transaction. PathNotFound and FileNotFound
      stand for the IOException that transaction catches and rethrows wrapped
      in a RuntimeException; DivideByZero is an ArithmeticException, which
      escapes uncaught. */
  datatype Error =
    | PathNotFound(path: string)   // no file matched the resolved path
    | FileNotFound(path: string)   // a path could not be stat'ed
    | DivideByZero                 // the per-task unit size was zero

  datatype Result<+T> = Ok(value: T) | Err(error: Error)

  /** A listed path together with the length its file status reports. */
  datatype FileStat = FileStat(path: string, length: nat)

  /** HdfsPartialFile: the byte range `[start, end)` of one file, read by one task. */
  datatype PartialFile = PartialFile(path: string, start: int, end: int)

  /** Java's narrowing of an arbitrary integer to `int`: keep the low 32 bits,
      read as two's complement. */
  function ToInt32(x: int): (r: int)
    ensures Int32Min <= r <= Int32Max
    ensures (x - r) % 0x1_0000_0000 == 0
    ensures Int32Min <= x <= Int32Max ==> r == x
  {
    var m := x % 0x1_0000_0000;
    if m > Int32Max then m - 0x1_0000_0000 else m
  }
}
