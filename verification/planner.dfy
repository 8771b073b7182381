/**
 The partition planner of allocateHdfsFilesToTasks: the total length of the
 listed files, the resolved partition target, the per-task unit size, the
 number of partitions each file gets, and the concatenation of the partial
 files the partitioner produces for each file in listing order.

 Lengths are mathematical integers; the caller guarantees that the total
 fits in a Java `int`, so the narrowing the source performs never changes a
 value (`ToInt32` marks where it happens).
 */
module Planner {
  import opened Common

  /** HdfsFilePartitioner(fs, path, numPartitions).getHdfsPartialFiles().
      Its code is not part of this model, so nothing is assumed about the
      ranges it returns. */
  type Partitioner = (string, nat) -> seq<PartialFile>

  /** Sum of the lengths of all listed files, empty ones included. */
  function TotalLength(files: seq<FileStat>): nat
  {
    if files == [] then 0 else files[0].length + TotalLength(files[1..])
  }

  lemma {:induction false} TotalLengthAppend(a: seq<FileStat>, b: seq<FileStat>)
    ensures TotalLength(a + b) == TotalLength(a) + TotalLength(b)
  {
    if a == [] {
      assert a + b == b;
    } else {
      assert (a + b)[0] == a[0];
      assert (a + b)[1..] == a[1..] + b;
      TotalLengthAppend(a[1..], b);
    }
  }

  /** No single file is longer than the total of the listing it belongs to. */
  lemma {:induction false} TotalLengthBoundsEach(files: seq<FileStat>, i: int)
    requires 0 <= i < |files|
    ensures files[i].length <= TotalLength(files)
  {
    if i > 0 {
      TotalLengthBoundsEach(files[1..], i - 1);
      assert files[1..][i - 1] == files[i];
    }
  }

  /** The accumulation loop of the source: `totalFileLength += len` on an
      `int`, which narrows each partial sum. When the total fits in an `int`
      no partial sum wraps and the loop yields the exact total. */
  method SumLengths(files: seq<FileStat>) returns (total: int)
    requires TotalLength(files) <= Int32Max
    ensures total == TotalLength(files)
  {
    total := 0;
    var i := 0;
    while i < |files|
      invariant 0 <= i <= |files|
      invariant total == TotalLength(files[..i])
    {
      assert files[..i + 1] == files[..i] + [files[i]];
      TotalLengthAppend(files[..i], [files[i]]);
      assert files == files[..i + 1] + files[i + 1..];
      TotalLengthAppend(files[..i + 1], files[i + 1..]);
      total := ToInt32(total + files[i].length);
      i := i + 1;
    }
    assert files[..|files|] == files;
  }

  /** The effective partition target: `num_partitions` when positive,
      otherwise the number of available processors. */
  function ResolveTarget(numPartitions: int, processors: int): (target: int)
    requires processors >= 1
    ensures target >= 1
    ensures target == numPartitions || target == processors
    ensures target == numPartitions <== numPartitions > 0
    ensures target == processors <== numPartitions <= 0
  {
    if numPartitions <= 0 then processors else numPartitions
  }

  /** partitionSizeByOneTask: the total split evenly over the target,
      rounded down; zero exactly when the total is below the target. */
  function UnitSize(total: nat, target: int): (unit: nat)
    requires target >= 1
    ensures unit * target <= total < (unit + 1) * target
    ensures unit == 0 <==> total < target
  {
    total / target
  }

  /** `((len - 1) / unit) + 1`: the least number of units that cover `len`. */
  function CeilDiv(len: int, unit: int): (n: int)
    requires len >= 1 && unit >= 1
    ensures n >= 1
    ensures (n - 1) * unit < len <= n * unit
    ensures unit >= len ==> n == 1
  {
    var q := (len - 1) / unit;
    assert q * unit <= len - 1 < q * unit + unit by {
      DivBounds(len - 1, unit);
    }
    q + 1
  }

  lemma DivBounds(a: int, b: int)
    requires a >= 0 && b >= 1
    ensures (a / b) * b <= a < (a / b) * b + b
  {
  }

  /** No smaller count covers the file: the ceiling is the least `m` with
      `m * unit >= len`. */
  lemma CeilDivIsLeast(len: int, unit: int, m: int)
    requires len >= 1 && unit >= 1
    requires m * unit >= len
    ensures CeilDiv(len, unit) <= m
  {
    var n := CeilDiv(len, unit);
    if m < n {
      assert m <= n - 1;
      assert m * unit <= (n - 1) * unit by {
        MulMonotone(m, n - 1, unit);
      }
    }
  }

  lemma MulMonotone(a: int, b: int, c: int)
    requires a <= b && c >= 0
    ensures a * c <= b * c
  {
  }

  /** String.endsWith. */
  predicate EndsWith(s: string, suffix: string)
  {
    |suffix| <= |s| && s[|s| - |suffix|..] == suffix
  }

  /** A whole-file-compressed format that cannot be read from an offset. */
  predicate NonSplittable(path: string)
  {
    EndsWith(path, ".gz") || EndsWith(path, ".bz2") || EndsWith(path, ".lzo")
  }

  /** The file is non-empty and the planner divides it by the unit size. */
  predicate Splits(f: FileStat, partition: bool)
  {
    f.length > 0 && !NonSplittable(f.path) && partition
  }

  /** numPartitions for a non-empty file: one for a compressed file or when
      partitioning is off, otherwise the ceiling of length over unit; a zero
      unit raises the division's ArithmeticException. */
  function PartitionCount(path: string, len: int, unit: nat, partition: bool): (r: Result<nat>)
    requires len >= 1
    ensures NonSplittable(path) || !partition ==> r == Ok(1)
    ensures r.Err? <==> !NonSplittable(path) && partition && unit == 0
    ensures r.Err? ==> r.error == DivideByZero
    ensures r.Ok? ==> r.value >= 1
    ensures r.Ok? && !NonSplittable(path) && partition ==>
              (r.value - 1) * unit < len <= r.value * unit
  {
    if NonSplittable(path) then Ok(1)
    else if !partition then Ok(1)
    else if unit == 0 then Err(DivideByZero)
    else Ok(CeilDiv(len, unit))
  }

  /** The partial files of one listed file: none for an empty file,
      otherwise what the partitioner makes of its partition count. */
  function PlanFile(f: FileStat, unit: nat, partition: bool, partitioner: Partitioner)
    : (r: Result<seq<PartialFile>>)
    requires f.length <= Int32Max
    ensures f.length == 0 ==> r == Ok([])
    ensures f.length > 0 && (NonSplittable(f.path) || !partition) ==> r == Ok(partitioner(f.path, 1))
    ensures Splits(f, partition) && unit >= 1 ==>
              r == Ok(partitioner(f.path, CeilDiv(f.length, unit)))
    ensures r.Err? <==> Splits(f, partition) && unit == 0
    ensures r.Err? ==> r.error == DivideByZero
  {
    var len := ToInt32(f.length);
    if len <= 0 then Ok([])
    else
      match PartitionCount(f.path, len, unit, partition)
      case Err(e) => Err(e)
      case Ok(n) => Ok(partitioner(f.path, n))
  }

  /** Sequencing of two steps: the first failure wins, otherwise the partial
      files are concatenated in order. */
  function Then(a: Result<seq<PartialFile>>, b: Result<seq<PartialFile>>): (r: Result<seq<PartialFile>>)
    ensures r.Ok? <==> a.Ok? && b.Ok?
    ensures r.Ok? ==> r.value == a.value + b.value
    ensures a.Err? ==> r == a
    ensures a.Ok? && b.Err? ==> r == b
  {
    match a
    case Err(e) => Err(e)
    case Ok(x) =>
      match b
      case Err(e) => Err(e)
      case Ok(y) => Ok(x + y)
  }

  lemma ThenAssociative(a: Result<seq<PartialFile>>, b: Result<seq<PartialFile>>, c: Result<seq<PartialFile>>)
    ensures Then(Then(a, b), c) == Then(a, Then(b, c))
  {
    if a.Ok? && b.Ok? && c.Ok? {
      assert (a.value + b.value) + c.value == a.value + (b.value + c.value);
    }
  }

  /** The loop over the listed files with a fixed unit size. */
  function AllocateFrom(files: seq<FileStat>, unit: nat, partition: bool, partitioner: Partitioner)
    : (r: Result<seq<PartialFile>>)
    requires TotalLength(files) <= Int32Max
    ensures r.Err? <==> unit == 0 && exists i :: 0 <= i < |files| && Splits(files[i], partition)
    ensures r.Err? ==> r.error == DivideByZero
  {
    if files == [] then Ok([])
    else
      var r := Then(PlanFile(files[0], unit, partition, partitioner),
                    AllocateFrom(files[1..], unit, partition, partitioner));
      assert r.Err? <==> unit == 0 && exists i :: 0 <= i < |files| && Splits(files[i], partition) by {
        if unit == 0 && Splits(files[0], partition) {
          assert Splits(files[0], partition);
        }
        forall i | 1 <= i < |files| ensures files[i] == files[1..][i - 1] {
        }
      }
      r
  }

  /** Allocating a list split in two is allocating each half and
      concatenating the results in order. */
  lemma {:induction false} AllocateFromAppend(a: seq<FileStat>, b: seq<FileStat>, unit: nat,
                                              partition: bool, partitioner: Partitioner)
    requires TotalLength(a + b) <= Int32Max
    ensures TotalLength(a) <= Int32Max && TotalLength(b) <= Int32Max
    ensures AllocateFrom(a + b, unit, partition, partitioner)
         == Then(AllocateFrom(a, unit, partition, partitioner), AllocateFrom(b, unit, partition, partitioner))
  {
    TotalLengthAppend(a, b);
    if a == [] {
      assert a + b == b;
      var rb := AllocateFrom(b, unit, partition, partitioner);
      if rb.Ok? {
        assert [] + rb.value == rb.value;
      }
    } else {
      assert (a + b)[0] == a[0];
      assert (a + b)[1..] == a[1..] + b;
      TotalLengthAppend(a[1..], b);
      AllocateFromAppend(a[1..], b, unit, partition, partitioner);
      ThenAssociative(PlanFile(a[0], unit, partition, partitioner),
                      AllocateFrom(a[1..], unit, partition, partitioner),
                      AllocateFrom(b, unit, partition, partitioner));
    }
  }

  /** allocateHdfsFilesToTasks: size the unit from the total and the target,
      then plan every listed file in order. */
  function Allocate(files: seq<FileStat>, numPartitions: int, processors: int,
                    partition: bool, partitioner: Partitioner): (r: Result<seq<PartialFile>>)
    requires processors >= 1
    requires TotalLength(files) <= Int32Max
    ensures r.Err? <==>
              TotalLength(files) < ResolveTarget(numPartitions, processors) &&
              exists i :: 0 <= i < |files| && Splits(files[i], partition)
    ensures r.Err? ==> r.error == DivideByZero
  {
    var total := TotalLength(files);
    var target := ResolveTarget(numPartitions, processors);
    var unit := UnitSize(total, target);
    AllocateFrom(files, unit, partition, partitioner)
  }

  /** An empty file adds nothing to the total and contributes no partial
      file: removing it leaves the whole plan unchanged. */
  lemma AllocateIgnoresEmptyFile(a: seq<FileStat>, f: FileStat, b: seq<FileStat>,
                                 numPartitions: int, processors: int,
                                 partition: bool, partitioner: Partitioner)
    requires processors >= 1
    requires f.length == 0
    requires TotalLength(a + [f] + b) <= Int32Max
    ensures TotalLength(a + b) == TotalLength(a + [f] + b)
    ensures Allocate(a + [f] + b, numPartitions, processors, partition, partitioner)
         == Allocate(a + b, numPartitions, processors, partition, partitioner)
  {
    TotalLengthAppend(a + [f], b);
    TotalLengthAppend(a, [f]);
    TotalLengthAppend(a, b);
    assert TotalLength([f]) == 0 by {
      assert [f][1..] == [];
    }
    var unit := UnitSize(TotalLength(a + b), ResolveTarget(numPartitions, processors));
    AllocateFromAppend(a + [f], b, unit, partition, partitioner);
    AllocateFromAppend(a, [f], unit, partition, partitioner);
    AllocateFromAppend(a, b, unit, partition, partitioner);
    assert AllocateFrom([f], unit, partition, partitioner) == Ok([]) by {
      assert [f][1..] == [];
    }
    var ra := AllocateFrom(a, unit, partition, partitioner);
    if ra.Ok? {
      assert ra.value + [] == ra.value;
    }
  }

  /** Only the order of the listing matters to the shape of the plan: the
      partial files of an earlier file precede those of a later one. */
  lemma AllocateKeepsListingOrder(a: seq<FileStat>, b: seq<FileStat>,
                                  numPartitions: int, processors: int,
                                  partition: bool, partitioner: Partitioner)
    requires processors >= 1
    requires TotalLength(a + b) <= Int32Max
    requires Allocate(a + b, numPartitions, processors, partition, partitioner).Ok?
    ensures var unit := UnitSize(TotalLength(a + b), ResolveTarget(numPartitions, processors));
            TotalLength(a) <= Int32Max && TotalLength(b) <= Int32Max &&
            AllocateFrom(a, unit, partition, partitioner).Ok? &&
            AllocateFrom(b, unit, partition, partitioner).Ok? &&
            Allocate(a + b, numPartitions, processors, partition, partitioner).value
              == AllocateFrom(a, unit, partition, partitioner).value
                 + AllocateFrom(b, unit, partition, partitioner).value
  {
    var unit := UnitSize(TotalLength(a + b), ResolveTarget(numPartitions, processors));
    AllocateFromAppend(a, b, unit, partition, partitioner);
  }

  /** When every listed file is empty nothing is divided and the plan is
      empty, so no task is scheduled. */
  lemma {:induction false} AllocateAllEmpty(files: seq<FileStat>, numPartitions: int, processors: int,
                         partition: bool, partitioner: Partitioner)
    requires processors >= 1
    requires forall i :: 0 <= i < |files| ==> files[i].length == 0
    ensures TotalLength(files) == 0
    ensures Allocate(files, numPartitions, processors, partition, partitioner) == Ok([])
    decreases |files|
  {
    if files != [] {
      AllocateAllEmpty(files[1..], numPartitions, processors, partition, partitioner);
      var unit := UnitSize(0, ResolveTarget(numPartitions, processors));
      assert AllocateFrom(files, unit, partition, partitioner)
          == Then(PlanFile(files[0], unit, partition, partitioner),
                  AllocateFrom(files[1..], unit, partition, partitioner));
    }
  }

  /** Partitions the plan asks for: one per non-empty file that is not
      divided, the ceiling of length over unit for every other non-empty
      file. */
  function PartitionsRequested(files: seq<FileStat>, unit: nat, partition: bool): nat
    requires unit >= 1
  {
    if files == [] then 0
    else
      var f := files[0];
      (if f.length == 0 then 0
       else if Splits(f, partition) then CeilDiv(f.length, unit)
       else 1)
      + PartitionsRequested(files[1..], unit, partition)
  }

  /** When the partitioner returns one partial file per requested partition,
      the number of partial files, and so the task count, is the sum of the
      per-file partition counts. */
  lemma {:induction false} AllocateFromCount(files: seq<FileStat>, unit: nat, partition: bool,
                                             partitioner: Partitioner)
    requires unit >= 1
    requires TotalLength(files) <= Int32Max
    requires forall p, n :: |partitioner(p, n)| == n
    ensures AllocateFrom(files, unit, partition, partitioner).Ok?
    ensures |AllocateFrom(files, unit, partition, partitioner).value|
            == PartitionsRequested(files, unit, partition)
  {
    if files != [] {
      AllocateFromCount(files[1..], unit, partition, partitioner);
    }
  }
}
