/**
 The discovery half of HdfsFileInputPlugin.transaction: list the files the
 resolved path expands to, fail when the list is empty, stat every listed
 path, plan the partial files, and take their number as the task count.

 The path handed in is the one strftime has already resolved, the glob
 result is what globStatus returns for it (None standing for Java's null),
 and the processor count is Runtime.availableProcessors().
 */
module Plugin {
  import opened Common
  import opened Listing
  import opened Planner

  /** The settings of PluginTask that discovery reads. */
  datatype PluginTask = PluginTask(path: string, partition: bool, numPartitions: int)

  /** The partial files handed to the tasks and the task count. */
  datatype Plan = Plan(files: seq<PartialFile>, taskCount: nat)

  /** The sum of the lengths getFileStatus reports for the listed paths fits
      in a Java `int`. */
  predicate ListedTotalFits(glob: Option<seq<Entry>>)
  {
    var stats := StatAll(Roots(glob), BuildFileList(glob));
    stats.Ok? ==> TotalLength(stats.value) <= Int32Max
  }

  function Transaction(task: PluginTask, glob: Option<seq<Entry>>, processors: int,
                       partitioner: Partitioner): (r: Result<Plan>)
    requires processors >= 1
    requires ListedTotalFits(glob)
    ensures r == Err(PathNotFound(task.path)) <==> BuildFileList(glob) == []
    ensures r.Err? ==> r.error == PathNotFound(task.path) || r.error == DivideByZero
    ensures r.Ok? ==> r.value.taskCount == |r.value.files|
  {
    var listed := BuildFileList(glob);
    if listed == [] then Err(PathNotFound(task.path))
    else
      ListedPathsResolve(glob);
      match StatAll(Roots(glob), listed)
      case Err(e) => Err(e)
      case Ok(stats) =>
        match Allocate(stats, task.numPartitions, processors, task.partition, partitioner)
        case Err(e) => Err(e)
        case Ok(files) => Ok(Plan(files, |files|))
  }

  /** The transaction fails with "path not found" exactly when globStatus
      returned null or no file lies below anything it matched. */
  lemma TransactionNotFound(task: PluginTask, glob: Option<seq<Entry>>, processors: int,
                            partitioner: Partitioner)
    requires processors >= 1
    requires ListedTotalFits(glob)
    ensures Transaction(task, glob, processors, partitioner) == Err(PathNotFound(task.path))
            <==> glob.None? || forall p, n :: !FileInAny(glob.value, p, n)
  {
    BuildFileListEmpty(glob);
  }

  /** For a non-empty listing, every listed path is stat'ed, the total fits,
      and the transaction's plan is exactly the allocation over the stat'ed
      listing, with one task per partial file. It fails with a division by
      zero exactly when the total is below the resolved target and some
      listed file would be divided. */
  lemma TransactionPlansListing(task: PluginTask, glob: Option<seq<Entry>>, processors: int,
                                partitioner: Partitioner)
    requires processors >= 1
    requires ListedTotalFits(glob)
    ensures StatAll(Roots(glob), BuildFileList(glob)).Ok?
    ensures BuildFileList(glob) != [] ==>
            var stats := StatAll(Roots(glob), BuildFileList(glob)).value;
            TotalLength(stats) <= Int32Max &&
            var a := Allocate(stats, task.numPartitions, processors, task.partition, partitioner);
            var r := Transaction(task, glob, processors, partitioner);
            (a.Ok? ==> r == Ok(Plan(a.value, |a.value|))) &&
            (a.Err? ==> r == Err(DivideByZero)) &&
            (r == Err(DivideByZero) <==>
               TotalLength(stats) < ResolveTarget(task.numPartitions, processors) &&
               exists i :: 0 <= i < |stats| && Splits(stats[i], task.partition))
  {
    ListedPathsResolve(glob);
  }

  /** When something is found but every file is empty, the transaction
      succeeds with no partial files and no tasks. */
  lemma TransactionAllEmpty(task: PluginTask, glob: Option<seq<Entry>>, processors: int,
                            partitioner: Partitioner)
    requires processors >= 1
    requires BuildFileList(glob) != []
    requires forall p, n :: FileInAny(Roots(glob), p, n) ==> n == 0
    ensures ListedTotalFits(glob)
    ensures Transaction(task, glob, processors, partitioner) == Ok(Plan([], 0))
  {
    ListedPathsResolve(glob);
    var stats := StatAll(Roots(glob), BuildFileList(glob)).value;
    assert forall i :: 0 <= i < |stats| ==> stats[i].length == 0;
    AllocateAllEmpty(stats, task.numPartitions, processors, task.partition, partitioner);
  }

  /** A partitioner that returns one placeholder range per partition, used to
      make the examples below concrete. */
  function Placeholder(path: string, n: nat): (ranges: seq<PartialFile>)
    ensures |ranges| == n
    ensures forall i :: 0 <= i < n ==> ranges[i].path == path
  {
    seq(n, i => PartialFile(path, i, i + 1))
  }

  /** An empty file and a 100-byte text file in a directory, then a 50-byte
      gzip file. */
  const ThreeFiles: Option<seq<Entry>> :=
    Some([Dir("/in", [File("/in/a", 0), File("/in/b", 100)]), File("/in/c.gz", 50)])

  const ThreeFileStats: seq<FileStat> :=
    [FileStat("/in/a", 0), FileStat("/in/b", 100), FileStat("/in/c.gz", 50)]

  /** The directory is expanded in place and every path is stat'ed. */
  lemma ThreeFileListing()
    ensures BuildFileList(ThreeFiles) == ["/in/a", "/in/b", "/in/c.gz"]
    ensures StatAll(Roots(ThreeFiles), BuildFileList(ThreeFiles)) == Ok(ThreeFileStats)
  {
    var listed := BuildFileList(ThreeFiles);
    assert Lsr(File("/in/b", 100)) == ["/in/b"];
    assert Lsr(File("/in/a", 0)) == ["/in/a"];
    assert LsrAll([File("/in/b", 100)]) == ["/in/b"];
    assert listed == ["/in/a", "/in/b", "/in/c.gz"];
    var stats := ThreeFileStats;
    var roots := Roots(ThreeFiles);
    assert FindIn(roots, "/in/a") == Some(0);
    assert FindIn(roots, "/in/b") == Some(100) by {
      assert Find(File("/in/a", 0), "/in/b") == None;
      assert FindIn([File("/in/a", 0), File("/in/b", 100)], "/in/b") == Some(100);
    }
    assert FindIn(roots, "/in/c.gz") == Some(50) by {
      assert FindIn([File("/in/a", 0), File("/in/b", 100)], "/in/c.gz") == None;
    }
    assert StatAll(roots, []) == Ok([]);
    assert StatAll(roots, ["/in/c.gz"]) == Ok([FileStat("/in/c.gz", 50)]) by {
      assert ["/in/c.gz"][1..] == [];
      assert [FileStat("/in/c.gz", 50)] + [] == [FileStat("/in/c.gz", 50)];
    }
    assert StatAll(roots, ["/in/b", "/in/c.gz"]) == Ok(stats[1..]) by {
      assert ["/in/b", "/in/c.gz"][1..] == ["/in/c.gz"];
      assert stats[1..] == [FileStat("/in/b", 100)] + [FileStat("/in/c.gz", 50)];
    }
    assert listed[1..] == ["/in/b", "/in/c.gz"];
    assert stats == [FileStat("/in/a", 0)] + stats[1..];
  }

  /** With a target of three the total is 150 and the unit 50: the empty file
      is skipped, the text file gets two partitions and the gzip file one. */
  lemma ThreeFilePlan(processors: int)
    requires processors >= 1
    ensures TotalLength(ThreeFileStats) == 150
    ensures Allocate(ThreeFileStats, 3, processors, true, Placeholder)
            == Ok(Placeholder("/in/b", 2) + Placeholder("/in/c.gz", 1))
  {
    var stats := ThreeFileStats;
    var P := Placeholder;
    assert TotalLength(stats) == 150 by {
      assert stats[1..][1..][1..] == [];
    }
    assert Allocate(stats, 3, processors, true, P) == AllocateFrom(stats, 50, true, P);
    assert PlanFile(stats[0], 50, true, P) == Ok([]);
    assert PlanFile(stats[1], 50, true, P) == Ok(P("/in/b", 2)) by {
      assert !NonSplittable("/in/b");
      assert CeilDiv(100, 50) == 2;
    }
    assert PlanFile(stats[2], 50, true, P) == Ok(P("/in/c.gz", 1)) by {
      assert "/in/c.gz"[5..] == ".gz";
      assert NonSplittable("/in/c.gz");
    }
    assert AllocateFrom(stats[2..], 50, true, P) == Ok(P("/in/c.gz", 1)) by {
      assert stats[2..][0] == stats[2];
      assert stats[2..][1..] == [];
      assert P("/in/c.gz", 1) + [] == P("/in/c.gz", 1);
    }
    assert AllocateFrom(stats[1..], 50, true, P) == Ok(P("/in/b", 2) + P("/in/c.gz", 1)) by {
      assert stats[1..][0] == stats[1];
      assert stats[1..][1..] == stats[2..];
    }
    assert AllocateFrom(stats, 50, true, P) == Ok(P("/in/b", 2) + P("/in/c.gz", 1)) by {
      assert [] + (P("/in/b", 2) + P("/in/c.gz", 1)) == P("/in/b", 2) + P("/in/c.gz", 1);
    }
  }

  /** The whole transaction on the three files: three tasks. */
  lemma ThreeFileExample(processors: int)
    requires processors >= 1
    ensures ListedTotalFits(ThreeFiles)
    ensures Transaction(PluginTask("/in*", true, 3), ThreeFiles, processors, Placeholder)
            == Ok(Plan(Placeholder("/in/b", 2) + Placeholder("/in/c.gz", 1), 3))
  {
    ThreeFileListing();
    ThreeFilePlan(processors);
  }

  /** The total is below the target, so the unit size is zero and a
      splittable non-empty file makes the division throw. */
  lemma SmallTotalDividesByZero(processors: int)
    requires processors >= 1
    ensures var glob := Some([File("/in/a.csv", 2)]);
            ListedTotalFits(glob) &&
            Transaction(PluginTask("/in/a.csv", true, 4), glob, processors, Placeholder)
              == Err(DivideByZero)
  {
    var stats := [FileStat("/in/a.csv", 2)];
    assert Splits(stats[0], true) by {
      assert "/in/a.csv"[|"/in/a.csv"| - 3..] != ".gz";
      assert "/in/a.csv"[|"/in/a.csv"| - 4..] != ".bz2";
      assert "/in/a.csv"[|"/in/a.csv"| - 4..] != ".lzo";
    }
    assert TotalLength(stats) == 2;
  }
}
