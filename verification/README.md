# HDFS file input: file discovery and partition planning

A Dafny model of the discovery phase of the Embulk HDFS file input plugin
(`HdfsFileInputPlugin`). When a transaction starts, the plugin expands the
configured path with `globStatus`. It lists every file below the matched
statuses, recursing into directories (`buildFileList`, `lsr`), and fails with
`PathNotFoundException` when the list is empty. It then decides how many
partial files each listed file is cut into (`allocateHdfsFilesToTasks`):

- it sums all lengths;
- it resolves the partition target: `num_partitions`, or the available
  processors when that is not positive;
- it floor-divides the total by the target to get a per-task unit;
- it skips empty files;
- it gives one partition to `.gz`, `.bz2` and `.lzo` files, and to every file
  when `partition` is off;
- it gives every other file `((length - 1) / unit) + 1` partitions.

The partial files of all listed files, concatenated in listing order, become
the task list. Its size is the task count.

Modules:

- `Common` (`common.dfy`): `Option`, `Result`, the transaction's errors, the
  `FileStat` and `PartialFile` (HdfsPartialFile) records, and Java `int`
  narrowing.
- `Listing` (`listing.dfy`): the file system as an immutable tree of
  `Entry` values (a file with a length, or a directory with ordered children).
  It holds `lsr`, `buildFileList` and the `getFileStatus` length lookup.
- `Planner` (`planner.dfy`): the total, the target, the unit size, the
  per-file partition count, and the allocation over the listed files.
- `Plugin` (`plugin.dfy`): the discovery half of `transaction`, and two
  concrete scenarios.

Two edge cases of the code, as the model states them:

- A unit size of zero happens when the total is below the target. A
  splittable non-empty file then makes `((len - 1) / 0)` throw
  `ArithmeticException`. The model returns `Err(DivideByZero)`
  (`Plugin.SmallTotalDividesByZero`).
- The emptiness check looks only at the path list. A listing whose files are
  all empty passes it; every file is then skipped, and the transaction
  succeeds with no partial files and a task count of zero
  (`Plugin.TransactionAllEmpty`).

## Model

| member | source | states |
|---|---|---|
| `Common.ToInt32` | src/main/java/org/embulk/input/hdfs/HdfsFileInputPlugin.java:250 | Java's narrowing to `int` lands in the 32-bit range, agrees with its argument modulo 2^32, and changes nothing already in range |
| `Listing.LsrListsExactlyFiles` | src/main/java/org/embulk/input/hdfs/HdfsFileInputPlugin.java:220-233 | lsr of a status lists a path exactly when a file (not a directory) with that path lies at or below the status |
| `Listing.LsrAllListsExactlyFiles` | src/main/java/org/embulk/input/hdfs/HdfsFileInputPlugin.java:224-228 | lsr over a directory's children lists a path exactly when a file with that path lies below one of the children |
| `Listing.LsrAllAppend` | src/main/java/org/embulk/input/hdfs/HdfsFileInputPlugin.java:225-227 | the children's listings are concatenated in listing order: listing a split sequence is the concatenation of the listings of its parts |
| `Listing.ExpandTopIsLsrAll` | src/main/java/org/embulk/input/hdfs/HdfsFileInputPlugin.java:208-215 | buildFileList's loop, which keeps top-level files in place and expands directories in place, equals lsr over the glob's statuses in glob order |
| `Listing.BuildFileListListsExactlyFiles` | src/main/java/org/embulk/input/hdfs/HdfsFileInputPlugin.java:200-217 | the built list holds a path exactly when a file with that path lies below a status the glob returned; a null glob result lists nothing |
| `Listing.BuildFileListEmpty` | src/main/java/org/embulk/input/hdfs/HdfsFileInputPlugin.java:204-206 | the built list is empty exactly when the glob result is null or no file lies below anything it matched |
| `Listing.FindResolvesListed` | src/main/java/org/embulk/input/hdfs/HdfsFileInputPlugin.java:250 | getFileStatus of a path succeeds exactly when lsr lists it, and reports the length of a file with that path |
| `Listing.FindInResolvesListed` | src/main/java/org/embulk/input/hdfs/HdfsFileInputPlugin.java:260 | the same within a sequence of statuses: the lookup succeeds exactly for listed paths, with a length of a file bearing that path |
| `Listing.StatAll` | src/main/java/org/embulk/input/hdfs/HdfsFileInputPlugin.java:249-251 | stat'ing the list keeps its order and paths and reports real file lengths; it fails exactly when some path is not listed, with FileNotFound naming the first such path |
| `Listing.ListedPathsResolve` | src/main/java/org/embulk/input/hdfs/HdfsFileInputPlugin.java:249-250 | every path buildFileList produced can be stat'ed |
| `Planner.TotalLengthAppend` | src/main/java/org/embulk/input/hdfs/HdfsFileInputPlugin.java:248-251 | the total of a concatenation is the sum of the totals: every listed file, empty or not, adds its length |
| `Planner.TotalLengthBoundsEach` | src/main/java/org/embulk/input/hdfs/HdfsFileInputPlugin.java:248-251 | no listed file is longer than the total of the listing |
| `Planner.SumLengths` | src/main/java/org/embulk/input/hdfs/HdfsFileInputPlugin.java:248-251 | the narrowing `+=` loop yields the exact sum of all listed lengths when that sum fits in an `int` |
| `Planner.ResolveTarget` | src/main/java/org/embulk/input/hdfs/HdfsFileInputPlugin.java:254-255 | the target is at least one: num_partitions when positive, otherwise the processor count |
| `Planner.UnitSize` | src/main/java/org/embulk/input/hdfs/HdfsFileInputPlugin.java:256 | the unit is the floor of total over target (unit·target ≤ total < (unit+1)·target); it is zero exactly when the total is below the target |
| `Planner.CeilDiv` | src/main/java/org/embulk/input/hdfs/HdfsFileInputPlugin.java:274 | `((L-1)/u)+1` is at least one and satisfies (n-1)·u < L ≤ n·u; it is one whenever u ≥ L |
| `Planner.CeilDivIsLeast` | src/main/java/org/embulk/input/hdfs/HdfsFileInputPlugin.java:274 | every count m with m·u ≥ L is at least `((L-1)/u)+1`: the formula is the ceiling |
| `Planner.PartitionCount` | src/main/java/org/embulk/input/hdfs/HdfsFileInputPlugin.java:266-275 | a `.gz`/`.bz2`/`.lzo` file, or any file with partitioning off, gets exactly one partition; otherwise the count covers the file by whole units; a zero unit is a division by zero, and only then |
| `Planner.PlanFile` | src/main/java/org/embulk/input/hdfs/HdfsFileInputPlugin.java:259-278 | an empty file yields no partial files; a non-divided file yields the partitioner's ranges for one partition; a divided file yields them for the ceiling count; it fails only for a divided file with a zero unit |
| `Planner.AllocateFrom` | src/main/java/org/embulk/input/hdfs/HdfsFileInputPlugin.java:258-281 | the loop fails, with a division by zero, exactly when the unit is zero and some listed file is divided |
| `Planner.AllocateFromAppend` | src/main/java/org/embulk/input/hdfs/HdfsFileInputPlugin.java:258-281 | per-file results are concatenated in listing order: allocating a split list is allocating each part and concatenating |
| `Planner.Allocate` | src/main/java/org/embulk/input/hdfs/HdfsFileInputPlugin.java:235-282 | allocation fails exactly when the total is below the resolved target and some listed file would be divided |
| `Planner.AllocateIgnoresEmptyFile` | src/main/java/org/embulk/input/hdfs/HdfsFileInputPlugin.java:261-264 | an empty file leaves the total and the whole plan unchanged: removing it changes no other file's result |
| `Planner.AllocateKeepsListingOrder` | src/main/java/org/embulk/input/hdfs/HdfsFileInputPlugin.java:259-279 | in a successful plan, the partial files of earlier listed files come before those of later ones, each part planned with the shared unit |
| `Planner.AllocateAllEmpty` | src/main/java/org/embulk/input/hdfs/HdfsFileInputPlugin.java:259-264 | when every listed file is empty the total is zero and the plan is empty, with no division |
| `Planner.AllocateFromCount` | src/main/java/org/embulk/input/hdfs/HdfsFileInputPlugin.java:266-278 | if the partitioner returns n ranges for n partitions, the number of partial files is the sum of the per-file counts (one per non-divided non-empty file, the ceiling for the others) |
| `Plugin.Transaction` | src/main/java/org/embulk/input/hdfs/HdfsFileInputPlugin.java:74-99 | the transaction fails with "path not found", naming the resolved path, exactly when the list is empty; its only other failure is a division by zero; the task count equals the number of partial files |
| `Plugin.TransactionPlansListing` | src/main/java/org/embulk/input/hdfs/HdfsFileInputPlugin.java:83-98 | for a non-empty listing, the plan is the allocation over the stat'ed listing and the task count is its number of partial files; the transaction divides by zero exactly when the total is below the resolved target and some listed file would be divided |
| `Plugin.TransactionNotFound` | src/main/java/org/embulk/input/hdfs/HdfsFileInputPlugin.java:77-81 | "path not found" is raised exactly when globStatus returned null or nothing it matched has a file below it |
| `Plugin.TransactionAllEmpty` | src/main/java/org/embulk/input/hdfs/HdfsFileInputPlugin.java:79-98 | a non-empty listing of only empty files succeeds with no partial files and a task count of zero |
| `Plugin.ThreeFileListing` | src/main/java/org/embulk/input/hdfs/HdfsFileInputPlugin.java:208-215 | a directory with two files followed by a top-level gzip file lists as those three paths in order, each stat'ed to its length |
| `Plugin.ThreeFilePlan` | src/main/java/org/embulk/input/hdfs/HdfsFileInputPlugin.java:248-278 | lengths 0, 100 and 50 (gzip) with target 3 give unit 50: nothing for the empty file, two partitions for the text file, one for the gzip file |
| `Plugin.ThreeFileExample` | src/main/java/org/embulk/input/hdfs/HdfsFileInputPlugin.java:77-98 | the same three files through the whole transaction give three tasks |
| `Plugin.SmallTotalDividesByZero` | src/main/java/org/embulk/input/hdfs/HdfsFileInputPlugin.java:256 | a 2-byte file with target 4 gives unit 0, and the transaction fails with a division by zero |

## Left out

- strftime: the path template is resolved by a JRuby scriptlet that reads the wall clock. The model takes the resolved path.
- getFs and the Hadoop configuration: replaced by the glob result, given as a parameter, and the immutable `Entry` tree below it.
- globStatus pattern matching: the glob's result is an input, not computed from the pattern.
- Runtime.availableProcessors(): a parameter, required to be at least one as the JVM guarantees.
- HdfsFilePartitioner: its code is not part of this model. It is a function parameter from (path, partition count) to partial files, and nothing is assumed about the ranges it returns. So the tiling of a file by its ranges is not stated.
- HdfsPartialFileInputStream, open, openInputStream, resume, cleanup and the task input wrapper: stream reading and Embulk lifecycle plumbing.
- Logging.
- Planner.SumLengths: does not model `int` wrap-around of the total. Every length is a natural number and the total must fit in an `int` (`Plugin.ListedTotalFits`); the narrowing is written out and proved to change nothing.
- Listing.FindResolvesListed: the source stats each path twice (lines 250 and 260). The model stats once, since the tree does not change between the two reads.
- Exception wrapping: `PathNotFound` and `FileNotFound` stand for the IOException that transaction catches and rethrows wrapped in a RuntimeException (lines 86-89); `DivideByZero` stands for the ArithmeticException, which is not caught. The model does not distinguish wrapped from unwrapped exceptions.
- I/O failures of listStatus and getFileStatus other than a missing path are not modelled.
