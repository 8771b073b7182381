/**
 The file lister: the statuses a glob expands to, recursive listing of
 directories (`lsr`), the flat file list the plugin builds from a glob
 result, and the length lookup the planner performs for each listed path.
 The file system is an immutable tree, so looking a path up twice gives the
 same answer.
 */
module Listing {
  import opened Common

  /** A FileStatus: a file with its byte length, or a directory whose
      children are given in the file system's listing order. */
  datatype Entry =
    | File(path: string, length: nat)
    | Dir(path: string, children: seq<Entry>)

  /** lsr: the paths of the files below one status, depth first, in listing order. */
  function Lsr(e: Entry): seq<string>
    decreases e
  {
    match e
    case File(p, _) => [p]
    case Dir(_, cs) => LsrAll(cs)
  }

  /** lsr applied to each status in turn, the results concatenated. */
  function LsrAll(es: seq<Entry>): seq<string>
    decreases es
  {
    if es == [] then [] else Lsr(es[0]) + LsrAll(es[1..])
  }

  /** A file with path `p` and length `n` lies in the tree below `e`
      (or is `e` itself). */
  ghost predicate FileIn(e: Entry, p: string, n: nat)
    decreases e
  {
    match e
    case File(q, m) => q == p && m == n
    case Dir(_, cs) => FileInAny(cs, p, n)
  }

  /** A file with path `p` and length `n` lies below one of `es`. */
  ghost predicate FileInAny(es: seq<Entry>, p: string, n: nat)
    decreases es
  {
    exists i :: 0 <= i < |es| && FileIn(es[i], p, n)
  }

  lemma FileInAnyCons(es: seq<Entry>, p: string, n: nat)
    requires es != []
    ensures FileInAny(es, p, n) <==> FileIn(es[0], p, n) || FileInAny(es[1..], p, n)
  {
    if FileInAny(es, p, n) {
      var i :| 0 <= i < |es| && FileIn(es[i], p, n);
      if i > 0 {
        assert es[1..][i - 1] == es[i];
      }
    }
    if FileInAny(es[1..], p, n) {
      var j :| 0 <= j < |es[1..]| && FileIn(es[1..][j], p, n);
      assert es[j + 1] == es[1..][j];
    }
  }

  /** lsr lists a path exactly when a file (never a directory) with that
      path lies below the status. */
  lemma {:induction false} LsrListsExactlyFiles(e: Entry, p: string)
    ensures p in Lsr(e) <==> exists n :: FileIn(e, p, n)
    decreases e
  {
    match e
    case File(q, m) =>
      assert Lsr(e) == [q];
      if p in Lsr(e) {
        assert p == q;
        assert FileIn(e, p, m);
        assert exists k :: FileIn(e, p, k);
      } else {
        forall n ensures !FileIn(e, p, n) {
          assert q != p;
        }
      }
    case Dir(_, cs) =>
      LsrAllListsExactlyFiles(cs, p);
      assert Lsr(e) == LsrAll(cs);
      if p in Lsr(e) {
        var n :| FileInAny(cs, p, n);
        assert FileIn(e, p, n);
        assert exists k :: FileIn(e, p, k);
      } else {
        forall n ensures !FileIn(e, p, n) {
          assert FileIn(e, p, n) == FileInAny(cs, p, n);
        }
      }
  }

  lemma {:induction false} LsrAllListsExactlyFiles(es: seq<Entry>, p: string)
    ensures p in LsrAll(es) <==> exists n :: FileInAny(es, p, n)
    decreases es
  {
    if es != [] {
      LsrListsExactlyFiles(es[0], p);
      LsrAllListsExactlyFiles(es[1..], p);
      assert LsrAll(es) == Lsr(es[0]) + LsrAll(es[1..]);
      if p in LsrAll(es) {
        var n :| FileIn(es[0], p, n) || FileInAny(es[1..], p, n);
        FileInAnyCons(es, p, n);
      } else {
        forall n ensures !FileInAny(es, p, n) {
          FileInAnyCons(es, p, n);
        }
      }
    }
  }

  /** Listing a sequence of statuses splits along any split of the sequence:
      the contents of each status appear in place, in the order given. */
  lemma {:induction false} LsrAllAppend(a: seq<Entry>, b: seq<Entry>)
    ensures LsrAll(a + b) == LsrAll(a) + LsrAll(b)
  {
    if a == [] {
      assert a + b == b;
    } else {
      assert (a + b)[0] == a[0];
      assert (a + b)[1..] == a[1..] + b;
      LsrAllAppend(a[1..], b);
    }
  }

  /** The expansion of the glob result's statuses in buildFileList: a file is
      added as it is, a directory is replaced by its lsr. */
  function ExpandTop(es: seq<Entry>): seq<string>
  {
    if es == [] then []
    else (if es[0].Dir? then Lsr(es[0]) else [es[0].path]) + ExpandTop(es[1..])
  }

  /** buildFileList: a null glob result lists nothing; otherwise the glob's
      statuses are expanded in the order the glob returned them. */
  function BuildFileList(glob: Option<seq<Entry>>): seq<string>
  {
    match glob
    case None => []
    case Some(es) => ExpandTop(es)
  }

  /** Keeping top-level files in place is the same as listing them with lsr,
      so buildFileList is lsr over the glob's statuses. */
  lemma {:induction false} ExpandTopIsLsrAll(es: seq<Entry>)
    ensures ExpandTop(es) == LsrAll(es)
  {
    if es != [] {
      ExpandTopIsLsrAll(es[1..]);
    }
  }

  /** The statuses a glob result stands for (none for a null result). */
  function Roots(glob: Option<seq<Entry>>): seq<Entry>
  {
    match glob
    case None => []
    case Some(es) => es
  }

  /** The built file list holds a path exactly when a file with that path
      lies below some status the glob returned. */
  lemma BuildFileListListsExactlyFiles(glob: Option<seq<Entry>>, p: string)
    ensures p in BuildFileList(glob) <==> exists n :: FileInAny(Roots(glob), p, n)
  {
    if glob.Some? {
      ExpandTopIsLsrAll(glob.value);
      LsrAllListsExactlyFiles(glob.value, p);
      assert Roots(glob) == glob.value;
    }
  }

  /** The built file list is empty exactly when the glob result is null or
      no file lies below any status it returned. */
  lemma BuildFileListEmpty(glob: Option<seq<Entry>>)
    ensures BuildFileList(glob) == [] <==>
              glob.None? || forall p, n :: !FileInAny(glob.value, p, n)
  {
    if BuildFileList(glob) != [] {
      var p := BuildFileList(glob)[0];
      BuildFileListListsExactlyFiles(glob, p);
    } else if glob.Some? {
      forall p, n ensures !FileInAny(glob.value, p, n) {
        BuildFileListListsExactlyFiles(glob, p);
        assert Roots(glob) == glob.value;
      }
    }
  }

  /** getFileStatus(path).getLen() inside one status: the length of the
      first file with that path, in listing order. */
  function Find(e: Entry, p: string): Option<nat>
    decreases e
  {
    match e
    case File(q, m) => if q == p then Some(m) else None
    case Dir(_, cs) => FindIn(cs, p)
  }

  function FindIn(es: seq<Entry>, p: string): Option<nat>
    decreases es
  {
    if es == [] then None
    else
      match Find(es[0], p)
      case Some(m) => Some(m)
      case None => FindIn(es[1..], p)
  }

  /** A path resolves exactly when lsr lists it, and then to the length of
      a file with that path. */
  lemma {:induction false} FindResolvesListed(e: Entry, p: string)
    ensures Find(e, p).Some? <==> p in Lsr(e)
    ensures Find(e, p).Some? ==> FileIn(e, p, Find(e, p).value)
    decreases e
  {
    match e
    case File(q, m) =>
    case Dir(_, cs) =>
      FindInResolvesListed(cs, p);
  }

  lemma {:induction false} FindInResolvesListed(es: seq<Entry>, p: string)
    ensures FindIn(es, p).Some? <==> p in LsrAll(es)
    ensures FindIn(es, p).Some? ==> FileInAny(es, p, FindIn(es, p).value)
    decreases es
  {
    if es != [] {
      FindResolvesListed(es[0], p);
      FindInResolvesListed(es[1..], p);
      if FindIn(es, p).Some? {
        FileInAnyCons(es, p, FindIn(es, p).value);
      }
    }
  }

  /** The file statuses of every listed path, in list order; the first path
      that does not resolve raises FileNotFound. */
  function StatAll(roots: seq<Entry>, paths: seq<string>): (r: Result<seq<FileStat>>)
    ensures r.Ok? ==> |r.value| == |paths|
    ensures r.Ok? ==> forall i :: 0 <= i < |paths| ==>
                        r.value[i].path == paths[i] && FileInAny(roots, paths[i], r.value[i].length)
    ensures r.Err? <==> exists i :: 0 <= i < |paths| && paths[i] !in LsrAll(roots)
    ensures r.Err? ==> r.error.FileNotFound?
    ensures r.Err? ==>
              exists i :: 0 <= i < |paths| && paths[i] == r.error.path && paths[i] !in LsrAll(roots) &&
                          forall j :: 0 <= j < i ==> paths[j] in LsrAll(roots)
  {
    if paths == [] then Ok([])
    else
      FindInResolvesListed(roots, paths[0]);
      match FindIn(roots, paths[0])
      case None => Err(FileNotFound(paths[0]))
      case Some(m) =>
        match StatAll(roots, paths[1..])
        case Err(e) =>
          assert exists i :: 0 <= i < |paths| && paths[i] == e.path && paths[i] !in LsrAll(roots) &&
                             forall j :: 0 <= j < i ==> paths[j] in LsrAll(roots) by {
            var k :| 0 <= k < |paths[1..]| && paths[1..][k] == e.path && paths[1..][k] !in LsrAll(roots) &&
                     forall j :: 0 <= j < k ==> paths[1..][j] in LsrAll(roots);
            assert paths[k + 1] == paths[1..][k];
            forall j | 0 <= j < k + 1 ensures paths[j] in LsrAll(roots) {
              if j > 0 {
                assert paths[j] == paths[1..][j - 1];
              }
            }
          }
          Err(e)
        case Ok(rest) => Ok([FileStat(paths[0], m)] + rest)
  }

  /** Every path the file list holds can be stat'ed. */
  lemma ListedPathsResolve(glob: Option<seq<Entry>>)
    ensures StatAll(Roots(glob), BuildFileList(glob)).Ok?
  {
    if glob.Some? {
      ExpandTopIsLsrAll(glob.value);
    }
  }
}
