/** The sequential walker (`SimpleScanner`, `scan_impl`, `scan`): matched files
    are processed inline in listing order and the first failure ends the
    directory, while subdirectories are spawned and their failures dropped. */
module Walker {
  import opened DirTree
  import Scanner
  import Cmd

  /** `should_recursive` of the walker: the same formula as the scanner's. */
  function ShouldRecursive(cfg: Config, curDepth: nat): (b: bool)
    ensures b == Scanner.ShouldRecursive(cfg, curDepth)
    ensures !cfg.recursive ==> !b
    ensures cfg.recursive && cfg.maxDepth.None? ==> b
    ensures cfg.maxDepth.Some? ==> (b <==> cfg.recursive && cfg.maxDepth.value <= curDepth)
  {
    cfg.recursive && (cfg.maxDepth.None? || Scanner.OptionLe(cfg.maxDepth, Some(curDepth)))
  }

  /** `match_file` of the walker: the same question put to the same matcher
      as the scanner's. */
  function MatchFile(cfg: Config, fileName: string): (b: bool)
    ensures b == Scanner.MatchFile(cfg, fileName)
  {
    cfg.matchFile(fileName)
  }

  /** The walker is handed the same primed `can_match` as the scanner: its
      `match_file` answers what the scanner's does and what `can_match`
      answers, without panicking or touching the regex slot. */
  lemma MatchFileIsCanMatch(cfg: Config, e: Cmd.Expr, slot: Option<string>, lib: Cmd.RegexLib, name: string)
    requires Cmd.Primed(e, slot)
    requires cfg.matchFile == Cmd.PrimedMatcher(e, slot, lib)
    ensures MatchFile(cfg, name) == Scanner.MatchFile(cfg, name)
    ensures Cmd.CanMatchStep(e, name, slot, lib) == Cmd.Step(Cmd.Returned(MatchFile(cfg, name)), slot)
  {
    Scanner.MatchFileIsCanMatch(cfg, e, slot, lib, name);
  }

  /** What a walk did: whether its loop ended in an error, and every path it
      handed to the processor, in order. */
  datatype Walk = Walk(failed: bool, files: seq<Path>)

  /** Entry `j` makes the loop return an error when the walk reaches it: its
      entry or file type cannot be read, or it is a matched file the
      processor fails on. */
  ghost predicate Aborts(es: seq<Node>, at: Path, cfg: Config, j: nat)
    requires j < |es|
  {
    || es[j].Unreadable?
    || (es[j].File? && MatchFile(cfg, NameText(es[j].name)) && !cfg.process(at + [j]))
  }

  /** The paths handed to the processor on account of one entry at path `at`,
      listed at depth `d`: the file itself, or the walk of the subdirectory. */
  ghost function EntryFiles(node: Node, at: Path, d: nat, cfg: Config): seq<Path>
    decreases node, 0
  {
    match node
    case File(n) => if MatchFile(cfg, NameText(n)) then [at] else []
    case Dir(_, sub) => if ShouldRecursive(cfg, d) then WalkDir(sub, at, d + 1, cfg).files else []
    case Other(_) => []
    case Unreadable => []
  }

  /** The walk of the listing from position `i` on, with spawned
      subdirectories walked at the point they are spawned. */
  ghost function WalkFrom(es: seq<Node>, at: Path, d: nat, cfg: Config, i: nat): Walk
    decreases es, |es| - i
  {
    if i >= |es| then Walk(false, [])
    else if Aborts(es, at, cfg, i) then Walk(true, EntryFiles(es[i], at + [i], d, cfg))
    else
      var rest := WalkFrom(es, at, d, cfg, i + 1);
      Walk(rest.failed, EntryFiles(es[i], at + [i], d, cfg) + rest.files)
  }

  ghost function WalkDir(l: Listing, at: Path, d: nat, cfg: Config): Walk
    decreases l, 0
  {
    match l
    case OpenFailed => Walk(true, [])
    case Entries(es) => WalkFrom(es, at, d, cfg, 0)
  }

  /** `scan_impl` of the walker. A spawned subdirectory walk runs to its end
      at the point it is spawned, one of the schedules the runtime may choose;
      its result is only logged. */
  method ScanImpl(l: Listing, p: Path, cfg: Config, curDepth: nat)
    returns (r: Result<()>, processed: seq<Path>)
    ensures r.Err? == WalkDir(l, p, curDepth, cfg).failed
    ensures processed == WalkDir(l, p, curDepth, cfg).files
    decreases l, 1
  {
    processed := [];
    if l.OpenFailed? {
      return Err, processed;
    }
    var es := l.entries;
    ghost var whole := WalkFrom(es, p, curDepth, cfg, 0);
    var i := 0;
    while i < |es|
      invariant 0 <= i <= |es|
      invariant processed + WalkFrom(es, p, curDepth, cfg, i).files == whole.files
      invariant WalkFrom(es, p, curDepth, cfg, i).failed == whole.failed
    {
      WalkStep(es, p, curDepth, cfg, i);
      var stop, files := ScanEntry(es, i, p, cfg, curDepth);
      ghost var later := WalkFrom(es, p, curDepth, cfg, i + 1).files;
      assert processed + (files + later) == (processed + files) + later;
      processed := processed + files;
      if stop {
        return Err, processed;
      }
      i := i + 1;
    }
    r := Ok(());
  }

  /** One turn of `scan_impl`'s loop, on entry `i` of the listing: a matched
      file is handed to the processor, a directory is walked when
      `should_recursive` allows it. `stop` says the loop returns an error here;
      `files` is what was processed on this entry's account. */
  method ScanEntry(es: seq<Node>, i: nat, p: Path, cfg: Config, curDepth: nat)
    returns (stop: bool, files: seq<Path>)
    requires i < |es|
    ensures stop == Aborts(es, p, cfg, i)
    ensures files == EntryFiles(es[i], p + [i], curDepth, cfg)
    decreases es[i], 0
  {
    var ent := es[i];
    files := [];
    if ent.Unreadable? {
      return true, files;
    }
    var fileName := NameText(ent.name);
    if ent.File? && MatchFile(cfg, fileName) {
      files := [p + [i]];
      var succeeded := cfg.process(p + [i]);
      stop := !succeeded;
    } else if ent.Dir? && ShouldRecursive(cfg, curDepth) {
      var subResult;
      subResult, files := ScanImpl(ent.listing, p + [i], cfg, curDepth + 1);
      stop := false;
    } else {
      stop := false;
    }
  }

  /** One step of the walk: an entry that does not abort contributes its own
      paths ahead of the rest of the listing's. */
  lemma WalkStep(es: seq<Node>, at: Path, d: nat, cfg: Config, i: nat)
    requires i < |es|
    ensures Aborts(es, at, cfg, i) ==> WalkFrom(es, at, d, cfg, i) == Walk(true, EntryFiles(es[i], at + [i], d, cfg))
    ensures !Aborts(es, at, cfg, i) ==>
      WalkFrom(es, at, d, cfg, i).failed == WalkFrom(es, at, d, cfg, i + 1).failed &&
      WalkFrom(es, at, d, cfg, i).files == EntryFiles(es[i], at + [i], d, cfg) + WalkFrom(es, at, d, cfg, i + 1).files
  {
  }

  /** `scan`: the root is walked at depth 0. */
  method Scan(root: Listing, cfg: Config) returns (r: Result<()>, processed: seq<Path>)
    ensures r.Err? <==> root.OpenFailed? || exists j :: 0 <= j < |root.entries| && Aborts(root.entries, [], cfg, j)
    ensures processed == WalkDir(root, [], 0, cfg).files
    ensures multiset(processed) <= Scanner.Dispatched(root, [], 0, cfg)
    ensures AllReadable(root) && root.Entries? && (forall q :: cfg.process(q)) ==>
      r.Ok? && multiset(processed) == Scanner.Dispatched(root, [], 0, cfg)
  {
    r, processed := ScanImpl(root, [], cfg, 0);
    if root.Entries? {
      FailedIffAbort(root.entries, [], 0, cfg, 0);
    }
    WalkWithinDispatch(root, [], 0, cfg);
    if AllReadable(root) && root.Entries? && (forall q :: cfg.process(q)) {
      AgreesWithScanner(root, [], 0, cfg);
    }
  }

  // ---------------------------------------------------------------------
  // Lemmas.

  /** The walk never hands the processor anything the scanner would not
      dispatch, and nothing twice: non-matching files and entries that are
      neither file nor directory are never processed. */
  lemma {:induction false} WalkWithinDispatch(l: Listing, at: Path, d: nat, cfg: Config)
    ensures multiset(WalkDir(l, at, d, cfg).files) <= Scanner.Dispatched(l, at, d, cfg)
    decreases l, 1
  {
    match l
    case OpenFailed =>
    case Entries(es) => WalkFromWithinDispatch(es, at, d, cfg, 0);
  }

  lemma {:induction false} EntryWithinDispatch(node: Node, at: Path, d: nat, cfg: Config)
    ensures multiset(EntryFiles(node, at, d, cfg)) <= Scanner.Contribution(node, at, d, cfg)
    decreases node, 1
  {
    match node
    case Dir(_, sub) =>
      if ShouldRecursive(cfg, d) {
        WalkWithinDispatch(sub, at, d + 1, cfg);
      }
    case _ =>
  }

  lemma {:induction false} WalkFromWithinDispatch(es: seq<Node>, at: Path, d: nat, cfg: Config, i: nat)
    ensures multiset(WalkFrom(es, at, d, cfg, i).files) <= Scanner.DispatchFrom(es, at, d, cfg, i)
    decreases es, |es| - i
  {
    if i < |es| {
      var here := EntryFiles(es[i], at + [i], d, cfg);
      var share := Scanner.Contribution(es[i], at + [i], d, cfg);
      var later := Scanner.DispatchFrom(es, at, d, cfg, i + 1);
      assert Scanner.DispatchFrom(es, at, d, cfg, i) == share + later;
      EntryWithinDispatch(es[i], at + [i], d, cfg);
      if Aborts(es, at, cfg, i) {
        SubMultisetSum(multiset(here), share, multiset{}, later);
      } else {
        WalkFromWithinDispatch(es, at, d, cfg, i + 1);
        SubMultisetSum(multiset(here), share, multiset(WalkFrom(es, at, d, cfg, i + 1).files), later);
      }
    }
  }

  lemma SubMultisetSum<T>(a: multiset<T>, b: multiset<T>, c: multiset<T>, e: multiset<T>)
    requires a <= b && c <= e
    ensures a + c <= b + e
  {
    forall x ensures (a + c)[x] <= (b + e)[x] {
      assert a[x] <= b[x] && c[x] <= e[x];
    }
  }

  /** Every path an entry yields lies under that entry's own path. */
  lemma {:induction false} EntryPaths(node: Node, at: Path, d: nat, cfg: Config)
    ensures forall q :: q in EntryFiles(node, at, d, cfg) ==> at <= q
    decreases node, 1
  {
    match node
    case Dir(_, sub) =>
      if ShouldRecursive(cfg, d) {
        WalkDirPaths(sub, at, d + 1, cfg);
      }
    case _ =>
  }

  lemma {:induction false} WalkDirPaths(l: Listing, at: Path, d: nat, cfg: Config)
    ensures forall q :: q in WalkDir(l, at, d, cfg).files ==> at <= q && |at| < |q|
    decreases l, 1
  {
    if l.Entries? {
      WalkFromPaths(l.entries, at, d, cfg, 0);
    }
  }

  /** Every processed path lies under the directory walked, below an entry at
      position `i` or later. */
  lemma {:induction false} WalkFromPaths(es: seq<Node>, at: Path, d: nat, cfg: Config, i: nat)
    ensures forall q :: q in WalkFrom(es, at, d, cfg, i).files ==>
      at <= q && |at| < |q| && i <= q[|at|] < |es|
    decreases es, |es| - i
  {
    if i < |es| {
      EntryUnder(es[i], at, i, d, cfg);
      if !Aborts(es, at, cfg, i) {
        WalkFromPaths(es, at, d, cfg, i + 1);
      }
    }
  }

  /** The paths entry `i` yields all go through position `i` of this directory. */
  lemma {:induction false} EntryUnder(node: Node, at: Path, i: nat, d: nat, cfg: Config)
    ensures forall q :: q in EntryFiles(node, at + [i], d, cfg) ==> at <= q && |at| < |q| && q[|at|] == i
    decreases node, 2
  {
    EntryPaths(node, at + [i], d, cfg);
    forall q | q in EntryFiles(node, at + [i], d, cfg) ensures at <= q && |at| < |q| && q[|at|] == i {
      assert q[..|at| + 1] == at + [i];
      assert q[..|at|] == (at + [i])[..|at|];
    }
  }

  /** Along `fs`, the component at position `k` of each path never decreases. */
  ghost predicate OrderedAt(fs: seq<Path>, k: nat)
  {
    forall a, b :: 0 <= a < b < |fs| ==> k < |fs[a]| && k < |fs[b]| && fs[a][k] <= fs[b][k]
  }

  /** Matching files are processed in listing order: along the processed
      sequence, the position of the entry of this directory that each path
      goes through never decreases. */
  lemma {:induction false} ListingOrder(es: seq<Node>, at: Path, d: nat, cfg: Config, i: nat)
    ensures OrderedAt(WalkFrom(es, at, d, cfg, i).files, |at|)
    decreases |es| - i
  {
    if i < |es| {
      EntryUnder(es[i], at, i, d, cfg);
      var own := EntryFiles(es[i], at + [i], d, cfg);
      if Aborts(es, at, cfg, i) {
        OrderedConcat(own, [], |at|, i);
      } else {
        ListingOrder(es, at, d, cfg, i + 1);
        WalkFromPaths(es, at, d, cfg, i + 1);
        OrderedConcat(own, WalkFrom(es, at, d, cfg, i + 1).files, |at|, i);
      }
    }
  }

  /** Paths all through position `i` at component `k`, followed by ordered
      paths through later positions, are ordered. */
  lemma OrderedConcat(own: seq<Path>, rest: seq<Path>, k: nat, i: nat)
    requires forall q :: q in own ==> k < |q| && q[k] == i
    requires forall q :: q in rest ==> k < |q| && i + 1 <= q[k]
    requires OrderedAt(rest, k)
    ensures OrderedAt(own + rest, k)
  {
    var fs := own + rest;
    forall a, b | 0 <= a < b < |fs| ensures k < |fs[a]| && k < |fs[b]| && fs[a][k] <= fs[b][k] {
      if b < |own| {
        assert fs[a] in own && fs[b] in own;
      } else if a < |own| {
        assert fs[a] in own && fs[b] == rest[b - |own|];
      } else {
        assert fs[a] == rest[a - |own|] && fs[b] == rest[b - |own|];
      }
    }
  }

  /** A directory's walk ends in an error exactly when some entry of it
      aborts; failed subdirectory walks never count. */
  lemma {:induction false} FailedIffAbort(es: seq<Node>, at: Path, d: nat, cfg: Config, i: nat)
    ensures WalkFrom(es, at, d, cfg, i).failed <==> exists j :: i <= j < |es| && Aborts(es, at, cfg, j)
    decreases |es| - i
  {
    if i < |es| && !Aborts(es, at, cfg, i) {
      FailedIffAbort(es, at, d, cfg, i + 1);
      assert (exists j :: i <= j < |es| && Aborts(es, at, cfg, j))
        == (exists j :: i + 1 <= j < |es| && Aborts(es, at, cfg, j));
    }
  }

  /** The first aborting entry ends the loop: nothing listed after it is
      processed, and the directory's walk reports an error. */
  lemma {:induction false} StopsAtFirstAbort(es: seq<Node>, at: Path, d: nat, cfg: Config, i: nat, j: nat)
    requires i <= j < |es| && Aborts(es, at, cfg, j)
    requires forall k :: i <= k < j ==> !Aborts(es, at, cfg, k)
    ensures WalkFrom(es, at, d, cfg, i).failed
    ensures forall q :: q in WalkFrom(es, at, d, cfg, i).files ==> |at| < |q| && q[|at|] <= j
    decreases j - i
  {
    EntryUnder(es[i], at, i, d, cfg);
    if i < j {
      StopsAtFirstAbort(es, at, d, cfg, i + 1, j);
    }
  }

  /** Every entry the loop reaches is handled: while no earlier entry aborts,
      entry `k`'s paths are all processed. This covers the matched files listed
      before the first aborting entry, the aborting file itself (it is handed
      to the processor before its failure is seen), and every sibling listed
      after a subdirectory whose own walk failed, since a directory entry never
      aborts its parent. */
  lemma {:induction false} ProcessedUpToFirstAbort(es: seq<Node>, at: Path, d: nat, cfg: Config, i: nat, k: nat)
    requires i <= k < |es|
    requires forall m :: i <= m < k ==> !Aborts(es, at, cfg, m)
    ensures multiset(EntryFiles(es[k], at + [k], d, cfg)) <= multiset(WalkFrom(es, at, d, cfg, i).files)
    decreases k - i
  {
    if i < k {
      ProcessedUpToFirstAbort(es, at, d, cfg, i + 1, k);
    }
  }

  /** A subdirectory's failure does not stop its parent: a directory entry
      never aborts, so the walk of the rest of the listing is kept whole. */
  lemma SubdirFailureSwallowed(es: seq<Node>, at: Path, d: nat, cfg: Config, i: nat)
    requires i < |es| && es[i].Dir?
    ensures WalkFrom(es, at, d, cfg, i).failed == WalkFrom(es, at, d, cfg, i + 1).failed
    ensures WalkFrom(es, at, d, cfg, i).files == EntryFiles(es[i], at + [i], d, cfg) + WalkFrom(es, at, d, cfg, i + 1).files
  {
  }

  /** A subdirectory is walked only when `should_recursive` holds at the
      directory's depth; otherwise only the directory's own matched files are
      processed. */
  lemma {:induction false} NoRecursionOwnFilesOnly(es: seq<Node>, at: Path, d: nat, cfg: Config, i: nat)
    requires !ShouldRecursive(cfg, d)
    ensures forall q :: q in WalkFrom(es, at, d, cfg, i).files ==>
      |q| == |at| + 1 && q == at + [q[|at|]] && i <= q[|at|] < |es| && es[q[|at|]].File?
    decreases |es| - i
  {
    if i < |es| && !Aborts(es, at, cfg, i) {
      NoRecursionOwnFilesOnly(es, at, d, cfg, i + 1);
    }
  }

  /** When every entry is readable and the processor never fails, the walker
      succeeds and processes exactly the files the concurrent scanner
      dispatches. */
  lemma {:induction false} AgreesWithScanner(l: Listing, at: Path, d: nat, cfg: Config)
    requires AllReadable(l) && l.Entries?
    requires forall q :: cfg.process(q)
    ensures !WalkDir(l, at, d, cfg).failed
    ensures multiset(WalkDir(l, at, d, cfg).files) == Scanner.Dispatched(l, at, d, cfg)
    decreases l, 1
  {
    AgreesFrom(l.entries, at, d, cfg, 0);
  }

  lemma {:induction false} EntryAgrees(node: Node, at: Path, d: nat, cfg: Config)
    requires !node.Unreadable? && (node.Dir? ==> AllReadable(node.listing))
    requires forall q :: cfg.process(q)
    ensures multiset(EntryFiles(node, at, d, cfg)) == Scanner.Contribution(node, at, d, cfg)
    decreases node, 1
  {
    match node
    case Dir(_, sub) =>
      if ShouldRecursive(cfg, d) && sub.Entries? {
        AgreesWithScanner(sub, at, d + 1, cfg);
      }
    case _ =>
  }

  lemma {:induction false} AgreesFrom(es: seq<Node>, at: Path, d: nat, cfg: Config, i: nat)
    requires AllReadable(Entries(es))
    requires forall q :: cfg.process(q)
    ensures !WalkFrom(es, at, d, cfg, i).failed
    ensures multiset(WalkFrom(es, at, d, cfg, i).files) == Scanner.DispatchFrom(es, at, d, cfg, i)
    decreases es, |es| - i
  {
    if i < |es| {
      assert !Aborts(es, at, cfg, i);
      EntryAgrees(es[i], at + [i], d, cfg);
      AgreesFrom(es, at, d, cfg, i + 1);
    }
  }
}
