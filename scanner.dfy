/** The concurrent scanner (`ScannerExec`, `scan_impl`, `scan`): every matched
    file and every subdirectory of a listing becomes a child task, the parent
    joins them all and drops their failures. Sibling order is unspecified, so
    what it dispatches is specified as a multiset of paths. */
module Scanner {
  import opened DirTree
  import Cmd

  /** Rust's order on `Option`: `None` is below every `Some`. */
  predicate OptionLe(a: Option<nat>, b: Option<nat>)
  {
    match (a, b)
    case (None, _) => true
    case (Some(_), None) => false
    case (Some(x), Some(y)) => x <= y
  }

  /** `should_recursive`, with the comparison exactly as the source writes it. */
  function ShouldRecursive(cfg: Config, curDepth: nat): (b: bool)
    ensures !cfg.recursive ==> !b
    ensures cfg.recursive && cfg.maxDepth.None? ==> b
    ensures cfg.maxDepth.Some? ==> (b <==> cfg.recursive && cfg.maxDepth.value <= curDepth)
  {
    cfg.recursive && (cfg.maxDepth.None? || OptionLe(cfg.maxDepth, Some(curDepth)))
  }

  /** `match_file`: the matcher's answer for the name. */
  function MatchFile(cfg: Config, fileName: string): (b: bool)
    ensures b <==> cfg.matchFile(fileName)
  {
    cfg.matchFile(fileName)
  }

  /** The scanner is handed the primed `can_match` of the parsed matcher:
      then `match_file` answers exactly what `can_match` answers for the
      name, and that call neither panics nor touches the regex slot. */
  lemma MatchFileIsCanMatch(cfg: Config, e: Cmd.Expr, slot: Option<string>, lib: Cmd.RegexLib, name: string)
    requires Cmd.Primed(e, slot)
    requires cfg.matchFile == Cmd.PrimedMatcher(e, slot, lib)
    ensures Cmd.CanMatchStep(e, name, slot, lib) == Cmd.Step(Cmd.Returned(MatchFile(cfg, name)), slot)
  {
  }

  /** With a Suffix matcher the scanner selects a name exactly when the name
      is some stem followed by the suffix. */
  lemma SuffixSelectsNames(cfg: Config, suffix: string, slot: Option<string>, lib: Cmd.RegexLib, name: string)
    requires cfg.matchFile == Cmd.PrimedMatcher(Cmd.Suffix(suffix), slot, lib)
    ensures MatchFile(cfg, name) <==> exists stem :: stem + suffix == name
  {
    Cmd.SuffixIffEndsWith(suffix, name, slot, lib);
  }

  /** With a Prefix matcher the scanner selects a name exactly when the name
      is the prefix followed by some rest. */
  lemma PrefixSelectsNames(cfg: Config, prefix: string, slot: Option<string>, lib: Cmd.RegexLib, name: string)
    requires cfg.matchFile == Cmd.PrimedMatcher(Cmd.Prefix(prefix), slot, lib)
    ensures MatchFile(cfg, name) <==> exists rest :: prefix + rest == name
  {
    Cmd.PrefixIffStartsWith(prefix, name, slot, lib);
  }

  /** With a Regexp matcher the scanner asks the pattern held in the slot,
      which is the process's first Regexp pattern, not necessarily this
      matcher's own. */
  lemma RegexpAsksSlot(cfg: Config, pattern: string, slot: Option<string>, lib: Cmd.RegexLib, name: string)
    requires slot.Some?
    requires cfg.matchFile == Cmd.PrimedMatcher(Cmd.Regexp(pattern), slot, lib)
    ensures MatchFile(cfg, name) == lib.isMatch(slot.value, name)
  {
  }

  /** One element of `read_dir`'s vector: the entry's path is `p + [index]`. */
  datatype Child = Child(index: nat, node: Node)

  /** The `filter_map` over the listing from position `i` on. */
  function KeepReadable(es: seq<Node>, i: nat): (r: seq<Child>)
    requires i <= |es|
    ensures forall k :: 0 <= k < |r| ==>
      i <= r[k].index < |es| && es[r[k].index] == r[k].node && !r[k].node.Unreadable?
    ensures forall k1, k2 :: 0 <= k1 < k2 < |r| ==> r[k1].index < r[k2].index
    ensures forall j :: i <= j < |es| && !es[j].Unreadable? ==> Child(j, es[j]) in r
    decreases |es| - i
  {
    if i == |es| then []
    else if es[i].Unreadable? then KeepReadable(es, i + 1)
    else [Child(i, es[i])] + KeepReadable(es, i + 1)
  }

  /** `read_dir`: fails only when the directory cannot be opened; otherwise
      keeps exactly the readable entries, in listing order. */
  function ReadDir(l: Listing): (r: Result<seq<Child>>)
    ensures r.Err? <==> l.OpenFailed?
    ensures r.Ok? ==> forall k :: 0 <= k < |r.value| ==>
      r.value[k].index < |l.entries| && l.entries[r.value[k].index] == r.value[k].node
      && !r.value[k].node.Unreadable?
    ensures r.Ok? ==> forall k1, k2 :: 0 <= k1 < k2 < |r.value| ==>
      r.value[k1].index < r.value[k2].index
    ensures r.Ok? ==> forall j :: 0 <= j < |l.entries| && !l.entries[j].Unreadable? ==>
      Child(j, l.entries[j]) in r.value
  {
    match l
    case OpenFailed => Err
    case Entries(es) => Ok(KeepReadable(es, 0))
  }

  // ---------------------------------------------------------------------
  // Specification: the multiset of paths handed to the processor.

  /** What one entry at path `at`, listed at depth `d`, contributes. */
  ghost function Contribution(node: Node, at: Path, d: nat, cfg: Config): multiset<Path>
    decreases node, 0
  {
    match node
    case File(n) => if MatchFile(cfg, NameText(n)) then multiset{at} else multiset{}
    case Dir(_, sub) => if ShouldRecursive(cfg, d) then Dispatched(sub, at, d + 1, cfg) else multiset{}
    case Other(_) => multiset{}
    case Unreadable => multiset{}
  }

  /** Every path dispatched by a traversal of `l`, found at `at` and depth `d`. */
  ghost function Dispatched(l: Listing, at: Path, d: nat, cfg: Config): multiset<Path>
    decreases l, 0
  {
    match l
    case OpenFailed => multiset{}
    case Entries(es) => DispatchFrom(es, at, d, cfg, 0)
  }

  ghost function DispatchFrom(es: seq<Node>, at: Path, d: nat, cfg: Config, i: nat): multiset<Path>
    decreases es, |es| - i
  {
    if i >= |es| then multiset{}
    else Contribution(es[i], at + [i], d, cfg) + DispatchFrom(es, at, d, cfg, i + 1)
  }

  /** Reference definition: `rel` leads from `l` (at depth `d`) to a matched
      regular file, through directories the depth rule lets the scanner enter. */
  ghost predicate Selected(l: Listing, rel: Path, d: nat, cfg: Config)
    decreases l, 1
  {
    && l.Entries?
    && 1 <= |rel|
    && rel[0] < |l.entries|
    && SelectedNode(l.entries[rel[0]], rel[1..], d, cfg)
  }

  ghost predicate SelectedNode(node: Node, rel: Path, d: nat, cfg: Config)
    decreases node, 0
  {
    match node
    case File(n) => rel == [] && MatchFile(cfg, NameText(n))
    case Dir(_, sub) => 1 <= |rel| && ShouldRecursive(cfg, d) && Selected(sub, rel, d + 1, cfg)
    case Other(_) => false
    case Unreadable => false
  }

  // ---------------------------------------------------------------------
  // The engine.

  /** A spawned child: process one file, or scan the subdirectory listed at
      position `index` at depth `depth`. */
  datatype Task = ProcessFile(path: Path) | ScanSubdir(index: nat, depth: nat)

  ghost function ChildYield(cs: seq<Child>, p: Path, d: nat, cfg: Config): multiset<Path>
  {
    if cs == [] then multiset{}
    else Contribution(cs[0].node, p + [cs[0].index], d, cfg) + ChildYield(cs[1..], p, d, cfg)
  }

  ghost predicate TaskFits(t: Task, l: Listing)
  {
    t.ScanSubdir? ==> l.Entries? && t.index < |l.entries| && l.entries[t.index].Dir?
  }

  ghost function TaskYield(t: Task, l: Listing, p: Path, cfg: Config): multiset<Path>
    requires TaskFits(t, l)
  {
    match t
    case ProcessFile(fp) => multiset{fp}
    case ScanSubdir(i, depth) => Dispatched(l.entries[i].listing, p + [i], depth, cfg)
  }

  ghost function TasksYield(ts: seq<Task>, l: Listing, p: Path, cfg: Config): multiset<Path>
    requires forall j :: 0 <= j < |ts| ==> TaskFits(ts[j], l)
  {
    if ts == [] then multiset{}
    else TasksYield(ts[..|ts| - 1], l, p, cfg) + TaskYield(ts[|ts| - 1], l, p, cfg)
  }

  /** The spawning loop of `scan_impl`: a `ProcessFile` task for each listed
      regular file whose name matches, a `ScanSubdir` task one level deeper for
      each listed directory when `should_recursive(cur_depth)` holds, nothing
      for anything else. Together the tasks yield what the children contribute. */
  method SpawnChildren(l: Listing, cs: seq<Child>, p: Path, cfg: Config, curDepth: nat)
    returns (childTasks: seq<Task>)
    requires l.Entries?
    requires forall k :: 0 <= k < |cs| ==>
      cs[k].index < |l.entries| && l.entries[cs[k].index] == cs[k].node && !cs[k].node.Unreadable?
    ensures forall j :: 0 <= j < |childTasks| ==> TaskFits(childTasks[j], l)
    ensures TasksYield(childTasks, l, p, cfg) == ChildYield(cs, p, curDepth, cfg)
  {
    childTasks := [];
    for k := 0 to |cs|
      invariant forall j :: 0 <= j < |childTasks| ==> TaskFits(childTasks[j], l)
      invariant TasksYield(childTasks, l, p, cfg) + ChildYield(cs[k..], p, curDepth, cfg)
        == ChildYield(cs, p, curDepth, cfg)
    {
      var c := cs[k];
      SpawnStep(cs, k, l, p, curDepth, cfg);
      var fileName := NameText(c.node.name);
      if c.node.File? && MatchFile(cfg, fileName) {
        SpawnedShare(c, ProcessFile(p + [c.index]), l, p, curDepth, cfg);
        TasksYieldAppend(childTasks, ProcessFile(p + [c.index]), l, p, cfg);
        childTasks := childTasks + [ProcessFile(p + [c.index])];
      } else if c.node.Dir? && ShouldRecursive(cfg, curDepth) {
        SpawnedShare(c, ScanSubdir(c.index, curDepth + 1), l, p, curDepth, cfg);
        TasksYieldAppend(childTasks, ScanSubdir(c.index, curDepth + 1), l, p, cfg);
        childTasks := childTasks + [ScanSubdir(c.index, curDepth + 1)];
      } else {
        NothingSpawnedShare(c, p, curDepth, cfg);
      }
    }
    assert cs[|cs|..] == [];
  }

  /** `scan_impl`: list the directory, spawn the children, then join them
      all. The directory's own result is `Err` exactly when its listing could
      not be read, whatever became of its children. */
  method ScanImpl(l: Listing, p: Path, cfg: Config, curDepth: nat)
    returns (r: Result<()>, processed: seq<Path>)
    ensures r.Err? <==> l.OpenFailed?
    ensures multiset(processed) == Dispatched(l, p, curDepth, cfg)
    decreases l, 1
  {
    var d := ReadDir(l);
    if d.Err? {
      return Err, [];
    }
    ChildYieldOfListing(l.entries, p, curDepth, cfg, 0);
    var childTasks := SpawnChildren(l, d.value, p, cfg, curDepth);
    processed := JoinChildren(l, childTasks, p, cfg);
    r := Ok(());
  }

  /** The draining loop of `scan_impl`: every spawned task is run to its end
      and its failure, if any, is only logged. The tasks run one after the
      other here, one of the schedules the runtime may choose. */
  method JoinChildren(l: Listing, childTasks: seq<Task>, p: Path, cfg: Config)
    returns (processed: seq<Path>)
    requires forall j :: 0 <= j < |childTasks| ==> TaskFits(childTasks[j], l)
    ensures multiset(processed) == TasksYield(childTasks, l, p, cfg)
    decreases l, 0
  {
    processed := [];
    for j := 0 to |childTasks|
      invariant multiset(processed) == TasksYield(childTasks[..j], l, p, cfg)
    {
      TasksYieldPrefix(childTasks, j, l, p, cfg);
      match childTasks[j]
      case ProcessFile(fp) =>
        var succeeded := cfg.process(fp);
        processed := processed + [fp];
      case ScanSubdir(i, depth) =>
        var subResult, subProcessed := ScanImpl(l.entries[i].listing, p + [i], cfg, depth);
        processed := processed + subProcessed;
    }
    assert childTasks[..|childTasks|] == childTasks;
  }

  /** `scan`: the root is scanned at depth 0. */
  method Scan(root: Listing, cfg: Config) returns (r: Result<()>, processed: seq<Path>)
    ensures r.Err? <==> root.OpenFailed?
    ensures forall q :: multiset(processed)[q] == if Selected(root, q, 0, cfg) then 1 else 0
  {
    r, processed := ScanImpl(root, [], cfg, 0);
    forall q ensures multiset(processed)[q] == if Selected(root, q, 0, cfg) then 1 else 0 {
      DispatchedCount(root, [], 0, cfg, q);
      assert q[0..] == q;
    }
  }

  // ---------------------------------------------------------------------
  // Lemmas.

  lemma TasksYieldAppend(ts: seq<Task>, t: Task, l: Listing, p: Path, cfg: Config)
    requires forall j :: 0 <= j < |ts| ==> TaskFits(ts[j], l)
    requires TaskFits(t, l)
    ensures forall j :: 0 <= j < |ts + [t]| ==> TaskFits((ts + [t])[j], l)
    ensures TasksYield(ts + [t], l, p, cfg) == TasksYield(ts, l, p, cfg) + TaskYield(t, l, p, cfg)
  {
    assert (ts + [t])[..|ts|] == ts;
  }

  lemma TasksYieldPrefix(ts: seq<Task>, j: nat, l: Listing, p: Path, cfg: Config)
    requires j < |ts|
    requires forall i :: 0 <= i < |ts| ==> TaskFits(ts[i], l)
    ensures TasksYield(ts[..j + 1], l, p, cfg) == TasksYield(ts[..j], l, p, cfg) + TaskYield(ts[j], l, p, cfg)
  {
    assert ts[..j + 1][..j] == ts[..j];
  }

  lemma SpawnedShare(c: Child, t: Task, l: Listing, p: Path, d: nat, cfg: Config)
    requires l.Entries? && c.index < |l.entries| && l.entries[c.index] == c.node
    requires c.node.File? && MatchFile(cfg, NameText(c.node.name)) ==> t == ProcessFile(p + [c.index])
    requires c.node.Dir? && ShouldRecursive(cfg, d) ==> t == ScanSubdir(c.index, d + 1)
    requires (c.node.File? && MatchFile(cfg, NameText(c.node.name))) || (c.node.Dir? && ShouldRecursive(cfg, d))
    ensures TaskFits(t, l)
    ensures TaskYield(t, l, p, cfg) == Contribution(c.node, p + [c.index], d, cfg)
  {
  }

  lemma NothingSpawnedShare(c: Child, p: Path, d: nat, cfg: Config)
    requires !(c.node.File? && MatchFile(cfg, NameText(c.node.name)))
    requires !(c.node.Dir? && ShouldRecursive(cfg, d))
    ensures Contribution(c.node, p + [c.index], d, cfg) == multiset{}
  {
  }

  /** The k-th child contributes its own share and leaves the rest to the others. */
  lemma SpawnStep(cs: seq<Child>, k: nat, l: Listing, p: Path, d: nat, cfg: Config)
    requires k < |cs|
    ensures ChildYield(cs[k..], p, d, cfg)
      == Contribution(cs[k].node, p + [cs[k].index], d, cfg) + ChildYield(cs[k + 1..], p, d, cfg)
  {
    assert cs[k..][0] == cs[k];
    assert cs[k..][1..] == cs[k + 1..];
  }

  /** Dropping the unreadable entries changes nothing about what is dispatched. */
  lemma {:induction false} ChildYieldOfListing(es: seq<Node>, p: Path, d: nat, cfg: Config, i: nat)
    requires i <= |es|
    ensures ChildYield(KeepReadable(es, i), p, d, cfg) == DispatchFrom(es, p, d, cfg, i)
    decreases |es| - i
  {
    if i < |es| {
      ChildYieldOfListing(es, p, d, cfg, i + 1);
      var r := KeepReadable(es, i);
      var rest := KeepReadable(es, i + 1);
      assert DispatchFrom(es, p, d, cfg, i) == Contribution(es[i], p + [i], d, cfg) + DispatchFrom(es, p, d, cfg, i + 1);
      if es[i].Unreadable? {
        assert r == rest;
      } else {
        assert r == [Child(i, es[i])] + rest;
        assert r[0] == Child(i, es[i]) && r[1..] == rest;
        assert ChildYield(r, p, d, cfg) == Contribution(es[i], p + [i], d, cfg) + ChildYield(rest, p, d, cfg);
      }
    }
  }

  /** Each path is dispatched exactly once if it leads to a selected file, and
      never otherwise. */
  lemma {:induction false} DispatchedCount(l: Listing, at: Path, d: nat, cfg: Config, q: Path)
    ensures Dispatched(l, at, d, cfg)[q] == if at <= q && Selected(l, q[|at|..], d, cfg) then 1 else 0
    decreases l, 1
  {
    match l
    case OpenFailed =>
    case Entries(es) =>
      DispatchFromCount(es, at, d, cfg, 0, q);
  }

  lemma {:induction false} DispatchFromCount(es: seq<Node>, at: Path, d: nat, cfg: Config, i: nat, q: Path)
    ensures DispatchFrom(es, at, d, cfg, i)[q] ==
      if at <= q && |at| < |q| && i <= q[|at|] && Selected(Entries(es), q[|at|..], d, cfg) then 1 else 0
    decreases es, |es| - i
  {
    if i < |es| {
      ContributionCount(es[i], at + [i], d, cfg, q);
      DispatchFromCount(es, at, d, cfg, i + 1, q);
      if at + [i] <= q {
        assert q[|at|] == i;
        assert q[|at|..][1..] == q[|at| + 1..];
        assert at <= q;
      } else if at <= q && |at| < |q| {
        assert q[..|at| + 1] == at + [q[|at|]];
      }
    }
  }

  lemma {:induction false} ContributionCount(node: Node, at: Path, d: nat, cfg: Config, q: Path)
    ensures Contribution(node, at, d, cfg)[q] ==
      if at <= q && SelectedNode(node, q[|at|..], d, cfg) then 1 else 0
    decreases node, 1
  {
    match node
    case File(n) =>
      if at <= q && q[|at|..] == [] {
        assert q == at;
      }
    case Dir(_, sub) =>
      DispatchedCount(sub, at, d + 1, cfg, q);
    case Other(_) =>
    case Unreadable =>
  }

  /** A subdirectory is entered only when `should_recursive` holds at the
      depth of the directory listing it; when it does not, only that
      directory's own files are dispatched. */
  lemma NoRecursionOwnFilesOnly(l: Listing, at: Path, d: nat, cfg: Config, q: Path)
    requires !ShouldRecursive(cfg, d)
    requires q in Dispatched(l, at, d, cfg)
    ensures |q| == |at| + 1 && at <= q
    ensures l.Entries? && q[|at|] < |l.entries| && l.entries[q[|at|]].File?
  {
    DispatchedCount(l, at, d, cfg, q);
  }

  /** With recursion switched off, the scan dispatches only files listed
      directly in the root. */
  lemma NotRecursiveRootOnly(root: Listing, cfg: Config, q: Path)
    requires !cfg.recursive
    requires q in Dispatched(root, [], 0, cfg)
    ensures |q| == 1 && root.Entries? && q[0] < |root.entries| && root.entries[q[0]].File?
  {
    NoRecursionOwnFilesOnly(root, [], 0, cfg, q);
  }

  /** As written, a depth limit `Some(m)` with `m > 0` stops the scan from
      entering any subdirectory of the root: `m <= 0` is false at the root. */
  lemma PositiveLimitRootOnly(root: Listing, cfg: Config, q: Path)
    requires cfg.maxDepth.Some? && 0 < cfg.maxDepth.value
    requires q in Dispatched(root, [], 0, cfg)
    ensures |q| == 1 && root.Entries? && q[0] < |root.entries| && root.entries[q[0]].File?
  {
    NoRecursionOwnFilesOnly(root, [], 0, cfg, q);
  }

  /** With recursion on and no limit (or, as written, a limit of 0), the scan
      selects every matched regular file anywhere in the tree. */
  lemma {:induction false} UnlimitedSelectsEveryMatch(l: Listing, rel: Path, d: nat, cfg: Config)
    requires cfg.recursive && (cfg.maxDepth.None? || cfg.maxDepth == Some(0))
    ensures Selected(l, rel, d, cfg) <==> MatchedFileAt(l, rel, cfg.matchFile)
    decreases |rel|
  {
    if l.Entries? && 1 <= |rel| && rel[0] < |l.entries| {
      match l.entries[rel[0]]
      case Dir(_, sub) =>
        if 1 < |rel| {
          UnlimitedSelectsEveryMatch(sub, rel[1..], d + 1, cfg);
        }
      case _ =>
    }
  }

  /** A matched file is dispatched whatever happens to its siblings: the
      processor's outcomes do not enter into what the scan dispatches. */
  lemma DispatchIgnoresOutcomes(l: Listing, at: Path, d: nat, cfg: Config, process': Path -> bool)
    ensures Dispatched(l, at, d, cfg) == Dispatched(l, at, d, cfg.(process := process'))
  {
    forall q ensures Dispatched(l, at, d, cfg)[q] == Dispatched(l, at, d, cfg.(process := process'))[q] {
      DispatchedCount(l, at, d, cfg, q);
      DispatchedCount(l, at, d, cfg.(process := process'), q);
      if at <= q {
        SelectedIgnoresOutcomes(l, q[|at|..], d, cfg, process');
      }
    }
  }

  lemma {:induction false} SelectedIgnoresOutcomes(l: Listing, rel: Path, d: nat, cfg: Config, process': Path -> bool)
    ensures Selected(l, rel, d, cfg) == Selected(l, rel, d, cfg.(process := process'))
    decreases |rel|
  {
    if l.Entries? && 1 <= |rel| && rel[0] < |l.entries| {
      match l.entries[rel[0]]
      case Dir(_, sub) =>
        if 1 <= |rel[1..]| {
          SelectedIgnoresOutcomes(sub, rel[1..], d + 1, cfg, process');
        }
      case _ =>
    }
  }

  /** A file whose path has no name, or a name that is not UTF-8, is matched
      as the empty string. */
  lemma NamelessMatchedAsEmpty(es: seq<Node>, at: Path, d: nat, cfg: Config, i: nat)
    requires i < |es| && es[i].File? && !es[i].name.Utf8?
    ensures at + [i] in Dispatched(Entries(es), at, d, cfg) <==> cfg.matchFile("")
  {
    DispatchedCount(Entries(es), at, d, cfg, at + [i]);
    assert (at + [i])[|at|..] == [i];
  }
}
