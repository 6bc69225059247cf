# u8pls: the traversal and matching core, in Dafny

u8pls walks a directory tree and rewrites every selected file as UTF-8. A file
is selected when its name matches a suffix, a prefix or a regular expression
given on the command line. This project models four parts of it:

- the name matcher with its process-wide compiled-regex slot (`Cmd`, for `src/cmd.rs`);
- the concurrent scanner (`Scanner`, for `src/utf8s/scan.rs`);
- the older sequential walker (`Walker`, for `src/utf8s/walker.rs`);
- the `Coding` value that carries a file's content to UTF-8 (`Code`, for `src/utf8s/code.rs`).

`DirTree` holds what the two traversal engines share:
- an in-memory directory tree: files, directories, other entries, and entries
  whose `DirEntry` or file type cannot be read;
- the configuration: the recursive flag, `max_depth`, the matcher, and whether
  the processor succeeds on a path.

A path is written as the positions of its components in the raw directory
listings, so "each file exactly once" is a statement about these paths.

Three things are kept abstract:
- The regex engine is two oracles: which patterns compile, and whether a
  pattern matches a name.
- The encoding detector and the decoders are oracles too.
- The file processor is an oracle that says whether processing a path succeeds.

What is proved:
- **Scanner.** It hands each matched file that it reaches to the processor
  exactly once. The reference predicate `Selected` says which files it reaches.
  The scanner errs only when its own directory cannot be opened.
- **Walker.** It processes matched files in listing order. It stops a
  directory at the first entry that is unreadable or whose processing fails,
  and it ignores subdirectory failures. It never processes anything the
  scanner would not. When nothing fails, it processes exactly what the
  scanner does.
- **Regex slot.** It is written at most once, and only with the first Regexp
  pattern. `parse` primes it, and after that the matcher is a plain predicate.
- **Coding.** A file the detector takes for UTF-8 is written back byte for
  byte. Any other file is written back as bytes that decode as UTF-8 to
  exactly the decoder's text.

## The depth rule

`should_recursive` (src/utf8s/scan.rs:108, src/utf8s/walker.rs:57) compares
`max_depth <= Some(cur_depth)`. The option is described as a maximum depth,
but as written the comparison works the other way:
- with `Some(0)` and `recursive` set, every directory is entered;
- with `Some(m)` for `m > 0`, no subdirectory of the root is entered, because
  the root is scanned at depth 0.

The model follows the code. `Scanner.PositiveLimitRootOnly` and
`Scanner.UnlimitedSelectsEveryMatch` state these consequences.

## Model

| member | source | states |
|---|---|---|
| Cmd.CanMatchStep | src/cmd.rs:35-54 | Suffix and Prefix never touch the slot and always answer. A filled slot is never replaced. Once filled, a Regexp call answers with the cached pattern, whatever the instance's own pattern is. A call panics exactly when the slot is empty and its pattern does not compile. The first successful Regexp call stores its own pattern and answers with it. |
| Cmd.RegexCache.constructor | src/cmd.rs:32 | the process-wide slot starts empty |
| Cmd.RegexCache.CanMatch | src/cmd.rs:35-54 | the imperative call's outcome and new slot are those of `CanMatchStep` on the old slot |
| Cmd.RegexCache.Parse | src/cmd.rs:57-60 | returns the arguments unchanged, and changes the slot as `Prime` says |
| Cmd.Prime | src/cmd.rs:57-60 | unless it panics, the `can_match("")` call leaves a Regexp matcher's slot filled, so the matcher is primed. It panics exactly when the slot is empty and the pattern does not compile. |
| Cmd.PrimedMatcher | src/cmd.rs:43-51 | on a primed slot, `can_match` is a pure predicate on names and leaves the slot alone |
| Cmd.FilledSlotKept | src/cmd.rs:44-50 | a filled slot is unchanged after any run of calls |
| Cmd.FilledSlotNeverPanics | src/cmd.rs:44-49 | once the slot is filled, no call of a run panics and every call answers |
| Cmd.SlotHoldsFirstPattern | src/cmd.rs:44-50 | From an empty slot, the slot ends up holding the first Regexp pattern when it compiles, and nothing panics. It stays empty when there is no Regexp call. When the first Regexp pattern does not compile, the run panics at exactly that call, with the slot empty and no panic before it. |
| Cmd.SuffixIffEndsWith | src/cmd.rs:37-39 | Suffix matches a name exactly when the name is some stem followed by the suffix |
| Cmd.PrefixIffStartsWith | src/cmd.rs:40-42 | Prefix matches a name exactly when the name is the prefix followed by something |
| Cmd.EmptyPatternMatchesAll | src/cmd.rs:37-42 | an empty suffix or prefix matches every name, "" included, and leaves the slot alone |
| Cmd.DocumentedExamples | src/cmd.rs:16-24 | ".txt" matches "notes.txt" but not "notes.md"; "data_" matches "data_1.docx" and "data_2.bin" but not "meta_1.docx" |
| DirTree.NameText | src/utf8s/scan.rs:153-156 | a UTF-8 file name is matched as itself; a missing or non-UTF-8 name as "" |
| Scanner.ShouldRecursive | src/utf8s/scan.rs:107-109 | false when not recursive; true at every depth with no limit; with `Some(m)`, true exactly when recursive and `m <= cur_depth`, as written |
| Scanner.MatchFileIsCanMatch | src/utf8s/scan.rs:111-113 | given the primed `can_match` of a matcher, `match_file` answers exactly what `can_match` answers for the name, and that call neither panics nor changes the regex slot |
| Scanner.SuffixSelectsNames | src/utf8s/scan.rs:111-113 | with a Suffix matcher, a name is selected exactly when it is some stem followed by the suffix |
| Scanner.PrefixSelectsNames | src/utf8s/scan.rs:111-113 | with a Prefix matcher, a name is selected exactly when it is the prefix followed by some rest |
| Scanner.RegexpAsksSlot | src/utf8s/scan.rs:111-113 | with a Regexp matcher, a name is selected exactly when the pattern held in the slot matches it, whatever the matcher's own pattern |
| Scanner.KeepReadable | src/utf8s/scan.rs:126-135 | The `filter_map` keeps an entry, with its own position, exactly when its entry and file type were readable. It preserves listing order. |
| Scanner.ReadDir | src/utf8s/scan.rs:120-139 | fails exactly when the directory cannot be opened; otherwise keeps exactly the readable entries, in order |
| Scanner.SpawnChildren | src/utf8s/scan.rs:151-174 | every spawned subdirectory scan names a directory listed in this directory, and the tasks together yield exactly what the kept entries contribute to `Dispatched` (a matched file once, an enterable subdirectory's whole dispatch at `cur_depth + 1`) |
| Scanner.JoinChildren | src/utf8s/scan.rs:175-179 | draining the tasks processes exactly the multiset the tasks yield; child failures are dropped |
| Scanner.ScanImpl | src/utf8s/scan.rs:142-182 | errs exactly when its own `read_dir` fails; processes exactly the multiset `Dispatched`, whatever its children's outcomes |
| Scanner.Scan | src/utf8s/scan.rs:185-190 | from depth 0, each path is processed exactly once when `Selected` holds for it and never otherwise; errs exactly when the root cannot be opened |
| Scanner.DispatchedCount | src/utf8s/scan.rs:151-173 | every path occurs once in `Dispatched` if it leads through enterable directories to a matched file, and zero times otherwise |
| Scanner.NoRecursionOwnFilesOnly | src/utf8s/scan.rs:169-172 | where `should_recursive` fails, only the directory's own regular files are dispatched |
| Scanner.NotRecursiveRootOnly | src/utf8s/scan.rs:108 | with `recursive` false, only files listed directly in the root are dispatched |
| Scanner.PositiveLimitRootOnly | src/utf8s/scan.rs:108 | as written, `max_depth = Some(m)` with `m > 0` dispatches only files listed directly in the root |
| Scanner.UnlimitedSelectsEveryMatch | src/utf8s/scan.rs:108 | with recursion on and no limit (or a limit of 0), a path is selected exactly when it leads to a matched regular file anywhere in the tree |
| Scanner.DispatchIgnoresOutcomes | src/utf8s/scan.rs:175-180 | what is dispatched does not depend on the processor's outcomes |
| Scanner.SelectedIgnoresOutcomes | src/utf8s/scan.rs:175-180 | the reference selection does not depend on the processor's outcomes |
| Scanner.NamelessMatchedAsEmpty | src/utf8s/scan.rs:153-157 | a file with no name or a non-UTF-8 name is dispatched exactly when the matcher accepts "" |
| Walker.ShouldRecursive | src/utf8s/walker.rs:55-58 | the same formula as the scanner's, with the same three consequences |
| Walker.MatchFileIsCanMatch | src/utf8s/walker.rs:60-62 | given the primed `can_match` of a matcher, the walker's `match_file` gives the scanner's answer, which is exactly what `can_match` answers, without a panic or a change to the regex slot |
| Walker.ScanEntry | src/utf8s/walker.rs:80-103 | One turn of the loop processes exactly the entry's paths: a matched file, or the whole walk of an enterable subdirectory. It stops exactly when the entry is unreadable or is a matched file the processor fails on. |
| Walker.ScanImpl | src/utf8s/walker.rs:69-112 | processes exactly `WalkDir`'s paths in order; errs exactly when `WalkDir` reports failure |
| Walker.Scan | src/utf8s/walker.rs:114-116 | From depth 0, processes exactly `WalkDir`'s paths of the root, in order. It errs exactly when the root cannot be opened or one of its entries aborts. Those paths never exceed the scanner's dispatch. When every entry is readable and every processing call succeeds, it returns Ok having processed exactly the scanner's multiset. |
| Walker.WalkWithinDispatch | src/utf8s/walker.rs:91-103 | the walk's processed paths are a sub-multiset of the scanner's `Dispatched`: no non-matching file and no other entry is processed |
| Walker.ListingOrder | src/utf8s/walker.rs:80-97 | processed paths go through the directory's entries in non-decreasing listing position. For the directory's own matched files this is the source's inline order; for paths inside subdirectories it holds under the modelled schedule, where each spawned walk runs where it is spawned. |
| Walker.FailedIffAbort | src/utf8s/walker.rs:77-110 | a directory's walk fails exactly when one of its own entries aborts; subdirectory failures never count |
| Walker.StopsAtFirstAbort | src/utf8s/walker.rs:95-97 | at the first aborting entry, the directory's walk fails and nothing listed after it is processed |
| Walker.ProcessedUpToFirstAbort | src/utf8s/walker.rs:80-110 | every entry before the first aborting one, and that entry itself, has all its paths processed: matched files listed earlier, and the siblings after a subdirectory whose own walk failed. A subdirectory entry before the first abort counts as fully walked, because the model does not abort already-spawned walks on the early return (see "## Left out") |
| Walker.SubdirFailureSwallowed | src/utf8s/walker.rs:98-110 | a subdirectory entry never ends its parent's loop: the parent's failure and the rest of its paths are those of the entries after it |
| Walker.NoRecursionOwnFilesOnly | src/utf8s/walker.rs:98-102 | where `should_recursive` fails, only the directory's own regular files are processed |
| Walker.AgreesWithScanner | src/utf8s/walker.rs:77-110 | When every entry is readable and the processor never fails, the walk succeeds. It then processes exactly the scanner's multiset. |
| Code.DecodeEncode | src/utf8s/code.rs:17 | the UTF-8 bytes of any text decode back to exactly that text |
| Code.New | src/utf8s/code.rs:24-26 | `new` gives `Source`, whose bytes are exactly the input |
| Code.AsRef | src/utf8s/code.rs:14-21 | `Source` yields its bytes unchanged; `UTF8` yields bytes that decode to exactly its output |
| Code.Parse | src/utf8s/code.rs:28-63 | It panics exactly on a value that is not `Source`. A UTF-8 guess gives back the same bytes. Any other guess gives `UTF8`, with the guessed encoding and the decoder's text. |
| Code.Utf8Untouched | src/utf8s/code.rs:46-50 | a file guessed as UTF-8 is written back byte for byte, and a second run changes nothing |
| Code.ConvertedIsUtf8 | src/utf8s/code.rs:51-59 | any other file is written back as bytes that decode to exactly the decoder's text |
| Code.SecondRunNoop | src/utf8s/code.rs:46-50 | a converted file that the detector then takes for UTF-8 is unchanged by a second run |

## Left out

- The async runtime is not modelled: `JoinSet` interleavings, `spawn_blocking`,
  and the semaphores that bound work in flight.
  - The scanner's children run at the join, one legal schedule; its multiset
    statement holds for any order.
  - The walker walks a spawned subdirectory at the point it is spawned.
- Walker.ScanImpl: when a directory's loop returns early, the runtime aborts
  subdirectory walks it had already spawned. This is not modelled: such
  subtrees count as fully walked.
- A child task that panics makes `r.unwrap()` panic in the parent. This is
  not modelled: the processor oracle never panics, and the matcher is taken
  as primed (next line).
- Both engines take the matcher as already primed by `parse`: `matchFile` is
  `Cmd.PrimedMatcher` of a slot that `Cmd.Prime` has filled, so it is a total
  predicate (`Scanner.MatchFileIsCanMatch`, `Walker.MatchFileIsCanMatch`). The source does not enforce this: `ScannerExec` and
  `SimpleScanner` accept any `Expr`. With an unprimed Regexp matcher, the
  first `match_file` call inside a traversal compiles the pattern and may
  panic with `bad regex!`, and concurrent tasks may race on the first write
  to the unsynchronised slot. Neither the compile, nor that panic, nor the
  race inside a traversal is modelled.
- Closure and trait plumbing (`ProxyHandler`, `AsyncClosure`,
  `new_with_closure`, `new_with_fn`) carries no behaviour beyond calling the
  processor. It is replaced by the processor oracle.
- `file_util.rs` (reading and rewriting files) and `main.rs` are not part of
  this model.
- Command-line parsing by clap is not modelled: `parse` receives the parsed
  arguments. The `println!` logging is dropped.
- The regex engine is kept abstract, with a compiled regex identified by its
  pattern. So are chardetng detection and encoding_rs decoding. The
  raw-pointer round trip in `parse` is a lifetime workaround with no meaning,
  and is left out.
- Code.Parse: the `context("unexpected err")` error path needs a panic in the
  blocking task, and the detector and decoder oracles are total. The model
  therefore never produces that error.
- Scanner.ShouldRecursive and Walker.ShouldRecursive: depths are unbounded.
  The `usize`/`u32` overflow of `cur_depth + 1` is not modelled; it needs a
  tree more than 2^32 levels deep.
- Cmd.SuffixIffEndsWith and Cmd.PrefixIffStartsWith: names are sequences of
  Unicode scalar values, where Rust compares UTF-8 bytes. The two agree on
  well-formed strings.
- Real path identity is not modelled: two listing positions are two distinct
  paths.
