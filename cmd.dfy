/** The command line's file-name matcher (`Expr`, `Expr::can_match`, `parse`)
    together with the process-wide slot that caches the compiled regular
    expression. */
module Cmd {
  import opened DirTree

  /** The parsed arguments. The directory and the flags only travel through to
      the traversal engines. */
  datatype ScanArgs = ScanArgs(dir: string, recursive: bool, maxDepth: Option<nat>, matcher: Expr)

  /** The three ways of matching a file name. */
  datatype Expr =
    | Suffix(suffix: string)
    | Prefix(prefix: string)
    | Regexp(regexp: string)

  /** The regular-expression engine, left abstract: which patterns compile, and
      whether the compiled form of a pattern matches a text. A compiled
      expression is identified with the pattern it was built from. */
  datatype RegexLib = RegexLib(compiles: string -> bool, isMatch: (string, string) -> bool)

  /** How a call ends: with an answer, or with the `bad regex!` panic. */
  datatype Outcome = Returned(matched: bool) | Panicked

  /** One call's outcome and the content of the regex slot after it. */
  datatype Step = Step(outcome: Outcome, slot: Option<string>)

  predicate EndsWith(s: string, suffix: string)
  {
    |suffix| <= |s| && s[|s| - |suffix|..] == suffix
  }

  predicate StartsWith(s: string, prefix: string)
  {
    |prefix| <= |s| && s[..|prefix|] == prefix
  }

  /** `can_match` as a function of the slot it finds: `slot` is what the
      process-wide cache holds when the call starts. */
  function CanMatchStep(e: Expr, target: string, slot: Option<string>, lib: RegexLib): (r: Step)
    // Suffix and Prefix never touch the slot and always answer.
    ensures !e.Regexp? ==> r.slot == slot && r.outcome.Returned?
    // A filled slot is never replaced.
    ensures slot.Some? ==> r.slot == slot
    // Once the slot is filled the answer comes from the cached pattern,
    // whatever this instance's own pattern is.
    ensures e.Regexp? && slot.Some? ==> r.outcome == Returned(lib.isMatch(slot.value, target))
    // The call panics exactly when it has to compile a pattern that does not compile.
    ensures r.outcome.Panicked? <==> e.Regexp? && slot.None? && !lib.compiles(e.regexp)
    // The first successful Regexp call fills the slot with its own pattern.
    ensures e.Regexp? && slot.None? && r.outcome.Returned? ==> r.slot == Some(e.regexp)
    // That first call answers with its own, freshly compiled pattern.
    ensures e.Regexp? && slot.None? && lib.compiles(e.regexp) ==>
      r == Step(Returned(lib.isMatch(e.regexp, target)), Some(e.regexp))
  {
    match e
    case Suffix(suffix) => Step(Returned(EndsWith(target, suffix)), slot)
    case Prefix(prefix) => Step(Returned(StartsWith(target, prefix)), slot)
    case Regexp(regexp) =>
      if slot.None? && !lib.compiles(regexp) then Step(Panicked, slot)
      else
        var filled := if slot.None? then Some(regexp) else slot;
        Step(Returned(lib.isMatch(filled.value, target)), filled)
  }

  /** The process-wide `_CACHED_REGEX` slot and the calls that use it. */
  class RegexCache {
    var slot: Option<string>

    /** The slot starts empty. */
    constructor()
      ensures slot.None?
    {
      slot := None;
    }

    /** `can_match`: the Regexp arm compiles its pattern into the slot when the
        slot is empty, then matches with whatever the slot holds. */
    method CanMatch(e: Expr, target: string, lib: RegexLib) returns (outcome: Outcome)
      modifies this
      ensures Step(outcome, slot) == CanMatchStep(e, target, old(slot), lib)
    {
      match e {
        case Suffix(suffix) =>
          outcome := Returned(EndsWith(target, suffix));
        case Prefix(prefix) =>
          outcome := Returned(StartsWith(target, prefix));
        case Regexp(regexp) =>
          if slot.None? {
            if !lib.compiles(regexp) {
              return Panicked;
            }
            slot := Some(regexp);
          }
          outcome := Returned(lib.isMatch(slot.value, target));
      }
    }

    /** `parse`: after the arguments are read, one `can_match("")` call primes
        the slot. */
    method Parse(args: ScanArgs, lib: RegexLib) returns (outcome: Outcome, out: ScanArgs)
      modifies this
      ensures out == args
      ensures Step(outcome, slot) == Prime(args.matcher, old(slot), lib)
    {
      out := args;
      outcome := CanMatch(args.matcher, "", lib);
    }
  }

  /** The effect of `parse` on the slot: unless it panics, a Regexp matcher
      leaves the slot filled, so no later call can panic. */
  function Prime(e: Expr, slot: Option<string>, lib: RegexLib): (r: Step)
    ensures r.outcome.Returned? && e.Regexp? ==> r.slot.Some?
    ensures r.outcome.Returned? ==> Primed(e, r.slot)
    ensures r.outcome.Panicked? <==> e.Regexp? && slot.None? && !lib.compiles(e.regexp)
  {
    CanMatchStep(e, "", slot, lib)
  }

  /** A matcher whose calls can no longer panic. */
  predicate Primed(e: Expr, slot: Option<string>)
  {
    e.Regexp? ==> slot.Some?
  }

  /** Once primed, `can_match` is a plain predicate on names that leaves the
      slot alone; this is the matcher the traversal engines are given. */
  function PrimedMatcher(e: Expr, slot: Option<string>, lib: RegexLib): (f: string -> bool)
    requires Primed(e, slot)
    ensures forall t :: CanMatchStep(e, t, slot, lib) == Step(Returned(f(t)), slot)
  {
    t => CanMatchStep(e, t, slot, lib).outcome.matched
  }

  // ---------------------------------------------------------------------
  // A sequence of calls sharing the slot.

  datatype Call = Call(expr: Expr, target: string)

  /** The outcomes of a run of calls and the slot at its end; a panic ends the
      process, so nothing after it happens. */
  datatype Trace = Trace(outcomes: seq<Outcome>, slot: Option<string>)

  function Run(calls: seq<Call>, slot: Option<string>, lib: RegexLib): Trace
    decreases |calls|
  {
    if |calls| == 0 then Trace([], slot)
    else
      var s := CanMatchStep(calls[0].expr, calls[0].target, slot, lib);
      if s.outcome.Panicked? then Trace([Panicked], s.slot)
      else
        var rest := Run(calls[1..], s.slot, lib);
        Trace([s.outcome] + rest.outcomes, rest.slot)
  }

  /** The pattern of the first Regexp call, if any. */
  function FirstRegexp(calls: seq<Call>): Option<string>
    decreases |calls|
  {
    if |calls| == 0 then None
    else if calls[0].expr.Regexp? then Some(calls[0].expr.regexp)
    else FirstRegexp(calls[1..])
  }

  /** The position of the first Regexp call, or `|calls|` when there is none. */
  function FirstRegexpAt(calls: seq<Call>): nat
    decreases |calls|
  {
    if |calls| == 0 then 0
    else if calls[0].expr.Regexp? then 0
    else 1 + FirstRegexpAt(calls[1..])
  }

  /** A filled slot survives any run of calls unchanged. */
  lemma {:induction false} FilledSlotKept(calls: seq<Call>, p: string, lib: RegexLib)
    ensures Run(calls, Some(p), lib).slot == Some(p)
    decreases |calls|
  {
    if |calls| > 0 {
      FilledSlotKept(calls[1..], p, lib);
    }
  }

  /** Starting from an empty slot, the slot is written at most once and only
      with the first Regexp pattern: it ends empty when no Regexp call
      happens, holds the first pattern when that one compiles, and the run
      panics at that first Regexp call when it does not. */
  lemma {:induction false} SlotHoldsFirstPattern(calls: seq<Call>, lib: RegexLib)
    ensures FirstRegexp(calls).None? ==> Run(calls, None, lib).slot.None? && Panicked !in Run(calls, None, lib).outcomes
    ensures FirstRegexp(calls).Some? && lib.compiles(FirstRegexp(calls).value) ==>
      Run(calls, None, lib).slot == FirstRegexp(calls) && Panicked !in Run(calls, None, lib).outcomes
    ensures FirstRegexp(calls).Some? && !lib.compiles(FirstRegexp(calls).value) ==>
      && Run(calls, None, lib).slot.None?
      && |Run(calls, None, lib).outcomes| == FirstRegexpAt(calls) + 1
      && Run(calls, None, lib).outcomes[FirstRegexpAt(calls)] == Panicked
      && Panicked !in Run(calls, None, lib).outcomes[..FirstRegexpAt(calls)]
    decreases |calls|
  {
    if |calls| > 0 {
      if calls[0].expr.Regexp? {
        if lib.compiles(calls[0].expr.regexp) {
          FilledSlotKept(calls[1..], calls[0].expr.regexp, lib);
          FilledSlotNeverPanics(calls[1..], calls[0].expr.regexp, lib);
        }
      } else {
        SlotHoldsFirstPattern(calls[1..], lib);
      }
    }
  }

  /** Once the slot is filled no call panics, whatever patterns later
      instances carry. */
  lemma {:induction false} FilledSlotNeverPanics(calls: seq<Call>, p: string, lib: RegexLib)
    ensures Panicked !in Run(calls, Some(p), lib).outcomes
    ensures |Run(calls, Some(p), lib).outcomes| == |calls|
    decreases |calls|
  {
    if |calls| > 0 {
      FilledSlotNeverPanics(calls[1..], p, lib);
    }
  }

  // ---------------------------------------------------------------------
  // Suffix and Prefix.

  /** A Suffix matcher answers yes exactly when the name is some stem followed
      by the suffix. */
  lemma SuffixIffEndsWith(suffix: string, target: string, slot: Option<string>, lib: RegexLib)
    ensures CanMatchStep(Suffix(suffix), target, slot, lib).outcome.matched <==>
      exists stem :: stem + suffix == target
  {
    if EndsWith(target, suffix) {
      var stem := target[..|target| - |suffix|];
      assert stem + suffix == target;
    }
    if exists stem :: stem + suffix == target {
      var stem :| stem + suffix == target;
      assert target[|target| - |suffix|..] == suffix;
    }
  }

  /** A Prefix matcher answers yes exactly when the name is the prefix followed
      by some rest. */
  lemma PrefixIffStartsWith(prefix: string, target: string, slot: Option<string>, lib: RegexLib)
    ensures CanMatchStep(Prefix(prefix), target, slot, lib).outcome.matched <==>
      exists rest :: prefix + rest == target
  {
    if StartsWith(target, prefix) {
      var rest := target[|prefix|..];
      assert prefix + rest == target;
    }
    if exists rest :: prefix + rest == target {
      var rest :| prefix + rest == target;
      assert target[..|prefix|] == prefix;
    }
  }

  /** An empty suffix or prefix matches every name, the empty one included. */
  lemma EmptyPatternMatchesAll(target: string, slot: Option<string>, lib: RegexLib)
    ensures CanMatchStep(Suffix(""), target, slot, lib) == Step(Returned(true), slot)
    ensures CanMatchStep(Prefix(""), target, slot, lib) == Step(Returned(true), slot)
  {
    assert target[|target|..] == "";
    assert target[..0] == "";
  }

  /** The documented examples: ".txt" as a suffix, and "data_" as a prefix
      matching "data_1.docx" and "data_2.bin". */
  lemma DocumentedExamples(slot: Option<string>, lib: RegexLib)
    ensures CanMatchStep(Suffix(".txt"), "notes.txt", slot, lib).outcome == Returned(true)
    ensures CanMatchStep(Suffix(".txt"), "notes.md", slot, lib).outcome == Returned(false)
    ensures CanMatchStep(Prefix("data_"), "data_1.docx", slot, lib).outcome == Returned(true)
    ensures CanMatchStep(Prefix("data_"), "data_2.bin", slot, lib).outcome == Returned(true)
    ensures CanMatchStep(Prefix("data_"), "meta_1.docx", slot, lib).outcome == Returned(false)
  {
    assert "notes.txt"[5..] == ".txt";
    assert "data_1.docx"[..5] == "data_";
    assert "data_2.bin"[..5] == "data_";
    assert "notes.md"[4..][0] == 's';
    assert "meta_1.docx"[..5][0] == 'm';
  }
}
