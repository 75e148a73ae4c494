/** What one run of the "Play Composition(s)" build step does (`TestCompositionRunner.perform`):
    the composition field is split into composition names; each name is played with SCommand,
    its JUnit XML written to a file under a per-builder results directory; an empty result
    file ends the whole step at once; after a non-empty one the old results of that
    composition may be deleted; and when every composition was played the results directory
    is handed to the JUnit archiver.

    The step is modelled as a pure function from the configuration, the build's context and
    an oracle saying which play runs wrote nothing, to the trace of SCommand invocations and
    the archiver pattern (if archiving happened). */
module CompositionPlay {
  import opened Wrappers
  import opened JavaStrings
  import opened JavaLines
  import opened ArgumentList
  import opened TestCompositionRunner

  /** What `perform` takes from its surroundings. The library calls are given as functions
      whose insides are not modelled. */
  datatype BuildContext = BuildContext(
    /** `EnvVars.expand` with the build's environment. */
    expand: string -> string,
    /** `new QuotedStringTokenizer(s).toArray()`. */
    tokenize: string -> seq<string>,
    /** `getSCommandArgs(run, workspace, listener)`: the SCommand launcher and connection tokens. */
    scommandArgs: seq<Arg>,
    /** `TransactionThreshold.toScommandString()`. */
    render: Threshold -> string,
    /** The workspace path, as `FilePath.toString()` prints it. */
    workspace: string,
    /** `File.separator` on the machine running the step. */
    separator: string)

  /** `getClass().getName()` of the step. */
  const ClassName: string := "com.soasta.jenkins.TestCompositionRunner"

  /** The results directory, relative to the workspace: the class name behind a dot. */
  const ResultsDir: string := "." + ClassName

  /** The pattern handed to the JUnit archiver. */
  const ResultsPattern: string := ResultsDir + "/**/*.xml"

  /** One SCommand launch. A play writes its standard output to `resultFile` (relative to the
      workspace); a delete writes to the build log. */
  datatype Invocation =
    | Play(composition: string, args: seq<Arg>, resultFile: string)
    | Delete(composition: string, args: seq<Arg>)

  /** Everything one run of the step does: the launches, in order, and the pattern the JUnit
      archiver was run with (`None` when the step returned before archiving). */
  datatype Execution = Execution(trace: seq<Invocation>, archivePattern: Option<string>)

  // ---------------------------------------------------------------------------
  // Inputs of the loop
  // ---------------------------------------------------------------------------

  /** The composition names: the expanded field split on runs of CR and LF. */
  function Compositions(r: Runner, ctx: BuildContext): seq<string>
  {
    SplitLines(ctx.expand(r.composition))
  }

  /** The user's extra option tokens; `None` when the field is `null`. */
  function Options(r: Runner, ctx: BuildContext): Option<seq<string>>
  {
    match r.additionalOptions
    case None => None
    case Some(o) => Some(ctx.tokenize(ctx.expand(o)))
  }

  function OptionTokens(options: Option<seq<string>>): seq<string>
  {
    match options
    case None => []
    case Some(tokens) => tokens
  }

  /** One `validation=` value per threshold, in list order; none when the list is `null`. */
  function ValidationTokens(thresholds: Option<seq<Threshold>>, render: Threshold -> string): (r: seq<string>)
    ensures thresholds.None? ==> r == []
    ensures thresholds.Some? ==> |r| == |thresholds.value|
    ensures thresholds.Some? ==>
      forall i :: 0 <= i < |r| ==> r[i] == "validation=" + render(thresholds.value[i])
  {
    match thresholds
    case None => []
    case Some(ts) => seq(|ts|, i requires 0 <= i < |ts| => "validation=" + render(ts[i]))
  }

  // ---------------------------------------------------------------------------
  // Command lines and result files
  // ---------------------------------------------------------------------------

  /** The play command line for composition `c` (its shape is `PlayArgsShape`). */
  function PlayArgs(r: Runner, ctx: BuildContext, options: Option<seq<string>>, c: string): seq<Arg>
  {
    ctx.scommandArgs
    + PlainAll(["cmd=play", "wait", "format=junitxml", "name=" + c])
    + PlainAll(ValidationTokens(r.thresholds, ctx.render))
    + PlainAll(OptionTokens(options))
    + (if r.generatePlotCSV then [Plain("outputthresholdcsvdir=" + ctx.workspace)] else [])
  }

  /** The delete command line for composition `c`. */
  function DeleteArgs(ctx: BuildContext, c: string, maxDays: int32): seq<Arg>
  {
    ctx.scommandArgs
    + PlainAll(["cmd=delete", "type=result", "path=" + c, "maxage=" + IntToString(maxDays)])
  }

  /** The result path of composition `c`, relative to the workspace: the results directory,
      the separator, then `c + ".xml"` with one leading `/` removed. */
  function ResultFile(separator: string, c: string): string
  {
    var fileName := c + ".xml";
    var stripped := if StartsWith(fileName, "/") then fileName[1..] else fileName;
    ResultsDir + separator + stripped
  }

  /** `c` without one leading `/`. */
  function StripOneSlash(c: string): string
  {
    if StartsWith(c, "/") then c[1..] else c
  }

  function PlayOf(r: Runner, ctx: BuildContext, options: Option<seq<string>>, c: string): Invocation
  {
    Play(c, PlayArgs(r, ctx, options, c), ResultFile(ctx.separator, c))
  }

  function DeleteOf(r: Runner, ctx: BuildContext, c: string): Invocation
  {
    Delete(c, DeleteArgs(ctx, c, r.maxDaysOfResults))
  }

  /** What follows a non-empty play of `c`: a delete when cleanup is on. */
  function Cleanup(r: Runner, ctx: BuildContext, c: string): seq<Invocation>
  {
    if r.deleteOldResults then [DeleteOf(r, ctx, c)] else []
  }

  // ---------------------------------------------------------------------------
  // The step
  // ---------------------------------------------------------------------------

  datatype LoopOutcome = LoopOutcome(trace: seq<Invocation>, stoppedEarly: bool)

  /** The loop over the compositions `cs`, the first of which is the `k`-th of the field: each
      is launched with `play`; `emptyOutput(i)` says whether the play of the `i`-th wrote
      nothing, which ends the loop; after a non-empty play come the launches `cleanup` gives. */
  function PlayFrom(play: string -> Invocation, cleanup: string -> seq<Invocation>, cs: seq<string>,
                    emptyOutput: nat -> bool, k: nat): (out: LoopOutcome)
    ensures cs == [] ==> out == LoopOutcome([], false)
    ensures cs != [] ==> |out.trace| > 0 && out.trace[0] == play(cs[0])
    decreases |cs|
  {
    if cs == [] then LoopOutcome([], false)
    else if emptyOutput(k) then LoopOutcome([play(cs[0])], true)
    else
      var rest := PlayFrom(play, cleanup, cs[1..], emptyOutput, k + 1);
      LoopOutcome([play(cs[0])] + cleanup(cs[0]) + rest.trace, rest.stoppedEarly)
  }

  /** The play launch of each composition, for runner `r` in context `ctx`. */
  function PlayLaunch(r: Runner, ctx: BuildContext): string -> Invocation
  {
    var options := Options(r, ctx);
    c => PlayOf(r, ctx, options, c)
  }

  /** The launches that follow a non-empty play of each composition. */
  function CleanupLaunches(r: Runner, ctx: BuildContext): string -> seq<Invocation>
  {
    c => Cleanup(r, ctx, c)
  }

  /** `perform(run, workspace, launcher, listener)`. */
  function Perform(r: Runner, ctx: BuildContext, emptyOutput: nat -> bool): Execution
  {
    var out := PlayFrom(PlayLaunch(r, ctx), CleanupLaunches(r, ctx), Compositions(r, ctx), emptyOutput, 0);
    Execution(out.trace, if out.stoppedEarly then None else Some(ResultsPattern))
  }

  /** `perform(build, launcher, listener)`: without a workspace nothing is launched and the
      step reports failure; otherwise it runs the step and reports success. */
  function PerformOnBuild(r: Runner, workspace: Option<string>, ctx: BuildContext,
                          emptyOutput: nat -> bool): (res: (bool, Execution))
    ensures res.0 <==> workspace.Some?
    ensures workspace.None? ==> res.1.trace == [] && res.1.archivePattern.None?
    ensures workspace.Some? ==> res.1 == Perform(r, ctx.(workspace := workspace.value), emptyOutput)
  {
    match workspace
    case None => (false, Execution([], None))
    case Some(w) => (true, Perform(r, ctx.(workspace := w), emptyOutput))
  }

  // ---------------------------------------------------------------------------
  // Views of a trace
  // ---------------------------------------------------------------------------

  /** The compositions played, in order. */
  function PlayNames(t: seq<Invocation>): seq<string>
  {
    if |t| == 0 then [] else (if t[0].Play? then [t[0].composition] else []) + PlayNames(t[1..])
  }

  /** The compositions whose old results were deleted, in order. */
  function DeleteNames(t: seq<Invocation>): seq<string>
  {
    if |t| == 0 then [] else (if t[0].Delete? then [t[0].composition] else []) + DeleteNames(t[1..])
  }

  /** Every delete comes right after a play of the same composition. */
  predicate DeletesFollowPlays(t: seq<Invocation>)
  {
    forall j :: 0 <= j < |t| && t[j].Delete? ==>
      0 < j && t[j - 1].Play? && t[j - 1].composition == t[j].composition
  }

  /** Every launch carries the command line (and, for a play, the result file) its
      composition calls for. */
  predicate InvocationsWellFormed(r: Runner, ctx: BuildContext, options: Option<seq<string>>, t: seq<Invocation>)
  {
    forall j :: 0 <= j < |t| ==>
      t[j] == (if t[j].Play? then PlayOf(r, ctx, options, t[j].composition) else DeleteOf(r, ctx, t[j].composition))
  }

  /** `play(c)` is always a play of `c`. */
  ghost predicate PlaysOwnName(play: string -> Invocation)
  {
    forall c :: play(c).Play? && play(c).composition == c
  }

  /** `cleanup(c)` is one delete of `c` when `on`, and nothing otherwise. */
  ghost predicate CleansUpOwnName(cleanup: string -> seq<Invocation>, on: bool)
  {
    forall c :: |cleanup(c)| == (if on then 1 else 0) && (on ==> cleanup(c)[0].Delete? && cleanup(c)[0].composition == c)
  }

  /** Every launch of `t` is the play of its composition or one of that composition's
      cleanup launches. */
  predicate LaunchedBy(play: string -> Invocation, cleanup: string -> seq<Invocation>, t: seq<Invocation>)
  {
    forall j :: 0 <= j < |t| ==> t[j] == play(t[j].composition) || t[j] in cleanup(t[j].composition)
  }

  lemma {:induction false} LaunchedByAppend(play: string -> Invocation, cleanup: string -> seq<Invocation>,
                                            a: seq<Invocation>, b: seq<Invocation>)
    requires LaunchedBy(play, cleanup, a) && LaunchedBy(play, cleanup, b)
    ensures LaunchedBy(play, cleanup, a + b)
  {
    assert forall j :: |a| <= j < |a + b| ==> (a + b)[j] == b[j - |a|];
  }

  /** The number of compositions, counted from the `from`-th, played before the first one whose
      output is empty (all `n` when none is). */
  function FirstEmpty(emptyOutput: nat -> bool, from: nat, n: nat): (j: nat)
    ensures j <= n
    ensures forall i :: from <= i < from + j ==> !emptyOutput(i)
    ensures j < n ==> emptyOutput(from + j)
    decreases n
  {
    if n == 0 || emptyOutput(from) then 0 else 1 + FirstEmpty(emptyOutput, from + 1, n - 1)
  }

  lemma {:induction false} PlayNamesAppend(a: seq<Invocation>, b: seq<Invocation>)
    ensures PlayNames(a + b) == PlayNames(a) + PlayNames(b)
    decreases |a|
  {
    if |a| > 0 {
      assert (a + b)[1..] == a[1..] + b;
      PlayNamesAppend(a[1..], b);
    } else {
      assert a + b == b;
    }
  }

  lemma {:induction false} DeleteNamesAppend(a: seq<Invocation>, b: seq<Invocation>)
    ensures DeleteNames(a + b) == DeleteNames(a) + DeleteNames(b)
    decreases |a|
  {
    if |a| > 0 {
      assert (a + b)[1..] == a[1..] + b;
      DeleteNamesAppend(a[1..], b);
    } else {
      assert a + b == b;
    }
  }

  // ---------------------------------------------------------------------------
  // Properties of the loop
  // ---------------------------------------------------------------------------

  /** One turn of the loop after a non-empty play. */
  lemma {:induction false} PlayFromStep(play: string -> Invocation, cleanup: string -> seq<Invocation>,
                                        cs: seq<string>, emptyOutput: nat -> bool, k: nat)
    requires cs != [] && !emptyOutput(k)
    ensures
      var out := PlayFrom(play, cleanup, cs, emptyOutput, k);
      var rest := PlayFrom(play, cleanup, cs[1..], emptyOutput, k + 1);
      && out.trace == [play(cs[0])] + cleanup(cs[0]) + rest.trace
      && out.stoppedEarly == rest.stoppedEarly
      && FirstEmpty(emptyOutput, k, |cs|) == 1 + FirstEmpty(emptyOutput, k + 1, |cs| - 1)
  {
  }

  /** The names a play and its cleanup contribute. */
  lemma {:induction false} StepNames(p: Invocation, cl: seq<Invocation>, on: bool, rest: seq<Invocation>)
    requires p.Play?
    requires |cl| == (if on then 1 else 0)
    requires on ==> cl[0].Delete? && cl[0].composition == p.composition
    ensures PlayNames([p] + cl + rest) == [p.composition] + PlayNames(rest)
    ensures DeleteNames([p] + cl + rest) == (if on then [p.composition] else []) + DeleteNames(rest)
  {
    PlayNamesAppend([p] + cl, rest);
    PlayNamesAppend([p], cl);
    DeleteNamesAppend([p] + cl, rest);
    DeleteNamesAppend([p], cl);
    assert PlayNames([p]) == [p.composition] + PlayNames([]);
    assert DeleteNames([p]) == [] + DeleteNames([]);
    if on {
      assert cl == [cl[0]];
      assert PlayNames(cl) == [] + PlayNames([]);
      assert DeleteNames(cl) == [p.composition] + DeleteNames([]);
    }
  }

  lemma {:induction false} ConsTake<T>(cs: seq<T>, n: nat)
    requires 0 < n <= |cs|
    ensures [cs[0]] + cs[1..][..n - 1] == cs[..n]
  {
  }

  /** The names played when the `m`-th (counting from 0) is the first empty one: the first
      `m + 1`, or all of them when `m` is past the end. */
  function Played<T>(cs: seq<T>, m: nat): (p: seq<T>)
    ensures |p| <= |cs| && p == cs[..|p|]
  {
    if m < |cs| then cs[..m + 1] else cs
  }

  lemma {:induction false} PlayedStep<T>(cs: seq<T>, m: nat)
    requires 0 < |cs| && m <= |cs| - 1
    ensures [cs[0]] + Played(cs[1..], m) == Played(cs, m + 1)
  {
    if m < |cs| - 1 {
      ConsTake(cs, m + 2);
    } else {
      ConsTake(cs, |cs|);
    }
  }

  /** The names one turn of the loop contributes, after a non-empty play. */
  lemma {:induction false} NamesStep(play: string -> Invocation, cleanup: string -> seq<Invocation>, on: bool,
                                     cs: seq<string>, emptyOutput: nat -> bool, k: nat)
    requires PlaysOwnName(play) && CleansUpOwnName(cleanup, on)
    requires cs != [] && !emptyOutput(k)
    ensures
      var t := PlayFrom(play, cleanup, cs, emptyOutput, k).trace;
      var rest := PlayFrom(play, cleanup, cs[1..], emptyOutput, k + 1).trace;
      && PlayNames(t) == [cs[0]] + PlayNames(rest)
      && DeleteNames(t) == (if on then [cs[0]] else []) + DeleteNames(rest)
  {
    PlayFromStep(play, cleanup, cs, emptyOutput, k);
    StepNames(play(cs[0]), cleanup(cs[0]), on, PlayFrom(play, cleanup, cs[1..], emptyOutput, k + 1).trace);
  }

  /** The names of the last turn of the loop, whose play is empty. */
  lemma {:induction false} NamesStop(play: string -> Invocation, cleanup: string -> seq<Invocation>,
                                     cs: seq<string>, emptyOutput: nat -> bool, k: nat)
    requires PlaysOwnName(play)
    requires cs != [] && emptyOutput(k)
    ensures
      var t := PlayFrom(play, cleanup, cs, emptyOutput, k).trace;
      && PlayNames(t) == [cs[0]]
      && DeleteNames(t) == []
  {
    var p := play(cs[0]);
    assert PlayFrom(play, cleanup, cs, emptyOutput, k).trace == [p];
    assert PlayNames([p]) == [cs[0]] + PlayNames([]);
    assert DeleteNames([p]) == [] + DeleteNames([]);
  }

  /** The loop plays the compositions in order, duplicates included, up to and including the
      first whose output is empty, and no further. */
  lemma {:induction false} PlayFromPlays(play: string -> Invocation, cleanup: string -> seq<Invocation>, on: bool,
                                         cs: seq<string>, emptyOutput: nat -> bool, k: nat)
    requires PlaysOwnName(play) && CleansUpOwnName(cleanup, on)
    ensures
      var m := FirstEmpty(emptyOutput, k, |cs|);
      PlayNames(PlayFrom(play, cleanup, cs, emptyOutput, k).trace) == Played(cs, m)
    decreases |cs|
  {
    if cs != [] {
      if emptyOutput(k) {
        NamesStop(play, cleanup, cs, emptyOutput, k);
      } else {
        NamesStep(play, cleanup, on, cs, emptyOutput, k);
        PlayFromPlays(play, cleanup, on, cs[1..], emptyOutput, k + 1);
        var m' := FirstEmpty(emptyOutput, k + 1, |cs| - 1);
        assert FirstEmpty(emptyOutput, k, |cs|) == m' + 1;
        PlayedStep(cs, m');
      }
    }
  }

  /** Old results are deleted after every play before the first empty one, in order, exactly
      when cleanup is on. */
  lemma {:induction false} PlayFromDeletes(play: string -> Invocation, cleanup: string -> seq<Invocation>, on: bool,
                                           cs: seq<string>, emptyOutput: nat -> bool, k: nat)
    requires PlaysOwnName(play) && CleansUpOwnName(cleanup, on)
    ensures
      var m := FirstEmpty(emptyOutput, k, |cs|);
      DeleteNames(PlayFrom(play, cleanup, cs, emptyOutput, k).trace) == (if on then cs[..m] else [])
    decreases |cs|
  {
    if cs != [] {
      var m := FirstEmpty(emptyOutput, k, |cs|);
      if emptyOutput(k) {
        NamesStop(play, cleanup, cs, emptyOutput, k);
        assert m == 0;
      } else {
        NamesStep(play, cleanup, on, cs, emptyOutput, k);
        PlayFromDeletes(play, cleanup, on, cs[1..], emptyOutput, k + 1);
        var m' := FirstEmpty(emptyOutput, k + 1, |cs| - 1);
        assert m == m' + 1;
        if on {
          ConsTake(cs, m' + 1);
        }
      }
    }
  }

  /** The loop stops early exactly when some composition's play is empty, and then that play
      is its last launch. */
  lemma {:induction false} PlayFromStops(play: string -> Invocation, cleanup: string -> seq<Invocation>,
                                         cs: seq<string>, emptyOutput: nat -> bool, k: nat)
    ensures
      var out := PlayFrom(play, cleanup, cs, emptyOutput, k);
      var m := FirstEmpty(emptyOutput, k, |cs|);
      && (out.stoppedEarly <==> m < |cs|)
      && (out.stoppedEarly ==> |out.trace| > 0 && out.trace[|out.trace| - 1] == play(cs[m]))
    decreases |cs|
  {
    if cs != [] && !emptyOutput(k) {
      PlayFromStep(play, cleanup, cs, emptyOutput, k);
      PlayFromStops(play, cleanup, cs[1..], emptyOutput, k + 1);
    }
  }

  /** Every delete the loop issues directly follows the play of its composition. */
  lemma {:induction false} PlayFromDeletesFollowPlays(play: string -> Invocation, cleanup: string -> seq<Invocation>,
                                                      on: bool, cs: seq<string>, emptyOutput: nat -> bool, k: nat)
    requires PlaysOwnName(play) && CleansUpOwnName(cleanup, on)
    ensures DeletesFollowPlays(PlayFrom(play, cleanup, cs, emptyOutput, k).trace)
    decreases |cs|
  {
    if cs != [] && !emptyOutput(k) {
      PlayFromStep(play, cleanup, cs, emptyOutput, k);
      var head := [play(cs[0])] + cleanup(cs[0]);
      var rest := PlayFrom(play, cleanup, cs[1..], emptyOutput, k + 1).trace;
      var t := head + rest;
      PlayFromDeletesFollowPlays(play, cleanup, on, cs[1..], emptyOutput, k + 1);
      forall j | 0 <= j < |t| && t[j].Delete?
        ensures 0 < j && t[j - 1].Play? && t[j - 1].composition == t[j].composition
      {
        if j >= |head| {
          assert t[j] == rest[j - |head|];
          if j > |head| {
            assert t[j - 1] == rest[j - 1 - |head|];
          }
        }
      }
    }
  }

  /** Every launch of the loop is the play of its composition or one of its cleanup
      launches. */
  lemma {:induction false} PlayFromLaunchedBy(play: string -> Invocation, cleanup: string -> seq<Invocation>,
                                              cs: seq<string>, emptyOutput: nat -> bool, k: nat)
    requires forall c :: play(c).composition == c
    requires forall c, j :: 0 <= j < |cleanup(c)| ==> cleanup(c)[j].composition == c
    ensures LaunchedBy(play, cleanup, PlayFrom(play, cleanup, cs, emptyOutput, k).trace)
    decreases |cs|
  {
    if cs != [] {
      var head := [play(cs[0])] + cleanup(cs[0]);
      assert LaunchedBy(play, cleanup, head) by {
        forall j | 0 <= j < |head|
          ensures head[j] == play(head[j].composition) || head[j] in cleanup(head[j].composition)
        {
          if j > 0 {
            assert head[j] == cleanup(cs[0])[j - 1];
          }
        }
      }
      if !emptyOutput(k) {
        PlayFromStep(play, cleanup, cs, emptyOutput, k);
        PlayFromLaunchedBy(play, cleanup, cs[1..], emptyOutput, k + 1);
        LaunchedByAppend(play, cleanup, head, PlayFrom(play, cleanup, cs[1..], emptyOutput, k + 1).trace);
      }
    }
  }

  /** Two loops whose plays and cleanups agree on every composition do the same. */
  lemma {:induction false} PlayFromAgree(play1: string -> Invocation, cleanup1: string -> seq<Invocation>,
                                         play2: string -> Invocation, cleanup2: string -> seq<Invocation>,
                                         cs: seq<string>, emptyOutput: nat -> bool, k: nat)
    requires forall c :: play1(c) == play2(c) && cleanup1(c) == cleanup2(c)
    ensures PlayFrom(play1, cleanup1, cs, emptyOutput, k) == PlayFrom(play2, cleanup2, cs, emptyOutput, k)
    decreases |cs|
  {
    if cs != [] {
      PlayFromAgree(play1, cleanup1, play2, cleanup2, cs[1..], emptyOutput, k + 1);
    }
  }

  // ---------------------------------------------------------------------------
  // Properties of the step
  // ---------------------------------------------------------------------------

  /** The step's play launch of any composition is a play of that composition, and its
      cleanup is deletes of that composition, present only when cleanup is on. */
  lemma {:induction false} StepLaunches(r: Runner, ctx: BuildContext)
    ensures PlaysOwnName(PlayLaunch(r, ctx))
    ensures CleansUpOwnName(CleanupLaunches(r, ctx), r.deleteOldResults)
  {
  }

  /** The step plays `c` with its play command line, and cleans up after it with exactly one
      delete when cleanup is on and with nothing otherwise. */
  lemma {:induction false} StepLaunchOf(r: Runner, ctx: BuildContext, c: string)
    ensures PlayLaunch(r, ctx)(c) == PlayOf(r, ctx, Options(r, ctx), c)
    ensures CleanupLaunches(r, ctx)(c) == (if r.deleteOldResults then [DeleteOf(r, ctx, c)] else [])
  {
  }

  /** When no play writes an empty file, every composition of the field is played once, in
      order, duplicates kept; each is followed by a delete exactly when cleanup is on; and the
      results directory is archived with the `/**/*.xml` pattern. */
  lemma {:induction false} PerformPlaysEveryComposition(r: Runner, ctx: BuildContext, emptyOutput: nat -> bool)
    requires forall i :: 0 <= i < |Compositions(r, ctx)| ==> !emptyOutput(i)
    ensures
      var x := Perform(r, ctx, emptyOutput);
      var cs := Compositions(r, ctx);
      && PlayNames(x.trace) == cs
      && DeleteNames(x.trace) == (if r.deleteOldResults then cs else [])
      && x.archivePattern == Some(ResultsPattern)
  {
    var cs := Compositions(r, ctx);
    var play, cleanup := PlayLaunch(r, ctx), CleanupLaunches(r, ctx);
    StepLaunches(r, ctx);
    PlayFromPlays(play, cleanup, r.deleteOldResults, cs, emptyOutput, 0);
    PlayFromDeletes(play, cleanup, r.deleteOldResults, cs, emptyOutput, 0);
    PlayFromStops(play, cleanup, cs, emptyOutput, 0);
    var m := FirstEmpty(emptyOutput, 0, |cs|);
    if m < |cs| {
      assert false;
    }
    assert cs[..m] == cs;
  }

  /** When the play of the `k`-th composition is the first empty one, the loop plays the
      first `k + 1`, cleans up after the first `k` (when on), and ends early with that play. */
  lemma {:induction false} PlayFromStopsAt(play: string -> Invocation, cleanup: string -> seq<Invocation>, on: bool,
                                           cs: seq<string>, emptyOutput: nat -> bool, k: nat)
    requires PlaysOwnName(play) && CleansUpOwnName(cleanup, on)
    requires k < |cs| && emptyOutput(k)
    requires forall i :: 0 <= i < k ==> !emptyOutput(i)
    ensures
      var out := PlayFrom(play, cleanup, cs, emptyOutput, 0);
      && PlayNames(out.trace) == cs[..k + 1]
      && DeleteNames(out.trace) == (if on then cs[..k] else [])
      && out.stoppedEarly
      && |out.trace| > 0 && out.trace[|out.trace| - 1] == play(cs[k])
  {
    var m := FirstEmpty(emptyOutput, 0, |cs|);
    assert m == k;
    PlayFromPlays(play, cleanup, on, cs, emptyOutput, 0);
    PlayFromDeletes(play, cleanup, on, cs, emptyOutput, 0);
    PlayFromStops(play, cleanup, cs, emptyOutput, 0);
  }

  /** When the play of the `k`-th composition is the first to write an empty file, the step
      plays the first `k + 1` compositions, deletes (when cleanup is on) only after the first
      `k`, ends with that empty play, and returns without archiving. */
  lemma {:induction false} PerformStopsAtFirstEmptyOutput(r: Runner, ctx: BuildContext, emptyOutput: nat -> bool, k: nat)
    requires k < |Compositions(r, ctx)|
    requires emptyOutput(k)
    requires forall i :: 0 <= i < k ==> !emptyOutput(i)
    ensures
      var x := Perform(r, ctx, emptyOutput);
      var cs := Compositions(r, ctx);
      && PlayNames(x.trace) == cs[..k + 1]
      && DeleteNames(x.trace) == (if r.deleteOldResults then cs[..k] else [])
      && |x.trace| > 0
      && x.trace[|x.trace| - 1] == PlayOf(r, ctx, Options(r, ctx), cs[k])
      && x.archivePattern.None?
  {
    var cs := Compositions(r, ctx);
    var play, cleanup := PlayLaunch(r, ctx), CleanupLaunches(r, ctx);
    var out := PlayFrom(play, cleanup, cs, emptyOutput, 0);
    assert Perform(r, ctx, emptyOutput) == Execution(out.trace, if out.stoppedEarly then None else Some(ResultsPattern));
    StepLaunches(r, ctx);
    PlayFromStopsAt(play, cleanup, r.deleteOldResults, cs, emptyOutput, k);
    StepLaunchOf(r, ctx, cs[k]);
  }

  /** Archiving happens exactly when no play wrote an empty file, and always with the
      results-directory pattern. */
  lemma {:induction false} PerformArchivesIff(r: Runner, ctx: BuildContext, emptyOutput: nat -> bool)
    ensures
      var x := Perform(r, ctx, emptyOutput);
      && (x.archivePattern.Some? <==> forall i :: 0 <= i < |Compositions(r, ctx)| ==> !emptyOutput(i))
      && (x.archivePattern.Some? ==> x.archivePattern.value == ResultsPattern)
  {
    PlayFromStops(PlayLaunch(r, ctx), CleanupLaunches(r, ctx), Compositions(r, ctx), emptyOutput, 0);
  }

  /** Every launch of the step carries the command line its composition calls for, and every
      delete directly follows the play of the same composition. */
  lemma {:induction false} PerformInvocationsWellFormed(r: Runner, ctx: BuildContext, emptyOutput: nat -> bool)
    ensures
      var x := Perform(r, ctx, emptyOutput);
      && DeletesFollowPlays(x.trace)
      && InvocationsWellFormed(r, ctx, Options(r, ctx), x.trace)
  {
    var cs := Compositions(r, ctx);
    var play, cleanup := PlayLaunch(r, ctx), CleanupLaunches(r, ctx);
    var t := PlayFrom(play, cleanup, cs, emptyOutput, 0).trace;
    StepLaunches(r, ctx);
    PlayFromDeletesFollowPlays(play, cleanup, r.deleteOldResults, cs, emptyOutput, 0);
    PlayFromLaunchedBy(play, cleanup, cs, emptyOutput, 0);
    forall j | 0 <= j < |t|
      ensures t[j] == (if t[j].Play? then PlayOf(r, ctx, Options(r, ctx), t[j].composition) else DeleteOf(r, ctx, t[j].composition))
    {
      var c := t[j].composition;
      StepLaunchOf(r, ctx, c);
      if t[j] != play(c) {
        assert t[j] in cleanup(c);
        assert t[j] == DeleteOf(r, ctx, c);
      }
    }
  }

  /** A composition field made only of line breaks plays nothing, and the (empty) results
      directory is still archived. */
  lemma {:induction false} PerformOnlyLineBreaks(r: Runner, ctx: BuildContext, emptyOutput: nat -> bool)
    requires |ctx.expand(r.composition)| > 0
    requires forall i :: 0 <= i < |ctx.expand(r.composition)| ==> IsBreak(ctx.expand(r.composition)[i])
    ensures Perform(r, ctx, emptyOutput) == Execution([], Some(ResultsPattern))
  {
    SplitLinesEmptyIff(ctx.expand(r.composition));
  }

  // ---------------------------------------------------------------------------
  // Properties of the command lines and result files
  // ---------------------------------------------------------------------------

  /** The play command line: the SCommand arguments, then `cmd=play`, `wait`,
      `format=junitxml`, `name=c`, then the validations and the user's option tokens
      (`PlayArgsValidation`, `PlayArgsOption`), then the CSV directory when plot CSVs are wanted;
      nothing after the SCommand arguments is masked. */
  lemma {:induction false} PlayArgsShape(r: Runner, ctx: BuildContext, options: Option<seq<string>>, c: string)
    ensures
      var args := PlayArgs(r, ctx, options, c);
      var nb := |ctx.scommandArgs|;
      var nv := if r.thresholds.Some? then |r.thresholds.value| else 0;
      var no := if options.Some? then |options.value| else 0;
      && |args| == nb + 4 + nv + no + (if r.generatePlotCSV then 1 else 0)
      && args[..nb] == ctx.scommandArgs
      && args[nb] == Plain("cmd=play") && args[nb + 1] == Plain("wait")
      && args[nb + 2] == Plain("format=junitxml") && args[nb + 3] == Plain("name=" + c)
      && (r.generatePlotCSV ==> args[|args| - 1] == Plain("outputthresholdcsvdir=" + ctx.workspace))
      && NoneMasked(args[nb..])
  {
    var args := PlayArgs(r, ctx, options, c);
    var nb := |ctx.scommandArgs|;
    var vs, os := ValidationTokens(r.thresholds, ctx.render), OptionTokens(options);
    PlayArgsParts(r, ctx, options, c);
    TokensOfParts(args, nb, c, vs, os);
  }

  /** After the four fixed play tokens come `validation=` and the rendered threshold, one
      per threshold in list order: the `i`-th threshold's token is at `nb + 4 + i`. */
  lemma {:induction false} PlayArgsValidation(r: Runner, ctx: BuildContext, options: Option<seq<string>>, c: string, i: nat)
    requires r.thresholds.Some? && i < |r.thresholds.value|
    ensures
      var args := PlayArgs(r, ctx, options, c);
      && |ctx.scommandArgs| + 4 + i < |args|
      && args[|ctx.scommandArgs| + 4 + i] == Plain("validation=" + ctx.render(r.thresholds.value[i]))
  {
    var front := ctx.scommandArgs + PlainAll(["cmd=play", "wait", "format=junitxml", "name=" + c]);
    var back := PlainAll(OptionTokens(options))
                + (if r.generatePlotCSV then [Plain("outputthresholdcsvdir=" + ctx.workspace)] else []);
    var vs := PlainAll(ValidationTokens(r.thresholds, ctx.render));
    assert PlayArgs(r, ctx, options, c) == front + vs + back;
    IndexOfMiddle(front, vs, back, i);
  }

  /** An element of the middle part of a three-part concatenation. */
  lemma {:induction false} IndexOfMiddle<T>(a: seq<T>, b: seq<T>, c: seq<T>, i: nat)
    requires i < |b|
    ensures |a| + i < |a + b + c| && (a + b + c)[|a| + i] == b[i]
  {
  }

  /** After the validations come the user's option tokens, in order: the `i`-th option
      token is at `nb + 4 + nv + i`, `nv` being the number of thresholds. */
  lemma {:induction false} PlayArgsOption(r: Runner, ctx: BuildContext, options: Option<seq<string>>, c: string, i: nat)
    requires options.Some? && i < |options.value|
    ensures
      var args := PlayArgs(r, ctx, options, c);
      var nv := if r.thresholds.Some? then |r.thresholds.value| else 0;
      && |ctx.scommandArgs| + 4 + nv + i < |args|
      && args[|ctx.scommandArgs| + 4 + nv + i] == Plain(options.value[i])
  {
    var front := ctx.scommandArgs + PlainAll(["cmd=play", "wait", "format=junitxml", "name=" + c])
                 + PlainAll(ValidationTokens(r.thresholds, ctx.render));
    var csv := if r.generatePlotCSV then [Plain("outputthresholdcsvdir=" + ctx.workspace)] else [];
    assert PlayArgs(r, ctx, options, c) == front + PlainAll(options.value) + csv;
    IndexOfMiddle(front, PlainAll(options.value), csv, i);
  }

  /** The play command line as five consecutive groups of tokens. */
  lemma {:induction false} PlayArgsParts(r: Runner, ctx: BuildContext, options: Option<seq<string>>, c: string)
    ensures
      var args := PlayArgs(r, ctx, options, c);
      var nb := |ctx.scommandArgs|;
      var nv := |ValidationTokens(r.thresholds, ctx.render)|;
      var no := |OptionTokens(options)|;
      && |args| == nb + 4 + nv + no + (if r.generatePlotCSV then 1 else 0)
      && args[..nb] == ctx.scommandArgs
      && args[nb..nb + 4] == PlainAll(["cmd=play", "wait", "format=junitxml", "name=" + c])
      && args[nb + 4..nb + 4 + nv] == PlainAll(ValidationTokens(r.thresholds, ctx.render))
      && args[nb + 4 + nv..nb + 4 + nv + no] == PlainAll(OptionTokens(options))
      && (r.generatePlotCSV ==> args[|args| - 1] == Plain("outputthresholdcsvdir=" + ctx.workspace))
      && NoneMasked(args[nb..])
  {
    var fixed := PlainAll(["cmd=play", "wait", "format=junitxml", "name=" + c]);
    var validations := PlainAll(ValidationTokens(r.thresholds, ctx.render));
    var opts := PlainAll(OptionTokens(options));
    var csv := if r.generatePlotCSV then [Plain("outputthresholdcsvdir=" + ctx.workspace)] else [];
    FiveParts(ctx.scommandArgs, fixed, validations, opts, csv);
    NoneMaskedAppend(fixed, validations);
    NoneMaskedAppend(fixed + validations, opts);
    NoneMaskedAppend(fixed + validations + opts, csv);
  }

  /** The elements of a slice are the elements of the whole at the slice's offset. */
  lemma {:induction false} SliceElements<T>(s: seq<T>, lo: nat, part: seq<T>)
    requires lo + |part| <= |s| && s[lo..lo + |part|] == part
    ensures forall i :: 0 <= i < |part| ==> s[lo + i] == part[i]
  {
    forall i | 0 <= i < |part|
      ensures s[lo + i] == part[i]
    {
      assert s[lo..lo + |part|][i] == s[lo + i];
    }
  }

  /** The tokens of a command line laid out as the fixed play tokens, the validations and
      the options, starting at offset `nb`. */
  lemma {:induction false} TokensOfParts(args: seq<Arg>, nb: nat, c: string, vs: seq<string>, os: seq<string>)
    requires nb + 4 + |vs| + |os| <= |args|
    requires args[nb..nb + 4] == PlainAll(["cmd=play", "wait", "format=junitxml", "name=" + c])
    requires args[nb + 4..nb + 4 + |vs|] == PlainAll(vs)
    requires args[nb + 4 + |vs|..nb + 4 + |vs| + |os|] == PlainAll(os)
    ensures args[nb] == Plain("cmd=play") && args[nb + 1] == Plain("wait")
    ensures args[nb + 2] == Plain("format=junitxml") && args[nb + 3] == Plain("name=" + c)
    ensures forall i :: 0 <= i < |vs| ==> args[nb + 4 + i] == Plain(vs[i])
    ensures forall i :: 0 <= i < |os| ==> args[nb + 4 + |vs| + i] == Plain(os[i])
  {
    SliceElements(args, nb, PlainAll(["cmd=play", "wait", "format=junitxml", "name=" + c]));
    SliceElements(args, nb + 4, PlainAll(vs));
    SliceElements(args, nb + 4 + |vs|, PlainAll(os));
  }

  /** Where each of five concatenated parts sits in the whole. */
  lemma {:induction false} FiveParts<T>(a: seq<T>, b: seq<T>, c: seq<T>, d: seq<T>, e: seq<T>)
    ensures
      var s := a + b + c + d + e;
      && |s| == |a| + |b| + |c| + |d| + |e|
      && s[..|a|] == a
      && s[|a|..|a| + |b|] == b
      && s[|a| + |b|..|a| + |b| + |c|] == c
      && s[|a| + |b| + |c|..|a| + |b| + |c| + |d|] == d
      && s[|a|..] == b + c + d + e
      && (|e| > 0 ==> s[|s| - 1] == e[|e| - 1])
  {
    var s := a + b + c + d + e;
    assert s == a + (b + c + d + e);
    assert b + c + d + e == b + (c + d + e);
    assert c + d + e == c + (d + e);
  }

  /** The delete command line is the SCommand arguments followed by `cmd=delete`,
      `type=result`, `path=c` and `maxage=` with the day count, which reads back as the
      configured number; none of those four is masked. */
  lemma {:induction false} DeleteArgsShape(ctx: BuildContext, c: string, maxDays: int32)
    ensures
      var args := DeleteArgs(ctx, c, maxDays);
      var nb := |ctx.scommandArgs|;
      && |args| == nb + 4
      && args[..nb] == ctx.scommandArgs
      && args[nb] == Plain("cmd=delete")
      && args[nb + 1] == Plain("type=result")
      && args[nb + 2] == Plain("path=" + c)
      && NoneMasked(args[nb..])
      && StartsWith(args[nb + 3].text, "maxage=")
      && ParseInt(args[nb + 3].text[7..]) == Some(maxDays)
  {
    var args := DeleteArgs(ctx, c, maxDays);
    var nb := |ctx.scommandArgs|;
    var age := "maxage=" + IntToString(maxDays);
    assert args[nb + 3] == Plain(age);
    assert age[7..] == IntToString(maxDays);
    IntRoundTrip(maxDays);
  }

  /** Appending `.xml` and then stripping one leading `/` is the same as stripping first. */
  lemma {:induction false} ResultFileShape(separator: string, c: string)
    ensures ResultFile(separator, c) == ResultsDir + separator + StripOneSlash(c) + ".xml"
  {
    if StartsWith(c, "/") {
      assert (c + ".xml")[1..] == c[1..] + ".xml";
    } else if |c| > 0 {
      assert c[..1] == [c[0]];
      assert (c + ".xml")[..1] == [c[0]];
      assert ResultsDir + separator + (c + ".xml") == ResultsDir + separator + c + ".xml";
    } else {
      assert ".xml"[..1] == [".xml"[0]] == ".";
      assert c + ".xml" == ".xml";
      assert ResultsDir + separator + c == ResultsDir + separator;
    }
  }

  /** Every result path, as a string, starts with the results directory and the separator
      and ends in `.xml`. Paths are not normalised here: a name with `..` segments gives a
      path with this prefix that names a file outside the directory. */
  lemma {:induction false} ResultFileInResultsDir(separator: string, c: string)
    ensures StartsWith(ResultFile(separator, c), ResultsDir + separator)
    ensures EndsWith(ResultFile(separator, c), ".xml")
  {
    ResultFileShape(separator, c);
    var f := ResultFile(separator, c);
    assert f[..|ResultsDir + separator|] == ResultsDir + separator;
    assert f[|f| - 4..] == ".xml";
  }

  /** The result paths of two compositions, compared as strings, coincide exactly when the
      names are equal after stripping one leading `/` (so `/A` and `A` get the same path).
      Paths are not normalised here: `//A` gives a path with a doubled separator. */
  lemma {:induction false} ResultFileSameIff(separator: string, c1: string, c2: string)
    ensures ResultFile(separator, c1) == ResultFile(separator, c2) <==> StripOneSlash(c1) == StripOneSlash(c2)
  {
    ResultFileShape(separator, c1);
    ResultFileShape(separator, c2);
    var p := ResultsDir + separator;
    var s1, s2 := StripOneSlash(c1), StripOneSlash(c2);
    if p + s1 + ".xml" == p + s2 + ".xml" {
      assert |s1| == |s2|;
      assert s1 == (p + s1 + ".xml")[|p|..|p| + |s1|];
      assert s2 == (p + s2 + ".xml")[|p|..|p| + |s2|];
    }
  }

  /** Only one leading `/` is stripped: `//x` is stored as `/x.xml`. */
  lemma {:induction false} ResultFileStripsOnce(separator: string)
    ensures ResultFile(separator, "//x") == ResultsDir + separator + "/x.xml"
  {
    assert StartsWith("//x" + ".xml", "/");
    assert ("//x" + ".xml")[1..] == "/x.xml";
  }

  // ---------------------------------------------------------------------------
  // Migration does not change what a build does
  // ---------------------------------------------------------------------------

  /** Given the same SCommand connection arguments, a legacy configuration and its migrated
      form run the same launches and archive the same way. The migrated one names the server
      the legacy URL resolved to; how the connection arguments are built from that server is
      not part of this model. */
  lemma {:induction false} MigrationKeepsExecution(r: Runner, reg: CloudTestServers.Registry, ctx: BuildContext,
                                                   emptyOutput: nat -> bool)
    requires ReadResolve(r, reg).Ok?
    ensures Perform(ReadResolve(r, reg).value, ctx, emptyOutput) == Perform(r, ctx, emptyOutput)
  {
    var r' := ReadResolve(r, reg).value;
    assert Options(r', ctx) == Options(r, ctx);
    assert Compositions(r', ctx) == Compositions(r, ctx);
    forall c
      ensures PlayLaunch(r', ctx)(c) == PlayLaunch(r, ctx)(c)
      ensures CleanupLaunches(r', ctx)(c) == CleanupLaunches(r, ctx)(c)
    {
      StepLaunchOf(r, ctx, c);
      StepLaunchOf(r', ctx, c);
      assert PlayOf(r', ctx, Options(r, ctx), c) == PlayOf(r, ctx, Options(r, ctx), c);
    }
    PlayFromAgree(PlayLaunch(r', ctx), CleanupLaunches(r', ctx), PlayLaunch(r, ctx), CleanupLaunches(r, ctx),
                  Compositions(r, ctx), emptyOutput, 0);
  }
}
