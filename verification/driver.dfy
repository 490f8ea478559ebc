/**
 `process_files` (file_handler.py 10-53): create the archives, then run the technology,
 runtime, hardware and project-file stages in that order, setting the progress bar
 before each and stopping at the first falsy result or raised cancel flag.
 */
module Driver {
  import opened Optional
  import opened Text
  import opened Files
  import opened Cancellation
  import opened Archive
  import opened Walk
  import opened Setup
  import opened Technology
  import opened Runtime
  import opened Hardware

  /** How a run ends: all stages done, an early `return`, or the exception reported at line 53. */
  datatype Outcome = Finished | Stopped | Failed

  /** The archives after the run, the progress values in the order they were set, and the outcome. */
  datatype Run = Run(store: Store, progress: seq<int>, outcome: Outcome)

  /** Line 13: the archive next to the project folder. */
  function MainArchive(file: string): string {
    Dirname(file) + ".zip"
  }

  /** Lines 13-16: the updates archive is the main one unless updates are separated. */
  function UpdatesArchive(file: string, separate: bool): string {
    if separate then Dirname(file) + "_Updates.zip" else MainArchive(file)
  }

  /** With separation on, the two archives are different files. */
  lemma SeparateArchivesDiffer(file: string)
    ensures UpdatesArchive(file, true) != MainArchive(file)
  {
    assert |UpdatesArchive(file, true)| != |MainArchive(file)|;
  }

  /** The stages after the technology stage that a check-box can switch off, in the order lines 28-41 run them. */
  datatype Gate = RuntimeGate | HardwareGate

  /** The enabled ones (`include_runtime`, `include_hardware`). */
  function Enabled(s: Settings): seq<Gate> {
    (if s.runtime then [RuntimeGate] else []) + (if s.hardware then [HardwareGate] else [])
  }

  /** The progress value set before a stage (lines 29 and 37). */
  function Mark(g: Gate): int {
    match g
    case RuntimeGate => 30
    case HardwareGate => 50
  }

  function Marks(gates: seq<Gate>): (r: seq<int>)
    ensures |r| == |gates| && forall i :: 0 <= i < |gates| ==> r[i] == Mark(gates[i])
  {
    if |gates| == 0 then [] else [Mark(gates[0])] + Marks(gates[1..])
  }

  /** The progress values of a run that completes every enabled stage. */
  function Planned(s: Settings): seq<int> {
    [10] + Marks(Enabled(s)) + [70, 100]
  }

  /** The plan starts at 10, ends at 100, visits 30 exactly when the runtime stage is enabled, 50 exactly when the hardware stage is, and only climbs. */
  lemma PlannedShape(s: Settings)
    ensures |Planned(s)| >= 3 && Planned(s)[0] == 10 && Planned(s)[|Planned(s)| - 1] == 100
    ensures 30 in Planned(s) <==> s.runtime
    ensures 50 in Planned(s) <==> s.hardware
    ensures forall i, j :: 0 <= i < j < |Planned(s)| ==> Planned(s)[i] < Planned(s)[j]
  {
    var m := Marks(Enabled(s));
    assert m == (if s.runtime then [30] else []) + (if s.hardware then [50] else []);
  }

  /** Putting one value in front keeps a prefix a prefix. */
  lemma PrefixCons(x: int, a: seq<int>, b: seq<int>)
    ensures a <= b ==> [x] + a <= [x] + b
  {
    if a <= b {
      assert [x] + b == ([x] + a) + b[|a|..];
    }
  }

  /** The walk's flags, from the check-boxes. */
  function ProjectInclude(s: Settings): Include {
    Include(s.binaries, s.diagnosis, s.temp, s.dotFolders)
  }

  /** The folder the project walk starts from: every ".zip" removed from the main archive's path (line 62). */
  function ProjectTop(main: string): string {
    ReplaceAll(main, ".zip", "")
  }

  /** When ".zip" occurs in the main archive's path only at its end, the walk starts from the project's folder. */
  lemma ProjectTopOfMain(file: string)
    requires forall k :: 0 <= k < |Dirname(file)| ==> !(".zip" <= (Dirname(file) + ".zip")[k..])
    ensures ProjectTop(MainArchive(file)) == Dirname(file)
  {
    ReplaceAllSuffix(Dirname(file), ".zip");
  }

  /** Every ".zip" is removed, not only the extension: a folder named `p.zipx` is walked as `px`. */
  lemma ProjectTopDropsInnerZip()
    ensures ProjectTop("p.zipx.zip") == "px"
  {
    var s := "p.zipx.zip";
    assert !(".zip" <= s);
    assert s[1..] == ".zipx.zip" && ".zip" <= s[1..];
    assert s[1..][4..] == "x.zip" && !(".zip" <= "x.zip");
    assert "x.zip"[1..] == ".zip" && ".zip" <= ".zip";
    assert ".zip"[4..] == "";
    assert ReplaceAll("x.zip", ".zip", "") == "x";
    assert ReplaceAll(".zipx.zip", ".zip", "") == "x";
  }

  /**
   The three stage functions a run calls, with the environment and project file already
   applied: the technology stage takes the project file's text, the runtime and hardware
   stages the version key; each takes the poll count so far.
   */
  datatype Stages = Stages(
    tech: (Option<string>, nat) -> Step,
    cpu: (string, nat) -> Step,
    hw: (string, nat) -> Step)

  /** The stages file_handler.py calls (lines 22, 31 and 39). */
  function StagesOf(env: Env, file: string): Stages {
    Stages(
      (content: Option<string>, polls: nat) => Tech(env, content, polls),
      (key: string, polls: nat) => Cpu(env, file, key, polls),
      (key: string, polls: nat) => Hw(env, file, key, polls))
  }

  function StageOf(st: Stages, g: Gate): (string, nat) -> Step {
    match g
    case RuntimeGate => st.cpu
    case HardwareGate => st.hw
  }

  /**
   Lines 44-50: progress 70, the project walk into the main archive, progress 100.
   The walk's own result is ignored, so a cancelled walk still ends the run as finished.
   */
  function ProjectFiles(env: Env, main: string, store: Store, polls: nat): Run {
    var w := WalkProject(env.fs, ProjectTop(main), ProjectInclude(env.settings), env.cancel, polls);
    Run(Append(store, main, w.written), [70, 100], Finished)
  }

  /**
   Lines 28-50 from the stage `gates[0]` on: set its progress value, run it, add its files to
   the updates archive, and stop when its result is falsy or the cancel flag is raised;
   after the last stage come the project files.
   */
  function Gates(env: Env, main: string, updates: string, key: string, gates: seq<Gate>, store: Store, polls: nat, st: Stages): Run
    decreases |gates|
  {
    if |gates| == 0 then ProjectFiles(env, main, store, polls)
    else
      var x := StageOf(st, gates[0])(key, polls);
      var s := AddAll(store, updates, x.added);
      if !Truthy(x.value) || Cancelled(env.cancel, x.polls) then Run(s, [Mark(gates[0])], Stopped)
      else
        var q := Gates(env, main, updates, key, gates[1..], s, x.polls + 1, st);
        Run(q.store, [Mark(gates[0])] + q.progress, q.outcome)
  }

  /** Lines 13-20: the main archive, and with separation the updates archive, created afresh. */
  function Opened(store: Store, file: string, separate: bool): Store {
    var s0 := Create(store, MainArchive(file), separate);
    if separate then Create(s0, UpdatesArchive(file, separate), separate) else s0
  }

  /** A technology result whose flag is set carries a version. */
  predicate Keyed(t: Step) {
    t.value.Pair? && t.value.ok ==> t.value.key.Some?
  }

  /**
   Lines 22-26 given the technology stage's result `t`: add its files, then go on from
   line 28. The result must unpack as a tuple (anything else fails at line 23); a false
   flag in it or a raised cancel flag stops the run.
   */
  function AfterTech(env: Env, main: string, updates: string, t: Step, store: Store, st: Stages): Run
    requires Keyed(t)
  {
    var s := AddAll(store, updates, t.added);
    match t.value
    case Pair(key, ok) =>
      if !ok || Cancelled(env.cancel, t.polls) then Run(s, [10], Stopped)
      else
        var q := Gates(env, main, updates, key.value, Enabled(env.settings), s, t.polls + 1, st);
        Run(q.store, [10] + q.progress, q.outcome)
    case _ => Run(s, [10], Failed)
  }

  /** The technology stage's answer on the project file. */
  function TechStep(env: Env, file: string, st: Stages): Step {
    st.tech(ReadText(env.fs, file), 0)
  }

  /** The run with the stages `st`: the archives are created, then the technology stage runs on the project file's text. */
  function RunStages(env: Env, file: string, store: Store, st: Stages): Run
    requires Keyed(TechStep(env, file, st))
  {
    var sep := env.settings.separate;
    AfterTech(env, MainArchive(file), UpdatesArchive(file, sep), TechStep(env, file, st), Opened(store, file, sep), st)
  }

  /** `process_files` on the project file `file`. */
  function ProcessFiles(env: Env, file: string, store: Store): Run {
    RunStages(env, file, store, StagesOf(env, file))
  }

  /** The stage `g` called with the key at poll `p` ends the run: its result is falsy or the poll after it finds the flag set. */
  ghost predicate StageStops(env: Env, st: Stages, g: Gate, key: string, p: nat) {
    !Truthy(StageOf(st, g)(key, p).value) || Cancelled(env.cancel, StageOf(st, g)(key, p).polls)
  }

  /**
   The poll numbers at which a run from the stages `gates` on calls each stage, starting
   at `polls`, up to and including the first stage that stops it.
   */
  ghost function CallPolls(env: Env, st: Stages, gates: seq<Gate>, key: string, polls: nat): (r: seq<nat>)
    ensures |r| <= |gates|
    ensures |gates| > 0 ==> |r| >= 1 && r[0] == polls
    decreases |gates|
  {
    if |gates| == 0 then []
    else if StageStops(env, st, gates[0], key, polls) then [polls]
    else [polls] + CallPolls(env, st, gates[1..], key, StageOf(st, gates[0])(key, polls).polls + 1)
  }

  /** The last of the calls `c` (one per stage, in order) stops the run. */
  ghost predicate LastCallStops(env: Env, st: Stages, gates: seq<Gate>, key: string, c: seq<nat>) {
    0 < |c| <= |gates| && StageStops(env, st, gates[|c| - 1], key, c[|c| - 1])
  }

  lemma LastCallStopsCons(env: Env, st: Stages, gates: seq<Gate>, key: string, p: nat, c: seq<nat>)
    requires |gates| > 0 && |c| > 0
    ensures LastCallStops(env, st, gates, key, [p] + c) == LastCallStops(env, st, gates[1..], key, c)
  {
    if |c| <= |gates| - 1 {
      assert gates[|c|] == gates[1..][|c| - 1] && ([p] + c)[|c|] == c[|c| - 1];
    }
  }

  /**
   The calls follow the run: every stage called before the last lets the run go on, and
   the next one is called at the poll after that stage's check; when the calls end before
   the stages do, the last one called stops the run.
   */
  lemma {:induction false} CallPollsChain(env: Env, st: Stages, gates: seq<Gate>, key: string, polls: nat)
    ensures var r := CallPolls(env, st, gates, key, polls);
            forall i :: 0 <= i < |r| - 1 ==>
              !StageStops(env, st, gates[i], key, r[i]) && r[i + 1] == StageOf(st, gates[i])(key, r[i]).polls + 1
    ensures var r := CallPolls(env, st, gates, key, polls);
            0 < |r| < |gates| ==> StageStops(env, st, gates[|r| - 1], key, r[|r| - 1])
    decreases |gates|
  {
    if |gates| > 0 && !StageStops(env, st, gates[0], key, polls) {
      var next := StageOf(st, gates[0])(key, polls).polls + 1;
      var rest := CallPolls(env, st, gates[1..], key, next);
      var r := CallPolls(env, st, gates, key, polls);
      assert r == [polls] + rest;
      CallPollsChain(env, st, gates[1..], key, next);
      forall i | 0 < i < |r| - 1
        ensures !StageStops(env, st, gates[i], key, r[i]) && r[i + 1] == StageOf(st, gates[i])(key, r[i]).polls + 1
      {
        assert gates[i] == gates[1..][i - 1] && r[i] == rest[i - 1] && r[i + 1] == rest[i];
      }
      if 0 < |r| < |gates| {
        assert gates[|r| - 1] == gates[1..][|rest| - 1] && r[|r| - 1] == rest[|rest| - 1];
      }
    }
  }

  /**
   The progress values from a stage on are a prefix of the plan, reached exactly when the
   run finishes. The first stage ends the run right after its own value, with its files
   added and nothing else run, exactly when it stops it.
   */
  lemma {:induction false} GatesProgress(env: Env, main: string, updates: string, key: string, gates: seq<Gate>, store: Store, polls: nat, st: Stages)
    ensures Gates(env, main, updates, key, gates, store, polls, st).progress <= Marks(gates) + [70, 100]
    ensures |Gates(env, main, updates, key, gates, store, polls, st).progress| >= 1
    ensures Gates(env, main, updates, key, gates, store, polls, st).outcome != Failed
    ensures Gates(env, main, updates, key, gates, store, polls, st).outcome == Finished <==>
              Gates(env, main, updates, key, gates, store, polls, st).progress == Marks(gates) + [70, 100]
    ensures |gates| > 0 && StageStops(env, st, gates[0], key, polls) ==>
              Gates(env, main, updates, key, gates, store, polls, st) ==
              Run(AddAll(store, updates, StageOf(st, gates[0])(key, polls).added), [Mark(gates[0])], Stopped)
    ensures |gates| > 0 && !StageStops(env, st, gates[0], key, polls) ==>
              |Gates(env, main, updates, key, gates, store, polls, st).progress| >= 2
    decreases |gates|
  {
    if |gates| > 0 {
      var x := StageOf(st, gates[0])(key, polls);
      var s := AddAll(store, updates, x.added);
      assert Marks(gates) + [70, 100] == [Mark(gates[0])] + (Marks(gates[1..]) + [70, 100]);
      if Truthy(x.value) && !Cancelled(env.cancel, x.polls) {
        var q := Gates(env, main, updates, key, gates[1..], s, x.polls + 1, st);
        GatesProgress(env, main, updates, key, gates[1..], s, x.polls + 1, st);
        PrefixCons(Mark(gates[0]), q.progress, Marks(gates[1..]) + [70, 100]);
      }
    }
  }

  /** With no stage left the run goes on to the project files and finishes. */
  lemma GatesEnd(env: Env, main: string, updates: string, key: string, gates: seq<Gate>, store: Store, polls: nat, st: Stages)
    requires |gates| == 0
    ensures Gates(env, main, updates, key, gates, store, polls, st).outcome == Finished
    ensures CallPolls(env, st, gates, key, polls) == []
  {
  }

  /** A stage that stops the run ends it right after its own progress value, and is the last one called. */
  lemma GatesStopHere(env: Env, main: string, updates: string, key: string, gates: seq<Gate>, store: Store, polls: nat, st: Stages)
    requires |gates| > 0 && StageStops(env, st, gates[0], key, polls)
    ensures Gates(env, main, updates, key, gates, store, polls, st).outcome == Stopped
    ensures |Gates(env, main, updates, key, gates, store, polls, st).progress| == 1
    ensures CallPolls(env, st, gates, key, polls) == [polls]
  {
  }

  /** A stage that lets the run go on: its mark comes first, then the run from the next stage at the poll after its check. */
  lemma GatesGoOn(env: Env, main: string, updates: string, key: string, gates: seq<Gate>, store: Store, polls: nat, st: Stages)
    requires |gates| > 0 && !StageStops(env, st, gates[0], key, polls)
    ensures var x := StageOf(st, gates[0])(key, polls);
            var q := Gates(env, main, updates, key, gates[1..], AddAll(store, updates, x.added), x.polls + 1, st);
            Gates(env, main, updates, key, gates, store, polls, st) == Run(q.store, [Mark(gates[0])] + q.progress, q.outcome) &&
            CallPolls(env, st, gates, key, polls) == [polls] + CallPolls(env, st, gates[1..], key, x.polls + 1)
  {
  }

  /**
   A run from some stage on stops exactly when the last stage it calls, at the poll it
   actually calls it, returns a falsy value or is followed by a poll that finds the flag
   set.
   */
  lemma {:induction false} GatesStopReason(env: Env, main: string, updates: string, key: string, gates: seq<Gate>, store: Store, polls: nat, st: Stages)
    ensures Gates(env, main, updates, key, gates, store, polls, st).outcome == Stopped <==>
              LastCallStops(env, st, gates, key, CallPolls(env, st, gates, key, polls))
    decreases |gates|
  {
    if |gates| == 0 {
      GatesEnd(env, main, updates, key, gates, store, polls, st);
    } else if StageStops(env, st, gates[0], key, polls) {
      GatesStopHere(env, main, updates, key, gates, store, polls, st);
    } else {
      var x := StageOf(st, gates[0])(key, polls);
      GatesGoOn(env, main, updates, key, gates, store, polls, st);
      GatesStopReason(env, main, updates, key, gates[1..], AddAll(store, updates, x.added), x.polls + 1, st);
      var cq := CallPolls(env, st, gates[1..], key, x.polls + 1);
      if |cq| > 0 {
        LastCallStopsCons(env, st, gates, key, polls, cq);
      } else {
        assert |gates[1..]| == 0;
        assert !LastCallStops(env, st, gates, key, [polls] + cq);
      }
    }
  }

  /** A run from some stage on that stops does so right after the progress value of the last stage it calls. */
  lemma {:induction false} GatesStopLength(env: Env, main: string, updates: string, key: string, gates: seq<Gate>, store: Store, polls: nat, st: Stages)
    ensures Gates(env, main, updates, key, gates, store, polls, st).outcome == Stopped ==>
              |Gates(env, main, updates, key, gates, store, polls, st).progress| == |CallPolls(env, st, gates, key, polls)|
    decreases |gates|
  {
    if |gates| == 0 {
      GatesEnd(env, main, updates, key, gates, store, polls, st);
    } else if StageStops(env, st, gates[0], key, polls) {
      GatesStopHere(env, main, updates, key, gates, store, polls, st);
    } else {
      var x := StageOf(st, gates[0])(key, polls);
      GatesGoOn(env, main, updates, key, gates, store, polls, st);
      GatesStopLength(env, main, updates, key, gates[1..], AddAll(store, updates, x.added), x.polls + 1, st);
    }
  }

  /**
   The progress values of a run are a prefix of the plan, all of it exactly when the run
   finishes; the run fails exactly when the technology result is not a tuple, and then
   right after the first value.
   */
  lemma AfterTechProgress(env: Env, main: string, updates: string, t: Step, store: Store, st: Stages)
    requires Keyed(t)
    ensures AfterTech(env, main, updates, t, store, st).progress <= Planned(env.settings)
    ensures |AfterTech(env, main, updates, t, store, st).progress| >= 1
    ensures AfterTech(env, main, updates, t, store, st).outcome == Finished <==> AfterTech(env, main, updates, t, store, st).progress == Planned(env.settings)
    ensures AfterTech(env, main, updates, t, store, st).outcome == Failed <==> !t.value.Pair?
    ensures AfterTech(env, main, updates, t, store, st).outcome == Failed ==> AfterTech(env, main, updates, t, store, st).progress == [10]
    ensures t.value.Pair? && (!t.value.ok || Cancelled(env.cancel, t.polls)) ==>
              AfterTech(env, main, updates, t, store, st) == Run(AddAll(store, updates, t.added), [10], Stopped)
    ensures t.value.Pair? && t.value.ok && !Cancelled(env.cancel, t.polls) ==> |AfterTech(env, main, updates, t, store, st).progress| >= 2
  {
    assert Planned(env.settings) == [10] + (Marks(Enabled(env.settings)) + [70, 100]);
    if t.value.Pair? && t.value.ok && !Cancelled(env.cancel, t.polls) {
      var s := AddAll(store, updates, t.added);
      var q := Gates(env, main, updates, t.value.key.value, Enabled(env.settings), s, t.polls + 1, st);
      GatesProgress(env, main, updates, t.value.key.value, Enabled(env.settings), s, t.polls + 1, st);
      PrefixCons(10, q.progress, Marks(Enabled(env.settings)) + [70, 100]);
    }
  }

  lemma ProcessFilesProgress(env: Env, file: string, store: Store)
    ensures ProcessFiles(env, file, store).progress <= Planned(env.settings)
    ensures |ProcessFiles(env, file, store).progress| >= 1
    ensures ProcessFiles(env, file, store).outcome == Finished <==> ProcessFiles(env, file, store).progress == Planned(env.settings)
    ensures ProcessFiles(env, file, store).outcome == Failed <==> !Tech(env, ReadText(env.fs, file), 0).value.Pair?
    ensures ProcessFiles(env, file, store).outcome == Failed ==> ProcessFiles(env, file, store).progress == [10]
  {
    var sep := env.settings.separate;
    AfterTechProgress(env, MainArchive(file), UpdatesArchive(file, sep), TechStep(env, file, StagesOf(env, file)), Opened(store, file, sep), StagesOf(env, file));
  }

  /**
   Why a run stops after the technology stage's result `t`: with only progress 10 set, `t`
   is a tuple with a false flag or the poll after it found the flag set; with later values
   set, the stage of the last value, called with the version key at the poll the run
   called it, returned a falsy value or the poll after it found the flag set.
   */
  lemma AfterTechStopReason(env: Env, main: string, updates: string, t: Step, store: Store, st: Stages)
    requires Keyed(t)
    ensures AfterTech(env, main, updates, t, store, st).outcome == Stopped && |AfterTech(env, main, updates, t, store, st).progress| == 1 <==>
              t.value.Pair? && (!t.value.ok || Cancelled(env.cancel, t.polls))
    ensures var k := |AfterTech(env, main, updates, t, store, st).progress|;
            AfterTech(env, main, updates, t, store, st).outcome == Stopped && k >= 2 ==>
              t.value.Pair? && t.value.key.Some? &&
              var c := CallPolls(env, st, Enabled(env.settings), t.value.key.value, t.polls + 1);
              k - 1 == |c| && LastCallStops(env, st, Enabled(env.settings), t.value.key.value, c)
  {
    AfterTechProgress(env, main, updates, t, store, st);
    if t.value.Pair? && t.value.ok && !Cancelled(env.cancel, t.polls) {
      var s := AddAll(store, updates, t.added);
      var q := Gates(env, main, updates, t.value.key.value, Enabled(env.settings), s, t.polls + 1, st);
      assert AfterTech(env, main, updates, t, store, st) == Run(q.store, [10] + q.progress, q.outcome);
      GatesStopReason(env, main, updates, t.value.key.value, Enabled(env.settings), s, t.polls + 1, st);
      GatesStopLength(env, main, updates, t.value.key.value, Enabled(env.settings), s, t.polls + 1, st);
    }
  }

  /** Why a run with the stages `st` stops, in terms of the technology stage's answer on the project file. */
  lemma RunStagesStopReason(env: Env, file: string, store: Store, st: Stages)
    requires Keyed(TechStep(env, file, st))
    ensures var t := TechStep(env, file, st);
            RunStages(env, file, store, st).outcome == Stopped && |RunStages(env, file, store, st).progress| == 1 <==>
              t.value.Pair? && (!t.value.ok || Cancelled(env.cancel, t.polls))
    ensures var t := TechStep(env, file, st);
            var k := |RunStages(env, file, store, st).progress|;
            RunStages(env, file, store, st).outcome == Stopped && k >= 2 ==>
              t.value.Pair? && t.value.key.Some? &&
              k - 1 == |CallPolls(env, st, Enabled(env.settings), t.value.key.value, t.polls + 1)| &&
              LastCallStops(env, st, Enabled(env.settings), t.value.key.value, CallPolls(env, st, Enabled(env.settings), t.value.key.value, t.polls + 1))
  {
    var sep := env.settings.separate;
    AfterTechStopReason(env, MainArchive(file), UpdatesArchive(file, sep), TechStep(env, file, st), Opened(store, file, sep), st);
  }

  /** Why `process_files` stops right after progress 10, in terms of the technology stage's answer on the project file. */
  lemma ProcessFilesStopReason(env: Env, file: string, store: Store)
    ensures var t := Tech(env, ReadText(env.fs, file), 0);
            ProcessFiles(env, file, store).outcome == Stopped && |ProcessFiles(env, file, store).progress| == 1 <==>
              t.value.Pair? && (!t.value.ok || Cancelled(env.cancel, t.polls))
  {
    assert TechStep(env, file, StagesOf(env, file)) == Tech(env, ReadText(env.fs, file), 0);
    RunStagesStopReason(env, file, store, StagesOf(env, file));
  }

  /**
   Why `process_files` stops after a later progress value: the stage of the last value,
   called with the technology stage's version key at the poll the run called it, stops it.
   */
  lemma ProcessFilesStopsAtStage(env: Env, file: string, store: Store)
    ensures var t := TechStep(env, file, StagesOf(env, file));
            var k := |ProcessFiles(env, file, store).progress|;
            ProcessFiles(env, file, store).outcome == Stopped && k >= 2 ==>
              t.value.Pair? && t.value.key.Some? &&
              k - 1 == |CallPolls(env, StagesOf(env, file), Enabled(env.settings), t.value.key.value, t.polls + 1)| &&
              LastCallStops(env, StagesOf(env, file), Enabled(env.settings), t.value.key.value, CallPolls(env, StagesOf(env, file), Enabled(env.settings), t.value.key.value, t.polls + 1))
  {
    RunStagesStopReason(env, file, store, StagesOf(env, file));
  }

  /** The entries the project walk writes below `main`: a prefix of the filtered listing, all of it when nobody cancels. */
  predicate WalkOutput(env: Env, main: string, w: seq<string>) {
    var top := ProjectTop(main);
    (!IsDir(env.fs, top) ==> w == []) &&
    (IsDir(env.fs, top) ==> w <= Listing(Lookup(env.fs, top).value, "", ProjectInclude(env.settings))) &&
    (IsDir(env.fs, top) && env.cancel.Never? ==> w == Listing(Lookup(env.fs, top).value, "", ProjectInclude(env.settings)))
  }

  /** Every archive only gains entries. */
  ghost predicate Grows(a: Store, b: Store) {
    forall z :: Entries(a, z) <= Entries(b, z)
  }

  /**
   What a run from some point on does to the archives: only `main` and `updates` change,
   nothing is lost, and when the two are different files the updates archive keeps its
   names distinct and the main archive receives the project walk and nothing else, only
   when the run finishes.
   */
  ghost predicate Kept(env: Env, main: string, updates: string, a: Store, b: Store, finished: bool) {
    (forall z :: z != main && z != updates ==> Entries(b, z) == Entries(a, z)) &&
    Grows(a, b) &&
    (main != updates ==>
      (Distinct(Entries(a, updates)) ==> Distinct(Entries(b, updates))) &&
      Entries(a, main) <= Entries(b, main) &&
      (!finished ==> Entries(b, main) == Entries(a, main)) &&
      (finished ==> WalkOutput(env, main, Entries(b, main)[|Entries(a, main)|..])))
  }

  lemma AddAllKept(env: Env, main: string, updates: string, store: Store, items: seq<Item>)
    ensures Kept(env, main, updates, store, AddAll(store, updates, items), false)
  {
    AddAllFrame(store, updates, items);
    if main != updates && Distinct(Entries(store, updates)) {
      AddAllDistinct(store, updates, items);
    }
  }

  lemma KeptChain(env: Env, main: string, updates: string, a: Store, b: Store, c: Store, finished: bool)
    requires Kept(env, main, updates, a, b, false) && Kept(env, main, updates, b, c, finished)
    ensures Kept(env, main, updates, a, c, finished)
  {
    forall z ensures Entries(a, z) <= Entries(c, z) {
      assert Entries(a, z) <= Entries(b, z) && Entries(b, z) <= Entries(c, z);
    }
  }

  /** The project files go to the main archive only, after what it already holds. */
  lemma ProjectFilesKept(env: Env, main: string, updates: string, store: Store, polls: nat)
    ensures Kept(env, main, updates, store, ProjectFiles(env, main, store, polls).store, true)
  {
    var w := WalkProject(env.fs, ProjectTop(main), ProjectInclude(env.settings), env.cancel, polls);
    var before := Entries(store, main);
    assert (before + w.written)[|before|..] == w.written;
  }

  lemma {:induction false} GatesKept(env: Env, main: string, updates: string, key: string, gates: seq<Gate>, store: Store, polls: nat, st: Stages)
    ensures Kept(env, main, updates, store, Gates(env, main, updates, key, gates, store, polls, st).store,
                 Gates(env, main, updates, key, gates, store, polls, st).outcome == Finished)
    decreases |gates|
  {
    if |gates| == 0 {
      ProjectFilesKept(env, main, updates, store, polls);
    } else {
      var x := StageOf(st, gates[0])(key, polls);
      var s := AddAll(store, updates, x.added);
      AddAllKept(env, main, updates, store, x.added);
      if Truthy(x.value) && !Cancelled(env.cancel, x.polls) {
        var q := Gates(env, main, updates, key, gates[1..], s, x.polls + 1, st);
        GatesKept(env, main, updates, key, gates[1..], s, x.polls + 1, st);
        KeptChain(env, main, updates, store, s, q.store, q.outcome == Finished);
      }
    }
  }

  /** A run from some stage on only adds archive entries. */
  lemma GatesGrows(env: Env, main: string, updates: string, key: string, gates: seq<Gate>, store: Store, polls: nat, st: Stages)
    ensures Grows(store, Gates(env, main, updates, key, gates, store, polls, st).store)
  {
    GatesKept(env, main, updates, key, gates, store, polls, st);
  }

  /**
   The archives after a run (lines 13-20 and every stage): no other file changes; without
   separation the shared archive keeps its `Upgrades/` entry first; with separation the
   updates archive never holds a name twice, and the main archive holds nothing unless the
   run finished, and then exactly what the project walk wrote.
   */
  ghost predicate ArchivesAfter(env: Env, file: string, store: Store, r: Run) {
    var main := MainArchive(file);
    var updates := UpdatesArchive(file, env.settings.separate);
    (forall z :: z != main && z != updates ==> Entries(r.store, z) == Entries(store, z)) &&
    (!env.settings.separate ==> [UpgradesFolder] <= Entries(r.store, main)) &&
    (env.settings.separate ==>
      Distinct(Entries(r.store, updates)) &&
      (r.outcome != Finished ==> Entries(r.store, main) == []) &&
      (r.outcome == Finished ==> WalkOutput(env, main, Entries(r.store, main))))
  }

  /** The archives right after they are created: empty with separation, else just `Upgrades/`; no other file changes. */
  lemma OpenedEntries(store: Store, file: string, separate: bool)
    ensures separate ==> Entries(Opened(store, file, separate), MainArchive(file)) == [] &&
                         Entries(Opened(store, file, separate), UpdatesArchive(file, true)) == []
    ensures !separate ==> Entries(Opened(store, file, separate), MainArchive(file)) == [UpgradesFolder]
    ensures forall z :: z != MainArchive(file) && z != UpdatesArchive(file, separate) ==>
              Entries(Opened(store, file, separate), z) == Entries(store, z)
  {
  }

  lemma AfterTechKept(env: Env, main: string, updates: string, t: Step, store: Store, st: Stages)
    requires Keyed(t)
    ensures Kept(env, main, updates, store, AfterTech(env, main, updates, t, store, st).store,
                 AfterTech(env, main, updates, t, store, st).outcome == Finished)
  {
    var s := AddAll(store, updates, t.added);
    AddAllKept(env, main, updates, store, t.added);
    if t.value.Pair? && t.value.ok && !Cancelled(env.cancel, t.polls) {
      var q := Gates(env, main, updates, t.value.key.value, Enabled(env.settings), s, t.polls + 1, st);
      assert AfterTech(env, main, updates, t, store, st) == Run(q.store, [10] + q.progress, q.outcome);
      GatesKept(env, main, updates, t.value.key.value, Enabled(env.settings), s, t.polls + 1, st);
      KeptChain(env, main, updates, store, s, q.store, q.outcome == Finished);
    } else {
      assert AfterTech(env, main, updates, t, store, st).store == s;
      assert AfterTech(env, main, updates, t, store, st).outcome != Finished;
    }
  }

  lemma ProcessFilesArchives(env: Env, file: string, store: Store)
    ensures ArchivesAfter(env, file, store, ProcessFiles(env, file, store))
  {
    var sep := env.settings.separate;
    if sep {
      SeparateArchivesDiffer(file);
    }
    var main := MainArchive(file);
    var updates := UpdatesArchive(file, sep);
    var start := Opened(store, file, sep);
    var st := StagesOf(env, file);
    OpenedEntries(store, file, sep);
    AfterTechKept(env, main, updates, TechStep(env, file, st), start, st);
  }

  /** One run is cut short relative to another: its progress and every archive are prefixes of the other's. */
  ghost predicate Below(r: Run, n: Run) {
    r.progress <= n.progress && Grows(r.store, n.store)
  }

  lemma GrowsTrans(a: Store, b: Store, c: Store)
    requires Grows(a, b) && Grows(b, c)
    ensures Grows(a, c)
  {
    forall z ensures Entries(a, z) <= Entries(c, z) {
      assert Entries(a, z) <= Entries(b, z) && Entries(b, z) <= Entries(c, z);
    }
  }

  /** Writing a prefix of a batch leaves every archive a prefix of writing the whole batch. */
  lemma AddAllPrefix(store: Store, zip: string, a: seq<Item>, b: seq<Item>)
    requires a <= b
    ensures Grows(AddAll(store, zip, a), AddAll(store, zip, b))
  {
    assert b == a + b[|a|..];
    AddAllAppend(store, zip, a, b[|a|..]);
    AddAllFrame(AddAll(store, zip, a), zip, b[|a|..]);
  }

  /** What the cancel-prefix lemma of every stage gives: the cancelled stage wrote a prefix, and is the same step unless it returned False. */
  predicate StepBelow(c: Step, n: Step) {
    c.added <= n.added && (c.value != Flag(false) ==> c == n)
  }

  /** Every stage of `st` relates to the same stage of `sn` as a cancelled stage to one left alone. */
  ghost predicate StagesBelow(st: Stages, sn: Stages) {
    (forall c: Option<string>, p: nat :: StepBelow(st.tech(c, p), sn.tech(c, p))) &&
    (forall k: string, p: nat :: StepBelow(st.cpu(k, p), sn.cpu(k, p))) &&
    (forall k: string, p: nat :: StepBelow(st.hw(k, p), sn.hw(k, p)))
  }

  lemma ProjectFilesCancelPrefix(env: Env, main: string, store: Store, polls: nat)
    ensures Below(ProjectFiles(env, main, store, polls), ProjectFiles(env.(cancel := Never), main, store, polls))
  {
  }

  lemma {:induction false} GatesCancelPrefix(env: Env, main: string, updates: string, key: string, gates: seq<Gate>, store: Store, polls: nat, st: Stages, sn: Stages)
    requires StagesBelow(st, sn)
    ensures Below(Gates(env, main, updates, key, gates, store, polls, st),
                  Gates(env.(cancel := Never), main, updates, key, gates, store, polls, sn))
    decreases |gates|
  {
    if |gates| == 0 {
      ProjectFilesCancelPrefix(env, main, store, polls);
    } else {
      var x := StageOf(st, gates[0])(key, polls);
      var xn := StageOf(sn, gates[0])(key, polls);
      assert StepBelow(x, xn);
      if !Truthy(xn.value) || !Truthy(x.value) || Cancelled(env.cancel, x.polls) {
        GatesStopsEarly(env, main, updates, key, gates, store, polls, st, sn);
      } else {
        GatesCancelPrefix(env, main, updates, key, gates[1..], AddAll(store, updates, x.added), x.polls + 1, st, sn);
        GatesGoesOn(env, main, updates, key, gates, store, polls, st, sn, x);
      }
    }
  }

  /** Both runs pass the stage `gates[0]` with the same step: the rest of the gates decide. */
  lemma GatesGoesOn(env: Env, main: string, updates: string, key: string, gates: seq<Gate>, store: Store, polls: nat, st: Stages, sn: Stages, x: Step)
    requires |gates| > 0
    requires x == StageOf(st, gates[0])(key, polls) && x == StageOf(sn, gates[0])(key, polls)
    requires Truthy(x.value) && !Cancelled(env.cancel, x.polls)
    requires Below(Gates(env, main, updates, key, gates[1..], AddAll(store, updates, x.added), x.polls + 1, st),
                   Gates(env.(cancel := Never), main, updates, key, gates[1..], AddAll(store, updates, x.added), x.polls + 1, sn))
    ensures Below(Gates(env, main, updates, key, gates, store, polls, st),
                  Gates(env.(cancel := Never), main, updates, key, gates, store, polls, sn))
  {
    var s := AddAll(store, updates, x.added);
    var q := Gates(env, main, updates, key, gates[1..], s, x.polls + 1, st);
    var qn := Gates(env.(cancel := Never), main, updates, key, gates[1..], s, x.polls + 1, sn);
    assert Gates(env, main, updates, key, gates, store, polls, st) == Run(q.store, [Mark(gates[0])] + q.progress, q.outcome);
    assert Gates(env.(cancel := Never), main, updates, key, gates, store, polls, sn) == Run(qn.store, [Mark(gates[0])] + qn.progress, qn.outcome);
    BelowCons(Mark(gates[0]), q, qn);
  }

  /** Putting the same progress value in front of two runs keeps one below the other. */
  lemma BelowCons(m: int, q: Run, qn: Run)
    requires Below(q, qn)
    ensures Below(Run(q.store, [m] + q.progress, q.outcome), Run(qn.store, [m] + qn.progress, qn.outcome))
  {
    PrefixCons(m, q.progress, qn.progress);
  }

  /** The cancelled run stops at the stage `gates[0]`; the other may go on. */
  lemma GatesStopsEarly(env: Env, main: string, updates: string, key: string, gates: seq<Gate>, store: Store, polls: nat, st: Stages, sn: Stages)
    requires |gates| > 0
    requires StepBelow(StageOf(st, gates[0])(key, polls), StageOf(sn, gates[0])(key, polls))
    requires var x := StageOf(st, gates[0])(key, polls);
             !Truthy(StageOf(sn, gates[0])(key, polls).value) || !Truthy(x.value) || Cancelled(env.cancel, x.polls)
    ensures Below(Gates(env, main, updates, key, gates, store, polls, st),
                  Gates(env.(cancel := Never), main, updates, key, gates, store, polls, sn))
  {
    var never := env.(cancel := Never);
    var x := StageOf(st, gates[0])(key, polls);
    var xn := StageOf(sn, gates[0])(key, polls);
    var s := AddAll(store, updates, x.added);
    var sN := AddAll(store, updates, xn.added);
    AddAllPrefix(store, updates, x.added, xn.added);
    if Truthy(xn.value) {
      var qn := Gates(never, main, updates, key, gates[1..], sN, xn.polls + 1, sn);
      GatesGrows(never, main, updates, key, gates[1..], sN, xn.polls + 1, sn);
      GrowsTrans(s, sN, qn.store);
    }
  }

  lemma AfterTechCancelPrefix(env: Env, main: string, updates: string, t: Step, tn: Step, store: Store, st: Stages, sn: Stages)
    requires StagesBelow(st, sn) && StepBelow(t, tn) && Keyed(t) && Keyed(tn)
    ensures Below(AfterTech(env, main, updates, t, store, st), AfterTech(env.(cancel := Never), main, updates, tn, store, sn))
  {
    if tn.value.Pair? && tn.value.ok {
      if t.value.Pair? && t.value.ok && !Cancelled(env.cancel, t.polls) {
        AfterTechGoesOn(env, main, updates, t, store, st, sn);
      } else {
        AfterTechStopsEarly(env, main, updates, t, tn, store, st, sn);
      }
    } else {
      AddAllPrefix(store, updates, t.added, tn.added);
    }
  }

  /** Both runs pass the technology stage with the same result: the gates decide. */
  lemma AfterTechGoesOn(env: Env, main: string, updates: string, t: Step, store: Store, st: Stages, sn: Stages)
    requires StagesBelow(st, sn) && t.value.Pair? && t.value.ok && t.value.key.Some? && !Cancelled(env.cancel, t.polls)
    ensures Below(AfterTech(env, main, updates, t, store, st), AfterTech(env.(cancel := Never), main, updates, t, store, sn))
  {
    var s := AddAll(store, updates, t.added);
    var key := t.value.key.value;
    var q := Gates(env, main, updates, key, Enabled(env.settings), s, t.polls + 1, st);
    var qn := Gates(env.(cancel := Never), main, updates, key, Enabled(env.settings), s, t.polls + 1, sn);
    GatesCancelPrefix(env, main, updates, key, Enabled(env.settings), s, t.polls + 1, st, sn);
    PrefixCons(10, q.progress, qn.progress);
  }

  /** The cancelled run stops right after the technology stage; the other may go on. */
  lemma AfterTechStopsEarly(env: Env, main: string, updates: string, t: Step, tn: Step, store: Store, st: Stages, sn: Stages)
    requires t.added <= tn.added && tn.value.Pair? && tn.value.ok && tn.value.key.Some?
    requires !(t.value.Pair? && t.value.ok) || Cancelled(env.cancel, t.polls)
    requires Keyed(t)
    ensures Below(AfterTech(env, main, updates, t, store, st), AfterTech(env.(cancel := Never), main, updates, tn, store, sn))
  {
    var never := env.(cancel := Never);
    var s := AddAll(store, updates, t.added);
    var sN := AddAll(store, updates, tn.added);
    AddAllPrefix(store, updates, t.added, tn.added);
    AfterTechGrows(never, main, updates, tn, store, sn);
    assert AfterTech(env, main, updates, t, store, st).store == s;
    assert AfterTech(env, main, updates, t, store, st).progress == [10];
    GrowsTrans(s, sN, AfterTech(never, main, updates, tn, store, sn).store);
  }

  /** After the technology stage the run starts its progress with 10 and only adds to the store holding that stage's files. */
  lemma AfterTechGrows(env: Env, main: string, updates: string, t: Step, store: Store, st: Stages)
    requires Keyed(t)
    ensures |AfterTech(env, main, updates, t, store, st).progress| >= 1 && AfterTech(env, main, updates, t, store, st).progress[0] == 10
    ensures Grows(AddAll(store, updates, t.added), AfterTech(env, main, updates, t, store, st).store)
  {
    var s := AddAll(store, updates, t.added);
    if t.value.Pair? && t.value.ok && !Cancelled(env.cancel, t.polls) {
      var q := Gates(env, main, updates, t.value.key.value, Enabled(env.settings), s, t.polls + 1, st);
      assert AfterTech(env, main, updates, t, store, st) == Run(q.store, [10] + q.progress, q.outcome);
      GatesGrows(env, main, updates, t.value.key.value, Enabled(env.settings), s, t.polls + 1, st);
    }
  }


  lemma TechBelow(env: Env, file: string)
    ensures forall c: Option<string>, p: nat :: StepBelow(StagesOf(env, file).tech(c, p), StagesOf(env.(cancel := Never), file).tech(c, p))
  {
    forall c: Option<string>, p: nat ensures StepBelow(StagesOf(env, file).tech(c, p), StagesOf(env.(cancel := Never), file).tech(c, p)) {
      TechCancelPrefix(env, c, p);
    }
  }

  lemma CpuBelow(env: Env, file: string)
    ensures forall k: string, p: nat :: StepBelow(StagesOf(env, file).cpu(k, p), StagesOf(env.(cancel := Never), file).cpu(k, p))
  {
    forall k: string, p: nat ensures StepBelow(StagesOf(env, file).cpu(k, p), StagesOf(env.(cancel := Never), file).cpu(k, p)) {
      CpuCancelPrefix(env, file, k, p);
    }
  }

  lemma HwBelow(env: Env, file: string)
    ensures forall k: string, p: nat :: StepBelow(StagesOf(env, file).hw(k, p), StagesOf(env.(cancel := Never), file).hw(k, p))
  {
    forall k: string, p: nat ensures StepBelow(StagesOf(env, file).hw(k, p), StagesOf(env.(cancel := Never), file).hw(k, p)) {
      HwCancelPrefix(env, file, k, p);
    }
  }

  /**
   Raising the cancel flag only cuts a run short: the progress values and every archive's
   entries are prefixes of those of the same run left alone.
   */
  lemma ProcessFilesCancelPrefix(env: Env, file: string, store: Store)
    ensures Below(ProcessFiles(env, file, store), ProcessFiles(env.(cancel := Never), file, store))
  {
    var never := env.(cancel := Never);
    var sep := env.settings.separate;
    var st := StagesOf(env, file);
    var sn := StagesOf(never, file);
    TechBelow(env, file);
    CpuBelow(env, file);
    HwBelow(env, file);
    assert StepBelow(TechStep(env, file, st), TechStep(never, file, sn));
    AfterTechCancelPrefix(env, MainArchive(file), UpdatesArchive(file, sep), TechStep(env, file, st), TechStep(never, file, sn), Opened(store, file, sep), st, sn);
  }
}
