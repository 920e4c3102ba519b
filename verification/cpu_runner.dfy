/**
 * The argument handling of the CPU runner (deploy/cpu_runner/main.cpp),
 * everything before it opens the model file: the argument-count check,
 * the `--model` / `--prompt` scan, and the missing-model check.
 *
 * `argv` includes the program name at index 0, so `argc` is `|argv|`.
 */
module CpuRunner {

  datatype Outcome =
    | Fail(message: string, status: int)
    | Parsed(modelPath: string, prompt: string)

  const UsageMessage: string := "usage: triune-cpu --model <path> --prompt <text>"
  const MissingModelMessage: string := "missing --model"

  /** The scan from index `i` on, given what was read so far: a flag takes the next argument only when there is one. */
  function ScanFrom(argv: seq<string>, i: nat, model: string, prompt: string): (r: (string, string))
    decreases |argv| - i
  {
    if i >= |argv| then (model, prompt)
    else if argv[i] == "--model" && i + 1 < |argv| then ScanFrom(argv, i + 2, argv[i + 1], prompt)
    else if argv[i] == "--prompt" && i + 1 < |argv| then ScanFrom(argv, i + 2, model, argv[i + 1])
    else ScanFrom(argv, i + 1, model, prompt)
  }

  /** The whole decision as a function. */
  function Decide(argv: seq<string>): Outcome {
    if |argv| < 3 then Fail(UsageMessage, 1)
    else
      var (model, prompt) := ScanFrom(argv, 1, "", "");
      if model == "" then Fail(MissingModelMessage, 1) else Parsed(model, prompt)
  }

  /** `main` up to the file open, as the loop the program runs. */
  method ParseArgs(argv: seq<string>) returns (outcome: Outcome)
    ensures outcome == Decide(argv)
    ensures outcome.Fail? ==> outcome.status == 1
    ensures outcome.Parsed? ==> outcome.modelPath != ""
  {
    if |argv| < 3 {
      return Fail(UsageMessage, 1);
    }
    var modelPath := "";
    var prompt := "";
    var i := 1;
    while i < |argv|
      invariant 1 <= i <= |argv| + 1
      invariant ScanFrom(argv, i, modelPath, prompt) == ScanFrom(argv, 1, "", "")
      decreases |argv| - i
    {
      var arg := argv[i];
      if arg == "--model" && i + 1 < |argv| {
        i := i + 1;
        modelPath := argv[i];
      } else if arg == "--prompt" && i + 1 < |argv| {
        i := i + 1;
        prompt := argv[i];
      }
      i := i + 1;
    }
    if modelPath == "" {
      return Fail(MissingModelMessage, 1);
    }
    return Parsed(modelPath, prompt);
  }

  predicate IsFlag(arg: string) {
    arg == "--model" || arg == "--prompt"
  }

  /** One assignment the scan performs: the flag at index `at` takes the argument after it. */
  datatype Action = Action(flag: string, value: string, at: nat)

  /** The assignments the scan performs from index `i` on, in order. */
  function Actions(argv: seq<string>, i: nat): (acts: seq<Action>)
    ensures forall k :: 0 <= k < |acts| ==>
      IsFlag(acts[k].flag) && i <= acts[k].at && acts[k].at + 1 < |argv|
      && argv[acts[k].at] == acts[k].flag && acts[k].value == argv[acts[k].at + 1]
    ensures forall j, k :: 0 <= j < k < |acts| ==> acts[j].at + 2 <= acts[k].at
    decreases |argv| - i
  {
    if i >= |argv| then []
    else if IsFlag(argv[i]) && i + 1 < |argv| then
      var rest := Actions(argv, i + 2);
      var all := [Action(argv[i], argv[i + 1], i)] + rest;
      ActionsCons(argv, i, rest, all);
      all
    else Actions(argv, i + 1)
  }

  /** An assignment at `i` put before the ones from `i + 2` keeps them in order and in place. */
  lemma ActionsCons(argv: seq<string>, i: nat, rest: seq<Action>, all: seq<Action>)
    requires i + 1 < |argv| && IsFlag(argv[i])
    requires all == [Action(argv[i], argv[i + 1], i)] + rest
    requires forall k :: 0 <= k < |rest| ==>
      IsFlag(rest[k].flag) && i + 2 <= rest[k].at && rest[k].at + 1 < |argv|
      && argv[rest[k].at] == rest[k].flag && rest[k].value == argv[rest[k].at + 1]
    requires forall j, k :: 0 <= j < k < |rest| ==> rest[j].at + 2 <= rest[k].at
    ensures forall k :: 0 <= k < |all| ==>
      IsFlag(all[k].flag) && i <= all[k].at && all[k].at + 1 < |argv|
      && argv[all[k].at] == all[k].flag && all[k].value == argv[all[k].at + 1]
    ensures forall j, k :: 0 <= j < k < |all| ==> all[j].at + 2 <= all[k].at
  {
    assert forall k :: 1 <= k < |all| ==> all[k] == rest[k - 1];
    forall j, k | 0 <= j < k < |all| ensures all[j].at + 2 <= all[k].at {
      assert all[k] == rest[k - 1];
      if j > 0 {
        assert all[j] == rest[j - 1];
      }
    }
  }

  /** The value of the last assignment to `flag`, or `d` when there is none. */
  function LastFor(acts: seq<Action>, flag: string, d: string): string {
    if acts == [] then d
    else if acts[|acts| - 1].flag == flag then acts[|acts| - 1].value
    else LastFor(acts[..|acts| - 1], flag, d)
  }

  /** An earlier assignment only changes the default the later ones fall back on. */
  lemma {:induction false} LastForCons(a: Action, acts: seq<Action>, flag: string, d: string)
    ensures LastFor([a] + acts, flag, d) == LastFor(acts, flag, if a.flag == flag then a.value else d)
    decreases |acts|
  {
    var all := [a] + acts;
    if acts != [] {
      assert all[|all| - 1] == acts[|acts| - 1];
      assert all[..|all| - 1] == [a] + acts[..|acts| - 1];
      LastForCons(a, acts[..|acts| - 1], flag, d);
    }
  }

  /** The scan's result: for each flag, the value of its last assignment, or what was there before. */
  lemma {:induction false} ScanIsLastAssignment(argv: seq<string>, i: nat, model: string, prompt: string)
    ensures ScanFrom(argv, i, model, prompt)
      == (LastFor(Actions(argv, i), "--model", model), LastFor(Actions(argv, i), "--prompt", prompt))
    decreases |argv| - i
  {
    if i < |argv| {
      if IsFlag(argv[i]) && i + 1 < |argv| {
        var a := Action(argv[i], argv[i + 1], i);
        ScanIsLastAssignment(argv, i + 2, if argv[i] == "--model" then argv[i + 1] else model, if argv[i] == "--prompt" then argv[i + 1] else prompt);
        LastForCons(a, Actions(argv, i + 2), "--model", model);
        LastForCons(a, Actions(argv, i + 2), "--prompt", prompt);
      } else {
        ScanIsLastAssignment(argv, i + 1, model, prompt);
      }
    }
  }

  /** A parsed run's model path is the value of the last `--model` that had a value, and its prompt that of the last such `--prompt` (empty without one). */
  lemma ParsedMeaning(argv: seq<string>)
    requires Decide(argv).Parsed?
    ensures var acts := Actions(argv, 1);
      Decide(argv).modelPath == LastFor(acts, "--model", "") && Decide(argv).prompt == LastFor(acts, "--prompt", "")
  {
    ScanIsLastAssignment(argv, 1, "", "");
  }

  /** With `--model` last and nothing valid before it, the path is missing: a trailing flag takes nothing. */
  lemma TrailingModelFlagIgnored(argv: seq<string>)
    requires |argv| >= 3 && argv[|argv| - 1] == "--model"
    requires forall k :: 1 <= k < |argv| - 1 ==> argv[k] != "--model"
    ensures Decide(argv) == Fail(MissingModelMessage, 1)
  {
    var acts := Actions(argv, 1);
    ScanIsLastAssignment(argv, 1, "", "");
    NoModelAssignment(acts);
  }

  lemma {:induction false} NoModelAssignment(acts: seq<Action>)
    requires forall k :: 0 <= k < |acts| ==> acts[k].flag != "--model"
    ensures LastFor(acts, "--model", "") == ""
    decreases |acts|
  {
    if acts != [] {
      NoModelAssignment(acts[..|acts| - 1]);
    }
  }

  /** The same flag given twice: the second value wins. */
  lemma RepeatedFlagLastWins(prog: string, first: string, second: string, prompt: string)
    ensures Decide([prog, "--model", first, "--prompt", prompt, "--model", second])
      == if second == "" then Fail(MissingModelMessage, 1) else Parsed(second, prompt)
  {
    var argv := [prog, "--model", first, "--prompt", prompt, "--model", second];
    assert ScanFrom(argv, 7, second, prompt) == (second, prompt);
    assert ScanFrom(argv, 5, first, prompt) == (second, prompt);
    assert ScanFrom(argv, 3, first, "") == (second, prompt);
    assert ScanFrom(argv, 1, "", "") == (second, prompt);
  }
}
