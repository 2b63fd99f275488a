/** FzfSelect of the asf package (src/fzf.go): the same run-and-parse as fzf.go, with the
    sentinel errors ErrFzfNotInstalled, ErrUserCancelled and ErrNoSelection. */
module AsfFzf {
  import opened Base
  import opened Text
  import opened Fzf

  /** The whole of FzfSelect in src/fzf.go: an empty result list is reported as
      ErrNoSelection, like blank output. */
  function SelectSentinel(launch: Launch, numFields: int, delimiter: string): Result<seq<string>, FzfError>
  {
    match launch
    case LookPathFailed => Err(NotInstalled)
    case PipeFailed => Err(PipeError)
    case StartFailed => Err(StartError)
    case ReadFailed => Err(ReadError)
    case Finished(output, wait) =>
      if wait.ExitStatus? && CancelCode(wait.code) then Err(UserCancelled)
      else if !wait.Succeeded? then Err(CommandFailed(wait))
      else if |TrimSpace(output)| == 0 then Err(NoSelection)
      else
        var results := ParseLines(OutputLines(output), numFields, delimiter);
        if |results| == 0 then Err(NoSelection) else Ok(results)
  }

  /** FzfSelect of src/fzf.go. */
  method FzfSelect(launch: Launch, numFields: int, delimiter: string) returns (r: Result<seq<string>, FzfError>)
    ensures r == SelectSentinel(launch, numFields, delimiter)
  {
    match launch {
      case LookPathFailed => return Err(NotInstalled);
      case PipeFailed => return Err(PipeError);
      case StartFailed => return Err(StartError);
      case ReadFailed => return Err(ReadError);
      case Finished(output, wait) =>
        if !wait.Succeeded? {
          if wait.ExitStatus? {
            var code := wait.code;
            if code == 1 || code == 130 {
              return Err(UserCancelled);
            }
          }
          return Err(CommandFailed(wait));
        }
        var outputStr := TrimSpace(output);
        if |outputStr| == 0 {
          return Err(NoSelection);
        }
        var lines := Split(outputStr, "\n");
        var results := ParseOutputLines(lines, numFields, delimiter);
        if |results| == 0 {
          return Err(NoSelection);
        }
        return Ok(results);
    }
  }

  /** The two snapshots agree on every launch: the only place they differ is the
      empty-result branch, which neither can reach. */
  lemma {:induction false} SameAsFzfGo(launch: Launch, numFields: int, delimiter: string)
    ensures SelectSentinel(launch, numFields, delimiter) == Select(launch, numFields, delimiter)
  {
    NeverNoValidSelection(launch, numFields, delimiter);
  }

  /** A successful selection is never empty; ErrNoSelection comes exactly from a
      successful run that printed only white space. */
  lemma {:induction false} SentinelOutcomes(launch: Launch, numFields: int, delimiter: string)
    ensures var r := SelectSentinel(launch, numFields, delimiter);
      (r.Ok? ==> |r.value| > 0) &&
      (r == Err(NoSelection) <==> launch.Finished? && launch.wait.Succeeded? && AllSpace(launch.output))
  {
    SameAsFzfGo(launch, numFields, delimiter);
    if launch.Finished? {
      TrimSpaceEmptyIff(launch.output);
    }
  }
}
