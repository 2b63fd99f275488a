/** The fuzzy-finder front end of fzf.go: run fzf, classify how it ended, and parse the
    lines it printed into one result per selected line. Launching the process and reading
    its output are inputs (a Launch); the parsing is modelled step by step. */
module Fzf {
  import opened Base
  import opened Text

  /** How `cmd.Wait` returned. */
  datatype Wait = Succeeded | ExitStatus(code: int) | WaitFailed

  /** What starting fzf and reading its standard output gave. */
  datatype Launch =
    | LookPathFailed
    | PipeFailed
    | StartFailed
    | ReadFailed
    | Finished(output: string, wait: Wait)

  /** The errors FzfSelect returns, one per `errors.New` / `fmt.Errorf` site. */
  datatype FzfError =
    | NotInstalled
    | PipeError
    | StartError
    | ReadError
    | UserCancelled
    | CommandFailed(wait: Wait)
    | NoSelection
    | NoValidSelection

  /** fzf exits with 1 on ESC and 130 on Ctrl-C. */
  predicate CancelCode(code: int)
  {
    code == 1 || code == 130
  }

  /** Every string trimmed. */
  function TrimAll(fields: seq<string>): (r: seq<string>)
    ensures |r| == |fields| && forall i :: 0 <= i < |r| ==> r[i] == TrimSpace(fields[i])
  {
    if |fields| == 0 then []
    else
      var n := |fields| - 1;
      assert forall i :: 0 <= i < n ==> fields[..n][i] == fields[i];
      TrimAll(fields[..n]) + [TrimSpace(fields[n])]
  }

  /** The fields kept for `numFields >= 2`: the first `numFields` (or all, when fewer),
      each trimmed. */
  function KeptFields(line: string, numFields: int, delimiter: string): seq<string>
    requires numFields >= 2
  {
    var fields := Split(line, delimiter);
    var count := if |fields| < numFields then |fields| else numFields;
    TrimAll(fields[..count])
  }

  /** What one output line contributes to the results. */
  function LineResult(line: string, numFields: int, delimiter: string): Option<string>
  {
    if numFields <= 0 then Some(TrimSpace(line))
    else if numFields == 1 then
      var fields := Split(line, delimiter);
      if |fields| > 0 then Some(TrimSpace(fields[0])) else None
    else Some(Join(KeptFields(line, numFields, delimiter), delimiter))
  }

  /** The results of the parsing loop over `lines`, in line order. */
  function ParseLines(lines: seq<string>, numFields: int, delimiter: string): seq<string>
  {
    if |lines| == 0 then []
    else
      var n := |lines| - 1;
      ParseLines(lines[..n], numFields, delimiter) +
        (match LineResult(lines[n], numFields, delimiter) case Some(r) => [r] case None => [])
  }

  /** The lines fzf printed: the trimmed output split at newlines. */
  function OutputLines(output: string): seq<string>
  {
    Split(TrimSpace(output), "\n")
  }

  /** The whole of FzfSelect in fzf.go, from the launch to the results. */
  function Select(launch: Launch, numFields: int, delimiter: string): Result<seq<string>, FzfError>
  {
    match launch
    case LookPathFailed => Err(NotInstalled)
    case PipeFailed => Err(PipeError)
    case StartFailed => Err(StartError)
    case ReadFailed => Err(ReadError)
    case Finished(output, wait) =>
      if wait.ExitStatus? && CancelCode(wait.code) then Err(UserCancelled)
      else if !wait.Succeeded? then Err(CommandFailed(wait))
      else if |TrimSpace(output)| == 0 then Err(NoSelection)
      else
        var results := ParseLines(OutputLines(output), numFields, delimiter);
        if |results| == 0 then Err(NoValidSelection) else Ok(results)
  }

  /** The in-place trimming loop over the first `count` fields of the split slice. */
  method TrimPrefix(fields: array<string>, count: int)
    requires 0 <= count <= fields.Length
    modifies fields
    ensures forall k :: 0 <= k < count ==> fields[k] == TrimSpace(old(fields[k]))
    ensures forall k :: count <= k < fields.Length ==> fields[k] == old(fields[k])
  {
    for i := 0 to count
      invariant forall k :: 0 <= k < i ==> fields[k] == TrimSpace(old(fields[k]))
      invariant forall k :: i <= k < fields.Length ==> fields[k] == old(fields[k])
    {
      fields[i] := TrimSpace(fields[i]);
    }
  }

  /** One pass of the per-line loop: what the line adds to the results. */
  method ParseLine(line: string, numFields: int, delimiter: string) returns (r: Option<string>)
    ensures r == LineResult(line, numFields, delimiter)
  {
    var fields := Split(line, delimiter);
    if numFields <= 0 {
      return Some(TrimSpace(line));
    } else if numFields == 1 {
      if |fields| > 0 {
        return Some(TrimSpace(fields[0]));
      }
      return None;
    }
    var count := numFields;
    if |fields| < numFields {
      count := |fields|;
    }
    var slice := new string[|fields|](k requires 0 <= k < |fields| => fields[k]);
    TrimPrefix(slice, count);
    assert slice[..count] == KeptFields(line, numFields, delimiter);
    return Some(Join(slice[..count], delimiter));
  }

  /** The per-line loop of FzfSelect (the same loop appears in src/fzf.go). */
  method ParseOutputLines(lines: seq<string>, numFields: int, delimiter: string) returns (results: seq<string>)
    ensures results == ParseLines(lines, numFields, delimiter)
  {
    results := [];
    for i := 0 to |lines|
      invariant results == ParseLines(lines[..i], numFields, delimiter)
    {
      assert lines[..i + 1][..i] == lines[..i];
      var r := ParseLine(lines[i], numFields, delimiter);
      if r.Some? {
        results := results + [r.value];
      }
    }
    assert lines[..|lines|] == lines;
  }

  /** FzfSelect of fzf.go. */
  method FzfSelect(launch: Launch, numFields: int, delimiter: string) returns (r: Result<seq<string>, FzfError>)
    ensures r == Select(launch, numFields, delimiter)
  {
    match launch {
      case LookPathFailed => return Err(NotInstalled);
      case PipeFailed => return Err(PipeError);
      case StartFailed => return Err(StartError);
      case ReadFailed => return Err(ReadError);
      case Finished(output, wait) =>
        if !wait.Succeeded? {
          if wait.ExitStatus? && (wait.code == 1 || wait.code == 130) {
            return Err(UserCancelled);
          }
          return Err(CommandFailed(wait));
        }
        var outputStr := TrimSpace(output);
        if |outputStr| == 0 {
          return Err(NoSelection);
        }
        var lines := Split(outputStr, "\n");
        var results := ParseOutputLines(lines, numFields, delimiter);
        if |results| == 0 {
          return Err(NoValidSelection);
        }
        return Ok(results);
    }
  }

  // ---------------------------------------------------------------- properties

  /** The exit classification: a cancel code gives "user cancelled", any other failed
      wait "fzf command failed", and only a successful wait reaches the parser. */
  lemma {:induction false} ExitClassification(output: string, wait: Wait, numFields: int, delimiter: string)
    ensures Select(Finished(output, wait), numFields, delimiter) == Err(UserCancelled) <==>
      wait.ExitStatus? && CancelCode(wait.code)
    ensures !wait.Succeeded? && !(wait.ExitStatus? && CancelCode(wait.code)) ==>
      Select(Finished(output, wait), numFields, delimiter) == Err(CommandFailed(wait))
    ensures Select(Finished(output, wait), numFields, delimiter).Ok? ==> wait.Succeeded?
  {
  }

  /** "No selection made" is reported exactly for a successful run whose output is only
      white space. */
  lemma {:induction false} NoSelectionIff(output: string, numFields: int, delimiter: string)
    ensures Select(Finished(output, Succeeded), numFields, delimiter) == Err(NoSelection) <==>
      AllSpace(output)
  {
    TrimSpaceEmptyIff(output);
  }

  /** The first line of a trimmed, non-empty output is not empty: an empty first line
      would mean the output starts with a newline. */
  lemma {:induction false} FirstLineNotEmpty(s: string)
    requires |s| > 0 && IsTrimmed(s)
    ensures |Split(s, "\n")[0]| > 0
  {
    assert Split(s, "\n")[0] == FirstField(s, "\n");
  }

  /** A line that contributes a result keeps the results non-empty whatever follows. */
  lemma {:induction false} ParseLinesKeepsFirst(lines: seq<string>, numFields: int, delimiter: string)
    requires |lines| > 0 && LineResult(lines[0], numFields, delimiter).Some?
    ensures |ParseLines(lines, numFields, delimiter)| > 0
  {
    var n := |lines| - 1;
    if n > 0 {
      assert lines[..n][0] == lines[0];
      ParseLinesKeepsFirst(lines[..n], numFields, delimiter);
    }
  }

  /** The "no valid selection" branch cannot be reached: once the output has a
      non-blank character, the first line yields a result for every numFields and every
      delimiter. */
  lemma {:induction false} NeverNoValidSelection(launch: Launch, numFields: int, delimiter: string)
    ensures Select(launch, numFields, delimiter) != Err(NoValidSelection)
  {
    if launch.Finished? && launch.wait.Succeeded? && |TrimSpace(launch.output)| > 0 {
      var s := TrimSpace(launch.output);
      var lines := Split(s, "\n");
      FirstLineNotEmpty(s);
      assert |Split(lines[0], delimiter)| > 0;
      ParseLinesKeepsFirst(lines, numFields, delimiter);
    }
  }

  /** With a non-empty delimiter every line yields exactly one result, in line order. */
  lemma {:induction false} OnePerLine(lines: seq<string>, numFields: int, delimiter: string)
    requires |delimiter| > 0
    ensures var r := ParseLines(lines, numFields, delimiter);
      |r| == |lines| && forall i :: 0 <= i < |lines| ==> Some(r[i]) == LineResult(lines[i], numFields, delimiter)
  {
    if |lines| > 0 {
      var n := |lines| - 1;
      OnePerLine(lines[..n], numFields, delimiter);
      var prev := ParseLines(lines[..n], numFields, delimiter);
      var last := LineResult(lines[n], numFields, delimiter);
      assert last.Some? by {
        assert |Split(lines[n], delimiter)| >= 1;
      }
      assert ParseLines(lines, numFields, delimiter) == prev + [last.value];
      forall i | 0 <= i < n ensures lines[..n][i] == lines[i] { }
    }
  }

  /** The three numFields cases: the whole line, the first field, or the first fields
      rejoined; every result of the first two cases and every kept field of the third is
      free of surrounding white space. */
  lemma {:induction false} LineCases(line: string, numFields: int, delimiter: string)
    ensures numFields <= 0 ==> LineResult(line, numFields, delimiter) == Some(TrimSpace(line))
    ensures numFields == 1 && (|delimiter| > 0 || |line| > 0) ==>
      LineResult(line, numFields, delimiter) == Some(TrimSpace(FirstField(line, delimiter)))
    ensures numFields == 1 && |delimiter| == 0 && |line| == 0 ==> LineResult(line, numFields, delimiter) == None
    ensures numFields <= 1 && LineResult(line, numFields, delimiter).Some? ==>
      IsTrimmed(LineResult(line, numFields, delimiter).value)
    ensures numFields >= 2 ==>
      var fields := Split(line, delimiter);
      var kept := KeptFields(line, numFields, delimiter);
      LineResult(line, numFields, delimiter) == Some(Join(kept, delimiter)) &&
      |kept| == (if |fields| < numFields then |fields| else numFields) &&
      (forall i :: 0 <= i < |kept| ==> kept[i] == TrimSpace(fields[i]) && IsTrimmed(kept[i]))
  {
  }

  /** Trimming the kept fields again changes nothing. */
  lemma {:induction false} KeptFieldsStable(line: string, numFields: int, delimiter: string)
    requires numFields >= 2
    ensures TrimAll(KeptFields(line, numFields, delimiter)) == KeptFields(line, numFields, delimiter)
  {
    var kept := KeptFields(line, numFields, delimiter);
    forall i | 0 <= i < |kept| ensures TrimSpace(kept[i]) == kept[i] {
      TrimSpaceFixesTrimmed(kept[i]);
    }
  }
}
