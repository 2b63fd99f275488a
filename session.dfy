/** The interactive session of asf.go: discover vaults, pick vaults, then loop picking
    secrets and an operation whose stage produces the next stream of secrets. The fuzzy
    finder's answers are inputs, one PickerRun per picker shown. A stage's output channel
    is the sequence it carries; the secret picker drains the channel it reads, so a round
    that starts no stage leaves an empty stream behind. */
module Session {
  import opened Base
  import opened Remote
  import opened Operations
  import opened Vaults
  import opened Secrets
  import opened Selector
  import Seqs

  /** The exit status of log.Fatalf. */
  const FatalExit: int := 1

  /** Why the process ended. */
  datatype Reason =
    | NoVaultSelected
    | NoSecretSelected
    | NoOperationSelected
    | UnexpectedOperation
    | PickerFailed
    | StageFailed(failure: Failure)

  /** Where the session stands: ended with a status, or showing the secret picker over
      `stream` with `stack` applied so far. */
  datatype Outcome = Exited(code: int, reason: Reason) | Waiting(stream: seq<Secret>, stack: seq<Operation>)

  /** The operator's answers in one round of the loop. */
  datatype Round = Round(secrets: PickerRun, operation: PickerRun)

  /** Remote calls made: NextPage calls and GetSecret calls in order. */
  datatype Calls = Calls(pages: nat, requests: seq<ValueRequest>)

  const NoCalls: Calls := Calls(0, [])

  function Then(a: Calls, b: Calls): Calls
  {
    Calls(a.pages + b.pages, a.requests + b.requests)
  }

  /** A stage's output either becomes the next stream or ends the process. */
  function Continue(r: Result<seq<Secret>, Failure>, stack: seq<Operation>): Outcome
  {
    match r
    case Err(f) => Exited(FatalExit, StageFailed(f))
    case Ok(stream) => Waiting(stream, stack)
  }

  /** The `switch` of the loop: start the stage of the picked operation. */
  function Dispatch(dir: Directory, op: Operation, selected: seq<Secret>, stack: seq<Operation>): (r: (Outcome, Calls))
    ensures r.0.Waiting? ==> r.0.stack == stack && op != DeleteSecret
    ensures op == EditMetaData || op == DeleteSecret ==> r.1 == NoCalls
    ensures op == ListVersions ==> r.1.requests == []
    ensures op == GetPasswords ==> r.1.pages == 0
  {
    match op
    case ListVersions =>
      (Continue(VersionsOf(dir, selected), stack), Calls(VersionPagesRead(dir, selected), []))
    case GetPasswords =>
      (Continue(PasswordsOf(dir, selected), stack), Calls(0, RequestsOf(dir, selected)))
    case ListVersionAndGetPasswords =>
      // The password stage handles every secret the version stage has handed over; the
      // version stage's failure, if any, ends the process after that.
      var sent := VersionsSent(dir, selected);
      var passwords := PasswordsOf(dir, sent);
      var calls := Calls(VersionPagesRead(dir, selected), RequestsOf(dir, sent));
      (match VersionsOf(dir, selected)
       case Err(f) => (Continue(if passwords.Err? then passwords else Err(f), stack), calls)
       case Ok(_) => (Continue(passwords, stack), calls))
    case EditMetaData => (Waiting([], stack), NoCalls)
    case DeleteSecret => (Exited(ExitError, UnexpectedOperation), NoCalls)
  }

  /** What the secret picker returns for a committed run: every secret of the stream whose
      line equals a committed line. */
  function Selected(stream: seq<Secret>, indices: seq<nat>): seq<Secret>
  {
    LineMatches(stream, Echo(SecretLines(stream), indices))
  }

  /** One pass of the loop body. */
  function Step(dir: Directory, stream: seq<Secret>, stack: seq<Operation>, round: Round): (Outcome, Calls)
  {
    if round.secrets.RunFailed? then (Exited(ExitError, PickerFailed), NoCalls)
    else
      var selected := Selected(stream, round.secrets.indices);
      if |selected| == 0 then (Exited(ExitError, NoSecretSelected), NoCalls)
      else if round.operation.RunFailed? then (Exited(ExitError, PickerFailed), NoCalls)
      else
        match PickedOperation(stack, round.operation.indices)
        case None => (Exited(ExitError, NoOperationSelected), NoCalls)
        case Some(op) => Dispatch(dir, op, selected, stack + [op])
  }

  /** The loop over the operator's rounds: where the session stands after them, and the
      calls made, until the process ends or the rounds run out. */
  function Rounds(dir: Directory, stream: seq<Secret>, stack: seq<Operation>, rounds: seq<Round>): (Outcome, Calls)
  {
    if |rounds| == 0 then (Waiting(stream, stack), NoCalls)
    else
      var n := |rounds| - 1;
      var (o, c) := Rounds(dir, stream, stack, rounds[..n]);
      if o.Exited? then (o, c)
      else
        var (o2, c2) := Step(dir, o.stream, o.stack, rounds[n]);
        (o2, Then(c, c2))
  }

  /** The last round: nothing after an exit, otherwise one more Step. */
  lemma {:induction false} RoundsLast(dir: Directory, stream: seq<Secret>, stack: seq<Operation>, rounds: seq<Round>)
    requires |rounds| > 0
    ensures var done := Rounds(dir, stream, stack, rounds[..|rounds| - 1]);
      Rounds(dir, stream, stack, rounds) ==
        if done.0.Exited? then done
        else var step := Step(dir, done.0.stream, done.0.stack, rounds[|rounds| - 1]); (step.0, Then(done.1, step.1))
  {
  }

  /** Once the process has ended, later rounds change nothing. */
  lemma {:induction false} RoundsStop(dir: Directory, stream: seq<Secret>, stack: seq<Operation>, rounds: seq<Round>, k: nat)
    requires k <= |rounds| && Rounds(dir, stream, stack, rounds[..k]).0.Exited?
    ensures Rounds(dir, stream, stack, rounds) == Rounds(dir, stream, stack, rounds[..k])
    decreases |rounds| - k
  {
    if k < |rounds| {
      var n := |rounds| - 1;
      assert rounds[..n][..k] == rounds[..k];
      RoundsStop(dir, stream, stack, rounds[..n], k);
      RoundsLast(dir, stream, stack, rounds);
    } else {
      assert rounds[..k] == rounds;
    }
  }

  /** Everything before the loop: list the vaults, pick some, list their secrets. */
  function Start(dir: Directory, subscriptionID: string, renderTags: map<string, string> -> string, vaultRun: PickerRun)
    : (r: (Outcome, Calls))
    ensures r.1.requests == []
  {
    var vaultPages := PagesRead(dir.vaultPages);
    match VaultsOf(dir.vaultPages, subscriptionID)
    case Err(f) => (Exited(FatalExit, StageFailed(f)), Calls(vaultPages, []))
    case Ok(vaults) =>
      if vaultRun.RunFailed? then (Exited(ExitError, PickerFailed), Calls(vaultPages, []))
      else
        var chosen := ChosenVaults(vaults, vaultRun.indices, renderTags);
        if |chosen| == 0 then (Exited(ExitError, NoVaultSelected), Calls(vaultPages, []))
        else
          var pages := vaultPages + SecretPagesRead(dir, chosen);
          (Continue(SecretsOf(dir, chosen), []), Calls(pages, []))
  }

  /** The whole session. */
  function Session(dir: Directory, subscriptionID: string, renderTags: map<string, string> -> string,
                   vaultRun: PickerRun, rounds: seq<Round>): (Outcome, Calls)
  {
    var (o, c) := Start(dir, subscriptionID, renderTags, vaultRun);
    if o.Exited? then (o, c)
    else
      var (o2, c2) := Rounds(dir, o.stream, o.stack, rounds);
      (o2, Then(c, c2))
  }

  /** Run: the session as the program executes it. */
  method Run(dir: Directory, subscriptionID: string, renderTags: map<string, string> -> string,
             vaultRun: PickerRun, rounds: seq<Round>) returns (outcome: Outcome)
    modifies dir`pagesFetched, dir`valueRequests
    ensures outcome == Session(dir, subscriptionID, renderTags, vaultRun, rounds).0
    ensures dir.pagesFetched == old(dir.pagesFetched) + Session(dir, subscriptionID, renderTags, vaultRun, rounds).1.pages
    ensures dir.valueRequests == old(dir.valueRequests) + Session(dir, subscriptionID, renderTags, vaultRun, rounds).1.requests
  {
    var stream, stack;
    outcome, stream, stack := Begin(dir, subscriptionID, renderTags, vaultRun);
    Seqs.AppendEmpty(old(dir.valueRequests));
    if outcome.Exited? {
      return;
    }
    outcome := RunRounds(dir, stream, stack, rounds);
    Seqs.AppendEmpty(Rounds(dir, stream, stack, rounds).1.requests);
  }

  /** The `for` loop of Run over the operator's rounds. */
  method RunRounds(dir: Directory, stream: seq<Secret>, stack: seq<Operation>, rounds: seq<Round>)
    returns (outcome: Outcome)
    modifies dir`pagesFetched, dir`valueRequests
    ensures outcome == Rounds(dir, stream, stack, rounds).0
    ensures dir.pagesFetched == old(dir.pagesFetched) + Rounds(dir, stream, stack, rounds).1.pages
    ensures dir.valueRequests == old(dir.valueRequests) + Rounds(dir, stream, stack, rounds).1.requests
  {
    var current, applied := stream, stack;
    ghost var calls := NoCalls;
    Seqs.AppendEmpty(old(dir.valueRequests));
    var i := 0;
    while i < |rounds|
      invariant 0 <= i <= |rounds|
      invariant Rounds(dir, stream, stack, rounds[..i]) == (Waiting(current, applied), calls)
      invariant dir.pagesFetched == old(dir.pagesFetched) + calls.pages
      invariant dir.valueRequests == old(dir.valueRequests) + calls.requests
    {
      var o;
      assert rounds[..i + 1][..i] == rounds[..i];
      o, calls := Advance(dir, stream, stack, rounds[..i + 1], current, applied, calls,
                          old(dir.pagesFetched), old(dir.valueRequests));
      if o.Exited? {
        RoundsStop(dir, stream, stack, rounds, i + 1);
        return o;
      }
      current, applied := o.stream, o.stack;
      i := i + 1;
    }
    assert rounds[..i] == rounds;
    outcome := Waiting(current, applied);
  }

  /** One pass of the `for` loop, accounted against the rounds played so far. */
  method Advance(dir: Directory, stream: seq<Secret>, stack: seq<Operation>, rounds: seq<Round>,
                 current: seq<Secret>, applied: seq<Operation>, ghost calls: Calls,
                 ghost pages: nat, ghost requests: seq<ValueRequest>)
    returns (outcome: Outcome, ghost after: Calls)
    requires |rounds| > 0
    requires Rounds(dir, stream, stack, rounds[..|rounds| - 1]) == (Waiting(current, applied), calls)
    requires dir.pagesFetched == pages + calls.pages && dir.valueRequests == requests + calls.requests
    modifies dir`pagesFetched, dir`valueRequests
    ensures Rounds(dir, stream, stack, rounds) == (outcome, after)
    ensures dir.pagesFetched == pages + after.pages && dir.valueRequests == requests + after.requests
  {
    var round := rounds[|rounds| - 1];
    outcome := Loop(dir, current, applied, round);
    ghost var step := Step(dir, current, applied, round).1;
    RoundsLast(dir, stream, stack, rounds);
    Seqs.AppendAssoc(requests, calls.requests, step.requests);
    after := Then(calls, step);
  }

  /** The part of Run before the loop. */
  method Begin(dir: Directory, subscriptionID: string, renderTags: map<string, string> -> string, vaultRun: PickerRun)
    returns (outcome: Outcome, stream: seq<Secret>, stack: seq<Operation>)
    modifies dir`pagesFetched
    ensures outcome == Start(dir, subscriptionID, renderTags, vaultRun).0
    ensures outcome.Waiting? ==> stream == outcome.stream && stack == outcome.stack
    ensures dir.pagesFetched == old(dir.pagesFetched) + Start(dir, subscriptionID, renderTags, vaultRun).1.pages
  {
    stream, stack := [], [];
    var vaults := GetVaults(dir, subscriptionID);
    if vaults.Err? {
      return Exited(FatalExit, StageFailed(vaults.error)), stream, stack;
    }
    assert Concat([vaults.value]) == vaults.value by {
      assert [vaults.value][..0] == [];
    }
    var selected := SelectVaults([vaults.value], vaultRun, renderTags);
    if selected.Err? {
      return Exited(selected.error, PickerFailed), stream, stack;
    }
    if |selected.value| == 0 {
      return Exited(ExitError, NoVaultSelected), stream, stack;
    }
    var secrets := GetSecrets(dir, selected.value);
    if secrets.Err? {
      return Exited(FatalExit, StageFailed(secrets.error)), stream, stack;
    }
    stream := secrets.value;
    outcome := Waiting(stream, stack);
  }

  /** One pass of the loop body as the program executes it. */
  method Loop(dir: Directory, stream: seq<Secret>, stack: seq<Operation>, round: Round) returns (outcome: Outcome)
    modifies dir`pagesFetched, dir`valueRequests
    ensures outcome == Step(dir, stream, stack, round).0
    ensures dir.pagesFetched == old(dir.pagesFetched) + Step(dir, stream, stack, round).1.pages
    ensures dir.valueRequests == old(dir.valueRequests) + Step(dir, stream, stack, round).1.requests
  {
    ghost var step := Step(dir, stream, stack, round);
    var selected := SelectSecrets(stream, round.secrets);
    if selected.Err? {
      assert step == (Exited(ExitError, PickerFailed), NoCalls);
      return Exited(selected.error, PickerFailed);
    }
    if |selected.value| == 0 {
      assert step == (Exited(ExitError, NoSecretSelected), NoCalls);
      return Exited(ExitError, NoSecretSelected);
    }
    var picked := SelectOperation(stack, round.operation);
    if round.operation.Committed? {
      MenuPicksParse(stack, round.operation.indices);
    }
    if picked.Err? {
      assert step == (Exited(ExitError, PickerFailed), NoCalls);
      return Exited(picked.error, PickerFailed);
    }
    var (op, newStack) := picked.value;
    if op.None? {
      assert step == (Exited(ExitError, NoOperationSelected), NoCalls);
      return Exited(ExitError, NoOperationSelected);
    }
    assert step == Dispatch(dir, op.value, selected.value, newStack);
    outcome := StartStage(dir, op.value, selected.value, newStack);
  }

  /** The `switch` of the loop as the program executes it. */
  method StartStage(dir: Directory, op: Operation, selected: seq<Secret>, stack: seq<Operation>)
    returns (outcome: Outcome)
    modifies dir`pagesFetched, dir`valueRequests
    ensures outcome == Dispatch(dir, op, selected, stack).0
    ensures dir.pagesFetched == old(dir.pagesFetched) + Dispatch(dir, op, selected, stack).1.pages
    ensures dir.valueRequests == old(dir.valueRequests) + Dispatch(dir, op, selected, stack).1.requests
  {
    var next: Result<seq<Secret>, Failure>;
    match op {
      case ListVersions =>
        var versions, _ := GetVersions(dir, selected);
        next := versions;
      case GetPasswords =>
        next := GetSecretPasswords(dir, selected);
      case ListVersionAndGetPasswords =>
        var versions, sent := GetVersions(dir, selected);
        next := GetSecretPasswordsStream(dir, sent, if versions.Err? then Some(versions.error) else None);
      case EditMetaData =>
        return Waiting([], stack);
      case DeleteSecret =>
        return Exited(ExitError, UnexpectedOperation);
    }
    outcome := Continue(next, stack);
  }

  // ---------------------------------------------------------------- properties

  /** The version stage hands a "latest" secret on before reading its versions, so when the
      first version page fails, a secret without a value is still fetched before the
      process ends with the first failure. */
  lemma {:induction false} VersionFailureAfterHandOver(dir: Directory, s: Secret, stack: seq<Operation>)
    requires s.version == Latest && s.value == ""
    requires var pages := dir.versionPages(s.vault.vaultURI, s.name); |pages| > 0 && pages[0].PageFailure?
    ensures var (o, c) := Dispatch(dir, ListVersionAndGetPasswords, [s], stack);
      c.requests == [RequestFor(s)] &&
      o == Exited(FatalExit, StageFailed(if WithValue(dir, s).Err? then WithValue(dir, s).error else VersionPagesFailed(s.name)))
  {
    LatestSentBeforeFailure(dir, s);
    assert [s][..0] == [];
    assert RequestsOf(dir, [s]) == [RequestFor(s)];
  }

  /** Every end of the session has status 1 for a failed stage and 2 (fzf.ExitError)
      otherwise. */
  predicate ProperExit(o: Outcome)
  {
    o.Exited? ==> (o.reason.StageFailed? ==> o.code == FatalExit) && (!o.reason.StageFailed? ==> o.code == ExitError)
  }

  lemma {:induction false} StepExit(dir: Directory, stream: seq<Secret>, stack: seq<Operation>, round: Round)
    ensures ProperExit(Step(dir, stream, stack, round).0)
  {
    if round.secrets.Committed? && round.operation.Committed? {
      var op := PickedOperation(stack, round.operation.indices);
      if op.Some? {
        DispatchExit(dir, op.value, Selected(stream, round.secrets.indices), stack + [op.value]);
      }
    }
  }

  lemma {:induction false} DispatchExit(dir: Directory, op: Operation, selected: seq<Secret>, stack: seq<Operation>)
    ensures ProperExit(Dispatch(dir, op, selected, stack).0)
  {
  }

  lemma {:induction false} RoundsExit(dir: Directory, stream: seq<Secret>, stack: seq<Operation>, rounds: seq<Round>)
    ensures ProperExit(Rounds(dir, stream, stack, rounds).0)
  {
    if |rounds| > 0 {
      var n := |rounds| - 1;
      RoundsExit(dir, stream, stack, rounds[..n]);
      var prev := Rounds(dir, stream, stack, rounds[..n]).0;
      if prev.Waiting? {
        StepExit(dir, prev.stream, prev.stack, rounds[n]);
      }
    }
  }

  lemma {:induction false} SessionExit(dir: Directory, subscriptionID: string, renderTags: map<string, string> -> string,
                    vaultRun: PickerRun, rounds: seq<Round>)
    ensures ProperExit(Session(dir, subscriptionID, renderTags, vaultRun, rounds).0)
  {
    var (o, c) := Start(dir, subscriptionID, renderTags, vaultRun);
    if o.Waiting? {
      RoundsExit(dir, o.stream, o.stack, rounds);
    }
  }

  /** A pass that ends for any reason but a failed stage (a picker, an empty selection,
      delete-secret) has made no remote call. */
  lemma {:induction false} StepCalls(dir: Directory, stream: seq<Secret>, stack: seq<Operation>, round: Round)
    ensures var (o, c) := Step(dir, stream, stack, round);
      o.Exited? && !o.reason.StageFailed? ==> c == NoCalls
  {
    if round.secrets.Committed? && round.operation.Committed? {
      var op := PickedOperation(stack, round.operation.indices);
      var selected := Selected(stream, round.secrets.indices);
      if op.Some? && |selected| > 0 {
        var (o, c) := Dispatch(dir, op.value, selected, stack + [op.value]);
        assert o.Exited? && !o.reason.StageFailed? ==> op.value == DeleteSecret;
      }
    }
  }

  /** A round that continues has pushed the operation at the last committed position of
      its menu, which is on offer and is not DeleteSecret. */
  lemma {:induction false} StepPushesPick(dir: Directory, stream: seq<Secret>, stack: seq<Operation>, round: Round)
    ensures var o := Step(dir, stream, stack, round).0;
      o.Waiting? ==>
        (round.operation.Committed? &&
         var op := PickedOperation(stack, round.operation.indices);
         op.Some? && op.value != DeleteSecret && Offered(op.value, stack) && o.stack == stack + [op.value])
  {
  }

  /** Along any run of rounds, the stack only ever holds operations picked from the menu
      shown at the time, never DeleteSecret, and grows by one per completed round. */
  lemma {:induction false} RoundsKeepStack(dir: Directory, stream: seq<Secret>, stack: seq<Operation>, rounds: seq<Round>)
    requires PickedFromMenu(stack) && DeleteSecret !in stack
    ensures var o := Rounds(dir, stream, stack, rounds).0;
      o.Waiting? ==> PickedFromMenu(o.stack) && DeleteSecret !in o.stack && |o.stack| == |stack| + |rounds|
  {
    if |rounds| > 0 {
      var n := |rounds| - 1;
      RoundsKeepStack(dir, stream, stack, rounds[..n]);
      var (prev, c) := Rounds(dir, stream, stack, rounds[..n]);
      if prev.Waiting? {
        StepPushesPick(dir, prev.stream, prev.stack, rounds[n]);
        var o := Step(dir, prev.stream, prev.stack, rounds[n]).0;
        if o.Waiting? {
          var s := o.stack;
          forall i | 0 <= i < |s| ensures Offered(s[i], s[..i]) {
            if i < |prev.stack| {
              assert s[..i] == prev.stack[..i];
            } else {
              assert s[..i] == prev.stack;
            }
          }
        }
      }
    }
  }

  /** The session-level form: after k completed rounds the stack holds k menu picks, none
      of them DeleteSecret. */
  lemma {:induction false} SessionStack(dir: Directory, subscriptionID: string, renderTags: map<string, string> -> string,
                     vaultRun: PickerRun, rounds: seq<Round>)
    ensures var o := Session(dir, subscriptionID, renderTags, vaultRun, rounds).0;
      (o.Waiting? ==> PickedFromMenu(o.stack) && DeleteSecret !in o.stack && |o.stack| == |rounds|)
  {
    var (o, c) := Start(dir, subscriptionID, renderTags, vaultRun);
    if o.Waiting? {
      RoundsKeepStack(dir, o.stream, o.stack, rounds);
    }
  }

  /** Picking EditMetaData starts no stage and leaves the drained stream, so the next
      secret picker has nothing to offer and the session ends with status 2. */
  lemma {:induction false} EditMetaDataEndsSession(dir: Directory, stream: seq<Secret>, stack: seq<Operation>, r1: Round, r2: Round)
    requires r1.secrets.Committed? && |Selected(stream, r1.secrets.indices)| > 0
    requires r1.operation.Committed? && PickedOperation(stack, r1.operation.indices) == Some(EditMetaData)
    ensures Rounds(dir, stream, stack, [r1, r2]).0 ==
      Exited(ExitError, if r2.secrets.RunFailed? then PickerFailed else NoSecretSelected)
    ensures Rounds(dir, stream, stack, [r1, r2]).1 == NoCalls
  {
    var after := stack + [EditMetaData];
    assert Rounds(dir, stream, stack, [r1]) == (Waiting([], after), NoCalls) by {
      EditMetaDataStep(dir, stream, stack, r1);
      RoundsOne(dir, stream, stack, r1);
    }
    assert Step(dir, [], after, r2) ==
      (Exited(ExitError, if r2.secrets.RunFailed? then PickerFailed else NoSecretSelected), NoCalls) by {
      EmptyStreamStep(dir, after, r2);
    }
    RoundsTwo(dir, stream, stack, r1, r2, Waiting([], after));
  }

  /** Two rounds are the first round followed, when it continues, by one Step. */
  lemma {:induction false} RoundsTwo(dir: Directory, stream: seq<Secret>, stack: seq<Operation>, r1: Round, r2: Round, mid: Outcome)
    requires mid.Waiting? && Rounds(dir, stream, stack, [r1]) == (mid, NoCalls)
    ensures var step := Step(dir, mid.stream, mid.stack, r2);
      Rounds(dir, stream, stack, [r1, r2]) == (step.0, Then(NoCalls, step.1))
  {
    assert [r1, r2][..1] == [r1];
    RoundsLast(dir, stream, stack, [r1, r2]);
  }

  /** A round that picks EditMetaData leaves an empty stream and no calls. */
  lemma EditMetaDataStep(dir: Directory, stream: seq<Secret>, stack: seq<Operation>, round: Round)
    requires round.secrets.Committed? && |Selected(stream, round.secrets.indices)| > 0
    requires round.operation.Committed? && PickedOperation(stack, round.operation.indices) == Some(EditMetaData)
    ensures Step(dir, stream, stack, round) == (Waiting([], stack + [EditMetaData]), NoCalls)
  {
  }

  /** With nothing in the stream the secret picker selects nothing. */
  lemma EmptyStreamStep(dir: Directory, stack: seq<Operation>, round: Round)
    ensures Step(dir, [], stack, round) ==
      (Exited(ExitError, if round.secrets.RunFailed? then PickerFailed else NoSecretSelected), NoCalls)
  {
  }

  /** One round from the start is one Step. */
  lemma RoundsOne(dir: Directory, stream: seq<Secret>, stack: seq<Operation>, round: Round)
    ensures Rounds(dir, stream, stack, [round]) ==
      var step := Step(dir, stream, stack, round); (step.0, Then(NoCalls, step.1))
  {
    assert [round][..0] == [];
  }

  /** Picking DeleteSecret reaches the `default` branch: status 2 and no remote call. */
  lemma {:induction false} DeleteSecretEndsSession(dir: Directory, stream: seq<Secret>, stack: seq<Operation>, round: Round)
    requires round.secrets.Committed? && |Selected(stream, round.secrets.indices)| > 0
    requires round.operation.Committed? && PickedOperation(stack, round.operation.indices) == Some(DeleteSecret)
    ensures Step(dir, stream, stack, round) == (Exited(ExitError, UnexpectedOperation), NoCalls)
  {
  }

  /** The secret picker matches lines: when two secrets of the stream share a line (the same
      name, version and masked value, from two vaults), marking the first alone plays the
      round exactly as marking both. */
  lemma {:induction false} SameLineRound(dir: Directory, a: Secret, b: Secret, stack: seq<Operation>, op: PickerRun)
    requires SecretLine(a) == SecretLine(b)
    ensures Step(dir, [a, b], stack, Round(Committed([0]), op)) == Step(dir, [a, b], stack, Round(Committed([0, 1]), op))
  {
    SameLineSelectsBoth(a, b);
    var lines := SecretLines([a, b]);
    EchoMember(lines, [0, 1], SecretLine(a));
    assert lines[0] == SecretLine(a) && 0 in [0, 1];
    LineMatchesPair(a, b, Echo(lines, [0, 1]));
  }

  /** A GetPasswords round that succeeds offers the selected secrets next, in the same
      order, each with its value, after one GetSecret call per secret that had none. */
  lemma {:induction false} GetPasswordsRound(dir: Directory, stream: seq<Secret>, stack: seq<Operation>, round: Round)
    requires round.secrets.Committed? && round.operation.Committed?
    requires PickedOperation(stack, round.operation.indices) == Some(GetPasswords)
    requires var selected := Selected(stream, round.secrets.indices);
      |selected| > 0 && PasswordsOf(dir, selected).Ok?
    ensures var selected := Selected(stream, round.secrets.indices);
      var (o, c) := Step(dir, stream, stack, round);
      o.Waiting? && o.stack == stack + [GetPasswords] && |o.stream| == |selected| &&
      (forall i :: 0 <= i < |selected| ==> o.stream[i] == selected[i].(value := o.stream[i].value)) &&
      c.pages == 0 && |c.requests| == CountUnfetched(selected)
  {
    var selected := Selected(stream, round.secrets.indices);
    PasswordsOfShape(dir, selected);
    RequestsOfCount(dir, selected);
  }
}
