/** The three pickers of the interactive session (internal/selector.go). The fuzzy finder
    itself is an input: a run either fails or commits some of the lines it was given,
    named by their positions in its input. */
module Selector {
  import opened Base
  import opened Text
  import opened Operations
  import opened Selection
  import opened Vaults
  import opened Secrets

  /** The delimiter between an item's ID and its visible text, and the separator between
      visible fields. */
  const Delimiter: string := "|"
  const Separator: string := " / "

  /** fzf.ExitError, the status of every os.Exit in the pickers and the session. */
  const ExitError: int := 2

  /** What one fzf.Run did: committed the input lines at these positions, in this order,
      or returned an error. */
  datatype PickerRun = Committed(indices: seq<nat>) | RunFailed

  /** The positions among `indices` that name one of `n` input lines. */
  function ValidIndices(indices: seq<nat>, n: nat): (r: seq<nat>)
    ensures forall k :: 0 <= k < |r| ==> r[k] < n
    ensures forall i :: i in r <==> i in indices && i < n
  {
    if |indices| == 0 then []
    else
      var m := |indices| - 1;
      ValidIndices(indices[..m], n) + (if indices[m] < n then [indices[m]] else [])
  }

  /** The lines a committed run writes to its output channel. */
  function Echo<T>(xs: seq<T>, indices: seq<nat>): (r: seq<T>)
    ensures var v := ValidIndices(indices, |xs|); |r| == |v| && forall k :: 0 <= k < |r| ==> r[k] == xs[v[k]]
  {
    var v := ValidIndices(indices, |xs|);
    seq(|v|, k requires 0 <= k < |v| => xs[v[k]])
  }

  /** A value is among the echoed ones exactly when it is the one at a committed position. */
  lemma {:induction false} EchoMember<T>(xs: seq<T>, indices: seq<nat>, x: T)
    ensures x in Echo(xs, indices) <==> exists i :: 0 <= i < |xs| && i in indices && xs[i] == x
  {
    var picked := Echo(xs, indices);
    var v := ValidIndices(indices, |xs|);
    if x in picked {
      var k :| 0 <= k < |picked| && picked[k] == x;
      assert v[k] in indices && xs[v[k]] == x;
    }
    if exists i :: 0 <= i < |xs| && i in indices && xs[i] == x {
      var i :| 0 <= i < |xs| && i in indices && xs[i] == x;
      var k :| 0 <= k < |v| && v[k] == i;
      assert picked[k] == x;
    }
  }

  // ---------------------------------------------------------------- vaults

  /** The line offered for each vault, in arrival order. */
  function VaultLines(vaults: seq<Vault>, renderTags: map<string, string> -> string): (r: seq<string>)
    ensures |r| == |vaults|
    ensures forall i :: 0 <= i < |vaults| ==> r[i] == Vaults.FormatFZF(vaults[i], Delimiter, Separator, renderTags)
  {
    seq(|vaults|, i requires 0 <= i < |vaults| => Vaults.FormatFZF(vaults[i], Delimiter, Separator, renderTags))
  }

  /** The vaults SelectVaults returns after a committed run over every arrived batch. */
  function ChosenVaults(all: seq<Vault>, indices: seq<nat>, renderTags: map<string, string> -> string): seq<Vault>
  {
    KeepIds(all, VaultId, SelectedIds(Echo(VaultLines(all, renderTags), indices), Delimiter))
  }

  /** SelectVaults: forward every batch of vaults to the picker, then match the committed
      lines back to vaults by ID. */
  method SelectVaults(batches: seq<seq<Vault>>, run: PickerRun, renderTags: map<string, string> -> string)
    returns (r: Result<seq<Vault>, int>)
    ensures run.RunFailed? ==> r == Err(ExitError)
    ensures run.Committed? ==> r == Ok(ChosenVaults(Concat(batches), run.indices, renderTags))
  {
    var all, lines := OfferVaults(batches, renderTags);
    if run.RunFailed? {
      return Err(ExitError);
    }
    var picked := Echo(lines, run.indices);
    var selected := FilterVaultsBySelection(all, picked, Delimiter);
    r := Ok(selected);
  }

  /** The forwarding goroutine of SelectVaults: collect every batch and send one line per
      vault. */
  method OfferVaults(batches: seq<seq<Vault>>, renderTags: map<string, string> -> string)
    returns (all: seq<Vault>, lines: seq<string>)
    ensures all == Concat(batches) && lines == VaultLines(all, renderTags)
  {
    all := [];
    lines := [];
    for b := 0 to |batches|
      invariant all == Concat(batches[..b]) && lines == VaultLines(all, renderTags)
    {
      var batch := batches[b];
      var before := all;
      for i := 0 to |batch|
        invariant lines == VaultLines(before + batch[..i], renderTags)
      {
        assert before + batch[..i + 1] == (before + batch[..i]) + [batch[i]];
        lines := lines + [Vaults.FormatFZF(batch[i], Delimiter, Separator, renderTags)];
      }
      assert batch[..|batch|] == batch;
      all := before + batch;
      assert batches[..b + 1][..b] == batches[..b];
    }
    assert batches[..|batches|] == batches;
  }

  /** All batches, in arrival order. */
  function Concat<T>(batches: seq<seq<T>>): seq<T>
  {
    if |batches| == 0 then [] else Concat(batches[..|batches| - 1]) + batches[|batches| - 1]
  }

  /** The vault picker returns exactly the vaults whose lines were committed, when vault IDs
      are unique and contain no "|" (Azure resource IDs do not). */
  lemma {:induction false} ChosenVaultsExact(all: seq<Vault>, indices: seq<nat>, renderTags: map<string, string> -> string)
    requires UniqueIds(all)
    requires forall i :: 0 <= i < |all| ==> '|' !in all[i].id
    ensures forall v :: v in ChosenVaults(all, indices, renderTags) <==>
      exists i :: 0 <= i < |all| && i in indices && all[i] == v
  {
    var chosen := Echo(all, indices);
    forall v ensures v in chosen <==> exists i :: 0 <= i < |all| && i in indices && all[i] == v {
      EchoMember(all, indices, v);
    }
    var lines := Echo(VaultLines(all, renderTags), indices);
    forall k | 0 <= k < |lines|
      ensures FirstField(lines[k], Delimiter) == VaultId(chosen[k])
    {
      LineNamesVault(chosen[k], Delimiter, Separator, renderTags);
    }
    forall k | 0 <= k < |chosen| ensures chosen[k] in all {
      assert chosen[k] == all[ValidIndices(indices, |all|)[k]];
    }
    SelectionRoundTrip(all, VaultId, chosen, lines, Delimiter);
  }

  // ---------------------------------------------------------------- secrets

  /** formatSecretForFzf: name, version and masked value. */
  function SecretLine(s: Secret): string
  {
    s.name + " | " + s.version + " | " + Masked(s.value)
  }

  /** A secret's line starts with its name and ends with its masked value; nothing in it
      depends on the vault, the ID or the tags. */
  lemma {:induction false} SecretLineShape(s: Secret, t: Secret)
    ensures var r := SecretLine(s); |r| >= |s.name| && r[..|s.name|] == s.name
    ensures var r := SecretLine(s); |r| >= |Masked(s.value)| && r[|r| - |Masked(s.value)|..] == Masked(s.value)
    ensures s.name == t.name && s.version == t.version && s.value == t.value ==> SecretLine(s) == SecretLine(t)
  {
    var r, m := SecretLine(s), Masked(s.value);
    assert r == (s.name + " | " + s.version + " | ") + m;
    assert r[|r| - |m|..] == m;
  }

  function SecretLines(secrets: seq<Secret>): (r: seq<string>)
    ensures |r| == |secrets| && forall i :: 0 <= i < |secrets| ==> r[i] == SecretLine(secrets[i])
  {
    seq(|secrets|, i requires 0 <= i < |secrets| => SecretLine(secrets[i]))
  }

  /** The arrived secrets whose line is among the committed lines, in arrival order. */
  function LineMatches(all: seq<Secret>, picked: seq<string>): seq<Secret>
  {
    if |all| == 0 then []
    else
      var n := |all| - 1;
      LineMatches(all[..n], picked) + (if SecretLine(all[n]) in picked then [all[n]] else [])
  }

  /** SelectSecrets as written: offer each secret's line, then keep every arrived secret
      whose line equals a committed line. */
  method SelectSecrets(stream: seq<Secret>, run: PickerRun) returns (r: Result<seq<Secret>, int>)
    ensures run.RunFailed? ==> r == Err(ExitError)
    ensures run.Committed? ==> r == Ok(LineMatches(stream, Echo(SecretLines(stream), run.indices)))
  {
    var all: seq<Secret> := [];
    var lines: seq<string> := [];
    for i := 0 to |stream|
      invariant all == stream[..i] && lines == SecretLines(all)
    {
      all := all + [stream[i]];
      lines := lines + [SecretLine(stream[i])];
    }
    assert all == stream;
    if run.RunFailed? {
      return Err(ExitError);
    }
    var picked := Echo(lines, run.indices);
    var selected := KeepPicked(all, picked);
    r := Ok(selected);
  }

  /** The second loop of SelectSecrets: every arrived secret whose line was picked. */
  method KeepPicked(all: seq<Secret>, picked: seq<string>) returns (selected: seq<Secret>)
    ensures selected == LineMatches(all, picked)
  {
    selected := [];
    for i := 0 to |all|
      invariant selected == LineMatches(all[..i], picked)
    {
      assert all[..i + 1][..i] == all[..i];
      if SecretLine(all[i]) in picked {
        selected := selected + [all[i]];
      }
    }
    assert all[..|all|] == all;
  }

  lemma {:induction false} LineMatchesMembers(all: seq<Secret>, picked: seq<string>, x: Secret)
    ensures x in LineMatches(all, picked) <==> x in all && SecretLine(x) in picked
  {
    if |all| > 0 {
      var n := |all| - 1;
      LineMatchesMembers(all[..n], picked, x);
      assert all == all[..n] + [all[n]];
    }
  }

  /** The kept secrets keep their arrival order. */
  lemma {:induction false} LineMatchesOrder(all: seq<Secret>, picked: seq<string>)
    ensures Seqs.IsSubsequence(LineMatches(all, picked), all)
  {
    if |all| > 0 {
      var n := |all| - 1;
      var front := LineMatches(all[..n], picked);
      LineMatchesOrder(all[..n], picked);
      assert all == all[..n] + [all[n]];
      if SecretLine(all[n]) in picked {
        Seqs.IsSubsequenceSnoc(front, all[..n], all[n]);
      } else {
        assert LineMatches(all, picked) == front + [] == front;
        Seqs.IsSubsequenceSkip(front, all[..n], all[n]);
      }
    }
  }

  /** What the as-written picker returns: every arrived secret whose line equals the line
      of a marked secret, which includes every marked secret. */
  lemma {:induction false} SelectSecretsByLine(stream: seq<Secret>, indices: seq<nat>)
    ensures forall x :: x in LineMatches(stream, Echo(SecretLines(stream), indices)) <==>
      x in stream && exists i :: 0 <= i < |stream| && i in indices && SecretLine(stream[i]) == SecretLine(x)
  {
    forall x
      ensures x in LineMatches(stream, Echo(SecretLines(stream), indices)) <==>
        x in stream && exists i :: 0 <= i < |stream| && i in indices && SecretLine(stream[i]) == SecretLine(x)
    {
      LineMatchIff(stream, indices, x);
    }
  }

  lemma {:induction false} LineMatchIff(stream: seq<Secret>, indices: seq<nat>, x: Secret)
    ensures x in LineMatches(stream, Echo(SecretLines(stream), indices)) <==>
      x in stream && exists i :: 0 <= i < |stream| && i in indices && SecretLine(stream[i]) == SecretLine(x)
  {
    var lines := SecretLines(stream);
    LineMatchesMembers(stream, Echo(lines, indices), x);
    EchoMember(lines, indices, SecretLine(x));
  }

  /** The line of a secret does not show its vault or ID: when two arrived secrets have
      the same line, marking the first selects both. */
  lemma {:induction false} SameLineSelectsBoth(a: Secret, b: Secret)
    requires SecretLine(a) == SecretLine(b)
    ensures LineMatches([a, b], Echo(SecretLines([a, b]), [0])) == [a, b]
  {
    var lines := SecretLines([a, b]);
    EchoFirst(lines);
    LineMatchesPair(a, b, [lines[0]]);
  }

  /** Committing the first line alone echoes that line. */
  lemma {:induction false} EchoFirst<T>(xs: seq<T>)
    requires |xs| > 0
    ensures Echo(xs, [0]) == [xs[0]]
  {
    assert [0][..0] == [];
    assert ValidIndices([0], |xs|) == [0];
  }

  lemma {:induction false} LineMatchesPair(a: Secret, b: Secret, picked: seq<string>)
    requires SecretLine(a) in picked && SecretLine(b) in picked
    ensures LineMatches([a, b], picked) == [a, b]
  {
    assert [a, b][..1] == [a] && [a][..0] == [];
    assert LineMatches([a], picked) == [a];
  }

  /** Such pairs occur: a secret "db" without a fetched value, listed from two vaults. */
  lemma {:induction false} SameLineAcrossVaults()
    ensures var dev := Vault("/v/dev", "dev", map[], "", "", "", "");
      var prod := Vault("/v/prod", "prod", map[], "", "", "", "");
      var a := Secret(SecretId(dev.id, "db", Latest), "db", Latest, "", map[], dev, true, "");
      var b := Secret(SecretId(prod.id, "db", Latest), "db", Latest, "", map[], prod, true, "");
      a != b && LineMatches([a, b], Echo(SecretLines([a, b]), [0])) == [a, b]
  {
    var dev := Vault("/v/dev", "dev", map[], "", "", "", "");
    var prod := Vault("/v/prod", "prod", map[], "", "", "", "");
    var a := Secret(SecretId(dev.id, "db", Latest), "db", Latest, "", map[], dev, true, "");
    var b := Secret(SecretId(prod.id, "db", Latest), "db", Latest, "", map[], prod, true, "");
    assert a.vault != b.vault;
    SameLineSelectsBoth(a, b);
  }

  /** The secrets at the marked positions, in arrival order. */
  function MarkedSecrets(all: seq<Secret>, indices: seq<nat>): seq<Secret>
  {
    if |all| == 0 then []
    else
      var n := |all| - 1;
      MarkedSecrets(all[..n], indices) + (if n in indices then [all[n]] else [])
  }

  /** The secret picker as intended: keep the arrived secrets whose own line was committed. */
  method SelectMarkedSecrets(stream: seq<Secret>, run: PickerRun) returns (r: Result<seq<Secret>, int>)
    ensures run.RunFailed? ==> r == Err(ExitError)
    ensures run.Committed? ==> r == Ok(MarkedSecrets(stream, run.indices))
  {
    if run.RunFailed? {
      return Err(ExitError);
    }
    var selected: seq<Secret> := [];
    for i := 0 to |stream|
      invariant selected == MarkedSecrets(stream[..i], run.indices)
    {
      assert stream[..i + 1][..i] == stream[..i];
      if i in run.indices {
        selected := selected + [stream[i]];
      }
    }
    assert stream[..|stream|] == stream;
    r := Ok(selected);
  }

  /** The intended picker returns the marked secrets and only them, in arrival order, each
      marked position once. */
  lemma {:induction false} MarkedSecretsExact(all: seq<Secret>, indices: seq<nat>)
    ensures forall x :: x in MarkedSecrets(all, indices) <==> exists i :: 0 <= i < |all| && i in indices && all[i] == x
    ensures |MarkedSecrets(all, indices)| == |set i | 0 <= i < |all| && i in indices|
  {
    MarkedSecretsMembers(all, indices);
    MarkedSecretsCount(all, indices);
  }

  /** The marked secrets are exactly the secrets at committed positions. */
  lemma {:induction false} MarkedSecretsMembers(all: seq<Secret>, indices: seq<nat>)
    ensures forall x :: x in MarkedSecrets(all, indices) <==> exists i :: 0 <= i < |all| && i in indices && all[i] == x
  {
    if |all| > 0 {
      var n := |all| - 1;
      var front := MarkedSecrets(all[..n], indices);
      assert MarkedSecrets(all, indices) == front + (if n in indices then [all[n]] else []);
      MarkedSecretsMembers(all[..n], indices);
      forall x
        ensures x in MarkedSecrets(all, indices) <==> exists i :: 0 <= i < |all| && i in indices && all[i] == x
      {
        if exists i :: 0 <= i < |all| && i in indices && all[i] == x {
          var i :| 0 <= i < |all| && i in indices && all[i] == x;
          if i < n {
            assert all[..n][i] == x;
          }
        }
      }
    }
  }

  /** One marked secret per committed position. */
  lemma {:induction false} MarkedSecretsCount(all: seq<Secret>, indices: seq<nat>)
    ensures |MarkedSecrets(all, indices)| == |set i | 0 <= i < |all| && i in indices|
  {
    if |all| > 0 {
      var n := |all| - 1;
      MarkedSecretsCount(all[..n], indices);
      var prev := set i | 0 <= i < n && i in indices;
      var cur := set i | 0 <= i < |all| && i in indices;
      if n in indices {
        assert cur == prev + {n};
      } else {
        assert cur == prev;
      }
    }
  }

  // ---------------------------------------------------------------- operations

  /** Whether SelectOperation offers `op` after the operations in `stack` were applied:
      listing versions once, passwords (with or without versions) until both versions and
      passwords were listed, and editing and deleting always. */
  predicate Offered(op: Operation, stack: seq<Operation>)
  {
    match op
    case ListVersions => ListVersions !in stack && ListVersionAndGetPasswords !in stack
    case GetPasswords | ListVersionAndGetPasswords =>
      (GetPasswords !in stack || ListVersions !in stack) && ListVersionAndGetPasswords !in stack
    case EditMetaData | DeleteSecret => true
  }

  /** The menu in the order it is offered. */
  function Menu(stack: seq<Operation>): (r: seq<Operation>)
    ensures forall op :: op in r <==> Offered(op, stack)
    ensures forall i, j :: 0 <= i < j < |r| ==> Ordinal(r[i]) < Ordinal(r[j])
    ensures |r| >= 2 && r[|r| - 2] == EditMetaData && r[|r| - 1] == DeleteSecret
  {
    (if Offered(ListVersions, stack) then [ListVersions] else []) +
    (if Offered(GetPasswords, stack) then [GetPasswords, ListVersionAndGetPasswords] else []) +
    [EditMetaData, DeleteSecret]
  }

  function MenuNames(stack: seq<Operation>): (r: seq<string>)
    ensures |r| == |Menu(stack)| && forall i :: 0 <= i < |r| ==> r[i] == Name(Menu(stack)[i])
  {
    var m := Menu(stack);
    seq(|m|, i requires 0 <= i < |m| => Name(m[i]))
  }

  /** The menu-sending goroutine of SelectOperation. */
  method MenuLines(stack: seq<Operation>) returns (lines: seq<string>)
    ensures lines == MenuNames(stack)
  {
    lines := [];
    if ListVersions !in stack && ListVersionAndGetPasswords !in stack {
      lines := lines + [Name(ListVersions)];
    }
    if (GetPasswords !in stack || ListVersions !in stack) && ListVersionAndGetPasswords !in stack {
      lines := lines + [Name(GetPasswords)];
      lines := lines + [Name(ListVersionAndGetPasswords)];
    }
    lines := lines + [Name(EditMetaData)];
    lines := lines + [Name(DeleteSecret)];
  }

  /** The output-collecting goroutine: each committed line is parsed with the "|" delimiter
      and the last one wins; an unknown name ends the process. */
  function ParsePicked(picked: seq<string>): Result<Option<Operation>, UnknownOperation>
  {
    if |picked| == 0 then Ok(None)
    else
      var n := |picked| - 1;
      match ParsePicked(picked[..n])
      case Err(e) => Err(e)
      case Ok(_) =>
        match GetOperationByName(picked[n], Delimiter)
        case Err(e) => Err(e)
        case Ok(op) => Ok(Some(op))
  }

  /** SelectOperation: offer the menu, collect the committed operation and push it. */
  method SelectOperation(stack: seq<Operation>, run: PickerRun)
    returns (r: Result<(Option<Operation>, seq<Operation>), int>)
    ensures run.RunFailed? ==> r == Err(ExitError)
    ensures run.Committed? ==>
      match ParsePicked(Echo(MenuNames(stack), run.indices))
      case Err(_) => r == Err(ExitError)
      case Ok(None) => r == Ok((None, stack))
      case Ok(Some(op)) => r == Ok((Some(op), stack + [op]))
  {
    var lines := MenuLines(stack);
    if run.RunFailed? {
      return Err(ExitError);
    }
    var selected := Collect(Echo(lines, run.indices));
    if selected.Err? {
      return Err(ExitError);
    }
    if selected.value.Some? {
      r := Ok((selected.value, stack + [selected.value.value]));
    } else {
      r := Ok((None, stack));
    }
  }

  /** The collecting loop of SelectOperation over the committed lines. */
  method Collect(picked: seq<string>) returns (r: Result<Option<Operation>, UnknownOperation>)
    ensures r == ParsePicked(picked)
  {
    var selected: Option<Operation> := None;
    for i := 0 to |picked|
      invariant ParsePicked(picked[..i]) == Ok(selected)
    {
      assert picked[..i + 1][..i] == picked[..i];
      var op := GetOperationByName(picked[i], Delimiter);
      if op.Err? {
        ParsePickedStops(picked, i + 1);
        return Err(op.error);
      }
      selected := Some(op.value);
    }
    assert picked[..|picked|] == picked;
    r := Ok(selected);
  }

  /** The last committed line is looked at only when the earlier ones all parsed. */
  lemma {:induction false} ParsePickedLast(picked: seq<string>)
    requires |picked| > 0
    ensures var n := |picked| - 1;
      ParsePicked(picked) ==
        if ParsePicked(picked[..n]).Err? then ParsePicked(picked[..n])
        else match GetOperationByName(picked[n], Delimiter)
          case Err(e) => Err(e)
          case Ok(op) => Ok(Some(op))
  {
  }

  lemma {:induction false} ParsePickedStops(picked: seq<string>, k: nat)
    requires k <= |picked| && ParsePicked(picked[..k]).Err?
    ensures ParsePicked(picked) == ParsePicked(picked[..k])
    decreases |picked| - k
  {
    if k < |picked| {
      var n := |picked| - 1;
      assert picked[..n][..k] == picked[..k];
      ParsePickedStops(picked[..n], k);
      ParsePickedLast(picked);
    } else {
      assert picked[..k] == picked;
    }
  }

  /** The operation at the last committed position of the menu, if any. */
  function PickedOperation(stack: seq<Operation>, indices: seq<nat>): (r: Option<Operation>)
    ensures r.Some? ==> Offered(r.value, stack)
  {
    var v := ValidIndices(indices, |Menu(stack)|);
    if |v| == 0 then None else Some(Menu(stack)[v[|v| - 1]])
  }

  /** Every line the menu offers names its operation, so the collector never meets an
      unknown name: it returns the operation at the last committed position. */
  lemma {:induction false} MenuPicksParse(stack: seq<Operation>, indices: seq<nat>)
    ensures ParsePicked(Echo(MenuNames(stack), indices)) == Ok(PickedOperation(stack, indices))
  {
    var picked := Echo(MenuNames(stack), indices);
    var m := Menu(stack);
    var v := ValidIndices(indices, |m|);
    ParsePrefix(picked, m, v, |picked|);
    assert picked[..|picked|] == picked;
  }

  lemma {:induction false} ParsePrefix(picked: seq<string>, m: seq<Operation>, v: seq<nat>, k: nat)
    requires |picked| == |v| && k <= |picked|
    requires forall i :: 0 <= i < |v| ==> v[i] < |m| && picked[i] == Name(m[v[i]])
    ensures ParsePicked(picked[..k]) == if k == 0 then Ok(None) else Ok(Some(m[v[k - 1]]))
  {
    if k > 0 {
      assert ParsePicked(picked[..k][..k - 1]).Ok? by {
        ParsePrefix(picked, m, v, k - 1);
        assert picked[..k][..k - 1] == picked[..k - 1];
      }
      assert GetOperationByName(picked[..k][k - 1], Delimiter) == Ok(m[v[k - 1]]) by {
        NameLookup(m[v[k - 1]]);
      }
      ParsePickedLast(picked[..k]);
    }
  }

  /** The menu of a fresh session offers all five operations in declaration order. */
  lemma {:induction false} FreshMenu()
    ensures Menu([]) == AllOperations
  {
  }

  /** Listing versions is offered exactly when neither version listing was applied yet;
      the two password operations are offered together; editing and deleting always. */
  lemma {:induction false} MenuRules(stack: seq<Operation>)
    ensures ListVersions in Menu(stack) <==> ListVersions !in stack && ListVersionAndGetPasswords !in stack
    ensures GetPasswords in Menu(stack) <==> ListVersionAndGetPasswords in Menu(stack)
    ensures EditMetaData in Menu(stack) && DeleteSecret in Menu(stack)
  {
  }

  /** A stack holding every operation of another offers nothing the other withholds. */
  lemma {:induction false} MenuAntitone(stack: seq<Operation>, larger: seq<Operation>)
    requires forall op :: op in stack ==> op in larger
    ensures forall op :: op in Menu(larger) ==> op in Menu(stack)
  {
    forall op | op in Menu(larger) ensures op in Menu(stack) {
      assert Offered(op, larger);
    }
  }

  /** Applying more operations never brings an operation back into the menu. */
  lemma {:induction false} MenuShrinks(stack: seq<Operation>, more: seq<Operation>)
    ensures forall op :: op in Menu(stack + more) ==> op in Menu(stack)
  {
    MenuAntitone(stack, stack + more);
  }

  /** Every operation of the stack was on the menu when it was picked. */
  predicate PickedFromMenu(stack: seq<Operation>)
  {
    forall i :: 0 <= i < |stack| ==> Offered(stack[i], stack[..i])
  }

  /** In a stack built from menu picks, each version-listing operation occurs at most once,
      and after both-at-once only editing or deleting can follow. */
  lemma {:induction false} PickedFromMenuFacts(stack: seq<Operation>, i: nat, j: nat)
    requires PickedFromMenu(stack) && i < j < |stack|
    ensures stack[i] == ListVersions ==> stack[j] != ListVersions
    ensures stack[i] == ListVersionAndGetPasswords ==> stack[j] in {EditMetaData, DeleteSecret}
    ensures stack[i] == GetPasswords && stack[j] == ListVersions ==>
      forall k :: j < k < |stack| ==> stack[k] !in {GetPasswords, ListVersionAndGetPasswords}
  {
    assert stack[..j][i] == stack[i];
    forall k | j < k < |stack|
      ensures stack[i] == GetPasswords && stack[j] == ListVersions ==> stack[k] !in {GetPasswords, ListVersionAndGetPasswords}
    {
      assert stack[..k][i] == stack[i] && stack[..k][j] == stack[j];
    }
  }
}
