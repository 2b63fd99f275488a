/** The command of the asf package (src/asf.go): list the subscription's vaults, let the
    user pick vaults and an operation, and for "list" gather every version of every
    secret of the picked vaults, let the user pick secrets and offer the per-secret
    operations, whose menu depends on how many secrets were picked. The pickers are
    inputs (how each fzf run ended); the listing pages come from a Directory. */
module AsfRun {
  import opened Base
  import opened Text
  import opened Remote
  import opened Fzf
  import AsfFzf
  import AsfVaults
  import Seqs

  // ---------------------------------------------------------------- FzfSelectOrExit

  /** FzfSelectOrExit on the result of FzfSelect: the selection, or the exit status. */
  function OrExit(r: Result<seq<string>, FzfError>): Result<seq<string>, int>
  {
    match r
    case Ok(selection) => Ok(selection)
    case Err(e) => if e == UserCancelled || e == NoSelection then Err(0) else Err(1)
  }

  /** FzfSelectOrExit. */
  method FzfSelectOrExit(launch: Launch, numFields: int, delimiter: string) returns (r: Result<seq<string>, int>)
    ensures r == OrExit(AsfFzf.SelectSentinel(launch, numFields, delimiter))
  {
    var result := AsfFzf.FzfSelect(launch, numFields, delimiter);
    if result.Err? {
      if result.error == UserCancelled || result.error == NoSelection {
        return Err(0);
      }
      return Err(1);
    }
    return Ok(result.value);
  }

  /** Cancelling or selecting nothing exits with 0, every other picker error with 1, and
      a selection is returned unchanged and is never empty. */
  lemma {:induction false} ExitCodes(launch: Launch, numFields: int, delimiter: string)
    ensures var s := AsfFzf.SelectSentinel(launch, numFields, delimiter);
      var r := OrExit(s);
      (r == Err(0) <==> s == Err(UserCancelled) || s == Err(NoSelection)) &&
      (r == Err(1) <==> s.Err? && s != Err(UserCancelled) && s != Err(NoSelection)) &&
      (r.Ok? <==> s.Ok?) &&
      (r.Ok? ==> r.value == s.value && |r.value| > 0)
  {
    AsfFzf.SentinelOutcomes(launch, numFields, delimiter);
  }

  /** A user who cancels the picker, or a run that printed only white space, exits with 0. */
  lemma {:induction false} CancelExitsZero(output: string, code: int, numFields: int, delimiter: string)
    requires CancelCode(code)
    ensures OrExit(AsfFzf.SelectSentinel(Finished(output, ExitStatus(code)), numFields, delimiter)) == Err(0)
    ensures AllSpace(output) ==> OrExit(AsfFzf.SelectSentinel(Finished(output, Succeeded), numFields, delimiter)) == Err(0)
  {
    AsfFzf.SentinelOutcomes(Finished(output, Succeeded), numFields, delimiter);
  }

  // ---------------------------------------------------------------- menus

  /** One line of a fixed menu: the key fzf returns and the text shown for it. */
  datatype MenuEntry = MenuEntry(key: string, text: string)

  function EntryLine(e: MenuEntry): string
  {
    e.key + "\t" + e.text
  }

  function Keys(entries: seq<MenuEntry>): (r: seq<string>)
    ensures |r| == |entries| && forall i :: 0 <= i < |r| ==> r[i] == entries[i].key
  {
    if |entries| == 0 then []
    else
      var n := |entries| - 1;
      assert forall i :: 0 <= i < n ==> entries[..n][i] == entries[i];
      Keys(entries[..n]) + [entries[n].key]
  }

  /** The operation menu: "list\tlist\nadd\tadd". */
  function OperationMenu(): seq<MenuEntry>
  {
    [MenuEntry("list", "list"), MenuEntry("add", "add")]
  }

  /** The menu for exactly one picked secret. */
  function SingleSecretMenu(): seq<MenuEntry>
  {
    [MenuEntry("remove", "remove"), MenuEntry("show-pw", "show passwod"),
     MenuEntry("update-meta", "update metadata"), MenuEntry("update-pw", "update password"),
     MenuEntry("new-version", "add new version")]
  }

  /** The menu for more than one picked secret. */
  function MultiSecretMenu(): seq<MenuEntry>
  {
    [MenuEntry("show-pw", "show passwod"), MenuEntry("update-meta", "update metadata")]
  }

  /** An entry whose line reads back: a key without tabs, newlines or surrounding white
      space, a label without newlines that ends in a non-space. */
  predicate WellFormedEntry(e: MenuEntry)
  {
    |e.key| > 0 && IsTrimmed(e.key) && '\t' !in e.key && '\n' !in e.key &&
    |e.text| > 0 && !IsSpace(e.text[|e.text| - 1]) && '\n' !in e.text
  }

  predicate WellFormedMenu(entries: seq<MenuEntry>)
  {
    forall i :: 0 <= i < |entries| ==> WellFormedEntry(entries[i])
  }

  /** The lines of `entries` at the positions `picked`, in that order. */
  function PickedLines(entries: seq<MenuEntry>, picked: seq<nat>): (r: seq<string>)
    requires forall k :: 0 <= k < |picked| ==> picked[k] < |entries|
    ensures |r| == |picked| && forall k :: 0 <= k < |r| ==> r[k] == EntryLine(entries[picked[k]])
  {
    if |picked| == 0 then []
    else
      var n := |picked| - 1;
      PickedLines(entries, picked[..n]) + [EntryLine(entries[picked[n]])]
  }

  function PickedKeys(entries: seq<MenuEntry>, picked: seq<nat>): (r: seq<string>)
    requires forall k :: 0 <= k < |picked| ==> picked[k] < |entries|
    ensures |r| == |picked| && forall k :: 0 <= k < |r| ==> r[k] == entries[picked[k]].key
  {
    if |picked| == 0 then []
    else
      var n := |picked| - 1;
      PickedKeys(entries, picked[..n]) + [entries[picked[n]].key]
  }

  /** A joined text starts with the first part and ends with the last one. */
  lemma {:induction false} JoinEnds(parts: seq<string>, d: string)
    requires |parts| > 0 && forall k :: 0 <= k < |parts| ==> |parts[k]| > 0
    ensures var s := Join(parts, d); |s| > 0 && s[0] == parts[0][0] && s[|s| - 1] == parts[|parts| - 1][|parts[|parts| - 1]| - 1]
  {
    if |parts| > 1 {
      JoinEnds(parts[1..], d);
      JoinCons(parts[0], parts[1..], d);
      assert parts == [parts[0]] + parts[1..];
    }
  }

  /** The key of one menu line comes back from a one-field parse at tabs. */
  lemma {:induction false} EntryKey(e: MenuEntry)
    requires IsTrimmed(e.key) && '\t' !in e.key
    ensures LineResult(EntryLine(e), 1, "\t") == Some(e.key)
  {
    FirstFieldSingleChar(e.key, "\t", e.text);
    LineCases(EntryLine(e), 1, "\t");
    TrimSpaceFixesTrimmed(e.key);
  }

  /** Lines printed by fzf, one per line, with no white space around the whole output,
      are read back line by line. */
  lemma {:induction false} PrintedLines(lines: seq<string>)
    requires |lines| > 0 && forall k :: 0 <= k < |lines| ==> |lines[k]| > 0 && '\n' !in lines[k]
    requires !IsSpace(lines[0][0]) && !IsSpace(lines[|lines| - 1][|lines[|lines| - 1]| - 1])
    ensures OutputLines(Join(lines, "\n")) == lines && |TrimSpace(Join(lines, "\n"))| > 0
  {
    var output := Join(lines, "\n");
    JoinEnds(lines, "\n");
    TrimSpaceFixesTrimmed(output);
    SplitJoin(lines, "\n");
  }

  /** Printed lines whose parse is `expected`, not empty, select `expected`. */
  lemma {:induction false} SelectPrinted(lines: seq<string>, expected: seq<string>)
    requires |lines| > 0 && forall k :: 0 <= k < |lines| ==> |lines[k]| > 0 && '\n' !in lines[k]
    requires !IsSpace(lines[0][0]) && !IsSpace(lines[|lines| - 1][|lines[|lines| - 1]| - 1])
    requires ParseLines(lines, 1, "\t") == expected && |expected| > 0
    ensures AsfFzf.SelectSentinel(Finished(Join(lines, "\n"), Succeeded), 1, "\t") == Ok(expected)
  {
    PrintedLines(lines);
  }

  /** Reading a picked menu back: when fzf ends normally having printed some lines of a
      well-formed menu, one per line, the selection is the keys of those lines in the order
      printed. */
  lemma {:induction false} PickedMenuKeys(entries: seq<MenuEntry>, picked: seq<nat>)
    requires WellFormedMenu(entries) && |picked| > 0
    requires forall k :: 0 <= k < |picked| ==> picked[k] < |entries|
    ensures AsfFzf.SelectSentinel(Finished(Join(PickedLines(entries, picked), "\n"), Succeeded), 1, "\t") ==
      Ok(PickedKeys(entries, picked))
  {
    PickedLinesPrintable(entries, picked);
    PickedLinesParse(entries, picked);
    SelectPrinted(PickedLines(entries, picked), PickedKeys(entries, picked));
  }

  /** Picked menu lines are non-empty single lines with no white space at the ends. */
  lemma {:induction false} PickedLinesPrintable(entries: seq<MenuEntry>, picked: seq<nat>)
    requires WellFormedMenu(entries) && |picked| > 0
    requires forall k :: 0 <= k < |picked| ==> picked[k] < |entries|
    ensures var lines := PickedLines(entries, picked);
      (forall k :: 0 <= k < |lines| ==> |lines[k]| > 0 && '\n' !in lines[k]) &&
      !IsSpace(lines[0][0]) && !IsSpace(lines[|lines| - 1][|lines[|lines| - 1]| - 1])
  {
    var lines := PickedLines(entries, picked);
    forall k | 0 <= k < |lines| ensures |lines[k]| > 0 && '\n' !in lines[k] {
      var e := entries[picked[k]];
      assert lines[k] == e.key + "\t" + e.text;
    }
    var first := entries[picked[0]];
    assert lines[0] == first.key + "\t" + first.text;
    assert lines[0][0] == first.key[0];
    var last := entries[picked[|picked| - 1]];
    assert lines[|lines| - 1] == last.key + "\t" + last.text;
  }

  /** Each picked menu line parses to its key. */
  lemma {:induction false} PickedLinesParse(entries: seq<MenuEntry>, picked: seq<nat>)
    requires WellFormedMenu(entries)
    requires forall k :: 0 <= k < |picked| ==> picked[k] < |entries|
    ensures ParseLines(PickedLines(entries, picked), 1, "\t") == PickedKeys(entries, picked)
  {
    var lines := PickedLines(entries, picked);
    OnePerLine(lines, 1, "\t");
    var r := ParseLines(lines, 1, "\t");
    var keys := PickedKeys(entries, picked);
    forall k | 0 <= k < |lines| ensures r[k] == keys[k] {
      EntryKey(entries[picked[k]]);
    }
  }

  lemma {:induction false} OperationMenuWellFormed()
    ensures WellFormedMenu(OperationMenu()) && Keys(OperationMenu()) == ["list", "add"]
  {
    assert WellFormedEntry(MenuEntry("list", "list"));
    assert WellFormedEntry(MenuEntry("add", "add"));
  }

  lemma {:induction false} SingleSecretMenuWellFormed()
    ensures WellFormedMenu(SingleSecretMenu())
    ensures Keys(SingleSecretMenu()) == ["remove", "show-pw", "update-meta", "update-pw", "new-version"]
  {
    SharedEntriesWellFormed();
    SingleOnlyEntriesWellFormed();
  }

  lemma {:induction false} MultiSecretMenuWellFormed()
    ensures WellFormedMenu(MultiSecretMenu()) && Keys(MultiSecretMenu()) == ["show-pw", "update-meta"]
  {
    SharedEntriesWellFormed();
  }

  lemma {:induction false} SharedEntriesWellFormed()
    ensures WellFormedEntry(MenuEntry("show-pw", "show passwod"))
    ensures WellFormedEntry(MenuEntry("update-meta", "update metadata"))
  {
  }

  lemma {:induction false} SingleOnlyEntriesWellFormed()
    ensures WellFormedEntry(MenuEntry("remove", "remove"))
    ensures WellFormedEntry(MenuEntry("update-pw", "update password"))
    ensures WellFormedEntry(MenuEntry("new-version", "add new version"))
  {
  }

  // ---------------------------------------------------------------- the "list" branch

  /** Everything fetched so far with the rest appended, or the first failure. */
  function Extend(acc: seq<SecretItem>, r: Result<seq<SecretItem>, Failure>): Result<seq<SecretItem>, Failure>
  {
    match r
    case Err(e) => Err(e)
    case Ok(more) => Ok(acc + more)
  }

  /** The versions of one secret: the items of its version pages, or the fatal error of the
      first failing page. */
  function SecretVersions(dir: Directory, vaultURI: string, secret: SecretItem): Result<seq<SecretItem>, Failure>
  {
    match Items(dir.versionPages(vaultURI, secret.name))
    case None => Err(VersionPagesFailed(secret.name))
    case Some(items) => Ok(items)
  }

  /** The versions of the secrets of one page, in item order. */
  function ItemsVersions(dir: Directory, vaultURI: string, secrets: seq<SecretItem>): Result<seq<SecretItem>, Failure>
  {
    if |secrets| == 0 then Ok([])
    else
      var n := |secrets| - 1;
      var prev := ItemsVersions(dir, vaultURI, secrets[..n]);
      if prev.Err? then prev else Extend(prev.value, SecretVersions(dir, vaultURI, secrets[n]))
  }

  /** The versions of the secrets of a vault, page by page; a failing secret page is fatal. */
  function PagesVersions(dir: Directory, vault: VaultItem, pages: seq<PageResult<SecretItem>>): Result<seq<SecretItem>, Failure>
  {
    if |pages| == 0 then Ok([])
    else
      var n := |pages| - 1;
      var prev := PagesVersions(dir, vault, pages[..n]);
      if prev.Err? then prev
      else if pages[n].PageFailure? then Err(SecretPagesFailed(vault.id))
      else Extend(prev.value, ItemsVersions(dir, vault.vaultURI, pages[n].items))
  }

  function VaultVersions(dir: Directory, vault: VaultItem): Result<seq<SecretItem>, Failure>
  {
    PagesVersions(dir, vault, dir.secretPages(vault.vaultURI))
  }

  /** What the "list" branch accumulates: vault by vault, secret page by secret page,
      secret by secret, version page by version page, item by item. */
  function AllVersions(dir: Directory, vaults: seq<VaultItem>): Result<seq<SecretItem>, Failure>
  {
    if |vaults| == 0 then Ok([])
    else
      var n := |vaults| - 1;
      var prev := AllVersions(dir, vaults[..n]);
      if prev.Err? then prev else Extend(prev.value, VaultVersions(dir, vaults[n]))
  }

  lemma {:induction false} ExtendAssoc(acc: seq<SecretItem>, prev: seq<SecretItem>, r: Result<seq<SecretItem>, Failure>)
    ensures Extend(acc, if r.Err? then r else Ok(prev + r.value)) == Extend(acc + prev, r)
  {
    if r.Ok? {
      Seqs.AppendAssoc(acc, prev, r.value);
    }
  }

  /** The version pager loop of one secret, appending each item of each page. */
  method AppendSecretVersions(dir: Directory, vaultURI: string, secret: SecretItem, acc: seq<SecretItem>)
      returns (r: Result<seq<SecretItem>, Failure>)
    ensures r == Extend(acc, SecretVersions(dir, vaultURI, secret))
  {
    var pages := dir.versionPages(vaultURI, secret.name);
    ghost var items: seq<SecretItem> := [];
    var versions := acc;
    for i := 0 to |pages|
      invariant Items(pages[..i]) == Some(items)
      invariant versions == acc + items
    {
      PageStep(pages, i, items);
      if pages[i].PageFailure? {
        return Err(VersionPagesFailed(secret.name));
      }
      var page := pages[i].items;
      for k := 0 to |page|
        invariant versions == acc + items + page[..k]
      {
        assert page[..k + 1] == page[..k] + [page[k]];
        versions := versions + [page[k]];
      }
      assert page[..|page|] == page;
      Seqs.AppendAssoc(acc, items, page);
      items := items + page;
    }
    assert pages[..|pages|] == pages;
    r := Ok(versions);
  }

  /** The secrets of one page, each with its version pager. */
  method AppendItemsVersions(dir: Directory, vaultURI: string, secrets: seq<SecretItem>, acc: seq<SecretItem>)
      returns (r: Result<seq<SecretItem>, Failure>)
    ensures r == Extend(acc, ItemsVersions(dir, vaultURI, secrets))
  {
    var versions := acc;
    Seqs.AppendEmpty(acc);
    for i := 0 to |secrets|
      invariant Extend(acc, ItemsVersions(dir, vaultURI, secrets[..i])) == Ok(versions)
    {
      assert secrets[..i + 1][..i] == secrets[..i];
      var prev := ItemsVersions(dir, vaultURI, secrets[..i]).value;
      ExtendAssoc(acc, prev, SecretVersions(dir, vaultURI, secrets[i]));
      var next := AppendSecretVersions(dir, vaultURI, secrets[i], versions);
      if next.Err? {
        ItemsVersionsStop(dir, vaultURI, secrets, i + 1);
        return next;
      }
      versions := next.value;
    }
    assert secrets[..|secrets|] == secrets;
    r := Ok(versions);
  }

  /** Once a prefix of the secrets fails, all of them fail the same way. */
  lemma {:induction false} ItemsVersionsStop(dir: Directory, vaultURI: string, secrets: seq<SecretItem>, k: nat)
    requires k <= |secrets| && ItemsVersions(dir, vaultURI, secrets[..k]).Err?
    ensures ItemsVersions(dir, vaultURI, secrets) == ItemsVersions(dir, vaultURI, secrets[..k])
    decreases |secrets| - k
  {
    if k < |secrets| {
      var n := |secrets| - 1;
      assert secrets[..n][..k] == secrets[..k];
      ItemsVersionsStop(dir, vaultURI, secrets[..n], k);
    } else {
      assert secrets[..k] == secrets;
    }
  }

  /** Once a prefix of the pages fails, all of them fail the same way. */
  lemma {:induction false} PagesVersionsStop(dir: Directory, vault: VaultItem, pages: seq<PageResult<SecretItem>>, k: nat)
    requires k <= |pages| && PagesVersions(dir, vault, pages[..k]).Err?
    ensures PagesVersions(dir, vault, pages) == PagesVersions(dir, vault, pages[..k])
    decreases |pages| - k
  {
    if k < |pages| {
      var n := |pages| - 1;
      assert pages[..n][..k] == pages[..k];
      PagesVersionsStop(dir, vault, pages[..n], k);
    } else {
      assert pages[..k] == pages;
    }
  }

  /** Once a prefix of the vaults fails, all of them fail the same way. */
  lemma {:induction false} AllVersionsStop(dir: Directory, vaults: seq<VaultItem>, k: nat)
    requires k <= |vaults| && AllVersions(dir, vaults[..k]).Err?
    ensures AllVersions(dir, vaults) == AllVersions(dir, vaults[..k])
    decreases |vaults| - k
  {
    if k < |vaults| {
      var n := |vaults| - 1;
      assert vaults[..n][..k] == vaults[..k];
      AllVersionsStop(dir, vaults[..n], k);
    } else {
      assert vaults[..k] == vaults;
    }
  }

  /** The secrets pager loop of one vault. */
  method AppendVaultVersions(dir: Directory, vault: VaultItem, acc: seq<SecretItem>)
      returns (r: Result<seq<SecretItem>, Failure>)
    ensures r == Extend(acc, VaultVersions(dir, vault))
  {
    var pages := dir.secretPages(vault.vaultURI);
    var versions := acc;
    Seqs.AppendEmpty(acc);
    for i := 0 to |pages|
      invariant Extend(acc, PagesVersions(dir, vault, pages[..i])) == Ok(versions)
    {
      assert pages[..i + 1][..i] == pages[..i];
      if pages[i].PageFailure? {
        PagesVersionsStop(dir, vault, pages, i + 1);
        return Err(SecretPagesFailed(vault.id));
      }
      var prev := PagesVersions(dir, vault, pages[..i]).value;
      ExtendAssoc(acc, prev, ItemsVersions(dir, vault.vaultURI, pages[i].items));
      var next := AppendItemsVersions(dir, vault.vaultURI, pages[i].items, versions);
      if next.Err? {
        PagesVersionsStop(dir, vault, pages, i + 1);
        return next;
      }
      versions := next.value;
    }
    assert pages[..|pages|] == pages;
    r := Ok(versions);
  }

  /** The loop over the picked vaults of the "list" branch. */
  method CollectVersions(dir: Directory, vaults: seq<VaultItem>) returns (r: Result<seq<SecretItem>, Failure>)
    ensures r == AllVersions(dir, vaults)
  {
    var versions: seq<SecretItem> := [];
    for i := 0 to |vaults|
      invariant AllVersions(dir, vaults[..i]) == Ok(versions)
    {
      assert vaults[..i + 1][..i] == vaults[..i];
      var next := AppendVaultVersions(dir, vaults[i], versions);
      if next.Err? {
        AllVersionsStop(dir, vaults, i + 1);
        return next;
      }
      versions := next.value;
    }
    assert vaults[..|vaults|] == vaults;
    r := Ok(versions);
  }

  /** Vault order: the versions for two runs of vaults are those of the first run followed
      by those of the second, and the first failure is reported. */
  lemma {:induction false} AllVersionsAppend(dir: Directory, a: seq<VaultItem>, b: seq<VaultItem>)
    ensures AllVersions(dir, a + b) ==
      if AllVersions(dir, a).Err? then AllVersions(dir, a)
      else Extend(AllVersions(dir, a).value, AllVersions(dir, b))
  {
    if |b| == 0 {
      assert a + b == a;
      if AllVersions(dir, a).Ok? {
        Seqs.AppendEmpty(AllVersions(dir, a).value);
      }
    } else {
      var n := |b| - 1;
      assert (a + b)[..|a| + n] == a + b[..n];
      AllVersionsAppend(dir, a, b[..n]);
      var ab := AllVersions(dir, a + b[..n]);
      if AllVersions(dir, a).Ok? && AllVersions(dir, b[..n]).Ok? {
        ExtendAssoc(AllVersions(dir, a).value, AllVersions(dir, b[..n]).value, VaultVersions(dir, b[n]));
      }
    }
  }

  /** Page order within a vault, in the same form. */
  lemma {:induction false} PagesVersionsAppend(dir: Directory, vault: VaultItem, a: seq<PageResult<SecretItem>>, b: seq<PageResult<SecretItem>>)
    ensures PagesVersions(dir, vault, a + b) ==
      if PagesVersions(dir, vault, a).Err? then PagesVersions(dir, vault, a)
      else Extend(PagesVersions(dir, vault, a).value, PagesVersions(dir, vault, b))
  {
    if |b| == 0 {
      assert a + b == a;
      if PagesVersions(dir, vault, a).Ok? {
        Seqs.AppendEmpty(PagesVersions(dir, vault, a).value);
      }
    } else {
      var n := |b| - 1;
      assert (a + b)[..|a| + n] == a + b[..n];
      PagesVersionsAppend(dir, vault, a, b[..n]);
      if PagesVersions(dir, vault, a).Ok? && PagesVersions(dir, vault, b[..n]).Ok? && b[n].Page? {
        ExtendAssoc(PagesVersions(dir, vault, a).value, PagesVersions(dir, vault, b[..n]).value,
          ItemsVersions(dir, vault.vaultURI, b[n].items));
      }
    }
  }

  /** Secret order within a page, in the same form. */
  lemma {:induction false} ItemsVersionsAppend(dir: Directory, vaultURI: string, a: seq<SecretItem>, b: seq<SecretItem>)
    ensures ItemsVersions(dir, vaultURI, a + b) ==
      if ItemsVersions(dir, vaultURI, a).Err? then ItemsVersions(dir, vaultURI, a)
      else Extend(ItemsVersions(dir, vaultURI, a).value, ItemsVersions(dir, vaultURI, b))
  {
    if |b| == 0 {
      assert a + b == a;
      if ItemsVersions(dir, vaultURI, a).Ok? {
        Seqs.AppendEmpty(ItemsVersions(dir, vaultURI, a).value);
      }
    } else {
      var n := |b| - 1;
      assert (a + b)[..|a| + n] == a + b[..n];
      ItemsVersionsAppend(dir, vaultURI, a, b[..n]);
      if ItemsVersions(dir, vaultURI, a).Ok? && ItemsVersions(dir, vaultURI, b[..n]).Ok? {
        ExtendAssoc(ItemsVersions(dir, vaultURI, a).value, ItemsVersions(dir, vaultURI, b[..n]).value,
          SecretVersions(dir, vaultURI, b[n]));
      }
    }
  }

  // ---------------------------------------------------------------- Run

  /** How the four fzf runs of the command end. */
  datatype Picks = Picks(vaults: Launch, operation: Launch, secrets: Launch, keyOperation: Launch)

  /** The per-secret menu shown and what was picked from it (the picked keys are printed). */
  datatype KeyMenu = NoKeyMenu | KeyMenuShown(entries: seq<MenuEntry>, picked: seq<string>)

  /** How Run ends: an exit status, or a normal return after offering `offered` as the
      secrets table (empty outside the "list" branch). */
  datatype RunOutcome = Exit(code: int) | Done(offered: seq<SecretItem>, keyMenu: KeyMenu)

  /** The key menu for a number of picked secrets. */
  function KeyMenuFor(count: nat): seq<MenuEntry>
  {
    if count == 1 then SingleSecretMenu() else MultiSecretMenu()
  }

  /** The "list" branch after the versions are gathered. */
  function ListTail(versions: seq<SecretItem>, picks: Picks): RunOutcome
  {
    match OrExit(AsfFzf.SelectSentinel(picks.secrets, 2, "\t"))
    case Err(code) => Exit(code)
    case Ok(secrets) =>
      match OrExit(AsfFzf.SelectSentinel(picks.keyOperation, 1, "\t"))
      case Err(code) => Exit(code)
      case Ok(key) => Done(versions, KeyMenuShown(KeyMenuFor(|secrets|), key))
  }

  /** Run, from the listing and the four picks to its outcome. */
  function RunOf(dir: Directory, picks: Picks): RunOutcome
  {
    match AsfVaults.ListedItems(dir.vaultPages)
    case Err(_) => Exit(1)
    case Ok(vaults) =>
      match OrExit(AsfFzf.SelectSentinel(picks.vaults, 1, "\t"))
      case Err(code) => Exit(code)
      case Ok(ids) =>
        var selected := AsfVaults.Filtered(vaults, ids);
        match OrExit(AsfFzf.SelectSentinel(picks.operation, 1, "\t"))
        case Err(code) => Exit(code)
        case Ok(operation) =>
          ExitCodes(picks.operation, 1, "\t");
          if operation[0] != "list" then Done([], NoKeyMenu)
          else
            match AllVersions(dir, selected)
            case Err(_) => Exit(1)
            case Ok(versions) => ListTail(versions, picks)
  }

  /** The end of the "list" branch: the secrets picker and the key-operation menu, chosen
      by the number of picked secrets. */
  method PickKeyOperation(versions: seq<SecretItem>, picks: Picks) returns (outcome: RunOutcome)
    ensures outcome == ListTail(versions, picks)
  {
    var selectedSecrets := FzfSelectOrExit(picks.secrets, 2, "\t");
    if selectedSecrets.Err? {
      return Exit(selectedSecrets.error);
    }
    ExitCodes(picks.secrets, 2, "\t");
    outcome := Done(versions, NoKeyMenu);
    if |selectedSecrets.value| == 1 {
      var selectedKeyOperation := FzfSelectOrExit(picks.keyOperation, 1, "\t");
      if selectedKeyOperation.Err? {
        return Exit(selectedKeyOperation.error);
      }
      outcome := Done(versions, KeyMenuShown(SingleSecretMenu(), selectedKeyOperation.value));
    }
    if |selectedSecrets.value| > 1 {
      var selectedKeyOperation := FzfSelectOrExit(picks.keyOperation, 1, "\t");
      if selectedKeyOperation.Err? {
        return Exit(selectedKeyOperation.error);
      }
      outcome := Done(versions, KeyMenuShown(MultiSecretMenu(), selectedKeyOperation.value));
    }
  }

  /** Run. */
  method Run(dir: Directory, picks: Picks) returns (outcome: RunOutcome)
    ensures outcome == RunOf(dir, picks)
  {
    var vaults := AsfVaults.ListedItems(dir.vaultPages);
    if vaults.Err? {
      return Exit(1);
    }
    var selectedVaultIDs := FzfSelectOrExit(picks.vaults, 1, "\t");
    if selectedVaultIDs.Err? {
      return Exit(selectedVaultIDs.error);
    }
    var selectedVaults := AsfVaults.FilterVaults(vaults.value, selectedVaultIDs.value);
    var selectedOperation := FzfSelectOrExit(picks.operation, 1, "\t");
    if selectedOperation.Err? {
      return Exit(selectedOperation.error);
    }
    ExitCodes(picks.operation, 1, "\t");
    if selectedOperation.value[0] != "list" {
      return Done([], NoKeyMenu);
    }
    var versions := CollectVersions(dir, selectedVaults);
    if versions.Err? {
      return Exit(1);
    }
    outcome := PickKeyOperation(versions.value, picks);
  }

  // ---------------------------------------------------------------- properties of Run

  /** Run exits only with 0 or 1. */
  lemma {:induction false} ExitStatuses(dir: Directory, picks: Picks)
    ensures RunOf(dir, picks).Exit? ==> RunOf(dir, picks).code == 0 || RunOf(dir, picks).code == 1
  {
    ExitCodes(picks.vaults, 1, "\t");
    ExitCodes(picks.operation, 1, "\t");
    ExitCodes(picks.secrets, 2, "\t");
    ExitCodes(picks.keyOperation, 1, "\t");
  }

  /** A per-secret menu is shown only in the "list" branch: exactly one picked secret gets
      the five-entry menu, more than one the two-entry menu, and the offered table is every
      version of the picked vaults. */
  lemma {:induction false} KeyMenuByCount(dir: Directory, picks: Picks)
    requires RunOf(dir, picks).Done? && RunOf(dir, picks).keyMenu.KeyMenuShown?
    ensures var vaults := AsfVaults.ListedItems(dir.vaultPages).value;
      var ids := AsfFzf.SelectSentinel(picks.vaults, 1, "\t").value;
      var operation := AsfFzf.SelectSentinel(picks.operation, 1, "\t").value;
      var secrets := AsfFzf.SelectSentinel(picks.secrets, 2, "\t").value;
      AsfVaults.ListedItems(dir.vaultPages).Ok? &&
      AsfFzf.SelectSentinel(picks.vaults, 1, "\t").Ok? &&
      AsfFzf.SelectSentinel(picks.operation, 1, "\t").Ok? && |operation| > 0 && operation[0] == "list" &&
      AsfFzf.SelectSentinel(picks.secrets, 2, "\t").Ok? && |secrets| > 0 &&
      AllVersions(dir, AsfVaults.Filtered(vaults, ids)) == Ok(RunOf(dir, picks).offered) &&
      (|secrets| == 1 ==> RunOf(dir, picks).keyMenu.entries == SingleSecretMenu()) &&
      (|secrets| > 1 ==> RunOf(dir, picks).keyMenu.entries == MultiSecretMenu())
  {
    ExitCodes(picks.vaults, 1, "\t");
    ExitCodes(picks.operation, 1, "\t");
    ExitCodes(picks.secrets, 2, "\t");
  }

  /** Any operation other than "list" ends the command without listing secrets. */
  lemma {:induction false} OtherOperationEnds(dir: Directory, picks: Picks)
    requires AsfVaults.ListedItems(dir.vaultPages).Ok?
    requires AsfFzf.SelectSentinel(picks.vaults, 1, "\t").Ok?
    requires AsfFzf.SelectSentinel(picks.operation, 1, "\t").Ok?
    requires AsfFzf.SelectSentinel(picks.operation, 1, "\t").value[0] != "list"
    ensures RunOf(dir, picks) == Done([], NoKeyMenu)
  {
    ExitCodes(picks.operation, 1, "\t");
  }

  /** Picking "add" from the operation menu ends the command there; picking "list" lists. */
  lemma {:induction false} OperationMenuChoice(dir: Directory, picks: Picks, index: nat)
    requires index < 2
    requires picks.operation == Finished(Join(PickedLines(OperationMenu(), [index]), "\n"), Succeeded)
    requires AsfVaults.ListedItems(dir.vaultPages).Ok? && AsfFzf.SelectSentinel(picks.vaults, 1, "\t").Ok?
    ensures index == 1 ==> RunOf(dir, picks) == Done([], NoKeyMenu)
    ensures index == 0 ==> RunOf(dir, picks).Exit? || RunOf(dir, picks).keyMenu.KeyMenuShown?
  {
    OperationMenuWellFormed();
    PickedMenuKeys(OperationMenu(), [index]);
    ExitCodes(picks.vaults, 1, "\t");
    ExitCodes(picks.secrets, 2, "\t");
    ExitCodes(picks.keyOperation, 1, "\t");
  }
}
