/** The secret stages (internal/secret.go): listing every secret of the selected vaults,
    expanding secrets into their versions, fetching values, and the picker line and
    reverse matching of a secret. Each stage's output channel is modelled as the sequence
    it carries, or the failure that ends the process. */
module Secrets {
  import opened Base
  import opened Text
  import opened Remote
  import opened Vaults
  import opened Selection
  import Seqs

  /** A secret, or one version of it. `value` is "" until fetched. The per-vault SDK client
      it carries is identified by `vault.vaultURI`; ContentType and Managed are never set. */
  datatype Secret = Secret(
    id: string, name: string, version: string, value: string,
    tags: map<string, string>, vault: Vault, enabled: bool, created: string)

  /** The version recorded for a listed secret whose ID names no version. */
  const Latest: string := "latest"

  /** The composite ID "<vault ID>.<name>.<version>". */
  function SecretId(vaultID: string, name: string, version: string): string
  {
    vaultID + "." + name + "." + version
  }

  function IdOf(s: Secret): string { s.id }

  /** The ID of a secret is the composite of its own vault ID, name and version. */
  predicate WellFormed(s: Secret)
  {
    s.id == SecretId(s.vault.id, s.name, s.version)
  }

  /** The secret built from an item of a vault's secret listing (GetSecrets). */
  function Listed(vault: Vault, item: SecretItem): Secret
  {
    var version := if |item.version| == 0 then Latest else item.version;
    Secret(SecretId(vault.id, item.name, version), item.name, version, "", NonNilTags(item.tags),
           vault, item.enabled, item.created)
  }

  /** The secret built from an item of a secret's version listing (GetVersions). */
  function ListedVersion(vault: Vault, item: SecretItem): Secret
  {
    Secret(SecretId(vault.id, item.name, item.version), item.name, item.version, "", NonNilTags(item.tags),
           vault, item.enabled, item.created)
  }

  /** One secret per item of a vault's secret listing, in listing order. */
  function ListedSecrets(vault: Vault, items: seq<SecretItem>): (r: seq<Secret>)
    ensures |r| == |items| && forall i :: 0 <= i < |items| ==> r[i] == Listed(vault, items[i])
  {
    if |items| == 0 then []
    else ListedSecrets(vault, items[..|items| - 1]) + [Listed(vault, items[|items| - 1])]
  }

  /** One secret per item of a version listing, in listing order. */
  function ListedVersions(vault: Vault, items: seq<SecretItem>): (r: seq<Secret>)
    ensures |r| == |items| && forall i :: 0 <= i < |items| ==> r[i] == ListedVersion(vault, items[i])
  {
    if |items| == 0 then []
    else ListedVersions(vault, items[..|items| - 1]) + [ListedVersion(vault, items[|items| - 1])]
  }

  // ---------------------------------------------------------------- GetSecrets

  /** What GetSecrets carries for these vaults: the secrets of each vault in vault order
      and listing order, or the failure of the first vault whose listing fails. */
  function SecretsOf(dir: Directory, vaults: seq<Vault>): Result<seq<Secret>, Failure>
  {
    if |vaults| == 0 then Ok([])
    else
      var n := |vaults| - 1;
      match SecretsOf(dir, vaults[..n])
      case Err(f) => Err(f)
      case Ok(prev) =>
        match Items(dir.secretPages(vaults[n].vaultURI))
        case None => Err(SecretPagesFailed(vaults[n].id))
        case Some(items) => Ok(prev + ListedSecrets(vaults[n], items))
  }

  /** The NextPage calls GetSecrets makes before it ends or fails. */
  function SecretPagesRead(dir: Directory, vaults: seq<Vault>): nat
  {
    if |vaults| == 0 then 0
    else
      var n := |vaults| - 1;
      if SecretsOf(dir, vaults[..n]).Err? then SecretPagesRead(dir, vaults[..n])
      else SecretPagesRead(dir, vaults[..n]) + PagesRead(dir.secretPages(vaults[n].vaultURI))
  }

  /** Once a vault's listing has failed, later vaults are neither listed nor reported. */
  lemma {:induction false} SecretsOfStops(dir: Directory, vaults: seq<Vault>, k: nat)
    requires k <= |vaults| && SecretsOf(dir, vaults[..k]).Err?
    ensures SecretsOf(dir, vaults) == SecretsOf(dir, vaults[..k])
    ensures SecretPagesRead(dir, vaults) == SecretPagesRead(dir, vaults[..k])
    decreases |vaults| - k
  {
    if k < |vaults| {
      var n := |vaults| - 1;
      assert vaults[..n][..k] == vaults[..k];
      SecretsOfStops(dir, vaults[..n], k);
    } else {
      assert vaults[..k] == vaults;
    }
  }

  /** The conversion loop of GetSecrets for one page run of a vault. */
  method ListVault(vault: Vault, items: seq<SecretItem>) returns (out: seq<Secret>)
    ensures out == ListedSecrets(vault, items)
  {
    out := [];
    for i := 0 to |items|
      invariant out == ListedSecrets(vault, items[..i])
    {
      assert items[..i + 1][..i] == items[..i];
      var item := items[i];
      var version := item.version;
      if |version| == 0 {
        version := Latest;
      }
      var tags := CopyTags(item.tags);
      out := out + [Secret(SecretId(vault.id, item.name, version), item.name, version, "", tags,
                           vault, item.enabled, item.created)];
    }
  }

  /** GetSecrets: list the secrets of each vault in turn. */
  method GetSecrets(dir: Directory, vaults: seq<Vault>) returns (r: Result<seq<Secret>, Failure>)
    modifies dir`pagesFetched
    ensures r == SecretsOf(dir, vaults)
    ensures dir.pagesFetched == old(dir.pagesFetched) + SecretPagesRead(dir, vaults)
  {
    var out: seq<Secret> := [];
    for i := 0 to |vaults|
      invariant SecretsOf(dir, vaults[..i]) == Ok(out)
      invariant dir.pagesFetched == old(dir.pagesFetched) + SecretPagesRead(dir, vaults[..i])
    {
      var vault := vaults[i];
      assert vaults[..i + 1][..i] == vaults[..i];
      var items, _ := dir.Drain(dir.secretPages(vault.vaultURI));
      if items.None? {
        SecretsOfStops(dir, vaults, i + 1);
        return Err(SecretPagesFailed(vault.id));
      }
      var listed := ListVault(vault, items.value);
      out := out + listed;
    }
    assert vaults[..|vaults|] == vaults;
    r := Ok(out);
  }

  /** Every listed secret is well formed, belongs to one of the given vaults, has no value
      yet and a non-empty version ("latest" when the listing gave none). */
  lemma {:induction false} SecretsOfShape(dir: Directory, vaults: seq<Vault>)
    requires SecretsOf(dir, vaults).Ok?
    ensures forall s :: s in SecretsOf(dir, vaults).value ==>
      WellFormed(s) && s.vault in vaults && s.value == "" && |s.version| > 0
  {
    if |vaults| > 0 {
      var n := |vaults| - 1;
      SecretsOfShape(dir, vaults[..n]);
      assert forall v :: v in vaults[..n] ==> v in vaults;
    }
  }

  /** Vault order: the secrets of two runs of vaults are those of the first followed by
      those of the second. */
  lemma {:induction false} SecretsOfAppend(dir: Directory, a: seq<Vault>, b: seq<Vault>)
    requires SecretsOf(dir, a).Ok? && SecretsOf(dir, b).Ok?
    ensures SecretsOf(dir, a + b) == Ok(SecretsOf(dir, a).value + SecretsOf(dir, b).value)
  {
    if |b| == 0 {
      Seqs.AppendEmpty(a);
      Seqs.AppendEmpty(SecretsOf(dir, a).value);
    } else {
      var n := |b| - 1;
      assert (a + b)[..|a| + n] == a + b[..n];
      assert (a + b)[|a| + n] == b[n];
      SecretsOfAppend(dir, a, b[..n]);
      var items := Items(dir.secretPages(b[n].vaultURI)).value;
      var run := ListedSecrets(b[n], items);
      var x, y := SecretsOf(dir, a).value, SecretsOf(dir, b[..n]).value;
      Seqs.AppendAssoc(x, y, run);
    }
  }

  // ---------------------------------------------------------------- GetVersions

  /** What GetVersions carries for one secret: the secret itself when its version is
      "latest", then every listed version of it. */
  function VersionRun(dir: Directory, s: Secret): Result<seq<Secret>, Failure>
  {
    match Items(dir.versionPages(s.vault.vaultURI, s.name))
    case None => Err(VersionPagesFailed(s.name))
    case Some(items) =>
      Ok((if s.version == Latest then [s] else []) +
         ListedVersions(s.vault, items))
  }

  /** What GetVersions carries for these secrets, in input order. */
  function VersionsOf(dir: Directory, secrets: seq<Secret>): Result<seq<Secret>, Failure>
  {
    if |secrets| == 0 then Ok([])
    else
      var n := |secrets| - 1;
      match VersionsOf(dir, secrets[..n])
      case Err(f) => Err(f)
      case Ok(prev) =>
        match VersionRun(dir, secrets[n])
        case Err(f) => Err(f)
        case Ok(run) => Ok(prev + run)
  }

  /** The NextPage calls GetVersions makes before it ends or fails. */
  function VersionPagesRead(dir: Directory, secrets: seq<Secret>): nat
  {
    if |secrets| == 0 then 0
    else
      var n := |secrets| - 1;
      if VersionsOf(dir, secrets[..n]).Err? then VersionPagesRead(dir, secrets[..n])
      else VersionPagesRead(dir, secrets[..n]) + PagesRead(dir.versionPages(secrets[n].vault.vaultURI, secrets[n].name))
  }

  /** What GetVersions hands over for one secret before it ends: the secret itself when its
      version is "latest", then the versions on every page before a failing one. */
  function RunSent(dir: Directory, s: Secret): seq<Secret>
  {
    (if s.version == Latest then [s] else []) + ListedVersions(s.vault, Delivered(dir.versionPages(s.vault.vaultURI, s.name)))
  }

  /** What GetVersions hands over on its channel, in order, before it closes the channel or
      ends the process at a failing page. */
  function VersionsSent(dir: Directory, secrets: seq<Secret>): seq<Secret>
  {
    if |secrets| == 0 then []
    else
      var n := |secrets| - 1;
      if VersionsOf(dir, secrets[..n]).Err? then VersionsSent(dir, secrets[..n])
      else VersionsSent(dir, secrets[..n]) + RunSent(dir, secrets[n])
  }

  /** A version stage that does not fail hands over exactly what it carries. */
  lemma {:induction false} VersionsSentOk(dir: Directory, secrets: seq<Secret>)
    requires VersionsOf(dir, secrets).Ok?
    ensures VersionsSent(dir, secrets) == VersionsOf(dir, secrets).value
  {
    if |secrets| > 0 {
      var n := |secrets| - 1;
      VersionsSentOk(dir, secrets[..n]);
    }
  }

  /** A "latest" input is handed over before its version listing is read, so it is sent
      even when the first of its version pages fails. */
  lemma {:induction false} LatestSentBeforeFailure(dir: Directory, s: Secret)
    requires s.version == Latest
    requires |dir.versionPages(s.vault.vaultURI, s.name)| > 0 && dir.versionPages(s.vault.vaultURI, s.name)[0].PageFailure?
    ensures VersionsOf(dir, [s]) == Err(VersionPagesFailed(s.name))
    ensures VersionsSent(dir, [s]) == [s]
  {
    assert [s][..0] == [];
    assert Delivered(dir.versionPages(s.vault.vaultURI, s.name)) == [];
  }

  lemma {:induction false} VersionsOfStops(dir: Directory, secrets: seq<Secret>, k: nat)
    requires k <= |secrets| && VersionsOf(dir, secrets[..k]).Err?
    ensures VersionsOf(dir, secrets) == VersionsOf(dir, secrets[..k])
    ensures VersionPagesRead(dir, secrets) == VersionPagesRead(dir, secrets[..k])
    ensures VersionsSent(dir, secrets) == VersionsSent(dir, secrets[..k])
    decreases |secrets| - k
  {
    if k < |secrets| {
      var n := |secrets| - 1;
      assert secrets[..n][..k] == secrets[..k];
      VersionsOfStops(dir, secrets[..n], k);
    } else {
      assert secrets[..k] == secrets;
    }
  }

  /** The conversion loop of GetVersions for one secret's version listing. */
  method ListVersions(vault: Vault, items: seq<SecretItem>) returns (out: seq<Secret>)
    ensures out == ListedVersions(vault, items)
  {
    out := [];
    for i := 0 to |items|
      invariant out == ListedVersions(vault, items[..i])
    {
      assert items[..i + 1][..i] == items[..i];
      var item := items[i];
      var tags := CopyTags(item.tags);
      out := out + [Secret(SecretId(vault.id, item.name, item.version), item.name, item.version, "", tags,
                           vault, item.enabled, item.created)];
    }
  }

  /** GetVersions: re-emit each "latest" secret, then list all of its versions. Beside what
      the stage carries, `sent` is what it has handed over, up to a failing page. */
  method GetVersions(dir: Directory, secrets: seq<Secret>) returns (r: Result<seq<Secret>, Failure>, sent: seq<Secret>)
    modifies dir`pagesFetched
    ensures r == VersionsOf(dir, secrets)
    ensures sent == VersionsSent(dir, secrets)
    ensures dir.pagesFetched == old(dir.pagesFetched) + VersionPagesRead(dir, secrets)
  {
    var out: seq<Secret> := [];
    for i := 0 to |secrets|
      invariant VersionsOf(dir, secrets[..i]) == Ok(out)
      invariant VersionsSent(dir, secrets[..i]) == out
      invariant dir.pagesFetched == old(dir.pagesFetched) + VersionPagesRead(dir, secrets[..i])
    {
      var secret := secrets[i];
      assert secrets[..i + 1][..i] == secrets[..i];
      var run: seq<Secret> := [];
      if secret.version == Latest {
        run := [secret];
      }
      var items, delivered := dir.Drain(dir.versionPages(secret.vault.vaultURI, secret.name));
      if items.None? {
        VersionsOfStops(dir, secrets, i + 1);
        var partial := ListVersions(secret.vault, delivered);
        return Err(VersionPagesFailed(secret.name)), out + (run + partial);
      }
      var listed := ListVersions(secret.vault, items.value);
      out := out + (run + listed);
    }
    assert secrets[..|secrets|] == secrets;
    r, sent := Ok(out), out;
  }

  /** Every "latest" input is re-emitted by the version stage. */
  lemma {:induction false} VersionsKeepLatest(dir: Directory, secrets: seq<Secret>)
    requires VersionsOf(dir, secrets).Ok?
    ensures forall s :: s in secrets && s.version == Latest ==> s in VersionsOf(dir, secrets).value
  {
    if |secrets| > 0 {
      var n := |secrets| - 1;
      VersionsKeepLatest(dir, secrets[..n]);
      assert secrets == secrets[..n] + [secrets[n]];
      var prev, run := VersionsOf(dir, secrets[..n]).value, VersionRun(dir, secrets[n]).value;
      assert VersionsOf(dir, secrets).value == prev + run;
      if secrets[n].version == Latest {
        assert run[0] == secrets[n];
      }
    }
  }

  /** An output of the version stage that carries a value is a re-emitted "latest" input:
      listed versions have no value yet. */
  lemma {:induction false} VersionsValuesFromInput(dir: Directory, secrets: seq<Secret>)
    requires VersionsOf(dir, secrets).Ok?
    ensures forall x :: x in VersionsOf(dir, secrets).value && x.value != "" ==> x in secrets && x.version == Latest
  {
    if |secrets| > 0 {
      var n := |secrets| - 1;
      VersionsValuesFromInput(dir, secrets[..n]);
      assert secrets == secrets[..n] + [secrets[n]];
      var prev, run := VersionsOf(dir, secrets[..n]).value, VersionRun(dir, secrets[n]).value;
      assert VersionsOf(dir, secrets).value == prev + run;
      VersionRunValues(dir, secrets[n]);
    }
  }

  lemma {:induction false} VersionRunValues(dir: Directory, s: Secret)
    requires VersionRun(dir, s).Ok?
    ensures forall x :: x in VersionRun(dir, s).value && x.value != "" ==> x == s && s.version == Latest
  {
    var items := Items(dir.versionPages(s.vault.vaultURI, s.name)).value;
    var listed := ListedVersions(s.vault, items);
    assert forall x :: x in listed ==> x.value == "";
  }

  /** Versions of well-formed secrets are well formed. */
  lemma {:induction false} VersionsWellFormed(dir: Directory, secrets: seq<Secret>)
    requires VersionsOf(dir, secrets).Ok?
    requires forall s :: s in secrets ==> WellFormed(s)
    ensures forall x :: x in VersionsOf(dir, secrets).value ==> WellFormed(x)
  {
    if |secrets| > 0 {
      var n := |secrets| - 1;
      assert forall s :: s in secrets[..n] ==> s in secrets;
      VersionsWellFormed(dir, secrets[..n]);
      var prev, run := VersionsOf(dir, secrets[..n]).value, VersionRun(dir, secrets[n]).value;
      assert VersionsOf(dir, secrets).value == prev + run;
      assert WellFormed(secrets[n]);
    }
  }

  // ---------------------------------------------------------------- GetSecretPasswords

  /** The version asked for when fetching a value: "latest" means the current version. */
  function FetchVersion(version: string): string
  {
    if version == Latest then "" else version
  }

  /** The GetSecret call made for a secret without a value. */
  function RequestFor(s: Secret): ValueRequest
  {
    ValueRequest(s.vault.vaultURI, s.name, FetchVersion(s.version))
  }

  /** One secret after the value stage: unchanged when it already has a value, otherwise
      with the fetched value. */
  function WithValue(dir: Directory, s: Secret): Result<Secret, Failure>
  {
    if s.value != "" then Ok(s)
    else
      match dir.secretValues(RequestFor(s))
      case None => Err(ValueFetchFailed(s.name))
      case Some(v) => Ok(s.(value := v))
  }

  /** What GetSecretPasswords carries for these secrets, in input order. */
  function PasswordsOf(dir: Directory, secrets: seq<Secret>): Result<seq<Secret>, Failure>
  {
    if |secrets| == 0 then Ok([])
    else
      var n := |secrets| - 1;
      match PasswordsOf(dir, secrets[..n])
      case Err(f) => Err(f)
      case Ok(prev) =>
        match WithValue(dir, secrets[n])
        case Err(f) => Err(f)
        case Ok(s) => Ok(prev + [s])
  }

  /** The GetSecret calls the stage makes, in order, up to and including a failing one. */
  function RequestsOf(dir: Directory, secrets: seq<Secret>): seq<ValueRequest>
  {
    if |secrets| == 0 then []
    else
      var n := |secrets| - 1;
      if PasswordsOf(dir, secrets[..n]).Err? then RequestsOf(dir, secrets[..n])
      else RequestsOf(dir, secrets[..n]) + (if secrets[n].value == "" then [RequestFor(secrets[n])] else [])
  }

  lemma {:induction false} PasswordsOfStops(dir: Directory, secrets: seq<Secret>, k: nat)
    requires k <= |secrets| && PasswordsOf(dir, secrets[..k]).Err?
    ensures PasswordsOf(dir, secrets) == PasswordsOf(dir, secrets[..k])
    ensures RequestsOf(dir, secrets) == RequestsOf(dir, secrets[..k])
    decreases |secrets| - k
  {
    if k < |secrets| {
      var n := |secrets| - 1;
      assert secrets[..n][..k] == secrets[..k];
      PasswordsOfStops(dir, secrets[..n], k);
    } else {
      assert secrets[..k] == secrets;
    }
  }

  /** GetSecretPasswords: fetch the value of every secret that has none. */
  method GetSecretPasswords(dir: Directory, secrets: seq<Secret>) returns (r: Result<seq<Secret>, Failure>)
    modifies dir`valueRequests
    ensures r == PasswordsOf(dir, secrets)
    ensures dir.valueRequests == old(dir.valueRequests) + RequestsOf(dir, secrets)
  {
    var out: seq<Secret> := [];
    for i := 0 to |secrets|
      invariant PasswordsOf(dir, secrets[..i]) == Ok(out)
      invariant dir.valueRequests == old(dir.valueRequests) + RequestsOf(dir, secrets[..i])
    {
      var secret := secrets[i];
      PasswordsSnoc(dir, secrets, i);
      var version := secret.version;
      if version == Latest {
        version := "";
      }
      if secret.value == "" {
        assert ValueRequest(secret.vault.vaultURI, secret.name, version) == RequestFor(secret);
        var value := dir.GetSecret(ValueRequest(secret.vault.vaultURI, secret.name, version));
        if value.None? {
          PasswordsOfStops(dir, secrets, i + 1);
          return Err(ValueFetchFailed(secret.name));
        }
        secret := secret.(value := value.value);
      }
      assert WithValue(dir, secrets[i]) == Ok(secret);
      assert dir.valueRequests == old(dir.valueRequests) + RequestsOf(dir, secrets[..i + 1]);
      out := out + [secret];
    }
    assert secrets[..|secrets|] == secrets;
    r := Ok(out);
  }

  /** One more secret for the value stage: its request is logged when it has no value, and
      the stage carries it with its value or fails. */
  lemma {:induction false} PasswordsSnoc(dir: Directory, secrets: seq<Secret>, i: nat)
    requires i < |secrets| && PasswordsOf(dir, secrets[..i]).Ok?
    ensures WithValue(dir, secrets[i]).Err? ==>
      PasswordsOf(dir, secrets[..i + 1]) == Err(WithValue(dir, secrets[i]).error)
    ensures WithValue(dir, secrets[i]).Ok? ==>
      PasswordsOf(dir, secrets[..i + 1]) == Ok(PasswordsOf(dir, secrets[..i]).value + [WithValue(dir, secrets[i]).value])
    ensures RequestsOf(dir, secrets[..i + 1]) ==
      RequestsOf(dir, secrets[..i]) + (if secrets[i].value == "" then [RequestFor(secrets[i])] else [])
  {
    assert secrets[..i + 1][..i] == secrets[..i];
  }

  /** GetSecretPasswordsStream: the same stage reading from another stage's channel, given
      as the secrets handed over and the failure that ended the sender (None when it closed
      the channel). Every secret handed over is processed in turn; the sender's failure
      ends the process after that, unless a fetch here has failed first. */
  method GetSecretPasswordsStream(dir: Directory, sent: seq<Secret>, failure: Option<Failure>)
    returns (r: Result<seq<Secret>, Failure>)
    modifies dir`valueRequests
    ensures failure.None? ==> r == PasswordsOf(dir, sent)
    ensures failure.Some? ==> r == if PasswordsOf(dir, sent).Err? then PasswordsOf(dir, sent) else Err(failure.value)
    ensures dir.valueRequests == old(dir.valueRequests) + RequestsOf(dir, sent)
  {
    r := GetSecretPasswords(dir, sent);
    if r.Ok? && failure.Some? {
      r := Err(failure.value);
    }
  }

  /** Values are filled in place: one output per input, same order, only the value may
      change, and only where it was empty. */
  lemma {:induction false} PasswordsOfShape(dir: Directory, secrets: seq<Secret>)
    requires PasswordsOf(dir, secrets).Ok?
    ensures var out := PasswordsOf(dir, secrets).value;
      |out| == |secrets| &&
      forall i :: 0 <= i < |secrets| ==>
        out[i] == secrets[i].(value := out[i].value) && (secrets[i].value != "" ==> out[i] == secrets[i])
  {
    if |secrets| > 0 {
      var n := |secrets| - 1;
      PasswordsOfShape(dir, secrets[..n]);
    }
  }

  /** How many secrets of `secrets` have no value. */
  function CountUnfetched(secrets: seq<Secret>): nat
  {
    if |secrets| == 0 then 0
    else CountUnfetched(secrets[..|secrets| - 1]) + (if secrets[|secrets| - 1].value == "" then 1 else 0)
  }

  /** A successful run makes exactly one GetSecret call per secret without a value, and
      asks for the current version of a "latest" secret. */
  lemma {:induction false} RequestsOfCount(dir: Directory, secrets: seq<Secret>)
    requires PasswordsOf(dir, secrets).Ok?
    ensures |RequestsOf(dir, secrets)| == CountUnfetched(secrets)
    ensures forall q :: q in RequestsOf(dir, secrets) ==> q.version != Latest
  {
    if |secrets| > 0 {
      var n := |secrets| - 1;
      RequestsOfCount(dir, secrets[..n]);
    }
  }

  /** Running the value stage again on its own output makes no call and changes nothing
      exactly when every fetched value is non-empty; a secret whose stored value is empty
      is fetched again. */
  lemma {:induction false} PasswordsSecondPass(dir: Directory, secrets: seq<Secret>)
    requires PasswordsOf(dir, secrets).Ok?
    ensures var out := PasswordsOf(dir, secrets).value;
      (RequestsOf(dir, out) == [] <==> forall i :: 0 <= i < |out| ==> out[i].value != "")
    ensures var out := PasswordsOf(dir, secrets).value;
      (forall i :: 0 <= i < |out| ==> out[i].value != "") ==> PasswordsOf(dir, out) == Ok(out)
  {
    var out := PasswordsOf(dir, secrets).value;
    FilledFixed(dir, out);
  }

  lemma {:induction false} FilledFixed(dir: Directory, out: seq<Secret>)
    ensures (forall i :: 0 <= i < |out| ==> out[i].value != "") ==> PasswordsOf(dir, out) == Ok(out) && RequestsOf(dir, out) == []
    ensures (exists i :: 0 <= i < |out| && out[i].value == "") ==> |RequestsOf(dir, out)| > 0
  {
    if |out| > 0 {
      var n := |out| - 1;
      FilledFixed(dir, out[..n]);
      assert out[..n] + [out[n]] == out;
      if exists i :: 0 <= i < |out| && out[i].value == "" {
        var i :| 0 <= i < |out| && out[i].value == "";
        if PasswordsOf(dir, out[..n]).Err? {
          RequestsNonEmptyAfterFailure(dir, out[..n]);
        } else if i < n {
          assert out[..n][i].value == "";
        }
      }
    }
  }

  /** A failed prefix has already made at least one call. */
  lemma {:induction false} RequestsNonEmptyAfterFailure(dir: Directory, secrets: seq<Secret>)
    requires PasswordsOf(dir, secrets).Err?
    ensures |RequestsOf(dir, secrets)| > 0
  {
    var n := |secrets| - 1;
    if PasswordsOf(dir, secrets[..n]).Err? {
      RequestsNonEmptyAfterFailure(dir, secrets[..n]);
    }
  }

  // ---------------------------------------------------------------- IDs and lines

  /** The character at offset `i` after the dot of `p + "." + q` (the dot itself for -1). */
  lemma {:induction false} CharAfterDot(p: string, q: string, i: int)
    requires -1 <= i < |q|
    ensures (p + "." + q)[|p| + 1 + i] == if i == -1 then '.' else q[i]
  {
  }

  lemma {:induction false} LastDot(p1: string, q1: string, p2: string, q2: string)
    requires p1 + "." + q1 == p2 + "." + q2
    requires '.' !in q1 && '.' !in q2
    ensures p1 == p2 && q1 == q2
  {
    var s := p1 + "." + q1;
    if |q1| < |q2| {
      CharAfterDot(p2, q2, |p1| - |p2| - 1);
      CharAfterDot(p1, q1, -1);
      assert false;
    } else if |q2| < |q1| {
      CharAfterDot(p1, q1, |p2| - |p1| - 1);
      CharAfterDot(p2, q2, -1);
      assert false;
    }
    assert q1 == s[|s| - |q1|..] == q2;
    assert p1 == s[..|p1|] == p2;
  }

  /** The composite ID determines vault ID, name and version when names and versions
      contain no dot (Key Vault names and versions never do). */
  lemma {:induction false} SecretIdInjective(a1: string, n1: string, v1: string, a2: string, n2: string, v2: string)
    requires '.' !in n1 && '.' !in v1 && '.' !in n2 && '.' !in v2
    requires SecretId(a1, n1, v1) == SecretId(a2, n2, v2)
    ensures a1 == a2 && n1 == n2 && v1 == v2
  {
    LastDot(a1 + "." + n1, v1, a2 + "." + n2, v2);
    LastDot(a1, n1, a2, n2);
  }

  /** An empty value is shown masked. */
  function Masked(value: string): (shown: string)
    ensures |shown| > 0
    ensures value != "" ==> shown == value
  {
    if value == "" then "******" else value
  }

  /** Secret.FormatFZF: the ID, the delimiter, then name, masked value, version, vault name,
      tags, creation time and enabled flag joined by the visual separator. */
  function FormatFZF(s: Secret, delimiter: string, separator: string, renderTags: map<string, string> -> string): (r: string)
    ensures |r| >= |s.id| + |delimiter| && r[..|s.id|] == s.id && r[|s.id|..|s.id| + |delimiter|] == delimiter
  {
    s.id + delimiter + SecretDetails(s, separator, renderTags)
  }

  /** The part of a secret's picker line after the delimiter. */
  function SecretDetails(s: Secret, separator: string, renderTags: map<string, string> -> string): string
  {
    s.name + separator + Masked(s.value) + separator + s.version + separator +
    s.vault.name + separator + renderTags(s.tags) + separator + "{created:" + s.created + "}" + separator +
    "{enabled:" + (if s.enabled then "true" else "false") + "}"
  }

  /** The first field of a secret's line is its ID when the one-character delimiter does not
      occur in the ID. */
  lemma {:induction false} LineNamesSecret(s: Secret, delimiter: string, separator: string, renderTags: map<string, string> -> string)
    requires |delimiter| == 1 && delimiter[0] !in s.id
    ensures FirstField(FormatFZF(s, delimiter, separator, renderTags), delimiter) == s.id
  {
    var line := FormatFZF(s, delimiter, separator, renderTags);
    var k := |s.id|;
    var rest := line[k + 1..];
    assert line == line[..k] + line[k..k + 1] + rest;
    FirstFieldSingleChar(s.id, delimiter, rest);
  }

  /** FilterSecretsBySelection: the secrets whose ID is the first field of a committed line. */
  method FilterSecretsBySelection(secrets: seq<Secret>, selections: seq<string>, delimiter: string)
    returns (selected: seq<Secret>)
    requires Splittable(selections, delimiter)
    ensures selected == KeepIds(secrets, IdOf, SelectedIds(selections, delimiter))
  {
    selected := FilterBySelection(secrets, IdOf, selections, delimiter);
  }

  /** Picking the lines of some secrets and filtering by them gives back exactly those
      secrets, when IDs are unique and free of the delimiter. */
  lemma {:induction false} SecretSelectionRoundTrip(secrets: seq<Secret>, chosen: seq<Secret>, delimiter: string, separator: string,
                                 renderTags: map<string, string> -> string)
    requires |delimiter| == 1
    requires forall i :: 0 <= i < |secrets| ==> delimiter[0] !in secrets[i].id
    requires forall i, j :: 0 <= i < |secrets| && 0 <= j < |secrets| && secrets[i].id == secrets[j].id ==> i == j
    requires forall i :: 0 <= i < |chosen| ==> chosen[i] in secrets
    ensures var lines := seq(|chosen|, i requires 0 <= i < |chosen| => FormatFZF(chosen[i], delimiter, separator, renderTags));
      forall x :: x in KeepIds(secrets, IdOf, SelectedIds(lines, delimiter)) <==> x in chosen
  {
    var lines := seq(|chosen|, i requires 0 <= i < |chosen| => FormatFZF(chosen[i], delimiter, separator, renderTags));
    forall i | 0 <= i < |lines|
      ensures FirstField(lines[i], delimiter) == IdOf(chosen[i])
    {
      LineNamesSecret(chosen[i], delimiter, separator, renderTags);
    }
    SelectionRoundTrip(secrets, IdOf, chosen, lines, delimiter);
  }
}
