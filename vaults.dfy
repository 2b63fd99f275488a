/** Vault discovery and reverse matching (internal/vault.go): the vault record, the
    subscription-wide listing, the picker line of a vault and the filter that maps committed
    picker lines back to vaults. */
module Vaults {
  import opened Base
  import opened Text
  import opened Remote
  import opened Selection

  /** A key vault of the subscription. The SDK context and credential it carries are opaque
      handles and are not part of the model. */
  datatype Vault = Vault(
    id: string, name: string, tags: map<string, string>, location: string,
    subscriptionID: string, tenantID: string, vaultURI: string)

  function VaultId(v: Vault): string { v.id }

  /** The tags whose value pointer is not nil, dereferenced. */
  function NonNilTags(tags: map<string, Option<string>>): map<string, string>
  {
    map k | k in tags && tags[k].Some? :: tags[k].value
  }

  /** The tag-copying loop of the listings: a tag is copied exactly when its value is set. */
  method CopyTags(tags: map<string, Option<string>>) returns (r: map<string, string>)
    ensures forall k :: k in r <==> k in tags && tags[k].Some?
    ensures forall k :: k in r ==> r[k] == tags[k].value
    ensures r == NonNilTags(tags)
  {
    r := map[];
    var pending := tags.Keys;
    while pending != {}
      invariant pending <= tags.Keys
      invariant forall k :: k in r <==> k in tags && k !in pending && tags[k].Some?
      invariant forall k :: k in r ==> r[k] == tags[k].value
      decreases |pending|
    {
      var k :| k in pending;
      if tags[k].Some? {
        r := r[k := tags[k].value];
      }
      pending := pending - {k};
    }
  }

  /** The vault built from one listed item. */
  function FromItem(item: VaultItem, subscriptionID: string): Vault
  {
    Vault(item.id, item.name, NonNilTags(item.tags), item.location, subscriptionID, item.tenantID, item.vaultURI)
  }

  /** One vault per listed item, in listing order. */
  function ListedVaults(items: seq<VaultItem>, subscriptionID: string): (r: seq<Vault>)
    ensures |r| == |items|
    ensures forall i :: 0 <= i < |items| ==> r[i] == FromItem(items[i], subscriptionID)
  {
    seq(|items|, i requires 0 <= i < |items| => FromItem(items[i], subscriptionID))
  }

  /** What GetVaults returns for a subscription whose listing has these pages: every vault
      of every page in order, or the failure of the first page that fails. */
  function VaultsOf(pages: seq<PageResult<VaultItem>>, subscriptionID: string): Result<seq<Vault>, Failure>
  {
    match Items(pages)
    case None => Err(VaultPagesFailed)
    case Some(items) => Ok(ListedVaults(items, subscriptionID))
  }

  /** GetVaults: drain the subscription's vault pager, converting each listed vault. */
  method GetVaults(dir: Directory, subscriptionID: string) returns (r: Result<seq<Vault>, Failure>)
    modifies dir`pagesFetched
    ensures r == VaultsOf(dir.vaultPages, subscriptionID)
    ensures dir.pagesFetched == old(dir.pagesFetched) + PagesRead(dir.vaultPages)
  {
    var items, _ := dir.Drain(dir.vaultPages);
    if items.None? {
      return Err(VaultPagesFailed);
    }
    var vaults: seq<Vault> := [];
    for i := 0 to |items.value|
      invariant |vaults| == i
      invariant forall j :: 0 <= j < i ==> vaults[j] == FromItem(items.value[j], subscriptionID)
      invariant dir.pagesFetched == old(dir.pagesFetched) + PagesRead(dir.vaultPages)
    {
      var item := items.value[i];
      var tags := CopyTags(item.tags);
      vaults := vaults + [Vault(item.id, item.name, tags, item.location, subscriptionID, item.tenantID, item.vaultURI)];
    }
    assert vaults == ListedVaults(items.value, subscriptionID);
    r := Ok(vaults);
  }

  /** Listing order is page order: the vaults of two runs of pages are the vaults of the
      first run followed by those of the second, and a failure in either is reported. */
  lemma {:induction false} VaultsOfAppend(a: seq<PageResult<VaultItem>>, b: seq<PageResult<VaultItem>>, subscriptionID: string)
    ensures VaultsOf(a + b, subscriptionID) ==
      if VaultsOf(a, subscriptionID).Err? || VaultsOf(b, subscriptionID).Err? then Err(VaultPagesFailed)
      else Ok(VaultsOf(a, subscriptionID).value + VaultsOf(b, subscriptionID).value)
  {
    ItemsAppend(a, b);
    if Items(a).Some? && Items(b).Some? {
      var x, y := Items(a).value, Items(b).value;
      assert ListedVaults(x + y, subscriptionID) == ListedVaults(x, subscriptionID) + ListedVaults(y, subscriptionID);
    }
  }

  /** Vault.FormatFZF: the ID, the delimiter, then name, tags and tenant joined by the visual
      separator. The tag rendering (json.Marshal with the quotes removed) is a parameter. */
  function FormatFZF(v: Vault, delimiter: string, separator: string, renderTags: map<string, string> -> string): (r: string)
    ensures |r| >= |v.id| + |delimiter| && r[..|v.id|] == v.id && r[|v.id|..|v.id| + |delimiter|] == delimiter
  {
    v.id + delimiter + VaultDetails(v, separator, renderTags)
  }

  /** The part of a vault's picker line after the delimiter. */
  function VaultDetails(v: Vault, separator: string, renderTags: map<string, string> -> string): string
  {
    v.name + separator + renderTags(v.tags) + separator + v.tenantID
  }

  /** The picker line of a vault starts with its ID: with a one-character delimiter that
      the ID does not contain, the first field of the line is the ID. */
  lemma {:induction false} LineNamesVault(v: Vault, delimiter: string, separator: string, renderTags: map<string, string> -> string)
    requires |delimiter| == 1 && delimiter[0] !in v.id
    ensures FirstField(FormatFZF(v, delimiter, separator, renderTags), delimiter) == v.id
  {
    var rest := v.name + separator + renderTags(v.tags) + separator + v.tenantID;
    assert FormatFZF(v, delimiter, separator, renderTags) == v.id + delimiter + rest;
    FirstFieldSingleChar(v.id, delimiter, rest);
  }

  /** FilterVaultsBySelection: the vaults whose ID is the first field of a committed line. */
  method FilterVaultsBySelection(vaults: seq<Vault>, selections: seq<string>, delimiter: string)
    returns (selected: seq<Vault>)
    requires Splittable(selections, delimiter)
    ensures selected == KeepIds(vaults, VaultId, SelectedIds(selections, delimiter))
  {
    selected := FilterBySelection(vaults, VaultId, selections, delimiter);
  }

  /** Vault IDs are unique within a listing. */
  predicate UniqueIds(vaults: seq<Vault>)
  {
    forall i, j :: 0 <= i < |vaults| && 0 <= j < |vaults| && vaults[i].id == vaults[j].id ==> i == j
  }

  /** Picking the lines of some vaults and filtering by them gives back exactly those vaults,
      when IDs are unique and free of the delimiter. */
  lemma {:induction false} VaultSelectionRoundTrip(vaults: seq<Vault>, chosen: seq<Vault>, delimiter: string, separator: string,
                                renderTags: map<string, string> -> string)
    requires |delimiter| == 1 && UniqueIds(vaults)
    requires forall i :: 0 <= i < |vaults| ==> delimiter[0] !in vaults[i].id
    requires forall i :: 0 <= i < |chosen| ==> chosen[i] in vaults
    ensures var lines := seq(|chosen|, i requires 0 <= i < |chosen| => FormatFZF(chosen[i], delimiter, separator, renderTags));
      forall x :: x in KeepIds(vaults, VaultId, SelectedIds(lines, delimiter)) <==> x in chosen
  {
    var lines := seq(|chosen|, i requires 0 <= i < |chosen| => FormatFZF(chosen[i], delimiter, separator, renderTags));
    forall i | 0 <= i < |lines|
      ensures FirstField(lines[i], delimiter) == VaultId(chosen[i])
    {
      LineNamesVault(chosen[i], delimiter, separator, renderTags);
    }
    SelectionRoundTrip(vaults, VaultId, chosen, lines, delimiter);
  }
}
