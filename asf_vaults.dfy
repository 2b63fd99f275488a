/** Vault listing and the ID filter of the asf package (src/vault.go). Here the filter
    works on the listed SDK records and matches every selected ID against every vault, so
    a repeated ID repeats its vault. */
module AsfVaults {
  import opened Base
  import opened Remote
  import opened Selection
  import opened Vaults
  import Seqs

  function ItemId(v: VaultItem): string { v.id }

  /** `k` copies of `x`. */
  function Copies<T>(x: T, k: nat): (r: seq<T>)
    ensures |r| == k && forall i :: 0 <= i < k ==> r[i] == x
  {
    if k == 0 then [] else Copies(x, k - 1) + [x]
  }

  /** What FilterVaults returns: each vault in listing order, once for every occurrence of
      its ID among the selected IDs. */
  function Filtered(vaults: seq<VaultItem>, ids: seq<string>): seq<VaultItem>
  {
    if |vaults| == 0 then []
    else
      var n := |vaults| - 1;
      Filtered(vaults[..n], ids) + Copies(vaults[n], multiset(ids)[vaults[n].id])
  }

  /** The inner loop of FilterVaults for one vault: one append per matching ID. */
  method AppendMatches(result: seq<VaultItem>, vault: VaultItem, ids: seq<string>) returns (out: seq<VaultItem>)
    ensures out == result + Copies(vault, multiset(ids)[vault.id])
  {
    out := result;
    for j := 0 to |ids|
      invariant out == result + Copies(vault, multiset(ids[..j])[vault.id])
    {
      assert ids[..j + 1] == ids[..j] + [ids[j]];
      if vault.id == ids[j] {
        Seqs.AppendAssoc(result, Copies(vault, multiset(ids[..j])[vault.id]), [vault]);
        out := out + [vault];
      }
    }
    assert ids[..|ids|] == ids;
  }

  /** FilterVaults. */
  method FilterVaults(vaults: seq<VaultItem>, ids: seq<string>) returns (result: seq<VaultItem>)
    ensures result == Filtered(vaults, ids)
  {
    result := [];
    for i := 0 to |vaults|
      invariant result == Filtered(vaults[..i], ids)
    {
      assert vaults[..i + 1][..i] == vaults[..i];
      result := AppendMatches(result, vaults[i], ids);
    }
    assert vaults[..|vaults|] == vaults;
  }

  lemma {:induction false} CopiesCount<T>(x: T, k: nat, y: T)
    ensures multiset(Copies(x, k))[y] == if x == y then k else 0
  {
    if k > 0 {
      CopiesCount(x, k - 1, y);
      MultisetAppend(Copies(x, k - 1), [x], y);
    }
  }

  /** The count of one more vault: `c` new copies of it, where `c` is the selection count
      `m` when the new vault is the counted one (`d == 1`) and 0 otherwise. */
  lemma {:induction false} CountStep(total: int, a: int, m: int, c: int, d: int, b: int)
    requires total == a * m + c && b == a + d
    requires (d == 1 && c == m) || (d == 0 && c == 0)
    ensures total == b * m
  {
  }

  lemma {:induction false} MultisetAppend<T>(a: seq<T>, b: seq<T>, v: T)
    ensures multiset(a + b)[v] == multiset(a)[v] + multiset(b)[v]
  {
  }

  lemma {:induction false} MultisetLast<T>(s: seq<T>, v: T)
    requires |s| > 0
    ensures multiset(s)[v] == multiset(s[..|s| - 1])[v] + (if s[|s| - 1] == v then 1 else 0)
  {
    assert s == s[..|s| - 1] + [s[|s| - 1]];
  }

  /** The counts over the listing with its last vault split off. */
  lemma {:induction false} CountSplit(vaults: seq<VaultItem>, ids: seq<string>, v: VaultItem)
    requires |vaults| > 0
    ensures var n := |vaults| - 1;
      multiset(Filtered(vaults, ids))[v] ==
        multiset(Filtered(vaults[..n], ids))[v] + multiset(Copies(vaults[n], multiset(ids)[vaults[n].id]))[v] &&
      multiset(vaults)[v] == multiset(vaults[..n])[v] + (if vaults[n] == v then 1 else 0)
  {
    var n := |vaults| - 1;
    MultisetAppend(Filtered(vaults[..n], ids), Copies(vaults[n], multiset(ids)[vaults[n].id]), v);
    MultisetLast(vaults, v);
  }

  /** A vault occurs in the result as often as it is listed times the number of times its
      ID was selected: duplicate IDs duplicate the vault, an unselected vault is dropped. */
  lemma {:induction false} FilteredCount(vaults: seq<VaultItem>, ids: seq<string>, v: VaultItem)
    ensures multiset(Filtered(vaults, ids))[v] == multiset(vaults)[v] * multiset(ids)[v.id]
  {
    if |vaults| > 0 {
      var n := |vaults| - 1;
      var x := vaults[n];
      var m := multiset(ids)[v.id];
      var c := multiset(Copies(x, multiset(ids)[x.id]))[v];
      var d := if x == v then 1 else 0;
      FilteredCount(vaults[..n], ids, v);
      CopiesCount(x, multiset(ids)[x.id], v);
      assert (d == 1 && c == m) || (d == 0 && c == 0);
      CountSplit(vaults, ids, v);
      CountStep(multiset(Filtered(vaults, ids))[v], multiset(vaults[..n])[v], m, c, d, multiset(vaults)[v]);
    }
  }

  /** Every returned vault is a listed vault whose ID was selected. */
  lemma {:induction false} FilteredMembers(vaults: seq<VaultItem>, ids: seq<string>)
    ensures forall i :: 0 <= i < |Filtered(vaults, ids)| ==>
      Filtered(vaults, ids)[i] in vaults && Filtered(vaults, ids)[i].id in ids
  {
    if |vaults| > 0 {
      var n := |vaults| - 1;
      FilteredMembers(vaults[..n], ids);
      var prev := Filtered(vaults[..n], ids);
      var r := Filtered(vaults, ids);
      forall i | 0 <= i < |r| ensures r[i] in vaults && r[i].id in ids {
        if i < |prev| {
          assert r[i] == prev[i];
          assert prev[i] in vaults[..n];
        } else {
          assert r[i] == vaults[n];
          assert multiset(ids)[vaults[n].id] > 0;
        }
      }
    }
  }

  /** The result is empty exactly when no listed vault has a selected ID; in particular
      when no ID is selected. */
  lemma {:induction false} FilteredEmptyIff(vaults: seq<VaultItem>, ids: seq<string>)
    ensures |Filtered(vaults, ids)| == 0 <==> forall i :: 0 <= i < |vaults| ==> vaults[i].id !in ids
  {
    var r := Filtered(vaults, ids);
    if |r| > 0 {
      FilteredMembers(vaults, ids);
      var k :| 0 <= k < |vaults| && vaults[k] == r[0];
    } else {
      forall i | 0 <= i < |vaults| ensures vaults[i].id !in ids {
        FilteredCount(vaults, ids, vaults[i]);
        assert vaults[i] in multiset(vaults);
      }
    }
  }

  /** With each ID selected at most once, FilterVaults keeps exactly the vaults whose ID was
      selected, in listing order: the filter of the other snapshot (internal/vault.go). */
  lemma {:induction false} FilteredWithoutRepeats(vaults: seq<VaultItem>, ids: seq<string>)
    requires forall x :: multiset(ids)[x] <= 1
    ensures Filtered(vaults, ids) == KeepIds(vaults, ItemId, set x | x in ids)
    ensures Seqs.IsSubsequence(Filtered(vaults, ids), vaults)
  {
    if |vaults| > 0 {
      var n := |vaults| - 1;
      FilteredWithoutRepeats(vaults[..n], ids);
      var x := vaults[n];
      if x.id in ids {
        assert multiset(ids)[x.id] == 1;
        assert Copies(x, 1) == [x];
      } else {
        assert Copies(x, 0) == [];
      }
    }
    KeepIdsOrder(vaults, ItemId, set x | x in ids);
  }

  /** A repeated ID repeats its vault. */
  lemma {:induction false} RepeatedIdRepeatsVault(v: VaultItem)
    ensures Filtered([v], [v.id, v.id]) == [v, v]
  {
    assert [v][..0] == [];
    assert multiset([v.id, v.id])[v.id] == 2;
    assert Copies(v, 2) == [v, v];
  }

  /** The order of the result follows the listing, not the selection. */
  lemma {:induction false} OrderFollowsListing(a: VaultItem, b: VaultItem)
    requires a.id != b.id
    ensures Filtered([a, b], [b.id, a.id]) == [a, b]
  {
    var ids := [b.id, a.id];
    assert multiset(ids) == multiset{b.id, a.id};
    assert multiset(ids)[a.id] == 1 && multiset(ids)[b.id] == 1;
    FilteredPair(a, b, ids);
    assert Copies(a, 1) == [a] && Copies(b, 1) == [b];
  }

  /** Filtered over two vaults: the copies of the first, then those of the second. */
  lemma {:induction false} FilteredPair(a: VaultItem, b: VaultItem, ids: seq<string>)
    ensures Filtered([a, b], ids) == Copies(a, multiset(ids)[a.id]) + Copies(b, multiset(ids)[b.id])
  {
    assert [a][..0] == [];
    assert Filtered([a], ids) == [] + Copies(a, multiset(ids)[a.id]);
    assert [a, b][..1] == [a];
  }

  /** What GetVaults returns: the items of every page in page order, or the fatal error of
      the first page that fails. */
  function ListedItems(pages: seq<PageResult<VaultItem>>): Result<seq<VaultItem>, Failure>
  {
    match Items(pages)
    case None => Err(VaultPagesFailed)
    case Some(items) => Ok(items)
  }

  /** GetVaults: drain the subscription's vault pager. */
  method GetVaults(dir: Directory) returns (r: Result<seq<VaultItem>, Failure>)
    modifies dir`pagesFetched
    ensures r == ListedItems(dir.vaultPages)
    ensures dir.pagesFetched == old(dir.pagesFetched) + PagesRead(dir.vaultPages)
  {
    var items, _ := dir.Drain(dir.vaultPages);
    if items.None? {
      return Err(VaultPagesFailed);
    }
    return Ok(items.value);
  }

  /** Listing order is page order for GetVaults. */
  lemma {:induction false} ListedItemsAppend(a: seq<PageResult<VaultItem>>, b: seq<PageResult<VaultItem>>)
    ensures ListedItems(a + b) ==
      if ListedItems(a).Err? || ListedItems(b).Err? then Err(VaultPagesFailed)
      else Ok(ListedItems(a).value + ListedItems(b).value)
  {
    ItemsAppend(a, b);
  }

  /** The vaults of consecutive runs of items are the vaults of the first run, then those
      of the second. */
  lemma {:induction false} ListedVaultsAppend(a: seq<VaultItem>, b: seq<VaultItem>, subscriptionID: string)
    ensures ListedVaults(a + b, subscriptionID) == ListedVaults(a, subscriptionID) + ListedVaults(b, subscriptionID)
  {
  }

  /** The vaults of the listed items, each built as GetVaults2 builds it. */
  method ConvertPage(vaults: seq<Vault>, items: seq<VaultItem>, subscriptionID: string) returns (out: seq<Vault>)
    ensures out == vaults + ListedVaults(items, subscriptionID)
  {
    out := vaults;
    for k := 0 to |items|
      invariant out == vaults + ListedVaults(items[..k], subscriptionID)
    {
      var item := items[k];
      var tags := CopyTags(item.tags);
      out := out + [Vault(item.id, item.name, tags, item.location, subscriptionID, item.tenantID, item.vaultURI)];
      assert ListedVaults(items[..k + 1], subscriptionID) == ListedVaults(items[..k], subscriptionID) + [FromItem(item, subscriptionID)];
    }
    assert items[..|items|] == items;
  }

  /** GetVaults2: the pager loop converting each vault of each page as it arrives. It
      returns what the internal GetVaults returns. */
  method GetVaults2(dir: Directory, subscriptionID: string) returns (r: Result<seq<Vault>, Failure>)
    modifies dir`pagesFetched
    ensures r == VaultsOf(dir.vaultPages, subscriptionID)
    ensures dir.pagesFetched == old(dir.pagesFetched) + PagesRead(dir.vaultPages)
  {
    var pages := dir.vaultPages;
    ghost var items: seq<VaultItem> := [];
    var vaults: seq<Vault> := [];
    var i := 0;
    while i < |pages|
      invariant 0 <= i <= |pages|
      invariant Items(pages[..i]) == Some(items)
      invariant vaults == ListedVaults(items, subscriptionID)
      invariant dir.pagesFetched == old(dir.pagesFetched) + i
    {
      var page := dir.NextPage(pages, i);
      PageStep(pages, i, items);
      if page.PageFailure? {
        return Err(VaultPagesFailed);
      }
      ListedVaultsAppend(items, page.items, subscriptionID);
      vaults := ConvertPage(vaults, page.items, subscriptionID);
      items := items + page.items;
      i := i + 1;
    }
    assert pages[..i] == pages;
    r := Ok(vaults);
  }
}
