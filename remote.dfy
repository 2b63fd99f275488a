/** The remote key-vault service as the picker code sees it through the Azure SDK: the
    records its list calls return, split into pages, and a Directory object that answers
    each call from fixed data and keeps a ghost account of the calls made. */
module Remote {
  import opened Base

  /** armkeyvault.Vault as listed for a subscription (the fields the code reads). A tag
      whose value pointer is nil has the value None. */
  datatype VaultItem = VaultItem(
    id: string, name: string, tags: map<string, Option<string>>,
    location: string, tenantID: string, vaultURI: string)

  /** azsecrets.SecretProperties: the name and version parsed from its ID (an empty version
      when the ID carries none), its tags and attributes. `created` is the creation time as
      the picker prints it ("2006-01-02 15:04" layout). */
  datatype SecretItem = SecretItem(
    name: string, version: string, tags: map<string, Option<string>>,
    enabled: bool, created: string)

  /** What one NextPage call of a pager returns: a page of items, or an error. */
  datatype PageResult<T> = Page(items: seq<T>) | PageFailure

  /** The log.Fatalf calls of the stages, by what failed. Each ends the process with
      exit status 1. */
  datatype Failure =
    | VaultPagesFailed
    | SecretPagesFailed(vaultID: string)
    | VersionPagesFailed(secretName: string)
    | ValueFetchFailed(secretName: string)

  /** A GetSecret call: vault endpoint, secret name and version ("" asks for the current one). */
  datatype ValueRequest = ValueRequest(vaultURI: string, name: string, version: string)

  /** The items of a `for pager.More() { page, err := pager.NextPage(...) ... }` loop, in
      page order, or None when a page fails. */
  function Items<T>(pages: seq<PageResult<T>>): (r: Option<seq<T>>)
    ensures r.Some? <==> forall i :: 0 <= i < |pages| ==> pages[i].Page?
  {
    if |pages| == 0 then Some([])
    else if pages[0].PageFailure? then None
    else
      var rest := Items(pages[1..]);
      assert forall i :: 1 <= i < |pages| ==> pages[i] == pages[1..][i - 1];
      if rest.None? then None else Some(pages[0].items + rest.value)
  }

  /** The NextPage calls such a loop makes: every page up to and including the first that
      fails (the failure ends the process). */
  function PagesRead<T>(pages: seq<PageResult<T>>): (n: nat)
    ensures n <= |pages|
    ensures Items(pages).Some? ==> n == |pages|
    ensures Items(pages).None? ==> 0 < n && pages[n - 1].PageFailure?
  {
    if |pages| == 0 then 0
    else if pages[0].PageFailure? then 1
    else 1 + PagesRead(pages[1..])
  }

  /** The items a pager loop has handed on before it ends: those of every page before the
      first failing one, all of them when no page fails. */
  function Delivered<T>(pages: seq<PageResult<T>>): (r: seq<T>)
    ensures Items(pages).Some? ==> r == Items(pages).value
  {
    if |pages| == 0 || pages[0].PageFailure? then []
    else pages[0].items + Delivered(pages[1..])
  }

  /** Concatenating page lists concatenates their items; a failing first half hides the second. */
  lemma {:induction false} ItemsAppend<T>(a: seq<PageResult<T>>, b: seq<PageResult<T>>)
    ensures Items(a + b) == if Items(a).None? || Items(b).None? then None else Some(Items(a).value + Items(b).value)
    ensures Items(a).Some? ==> PagesRead(a + b) == |a| + PagesRead(b)
    ensures Items(a).None? ==> PagesRead(a + b) == PagesRead(a)
  {
    if |a| == 0 {
      assert a + b == b;
      if Items(b).Some? {
        assert [] + Items(b).value == Items(b).value;
      }
    } else {
      assert (a + b)[0] == a[0] && (a + b)[1..] == a[1..] + b;
      ItemsAppend(a[1..], b);
      if a[0].Page? && Items(a[1..]).Some? && Items(b).Some? {
        assert a[0].items + (Items(a[1..]).value + Items(b).value)
            == (a[0].items + Items(a[1..]).value) + Items(b).value;
      }
    }
  }

  /** The items handed on over two page lists: the first list's, then the second's unless
      the first has failed. */
  lemma {:induction false} DeliveredAppend<T>(a: seq<PageResult<T>>, b: seq<PageResult<T>>)
    ensures Delivered(a + b) == if Items(a).Some? then Delivered(a) + Delivered(b) else Delivered(a)
  {
    if |a| == 0 {
      assert a + b == b;
      assert [] + Delivered(b) == Delivered(b);
    } else {
      assert (a + b)[0] == a[0] && (a + b)[1..] == a[1..] + b;
      DeliveredAppend(a[1..], b);
      if a[0].Page? && Items(a[1..]).Some? {
        assert a[0].items + (Delivered(a[1..]) + Delivered(b))
            == (a[0].items + Delivered(a[1..])) + Delivered(b);
      }
    }
  }

  /** One step of a pager loop over `pages` after `i` good pages with these items: a failing
      page makes the whole listing fail after `i + 1` reads; a good page adds its items. */
  lemma {:induction false} PageStep<T>(pages: seq<PageResult<T>>, i: int, items: seq<T>)
    requires 0 <= i < |pages| && Items(pages[..i]) == Some(items)
    ensures pages[i].PageFailure? ==> Items(pages).None? && PagesRead(pages) == i + 1
    ensures pages[i].Page? ==> Items(pages[..i + 1]) == Some(items + pages[i].items)
  {
    var page := pages[i];
    ItemsAppend(pages[..i], pages[i..]);
    assert pages[..i] + pages[i..] == pages;
    ItemsAppend(pages[..i], [page]);
    assert pages[..i + 1] == pages[..i] + [page];
    if page.Page? {
      assert Items([page]) == Some(page.items) by {
        assert [page][1..] == [];
        assert Items([page][1..]) == Some([]);
        assert page.items + [] == page.items;
      }
    }
  }

  /** The remote service: fixed answers to every list and get call, with a ghost log of the
      calls made. Pagers are sequences of page results; `pagesFetched` counts NextPage calls
      and `valueRequests` lists GetSecret calls in order. */
  class Directory {
    const vaultPages: seq<PageResult<VaultItem>>
    const secretPages: string -> seq<PageResult<SecretItem>>
    const versionPages: (string, string) -> seq<PageResult<SecretItem>>
    const secretValues: ValueRequest -> Option<string>
    ghost var pagesFetched: nat
    ghost var valueRequests: seq<ValueRequest>

    constructor (
      vaultPages: seq<PageResult<VaultItem>>,
      secretPages: string -> seq<PageResult<SecretItem>>,
      versionPages: (string, string) -> seq<PageResult<SecretItem>>,
      secretValues: ValueRequest -> Option<string>)
      ensures this.vaultPages == vaultPages && this.secretPages == secretPages
      ensures this.versionPages == versionPages && this.secretValues == secretValues
      ensures pagesFetched == 0 && valueRequests == []
    {
      this.vaultPages := vaultPages;
      this.secretPages := secretPages;
      this.versionPages := versionPages;
      this.secretValues := secretValues;
      pagesFetched := 0;
      valueRequests := [];
    }

    /** One NextPage call on a pager over `pages`. */
    method NextPage<T>(pages: seq<PageResult<T>>, i: nat) returns (page: PageResult<T>)
      requires i < |pages|
      modifies this`pagesFetched
      ensures page == pages[i] && pagesFetched == old(pagesFetched) + 1
    {
      page := pages[i];
      pagesFetched := pagesFetched + 1;
    }

    /** Client.GetSecret. */
    method GetSecret(request: ValueRequest) returns (value: Option<string>)
      modifies this`valueRequests
      ensures value == secretValues(request)
      ensures valueRequests == old(valueRequests) + [request]
    {
      value := secretValues(request);
      valueRequests := valueRequests + [request];
    }

    /** The paginated source adapter: a `for pager.More()` loop that appends each page's
        items and stops at the first failing page. */
    method Drain<T>(pages: seq<PageResult<T>>) returns (items: Option<seq<T>>, delivered: seq<T>)
      modifies this`pagesFetched
      ensures items == Items(pages)
      ensures delivered == Delivered(pages)
      ensures pagesFetched == old(pagesFetched) + PagesRead(pages)
    {
      var out: seq<T> := [];
      var i := 0;
      while i < |pages|
        invariant 0 <= i <= |pages|
        invariant Items(pages[..i]) == Some(out)
        invariant pagesFetched == old(pagesFetched) + i
      {
        var page := NextPage(pages, i);
        ItemsAppend(pages[..i], pages[i..]);
        assert pages[..i] + pages[i..] == pages;
        if page.PageFailure? {
          DeliveredAppend(pages[..i], pages[i..]);
          assert Delivered(pages[i..]) == [];
          return None, out;
        }
        ItemsAppend(pages[..i], [page]);
        assert pages[..i + 1] == pages[..i] + [page];
        assert Items([page]) == Some(page.items) by {
          assert [page][1..] == [];
          assert Items([page][1..]) == Some([]);
          assert page.items + [] == page.items;
        }
        out := out + page.items;
        i := i + 1;
      }
      assert pages[..i] == pages;
      items, delivered := Some(out), out;
    }
  }
}
