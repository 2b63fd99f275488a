/** Reverse matching of picker output: the text before the first delimiter of each
    committed line is an ID, and the items whose ID was named are kept in input order.
    FilterVaultsBySelection and FilterSecretsBySelection are both this algorithm. */
module Selection {
  import opened Text
  import opened Seqs

  /** strings.Split(line, delimiter)[0] panics only when both are empty. */
  predicate Splittable(selections: seq<string>, delimiter: string)
  {
    |delimiter| > 0 || forall i :: 0 <= i < |selections| ==> |selections[i]| > 0
  }

  /** The keys of the selection map: the first field of every committed line. */
  function SelectedIds(selections: seq<string>, delimiter: string): (ids: set<string>)
    requires Splittable(selections, delimiter)
    ensures forall i :: 0 <= i < |selections| ==> FirstField(selections[i], delimiter) in ids
  {
    if |selections| == 0 then {}
    else
      var n := |selections| - 1;
      assert forall i :: 0 <= i < n ==> selections[..n][i] == selections[i];
      SelectedIds(selections[..n], delimiter) + {FirstField(selections[n], delimiter)}
  }

  /** An ID is selected exactly when some committed line starts with it. */
  lemma {:induction false} SelectedIdsMember(selections: seq<string>, delimiter: string, x: string)
    requires Splittable(selections, delimiter)
    ensures x in SelectedIds(selections, delimiter) <==>
      exists i :: 0 <= i < |selections| && FirstField(selections[i], delimiter) == x
  {
    if |selections| > 0 {
      var n := |selections| - 1;
      SelectedIdsMember(selections[..n], delimiter, x);
      if x in SelectedIds(selections[..n], delimiter) {
        var i :| 0 <= i < n && FirstField(selections[..n][i], delimiter) == x;
        assert selections[..n][i] == selections[i];
      }
    }
  }

  /** The items whose ID is in `ids`, in input order. */
  function KeepIds<T>(items: seq<T>, id: T -> string, ids: set<string>): seq<T>
  {
    if |items| == 0 then []
    else
      var n := |items| - 1;
      KeepIds(items[..n], id, ids) + (if id(items[n]) in ids then [items[n]] else [])
  }

  /** The two passes of FilterVaultsBySelection / FilterSecretsBySelection: build the set of
      selected IDs, then keep the items whose ID is in it. */
  method FilterBySelection<T>(items: seq<T>, id: T -> string, selections: seq<string>, delimiter: string)
    returns (kept: seq<T>)
    requires Splittable(selections, delimiter)
    ensures kept == KeepIds(items, id, SelectedIds(selections, delimiter))
  {
    var selected: set<string> := {};
    for i := 0 to |selections|
      invariant selected == SelectedIds(selections[..i], delimiter)
    {
      assert selections[..i + 1][..i] == selections[..i];
      selected := selected + {FirstField(selections[i], delimiter)};
    }
    assert selections[..|selections|] == selections;
    kept := [];
    for i := 0 to |items|
      invariant kept == KeepIds(items[..i], id, selected)
    {
      assert items[..i + 1][..i] == items[..i];
      if id(items[i]) in selected {
        kept := kept + [items[i]];
      }
    }
    assert items[..|items|] == items;
  }

  /** An item is kept exactly when it is an input item whose ID was selected. */
  lemma {:induction false} KeepIdsMembers<T>(items: seq<T>, id: T -> string, ids: set<string>, x: T)
    ensures x in KeepIds(items, id, ids) <==> x in items && id(x) in ids
  {
    if |items| > 0 {
      var n := |items| - 1;
      KeepIdsMembers(items[..n], id, ids, x);
      assert items == items[..n] + [items[n]];
    }
  }

  /** Nothing is duplicated or dropped: a kept item occurs as often as in the input. */
  lemma {:induction false} KeepIdsCount<T>(items: seq<T>, id: T -> string, ids: set<string>, x: T)
    ensures multiset(KeepIds(items, id, ids))[x] == if id(x) in ids then multiset(items)[x] else 0
  {
    if |items| > 0 {
      var n := |items| - 1;
      KeepIdsCount(items[..n], id, ids, x);
      assert items == items[..n] + [items[n]];
    }
  }

  /** The result keeps the input order. */
  lemma {:induction false} KeepIdsOrder<T>(items: seq<T>, id: T -> string, ids: set<string>)
    ensures IsSubsequence(KeepIds(items, id, ids), items)
  {
    if |items| > 0 {
      var n := |items| - 1;
      KeepIdsOrder(items[..n], id, ids);
      assert items == items[..n] + [items[n]];
      if id(items[n]) in ids {
        IsSubsequenceSnoc(KeepIds(items[..n], id, ids), items[..n], items[n]);
      } else {
        var k := KeepIds(items[..n], id, ids);
        assert KeepIds(items, id, ids) == k + [] == k;
        IsSubsequenceSkip(k, items[..n], items[n]);
      }
    }
  }

  /** The round trip of the pickers: when each committed line starts with its item's ID and
      IDs are unique, reverse matching returns exactly the chosen items. */
  lemma {:induction false} SelectionRoundTrip<T>(items: seq<T>, id: T -> string, chosen: seq<T>, lines: seq<string>, delimiter: string)
    requires |delimiter| > 0
    requires |lines| == |chosen|
    requires forall i :: 0 <= i < |lines| ==> FirstField(lines[i], delimiter) == id(chosen[i])
    requires forall i :: 0 <= i < |chosen| ==> chosen[i] in items
    requires forall i, j :: 0 <= i < |items| && 0 <= j < |items| && id(items[i]) == id(items[j]) ==> i == j
    ensures forall x :: x in KeepIds(items, id, SelectedIds(lines, delimiter)) <==> x in chosen
  {
    forall x
      ensures x in KeepIds(items, id, SelectedIds(lines, delimiter)) <==> x in chosen
    {
      KeepIdsMembers(items, id, SelectedIds(lines, delimiter), x);
      if x in chosen {
        var i :| 0 <= i < |chosen| && chosen[i] == x;
        assert FirstField(lines[i], delimiter) == id(x);
      }
      if x in items && id(x) in SelectedIds(lines, delimiter) {
        SelectedIdsMember(lines, delimiter, id(x));
        var i :| 0 <= i < |lines| && FirstField(lines[i], delimiter) == id(x);
        var a :| 0 <= a < |items| && items[a] == x;
        var b :| 0 <= b < |items| && items[b] == chosen[i];
        assert id(items[a]) == id(items[b]);
      }
    }
  }
}
