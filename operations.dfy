/** The operation registry (internal/operation.go): a closed enumeration, its constant
    name/description table, the picker line of an operation and the lookup of an
    operation from a picked line. */
module Operations {
  import opened Base
  import opened Text
  import Seqs

  datatype Operation = ListVersions | GetPasswords | ListVersionAndGetPasswords | EditMetaData | DeleteSecret

  datatype OperationData = OperationData(name: string, description: string)

  /** The operations in declaration order (their iota values 0 to 4). */
  const AllOperations: seq<Operation> :=
    [ListVersions, GetPasswords, ListVersionAndGetPasswords, EditMetaData, DeleteSecret]

  /** The iota value of an operation. */
  function Ordinal(op: Operation): (n: nat)
    ensures n < |AllOperations| && AllOperations[n] == op
  {
    match op
    case ListVersions => 0
    case GetPasswords => 1
    case ListVersionAndGetPasswords => 2
    case EditMetaData => 3
    case DeleteSecret => 4
  }

  /** The `name` column of the constant table `allOperations`. */
  function Name(op: Operation): string {
    match op
    case ListVersions => "list-versions"
    case GetPasswords => "get-passwords"
    case ListVersionAndGetPasswords => "list-version-get-password"
    case EditMetaData => "edit-meta"
    case DeleteSecret => "delete-secret"
  }

  /** The `description` column of the constant table `allOperations`. */
  function Description(op: Operation): string {
    match op
    case ListVersions => "List versions for selected items"
    case GetPasswords => "Get passwords for selected items"
    case ListVersionAndGetPasswords => "List versions and get passwords for selected items"
    case EditMetaData => "Edit meta data for selected items in $EDITOR"
    case DeleteSecret => "Delete selected secret and all of its versions"
  }

  /** The constant table `allOperations`, indexed by operation. */
  function Data(op: Operation): OperationData {
    OperationData(Name(op), Description(op))
  }

  /** The picker line of an operation: its name, the delimiter, its description. */
  function FormatFZF(data: OperationData, delimiter: string): (r: string)
    ensures |r| == |data.name| + |delimiter| + |data.description|
    ensures r[..|data.name|] == data.name && r[|data.name|..|data.name| + |delimiter|] == delimiter
  {
    data.name + delimiter + data.description
  }

  datatype UnknownOperation = UnknownOperation(name: string)

  /** The search over the table for the entry called `name`. */
  function Lookup(ops: seq<Operation>, name: string): (r: Option<Operation>)
    ensures r.Some? ==> r.value in ops && Name(r.value) == name
    ensures r.None? ==> forall op :: op in ops ==> Name(op) != name
  {
    if |ops| == 0 then None
    else if Name(ops[0]) == name then Some(ops[0])
    else Lookup(ops[1..], name)
  }

  /** GetOperationByName: the operation named by the text before the first delimiter of
      `selection`, or an "unknown operation" error carrying that text. Go's Split followed
      by [0] panics only for an empty selection with an empty delimiter. */
  function GetOperationByName(selection: string, delimiter: string): (r: Result<Operation, UnknownOperation>)
    requires |delimiter| > 0 || |selection| > 0
    ensures r.Ok? ==> Name(r.value) == FirstField(selection, delimiter)
    ensures r.Err? ==> (r.error.name == FirstField(selection, delimiter) && forall op :: Name(op) != r.error.name)
  {
    var name := FirstField(selection, delimiter);
    match Lookup(AllOperations, name)
    case Some(op) => Ok(op)
    case None =>
      assert forall op :: op in AllOperations by {
        forall op ensures op in AllOperations { assert AllOperations[Ordinal(op)] == op; }
      }
      Err(UnknownOperation(name))
  }

  /** Every enumerated operation has a table entry with a non-empty name, and no two
      operations share a name, so the table can be searched in any order. */
  lemma {:induction false} TableComplete()
    ensures forall op :: |Name(op)| > 0 && op in AllOperations
    ensures forall a, b :: Name(a) == Name(b) ==> a == b
  {
    forall op ensures op in AllOperations { assert AllOperations[Ordinal(op)] == op; }
  }

  /** Looking up the picker line of an operation gives the operation back, provided no
      occurrence of the delimiter starts inside the operation's name. */
  lemma {:induction false} RoundTrip(op: Operation, delimiter: string)
    requires |delimiter| > 0
    requires forall j :: 0 <= j < |Name(op)| ==> !OccursAt(FormatFZF(Data(op), delimiter), delimiter, j)
    ensures GetOperationByName(FormatFZF(Data(op), delimiter), delimiter) == Ok(op)
  {
    assert FormatFZF(Data(op), delimiter) == Name(op) + delimiter + Description(op);
    FirstFieldOfJoined(Name(op), delimiter, Description(op));
    TableComplete();
  }

  /** The same for a one-character delimiter that does not occur in the name. */
  lemma {:induction false} RoundTripSingleChar(op: Operation, delimiter: string)
    requires |delimiter| == 1 && delimiter[0] !in Name(op)
    ensures GetOperationByName(FormatFZF(Data(op), delimiter), delimiter) == Ok(op)
  {
    FirstFieldSingleChar(Name(op), delimiter, Description(op));
    TableComplete();
  }

  /** With "-" as delimiter the round trip fails: "list-versions" is cut at its own dash. */
  lemma {:induction false} DashDelimiterBreaksRoundTrip()
    ensures GetOperationByName(FormatFZF(Data(ListVersions), "-"), "-") == Err(UnknownOperation("list"))
  {
    var description := Description(ListVersions);
    var rest := "versions" + "-" + description;
    assert Name(ListVersions) == "list" + "-" + "versions";
    Seqs.AppendAssoc("list" + "-", "versions", "-");
    Seqs.AppendAssoc("list" + "-", "versions" + "-", description);
    FirstFieldSingleChar("list", "-", rest);
    assert FormatFZF(Data(ListVersions), "-") == "list" + "-" + rest;
    forall op ensures Name(op) != "list" {
      assert |Name(op)| > 4;
    }
  }

  /** Only the text before the first delimiter is compared: whatever follows it, the
      line names the same operation as that text alone. */
  lemma {:induction false} IgnoresRest(head: string, delimiter: string, rest: string)
    requires |delimiter| > 0 && |head| > 0
    requires forall j :: 0 <= j < |head| ==> !OccursAt(head + delimiter + rest, delimiter, j)
    ensures GetOperationByName(head + delimiter + rest, delimiter) == GetOperationByName(head, delimiter)
  {
    FirstFieldOfJoined(head, delimiter, rest);
    forall j | OccursAt(head, delimiter, j) ensures false {
      assert j < |head|;
      assert (head + delimiter + rest)[j..j + |delimiter|] == head[j..j + |delimiter|];
      assert OccursAt(head + delimiter + rest, delimiter, j);
    }
    FirstFieldNoSeparator(head, delimiter);
  }

  /** A name in the table looks up to its own operation. */
  lemma {:induction false} LookupName(op: Operation)
    ensures Lookup(AllOperations, Name(op)) == Some(op)
  {
    TableComplete();
  }

  lemma {:induction false} NoBarInName(op: Operation)
    ensures '|' !in Name(op)
  {
    match op {
      case ListVersions =>
      case GetPasswords =>
      case ListVersionAndGetPasswords =>
      case EditMetaData =>
      case DeleteSecret =>
    }
  }

  /** A bare name (the menu of SelectOperation sends names only) looks up to its
      operation with the picker's delimiter "|". */
  lemma {:induction false} NameLookup(op: Operation)
    ensures GetOperationByName(Name(op), "|") == Ok(op)
  {
    var name := Name(op);
    NoBarInName(op);
    WithoutCharNoOccurrence(name, "|");
    FirstFieldNoSeparator(name, "|");
    LookupName(op);
  }
}
