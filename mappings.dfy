/**
 * The fixed column mapping of the converter: each Real Intent lead-export
 * column (the key) and the Realty Juggler / Rechat import column it becomes
 * (the value), in the order the dictionary declares them.
 */
module Mappings {

  /** An insertion-ordered dictionary of column names, as a list of pairs. */
  type Mapping = seq<(string, string)>

  const ColumnMappings: Mapping := [
    ("occupation", "Job Title"),
    ("first_name", "First Name"),
    ("last_name", "Last Name"),
    ("address", "Home Street"),
    ("city", "Home City"),
    ("state", "Home State"),
    ("zip_code", "Home Postal Code"),
    ("phone_1", "Home Phone"),
    ("phone_2", "Home Phone 1"),
    ("phone_3", "Home Phone 2"),
    ("email_1", "E-mail Address"),
    ("email_2", "E-mail 1"),
    ("email_3", "E-mail 2"),
    ("insight", "Notes"),
    ("household_income", "Notes 1"),
    ("household_net_worth", "Notes 2")
  ]

  /** The keys of a mapping, in declared order. */
  function Keys(m: Mapping): seq<string>
  {
    seq(|m|, j requires 0 <= j < |m| => m[j].0)
  }

  /** The values of a mapping, in declared order. */
  function Values(m: Mapping): seq<string>
  {
    seq(|m|, j requires 0 <= j < |m| => m[j].1)
  }

  /** Keys and values line up with the mapping's entries, index by index. */
  lemma KeysValuesAt(m: Mapping)
    ensures |Keys(m)| == |m| && |Values(m)| == |m|
    ensures forall j :: 0 <= j < |m| ==> Keys(m)[j] == m[j].0
    ensures forall j :: 0 <= j < |m| ==> Values(m)[j] == m[j].1
  {
  }

  /** Where the two name columns sit among the source columns. */
  lemma NameColumnsAt()
    ensures |SourceColumns| == 16
    ensures SourceColumns[1] == "first_name" && SourceColumns[2] == "last_name"
  {
    KeysValuesAt(ColumnMappings);
  }

  predicate Distinct(s: seq<string>)
  {
    forall i, j :: 0 <= i < j < |s| ==> s[i] != s[j]
  }

  /** The source columns a conversion requires. */
  const SourceColumns: seq<string> := Keys(ColumnMappings)

  /** The import columns a conversion produces from them. */
  const TargetColumns: seq<string> := Values(ColumnMappings)

  /**
   * The mapping is a dictionary with no two keys alike, and no two keys are
   * renamed to the same column.
   */
  lemma MappingIsInjective()
    ensures |ColumnMappings| == 16
    ensures Distinct(SourceColumns)
    ensures Distinct(TargetColumns)
  {
    KeysDistinct();
    ValuesDistinct();
  }

  /** The source columns, spelled out. */
  ghost const SourceNames: seq<string> := [
    "occupation", "first_name", "last_name", "address", "city", "state", "zip_code",
    "phone_1", "phone_2", "phone_3", "email_1", "email_2", "email_3", "insight",
    "household_income", "household_net_worth"]

  /** The import columns, spelled out. */
  ghost const TargetNames: seq<string> := [
    "Job Title", "First Name", "Last Name", "Home Street", "Home City", "Home State",
    "Home Postal Code", "Home Phone", "Home Phone 1", "Home Phone 2", "E-mail Address",
    "E-mail 1", "E-mail 2", "Notes", "Notes 1", "Notes 2"]

  /** The mapping's keys and values are the two spelled-out lists. */
  lemma ColumnsListed()
    ensures SourceColumns == SourceNames
    ensures TargetColumns == TargetNames
  {
    KeysValuesAt(ColumnMappings);
  }

  lemma SourceNamesDistinct()
    ensures Distinct(SourceNames)
  {
  }

  lemma TargetNamesDistinct()
    ensures Distinct(TargetNames)
  {
  }

  lemma KeysDistinct()
    ensures Distinct(SourceColumns)
  {
    ColumnsListed();
    SourceNamesDistinct();
  }

  lemma ValuesDistinct()
    ensures Distinct(TargetColumns)
  {
    ColumnsListed();
    TargetNamesDistinct();
  }
}
