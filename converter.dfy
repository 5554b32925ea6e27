/**
 * One conversion of an uploaded Real Intent table: the required-column
 * gate, then the select-and-rename and the column-by-column updates of the
 * frame, or the failure message when columns are missing.
 */
module Converter {
  import opened Mappings
  import opened Frames
  import opened Validation
  import opened Messages

  /** Either the converted table or the message shown instead; never both. */
  datatype Outcome = Converted(table: Frame) | Rejected(message: string)

  const IncomePrefix: string := "Household Income: "
  const NetWorthPrefix: string := "Household Net Worth: "
  const ReferredBy: string := "Referred By"
  const Referrer: string := "Real Intent"

  /** The label put in front of the cells of an import column: only the two notes columns get one. */
  function Label(target: string): string
  {
    if target == "Notes 1" then IncomePrefix
    else if target == "Notes 2" then NetWorthPrefix
    else ""
  }

  /** Both guarded columns are always present once the table is renamed. */
  lemma NotesGuardsHold()
    ensures "Notes 1" in TargetColumns && "Notes 2" in TargetColumns
    ensures ColumnMappings[14] == ("household_income", "Notes 1")
    ensures ColumnMappings[15] == ("household_net_worth", "Notes 2")
    ensures ReferredBy !in TargetColumns
  {
    assert TargetColumns[14] == "Notes 1" && TargetColumns[15] == "Notes 2";
  }

  /**
   * An output row against its source row: every import column holds its
   * source cell, with the notes label in front for the two notes columns,
   * and the referrer column holds the constant referrer.
   */
  predicate RowConverted(m: Mapping, src: Row, out: Row)
  {
    && ReferredBy in out && out[ReferredBy] == Referrer
    && forall j :: 0 <= j < |m| ==>
         && m[j].0 in src && m[j].1 in out
         && out[m[j].1] == Label(m[j].1) + src[m[j].0]
  }

  /**
   * The success path: keep and rename the mapped columns, label the two
   * notes columns where they exist, and add the constant referrer column,
   * one assignment at a time.
   */
  method Reshape(source: Frame, m: Mapping) returns (df: Frame)
    requires WellFormed(source)
    requires forall j :: 0 <= j < |m| ==> m[j].0 in source.header
    requires Distinct(Values(m))
    requires ReferredBy !in Values(m)
    ensures WellFormed(df)
    ensures df.header == Values(m) + [ReferredBy]
    ensures |df.rows| == |source.rows|
    ensures forall i :: 0 <= i < |source.rows| ==> RowConverted(m, source.rows[i], df.rows[i])
  {
    KeysValuesAt(m);
    df := SelectRenamed(source, m);
    ghost var renamed := df;
    if "Notes 1" in df.header {
      df := Assign(df, "Notes 1", Prefixed(IncomePrefix, df, "Notes 1"));
    }
    ghost var labelled := df;
    if "Notes 2" in df.header {
      df := Assign(df, "Notes 2", Prefixed(NetWorthPrefix, df, "Notes 2"));
    }
    ghost var relabelled := df;
    df := Assign(df, ReferredBy, Broadcast(Referrer, df));
    forall i | 0 <= i < |source.rows|
      ensures RowConverted(m, source.rows[i], df.rows[i])
    {
      var r0, r1, r2 := renamed.rows[i], labelled.rows[i], relabelled.rows[i];
      assert r1 == if "Notes 1" in r0 then r0["Notes 1" := IncomePrefix + r0["Notes 1"]] else r0;
      assert r2 == if "Notes 2" in r1 then r1["Notes 2" := NetWorthPrefix + r1["Notes 2"]] else r1;
      RowRelabelled(m, source.rows[i], r0, r1, r2, df.rows[i]);
    }
  }

  /** The three column updates, seen on one row, give a converted row. */
  lemma RowRelabelled(m: Mapping, src: Row, r0: Row, r1: Row, r2: Row, out: Row)
    requires forall j :: 0 <= j < |m| ==> m[j].0 in src && m[j].1 in r0 && r0[m[j].1] == src[m[j].0]
    requires r1 == if "Notes 1" in r0 then r0["Notes 1" := IncomePrefix + r0["Notes 1"]] else r0
    requires r2 == if "Notes 2" in r1 then r1["Notes 2" := NetWorthPrefix + r1["Notes 2"]] else r1
    requires out == r2[ReferredBy := Referrer]
    requires forall j :: 0 <= j < |m| ==> m[j].1 != ReferredBy
    ensures RowConverted(m, src, out)
  {
  }

  /**
   * One upload: build the list of missing columns, then either reshape the
   * table or reject it with the message naming them.
   */
  method Convert(source: Frame) returns (outcome: Outcome)
    requires WellFormed(source)
    // the gate: conversion happens exactly when every mapping key is a source column
    ensures outcome.Rejected? <==> exists k :: k in SourceColumns && k !in source.header
    ensures outcome.Rejected? ==> outcome.message == FailureMessage(MissingColumns(source.header))
    // the shape: the sixteen import columns in declared order, then Referred By; one row per source row
    ensures outcome.Converted? ==> WellFormed(outcome.table)
    ensures outcome.Converted? ==> outcome.table.header == TargetColumns + [ReferredBy]
    ensures outcome.Converted? ==> |outcome.table.rows| == |source.rows|
    // the cells, row by row
    ensures outcome.Converted? ==>
              forall i :: 0 <= i < |source.rows| ==>
                RowConverted(ColumnMappings, source.rows[i], outcome.table.rows[i])
  {
    var missing := AbsentKeys(SourceColumns, source.header);
    if "first_name" !in source.header {
      missing := missing + ["first_name"];
    }
    if "last_name" !in source.header {
      missing := missing + ["last_name"];
    }
    assert missing == MissingColumns(source.header);
    ConversionGate(source.header);
    RejectionGate(source.header);

    if missing == [] {
      MappingIsInjective();
      KeysValuesAt(ColumnMappings);
      NotesGuardsHold();
      var df := Reshape(source, ColumnMappings);
      outcome := Converted(df);
    } else {
      outcome := Rejected(FailureMessage(missing));
    }
  }

  /** A header holding every mapping key but `first_name` makes the scan report `first_name` alone. */
  lemma OnlyFirstNameAbsent(header: seq<string>)
    requires "first_name" !in header
    requires forall k :: k in SourceColumns && k != "first_name" ==> k in header
    ensures AbsentKeys(SourceColumns, header) == ["first_name"]
  {
    var absent := AbsentKeys(SourceColumns, header);
    MappingIsInjective();
    NameColumnsAt();
    forall c ensures multiset(absent)[c] == multiset(["first_name"])[c] {
      AbsentKeysCount(SourceColumns, header, c);
      if c == "first_name" {
        DistinctCountsOnce(SourceColumns, c);
      }
    }
    assert multiset(absent) == multiset(["first_name"]);
    assert |absent| == 1 && absent[0] in multiset(absent);
  }

  /**
   * Every upload lacking `first_name` and no other mapping key is rejected,
   * and the message names that column twice.
   */
  lemma LackingFirstNameNamedTwice(header: seq<string>)
    requires "first_name" !in header
    requires forall k :: k in SourceColumns && k != "first_name" ==> k in header
    ensures MissingColumns(header) == ["first_name", "first_name"]
    ensures FailureMessage(MissingColumns(header))
            == "The uploaded file does not contain the required columns: first_name, first_name."
  {
    OnlyFirstNameAbsent(header);
    NameColumnsAt();
    assert MissingColumns(header) == ["first_name", "first_name"];
    FirstNameTwiceMessage();
  }

  /** The message for a missing list naming `first_name` twice. */
  lemma FirstNameTwiceMessage()
    ensures FailureMessage(["first_name", "first_name"])
            == "The uploaded file does not contain the required columns: first_name, first_name."
  {
    JoinHead(["first_name", "first_name"], NameSeparator);
  }
}
