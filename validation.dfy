/**
 * The required-column check: which source columns of the mapping the
 * uploaded header lacks, and the list of names the converter reports.
 */
module Validation {
  import opened Mappings

  /** The keys not in `header`, scanned left to right (the list comprehension). */
  function AbsentKeys(keys: seq<string>, header: seq<string>): seq<string>
  {
    if keys == [] then []
    else (if keys[0] in header then [] else [keys[0]]) + AbsentKeys(keys[1..], header)
  }

  /** A name is reported exactly when it is a key and the header lacks it. */
  lemma {:induction false} AbsentKeysMembers(keys: seq<string>, header: seq<string>, c: string)
    ensures c in AbsentKeys(keys, header) <==> c in keys && c !in header
  {
    if keys != [] {
      AbsentKeysMembers(keys[1..], header, c);
      assert keys == [keys[0]] + keys[1..];
    }
  }

  /** Each absent key is reported as often as it occurs among the keys; present ones never. */
  lemma {:induction false} AbsentKeysCount(keys: seq<string>, header: seq<string>, c: string)
    ensures multiset(AbsentKeys(keys, header))[c] == if c in header then 0 else multiset(keys)[c]
  {
    if keys != [] {
      AbsentKeysCount(keys[1..], header, c);
      assert keys == [keys[0]] + keys[1..];
    }
  }

  /** Appending a key to the scan appends its report at the end: the report follows the keys' order. */
  lemma {:induction false} AbsentKeysSnoc(keys: seq<string>, k: string, header: seq<string>)
    ensures AbsentKeys(keys + [k], header) == AbsentKeys(keys, header) + (if k in header then [] else [k])
  {
    if keys == [] {
      assert keys + [k] == [k];
    } else {
      assert (keys + [k])[1..] == keys[1..] + [k];
      AbsentKeysSnoc(keys[1..], k, header);
    }
  }

  /** The report is empty exactly when every key is in the header. */
  lemma {:induction false} AbsentKeysEmpty(keys: seq<string>, header: seq<string>)
    ensures AbsentKeys(keys, header) == [] <==> forall k :: k in keys ==> k in header
  {
    if AbsentKeys(keys, header) != [] {
      AbsentKeysMembers(keys, header, AbsentKeys(keys, header)[0]);
    } else {
      forall k | k in keys ensures k in header {
        AbsentKeysMembers(keys, header, k);
      }
    }
  }

  /** A name occurring once in a list of distinct names counts once. */
  lemma {:induction false} DistinctCountsOnce(s: seq<string>, c: string)
    requires Distinct(s)
    requires c in s
    ensures multiset(s)[c] == 1
  {
    assert s == [s[0]] + s[1..];
    if s[0] != c {
      DistinctCountsOnce(s[1..], c);
    } else {
      assert c !in s[1..];
    }
  }

  /**
   * The reported list: the absent mapping keys, then `first_name` and
   * `last_name` once more each when the header lacks them.
   */
  function MissingColumns(header: seq<string>): seq<string>
  {
    AbsentKeys(SourceColumns, header)
      + (if "first_name" in header then [] else ["first_name"])
      + (if "last_name" in header then [] else ["last_name"])
  }

  /** The reported names are exactly the mapping keys the header lacks. */
  lemma MissingNamesAbsentKeys(header: seq<string>, c: string)
    ensures c in MissingColumns(header) <==> c in SourceColumns && c !in header
  {
    AbsentKeysMembers(SourceColumns, header, c);
    NameColumnsAt();
  }

  /**
   * The conversion gate: the list is empty exactly when every mapping key
   * is in the header, and the two extra name checks never change that.
   */
  lemma ConversionGate(header: seq<string>)
    ensures MissingColumns(header) == [] <==> AbsentKeys(SourceColumns, header) == []
    ensures MissingColumns(header) == [] <==> forall k :: k in SourceColumns ==> k in header
  {
    AbsentKeysEmpty(SourceColumns, header);
    if "first_name" !in header {
      AbsentKeysMembers(SourceColumns, header, "first_name");
      NameColumnsAt();
    }
    if "last_name" !in header {
      AbsentKeysMembers(SourceColumns, header, "last_name");
      NameColumnsAt();
    }
  }

  /** The list is non-empty exactly when some mapping key is not a source column. */
  lemma RejectionGate(header: seq<string>)
    ensures MissingColumns(header) != [] <==> exists k :: k in SourceColumns && k !in header
  {
    ConversionGate(header);
  }

  /**
   * A lacking `first_name` or `last_name` is reported twice, once by the
   * scan and once by its own check, and the two extra reports come last,
   * `first_name` before `last_name`.
   */
  lemma NameColumnsReportedTwice(header: seq<string>)
    ensures multiset(MissingColumns(header))["first_name"] == if "first_name" in header then 0 else 2
    ensures multiset(MissingColumns(header))["last_name"] == if "last_name" in header then 0 else 2
    ensures "first_name" !in header && "last_name" !in header ==>
              MissingColumns(header)[|MissingColumns(header)| - 2..] == ["first_name", "last_name"]
  {
    NameColumnCount(header, "first_name");
    NameColumnCount(header, "last_name");
  }

  /** How often one of the two name columns is reported. */
  lemma NameColumnCount(header: seq<string>, c: string)
    requires c == "first_name" || c == "last_name"
    ensures multiset(MissingColumns(header))[c] == if c in header then 0 else 2
  {
    KeysDistinct();
    NameColumnsAt();
    AbsentKeysCount(SourceColumns, header, c);
    if c !in header {
      DistinctCountsOnce(SourceColumns, c);
    }
  }
}
