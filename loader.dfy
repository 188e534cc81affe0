/**
 * The data loader of olist/data.py (Olist.get_data): the CSV files of a
 * directory listing are turned into a map from a logical table name to the
 * loaded table.  The listing and the loading of one file are inputs.
 */
module Loader {

  const CSV := ".csv"
  const DATASET_CSV := "_dataset.csv"
  const OLIST_PREFIX := "olist_"

  predicate EndsWith(s: string, suffix: string) {
    |suffix| <= |s| && s[|s| - |suffix|..] == suffix
  }

  predicate StartsWith(s: string, prefix: string) {
    |prefix| <= |s| && s[..|prefix|] == prefix
  }

  /** p occurs in s starting at index i. */
  predicate OccursAt(s: string, p: string, i: nat) {
    i + |p| <= |s| && s[i..i + |p|] == p
  }

  ghost predicate Occurs(s: string, p: string) {
    exists i: nat :: OccursAt(s, p, i)
  }

  /** No proper prefix of p is also a suffix of p, so two occurrences of p never overlap. */
  ghost predicate Unbordered(p: string) {
    forall n :: 0 < n < |p| ==> p[..n] != p[|p| - n..]
  }

  /**
   * Python's s.replace(p, ''): scans s from the left, deletes every
   * non-overlapping occurrence of p, and does not rescan the text that a
   * deletion brings together.
   */
  function RemoveAll(s: string, p: string): (r: string)
    requires p != []
    ensures |r| <= |s|
    decreases |s|
  {
    if |s| < |p| then s
    else if s[..|p|] == p then RemoveAll(s[|p|..], p)
    else [s[0]] + RemoveAll(s[1..], p)
  }

  /** key[6:] when the key starts with "olist_" (lines 37-38). */
  function StripOlist(key: string): string {
    if StartsWith(key, OLIST_PREFIX) then key[|OLIST_PREFIX|..] else key
  }

  /** The logical table name derived from one file name (lines 31-38). */
  function DeriveKey(file: string): string {
    var key :=
      if EndsWith(file, DATASET_CSV) then RemoveAll(file, DATASET_CSV)
      else if EndsWith(file, CSV) then RemoveAll(file, CSV)
      else file;
    StripOlist(key)
  }

  /** The list comprehension of line 25: the CSV file names, in listing order. */
  function CsvFiles(listing: seq<string>): (files: seq<string>)
    ensures |files| <= |listing|
    ensures forall f :: f in files <==> f in listing && EndsWith(f, CSV)
  {
    if |listing| == 0 then []
    else (if EndsWith(listing[0], CSV) then [listing[0]] else []) + CsvFiles(listing[1..])
  }

  function DerivedKeys(files: seq<string>): seq<string> {
    seq(|files|, i requires 0 <= i < |files| => DeriveKey(files[i]))
  }

  function Min(a: nat, b: nat): nat {
    if a < b then a else b
  }

  /**
   * The dictionary built by `for key, file in zip(keys, files): data[key] = load(file)`:
   * zip stops at the shorter list, and a later pair overwrites an earlier one.
   */
  function ZipToMap<T>(keys: seq<string>, files: seq<string>, load: string -> T): (m: map<string, T>)
    ensures m.Keys == set i | 0 <= i < Min(|keys|, |files|) :: keys[i]
    decreases |keys|
  {
    var n := Min(|keys|, |files|);
    if n == 0 then map[]
    else ZipToMap(keys[..n - 1], files[..n - 1], load)[keys[n - 1] := load(files[n - 1])]
  }

  /** The map get_data returns for a directory listing. */
  function Loaded<T>(listing: seq<string>, load: string -> T): map<string, T> {
    var files := CsvFiles(listing);
    ZipToMap(DerivedKeys(files), files, load)
  }

  /** The loop of lines 28-40, reassigning `key` step by step and appending it. */
  method KeyNames(files: seq<string>) returns (keys: seq<string>)
    ensures |keys| == |files|
    ensures forall i :: 0 <= i < |files| ==> keys[i] == DeriveKey(files[i])
  {
    keys := [];
    for j := 0 to |files|
      invariant |keys| == j
      invariant forall i :: 0 <= i < j ==> keys[i] == DeriveKey(files[i])
    {
      var key := files[j];
      if EndsWith(key, DATASET_CSV) {
        key := RemoveAll(key, DATASET_CSV);
      } else if EndsWith(key, CSV) {
        key := RemoveAll(key, CSV);
      }
      if StartsWith(key, OLIST_PREFIX) {
        key := key[6..];
      }
      keys := keys + [key];
    }
  }

  /** The loop of lines 43-46, filling the dictionary in place. */
  method BuildData<T>(keys: seq<string>, files: seq<string>, load: string -> T) returns (data: map<string, T>)
    ensures data == ZipToMap(keys, files, load)
  {
    data := map[];
    var n := Min(|keys|, |files|);
    for j := 0 to n
      invariant data == ZipToMap(keys[..j], files[..j], load)
    {
      assert keys[..j + 1][..j] == keys[..j] && files[..j + 1][..j] == files[..j];
      data := data[keys[j] := load(files[j])];
    }
    assert keys[..n] == keys || files[..n] == files;
    ZipPrefix(keys, files, load, n);
  }

  lemma ZipPrefix<T>(keys: seq<string>, files: seq<string>, load: string -> T, n: nat)
    requires n == Min(|keys|, |files|)
    ensures ZipToMap(keys[..n], files[..n], load) == ZipToMap(keys, files, load)
  {
    if n > 0 {
      assert keys[..n][..n - 1] == keys[..n - 1] && files[..n][..n - 1] == files[..n - 1];
    }
  }

  /** Olist.get_data on a given listing, with the file reader as a parameter. */
  method GetData<T>(listing: seq<string>, load: string -> T) returns (data: map<string, T>)
    ensures data == Loaded(listing, load)
    ensures data.Keys == set f | f in listing && EndsWith(f, CSV) :: DeriveKey(f)
  {
    var files := CsvFiles(listing);
    var keys := KeyNames(files);
    assert keys == DerivedKeys(files);
    data := BuildData(keys, files, load);
    LoadedKeys(listing, load);
  }

  // ---------------------------------------------------------------------
  // Properties of the key rule

  lemma {:induction false} RemoveAllShrinks(s: string, p: string, i: nat)
    requires p != [] && OccursAt(s, p, i)
    ensures |RemoveAll(s, p)| <= |s| - |p|
    decreases |s|
  {
    if s[..|p|] == p {
    } else {
      assert i != 0;
      assert s[1..][i - 1..i - 1 + |p|] == s[i..i + |p|];
      RemoveAllShrinks(s[1..], p, i - 1);
    }
  }

  lemma {:induction false} RemoveAllAbsent(s: string, p: string)
    requires p != [] && !Occurs(s, p)
    ensures RemoveAll(s, p) == s
    decreases |s|
  {
    if |s| >= |p| {
      assert !OccursAt(s, p, 0);
      assert s[..|p|] != p;
      forall i: nat | OccursAt(s[1..], p, i) ensures OccursAt(s, p, i + 1) {
        assert s[1..][i..i + |p|] == s[i + 1..i + 1 + |p|];
      }
      RemoveAllAbsent(s[1..], p);
    }
  }

  /** Inside stem + p + rest, the pattern p cannot start within a non-empty occurrence-free stem. */
  lemma NoEarlyMatch(stem: string, p: string, rest: string)
    requires p != [] && Unbordered(p) && !Occurs(stem, p) && |stem| > 0
    ensures (stem + p + rest)[..|p|] != p
  {
    var s := stem + p + rest;
    if |stem| >= |p| {
      assert !OccursAt(stem, p, 0);
      assert s[..|p|] == stem[..|p|];
    } else {
      var n := |p| - |stem|;
      assert s[..|p|][|stem|..] == p[..n];
      assert p[..n] != p[|p| - n..];
    }
  }

  lemma NoOccurrenceTail(stem: string, p: string)
    requires |stem| > 0 && !Occurs(stem, p)
    ensures !Occurs(stem[1..], p)
  {
    forall i: nat | OccursAt(stem[1..], p, i) ensures OccursAt(stem, p, i + 1) {
      assert stem[1..][i..i + |p|] == stem[i + 1..i + 1 + |p|];
    }
  }

  /**
   * An unbordered pattern that follows an occurrence-free stem is deleted,
   * and the deletion goes on through the rest of the string.
   */
  lemma {:induction false} RemoveLeading(stem: string, p: string, rest: string)
    requires p != [] && Unbordered(p) && !Occurs(stem, p)
    ensures RemoveAll(stem + p + rest, p) == stem + RemoveAll(rest, p)
    decreases |stem|
  {
    var s := stem + p + rest;
    if |stem| == 0 {
      assert s == p + rest && s[..|p|] == p && s[|p|..] == rest;
    } else {
      NoEarlyMatch(stem, p, rest);
      NoOccurrenceTail(stem, p);
      assert s[1..] == stem[1..] + p + rest;
      RemoveLeading(stem[1..], p, rest);
      assert [stem[0]] + (stem[1..] + RemoveAll(rest, p)) == stem + RemoveAll(rest, p);
    }
  }

  /** Removing an unbordered pattern from stem + pattern gives back the stem when the stem holds no occurrence. */
  lemma RemoveTrailing(stem: string, p: string)
    requires p != [] && Unbordered(p) && !Occurs(stem, p)
    ensures RemoveAll(stem + p, p) == stem
  {
    RemoveLeading(stem, p, []);
    assert stem + p + [] == stem + p;
  }

  lemma DatasetCsvUnbordered()
    ensures Unbordered(DATASET_CSV)
  {
    var p := DATASET_CSV;
    forall n | 0 < n < |p| ensures p[..n] != p[|p| - n..] {
      assert p[..n][0] == '_';
      assert p[|p| - n..][0] == p[|p| - n] != '_';
    }
  }

  lemma CsvUnbordered()
    ensures Unbordered(CSV)
  {
    var p := CSV;
    forall n | 0 < n < |p| ensures p[..n] != p[|p| - n..] {
      assert p[..n][0] == '.';
      assert p[|p| - n..][0] == p[|p| - n] != '.';
    }
  }

  /** A "<stem>_dataset.csv" file keys to the stem without "olist_" (lines 32-33, 37-38). */
  lemma DatasetFileKey(stem: string)
    requires !Occurs(stem, DATASET_CSV)
    ensures DeriveKey(stem + DATASET_CSV) == StripOlist(stem)
  {
    DatasetCsvUnbordered();
    RemoveTrailing(stem, DATASET_CSV);
    assert EndsWith(stem + DATASET_CSV, DATASET_CSV) by {
      assert (stem + DATASET_CSV)[|stem|..] == DATASET_CSV;
    }
  }

  /** A "<stem>.csv" file that is not a "_dataset.csv" file keys to the stem without "olist_" (lines 34-35, 37-38). */
  lemma CsvFileKey(stem: string)
    requires !Occurs(stem, CSV) && !EndsWith(stem + CSV, DATASET_CSV)
    ensures DeriveKey(stem + CSV) == StripOlist(stem)
  {
    CsvUnbordered();
    RemoveTrailing(stem, CSV);
    assert EndsWith(stem + CSV, CSV) by {
      assert (stem + CSV)[|stem|..] == CSV;
    }
  }

  /** Every derived key of a CSV file is strictly shorter than the file name. */
  lemma KeyShorter(file: string)
    requires EndsWith(file, CSV)
    ensures |DeriveKey(file)| < |file|
  {
    if EndsWith(file, DATASET_CSV) {
      assert OccursAt(file, DATASET_CSV, |file| - |DATASET_CSV|);
      RemoveAllShrinks(file, DATASET_CSV, |file| - |DATASET_CSV|);
    } else {
      assert OccursAt(file, CSV, |file| - |CSV|);
      RemoveAllShrinks(file, CSV, |file| - |CSV|);
    }
  }

  /** Stripping the prefix leaves exactly what follows it. */
  lemma StripOlistPrefix(key: string)
    ensures StripOlist(OLIST_PREFIX + key) == key
  {
    assert (OLIST_PREFIX + key)[..|OLIST_PREFIX|] == OLIST_PREFIX;
    assert (OLIST_PREFIX + key)[|OLIST_PREFIX|..] == key;
  }

  // The file names below are written as concatenations of their parts,
  // which keeps the verifier from evaluating the key rule character by character.

  /** "olist_sellers_dataset.csv" keys to "sellers". */
  lemma SellersKey()
    ensures DeriveKey("olist_" + "sellers" + "_dataset.csv") == "sellers"
  {
    var stem := OLIST_PREFIX + "sellers";
    MissingCharNoOccurrence(stem, DATASET_CSV, 2);
    DatasetFileKey(stem);
    StripOlistPrefix("sellers");
  }

  /** "olist_order_items_dataset.csv" keys to "order_items". */
  lemma OrderItemsKey()
    ensures DeriveKey("olist_" + "order_items" + "_dataset.csv") == "order_items"
  {
    var stem := OLIST_PREFIX + "order_items";
    MissingCharNoOccurrence(stem, DATASET_CSV, 2);
    DatasetFileKey(stem);
    StripOlistPrefix("order_items");
  }

  /** "product_category_name_translation.csv" keeps its whole stem. */
  lemma TranslationKey()
    ensures DeriveKey("product_category_name_translation" + ".csv") == "product_category_name_translation"
  {
    var stem := "product_category_name_translation";
    MissingCharNoOccurrence(stem, CSV, 0);
    assert !EndsWith(stem + CSV, DATASET_CSV) by {
      assert (stem + CSV)[|stem + CSV| - |DATASET_CSV|] == 'n' != DATASET_CSV[0];
    }
    CsvFileKey(stem);
    assert !StartsWith(stem, OLIST_PREFIX) by {
      assert stem[0] == 'p' != OLIST_PREFIX[0];
    }
  }

  /** str.replace removes every occurrence, not only the trailing one: "x.csv.csv" keys to "x". */
  lemma EveryOccurrenceRemoved()
    ensures DeriveKey("x" + ".csv" + ".csv") == "x"
  {
    CsvUnbordered();
    MissingCharNoOccurrence("x", CSV, 0);
    RemoveLeading("x", CSV, CSV);
    MissingCharNoOccurrence("", CSV, 0);
    RemoveTrailing("", CSV);
    assert "" + CSV == CSV;
  }

  /** The prefix is stripped once only: "olist_olist_x.csv" keys to "olist_x". */
  lemma PrefixStrippedOnce()
    ensures DeriveKey("olist_" + "olist_x" + ".csv") == "olist_x"
  {
    var stem := OLIST_PREFIX + "olist_x";
    MissingCharNoOccurrence(stem, CSV, 0);
    assert !EndsWith(stem + CSV, DATASET_CSV) by {
      assert (stem + CSV)[|stem + CSV| - |DATASET_CSV| + 1] == 'o' != DATASET_CSV[1];
    }
    CsvFileKey(stem);
    StripOlistPrefix("olist_x");
  }

  /** The suffix goes first: "olist_dataset.csv" loses "_dataset.csv" and keeps "olist", which is then too short to strip. */
  lemma SuffixBeforePrefix()
    ensures DeriveKey("olist" + "_dataset.csv") == "olist"
  {
    var stem := "olist";
    MissingCharNoOccurrence(stem, DATASET_CSV, 1);
    DatasetFileKey(stem);
    assert StripOlist(stem) == stem;
  }

  /** p cannot occur in s when one of its characters is missing from s. */
  lemma MissingCharNoOccurrence(s: string, p: string, k: nat)
    requires k < |p| && p[k] !in s
    ensures !Occurs(s, p)
  {
    forall i: nat | i + |p| <= |s| ensures !OccursAt(s, p, i) {
      assert s[i..i + |p|][k] == s[i + k];
    }
  }

  // ---------------------------------------------------------------------
  // Properties of the dictionary

  /** When several files derive the same key, the last of them is the one loaded (lines 43-46). */
  lemma {:induction false} LastFileWins<T>(keys: seq<string>, files: seq<string>, load: string -> T, i: nat)
    requires i < Min(|keys|, |files|)
    requires forall j :: i < j < Min(|keys|, |files|) ==> keys[j] != keys[i]
    ensures keys[i] in ZipToMap(keys, files, load)
    ensures ZipToMap(keys, files, load)[keys[i]] == load(files[i])
    decreases |keys|
  {
    var n := Min(|keys|, |files|);
    if i < n - 1 {
      LastFileWins(keys[..n - 1], files[..n - 1], load, i);
    }
  }

  lemma LoadedKeys<T>(listing: seq<string>, load: string -> T)
    ensures Loaded(listing, load).Keys == set f | f in listing && EndsWith(f, CSV) :: DeriveKey(f)
  {
    var files := CsvFiles(listing);
    var keys := DerivedKeys(files);
    assert Min(|keys|, |files|) == |files|;
    forall k | k in Loaded(listing, load).Keys
      ensures k in set f | f in listing && EndsWith(f, CSV) :: DeriveKey(f)
    {
      var i :| 0 <= i < |files| && keys[i] == k;
      assert files[i] in files;
    }
    forall f | f in listing && EndsWith(f, CSV)
      ensures DeriveKey(f) in Loaded(listing, load).Keys
    {
      var i :| 0 <= i < |files| && files[i] == f;
      assert keys[i] == DeriveKey(f);
    }
  }

  /** The i-th CSV file of the listing is the one loaded under its key unless a later CSV file derives the same key. */
  lemma LoadedLastWins<T>(listing: seq<string>, load: string -> T, i: nat)
    requires i < |CsvFiles(listing)|
    requires forall j :: i < j < |CsvFiles(listing)| ==>
      DeriveKey(CsvFiles(listing)[j]) != DeriveKey(CsvFiles(listing)[i])
    ensures DeriveKey(CsvFiles(listing)[i]) in Loaded(listing, load)
    ensures Loaded(listing, load)[DeriveKey(CsvFiles(listing)[i])] == load(CsvFiles(listing)[i])
  {
    var files := CsvFiles(listing);
    LastFileWins(DerivedKeys(files), files, load, i);
  }

  lemma {:induction false} CsvFilesConcat(a: seq<string>, b: seq<string>)
    ensures CsvFiles(a + b) == CsvFiles(a) + CsvFiles(b)
  {
    if |a| == 0 {
      assert a + b == b;
    } else {
      assert (a + b)[0] == a[0] && (a + b)[1..] == a[1..] + b;
      CsvFilesConcat(a[1..], b);
      var head := if EndsWith(a[0], CSV) then [a[0]] else [];
      assert CsvFiles(a + b) == head + (CsvFiles(a[1..]) + CsvFiles(b));
    }
  }

  /** With CsvFilesConcat this fixes the filter: CSV names are kept once each, in listing order. */
  lemma CsvFilesSingleton(f: string)
    ensures CsvFiles([f]) == if EndsWith(f, CSV) then [f] else []
  {
    assert [f][1..] == [];
  }

  /** The CSV files around one CSV name. */
  lemma CsvFilesAround(a: seq<string>, f: string, b: seq<string>)
    requires EndsWith(f, CSV)
    ensures CsvFiles(a + [f] + b) == CsvFiles(a) + [f] + CsvFiles(b)
  {
    CsvFilesConcat(a + [f], b);
    CsvFilesConcat(a, [f]);
    CsvFilesSingleton(f);
  }

  /**
   * The CSV file at position i of the listing is the one loaded under its
   * key unless a later CSV file of the listing derives the same key (lines 43-46).
   */
  lemma ListedFileWins<T>(listing: seq<string>, load: string -> T, i: nat)
    requires i < |listing| && EndsWith(listing[i], CSV)
    requires forall j :: i < j < |listing| && EndsWith(listing[j], CSV) ==> DeriveKey(listing[j]) != DeriveKey(listing[i])
    ensures DeriveKey(listing[i]) in Loaded(listing, load)
    ensures Loaded(listing, load)[DeriveKey(listing[i])] == load(listing[i])
  {
    var pre, post := listing[..i], listing[i + 1..];
    assert listing == pre + [listing[i]] + post;
    CsvFilesAround(pre, listing[i], post);
    var files, a, b := CsvFiles(listing), CsvFiles(pre), CsvFiles(post);
    var c := |a|;
    assert files[c] == listing[i];
    forall j | c < j < |files| ensures DeriveKey(files[j]) != DeriveKey(files[c]) {
      assert files[j] == b[j - c - 1];
      assert files[j] in b;
      var k :| 0 <= k < |post| && post[k] == files[j];
      assert listing[i + 1 + k] == files[j];
    }
    LoadedLastWins(listing, load, c);
  }

  /** A file that does not end in ".csv" changes nothing, wherever it stands in the listing (line 25). */
  lemma NonCsvIgnored<T>(before: seq<string>, file: string, after: seq<string>, load: string -> T)
    requires !EndsWith(file, CSV)
    ensures Loaded(before + [file] + after, load) == Loaded(before + after, load)
  {
    NonCsvDropped(before, file, after);
    var l1, l2 := before + [file] + after, before + after;
    assert Loaded(l1, load) == ZipToMap(DerivedKeys(CsvFiles(l1)), CsvFiles(l1), load);
  }

  lemma NonCsvDropped(before: seq<string>, file: string, after: seq<string>)
    requires !EndsWith(file, CSV)
    ensures CsvFiles(before + [file] + after) == CsvFiles(before + after)
  {
    CsvFilesConcat(before + [file], after);
    CsvFilesConcat(before, [file]);
    CsvFilesConcat(before, after);
    assert CsvFiles([file]) == [] by {
      assert [file][1..] == [];
    }
    assert CsvFiles(before) + [] == CsvFiles(before);
  }

  /** A directory holding only olist_sellers_dataset.csv yields exactly the key "sellers". */
  lemma SellersDirectory<T>(load: string -> T)
    ensures var f := "olist_" + "sellers" + "_dataset.csv";
      Loaded([f], load) == map["sellers" := load(f)]
  {
    var f := "olist_" + "sellers" + "_dataset.csv";
    assert EndsWith(f, CSV) by {
      assert f == (OLIST_PREFIX + "sellers" + "_dataset") + CSV;
    }
    assert CsvFiles([f]) == [f] by {
      assert [f][1..] == [];
    }
    SellersKey();
    assert DerivedKeys([f]) == ["sellers"];
  }
}
