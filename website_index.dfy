/**
 * The index of the interactive website (interactive_website_json_creator.py): one entry per
 * SIC code of the catalog, and one entry per frequent address that has a non-empty result file,
 * each naming the result file (without its `.csv`) and the number of data rows it holds.
 * The file system is a map from path to file contents; a path missing from it is a file that
 * does not exist.
 */
module WebsiteIndex {
  import opened Wrappers
  import opened Seqs
  import opened Text

  /** The folder holding the result files. */
  const CsvFolder: string := "output/"

  // ================================================================ file names

  /** The characters the pattern `[\\/:*?"<>|]` matches. */
  predicate IsForbidden(c: char) {
    c in "\\/:*?\"<>|"
  }

  /** `s.replace(" ", "_")`. */
  function SpacesReplaced(s: string): string {
    seq(|s|, i requires 0 <= i < |s| => if s[i] == ' ' then '_' else s[i])
  }

  /** `re.sub(r'[\\/:*?"<>|]', '_', s)`. */
  function ForbiddenReplaced(s: string): string {
    seq(|s|, i requires 0 <= i < |s| => if IsForbidden(s[i]) then '_' else s[i])
  }

  /** The sanitised text of a description or an address: spaces first, then the forbidden characters. */
  function Sanitize(s: string): string {
    ForbiddenReplaced(SpacesReplaced(s))
  }

  /** A character a sanitised text may hold. */
  predicate IsSafe(c: char) {
    c != ' ' && !IsForbidden(c)
  }

  /**
   * Sanitising keeps the length, turns exactly the spaces and the forbidden characters into
   * underscores, keeps every other character, and leaves none of them behind.
   */
  lemma SanitizeMeaning(s: string)
    ensures |Sanitize(s)| == |s|
    ensures forall i | 0 <= i < |s| :: IsSafe(Sanitize(s)[i])
    ensures forall i | 0 <= i < |s| :: Sanitize(s)[i] == (if IsSafe(s[i]) then s[i] else '_')
  {
  }

  /** Sanitising a sanitised text changes nothing. */
  lemma SanitizeIdempotent(s: string)
    ensures Sanitize(Sanitize(s)) == Sanitize(s)
  {
    SanitizeMeaning(s);
    SanitizeMeaning(Sanitize(s));
  }

  /** The result file of a SIC code: `f"results-{code}_{sanitized_text}.csv"`. */
  function SicFilename(code: string, description: string): string {
    "results-" + code + "_" + Sanitize(description) + ".csv"
  }

  /** The result file of an address: `f"results-{sanitized_text}.csv"`. */
  function AddressFilename(address: string): string {
    "results-" + Sanitize(address) + ".csv"
  }

  /** The name the website is given: `csv_filename.replace(".csv", "")`, which drops every `.csv`. */
  function Stem(filename: string): string {
    RemoveAll(filename, ".csv")
  }

  /**
   * Dropping every `.csv` from `x + ".csv"` gives back `x` when `x` holds no `.csv`: no
   * occurrence can straddle the end of `x`, because no proper end of `.csv` begins it.
   */
  lemma {:induction false} StemOfCsvName(x: string)
    requires !Occurs(".csv", x)
    ensures Stem(x + ".csv") == x
    decreases |x|
  {
    var s := x + ".csv";
    if x == [] {
      assert s == ".csv";
      assert s[4..] == [];
    } else {
      assert !(".csv" <= x);
      assert !(".csv" <= s) by {
        assert s[|x|] == '.';
        if |x| < 4 {
          assert ".csv"[|x|] != '.';
        } else {
          assert s[..4] == x[..4];
        }
      }
      assert !Occurs(".csv", x[1..]);
      StemOfCsvName(x[1..]);
      assert s[1..] == x[1..] + ".csv";
    }
  }

  /** With no `.csv` inside, the website name of a SIC result file is the file name without its extension. */
  lemma SicStem(code: string, description: string)
    requires !Occurs(".csv", "results-" + code + "_" + Sanitize(description))
    ensures Stem(SicFilename(code, description)) == "results-" + code + "_" + Sanitize(description)
  {
    StemOfCsvName("results-" + code + "_" + Sanitize(description));
  }

  /** With no `.csv` inside, the website name of an address result file is the file name without its extension. */
  lemma AddressStem(address: string)
    requires !Occurs(".csv", "results-" + Sanitize(address))
    ensures Stem(AddressFilename(address)) == "results-" + Sanitize(address)
  {
    StemOfCsvName("results-" + Sanitize(address));
  }

  // ================================================================ counting rows

  predicate IsLineBreak(c: char) {
    c == '\n' || c == '\r'
  }

  /** The line ends of text-mode reading with universal newlines: `\n`, `\r\n` and a lone `\r`. */
  function Terminators(s: string): nat
    decreases |s|
  {
    if s == [] then 0
    else if s[0] == '\r' && |s| > 1 && s[1] == '\n' then 1 + Terminators(s[2..])
    else if IsLineBreak(s[0]) then 1 + Terminators(s[1..])
    else Terminators(s[1..])
  }

  /** `sum(1 for _ in csv_file)`: the lines read, a last line without a line end included. */
  function LineCount(s: string): nat {
    Terminators(s) + if s != [] && !IsLineBreak(s[|s| - 1]) then 1 else 0
  }

  /** The rows shown for a result file: its lines but the header, never below 0, and 0 for a missing file. */
  function RowCount(files: map<string, string>, path: string): nat {
    if path !in files then 0
    else if LineCount(files[path]) >= 1 then LineCount(files[path]) - 1
    else 0
  }

  /** A CSV file as the `csv` module writes it: every record ended by `\r\n`. */
  function CsvText(records: seq<string>): (t: string)
    ensures records != [] ==> t != [] && t[|t| - 1] == '\n'
  {
    if records == [] then "" else records[0] + "\r\n" + CsvText(records[1..])
  }

  predicate SingleLine(s: string) {
    forall k | 0 <= k < |s| :: !IsLineBreak(s[k])
  }

  lemma {:induction false} TerminatorsAfterLine(line: string, rest: string)
    requires SingleLine(line)
    ensures Terminators(line + "\r\n" + rest) == 1 + Terminators(rest)
    decreases |line|
  {
    var s := line + "\r\n" + rest;
    if line == [] {
      assert s == "\r\n" + rest;
      assert s[2..] == rest;
    } else {
      assert s[1..] == line[1..] + "\r\n" + rest;
      TerminatorsAfterLine(line[1..], rest);
    }
  }

  lemma {:induction false} TerminatorsOfCsv(records: seq<string>)
    requires forall i | 0 <= i < |records| :: SingleLine(records[i])
    ensures Terminators(CsvText(records)) == |records|
    decreases |records|
  {
    if records != [] {
      TerminatorsOfCsv(records[1..]);
      TerminatorsAfterLine(records[0], CsvText(records[1..]));
    }
  }

  /** A written table of single-line records reads back as one line per record. */
  lemma LineCountOfCsv(records: seq<string>)
    requires records != []
    requires forall i | 0 <= i < |records| :: SingleLine(records[i])
    ensures LineCount(CsvText(records)) == |records|
  {
    TerminatorsOfCsv(records);
  }

  /** A result file holding a header and single-line rows shows exactly its rows. */
  lemma RowCountOfCsv(files: map<string, string>, path: string, header: string, rows: seq<string>)
    requires path in files && files[path] == CsvText([header] + rows)
    requires SingleLine(header) && forall i | 0 <= i < |rows| :: SingleLine(rows[i])
    ensures RowCount(files, path) == |rows|
  {
    var records := [header] + rows;
    forall i | 0 <= i < |records| ensures SingleLine(records[i]) {
      if i > 0 {
        assert records[i] == rows[i - 1];
      }
    }
    LineCountOfCsv(records);
  }

  // ================================================================ str.title

  predicate IsLetter(c: char) {
    IsLower(c) || IsUpper(c)
  }

  /** `str.title()` from a point where the previous character is a letter or not. */
  function TitleFrom(s: string, afterLetter: bool): (r: string)
    ensures |r| == |s|
    decreases |s|
  {
    if s == [] then []
    else
      var c := if !IsLetter(s[0]) then s[0] else if afterLetter then LowerChar(s[0]) else UpperChar(s[0]);
      [c] + TitleFrom(s[1..], IsLetter(s[0]))
  }

  /** `str.title()`: a letter is upper case after a non-letter (or at the start) and lower case after a letter. */
  function Title(s: string): string {
    TitleFrom(s, false)
  }

  /** The reference reading of `str.title()`, one position at a time. */
  function TitleAt(s: string, i: nat): char
    requires i < |s|
  {
    if !IsLetter(s[i]) then s[i]
    else if i > 0 && IsLetter(s[i - 1]) then LowerChar(s[i])
    else UpperChar(s[i])
  }

  lemma {:induction false} TitleFromAt(s: string, afterLetter: bool)
    requires s != [] ==> afterLetter == false
    ensures forall i | 0 <= i < |s| :: TitleFrom(s, afterLetter)[i] == TitleAt(s, i)
    decreases |s|
  {
    if s != [] {
      TitleTail(s, 1);
    }
  }

  /** The title of a tail, started after the character before it, is the tail of the title. */
  lemma {:induction false} TitleTail(s: string, j: nat)
    requires 0 < j <= |s|
    ensures forall i | j <= i < |s| :: TitleFrom(s[j..], IsLetter(s[j - 1]))[i - j] == TitleAt(s, i)
    decreases |s| - j
  {
    if j < |s| {
      TitleTail(s, j + 1);
      assert s[j..][1..] == s[j + 1..];
    }
  }

  /** `Title` agrees with the position-by-position reading. */
  lemma TitleMeaning(s: string)
    ensures |Title(s)| == |s|
    ensures forall i | 0 <= i < |s| :: Title(s)[i] == TitleAt(s, i)
  {
    if s != [] {
      TitleFromAt(s, false);
    }
  }

  lemma {:induction false} TitleFromIdempotent(s: string, afterLetter: bool)
    ensures TitleFrom(TitleFrom(s, afterLetter), afterLetter) == TitleFrom(s, afterLetter)
    decreases |s|
  {
    if s != [] {
      var t := TitleFrom(s, afterLetter);
      assert IsLetter(t[0]) == IsLetter(s[0]);
      assert t[1..] == TitleFrom(s[1..], IsLetter(s[0]));
      TitleFromIdempotent(s[1..], IsLetter(s[0]));
    }
  }

  /** Title-casing twice is title-casing once. */
  lemma TitleIdempotent(s: string)
    ensures Title(Title(s)) == Title(s)
  {
    TitleFromIdempotent(s, false);
  }

  // ================================================================ the two indexes

  /** One entry of the website's index: the caption shown, the result name, and the row count. */
  datatype IndexEntry = IndexEntry(caption: string, name: string, rows: nat)

  /** The entry for SIC code `code` with its catalog description. */
  function SicEntry(files: map<string, string>, code: string, description: string): IndexEntry {
    var filename := SicFilename(code, description);
    IndexEntry(description, Stem(filename), RowCount(files, PathJoin(CsvFolder, filename)))
  }

  /** The entry for a frequent address, kept only when its result file shows at least one row. */
  function AddressEntry(files: map<string, string>, address: string): (e: Option<IndexEntry>)
    ensures e.Some? ==> e.value.rows > 0
  {
    var filename := AddressFilename(address);
    var rows := RowCount(files, PathJoin(CsvFolder, filename));
    if rows > 0 then Some(IndexEntry(Title(address), Stem(filename), rows)) else None
  }

  /** The address entry of one `(address, frequency)` pair of `top_addresses.json`. */
  function AddressEntryOf(files: map<string, string>): ((string, int)) -> Option<IndexEntry> {
    (pair: (string, int)) => AddressEntry(files, pair.0)
  }

  /** The address index: the kept entries, in the order of `top_addresses.json`. */
  function AddressIndex(files: map<string, string>, topAddresses: seq<(string, int)>): seq<IndexEntry> {
    FilterMap(topAddresses, AddressEntryOf(files))
  }

  /** The row count the script computes: lines less the header, clamped at 0; 0 for a missing file. */
  method CountRows(files: map<string, string>, csvFilepath: string) returns (numLines: nat)
    ensures numLines == RowCount(files, csvFilepath)
  {
    numLines := 0;
    if csvFilepath in files {
      var lines: int := LineCount(files[csvFilepath]) - 1;
      lines := if lines > 0 then lines else 0;
      numLines := lines;
    }
  }

  /** The loop over the catalog's codes, in the catalog's order. */
  method BuildSicIndex(allSicCodes: seq<(string, string)>, files: map<string, string>) returns (exportedResults: seq<IndexEntry>)
    ensures |exportedResults| == |allSicCodes|
    ensures forall i | 0 <= i < |allSicCodes| ::
              exportedResults[i] == SicEntry(files, allSicCodes[i].0, allSicCodes[i].1)
  {
    exportedResults := [];
    for i := 0 to |allSicCodes|
      invariant |exportedResults| == i
      invariant forall k | 0 <= k < i :: exportedResults[k] == SicEntry(files, allSicCodes[k].0, allSicCodes[k].1)
    {
      var code, description := allSicCodes[i].0, allSicCodes[i].1;
      var sanitizedText := Sanitize(description);
      var csvFilename := "results-" + code + "_" + sanitizedText + ".csv";
      var csvFilepath := PathJoin(CsvFolder, csvFilename);
      var numLines := CountRows(files, csvFilepath);
      exportedResults := exportedResults + [IndexEntry(description, RemoveAll(csvFilename, ".csv"), numLines)];
    }
  }

  /** The loop over the frequent addresses, keeping those with rows. */
  method BuildAddressIndex(topAddresses: seq<(string, int)>, files: map<string, string>) returns (exportedResults: seq<IndexEntry>)
    ensures exportedResults == AddressIndex(files, topAddresses)
  {
    exportedResults := [];
    for i := 0 to |topAddresses|
      invariant exportedResults == AddressIndex(files, topAddresses[..i])
    {
      var address := topAddresses[i].0;
      var sanitizedText := Sanitize(address);
      var csvFilename := "results-" + sanitizedText + ".csv";
      var csvFilepath := PathJoin(CsvFolder, csvFilename);
      var numLines := CountRows(files, csvFilepath);
      FilterMapAppend(topAddresses[..i], topAddresses[i], AddressEntryOf(files));
      assert topAddresses[..i + 1] == topAddresses[..i] + [topAddresses[i]];
      if numLines > 0 {
        exportedResults := exportedResults + [IndexEntry(Title(address), RemoveAll(csvFilename, ".csv"), numLines)];
      }
    }
    assert topAddresses[..|topAddresses|] == topAddresses;
  }

  /**
   * Every address entry shows at least one row and comes from a listed address; every listed
   * address whose result file shows rows has its entry; and there are at most as many entries
   * as addresses.
   */
  lemma AddressIndexMeaning(files: map<string, string>, topAddresses: seq<(string, int)>)
    ensures |AddressIndex(files, topAddresses)| <= |topAddresses|
    ensures forall e | e in AddressIndex(files, topAddresses) ::
              e.rows > 0 && exists i | 0 <= i < |topAddresses| :: AddressEntry(files, topAddresses[i].0) == Some(e)
    ensures forall i | 0 <= i < |topAddresses| ::
              RowCount(files, PathJoin(CsvFolder, AddressFilename(topAddresses[i].0))) > 0 ==>
                AddressEntry(files, topAddresses[i].0).Some? &&
                AddressEntry(files, topAddresses[i].0).value in AddressIndex(files, topAddresses)
  {
    var f := AddressEntryOf(files);
    forall e | e in AddressIndex(files, topAddresses)
      ensures e.rows > 0 && exists i | 0 <= i < |topAddresses| :: AddressEntry(files, topAddresses[i].0) == Some(e)
    {
      FilterMapSources(topAddresses, f, e);
      var i :| 0 <= i < |topAddresses| && f(topAddresses[i]) == Some(e);
    }
    forall i | 0 <= i < |topAddresses| && AddressEntry(files, topAddresses[i].0).Some?
      ensures AddressEntry(files, topAddresses[i].0).value in AddressIndex(files, topAddresses)
    {
      FilterMapSources(topAddresses, f, AddressEntry(files, topAddresses[i].0).value);
    }
  }
}
