/**
 * The export stage (3_export_results.py): validating the requested SIC codes and building the
 * table title, dropping the companies the regulator knows, the width of the result table,
 * the CSV header and rows, and the thousands grouping of the numbers shown.
 */
module Export {
  import opened Wrappers
  import opened Seqs
  import opened Text
  import opened Records

  // ================================================================ SIC code arguments and the title

  /** The distinct elements of `s`, each where it first occurs (the key order of a dict built from `s`). */
  function Dedup(s: seq<string>): (r: seq<string>)
    ensures forall i, j | 0 <= i < j < |r| :: r[i] != r[j]
    ensures forall x :: x in r <==> x in s
    ensures |r| <= |s|
    decreases |s|
  {
    if s == [] then []
    else
      var init := s[..|s| - 1];
      var last := s[|s| - 1];
      assert s == init + [last];
      if last in Dedup(init) then Dedup(init) else Dedup(init) + [last]
  }

  /** A requested code the catalog does not know. */
  function MissingFrom(catalog: map<string, string>): string -> bool {
    (code: string) => code !in catalog
  }

  /** `{code: catalog[code] for code in codes}`, for codes all in the catalog. */
  function Relevant(codes: seq<string>, catalog: map<string, string>): map<string, string>
    requires forall i | 0 <= i < |codes| :: codes[i] in catalog
  {
    map code | code in codes :: catalog[code]
  }

  /** The title: "code: description" for a single code, otherwise the codes joined by ", ". */
  function TableTitle(keys: seq<string>, relevant: map<string, string>): string
    requires forall i | 0 <= i < |keys| :: keys[i] in relevant
  {
    if |keys| == 1 then keys[0] + ": " + relevant[keys[0]] else Join(keys, ", ")
  }

  /**
   * The check of the requested codes: any code missing from the catalog rejects the whole
   * request, listing the missing codes in the order given; otherwise the relevant codes and
   * the title.
   */
  function CheckCodes(codes: seq<string>, catalog: map<string, string>): Result<(map<string, string>, string), seq<string>> {
    var invalid := Filter(codes, MissingFrom(catalog));
    if invalid != [] then Err(invalid)
    else
      FilterEmpty(codes, MissingFrom(catalog));
      var relevant := Relevant(codes, catalog);
      Ok((relevant, TableTitle(Dedup(codes), relevant)))
  }

  /** The argument is the codes joined by `-`. */
  function ReadSicArguments(argument: string, catalog: map<string, string>): Result<(map<string, string>, string), seq<string>> {
    CheckCodes(Split(argument, '-'), catalog)
  }

  /**
   * The request is rejected exactly when some code is missing from the catalog, with exactly
   * the missing codes in their order, each as often as it was given; otherwise the relevant codes are exactly the requested
   * ones, with their catalog descriptions.
   */
  lemma CheckCodesMeaning(codes: seq<string>, catalog: map<string, string>)
    ensures var result := CheckCodes(codes, catalog);
            && (result.Err? <==> exists i | 0 <= i < |codes| :: codes[i] !in catalog)
            && (result.Err? ==>
                  && IsSubsequence(result.error, codes)
                  && (forall code :: code in result.error <==> code in codes && code !in catalog)
                  && forall code :: multiset(result.error)[code] == if code in catalog then 0 else multiset(codes)[code])
            && (result.Ok? ==>
                  && result.value.0.Keys == set code | code in codes
                  && forall code | code in result.value.0 :: result.value.0[code] == catalog[code])
  {
    var p := MissingFrom(catalog);
    var invalid := Filter(codes, p);
    FilterEmpty(codes, p);
    FilterIsSubsequence(codes, p);
    forall code | code in codes && code !in catalog ensures code in invalid {
      var i :| 0 <= i < |codes| && codes[i] == code;
    }
    MissingCounted(codes, catalog);
  }

  /** Each missing code is listed as often as it was given. */
  lemma MissingCounted(codes: seq<string>, catalog: map<string, string>)
    ensures forall code :: multiset(Filter(codes, MissingFrom(catalog)))[code]
                           == if code in catalog then 0 else multiset(codes)[code]
  {
    forall code
      ensures multiset(Filter(codes, MissingFrom(catalog)))[code] == if code in catalog then 0 else multiset(codes)[code]
    {
      FilterMultiplicity(codes, MissingFrom(catalog), code);
    }
  }

  /** In a sequence without repetitions the first two elements differ. */
  lemma FirstTwoDiffer(keys: seq<string>)
    requires forall i, j | 0 <= i < j < |keys| :: keys[i] != keys[j]
    ensures 1 < |keys| ==> keys[0] != keys[1]
  {
  }

  /** A list repeating one code has that code as its only distinct element. */
  lemma DedupOfRepeated(codes: seq<string>, code: string)
    requires codes != []
    requires forall i | 0 <= i < |codes| :: codes[i] == code
    ensures Dedup(codes) == [code]
  {
    var keys := Dedup(codes);
    assert codes[0] in keys;
    assert forall k | 0 <= k < |keys| :: keys[k] == code by {
      forall k | 0 <= k < |keys| ensures keys[k] == code {
        assert keys[k] in codes;
      }
    }
    FirstTwoDiffer(keys);
  }

  /**
   * The distinct codes come in the order of their first occurrence, as the keys of a dict
   * built from `s` do: every occurrence of a later key is preceded by an occurrence of each
   * earlier one.
   */
  lemma {:induction false} DedupFirstOccurrence(s: seq<string>)
    ensures forall i, j, k | 0 <= i < j < |Dedup(s)| && 0 <= k < |s| && s[k] == Dedup(s)[j] :: Dedup(s)[i] in s[..k]
    decreases |s|
  {
    if s != [] {
      var init := s[..|s| - 1];
      var last := s[|s| - 1];
      assert s == init + [last];
      DedupFirstOccurrence(init);
      var q := Dedup(init);
      var r := Dedup(s);
      assert r == q || (r == q + [last] && last !in q);
      forall i, j, k | 0 <= i < j < |r| && 0 <= k < |s| && s[k] == r[j] ensures r[i] in s[..k] {
        assert i < |q| && r[i] == q[i];
        if k < |init| {
          assert init[k] == r[j] && s[..k] == init[..k];
          assert r[j] in q;
          assert j < |q| && r[j] == q[j];
          assert q[i] in init[..k];
        } else {
          assert s[..k] == init;
          assert q[i] in init;
        }
      }
    }
  }

  /** A request naming a single code, perhaps more than once, is titled "code: description". */
  lemma TitleOfOneCode(codes: seq<string>, catalog: map<string, string>, code: string)
    requires codes != []
    requires code in catalog
    requires forall i | 0 <= i < |codes| :: codes[i] == code
    ensures CheckCodes(codes, catalog) == Ok((map[code := catalog[code]], code + ": " + catalog[code]))
  {
    FilterEmpty(codes, MissingFrom(catalog));
    DedupOfRepeated(codes, code);
    assert codes[0] == code;
    assert (set c | c in codes) == {code};
    assert Relevant(codes, catalog) == map[code := catalog[code]];
  }

  /** A request naming two different codes is titled by the distinct codes joined by ", ". */
  lemma TitleOfSeveralCodes(codes: seq<string>, catalog: map<string, string>, i: nat, j: nat)
    requires i < |codes| && j < |codes| && codes[i] != codes[j]
    requires forall k | 0 <= k < |codes| :: codes[k] in catalog
    ensures var result := CheckCodes(codes, catalog);
            result.Ok? && result.value.1 == Join(Dedup(codes), ", ")
  {
    FilterEmpty(codes, MissingFrom(catalog));
    var keys := Dedup(codes);
    assert codes[i] in keys && codes[j] in keys;
  }

  // ================================================================ remove_regulated_companies

  /** No regulator entry: the status is missing or empty. */
  predicate Unregulated(c: SuspectEntry) {
    c.regulatoryStatus.None? || c.regulatoryStatus.value == []
  }

  predicate Regulated(c: SuspectEntry) {
    !Unregulated(c)
  }

  function RemoveRegulatedCompanies(companies: seq<SuspectEntry>): seq<SuspectEntry> {
    Filter(companies, Unregulated)
  }

  /**
   * The unregulated companies are kept, in their order, and only they; the companies removed
   * and the companies kept add up to all of them.
   */
  lemma RemoveRegulatedMeaning(companies: seq<SuspectEntry>)
    ensures IsSubsequence(RemoveRegulatedCompanies(companies), companies)
    ensures forall c :: c in RemoveRegulatedCompanies(companies) <==> c in companies && Unregulated(c)
    ensures |Filter(companies, Regulated)| + |RemoveRegulatedCompanies(companies)| == |companies|
  {
    FilterIsSubsequence(companies, Unregulated);
    FilterPartition(companies, Regulated, Unregulated);
    forall c | c in companies && Unregulated(c) ensures c in RemoveRegulatedCompanies(companies) {
      var i :| 0 <= i < |companies| && companies[i] == c;
    }
  }

  /** Removing the regulated companies a second time removes nothing. */
  lemma RemoveRegulatedIdempotent(companies: seq<SuspectEntry>)
    ensures RemoveRegulatedCompanies(RemoveRegulatedCompanies(companies)) == RemoveRegulatedCompanies(companies)
  {
    FilterIdempotent(companies, Unregulated);
  }

  // ================================================================ the table width

  /** The largest number of suspect items of any company; 0 for no companies. */
  function MaxSuspects(companies: seq<SuspectEntry>): (m: nat)
    ensures forall i | 0 <= i < |companies| :: |companies[i].suspectData| <= m
    ensures companies == [] ==> m == 0
    ensures companies != [] ==> exists i | 0 <= i < |companies| :: |companies[i].suspectData| == m
    decreases |companies|
  {
    if companies == [] then 0
    else
      var init := companies[..|companies| - 1];
      var n := |companies[|companies| - 1].suspectData|;
      var m := MaxSuspects(init);
      assert forall i | 0 <= i < |init| :: companies[i] == init[i];
      if n > m then n else m
  }

  // ================================================================ create_csv

  /** One CSV cell: text, or a number written as Python writes it. */
  datatype Cell = Text(text: string) | Number(value: real)

  datatype Csv = Csv(header: seq<string>, rows: seq<seq<Cell>>)

  const FixedColumns: seq<string> := ["Company Name", "Company Number", "Cash", "SIC1", "SIC2", "SIC3", "SIC4"]

  function FixedCells(c: SuspectEntry): seq<Cell> {
    [Text(c.companyName), Text(c.companyNumber), Number(c.cash), Text(c.sic1), Text(c.sic2), Text(c.sic3), Text(c.sic4)]
  }

  /** The header: the fixed columns, then "Item k" and "Value k" for k from 1 to `maxItems`. */
  predicate IsHeader(header: seq<string>, maxItems: nat) {
    && |header| == |FixedColumns| + 2 * maxItems
    && header[..|FixedColumns|] == FixedColumns
    && forall i | 0 <= i < maxItems ::
         && header[|FixedColumns| + 2 * i] == "Item " + NatToString(i + 1)
         && header[|FixedColumns| + 2 * i + 1] == "Value " + NatToString(i + 1)
  }

  /** The number of empty pairs that pad a row with `items` pairs to `maxItems` (`range` of a negative is empty). */
  function Padding(maxItems: nat, items: nat): nat {
    if maxItems > items then maxItems - items else 0
  }

  /** A company's row: its fixed cells, its suspect pairs in order, then empty pairs. */
  predicate IsRow(row: seq<Cell>, c: SuspectEntry, maxItems: nat) {
    var items := |c.suspectData|;
    && |row| == |FixedColumns| + 2 * (items + Padding(maxItems, items))
    && row[..|FixedColumns|] == FixedCells(c)
    && (forall j | 0 <= j < items ::
          row[|FixedColumns| + 2 * j] == Text(c.suspectData[j].0) && row[|FixedColumns| + 2 * j + 1] == Number(c.suspectData[j].1))
    && (forall j | items <= j < items + Padding(maxItems, items) ::
          row[|FixedColumns| + 2 * j] == Text("") && row[|FixedColumns| + 2 * j + 1] == Text(""))
  }

  method CsvHeader(maxItems: nat) returns (header: seq<string>)
    ensures IsHeader(header, maxItems)
  {
    header := FixedColumns;
    var i := 0;
    while i < maxItems
      invariant 0 <= i <= maxItems
      invariant |header| == |FixedColumns| + 2 * i
      invariant header[..|FixedColumns|] == FixedColumns
      invariant forall k | 0 <= k < i ::
                  && header[|FixedColumns| + 2 * k] == "Item " + NatToString(k + 1)
                  && header[|FixedColumns| + 2 * k + 1] == "Value " + NatToString(k + 1)
    {
      header := header + ["Item " + NatToString(i + 1), "Value " + NatToString(i + 1)];
      i := i + 1;
    }
  }

  method CsvRow(company: SuspectEntry, maxItems: nat) returns (row: seq<Cell>)
    ensures IsRow(row, company, maxItems)
  {
    var items := company.suspectData;
    row := FixedCells(company);
    var j := 0;
    while j < |items|
      invariant 0 <= j <= |items|
      invariant |row| == |FixedColumns| + 2 * j
      invariant row[..|FixedColumns|] == FixedCells(company)
      invariant forall k | 0 <= k < j ::
                  row[|FixedColumns| + 2 * k] == Text(items[k].0) && row[|FixedColumns| + 2 * k + 1] == Number(items[k].1)
    {
      var (item, value) := items[j];
      row := row + [Text(item), Number(value)];
      j := j + 1;
    }
    var p := 0;
    while p < Padding(maxItems, |items|)
      invariant 0 <= p <= Padding(maxItems, |items|)
      invariant |row| == |FixedColumns| + 2 * (|items| + p)
      invariant row[..|FixedColumns|] == FixedCells(company)
      invariant forall k | 0 <= k < |items| ::
                  row[|FixedColumns| + 2 * k] == Text(items[k].0) && row[|FixedColumns| + 2 * k + 1] == Number(items[k].1)
      invariant forall k | |items| <= k < |items| + p ::
                  row[|FixedColumns| + 2 * k] == Text("") && row[|FixedColumns| + 2 * k + 1] == Text("")
    {
      row := row + [Text(""), Text("")];
      p := p + 1;
    }
  }

  /**
   * The CSV table; `None` where the source fails, on an empty list (the maximum of nothing).
   * Every row pads the company's items to the widest company's.
   */
  method CreateCsv(suspectCompanies: seq<SuspectEntry>) returns (csv: Option<Csv>)
    ensures csv.None? <==> suspectCompanies == []
    ensures csv.Some? ==>
              && IsHeader(csv.value.header, MaxSuspects(suspectCompanies))
              && |csv.value.rows| == |suspectCompanies|
              && forall r | 0 <= r < |suspectCompanies| ::
                   IsRow(csv.value.rows[r], suspectCompanies[r], MaxSuspects(suspectCompanies))
  {
    if suspectCompanies == [] {
      return None;
    }
    var maxItems := MaxSuspects(suspectCompanies);
    var header := CsvHeader(maxItems);
    var rows: seq<seq<Cell>> := [];
    var r := 0;
    while r < |suspectCompanies|
      invariant 0 <= r <= |suspectCompanies|
      invariant |rows| == r
      invariant forall k | 0 <= k < r :: IsRow(rows[k], suspectCompanies[k], maxItems)
    {
      var row := CsvRow(suspectCompanies[r], maxItems);
      rows := rows + [row];
      r := r + 1;
    }
    return Some(Csv(header, rows));
  }

  /** Every row of the table is as wide as its header. */
  lemma UniformWidth(suspectCompanies: seq<SuspectEntry>, header: seq<string>, row: seq<Cell>, r: nat)
    requires r < |suspectCompanies|
    requires IsHeader(header, MaxSuspects(suspectCompanies))
    requires IsRow(row, suspectCompanies[r], MaxSuspects(suspectCompanies))
    ensures |row| == |header|
  {
  }

  // ================================================================ format_number

  /** A value the template passes to the filter: JSON numbers, text, booleans, and the rest (null, lists, objects). */
  datatype JsonValue = JInt(i: int) | JReal(x: real) | JText(s: string) | JBool(b: bool) | JOther

  /** What the filter gives back. */
  datatype Formatted =
    | Grouped(text: string)   // `"{:,}".format(int(value))`
    | FloatGrouped(x: real)   // `"{:,}".format(float(value))`
    | AsIs                    // the value itself

  /** Python's `int(x)` for a float: truncation towards zero. */
  function Truncate(x: real): (n: int)
    ensures x >= 0.0 ==> n as real <= x < n as real + 1.0
    ensures x < 0.0 ==> n as real - 1.0 < x <= n as real
  {
    if x >= 0.0 then x.Floor else -((-x).Floor)
  }

  /** Digits with a comma before every group of three, counting from the right. */
  function GroupDigits(d: string): (r: string)
    ensures d != [] ==> |r| == |d| + (|d| - 1) / 3 && r[0] == d[0]
    ensures d == [] ==> r == []
    decreases |d|
  {
    if |d| <= 3 then d else GroupDigits(d[..|d| - 3]) + "," + d[|d| - 3..]
  }

  /** `"{:,}".format(n)` for an integer. */
  function FormatInt(n: int): string {
    if n < 0 then "-" + GroupDigits(NatToString(-n)) else GroupDigits(NatToString(n))
  }

  /**
   * `format_number`: `"{:,}".format(int(value))`, else `"{:,}".format(float(value))`, else the
   * value itself. `int` truncates a float, reads integer text and takes a boolean as 0 or 1.
   */
  function FormatNumber(value: JsonValue): Formatted {
    match value
    case JInt(i) => Grouped(FormatInt(i))
    case JReal(x) => Grouped(FormatInt(Truncate(x)))
    case JBool(b) => Grouped(FormatInt(if b then 1 else 0))
    case JText(s) =>
      (match ParseInt(s)
       case Some(i) => Grouped(FormatInt(i))
       case None => if ParseFloat(s).Some? then FloatGrouped(ParseFloat(s).value) else AsIs)
    case JOther => AsIs
  }

  /** The pieces of a text, glued together. */
  function Concat(parts: seq<string>): string
    decreases |parts|
  {
    if parts == [] then "" else Concat(parts[..|parts| - 1]) + parts[|parts| - 1]
  }

  /** A piece without a comma, appended after a comma, is one more piece. */
  lemma LastPiece(a: string, t: string)
    requires forall k | 0 <= k < |t| :: t[k] != ','
    ensures Split(a + "," + t, ',') == Split(a, ',') + [t]
  {
    assert a + "," + t == a + [','] + t;
    SplitAround(a, t, ',');
    SplitWithout(t, ',');
  }

  lemma ConcatSnoc(parts: seq<string>, t: string)
    ensures Concat(parts + [t]) == Concat(parts) + t
  {
    assert (parts + [t])[..|parts + [t]| - 1] == parts;
  }

  /** Comma-free pieces that spell `d`: one to three digits first, three in every later one. */
  predicate InGroups(parts: seq<string>, d: string) {
    && parts != []
    && Concat(parts) == d
    && 1 <= |parts[0]| <= 3
    && forall i | 1 <= i < |parts| :: |parts[i]| == 3
  }

  lemma GroupedSnoc(parts: seq<string>, p: string, t: string)
    requires InGroups(parts, p) && |t| == 3
    ensures InGroups(parts + [t], p + t)
  {
    ConcatSnoc(parts, t);
  }

  /** The last three digits become one more group. */
  lemma GroupDigitsStep(d: string)
    requires |d| > 3 && IsDigits(d)
    requires InGroups(Split(GroupDigits(d[..|d| - 3]), ','), d[..|d| - 3])
    ensures InGroups(Split(GroupDigits(d), ','), d)
  {
    var p := d[..|d| - 3];
    var t := d[|d| - 3..];
    assert d == p + t;
    assert forall k | 0 <= k < |t| :: t[k] != ',' by { assert forall k | 0 <= k < |t| :: t[k] == d[|d| - 3 + k]; }
    assert GroupDigits(d) == GroupDigits(p) + "," + t;
    LastPiece(GroupDigits(p), t);
    GroupedSnoc(Split(GroupDigits(p), ','), p, t);
  }

  lemma {:induction false} GroupDigitsPieces(d: string)
    requires d != [] && IsDigits(d)
    ensures InGroups(Split(GroupDigits(d), ','), d)
    decreases |d|
  {
    if |d| <= 3 {
      SplitWithout(d, ',');
      assert Concat([d]) == d by { assert [d][..0] == []; }
    } else {
      var p := d[..|d| - 3];
      assert IsDigits(p) by { assert forall i | 0 <= i < |p| :: p[i] == d[i]; }
      GroupDigitsPieces(p);
      GroupDigitsStep(d);
    }
  }

  /**
   * An integer's grouped form: a minus sign exactly for a negative number, then comma-separated
   * groups of three digits (the first of one to three) that spell the number's magnitude.
   */
  lemma FormatIntMeaning(n: int)
    ensures var g := FormatInt(n);
            var magnitude := if n < 0 then -n else n;
            var body := if n < 0 then g[1..] else g;
            && g != []
            && (g[0] == '-' <==> n < 0)
            && Concat(Split(body, ',')) == NatToString(magnitude)
            && DigitsValue(NatToString(magnitude)) == magnitude
            && 1 <= |Split(body, ',')[0]| <= 3
            && forall i | 1 <= i < |Split(body, ',')| :: |Split(body, ',')[i]| == 3
  {
    var magnitude := if n < 0 then -n else n;
    var g := FormatInt(n);
    var body := if n < 0 then g[1..] else g;
    assert body == GroupDigits(NatToString(magnitude));
    GroupDigitsPieces(NatToString(magnitude));
    NatToStringValue(magnitude);
  }

  /** The filter shows a whole float, `True` and `False` alike with the integers they stand for. */
  lemma FormatNumberOfWhole(n: int)
    ensures FormatNumber(JReal(n as real)) == FormatNumber(JInt(n))
    ensures FormatNumber(JBool(true)) == FormatNumber(JInt(1))
    ensures FormatNumber(JBool(false)) == FormatNumber(JInt(0))
  {
  }

  /** The filter shows the digit text of a number alike with the number itself. */
  lemma FormatNumberOfDigits(d: string)
    requires IsDigits(d)
    ensures FormatNumber(JText(d)) == FormatNumber(JInt(DigitsValue(d)))
  {
    ParseIntDigits(d);
  }

  /** Text that reads neither as an integer nor as a float is shown as it is. */
  lemma FormatNumberOfOtherText(s: string)
    requires ParseFloat(s) == None
    ensures FormatNumber(JText(s)) == AsIs
  {
    ParseFloatOfInt(s);
  }
}
