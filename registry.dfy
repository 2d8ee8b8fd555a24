/**
 * The first stage: scan the company registry for rows whose SIC codes were requested, read
 * the filed accounts of each match, and keep the companies whose balance sheet is large.
 */
module Registry {
  import opened Wrappers
  import opened Seqs
  import opened Text
  import opened Records

  /** Cash at bank above this flags a company. */
  const CashAlertValue: real := 10000000.0
  /** Any other balance-sheet item above this flags a company. */
  const OtherAlertValue: real := 100000000.0

  /** The four SIC columns of a registry row, in the order they are examined. */
  const SicFields: seq<string> := ["SICCode.SicText_1", "SICCode.SicText_2", "SICCode.SicText_3", "SICCode.SicText_4"]

  // ================================================================ SIC matching

  /** Python's `s[:n]`. */
  function Take(s: string, n: nat): (r: string)
    ensures |r| == if |s| <= n then |s| else n
    ensures r <= s
  {
    if |s| <= n then s else s[..n]
  }

  /**
   * The code one SIC cell contributes: the first five characters of the stripped cell, when
   * the cell is not empty, those characters are all digits and they are a requested code.
   */
  function SicCodeOf(cell: string, requested: set<string>): Option<string> {
    var entry := Strip(cell);
    if entry != "" then
      var code := Take(entry, 5);
      if IsDigits(code) && code in requested then Some(code) else None
    else None
  }

  /** A code is recorded exactly when the stripped cell is non-empty and its first five characters are requested digits. */
  lemma SicCodeRecorded(cell: string, requested: set<string>)
    ensures SicCodeOf(cell, requested).Some? <==>
              Strip(cell) != "" && IsDigits(Take(Strip(cell), 5)) && Take(Strip(cell), 5) in requested
    ensures SicCodeOf(cell, requested).Some? ==>
              var code := SicCodeOf(cell, requested).value;
              code in requested && IsDigits(code) && |code| <= 5 && code <= Strip(cell)
  {
  }

  function OptionToSeq<T>(o: Option<T>): seq<T> {
    match o
    case Some(v) => [v]
    case None => []
  }

  /** The codes the given columns of `row` contribute, in column order. */
  function MatchedCodesIn(row: Row, fields: seq<string>, requested: set<string>): (codes: seq<string>)
    ensures forall i | 0 <= i < |codes| :: codes[i] in requested
    decreases |fields|
  {
    if fields == [] then []
    else
      MatchedCodesIn(row, fields[..|fields| - 1], requested)
      + OptionToSeq(SicCodeOf(Field(row, fields[|fields| - 1]), requested))
  }

  /** The codes a registry row contributes: the four SIC columns, examined in order. */
  function MatchedCodes(row: Row, requested: set<string>): seq<string> {
    MatchedCodesIn(row, SicFields, requested)
  }

  /** The four SIC columns are examined in order, each contributing at most its own code. */
  lemma MatchedCodesInOrder(row: Row, requested: set<string>)
    ensures MatchedCodes(row, requested)
         == OptionToSeq(SicCodeOf(Field(row, SicFields[0]), requested))
          + OptionToSeq(SicCodeOf(Field(row, SicFields[1]), requested))
          + OptionToSeq(SicCodeOf(Field(row, SicFields[2]), requested))
          + OptionToSeq(SicCodeOf(Field(row, SicFields[3]), requested))
  {
    var f := SicFields;
    assert f[..1][..0] == [] && f[..2][..1] == f[..1] && f[..3][..2] == f[..2] && f[..4][..3] == f[..3];
    assert f[..4] == f;
    assert MatchedCodesIn(row, f[..1], requested) == OptionToSeq(SicCodeOf(Field(row, f[0]), requested));
    assert MatchedCodesIn(row, f[..2], requested) == MatchedCodesIn(row, f[..1], requested) + OptionToSeq(SicCodeOf(Field(row, f[1]), requested));
    assert MatchedCodesIn(row, f[..3], requested) == MatchedCodesIn(row, f[..2], requested) + OptionToSeq(SicCodeOf(Field(row, f[2]), requested));
    assert MatchedCodesIn(row, f[..4], requested) == MatchedCodesIn(row, f[..3], requested) + OptionToSeq(SicCodeOf(Field(row, f[3]), requested));
  }

  /** `{code: relevant_sic_codes[code] for code in codes}`. */
  function CodeDescriptions(codes: seq<string>, relevantSicCodes: map<string, string>): (m: map<string, string>)
    requires forall i | 0 <= i < |codes| :: codes[i] in relevantSicCodes
  {
    map code | code in codes :: relevantSicCodes[code]
  }

  /**
   * What one registry row yields: a candidate when at least one SIC column matches and the
   * stripped company number is not empty.
   */
  function RowEntry(row: Row, relevantSicCodes: map<string, string>): Option<Candidate> {
    var codes := MatchedCodes(row, relevantSicCodes.Keys);
    if codes == [] then None
    else
      var companyNumber := Strip(Field(row, "CompanyNumber"));
      var companyName := Strip(Field(row, "CompanyName"));
      if companyNumber == "" then None
      else Some(Candidate(companyName, companyNumber, CodeDescriptions(codes, relevantSicCodes), row, []))
  }

  /** The candidates of a sequence of rows, in row order (the scan's search results). */
  function Scan(rows: seq<Row>, relevantSicCodes: map<string, string>): seq<Candidate> {
    FilterMap(rows, (row: Row) => RowEntry(row, relevantSicCodes))
  }

  lemma MatchedCodesStep(row: Row, fields: seq<string>, f: nat, requested: set<string>)
    requires f < |fields|
    ensures MatchedCodesIn(row, fields[..f + 1], requested) ==
              MatchedCodesIn(row, fields[..f], requested) + OptionToSeq(SicCodeOf(Field(row, fields[f]), requested))
  {
    PrefixExtend(fields, f);
    assert fields[..f + 1][..f] == fields[..f];
  }

  lemma ScanStep(rows: seq<Row>, r: nat, relevantSicCodes: map<string, string>)
    requires r < |rows|
    ensures Scan(rows[..r + 1], relevantSicCodes) == Scan(rows[..r], relevantSicCodes) + OptionToSeq(RowEntry(rows[r], relevantSicCodes))
  {
    PrefixExtend(rows, r);
    FilterMapAppend(rows[..r], rows[r], (row: Row) => RowEntry(row, relevantSicCodes));
  }

  /** The inner loop of `find_matching_companies`: the requested codes of one row's SIC columns, in column order. */
  method MatchRow(row: Row, relevantSicSet: set<string>) returns (sicCodes: seq<string>)
    ensures sicCodes == MatchedCodes(row, relevantSicSet)
  {
    sicCodes := [];
    var f := 0;
    while f < |SicFields|
      invariant 0 <= f <= |SicFields|
      invariant sicCodes == MatchedCodesIn(row, SicFields[..f], relevantSicSet)
    {
      ghost var before := sicCodes;
      var sicEntry := Strip(Field(row, SicFields[f]));
      if sicEntry != "" {
        var sicCode := Take(sicEntry, 5);
        if IsDigits(sicCode) && sicCode in relevantSicSet {
          sicCodes := sicCodes + [sicCode];
        }
      }
      assert sicCodes == MatchedCodesIn(row, SicFields[..f + 1], relevantSicSet) by {
        assert sicCodes == before + OptionToSeq(SicCodeOf(Field(row, SicFields[f]), relevantSicSet));
        MatchedCodesStep(row, SicFields, f, relevantSicSet);
      }
      f := f + 1;
    }
    assert SicFields[..|SicFields|] == SicFields;
  }

  /**
   * The registry scan: one pass over the rows, counting every row and collecting the
   * candidates.
   */
  method FindMatchingCompanies(rows: seq<Row>, relevantSicCodes: map<string, string>)
    returns (searchResults: seq<Candidate>, totalSearched: nat)
    ensures searchResults == Scan(rows, relevantSicCodes)
    ensures totalSearched == |rows|
  {
    var relevantSicSet := relevantSicCodes.Keys;
    searchResults := [];
    totalSearched := 0;
    var r := 0;
    while r < |rows|
      invariant 0 <= r <= |rows|
      invariant totalSearched == r
      invariant searchResults == Scan(rows[..r], relevantSicCodes)
    {
      var row := rows[r];
      totalSearched := totalSearched + 1;
      var sicCodes := MatchRow(row, relevantSicSet);
      ghost var before := searchResults;
      if sicCodes != [] {
        var companyNumber := Strip(Field(row, "CompanyNumber"));
        var companyName := Strip(Field(row, "CompanyName"));
        if companyNumber != "" {
          var matchEntry := Candidate(companyName, companyNumber,
                                      CodeDescriptions(sicCodes, relevantSicCodes), row, []);
          searchResults := searchResults + [matchEntry];
        }
      }
      assert searchResults == before + OptionToSeq(RowEntry(row, relevantSicCodes));
      ScanStep(rows, r, relevantSicCodes);
      r := r + 1;
    }
    assert rows[..|rows|] == rows;
  }

  /** The scan is a single pass: scanning two chunks one after the other is scanning both. */
  lemma ScanConcat(a: seq<Row>, b: seq<Row>, relevantSicCodes: map<string, string>)
    ensures Scan(a + b, relevantSicCodes) == Scan(a, relevantSicCodes) + Scan(b, relevantSicCodes)
  {
    FilterMapConcat(a, b, (row: Row) => RowEntry(row, relevantSicCodes));
  }

  /** `total_searched` bounds the number of results. */
  lemma ScanBounded(rows: seq<Row>, relevantSicCodes: map<string, string>)
    ensures |Scan(rows, relevantSicCodes)| <= |rows|
  {
  }

  /** A row none of whose SIC columns matches yields no candidate. */
  lemma NoMatchNoCandidate(row: Row, relevantSicCodes: map<string, string>)
    requires forall i | 0 <= i < |SicFields| :: SicCodeOf(Field(row, SicFields[i]), relevantSicCodes.Keys).None?
    ensures RowEntry(row, relevantSicCodes) == None
  {
    assert SicCodeOf(Field(row, SicFields[0]), relevantSicCodes.Keys).None?;
    assert SicCodeOf(Field(row, SicFields[1]), relevantSicCodes.Keys).None?;
    assert SicCodeOf(Field(row, SicFields[2]), relevantSicCodes.Keys).None?;
    assert SicCodeOf(Field(row, SicFields[3]), relevantSicCodes.Keys).None?;
    MatchedCodesInOrder(row, relevantSicCodes.Keys);
  }

  /** A row whose company number is empty after stripping yields no candidate, whatever its codes. */
  lemma EmptyNumberNoCandidate(row: Row, relevantSicCodes: map<string, string>)
    requires Strip(Field(row, "CompanyNumber")) == ""
    ensures RowEntry(row, relevantSicCodes) == None
  {
  }

  /** A well-formed search result: a number, and a non-empty choice of the requested codes. */
  predicate WellFormedCandidate(c: Candidate, relevantSicCodes: map<string, string>) {
    && c.companyNumber != ""
    && c.relevantSicCodes != map[]
    && c.relevantSicCodes.Keys <= relevantSicCodes.Keys
    && (forall code | code in c.relevantSicCodes :: c.relevantSicCodes[code] == relevantSicCodes[code])
  }

  /** Every search result has a number and a non-empty subset of the requested codes. */
  lemma ScanWellFormed(rows: seq<Row>, relevantSicCodes: map<string, string>)
    ensures forall i | 0 <= i < |Scan(rows, relevantSicCodes)| :: WellFormedCandidate(Scan(rows, relevantSicCodes)[i], relevantSicCodes)
  {
    var f := (row: Row) => RowEntry(row, relevantSicCodes);
    forall i | 0 <= i < |Scan(rows, relevantSicCodes)|
      ensures WellFormedCandidate(Scan(rows, relevantSicCodes)[i], relevantSicCodes)
    {
      var c := Scan(rows, relevantSicCodes)[i];
      FilterMapSources(rows, f, c);
      var j :| 0 <= j < |rows| && f(rows[j]) == Some(c);
      RowEntryWellFormed(rows[j], relevantSicCodes);
    }
  }

  lemma RowEntryWellFormed(row: Row, relevantSicCodes: map<string, string>)
    requires RowEntry(row, relevantSicCodes).Some?
    ensures WellFormedCandidate(RowEntry(row, relevantSicCodes).value, relevantSicCodes)
  {
    var codes := MatchedCodes(row, relevantSicCodes.Keys);
    assert codes[0] in CodeDescriptions(codes, relevantSicCodes);
  }

  /** A candidate's codes are exactly the codes its row contributes. */
  lemma CandidateCodes(row: Row, relevantSicCodes: map<string, string>)
    requires RowEntry(row, relevantSicCodes).Some?
    ensures forall code :: code in RowEntry(row, relevantSicCodes).value.relevantSicCodes <==> code in MatchedCodes(row, relevantSicCodes.Keys)
  {
  }

  // ================================================================ fact extraction

  /** One `ix:nonFraction` element of a filed accounts document: its `name` attribute and its text. */
  datatype Element = Element(name: string, text: string)

  /** An insertion-ordered dictionary from fact name to fact text, as Python's `dict` keeps it. */
  type FactTable = seq<(string, string)>

  function Lookup(t: FactTable, k: string): Option<string>
    decreases |t|
  {
    if t == [] then None else if t[0].0 == k then Some(t[0].1) else Lookup(t[1..], k)
  }

  /** No name appears twice. */
  predicate DistinctKeys(t: FactTable)
    decreases |t|
  {
    t == [] || (Lookup(t[1..], t[0].0) == None && DistinctKeys(t[1..]))
  }

  /**
   * `d[k] = v`: a name already present keeps its position and takes the new text; a new
   * name goes at the end.
   */
  function Put(t: FactTable, k: string, v: string): (r: FactTable)
    ensures Lookup(r, k) == Some(v)
    ensures forall k' | k' != k :: Lookup(r, k') == Lookup(t, k')
    ensures |r| == if Lookup(t, k).Some? then |t| else |t| + 1
    ensures forall i | 0 <= i < |t| :: r[i].0 == t[i].0
    ensures DistinctKeys(t) ==> DistinctKeys(r)
    decreases |t|
  {
    if t == [] then [(k, v)]
    else if t[0].0 == k then [(k, v)] + t[1..]
    else [t[0]] + Put(t[1..], k, v)
  }

  /** The element's name with every `ns5:` removed. */
  function TagName(e: Element): string {
    RemoveAll(e.name, "ns5:")
  }

  /** The facts of a document: each element with a non-empty name stores its stripped text, later ones overwriting. */
  function Facts(ixElements: seq<Element>): (t: FactTable)
    ensures DistinctKeys(t)
    decreases |ixElements|
  {
    if ixElements == [] then []
    else
      var t := Facts(ixElements[..|ixElements| - 1]);
      var element := ixElements[|ixElements| - 1];
      var tagName := TagName(element);
      if tagName != "" then Put(t, tagName, Strip(element.text)) else t
  }

  /** `extract_assets`: fill the dictionary element by element. */
  method ExtractAssets(ixElements: seq<Element>) returns (financialData: FactTable)
    ensures financialData == Facts(ixElements)
  {
    financialData := [];
    var i := 0;
    while i < |ixElements|
      invariant 0 <= i <= |ixElements|
      invariant financialData == Facts(ixElements[..i])
    {
      var element := ixElements[i];
      var tagName := RemoveAll(element.name, "ns5:");
      var value := Strip(element.text);
      if tagName != "" {
        financialData := Put(financialData, tagName, value);
      }
      assert ixElements[..i + 1][..i] == ixElements[..i];
      i := i + 1;
    }
    assert ixElements[..|ixElements|] == ixElements;
  }

  /** The position of the last element whose tag name is `k`. */
  function LastWithTag(ixElements: seq<Element>, k: string): (r: Option<nat>)
    ensures r.Some? ==> r.value < |ixElements| && TagName(ixElements[r.value]) == k
    ensures r.Some? ==> forall j | r.value < j < |ixElements| :: TagName(ixElements[j]) != k
    ensures r.None? ==> forall j | 0 <= j < |ixElements| :: TagName(ixElements[j]) != k
    decreases |ixElements|
  {
    if ixElements == [] then None
    else if TagName(ixElements[|ixElements| - 1]) == k then Some(|ixElements| - 1)
    else LastWithTag(ixElements[..|ixElements| - 1], k)
  }

  /** Last wins: a fact's text is that of the last element carrying its name. */
  lemma {:induction false} FactsLastWins(ixElements: seq<Element>, k: string)
    requires k != ""
    ensures Lookup(Facts(ixElements), k) ==
              match LastWithTag(ixElements, k)
              case None => None
              case Some(i) => Some(Strip(ixElements[i].text))
    decreases |ixElements|
  {
    if ixElements != [] {
      FactsLastWins(ixElements[..|ixElements| - 1], k);
    }
  }

  /** Elements whose name is empty once `ns5:` is removed contribute nothing. */
  lemma {:induction false} FactsNoEmptyName(ixElements: seq<Element>)
    ensures Lookup(Facts(ixElements), "") == None
    decreases |ixElements|
  {
    if ixElements != [] {
      FactsNoEmptyName(ixElements[..|ixElements| - 1]);
    }
  }

  // ================================================================ classification

  /** The display name of a fact: its second `:`-separated segment when it has a colon. */
  function HumanKey(key: string): string {
    if ':' in key then Split(key, ':')[1] else key
  }

  /**
   * A tag name with a namespace prefix shows the part after the first colon, and only up to
   * the next one; a name without a colon shows as it is.
   */
  lemma HumanKeyOfPrefixed(prefix: string, local: string, rest: string)
    requires ':' !in prefix && ':' !in local
    ensures HumanKey(prefix + ":" + local) == local
    ensures HumanKey(prefix + ":" + local + ":" + rest) == local
    ensures HumanKey(local) == local
  {
    SplitWithout(prefix, ':');
    SplitWithout(local, ':');
    assert prefix + ":" + local == prefix + [':'] + local;
    SplitAround(prefix, local, ':');
    assert ':' in prefix + ":" + local;
    var key := prefix + ":" + local + ":" + rest;
    assert key == prefix + [':'] + (local + [':'] + rest);
    SplitAround(prefix, local + [':'] + rest, ':');
    SplitAround(local, rest, ':');
    assert ':' in key by { assert key[|prefix|] == ':'; }
  }

  /** `float(value.replace(",", ""))`, `None` for a value that does not parse. */
  function NumericValue(value: string): Option<real> {
    ParseFloat(RemoveAll(value, ","))
  }

  /** What the classifier accumulates: the cash figure and the large items, in encounter order. */
  datatype Classified = Classified(cash: real, suspectData: seq<(string, real)>)

  /** A fact as a (display name, value) pair, when its value is numeric. */
  function NumericFact(f: (string, string)): Option<(string, real)> {
    match NumericValue(f.1)
    case Some(v) => Some((HumanKey(f.0), v))
    case None => None
  }

  /** The facts whose value is numeric, as (display name, value) pairs in dictionary order. */
  function NumericFacts(facts: FactTable): seq<(string, real)> {
    FilterMap(facts, NumericFact)
  }

  /** The classifier's rule for one numeric fact. */
  function Absorb(c: Classified, item: (string, real)): Classified {
    var (humanKey, v) := item;
    if humanKey == "CashBankOnHand" then c.(cash := v)
    else if v > OtherAlertValue then c.(suspectData := c.suspectData + [(humanKey, v)])
    else c
  }

  /** The classifier's fold over the numeric facts, one at a time. */
  function ClassifyNumeric(numeric: seq<(string, real)>): Classified
    decreases |numeric|
  {
    if numeric == [] then Classified(0.0, [])
    else Absorb(ClassifyNumeric(numeric[..|numeric| - 1]), numeric[|numeric| - 1])
  }

  /**
   * The classification of a company's facts in dictionary order: facts whose value does not
   * parse are skipped, and the rest are folded as `ClassifyNumeric` says.
   */
  function Classification(facts: FactTable): Classified {
    ClassifyNumeric(NumericFacts(facts))
  }

  /** A company is a suspect when its cash or any other item is above its threshold. */
  predicate IsSuspect(c: Classified) {
    c.cash > CashAlertValue || c.suspectData != []
  }

  lemma NumericFactsStep(facts: FactTable, i: nat)
    requires i < |facts|
    ensures NumericFacts(facts[..i + 1]) == NumericFacts(facts[..i]) + OptionToSeq(NumericFact(facts[i]))
  {
    PrefixExtend(facts, i);
    FilterMapAppend(facts[..i], facts[i], NumericFact);
  }

  lemma ClassificationStep(facts: FactTable, i: nat)
    requires i < |facts|
    ensures Classification(facts[..i + 1]) ==
              match NumericFact(facts[i])
              case None => Classification(facts[..i])
              case Some(item) => Absorb(Classification(facts[..i]), item)
  {
    NumericFactsStep(facts, i);
    var before := NumericFacts(facts[..i]);
    match NumericFact(facts[i])
    case None =>
      assert before + [] == before;
    case Some(item) =>
      var after := before + [item];
      assert after[..|after| - 1] == before;
  }

  /** The loop of `find_large_companies` over one company's facts. */
  method ClassifyFacts(financialData: FactTable) returns (cashValue: real, suspectData: seq<(string, real)>)
    ensures Classified(cashValue, suspectData) == Classification(financialData)
  {
    cashValue := 0.0;
    suspectData := [];
    var i := 0;
    while i < |financialData|
      invariant 0 <= i <= |financialData|
      invariant Classified(cashValue, suspectData) == Classification(financialData[..i])
    {
      ClassificationStep(financialData, i);
      var (key, value) := financialData[i];
      var humanKey := if ':' in key then Split(key, ':')[1] else key;
      var cleanStrValue := RemoveAll(value, ",");
      var parsed := ParseFloat(cleanStrValue);
      assert NumericFact(financialData[i]) == if parsed.Some? then Some((humanKey, parsed.value)) else None;
      if parsed.Some? {
        var valueFloat := parsed.value;
        if humanKey == "CashBankOnHand" {
          cashValue := valueFloat;
        } else if valueFloat > OtherAlertValue {
          suspectData := suspectData + [(humanKey, valueFloat)];
        }
      }
      i := i + 1;
    }
    assert financialData[..|financialData|] == financialData;
  }

  /** The value of the last `CashBankOnHand` item, 0 when there is none. */
  function LastCash(numeric: seq<(string, real)>): real
    decreases |numeric|
  {
    if numeric == [] then 0.0
    else if numeric[|numeric| - 1].0 == "CashBankOnHand" then numeric[|numeric| - 1].1
    else LastCash(numeric[..|numeric| - 1])
  }

  /** An item is large when it is not the cash figure and is above the general threshold. */
  predicate LargeItem(p: (string, real)) {
    p.0 != "CashBankOnHand" && p.1 > OtherAlertValue
  }

  lemma {:induction false} ClassifyNumericReference(numeric: seq<(string, real)>)
    ensures ClassifyNumeric(numeric).cash == LastCash(numeric)
    ensures ClassifyNumeric(numeric).suspectData == Filter(numeric, LargeItem)
    decreases |numeric|
  {
    if numeric != [] {
      ClassifyNumericReference(numeric[..|numeric| - 1]);
    }
  }

  /**
   * The classification against a reference: cash is the last numeric cash fact (default 0),
   * and the suspect data are exactly the large numeric items, in encounter order.
   */
  lemma ClassificationReference(facts: FactTable)
    ensures Classification(facts).cash == LastCash(NumericFacts(facts))
    ensures Classification(facts).suspectData == Filter(NumericFacts(facts), LargeItem)
  {
    ClassifyNumericReference(NumericFacts(facts));
  }

  /** Every suspect item is a non-cash value strictly above the general threshold. */
  lemma SuspectDataLarge(facts: FactTable)
    ensures forall i | 0 <= i < |Classification(facts).suspectData| ::
              Classification(facts).suspectData[i].0 != "CashBankOnHand" &&
              Classification(facts).suspectData[i].1 > OtherAlertValue
  {
    ClassificationReference(facts);
  }

  /** A company is a suspect exactly when its last cash figure or some other numeric item is above its threshold. */
  lemma SuspectIff(facts: FactTable)
    ensures IsSuspect(Classification(facts)) <==>
              LastCash(NumericFacts(facts)) > CashAlertValue ||
              exists i | 0 <= i < |NumericFacts(facts)| :: LargeItem(NumericFacts(facts)[i])
  {
    ClassificationReference(facts);
    var numeric := NumericFacts(facts);
    if i :| 0 <= i < |numeric| && LargeItem(numeric[i]) {
      assert numeric[i] in Filter(numeric, LargeItem);
    }
    if Filter(numeric, LargeItem) != [] {
      var item := Filter(numeric, LargeItem)[0];
      assert item in numeric;
      var i :| 0 <= i < |numeric| && numeric[i] == item;
    }
  }

  /** The thresholds are strict: cash of exactly ten million is not flagged, a cent more is. */
  lemma CashThresholdBoundary()
    ensures !IsSuspect(Absorb(Classified(0.0, []), ("CashBankOnHand", 10000000.0)))
    ensures IsSuspect(Absorb(Classified(0.0, []), ("CashBankOnHand", 10000000.01)))
    ensures !IsSuspect(Absorb(Classified(0.0, []), ("NetAssetsLiabilities", 100000000.0)))
    ensures IsSuspect(Absorb(Classified(0.0, []), ("NetAssetsLiabilities", 100000000.01)))
  {
  }

  // ================================================================ large companies

  /** What `find_large_companies` makes of one company: a suspect entry, or nothing. */
  function Assess(c: Candidate, lookupTable: map<string, string>, readDocument: string -> seq<Element>): Option<SuspectEntry> {
    var companyName := Strip(c.companyName);
    var companyNumber := Strip(c.companyNumber);
    if c.regulatoryStatus != [] then None
    else
      var path := if companyNumber in lookupTable then lookupTable[companyNumber] else "";
      if path == "" then None
      else
        var cls := Classification(Facts(readDocument(path)));
        if IsSuspect(cls) then
          Some(SuspectEntry(companyName, companyNumber,
                            Field(c.data, SicFields[0]), Field(c.data, SicFields[1]),
                            Field(c.data, SicFields[2]), Field(c.data, SicFields[3]),
                            cls.cash, cls.suspectData, None))
        else None
  }

  /** The suspects, in the order their companies were listed. */
  function Flagged(companies: seq<Candidate>, lookupTable: map<string, string>, readDocument: string -> seq<Element>): seq<SuspectEntry> {
    FilterMap(companies, (c: Candidate) => Assess(c, lookupTable, readDocument))
  }

  /** Insert `x` before the first entry whose cash is not larger than its own. */
  function InsertByCash(x: SuspectEntry, s: seq<SuspectEntry>): (r: seq<SuspectEntry>)
    ensures |r| == |s| + 1
    decreases |s|
  {
    if s == [] then [x]
    else if s[0].cash <= x.cash then [x] + s
    else [s[0]] + InsertByCash(x, s[1..])
  }

  lemma {:induction false} InsertByCashPermutes(x: SuspectEntry, s: seq<SuspectEntry>)
    ensures multiset(InsertByCash(x, s)) == multiset(s) + multiset{x}
    decreases |s|
  {
    if s != [] && s[0].cash > x.cash {
      InsertByCashPermutes(x, s[1..]);
      assert s == [s[0]] + s[1..];
    }
  }

  /** `list.sort(key=cash, reverse=True)`: a stable sort by cash, largest first. */
  function SortByCashDesc(s: seq<SuspectEntry>): (r: seq<SuspectEntry>)
    ensures |r| == |s|
    decreases |s|
  {
    if s == [] then [] else InsertByCash(s[0], SortByCashDesc(s[1..]))
  }

  /** The sorted list holds the same entries, each as often as before. */
  lemma {:induction false} SortByCashDescPermutes(s: seq<SuspectEntry>)
    ensures multiset(SortByCashDesc(s)) == multiset(s)
    decreases |s|
  {
    if s != [] {
      SortByCashDescPermutes(s[1..]);
      InsertByCashPermutes(s[0], SortByCashDesc(s[1..]));
      assert s == [s[0]] + s[1..];
    }
  }

  predicate SortedByCashDesc(s: seq<SuspectEntry>) {
    forall i, j | 0 <= i < j < |s| :: s[i].cash >= s[j].cash
  }

  lemma {:induction false} InsertByCashSorted(x: SuspectEntry, s: seq<SuspectEntry>)
    requires SortedByCashDesc(s)
    ensures SortedByCashDesc(InsertByCash(x, s))
    ensures InsertByCash(x, s) != [] && (InsertByCash(x, s)[0] == x || (s != [] && InsertByCash(x, s)[0] == s[0]))
    decreases |s|
  {
    if s != [] && s[0].cash > x.cash {
      InsertByCashSorted(x, s[1..]);
      var rest := InsertByCash(x, s[1..]);
      assert rest[0].cash <= s[0].cash;
      forall i, j | 0 <= i < j < |rest| + 1 ensures ([s[0]] + rest)[i].cash >= ([s[0]] + rest)[j].cash {
        if i == 0 {
          assert rest[0].cash >= rest[j - 1].cash || j == 1;
        }
      }
    }
  }

  /** The sorted list runs from the largest cash figure to the smallest. */
  lemma {:induction false} SortByCashDescSorted(s: seq<SuspectEntry>)
    ensures SortedByCashDesc(SortByCashDesc(s))
    decreases |s|
  {
    if s != [] {
      SortByCashDescSorted(s[1..]);
      InsertByCashSorted(s[0], SortByCashDesc(s[1..]));
    }
  }

  /** The entries with the given cash figure, in order. */
  function WithCash(s: seq<SuspectEntry>, cash: real): (r: seq<SuspectEntry>)
    ensures forall i | 0 <= i < |r| :: r[i].cash == cash
    decreases |s|
  {
    if s == [] then []
    else (if s[0].cash == cash then [s[0]] else []) + WithCash(s[1..], cash)
  }

  lemma {:induction false} InsertByCashStable(x: SuspectEntry, s: seq<SuspectEntry>, cash: real)
    ensures WithCash(InsertByCash(x, s), cash) == WithCash([x] + s, cash)
    decreases |s|
  {
    if s != [] && s[0].cash > x.cash {
      InsertByCashStable(x, s[1..], cash);
      var rest := InsertByCash(x, s[1..]);
      assert ([s[0]] + rest)[1..] == rest;
      assert ([x] + s)[1..] == s;
      assert ([x] + s[1..])[1..] == s[1..];
    }
  }

  /** Stability: companies with equal cash keep their original relative order. */
  lemma {:induction false} SortByCashDescStable(s: seq<SuspectEntry>, cash: real)
    ensures WithCash(SortByCashDesc(s), cash) == WithCash(s, cash)
    decreases |s|
  {
    if s != [] {
      SortByCashDescStable(s[1..], cash);
      InsertByCashStable(s[0], SortByCashDesc(s[1..]), cash);
      assert ([s[0]] + SortByCashDesc(s[1..]))[1..] == SortByCashDesc(s[1..]);
    }
  }

  lemma FlaggedStep(companies: seq<Candidate>, i: nat, lookupTable: map<string, string>, readDocument: string -> seq<Element>)
    requires i < |companies|
    ensures Flagged(companies[..i + 1], lookupTable, readDocument) ==
              Flagged(companies[..i], lookupTable, readDocument) + OptionToSeq(Assess(companies[i], lookupTable, readDocument))
  {
    PrefixExtend(companies, i);
    FilterMapAppend(companies[..i], companies[i], (c: Candidate) => Assess(c, lookupTable, readDocument));
  }

  /** The body of `find_large_companies`' loop: one company's suspect entry, if it is one. */
  method AssessCompany(company: Candidate, lookupTable: map<string, string>, readDocument: string -> seq<Element>)
    returns (entry: Option<SuspectEntry>)
    ensures entry == Assess(company, lookupTable, readDocument)
  {
    entry := None;
    var companyName := Strip(company.companyName);
    var companyNumber := Strip(company.companyNumber);
    var regulatoryStatus := company.regulatoryStatus;
    if regulatoryStatus != [] {
      return;
    }
    var ixbrlFilePath := if companyNumber in lookupTable then lookupTable[companyNumber] else "";
    if ixbrlFilePath == "" {
      return;
    }
    var financialData := ExtractAssets(readDocument(ixbrlFilePath));
    var cashValue, suspectData := ClassifyFacts(financialData);
    if cashValue > CashAlertValue || suspectData != [] {
      entry := Some(SuspectEntry(companyName, companyNumber,
                                 Field(company.data, "SICCode.SicText_1"),
                                 Field(company.data, "SICCode.SicText_2"),
                                 Field(company.data, "SICCode.SicText_3"),
                                 Field(company.data, "SICCode.SicText_4"),
                                 cashValue, suspectData, None));
    }
  }

  /** `find_large_companies`: assess every company, then sort the suspects by cash. */
  method FindLargeCompanies(companies: seq<Candidate>, lookupTable: map<string, string>, readDocument: string -> seq<Element>)
    returns (suspectCompanies: seq<SuspectEntry>)
    ensures suspectCompanies == SortByCashDesc(Flagged(companies, lookupTable, readDocument))
  {
    var suspects: seq<SuspectEntry> := [];
    var i := 0;
    while i < |companies|
      invariant 0 <= i <= |companies|
      invariant suspects == Flagged(companies[..i], lookupTable, readDocument)
    {
      var entry := AssessCompany(companies[i], lookupTable, readDocument);
      if entry.Some? {
        suspects := suspects + [entry.value];
      }
      FlaggedStep(companies, i, lookupTable, readDocument);
      i := i + 1;
    }
    assert companies[..|companies|] == companies;
    suspectCompanies := SortByCashDesc(suspects);
  }

  /** A company already carrying a regulatory status, or without accounts, is never a suspect. */
  lemma AssessSkips(c: Candidate, lookupTable: map<string, string>, readDocument: string -> seq<Element>)
    ensures c.regulatoryStatus != [] ==> Assess(c, lookupTable, readDocument) == None
    ensures Strip(c.companyNumber) !in lookupTable ==> Assess(c, lookupTable, readDocument) == None
    ensures Assess(c, lookupTable, readDocument).Some? ==>
              var e := Assess(c, lookupTable, readDocument).value;
              e.cash > CashAlertValue || e.suspectData != []
  {
  }

  // ================================================================ statistics

  /** How many search results carry the given code. */
  function CountWithCode(results: seq<Candidate>, code: string): nat {
    |Filter(results, (e: Candidate) => code in e.relevantSicCodes)|
  }

  /** Every code some search result carries. */
  function AllCodes(results: seq<Candidate>): set<string>
    decreases |results|
  {
    if results == [] then {}
    else AllCodes(results[..|results| - 1]) + results[|results| - 1].relevantSicCodes.Keys
  }

  lemma {:induction false} AllCodesMember(results: seq<Candidate>, code: string)
    ensures code in AllCodes(results) <==> exists j | 0 <= j < |results| :: code in results[j].relevantSicCodes
    decreases |results|
  {
    if results != [] {
      var init := results[..|results| - 1];
      AllCodesMember(init, code);
      if code in AllCodes(init) {
        var j :| 0 <= j < |init| && code in init[j].relevantSicCodes;
        assert results[j] == init[j];
      }
      if j :| 0 <= j < |results| && code in results[j].relevantSicCodes {
        if j < |init| {
          assert init[j] == results[j];
        }
      }
    }
  }

  /** The statistics the report prints: each code some result carries, with its count. */
  function CategoryStats(results: seq<Candidate>): map<string, nat> {
    map code | code in AllCodes(results) :: CountWithCode(results, code)
  }

  /** One more count for each of `codes`. */
  function Bump(stats: map<string, nat>, codes: set<string>): map<string, nat> {
    map code | code in stats.Keys + codes :: (if code in stats then stats[code] else 0) + (if code in codes then 1 else 0)
  }

  lemma BumpOne(stats: map<string, nat>, done: set<string>, code: string)
    requires code !in done
    ensures Bump(stats, done + {code}) ==
              Bump(stats, done)[code := (if code in Bump(stats, done) then Bump(stats, done)[code] else 0) + 1]
  {
  }

  lemma BumpNone(stats: map<string, nat>)
    ensures Bump(stats, {}) == stats
  {
  }

  lemma CountStep(results: seq<Candidate>, i: nat, code: string)
    requires i < |results|
    ensures CountWithCode(results[..i + 1], code) ==
              CountWithCode(results[..i], code) + (if code in results[i].relevantSicCodes then 1 else 0)
  {
    PrefixExtend(results, i);
    FilterAppend(results[..i], results[i], (e: Candidate) => code in e.relevantSicCodes);
  }

  /** A code no result carries has count zero. */
  lemma CountAbsent(results: seq<Candidate>, code: string)
    requires code !in AllCodes(results)
    ensures CountWithCode(results, code) == 0
  {
    if CountWithCode(results, code) != 0 {
      var carrier := Filter(results, (e: Candidate) => code in e.relevantSicCodes)[0];
      assert carrier in results;
      var j :| 0 <= j < |results| && results[j] == carrier;
      AllCodesMember(results, code);
    }
  }

  lemma StatsStep(results: seq<Candidate>, i: nat)
    requires i < |results|
    ensures CategoryStats(results[..i + 1]) == Bump(CategoryStats(results[..i]), results[i].relevantSicCodes.Keys)
  {
    var prefix := results[..i];
    var entry := results[i];
    var before := CategoryStats(prefix);
    var after := CategoryStats(results[..i + 1]);
    var bumped := Bump(before, entry.relevantSicCodes.Keys);
    assert AllCodes(results[..i + 1]) == AllCodes(prefix) + entry.relevantSicCodes.Keys by {
      PrefixExtend(results, i);
    }
    assert after.Keys == bumped.Keys;
    forall code | code in after
      ensures after[code] == bumped[code]
    {
      CountStep(results, i, code);
      if code !in AllCodes(prefix) {
        CountAbsent(prefix, code);
      }
    }
  }

  /**
   * The statistics name exactly the codes some result carries, and each count is the number
   * of results carrying that code: at least one, at most the number of results.
   */
  lemma CategoryStatsMeaning(results: seq<Candidate>, code: string)
    ensures code in CategoryStats(results) <==> exists j | 0 <= j < |results| :: code in results[j].relevantSicCodes
    ensures code in CategoryStats(results) ==> 0 < CategoryStats(results)[code] <= |results|
  {
    AllCodesMember(results, code);
    if code in AllCodes(results) {
      var j :| 0 <= j < |results| && code in results[j].relevantSicCodes;
      assert Filter(results, (e: Candidate) => code in e.relevantSicCodes) != [];
    }
  }

  /** `report_statistics`: the number of results, and how many of them carry each code. */
  method ReportStatistics(searchResults: seq<Candidate>) returns (totalCompanies: nat, categoryStats: map<string, nat>)
    ensures totalCompanies == |searchResults|
    ensures categoryStats == CategoryStats(searchResults)
  {
    totalCompanies := |searchResults|;
    categoryStats := map[];
    assert categoryStats == CategoryStats(searchResults[..0]);
    var i := 0;
    while i < |searchResults|
      invariant 0 <= i <= |searchResults|
      invariant categoryStats == CategoryStats(searchResults[..i])
    {
      var entry := searchResults[i];
      var remaining := entry.relevantSicCodes.Keys;
      ghost var start := categoryStats;
      ghost var done: set<string> := {};
      BumpNone(start);
      while remaining != {}
        invariant remaining + done == entry.relevantSicCodes.Keys && remaining !! done
        invariant categoryStats == Bump(start, done)
        decreases remaining
      {
        var code :| code in remaining;
        BumpOne(start, done, code);
        categoryStats := categoryStats[code := (if code in categoryStats then categoryStats[code] else 0) + 1];
        remaining := remaining - {code};
        done := done + {code};
      }
      StatsStep(searchResults, i);
      i := i + 1;
    }
    assert searchResults[..|searchResults|] == searchResults;
  }
}
