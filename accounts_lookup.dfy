/**
 * The accounts lookup table (0_create_accounts_lookup_table.py): every downloaded accounts file
 * whose name matches `.*_(\d+)_.*\.(\w+)$` is filed under the company number the name carries,
 * the file visited last winning, and the set of file extensions seen is collected on the way.
 */
module AccountsLookup {
  import opened Wrappers
  import opened Text

  // ================================================================ the file name pattern

  /** What a matching accounts file name yields: group 1 and group 2 of the pattern. */
  datatype AccountsFile = AccountsFile(companyNumber: string, extension: string)

  /** The part of the name the pattern has to cover: `$` also matches just before a final newline. */
  function MatchedPart(name: string): (body: string)
    ensures body == name || body + "\n" == name
  {
    if |name| > 0 && name[|name| - 1] == '\n' then name[..|name| - 1] else name
  }

  predicate NoNewline(s: string) {
    forall k | 0 <= k < |s| :: s[k] != '\n'
  }

  /**
   * The reference reading of the pattern on `body`: an underscore at `a`, one or more digits,
   * an underscore at `b`, anything up to a dot at `dot`, and one or more word characters
   * running to the end. (`.` matches anything but a newline, so the newline condition is
   * separate.)
   */
  predicate Splits(body: string, a: int, b: int, dot: int) {
    && 0 <= a && a + 1 < b && b < dot && dot + 1 < |body|
    && body[a] == '_' && body[b] == '_' && body[dot] == '.'
    && (forall k | a < k < b :: IsDigit(body[k]))
    && (forall k | dot < k < |body| :: IsWordChar(body[k]))
  }

  /** The index just past the run of digits that starts at `i`. */
  function DigitRunEnd(s: string, i: nat): (e: nat)
    requires i <= |s|
    ensures i <= e <= |s|
    ensures forall k | i <= k < e :: IsDigit(s[k])
    ensures e < |s| ==> !IsDigit(s[e])
    decreases |s| - i
  {
    if i < |s| && IsDigit(s[i]) then DigitRunEnd(s, i + 1) else i
  }

  /** The position of the last dot, if any. */
  function LastDot(s: string): (d: Option<nat>)
    ensures d.Some? ==> d.value < |s| && s[d.value] == '.' && forall k | d.value < k < |s| :: s[k] != '.'
    ensures d.None? ==> forall k | 0 <= k < |s| :: s[k] != '.'
  {
    if s == [] then None
    else if s[|s| - 1] == '.' then Some(|s| - 1)
    else LastDot(s[..|s| - 1])
  }

  /** An underscore at `a` opens a digit group whose closing underscore lies before `dot`. */
  predicate GroupOpensAt(body: string, a: nat, dot: nat)
    requires a < dot <= |body|
  {
    body[a] == '_' && var e := DigitRunEnd(body, a + 1); a + 1 < e < dot && body[e] == '_'
  }

  /**
   * The greedy leading `.*`: the rightmost position below `n` that opens a digit group closed
   * before `dot`, tried from the right as the regular-expression engine backtracks.
   */
  function GroupStart(body: string, dot: nat, n: nat): (a: Option<nat>)
    requires n <= dot <= |body|
    ensures a.Some? ==> a.value < n && GroupOpensAt(body, a.value, dot)
    ensures a.Some? ==> forall a2 | a.value < a2 < n :: !GroupOpensAt(body, a2, dot)
    ensures a.None? ==> forall a2 | 0 <= a2 < n :: !GroupOpensAt(body, a2, dot)
  {
    if n == 0 then None
    else if GroupOpensAt(body, n - 1, dot) then Some(n - 1)
    else GroupStart(body, dot, n - 1)
  }

  /** `file_pattern.match(name)`, giving group 1 and group 2 when it matches. */
  function ParseFilename(name: string): Option<AccountsFile> {
    var body := MatchedPart(name);
    if !NoNewline(body) then None
    else
      match LastDot(body)
      case None => None
      case Some(dot) => ParseAt(body, dot)
  }

  /** The rest of the match once the dot that starts the extension is fixed at `dot`. */
  function ParseAt(body: string, dot: nat): Option<AccountsFile>
    requires dot < |body|
  {
    if dot + 1 == |body| || exists k | dot < k < |body| :: !IsWordChar(body[k]) then None
    else
      match GroupStart(body, dot, dot)
      case None => None
      case Some(a) => Some(AccountsFile(body[a + 1..DigitRunEnd(body, a + 1)], body[dot + 1..]))
  }

  /** A digit run that stops at `e` ends at `e`. */
  lemma DigitRunEndAt(s: string, i: nat, e: nat)
    requires i <= e <= |s|
    requires forall k | i <= k < e :: IsDigit(s[k])
    requires e < |s| ==> !IsDigit(s[e])
    ensures DigitRunEnd(s, i) == e
  {
  }

  /** A reading of the pattern fixes its dot (the last one) and its closing underscore. */
  lemma SplitsDetermined(body: string, a: int, b: int, dot: int)
    requires Splits(body, a, b, dot)
    ensures LastDot(body) == Some(dot)
    ensures b == DigitRunEnd(body, a + 1)
    ensures GroupOpensAt(body, a, dot)
  {
  }

  /**
   * The name matches exactly when what `$` leaves of it has no newline and reads as the
   * pattern; the company number is then the digit group of the reading whose first underscore
   * is rightmost, and the extension is everything after the last dot: word characters only.
   */
  lemma ParseFilenameMeaning(name: string)
    ensures var body := MatchedPart(name);
            ParseFilename(name).Some? <==> NoNewline(body) && exists a, b, dot :: Splits(body, a, b, dot)
    ensures var body := MatchedPart(name);
            var r := ParseFilename(name);
            r.Some? ==>
              exists a, b, dot ::
                && Splits(body, a, b, dot)
                && r.value == AccountsFile(body[a + 1..b], body[dot + 1..])
                && forall a2, b2, dot2 | Splits(body, a2, b2, dot2) :: a2 <= a
  {
    var body := MatchedPart(name);
    forall a, b, dot | NoNewline(body) && Splits(body, a, b, dot) ensures ParseFilename(name).Some? {
      SplitsParse(name, a, b, dot);
    }
    if ParseFilename(name).Some? {
      ParseReading(name);
    }
  }

  /** Any reading of the pattern makes the name match. */
  lemma SplitsParse(name: string, a: int, b: int, dot: int)
    requires NoNewline(MatchedPart(name)) && Splits(MatchedPart(name), a, b, dot)
    ensures ParseFilename(name).Some?
  {
    var body := MatchedPart(name);
    SplitsDetermined(body, a, b, dot);
    assert GroupStart(body, dot, dot).Some?;
    assert !(exists k | dot < k < |body| :: !IsWordChar(body[k]));
  }

  /** A match is the reading at the last dot with the rightmost opening underscore. */
  lemma ParseReading(name: string)
    requires ParseFilename(name).Some?
    ensures var body := MatchedPart(name);
            var r := ParseFilename(name);
            exists a, b, dot ::
              && Splits(body, a, b, dot)
              && r.value == AccountsFile(body[a + 1..b], body[dot + 1..])
              && forall a2, b2, dot2 | Splits(body, a2, b2, dot2) :: a2 <= a
  {
    var body := MatchedPart(name);
    var dot := LastDot(body).value;
    var a := GroupStart(body, dot, dot).value;
    var b := DigitRunEnd(body, a + 1);
    assert Splits(body, a, b, dot);
    forall a2, b2, dot2 | Splits(body, a2, b2, dot2) ensures a2 <= a {
      SplitsDetermined(body, a2, b2, dot2);
    }
  }

  /** The company number is one or more digits; the extension one or more word characters without a dot. */
  lemma ParseFilenameParts(name: string)
    requires ParseFilename(name).Some?
    ensures IsDigits(ParseFilename(name).value.companyNumber)
    ensures var ext := ParseFilename(name).value.extension;
            |ext| > 0 && forall k | 0 <= k < |ext| :: IsWordChar(ext[k]) && ext[k] != '.'
  {
    ParseFilenameMeaning(name);
  }

  /** The last dot is the dot with none after it. */
  lemma LastDotAt(s: string, d: nat)
    requires d < |s| && s[d] == '.'
    requires forall k | d < k < |s| :: s[k] != '.'
    ensures LastDot(s) == Some(d)
  {
  }

  /** The rightmost opening position below `n` is one that opens a group with none after it. */
  lemma GroupStartAt(body: string, dot: nat, n: nat, a: nat)
    requires a < n <= dot <= |body|
    requires GroupOpensAt(body, a, dot)
    requires forall a2 | a < a2 < n :: !GroupOpensAt(body, a2, dot)
    ensures GroupStart(body, dot, n) == Some(a)
  {
  }

  /**
   * The Companies House naming scheme `<prefix>_<company number>_<date>.<ext>`: when only
   * digits lie between the closing underscore and the dot, the group is the one taken, whatever
   * `_digits_` groups the prefix holds, because the date is not closed by an underscore.
   */
  lemma NumberBeforeDate(name: string, a: nat, b: nat, dot: nat)
    requires NoNewline(name) && Splits(name, a, b, dot)
    requires forall k | b < k < dot :: IsDigit(name[k])
    ensures ParseFilename(name) == Some(AccountsFile(name[a + 1..b], name[dot + 1..]))
  {
    SplitsDetermined(name, a, b, dot);
    DigitRunEndAt(name, b + 1, dot);
    forall a2 | a < a2 < dot ensures !GroupOpensAt(name, a2, dot) {
      if a2 != b {
        assert IsDigit(name[a2]);
      }
    }
    GroupStartAt(name, dot, dot, a);
    ParseFilenameAt(name, dot, a);
  }

  /** The parse once the last dot and the group's opening underscore are known. */
  lemma ParseFilenameAt(name: string, dot: nat, a: nat)
    requires NoNewline(name)
    requires LastDot(name) == Some(dot) && dot + 1 < |name|
    requires forall k | dot < k < |name| :: IsWordChar(name[k])
    requires GroupStart(name, dot, dot) == Some(a)
    ensures ParseFilename(name) == Some(AccountsFile(name[a + 1..DigitRunEnd(name, a + 1)], name[dot + 1..]))
  {
    ParseFilenameAtDot(name, dot);
    ParseAtGroup(name, dot, a);
  }

  /** A name without a newline is parsed from its last dot. */
  lemma ParseFilenameAtDot(name: string, dot: nat)
    requires NoNewline(name) && LastDot(name) == Some(dot)
    ensures ParseFilename(name) == ParseAt(name, dot)
  {
    assert MatchedPart(name) == name;
  }

  /** Word characters after the dot and an opening underscore before it give the match. */
  lemma ParseAtGroup(body: string, dot: nat, a: nat)
    requires dot + 1 < |body|
    requires forall k | dot < k < |body| :: IsWordChar(body[k])
    requires GroupStart(body, dot, dot) == Some(a)
    ensures ParseAt(body, dot) == Some(AccountsFile(body[a + 1..DigitRunEnd(body, a + 1)], body[dot + 1..]))
  {
    assert !(exists k | dot < k < |body| :: !IsWordChar(body[k]));
  }

  /** Where the pieces of a Companies House accounts file name lie. */
  lemma CompaniesHouseLayout(name: string)
    requires name == "Prod224_0001_01234567_20230930.html"
    ensures NoNewline(name) && Splits(name, 12, 21, 30)
    ensures forall k | 21 < k < 30 :: IsDigit(name[k])
  {
    CompaniesHouseNoNewline(name);
    CompaniesHouseDigits(name);
    CompaniesHouseExtension(name);
  }

  lemma CompaniesHouseNoNewline(name: string)
    requires name == "Prod224_0001_01234567_20230930.html"
    ensures NoNewline(name)
  {
  }

  lemma CompaniesHouseDigits(name: string)
    requires name == "Prod224_0001_01234567_20230930.html"
    ensures forall k | 12 < k < 30 && k != 21 :: IsDigit(name[k])
  {
  }

  lemma CompaniesHouseExtension(name: string)
    requires name == "Prod224_0001_01234567_20230930.html"
    ensures forall k | 30 < k < |name| :: IsWordChar(name[k])
  {
  }

  /** What lies between them. */
  lemma CompaniesHousePieces(name: string)
    requires name == "Prod224_0001_01234567_20230930.html"
    ensures name[13..21] == "01234567" && name[31..] == "html"
  {
    assert name[13..21] == "01234567" by {
      assert forall k | 0 <= k < 8 :: name[13..21][k] == "01234567"[k];
    }
    assert name[31..] == "html" by {
      assert forall k | 0 <= k < 4 :: name[31..][k] == "html"[k];
    }
  }

  /** A Companies House accounts file name: the "0001" group of the prefix is passed over. */
  lemma CompaniesHouseName(name: string)
    requires name == "Prod224_0001_01234567_20230930.html"
    ensures ParseFilename(name) == Some(AccountsFile("01234567", "html"))
  {
    CompaniesHouseLayout(name);
    NumberBeforeDate(name, 12, 21, 30);
    CompaniesHousePieces(name);
  }

  // ================================================================ walking the directory tree

  /** The (directory, file name) pairs of one `os.walk` step, in its order. */
  function Pairs(root: string, files: seq<string>): (v: seq<(string, string)>)
    ensures |v| == |files| && forall k | 0 <= k < |files| :: v[k] == (root, files[k])
  {
    seq(|files|, k requires 0 <= k < |files| => (root, files[k]))
  }

  /** Every file of the walk, directory by directory; the directory names `os.walk` yields play no part. */
  function Visits(walk: seq<(string, seq<string>)>): seq<(string, string)> {
    if walk == [] then []
    else Visits(walk[..|walk| - 1]) + Pairs(walk[|walk| - 1].0, walk[|walk| - 1].1)
  }

  /*
   * The fold over the visits is stated for any file-name parser `parse`; the script's is
   * `ParseFilename`. Keeping the parser a parameter keeps its definition out of the reasoning
   * about the table.
   */

  /** The visit's file name matches and carries company number `k`. */
  predicate Files(parse: string -> Option<AccountsFile>, v: (string, string), k: string) {
    parse(v.1).Some? && parse(v.1).value.companyNumber == k
  }

  /** The visit's file name matches and has extension `t`. */
  predicate HasType(parse: string -> Option<AccountsFile>, v: (string, string), t: string) {
    parse(v.1).Some? && parse(v.1).value.extension == t
  }

  /** One visit: a matching file is filed under its number, replacing what was there. */
  function Record(parse: string -> Option<AccountsFile>, table: map<string, string>, v: (string, string)): map<string, string> {
    match parse(v.1)
    case None => table
    case Some(m) => table[m.companyNumber := PathJoin(v.0, v.1)]
  }

  /** One visit: a matching file adds its extension. */
  function RecordType(parse: string -> Option<AccountsFile>, types: set<string>, v: (string, string)): set<string> {
    match parse(v.1)
    case None => types
    case Some(m) => types + {m.extension}
  }

  /** The table after the visits. */
  function LookupOf(parse: string -> Option<AccountsFile>, visits: seq<(string, string)>): map<string, string> {
    if visits == [] then map[]
    else Record(parse, LookupOf(parse, visits[..|visits| - 1]), visits[|visits| - 1])
  }

  /** The extensions of the matching files among the visits. */
  function FileTypesOf(parse: string -> Option<AccountsFile>, visits: seq<(string, string)>): set<string> {
    if visits == [] then {}
    else RecordType(parse, FileTypesOf(parse, visits[..|visits| - 1]), visits[|visits| - 1])
  }

  /** The reference for the table: the index of the last visit whose file carries company number `k`. */
  function LastFiling(parse: string -> Option<AccountsFile>, visits: seq<(string, string)>, k: string): (i: Option<nat>)
    ensures i.Some? ==> i.value < |visits| && Files(parse, visits[i.value], k)
    ensures i.Some? ==> forall j | i.value < j < |visits| :: !Files(parse, visits[j], k)
    ensures i.None? ==> forall j | 0 <= j < |visits| :: !Files(parse, visits[j], k)
  {
    if visits == [] then None
    else if Files(parse, visits[|visits| - 1], k) then Some(|visits| - 1)
    else LastFiling(parse, visits[..|visits| - 1], k)
  }

  lemma LookupStep(parse: string -> Option<AccountsFile>, visits: seq<(string, string)>, v: (string, string))
    ensures LookupOf(parse, visits + [v]) == Record(parse, LookupOf(parse, visits), v)
    ensures FileTypesOf(parse, visits + [v]) == RecordType(parse, FileTypesOf(parse, visits), v)
  {
    assert (visits + [v])[..|visits|] == visits;
  }

  /** One more file of the current directory. */
  lemma PairsStep(root: string, files: seq<string>, j: nat)
    requires j < |files|
    ensures Pairs(root, files[..j + 1]) == Pairs(root, files[..j]) + [(root, files[j])]
  {
  }

  /** One more directory. */
  lemma VisitsStep(walk: seq<(string, seq<string>)>, i: nat)
    requires i < |walk|
    ensures Visits(walk[..i + 1]) == Visits(walk[..i]) + Pairs(walk[i].0, walk[i].1)
  {
    assert walk[..i + 1][..i] == walk[..i];
  }

  /** The visit of one file (the body of the inner loop), for the file-name parser `parse`. */
  method VisitFile(parse: string -> Option<AccountsFile>, lookup: map<string, string>, fileTypes: set<string>, root: string, name: string)
      returns (lookup': map<string, string>, fileTypes': set<string>)
    ensures lookup' == Record(parse, lookup, (root, name))
    ensures fileTypes' == RecordType(parse, fileTypes, (root, name))
  {
    lookup', fileTypes' := lookup, fileTypes;
    var m := parse(name);
    if m.Some? {
      var companyNumber, fileExtension := m.value.companyNumber, m.value.extension;
      var fullPath := PathJoin(root, name);
      fileTypes' := fileTypes' + {fileExtension};
      lookup' := lookup'[companyNumber := fullPath];
    }
  }

  /** The script's nested loop over the walk. */
  /** The inner loop of the walk: the files of one directory, in order. */
  method VisitDirectory(parse: string -> Option<AccountsFile>, ghost done: seq<(string, string)>,
                        lookup: map<string, string>, fileTypes: set<string>, root: string, files: seq<string>)
      returns (lookup': map<string, string>, fileTypes': set<string>)
    requires lookup == LookupOf(parse, done) && fileTypes == FileTypesOf(parse, done)
    ensures lookup' == LookupOf(parse, done + Pairs(root, files))
    ensures fileTypes' == FileTypesOf(parse, done + Pairs(root, files))
  {
    lookup', fileTypes' := lookup, fileTypes;
    assert done + Pairs(root, files[..0]) == done;
    for j := 0 to |files|
      invariant lookup' == LookupOf(parse, done + Pairs(root, files[..j]))
      invariant fileTypes' == FileTypesOf(parse, done + Pairs(root, files[..j]))
    {
      ghost var seen := done + Pairs(root, files[..j]);
      PairsStep(root, files, j);
      assert done + Pairs(root, files[..j + 1]) == seen + [(root, files[j])];
      LookupStep(parse, seen, (root, files[j]));
      lookup', fileTypes' := VisitFile(parse, lookup', fileTypes', root, files[j]);
    }
    assert files[..|files|] == files;
  }

  method BuildLookup(walk: seq<(string, seq<string>)>) returns (lookup: map<string, string>, fileTypes: set<string>)
    ensures lookup == LookupOf(ParseFilename, Visits(walk))
    ensures fileTypes == FileTypesOf(ParseFilename, Visits(walk))
  {
    lookup, fileTypes := map[], {};
    for i := 0 to |walk|
      invariant lookup == LookupOf(ParseFilename, Visits(walk[..i]))
      invariant fileTypes == FileTypesOf(ParseFilename, Visits(walk[..i]))
    {
      VisitsStep(walk, i);
      lookup, fileTypes := VisitDirectory(ParseFilename, Visits(walk[..i]), lookup, fileTypes, walk[i].0, walk[i].1);
    }
    assert walk[..|walk|] == walk;
  }

  /**
   * Company number `k` is in the table exactly when some matching file carries it, and it is
   * filed with the joined path of the last such file visited.
   */
  lemma {:induction false} LookupMeaning(parse: string -> Option<AccountsFile>, visits: seq<(string, string)>, k: string)
    ensures k in LookupOf(parse, visits) <==> LastFiling(parse, visits, k).Some?
    ensures k in LookupOf(parse, visits) ==>
              var i := LastFiling(parse, visits, k).value;
              LookupOf(parse, visits)[k] == PathJoin(visits[i].0, visits[i].1)
    decreases |visits|
  {
    if visits != [] {
      LookupMeaning(parse, visits[..|visits| - 1], k);
    }
  }

  /** The extensions collected are exactly those of the matching files. */
  lemma {:induction false} FileTypesMeaning(parse: string -> Option<AccountsFile>, visits: seq<(string, string)>, t: string)
    ensures t in FileTypesOf(parse, visits) <==> exists i | 0 <= i < |visits| :: HasType(parse, visits[i], t)
    decreases |visits|
  {
    if visits != [] {
      var n := |visits| - 1;
      FileTypesMeaning(parse, visits[..n], t);
      assert forall i | 0 <= i < n :: visits[..n][i] == visits[i];
    }
  }

  /** A file whose name does not match changes neither the table nor the extensions. */
  lemma NonMatchingIgnored(visits: seq<(string, string)>, v: (string, string))
    requires ParseFilename(v.1).None?
    ensures LookupOf(ParseFilename, visits + [v]) == LookupOf(ParseFilename, visits)
    ensures FileTypesOf(ParseFilename, visits + [v]) == FileTypesOf(ParseFilename, visits)
  {
    LookupStep(ParseFilename, visits, v);
  }

  /** Of two files carrying the same company number, the one visited later is in the table. */
  lemma LastWins(parse: string -> Option<AccountsFile>, visits: seq<(string, string)>, v: (string, string), w: (string, string), k: string)
    requires Files(parse, v, k) && Files(parse, w, k)
    ensures LookupOf(parse, visits + [v, w])[k] == PathJoin(w.0, w.1)
  {
    LookupStep(parse, visits + [v], w);
    assert visits + [v, w] == (visits + [v]) + [w];
  }

  /** Every key of the table is a company number made of digits. */
  lemma KeysAreDigits(visits: seq<(string, string)>, k: string)
    requires k in LookupOf(ParseFilename, visits)
    ensures IsDigits(k)
  {
    LookupMeaning(ParseFilename, visits, k);
    ParseFilenameParts(visits[LastFiling(ParseFilename, visits, k).value].1);
  }
}
