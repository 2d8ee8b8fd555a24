/**
 * The records that flow between the pipeline's stages. The source keeps them as JSON
 * dictionaries; here each shape is a datatype whose fields are the keys the stages read.
 */
module Records {
  import opened Wrappers

  /** One registry row: column name to cell text (a missing column reads as ""). */
  type Row = map<string, string>

  /** `row.get(name, "")`. */
  function Field(row: Row, name: string): string {
    if name in row then row[name] else ""
  }

  /** One firm record returned by the regulator's search; only its `Name` is read. */
  datatype RegMatch = RegMatch(fields: map<string, string>)

  /** `entry.get("Name", "")`. */
  function MatchName(m: RegMatch): string {
    Field(m.fields, "Name")
  }

  /**
   * A registry row that matched a requested SIC code (the first stage's search result).
   * `regulatoryStatus` is what a previous run may have attached; [] when absent.
   */
  datatype Candidate = Candidate(
    companyName: string,
    companyNumber: string,
    relevantSicCodes: map<string, string>,
    data: Row,
    regulatoryStatus: seq<RegMatch>)

  /**
   * A company with a large balance sheet, as written by the first stage and read by the
   * second and third. `regulatoryStatus` is `None` until the second stage sets it.
   */
  datatype SuspectEntry = SuspectEntry(
    companyName: string,
    companyNumber: string,
    sic1: string, sic2: string, sic3: string, sic4: string,
    cash: real,
    suspectData: seq<(string, real)>,
    regulatoryStatus: Option<seq<RegMatch>>)
}
