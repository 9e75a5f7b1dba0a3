/**
 * `MatchDataExtractor.extractMatchesFromCurrentPage`: parse at most the first
 * eight located match elements, append to `matches` every record that is
 * neither an error record nor carries an error, and fail with
 * `TODAS_TABELAS_NAO_ENCONTRADAS` when every processed element lost its table.
 */
module MatchExtractor {
  import opened Base
  import opened JsText
  import opened Dom
  import opened MatchRecords
  import opened CellExtractors
  import opened MatchParser
  import opened MatchLocator

  /** The identifiers and timestamps the clock and the random source hand out for one element. */
  datatype Stamps = Stamps(id: string, extractedAt: string, errorId: string, errorExtractedAt: string)

  /** How many elements one page extraction processes. */
  const MaxPerPage: nat := 8

  /** What the extraction ends with: the matches so far, or the all-tables-missing failure. */
  datatype PageOutcome = Extracted(matches: seq<MatchRecord>) | AllTablesMissing

  /** `matchElements.slice(0, 8)` */
  function Batch(located: seq<Path>): (r: seq<Path>)
    ensures |r| <= MaxPerPage && |r| <= |located| && r == located[..|r|]
    ensures |located| <= MaxPerPage ==> r == located
  {
    if |located| <= MaxPerPage then located else located[..MaxPerPage]
  }

  /** `parseMatchElement` with the row reader of the page and one element's stamps. */
  function ElementParser(doc: Node, env: Env): (Path, Stamps) -> MatchRecord {
    (e: Path, st: Stamps) => ParseMatchElement(doc, e, RowReader(doc, env), st.id, st.extractedAt, st.errorId, st.errorExtractedAt)
  }

  /** The records of a batch, in order; the `i`-th element gets the `i`-th stamps. */
  function ParsedBatch(parser: (Path, Stamps) -> MatchRecord, stampsOf: nat -> Stamps, elements: seq<Path>): (r: seq<MatchRecord>)
    ensures |r| == |elements|
    ensures forall i :: 0 <= i < |elements| ==> r[i] == parser(elements[i], stampsOf(i))
  {
    seq(|elements|, i requires 0 <= i < |elements| => parser(elements[i], stampsOf(i)))
  }

  /** The records the page's batch parses to. */
  function PageRecords(doc: Node, env: Env, stampsOf: nat -> Stamps): seq<MatchRecord> {
    ParsedBatch(ElementParser(doc, env), stampsOf, Batch(LocatedMatches(doc)))
  }

  /** The test a record must pass to be kept: a non-empty outcome without `Error`, and no error. */
  predicate Accepted(m: MatchRecord) {
    |m.outcome| > 0 && !Contains(m.outcome, "Error") && m.error.None?
  }

  /** The kept records, in order. */
  function KeepAccepted(records: seq<MatchRecord>): (r: seq<MatchRecord>)
    ensures |r| <= |records|
    ensures forall m :: m in r ==> m in records && Accepted(m)
    ensures forall m :: m in records && Accepted(m) ==> m in r
  {
    if records == [] then []
    else
      var n := |records| - 1;
      KeepAccepted(records[..n]) + (if Accepted(records[n]) then [records[n]] else [])
  }

  /** How many records carry the table-not-found error. */
  function TableMissingCount(records: seq<MatchRecord>): (n: nat)
    ensures n <= |records|
  {
    if records == [] then 0
    else
      var k := |records| - 1;
      TableMissingCount(records[..k]) + (if records[k].error == Some(TableMissing) then 1 else 0)
  }

  /** Every record carries the table-not-found error exactly when the count reaches the length. */
  lemma {:induction false} AllTableMissing(records: seq<MatchRecord>)
    ensures TableMissingCount(records) == |records| <==>
      forall i :: 0 <= i < |records| ==> records[i].error == Some(TableMissing)
  {
    if records != [] {
      var k := |records| - 1;
      AllTableMissing(records[..k]);
      assert forall i :: 0 <= i < k ==> records[..k][i] == records[i];
    }
  }

  /** When every record carries an error none is kept. */
  lemma {:induction false} NoneKeptWhenAllMissing(records: seq<MatchRecord>)
    requires forall i :: 0 <= i < |records| ==> records[i].error == Some(TableMissing)
    ensures KeepAccepted(records) == []
  {
    if records != [] {
      var k := |records| - 1;
      assert forall i :: 0 <= i < k ==> records[..k][i] == records[i];
      NoneKeptWhenAllMissing(records[..k]);
    }
  }

  class MatchDataExtractor {
    /** The matches extracted so far. */
    var matches: seq<MatchRecord>

    constructor()
      ensures matches == []
    {
      matches := [];
    }

    /**
     * `extractMatchesFromCurrentPage()`: the matches grow by the accepted
     * records of the first eight located elements, in order; the page fails
     * exactly when some and all of the processed elements lost their table.
     */
    method ExtractMatchesFromCurrentPage(doc: Node, env: Env, stampsOf: nat -> Stamps) returns (outcome: PageOutcome)
      modifies this
      ensures matches == old(matches) + KeepAccepted(PageRecords(doc, env, stampsOf))
      ensures outcome.AllTablesMissing? <==>
        0 < TableMissingCount(PageRecords(doc, env, stampsOf)) == |PageRecords(doc, env, stampsOf)|
      ensures outcome.Extracted? ==> outcome.matches == matches
    {
      var matchElements := FindMatchElements(doc);
      outcome := ExtractFromElements(matchElements, ElementParser(doc, env), stampsOf);
    }

    /** The page extraction once the match elements are located: an empty list processes nothing. */
    method ExtractFromElements(matchElements: seq<Path>, parser: (Path, Stamps) -> MatchRecord, stampsOf: nat -> Stamps)
      returns (outcome: PageOutcome)
      modifies this
      ensures matches == old(matches) + KeepAccepted(ParsedBatch(parser, stampsOf, Batch(matchElements)))
      ensures outcome.AllTablesMissing? <==>
        0 < TableMissingCount(ParsedBatch(parser, stampsOf, Batch(matchElements))) == |Batch(matchElements)|
      ensures outcome.Extracted? ==> outcome.matches == matches
    {
      if |matchElements| > 0 {
        var limitedElements := Batch(matchElements);
        var allMissing := ProcessBatch(limitedElements, parser, stampsOf);
        if allMissing {
          return AllTablesMissing;
        }
      }
      return Extracted(matches);
    }

    /**
     * The loop over the batch: append the accepted records and count the
     * table-not-found ones; report whether that count is positive and covers
     * the whole batch.
     */
    method ProcessBatch(limitedElements: seq<Path>, parser: (Path, Stamps) -> MatchRecord, stampsOf: nat -> Stamps)
      returns (allMissing: bool)
      modifies this
      ensures matches == old(matches) + KeepAccepted(ParsedBatch(parser, stampsOf, limitedElements))
      ensures allMissing <==>
        0 < TableMissingCount(ParsedBatch(parser, stampsOf, limitedElements)) == |limitedElements|
    {
      ghost var records := ParsedBatch(parser, stampsOf, limitedElements);
      var tableNotFoundCount := 0;
      for i := 0 to |limitedElements|
        invariant matches == old(matches) + KeepAccepted(records[..i])
        invariant tableNotFoundCount == TableMissingCount(records[..i])
      {
        var parsed := parser(limitedElements[i], stampsOf(i));
        assert records[..i + 1][..i] == records[..i];
        if |parsed.outcome| > 0 && !Contains(parsed.outcome, "Error") && parsed.error.None? {
          matches := matches + [parsed];
        } else if parsed.error == Some(TableMissing) {
          tableNotFoundCount := tableNotFoundCount + 1;
        }
      }
      assert records[..|limitedElements|] == records;
      allMissing := tableNotFoundCount > 0 && tableNotFoundCount == |limitedElements|;
    }
  }

  /**
   * A failed page adds nothing: when every processed element lost its table,
   * no record of the batch is kept.
   */
  lemma FailedPageKeepsNothing(records: seq<MatchRecord>)
    requires 0 < TableMissingCount(records) == |records|
    ensures KeepAccepted(records) == []
  {
    AllTableMissing(records);
    NoneKeptWhenAllMissing(records);
  }

  /** Every parsed element has the shape of a parsed record. */
  lemma ParserShape(doc: Node, env: Env, e: Path, st: Stamps)
    ensures RecordShape(ElementParser(doc, env)(e, st), st.id, Outcome(TextContent(At(doc, e))))
  {
    ParsedRecordShape(doc, e, RowReader(doc, env), st.id, st.extractedAt, st.errorId, st.errorExtractedAt);
  }

  /** The gate's promise about a record without an error: data, when present, holds eight or more players, all counted. */
  predicate GateKept(m: MatchRecord) {
    m.error.None? && m.fullMatchData.Some? ==>
      PlayerCount(m.fullMatchData.value) >= 8 && m.totalPlayers == Some(PlayerCount(m.fullMatchData.value))
  }

  /** Keeping the accepted records of a batch whose records all keep the gate's promise. */
  lemma KeptShape(records: seq<MatchRecord>)
    requires forall i :: 0 <= i < |records| ==> GateKept(records[i])
    ensures forall m :: m in KeepAccepted(records) ==> m.error.None? && GateKept(m)
  {
    forall m | m in KeepAccepted(records)
      ensures GateKept(m)
    {
      var i :| 0 <= i < |records| && records[i] == m;
    }
  }

  /** Every record of a parsed batch keeps the gate's promise. */
  lemma BatchKeepsGate(doc: Node, env: Env, stampsOf: nat -> Stamps, elements: seq<Path>)
    ensures forall i :: 0 <= i < |elements| ==> GateKept(ParsedBatch(ElementParser(doc, env), stampsOf, elements)[i])
  {
    forall i | 0 <= i < |elements|
      ensures GateKept(ParsedBatch(ElementParser(doc, env), stampsOf, elements)[i])
    {
      ParserShape(doc, env, elements[i], stampsOf(i));
    }
  }

  /**
   * What a page adds to `matches`: at most eight records, none carrying an
   * error, and each one with data holding eight or more players counted in
   * `totalPlayers`.
   */
  lemma KeptRecordsShape(doc: Node, env: Env, stampsOf: nat -> Stamps)
    ensures |KeepAccepted(PageRecords(doc, env, stampsOf))| <= MaxPerPage
    ensures forall m :: m in KeepAccepted(PageRecords(doc, env, stampsOf)) ==> m.error.None? && GateKept(m)
  {
    BatchKeepsGate(doc, env, stampsOf, Batch(LocatedMatches(doc)));
    KeptShape(PageRecords(doc, env, stampsOf));
  }
}
