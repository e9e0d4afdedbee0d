/** The gold narratives table, merged on engagement, control, quarter, attribute
    and prompt version, and the fact check that fills its verdict columns. */
module GoldNarratives {
  import opened Decimals
  import opened Evidence
  import opened Silver
  import FC = FactChecker
  import L2 = Layer2Generator

  datatype GoldKey = GoldKey(triple: Triple, attribute: Attribute, promptVersion: string)

  datatype GoldNarrative = GoldNarrative(key: GoldKey, response: L2.Response, sourceId: string, generationRunId: string,
                                         callId: Option<string>, passed: bool, issues: seq<FC.Issue>)

  /** Rows by their merge key. */
  type Table = map<GoldKey, GoldNarrative>

  /** The fact checker as the sweeps use it: `blob` is the evidence as one string. */
  datatype Checker = Checker(blob: Record -> string, stopwords: set<string>, similar: (string, string) -> bool)
  {
    function IssuesOf(text: string, e: Record): seq<FC.Issue> { FC.Issues(text, blob(e), stopwords, similar) }

    predicate Passes(text: string, e: Record) { FC.Passes(text, blob(e), stopwords, similar) }
  }

  /** A row with the verdict columns rewritten. */
  function Verdict(n: GoldNarrative, e: Record, c: Checker): GoldNarrative {
    n.(passed := c.Passes(n.response.text, e), issues := c.IssuesOf(n.response.text, e))
  }

  class GoldTable {
    var rows: Table

    constructor (rows: Table)
      ensures this.rows == rows
    {
      this.rows := rows;
    }

    /** `write_narrative`: insert, or overwrite the row with the same key. */
    method WriteNarrative(n: GoldNarrative)
      modifies this
      ensures rows == old(rows)[n.key := n]
    {
      rows := rows[n.key := n];
    }

    /** The UPDATE of `re_fact_check`. */
    method UpdateVerdict(k: GoldKey, passed: bool, issues: seq<FC.Issue>)
      modifies this
      ensures rows == if k in old(rows) then old(rows)[k := old(rows)[k].(passed := passed, issues := issues)]
                      else old(rows)
    {
      if k in rows {
        rows := rows[k := rows[k].(passed := passed, issues := issues)];
      }
    }
  }
}
