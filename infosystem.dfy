/** ee.ria.riha.models.Infosystem: a mutable wrapper around one JSON document. */
module Records {
  import opened Outcomes
  import opened Json

  class Infosystem {
    var json: Document

    /** Wraps the parsed document as it is. */
    constructor (json: Document)
      ensures this.json == json
      ensures Json() == json && Id() == IdOf(json) && Owner() == OwnerOf(json)
    {
      this.json := json;
    }

    /** getId: meta.URI, or None where getId throws. */
    function Id(): Option<string>
      reads this
    {
      IdOf(json)
    }

    /** The owner code the harvester filters on (the top-level "owner"). */
    function Owner(): (r: Option<string>)
      reads this
      ensures r.Some? <==> OwnerKey in json && json[OwnerKey].Str?
      ensures r.Some? ==> json[OwnerKey] == Str(r.value)
    {
      OwnerOf(json)
    }

    /** getUpdated: status.timestamp as a local date-time. */
    function Updated(parse: Parser): Result<Timestamp>
      reads this
    {
      UpdatedOf(json, parse)
    }

    /** getJson: the wrapped document. */
    function Json(): Document
      reads this
    {
      json
    }

    /** setApproval: puts the single key "approval" into the wrapped document,
        replacing any earlier approval; the id, owner and timestamp it reads do
        not change. */
    method SetApproval(approval: Document)
      modifies this
      ensures json == WithApproval(old(json), approval)
      ensures Id() == old(Id()) && Owner() == old(Owner())
      ensures forall parse: Parser :: Updated(parse) == old(Updated(parse))
    {
      forall parse: Parser
        ensures UpdatedOf(WithApproval(json, approval), parse) == UpdatedOf(json, parse)
      {
        ApprovalKeepsReadFields(json, approval, parse);
      }
      ApprovalKeepsReadFields(json, approval, (_: string) => None);
      json := WithApproval(json, approval);
    }
  }

  /** The documents wrapped by a list of records, position by position. */
  function Docs(s: seq<Infosystem>): (d: seq<Document>)
    reads s
    ensures |d| == |s| && forall i :: 0 <= i < |s| ==> d[i] == s[i].json
  {
    seq(|s|, i reads s requires 0 <= i < |s| => s[i].json)
  }

  /** The documents of two lists one after the other. */
  lemma DocsAppend(a: seq<Infosystem>, b: seq<Infosystem>)
    ensures Docs(a + b) == Docs(a) + Docs(b)
  {
  }
}
