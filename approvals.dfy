/** The approval side of the harvest: HarvestService.getApprovals (the id ->
    approval map) and HarvestService.merge(List, Map) (attaching approvals),
    stated on values. */
module Approvals {
  import opened Outcomes
  import opened Json
  import opened Sources

  /** One element of the approvals array: `getJSONObject(i)`, its
      `getString("id")`, and the object after `remove("id")`. */
  function Entry(v: Value): (r: Result<(string, Document)>)
    ensures r.Ok? ==> v.Obj? && IdKey in v.fields && v.fields[IdKey] == Str(r.value.0)
    ensures r.Ok? ==> r.value.1.Keys == v.fields.Keys - {IdKey}
    ensures r.Ok? ==> forall key :: key in r.value.1 ==> r.value.1[key] == v.fields[key]
    ensures r.Err? <==> !(v.Obj? && IdKey in v.fields && v.fields[IdKey].Str?)
  {
    if v.Obj? && IdKey in v.fields && v.fields[IdKey].Str? then
      Ok((v.fields[IdKey].s, v.fields - {IdKey}))
    else
      Err(JsonException)
  }

  /** The loop of getApprovals: each entry is put into the map under its id,
      so a later entry with the same id overwrites an earlier one. */
  function ApprovalsById(items: seq<Value>): Result<map<string, Document>>
    decreases |items|
  {
    if items == [] then Ok(map[])
    else
      match ApprovalsById(items[..|items| - 1])
      case Err(e) => Err(e)
      case Ok(m) =>
        match Entry(items[|items| - 1])
        case Err(e) => Err(e)
        case Ok(entry) => Ok(m[entry.0 := entry.1])
  }

  /** getApprovals on the text getApprovalData fetched. */
  function ApprovalsFromText(text: Text): Result<map<string, Document>> {
    match text
    case NotJsonArray => Err(JsonException)
    case JsonArrayText(items) => ApprovalsById(items)
  }

  /** getApprovals: getApprovalData, whose unchecked exception ends the run,
      then the approvals of the text. */
  function ApprovalsFrom(fetched: Fetched): Result<map<string, Document>> {
    match DataAsJsonArray(fetched)
    case Err(e) => Err(e)
    case Ok(text) => ApprovalsFromText(text)
  }

  /** The id of a well-formed approval entry. */
  function EntryId(v: Value): string
    requires Entry(v).Ok?
  {
    Entry(v).value.0
  }

  /** The approval map is built exactly when every entry is an object with a
      string id. */
  lemma {:induction false} ApprovalsFailExactly(items: seq<Value>)
    ensures ApprovalsById(items).Ok? <==> forall i :: 0 <= i < |items| ==> Entry(items[i]).Ok?
    ensures ApprovalsById(items).Err? ==> ApprovalsById(items) == Err(JsonException)
    decreases |items|
  {
    if items != [] {
      var init := items[..|items| - 1];
      ApprovalsFailExactly(init);
      assert forall i :: 0 <= i < |init| ==> init[i] == items[i];
    }
  }

  /** A key of the approval map is exactly the id of some entry. */
  lemma {:induction false} ApprovalsKeys(items: seq<Value>, u: string)
    requires forall i :: 0 <= i < |items| ==> Entry(items[i]).Ok?
    ensures ApprovalsById(items).Ok?
    ensures u in ApprovalsById(items).value <==> exists i :: 0 <= i < |items| && EntryId(items[i]) == u
    decreases |items|
  {
    ApprovalsFailExactly(items);
    if items != [] {
      var init := items[..|items| - 1];
      assert forall i :: 0 <= i < |init| ==> init[i] == items[i];
      ApprovalsKeys(init, u);
      if u != EntryId(items[|items| - 1]) && u in ApprovalsById(items).value {
        var i :| 0 <= i < |init| && EntryId(init[i]) == u;
        assert EntryId(items[i]) == u;
      }
    }
  }

  /** The entry filed under an id is the last entry with that id, without its
      "id" key: a later entry overwrites an earlier one. */
  lemma {:induction false} ApprovalsLastWins(items: seq<Value>, i: nat)
    requires forall k :: 0 <= k < |items| ==> Entry(items[k]).Ok?
    requires i < |items|
    requires forall j :: i < j < |items| ==> EntryId(items[j]) != EntryId(items[i])
    ensures ApprovalsById(items).Ok?
    ensures EntryId(items[i]) in ApprovalsById(items).value
    ensures ApprovalsById(items).value[EntryId(items[i])] == Entry(items[i]).value.1
    decreases |items|
  {
    ApprovalsFailExactly(items);
    var init := items[..|items| - 1];
    assert forall k :: 0 <= k < |init| ==> init[k] == items[k];
    ApprovalsFailExactly(init);
    if i < |items| - 1 {
      ApprovalsLastWins(init, i);
      assert EntryId(items[|items| - 1]) != EntryId(items[i]);
    }
  }

  /** No approval keeps its "id" key. */
  lemma {:induction false} ApprovalsWithoutId(items: seq<Value>)
    requires ApprovalsById(items).Ok?
    ensures forall u :: u in ApprovalsById(items).value ==> IdKey !in ApprovalsById(items).value[u]
    decreases |items|
  {
    if items != [] {
      ApprovalsWithoutId(items[..|items| - 1]);
    }
  }

  /** An approvals source that cannot be reached gives no approvals at all,
      and the run goes on. */
  lemma UnreachableApprovalsAreEmpty()
    ensures ApprovalsFrom(Unreachable) == Ok(map[])
  {
  }

  /** An approvals fetch that throws an unchecked exception makes getApprovals
      throw it. */
  lemma BrokenApprovalsThrow()
    ensures ApprovalsFrom(Broken) == Err(FetchRuntimeException)
  {
  }

  // ---------------------------------------------------------------------------
  // Enrichment: merge(List, Map).

  /** One record after enrichment: it gets the approval filed under its id, if
      there is one. Applied only to records with an id (getId throws first). */
  function EnrichDoc(d: Document, approvals: map<string, Document>): Document {
    match IdOf(d)
    case Some(u) => if u in approvals then WithApproval(d, approvals[u]) else d
    case None => d
  }

  /** Enrichment does not change the id it was filed under, nor the
      timestamp. */
  lemma EnrichDocKeepsId(d: Document, approvals: map<string, Document>)
    ensures IdOf(EnrichDoc(d, approvals)) == IdOf(d)
    ensures forall parse: Parser :: UpdatedOf(EnrichDoc(d, approvals), parse) == UpdatedOf(d, parse)
  {
    if IdOf(d).Some? && IdOf(d).value in approvals {
      forall parse: Parser
        ensures UpdatedOf(EnrichDoc(d, approvals), parse) == UpdatedOf(d, parse)
      {
        ApprovalKeepsReadFields(d, approvals[IdOf(d).value], parse);
      }
      ApprovalKeepsReadFields(d, approvals[IdOf(d).value], (_: string) => None);
    }
  }

  /** Enriching a record a second time with the same map changes nothing: the
      second setApproval overwrites the first with the same approval. */
  lemma EnrichDocIdempotent(d: Document, approvals: map<string, Document>)
    ensures EnrichDoc(EnrichDoc(d, approvals), approvals) == EnrichDoc(d, approvals)
  {
    EnrichDocKeepsId(d, approvals);
    if IdOf(d).Some? && IdOf(d).value in approvals {
      ApprovalOverwrites(d, approvals[IdOf(d).value], approvals[IdOf(d).value]);
    }
  }

  /** merge(List, Map) on the documents: getId is called on every record, so a
      record without an id throws; otherwise every record is enriched in
      place. */
  function Enrich(docs: seq<Document>, approvals: map<string, Document>): (r: Result<seq<Document>>)
    ensures r.Ok? <==> forall i :: 0 <= i < |docs| ==> IdOf(docs[i]).Some?
  {
    if forall i :: 0 <= i < |docs| ==> IdOf(docs[i]).Some? then
      Ok(seq(|docs|, i requires 0 <= i < |docs| => EnrichDoc(docs[i], approvals)))
    else
      Err(JsonException)
  }

  /** Enrichment keeps the length and order of the list. A record whose id is a
      key of the map gets exactly that approval under "approval"; every other
      key of it is unchanged, and so is every record whose id is not a key. */
  lemma EnrichAttachesMatching(docs: seq<Document>, approvals: map<string, Document>, i: nat)
    requires Enrich(docs, approvals).Ok? && i < |docs|
    ensures |Enrich(docs, approvals).value| == |docs|
    ensures var d := docs[i];
            var r := Enrich(docs, approvals).value[i];
            var u := IdOf(d).value;
            && (u in approvals ==> ApprovalKey in r && r[ApprovalKey] == Obj(approvals[u]))
            && (u !in approvals ==> r == d)
            && (forall key :: key != ApprovalKey ==> (key in r <==> key in d))
            && (forall key :: key in d && key != ApprovalKey ==> r[key] == d[key])
            && IdOf(r) == IdOf(d)
  {
    var d := docs[i];
    ApprovalKeepsReadFields(d, if IdOf(d).value in approvals then approvals[IdOf(d).value] else map[], (_: string) => None);
  }

  /** Enrichment keeps every record's id. */
  lemma EnrichKeepsIds(docs: seq<Document>, approvals: map<string, Document>)
    requires Enrich(docs, approvals).Ok?
    ensures |Enrich(docs, approvals).value| == |docs|
    ensures forall i :: 0 <= i < |docs| ==> IdOf(Enrich(docs, approvals).value[i]) == IdOf(docs[i])
  {
    forall i | 0 <= i < |docs|
      ensures IdOf(Enrich(docs, approvals).value[i]) == IdOf(docs[i])
    {
      EnrichDocKeepsId(docs[i], approvals);
    }
  }

  /** Without approvals, enrichment gives the list back unchanged, provided
      every record has an id. */
  lemma EnrichWithoutApprovals(docs: seq<Document>)
    requires forall i :: 0 <= i < |docs| ==> IdOf(docs[i]).Some?
    ensures Enrich(docs, map[]) == Ok(docs)
  {
    assert Enrich(docs, map[]).value == docs;
  }
}
