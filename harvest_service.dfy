/** ee.ria.riha.service.HarvestService: one scheduled harvest run. It reads the
    legacy producer and every configured producer, merges their records by id
    keeping the newest, attaches approvals by id, and hands the list to
    storage. The methods follow the Java code step by step; each is proved
    against the value-level definitions of Sources, Dedup and Approvals. */
module HarvestService {
  import opened Outcomes
  import opened Json
  import opened Records
  import opened Sources
  import opened Dedup
  import opened Approvals

  /** One line of producers.db: a producer's URL and its owner list, the raw
      property value of comma-separated owner codes. */
  datatype Producer = Producer(url: string, owners: string)

  /** The harvester's configuration: approvals.url, legacyProducer.url (None
      where the property is null) and the producers in iteration order. */
  datatype Config = Config(approvalsUrl: string, legacyProducerUrl: Option<string>, producers: seq<Producer>)

  // ---------------------------------------------------------------------------
  // The run, stated on values.

  /** The legacy producer's records, unrestricted, when its URL is not blank. */
  function LegacyDocs(config: Config, fetch: Fetcher): (r: Result<seq<Document>>)
    ensures !IsNotBlank(config.legacyProducerUrl) ==> r == Ok([])
    ensures r.Err? ==> IsNotBlank(config.legacyProducerUrl)
  {
    if IsNotBlank(config.legacyProducerUrl) then SourceDocs(fetch(config.legacyProducerUrl.value), None)
    else Ok([])
  }

  /** One producer's records: getInfosystems(url, asList(owners.split(","))). */
  function ProducerSource(producer: Producer, fetch: Fetcher): (r: Result<seq<Document>>)
    ensures fetch(producer.url).Unreachable? ==> r == Ok([])
    ensures fetch(producer.url).Broken? ==> r == Err(FetchRuntimeException)
  {
    SourceDocs(fetch(producer.url), Some(SplitComma(producer.owners)))
  }

  /** The producers' records in producer order, each producer restricted to
      its owner list. */
  function ProducerDocs(producers: seq<Producer>, fetch: Fetcher): (r: Result<seq<Document>>)
    ensures r.Ok? <==> forall i :: 0 <= i < |producers| ==> ProducerSource(producers[i], fetch).Ok?
    decreases |producers|
  {
    if producers == [] then Ok([])
    else Concat(ProducerDocs(producers[..|producers| - 1], fetch), ProducerSource(producers[|producers| - 1], fetch))
  }

  /** `allInfosystems` before the merge: the legacy records, then the
      producers'. */
  function CandidateDocs(config: Config, fetch: Fetcher): Result<seq<Document>> {
    Concat(LegacyDocs(config, fetch), ProducerDocs(config.producers, fetch))
  }

  /** `allInfosystems` after the legacy producer and the first `k` producers. */
  function CandidatesUpTo(config: Config, fetch: Fetcher, k: nat): Result<seq<Document>>
    requires k <= |config.producers|
  {
    Concat(LegacyDocs(config, fetch), ProducerDocs(config.producers[..k], fetch))
  }

  /** getInfosystems(): the candidates after merge(List). */
  function MergedDocs(config: Config, fetch: Fetcher, parse: Parser): Result<seq<Document>> {
    match CandidateDocs(config, fetch)
    case Err(e) => Err(e)
    case Ok(candidates) =>
      match Merge(candidates, parse)
      case Err(e) => Err(e)
      case Ok(acc) => Ok(Pick(candidates, acc))
  }

  /** harvestInfosystems: the list given to storage, or None when the run
      throws before storage is called. */
  function HarvestSpec(config: Config, fetch: Fetcher, parse: Parser): Option<seq<Document>> {
    match MergedDocs(config, fetch, parse)
    case Err(_) => None
    case Ok(merged) =>
      match ApprovalsFrom(fetch(config.approvalsUrl))
      case Err(_) => None
      case Ok(approvals) =>
        match Enrich(merged, approvals)
        case Err(_) => None
        case Ok(saved) => Some(saved)
  }

  // ---------------------------------------------------------------------------
  // The methods.

  /** getInfosystems(url, allowedOwners): one record per element of the
      fetched array, in array order, those whose owner is allowed kept; None
      for allowedOwners is the unrestricted source. */
  method GetInfosystems(fetch: Fetcher, url: string, allowedOwners: Option<seq<string>>)
    returns (r: Result<seq<Infosystem>>)
    ensures r.Ok? <==> SourceDocs(fetch(url), allowedOwners).Ok?
    ensures r.Ok? ==> Docs(r.value) == SourceDocs(fetch(url), allowedOwners).value
    ensures r.Ok? ==> forall x :: x in r.value ==> fresh(x)
  {
    var data := DataAsJsonArray(fetch(url));
    if data.Err? {
      return Err(data.error);
    }
    if data.value.NotJsonArray? {
      return Err(JsonException);
    }
    var infosystems := data.value.items;
    var result: seq<Infosystem> := [];
    var i := 0;
    while i < |infosystems|
      invariant 0 <= i <= |infosystems|
      invariant Kept(infosystems[..i], allowedOwners) == Ok(Docs(result))
      invariant forall x :: x in result ==> fresh(x)
    {
      KeptStep(infosystems, i, allowedOwners);
      if !infosystems[i].Obj? {
        KeptFailsExactly(infosystems, allowedOwners);
        return Err(JsonException);
      }
      ghost var before := Docs(result);
      var infosystem := new Infosystem(infosystems[i].fields);
      assert Docs(result) == before;
      if allowedOwners.None? || (infosystem.Owner().Some? && infosystem.Owner().value in allowedOwners.value) {
        DocsAppend(result, [infosystem]);
        assert Docs([infosystem]) == [infosystems[i].fields];
        result := result + [infosystem];
      }
      i := i + 1;
    }
    assert infosystems[..i] == infosystems;
    return Ok(result);
  }

  /** `result.stream().filter(i -> i.getId().equals(infosystem.getId())).findAny()`:
      the position of the first record in `result` with the candidate's id.
      Each record's getId is called before the candidate's, and the first call
      that throws ends the search. `docs`, `acc` and `k` name the records by
      their positions among the candidates. */
  method FindExisting(result: seq<Infosystem>, infosystem: Infosystem,
                      ghost docs: seq<Document>, ghost acc: seq<nat>, ghost k: nat)
    returns (found: Result<Option<nat>>)
    requires InRange(acc, |docs|) && k < |docs| && |result| == |acc|
    requires forall i :: 0 <= i < |acc| ==> result[i].json == docs[acc[i]]
    requires infosystem.json == docs[k]
    ensures found == FindFrom(docs, acc, k, 0)
  {
    var j := 0;
    while j < |result|
      invariant 0 <= j <= |result|
      invariant FindFrom(docs, acc, k, j) == FindFrom(docs, acc, k, 0)
    {
      var existingId := result[j].Id();
      if existingId.None? {
        return Err(JsonException);
      }
      var candidateId := infosystem.Id();
      if candidateId.None? {
        return Err(JsonException);
      }
      if existingId.value == candidateId.value {
        return Ok(Some(j));
      }
      j := j + 1;
    }
    return Ok(None);
  }

  /** The position of the first occurrence of the object `x`: the search of
      ArrayList.remove(Object), which compares by identity because Infosystem
      does not override equals. */
  method IndexOf(s: seq<Infosystem>, x: Infosystem) returns (q: nat)
    requires x in s
    ensures q < |s| && s[q] == x
    ensures forall i :: 0 <= i < q ==> s[i] != x
  {
    q := 0;
    while s[q] != x
      invariant q < |s| && x in s[q..]
      invariant forall i :: 0 <= i < q ==> s[i] != x
      decreases |s| - q
    {
      assert s[q..] == [s[q]] + s[q + 1..];
      q := q + 1;
    }
  }

  /** One turn of the loop of merge(List), for the candidate at position `k`
      of the candidate list: append it when no record in `result` has its id,
      replace that record when the candidate's timestamp is strictly later,
      keep `result` otherwise. */
  method MergeOne(result: seq<Infosystem>, infosystems: seq<Infosystem>, k: nat, parse: Parser,
                  ghost docs: seq<Document>, ghost acc: seq<nat>)
    returns (r: Result<seq<Infosystem>>)
    requires k < |infosystems| && docs == Docs(infosystems)
    requires MergePrefix(docs, parse, k) == Ok(acc) && result == Pick(infosystems, acc)
    ensures r.Ok? <==> MergePrefix(docs, parse, k + 1).Ok?
    ensures r.Ok? ==> r.value == Pick(infosystems, MergePrefix(docs, parse, k + 1).value)
    ensures r.Err? ==> r.error == MergePrefix(docs, parse, k + 1).error
  {
    assert MergePrefix(docs, parse, k + 1) == Step(docs, parse, acc, k);
    var infosystem := infosystems[k];
    var found := FindExisting(result, infosystem, docs, acc, k);
    if found.Err? {
      return Err(found.error);
    }
    if found.value.None? {
      PickAppend(infosystems, acc, k);
      return Ok(result + [infosystem]);
    }
    var j := found.value.value;
    var existing := result[j];
    var updated := infosystem.Updated(parse);
    if updated.Err? {
      return Err(updated.error);
    }
    var existingUpdated := existing.Updated(parse);
    if existingUpdated.Err? {
      return Err(existingUpdated.error);
    }
    if updated.value > existingUpdated.value {
      var q := IndexOf(result, existing);
      assert IdOf(existing.json) == IdOf(docs[k]);
      assert q == j;
      PickReplace(infosystems, acc, j, k);
      return Ok(RemoveAt(result, q) + [infosystem]);
    }
    return Ok(result);
  }

  /** merge(List): the candidates one by one, in list order; the first
      exception ends the merge. */
  method MergeInfosystems(infosystems: seq<Infosystem>, parse: Parser) returns (r: Result<seq<Infosystem>>)
    ensures r.Ok? <==> Merge(Docs(infosystems), parse).Ok?
    ensures r.Ok? ==> r.value == Pick(infosystems, Merge(Docs(infosystems), parse).value)
  {
    ghost var docs := Docs(infosystems);
    var result: seq<Infosystem> := [];
    ghost var acc: seq<nat> := [];
    var k := 0;
    while k < |infosystems|
      invariant 0 <= k <= |infosystems|
      invariant MergePrefix(docs, parse, k) == Ok(acc)
      invariant result == Pick(infosystems, acc)
    {
      var next := MergeOne(result, infosystems, k, parse, docs, acc);
      if next.Err? {
        MergeStopsAt(docs, parse, k);
        return Err(next.error);
      }
      result := next.value;
      acc := MergePrefix(docs, parse, k + 1).value;
      k := k + 1;
    }
    return Ok(result);
  }

  /** The first part of getInfosystems(): `allInfosystems`, the legacy
      producer's records when its URL is not blank, then every producer's
      records restricted to its owners. */
  method CollectCandidates(config: Config, fetch: Fetcher) returns (r: Result<seq<Infosystem>>)
    ensures r.Ok? <==> CandidateDocs(config, fetch).Ok?
    ensures r.Ok? ==> Docs(r.value) == CandidateDocs(config, fetch).value
    ensures r.Ok? ==> forall x :: x in r.value ==> fresh(x)
  {
    var allInfosystems: seq<Infosystem> := [];
    if IsNotBlank(config.legacyProducerUrl) {
      var legacy := GetInfosystems(fetch, config.legacyProducerUrl.value, None);
      if legacy.Err? {
        assert CandidateDocs(config, fetch).Err?;
        return Err(legacy.error);
      }
      allInfosystems := legacy.value;
    }
    assert config.producers[..0] == [];
    DocsAppend(allInfosystems, []);
    assert allInfosystems + [] == allInfosystems;
    var producers := config.producers;
    var k := 0;
    while k < |producers|
      invariant 0 <= k <= |producers|
      invariant CandidatesUpTo(config, fetch, k) == Ok(Docs(allInfosystems))
      invariant forall x :: x in allInfosystems ==> fresh(x)
    {
      var producer := producers[k];
      var allowedOwners := SplitComma(producer.owners);
      ghost var before := Docs(allInfosystems);
      var some := GetInfosystems(fetch, producer.url, Some(allowedOwners));
      if some.Err? {
        CandidatesStopAt(config, fetch, k);
        return Err(some.error);
      }
      CandidatesGrow(config, fetch, k, before, Docs(some.value));
      DocsAppend(allInfosystems, some.value);
      allInfosystems := allInfosystems + some.value;
      k := k + 1;
    }
    assert producers[..k] == producers;
    return Ok(allInfosystems);
  }

  /** getInfosystems(): the candidates, then merge(List). */
  method GetAllInfosystems(config: Config, fetch: Fetcher, parse: Parser) returns (r: Result<seq<Infosystem>>)
    ensures r.Ok? <==> MergedDocs(config, fetch, parse).Ok?
    ensures r.Ok? ==> Docs(r.value) == MergedDocs(config, fetch, parse).value
    ensures r.Ok? ==> forall x :: x in r.value ==> fresh(x)
  {
    var allInfosystems := CollectCandidates(config, fetch);
    if allInfosystems.Err? {
      return Err(allInfosystems.error);
    }
    var all := allInfosystems.value;
    r := MergeInfosystems(all, parse);
    if r.Ok? {
      var acc := Merge(Docs(all), parse).value;
      assert Docs(r.value) == Pick(Docs(all), acc);
      forall x | x in r.value
        ensures fresh(x)
      {
        var i :| 0 <= i < |r.value| && r.value[i] == x;
        assert x == all[acc[i]] && all[acc[i]] in all;
      }
    }
  }

  /** getApprovals: the approvals array fetched from approvals.url, each entry
      filed under its "id" with that key removed. */
  method GetApprovals(fetch: Fetcher, approvalsUrl: string) returns (r: Result<map<string, Document>>)
    ensures r == ApprovalsFrom(fetch(approvalsUrl))
  {
    var data := DataAsJsonArray(fetch(approvalsUrl));
    if data.Err? {
      return Err(data.error);
    }
    if data.value.NotJsonArray? {
      return Err(JsonException);
    }
    var approvals := data.value.items;
    var approvalsById: map<string, Document> := map[];
    var i := 0;
    while i < |approvals|
      invariant 0 <= i <= |approvals|
      invariant ApprovalsById(approvals[..i]) == Ok(approvalsById)
    {
      assert approvals[..i + 1][..i] == approvals[..i];
      assert approvals[..i + 1][i] == approvals[i];
      var jsonObject := approvals[i];
      if !(jsonObject.Obj? && IdKey in jsonObject.fields && jsonObject.fields[IdKey].Str?) {
        ApprovalsFailExactly(approvals);
        return Err(JsonException);
      }
      var id := jsonObject.fields[IdKey].s;
      approvalsById := approvalsById[id := jsonObject.fields - {IdKey}];
      i := i + 1;
    }
    assert approvals[..i] == approvals;
    return Ok(approvalsById);
  }

  /** merge(List, Map): every record whose id has an approval gets it, in
      place. The first record without an id throws; `ok` is false then. The
      same record may occur twice in the list. */
  method MergeApprovals(infosystems: seq<Infosystem>, approvalsById: map<string, Document>) returns (ok: bool)
    modifies set x | x in infosystems
    ensures ok <==> Enrich(old(Docs(infosystems)), approvalsById).Ok?
    ensures ok ==> Enrich(old(Docs(infosystems)), approvalsById) == Ok(Docs(infosystems))
  {
    var k := 0;
    while k < |infosystems|
      invariant 0 <= k <= |infosystems|
      invariant forall i :: 0 <= i < k ==> IdOf(old(infosystems[i].json)).Some?
      invariant forall i :: 0 <= i < |infosystems| ==>
                  infosystems[i].json ==
                    if infosystems[i] in infosystems[..k] then EnrichDoc(old(infosystems[i].json), approvalsById)
                    else old(infosystems[i].json)
    {
      var infosystem := infosystems[k];
      EnrichDocKeepsId(old(infosystem.json), approvalsById);
      EnrichDocIdempotent(old(infosystem.json), approvalsById);
      assert infosystems[..k + 1] == infosystems[..k] + [infosystem];
      var id := infosystem.Id();
      if id.None? {
        return false;
      }
      if id.value in approvalsById {
        infosystem.SetApproval(approvalsById[id.value]);
      }
      k := k + 1;
    }
    ghost var before := old(Docs(infosystems));
    assert infosystems[..k] == infosystems;
    assert Enrich(before, approvalsById).value == Docs(infosystems);
    return true;
  }

  /** addApprovals: getApprovals, then merge(List, Map) on the list. `ok` is
      false when either throws. */
  method AddApprovals(infosystems: seq<Infosystem>, fetch: Fetcher, approvalsUrl: string) returns (ok: bool)
    modifies set x | x in infosystems
    ensures var approvals := ApprovalsFrom(fetch(approvalsUrl));
            ok <==> approvals.Ok? && Enrich(old(Docs(infosystems)), approvals.value).Ok?
    ensures var approvals := ApprovalsFrom(fetch(approvalsUrl));
            ok ==> Enrich(old(Docs(infosystems)), approvals.value) == Ok(Docs(infosystems))
  {
    var approvals := GetApprovals(fetch, approvalsUrl);
    if approvals.Err? {
      return false;
    }
    ok := MergeApprovals(infosystems, approvals.value);
  }

  /** harvestInfosystems: the merged, enriched list is what storage receives;
      None when the run throws first and storage is not called. */
  method HarvestInfosystems(config: Config, fetch: Fetcher, parse: Parser) returns (saved: Option<seq<Document>>)
    ensures saved == HarvestSpec(config, fetch, parse)
  {
    var infosystems := GetAllInfosystems(config, fetch, parse);
    if infosystems.Err? {
      return None;
    }
    var list := infosystems.value;
    assert forall x :: x in list ==> fresh(x);
    var ok := AddApprovals(list, fetch, config.approvalsUrl);
    if !ok {
      return None;
    }
    saved := Some(Docs(list));
  }

  // ---------------------------------------------------------------------------
  // Properties of the run.

  /** Reading producers one after another: the records of an earlier group of
      producers come before those of a later group, and an exception in either
      is an exception of the whole. */
  lemma {:induction false} ProducerDocsAppend(a: seq<Producer>, b: seq<Producer>, fetch: Fetcher)
    ensures ProducerDocs(a + b, fetch) == Concat(ProducerDocs(a, fetch), ProducerDocs(b, fetch))
    decreases |b|
  {
    if b == [] {
      assert a + b == a;
      if ProducerDocs(a, fetch).Ok? {
        assert ProducerDocs(a, fetch).value + [] == ProducerDocs(a, fetch).value;
      }
    } else {
      var b' := b[..|b| - 1];
      var last := b[|b| - 1];
      assert (a + b)[..|a + b| - 1] == a + b';
      assert (a + b)[|a + b| - 1] == last;
      ProducerDocsAppend(a, b', fetch);
      ConcatAssoc(ProducerDocs(a, fetch), ProducerDocs(b', fetch), ProducerSource(last, fetch));
    }
  }

  /** Every record a producer contributes carries an owner code, and that code
      is one of the producer's comma-separated owners: a record without an
      owner is never taken from a restricted producer. */
  lemma ProducerRecordsOwned(producer: Producer, fetch: Fetcher, d: Document)
    requires ProducerSource(producer, fetch).Ok? && d in ProducerSource(producer, fetch).value
    ensures OwnerOf(d).Some? && OwnerOf(d).value in SplitComma(producer.owners)
  {
    var fetched := fetch(producer.url);
    if DataAsJsonArray(fetched).Ok? && DataAsJsonArray(fetched).value.JsonArrayText? {
      KeptSelectsAllowed(DataAsJsonArray(fetched).value.items, Some(SplitComma(producer.owners)), d);
    }
  }

  /** One more producer appends its records to the candidates. */
  lemma CandidatesStep(config: Config, fetch: Fetcher, k: nat)
    requires k < |config.producers|
    ensures CandidatesUpTo(config, fetch, k + 1) ==
            Concat(CandidatesUpTo(config, fetch, k), ProducerSource(config.producers[k], fetch))
  {
    var ps := config.producers;
    assert ps[..k + 1][..k] == ps[..k];
    assert ProducerDocs(ps[..k + 1], fetch) == Concat(ProducerDocs(ps[..k], fetch), ProducerSource(ps[k], fetch));
    ConcatAssoc(LegacyDocs(config, fetch), ProducerDocs(ps[..k], fetch), ProducerSource(ps[k], fetch));
  }

  /** One more producer's records extend `allInfosystems` at the end. */
  lemma CandidatesGrow(config: Config, fetch: Fetcher, k: nat, before: seq<Document>, added: seq<Document>)
    requires k < |config.producers| && CandidatesUpTo(config, fetch, k) == Ok(before)
    requires ProducerSource(config.producers[k], fetch) == Ok(added)
    ensures CandidatesUpTo(config, fetch, k + 1) == Ok(before + added)
  {
    CandidatesStep(config, fetch, k);
  }

  /** A producer whose records cannot be read ends getInfosystems() with that
      exception. */
  lemma CandidatesStopAt(config: Config, fetch: Fetcher, k: nat)
    requires k < |config.producers| && ProducerSource(config.producers[k], fetch).Err?
    ensures CandidateDocs(config, fetch).Err?
  {
    CandidatesStep(config, fetch, k);
    CandidatesErrSticks(config, fetch, k + 1);
  }

  /** An exception while reading the first `k` producers ends the run. */
  lemma CandidatesErrSticks(config: Config, fetch: Fetcher, k: nat)
    requires k <= |config.producers| && CandidatesUpTo(config, fetch, k).Err?
    ensures CandidateDocs(config, fetch).Err?
  {
    var ps := config.producers;
    assert ps[..k] + ps[k..] == ps;
    ProducerDocsAppend(ps[..k], ps[k..], fetch);
  }

  /** A producer that cannot be reached changes nothing: the run saves what it
      would save without that producer. */
  lemma UnreachableProducerIgnored(config: Config, fetch: Fetcher, parse: Parser, i: nat)
    requires i < |config.producers| && fetch(config.producers[i].url) == Unreachable
    ensures var without := config.(producers := config.producers[..i] + config.producers[i + 1..]);
            CandidateDocs(without, fetch) == CandidateDocs(config, fetch)
            && HarvestSpec(without, fetch, parse) == HarvestSpec(config, fetch, parse)
  {
    var ps := config.producers;
    var p := ps[i];
    assert ps == ps[..i] + [p] + ps[i + 1..];
    ProducerDocsAppend(ps[..i] + [p], ps[i + 1..], fetch);
    ProducerDocsAppend(ps[..i], [p], fetch);
    ProducerDocsAppend(ps[..i], ps[i + 1..], fetch);
    var single: seq<Producer> := [p];
    assert single[..0] == [];
    UnreachableSourceIsEmpty(Some(SplitComma(p.owners)));
    if ProducerDocs(ps[..i], fetch).Ok? {
      assert ProducerDocs(ps[..i], fetch).value + [] == ProducerDocs(ps[..i], fetch).value;
    }
  }

  /** A legacy producer that cannot be reached is the same as no legacy
      producer. */
  lemma UnreachableLegacyIgnored(config: Config, fetch: Fetcher, parse: Parser)
    requires config.legacyProducerUrl.Some? && fetch(config.legacyProducerUrl.value) == Unreachable
    ensures var without := config.(legacyProducerUrl := None);
            CandidateDocs(without, fetch) == CandidateDocs(config, fetch)
            && HarvestSpec(without, fetch, parse) == HarvestSpec(config, fetch, parse)
  {
    UnreachableSourceIsEmpty(None);
  }

  /** A producer whose fetch throws an unchecked exception ends the run:
      the candidates are never collected and storage receives nothing. */
  lemma BrokenProducerSavesNothing(config: Config, fetch: Fetcher, parse: Parser, i: nat)
    requires i < |config.producers| && fetch(config.producers[i].url) == Broken
    ensures CandidateDocs(config, fetch).Err?
    ensures HarvestSpec(config, fetch, parse) == None
  {
    CandidatesStopAt(config, fetch, i);
  }

  /** An approvals fetch that throws an unchecked exception ends the run
      before storage is called. */
  lemma BrokenApprovalsSaveNothing(config: Config, fetch: Fetcher, parse: Parser)
    requires fetch(config.approvalsUrl) == Broken
    ensures HarvestSpec(config, fetch, parse) == None
  {
    BrokenApprovalsThrow();
  }

  /** When the approvals source cannot be reached, the run goes on without
      approvals: it saves the merged records unchanged, provided each has an
      id (merge(List, Map) still calls getId on each). */
  lemma UnreachableApprovalsSaveMerged(config: Config, fetch: Fetcher, parse: Parser)
    requires fetch(config.approvalsUrl) == Unreachable
    requires MergedDocs(config, fetch, parse).Ok?
    ensures var merged := MergedDocs(config, fetch, parse).value;
            HarvestSpec(config, fetch, parse) ==
              if forall i :: 0 <= i < |merged| ==> IdOf(merged[i]).Some? then Some(merged) else None
  {
    var merged := MergedDocs(config, fetch, parse).value;
    UnreachableApprovalsAreEmpty();
    if forall i :: 0 <= i < |merged| ==> IdOf(merged[i]).Some? {
      EnrichWithoutApprovals(merged);
    }
  }

  /** What storage receives: one record per id, and the id of every candidate
      among them. */
  lemma HarvestSavesOnePerId(config: Config, fetch: Fetcher, parse: Parser)
    requires HarvestSpec(config, fetch, parse).Some?
    ensures CandidateDocs(config, fetch).Ok? && MergedDocs(config, fetch, parse).Ok?
    ensures var candidates := CandidateDocs(config, fetch).value;
            var saved := HarvestSpec(config, fetch, parse).value;
            && |saved| == |MergedDocs(config, fetch, parse).value|
            && (forall i :: 0 <= i < |saved| ==> IdOf(saved[i]).Some?)
            && (forall i, j :: 0 <= i < j < |saved| ==> IdOf(saved[i]) != IdOf(saved[j]))
            && (forall k :: 0 <= k < |candidates| ==> exists i :: 0 <= i < |saved| && IdOf(saved[i]) == IdOf(candidates[k]))
  {
    var candidates := CandidateDocs(config, fetch).value;
    var merged := MergedDocs(config, fetch, parse).value;
    var approvals := ApprovalsFrom(fetch(config.approvalsUrl)).value;
    var saved := HarvestSpec(config, fetch, parse).value;
    MergedRecordsOnePerId(candidates, parse);
    assert saved == Enrich(merged, approvals).value;
    EnrichKeepsIds(merged, approvals);
    forall k | 0 <= k < |candidates|
      ensures exists i :: 0 <= i < |saved| && IdOf(saved[i]) == IdOf(candidates[k])
    {
      var i :| 0 <= i < |merged| && IdOf(merged[i]) == IdOf(candidates[k]);
      assert IdOf(saved[i]) == IdOf(candidates[k]);
    }
  }

  /** Every candidate with the id of a saved record is either that record as
      merged (before its approval) or has a readable timestamp no later than
      the saved record's. */
  lemma HarvestSavesNewest(config: Config, fetch: Fetcher, parse: Parser, i: nat, k: nat)
    requires HarvestSpec(config, fetch, parse).Some? && CandidateDocs(config, fetch).Ok?
    requires i < |HarvestSpec(config, fetch, parse).value| && k < |CandidateDocs(config, fetch).value|
    requires IdOf(CandidateDocs(config, fetch).value[k]) == IdOf(HarvestSpec(config, fetch, parse).value[i])
    ensures MergedDocs(config, fetch, parse).Ok? && i < |MergedDocs(config, fetch, parse).value|
    ensures var c := CandidateDocs(config, fetch).value[k];
            var s := HarvestSpec(config, fetch, parse).value[i];
            || c == MergedDocs(config, fetch, parse).value[i]
            || (&& UpdatedOf(c, parse).Ok? && UpdatedOf(s, parse).Ok?
                && UpdatedOf(c, parse).value <= UpdatedOf(s, parse).value)
  {
    var candidates := CandidateDocs(config, fetch).value;
    var acc := Merge(candidates, parse).value;
    var merged := MergedDocs(config, fetch, parse).value;
    var approvals := ApprovalsFrom(fetch(config.approvalsUrl)).value;
    var saved := HarvestSpec(config, fetch, parse).value;
    assert saved == Enrich(merged, approvals).value;
    EnrichKeepsIds(merged, approvals);
    assert saved[i] == EnrichDoc(merged[i], approvals);
    EnrichDocKeepsId(merged[i], approvals);
    if k != acc[i] {
      MergeKeepsNewest(candidates, parse, i, k);
    }
  }
}
