/** The JSON documents the harvester passes around, and the few fields it reads
    from them. A record's document is opaque to the harvester except for three
    string paths: meta.URI (the id), owner, and status.timestamp. */
module Json {
  import opened Outcomes

  /** A JSON value. Numbers, booleans and null are kept by their literal text:
      the harvester never looks inside them. */
  datatype Value =
    | Str(s: string)
    | Obj(fields: map<string, Value>)
    | Arr(items: seq<Value>)
    | Atom(literal: string)

  /** A JSON object: what org.json's JSONObject holds. */
  type Document = map<string, Value>

  /** A naive local date-time, kept abstract: only its total order matters, and
      `a < b` stands for `a.isBefore(b)`. */
  type Timestamp = int

  /** java.time's ISO_LOCAL_DATE_TIME parser, given as a parameter: Some(t)
      when the text parses, None when LocalDateTime.parse would throw. */
  type Parser = string -> Option<Timestamp>

  const MetaKey: string := "meta"
  const UriKey: string := "URI"
  const StatusKey: string := "status"
  const TimestampKey: string := "timestamp"
  const OwnerKey: string := "owner"
  const ApprovalKey: string := "approval"
  const IdKey: string := "id"

  /** getString(key): the string filed under `key`; None where org.json
      throws a JSONException (the key is missing or not a string). */
  function StringField(d: Document, key: string): Option<string> {
    if key in d && d[key].Str? then Some(d[key].s) else None
  }

  /** getJSONObject(key): the object filed under `key`; None where org.json
      throws a JSONException (the key is missing or not an object). */
  function ObjectField(d: Document, key: string): Option<Document> {
    if key in d && d[key].Obj? then Some(d[key].fields) else None
  }

  /** Infosystem.getId: `getJSONObject("meta").getString("URI")`. */
  function IdOf(d: Document): Option<string> {
    match ObjectField(d, MetaKey)
    case None => None
    case Some(meta) => StringField(meta, UriKey)
  }

  /** The record's owner code: the top-level "owner" string. A document
      without one has no owner. */
  function OwnerOf(d: Document): (r: Option<string>)
    ensures r.Some? <==> OwnerKey in d && d[OwnerKey].Str?
    ensures r.Some? ==> d[OwnerKey] == Str(r.value)
  {
    StringField(d, OwnerKey)
  }

  /** The text at status.timestamp. */
  function TimestampText(d: Document): Option<string> {
    match ObjectField(d, StatusKey)
    case None => None
    case Some(status) => StringField(status, TimestampKey)
  }

  /** Infosystem.getUpdated: status.timestamp parsed as a local date-time. A
      missing or non-string field is a JSONException, text that does not parse
      a DateTimeParseException. */
  function UpdatedOf(d: Document, parse: Parser): Result<Timestamp> {
    match TimestampText(d)
    case None => Err(JsonException)
    case Some(text) =>
      match parse(text)
      case None => Err(DateTimeParseException)
      case Some(t) => Ok(t)
  }

  /** Infosystem.setApproval: `json.put("approval", approval)`. */
  function WithApproval(d: Document, approval: Document): (r: Document)
    ensures ApprovalKey in r && r[ApprovalKey] == Obj(approval)
    ensures forall k :: k != ApprovalKey ==> (k in r <==> k in d)
    ensures forall k :: k in d && k != ApprovalKey ==> r[k] == d[k]
  {
    d[ApprovalKey := Obj(approval)]
  }

  /** Writing meta.URI and reading the id back gives the written string. */
  lemma IdOfWrittenUri(d: Document, meta: Document, uri: string)
    ensures IdOf(d[MetaKey := Obj(meta[UriKey := Str(uri)])]) == Some(uri)
  {
  }

  /** getId fails when `meta` is absent or is not an object, or when its `URI`
      is absent or is not a string. */
  lemma IdOfFailsWithoutMetaUri(d: Document)
    requires MetaKey !in d || !d[MetaKey].Obj? || UriKey !in d[MetaKey].fields
             || !d[MetaKey].fields[UriKey].Str?
    ensures IdOf(d) == None
  {
  }

  /** getUpdated returns what the parser makes of the text at
      status.timestamp. */
  lemma UpdatedOfWrittenTimestamp(d: Document, status: Document, text: string, parse: Parser)
    ensures UpdatedOf(d[StatusKey := Obj(status[TimestampKey := Str(text)])], parse)
            == (match parse(text) case Some(t) => Ok(t) case None => Err(DateTimeParseException))
  {
  }

  /** getUpdated fails when `status` or its `timestamp` is missing (a record
      without `status`, as several harvested records are). */
  lemma UpdatedOfFailsWithoutStatus(d: Document, parse: Parser)
    requires StatusKey !in d || !d[StatusKey].Obj? || TimestampKey !in d[StatusKey].fields
    ensures UpdatedOf(d, parse) == Err(JsonException)
  {
  }

  /** setApproval does not change what getId, getUpdated and the owner read,
      because `approval` is none of `meta`, `status` and `owner`. */
  lemma ApprovalKeepsReadFields(d: Document, approval: Document, parse: Parser)
    ensures IdOf(WithApproval(d, approval)) == IdOf(d)
    ensures OwnerOf(WithApproval(d, approval)) == OwnerOf(d)
    ensures UpdatedOf(WithApproval(d, approval), parse) == UpdatedOf(d, parse)
  {
  }

  /** A second setApproval replaces the first: only the last approval stays. */
  lemma ApprovalOverwrites(d: Document, first: Document, second: Document)
    ensures WithApproval(WithApproval(d, first), second) == WithApproval(d, second)
  {
  }
}
