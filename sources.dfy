/** One harvest source: fetching its text, the owner list of a producer, and
    the owner filter of HarvestService.getInfosystems(url, allowedOwners). */
module Sources {
  import opened Outcomes
  import opened Json

  /** The text of a response, modelled by what org.json's JSONArray constructor
      makes of it: the array's elements, or a JSONException. */
  datatype Text = JsonArrayText(items: seq<Value>) | NotJsonArray

  /** The text "[]". */
  const EmptyArrayText: Text := JsonArrayText([])

  /** What one HTTP GET gives: the response body, an IOException
      (`Unreachable`), or an unchecked exception (`Broken`). */
  datatype Fetched = Content(text: Text) | Unreachable | Broken

  /** The HTTP transport, given as a parameter: what a GET of each URL gives. */
  type Fetcher = string -> Fetched

  /** getDataAsJsonArray: the body, or "[]" when the fetch throws an
      IOException. Only IOException is caught, so an unchecked exception
      goes on to end the run. */
  function DataAsJsonArray(fetched: Fetched): (r: Result<Text>)
    ensures r.Err? <==> fetched.Broken?
    ensures r.Err? ==> r.error == FetchRuntimeException
  {
    match fetched
    case Content(text) => Ok(text)
    case Unreachable => Ok(EmptyArrayText)
    case Broken => Err(FetchRuntimeException)
  }

  /** `allInfosystems.addAll(...)` on results that may have thrown: the first
      exception wins, otherwise the lists are concatenated. */
  function Concat(a: Result<seq<Document>>, b: Result<seq<Document>>): (r: Result<seq<Document>>)
    ensures r.Ok? <==> a.Ok? && b.Ok?
    ensures r.Ok? ==> r.value == a.value + b.value
  {
    match a
    case Err(e) => Err(e)
    case Ok(x) =>
      match b
      case Err(e) => Err(e)
      case Ok(y) => Ok(x + y)
  }

  /** Reading sources one after another does not depend on how they are
      grouped. */
  lemma ConcatAssoc(a: Result<seq<Document>>, b: Result<seq<Document>>, c: Result<seq<Document>>)
    ensures Concat(Concat(a, b), c) == Concat(a, Concat(b, c))
  {
    if a.Ok? && b.Ok? && c.Ok? {
      assert a.value + b.value + c.value == a.value + (b.value + c.value);
    }
  }

  /** `allowedOwners == null || allowedOwners.contains(owner)`; None stands for
      the null list of the unrestricted source. A record without an owner
      string is kept only by the unrestricted source. */
  predicate Allowed(d: Document, allowedOwners: Option<seq<string>>)
    ensures allowedOwners.None? ==> Allowed(d, allowedOwners)
    ensures allowedOwners.Some? ==>
              (Allowed(d, allowedOwners) <==>
               OwnerKey in d && d[OwnerKey].Str? && d[OwnerKey].s in allowedOwners.value)
  {
    allowedOwners.None? || (OwnerOf(d).Some? && OwnerOf(d).value in allowedOwners.value)
  }

  /** The loop of getInfosystems(url, allowedOwners) over the array's elements:
      each must be an object (getJSONObject), and the allowed ones are kept in
      array order. */
  function Kept(items: seq<Value>, allowedOwners: Option<seq<string>>): Result<seq<Document>>
    decreases |items|
  {
    if items == [] then Ok([])
    else
      var last := items[|items| - 1];
      match Kept(items[..|items| - 1], allowedOwners)
      case Err(e) => Err(e)
      case Ok(kept) =>
        if !last.Obj? then Err(JsonException)
        else if Allowed(last.fields, allowedOwners) then Ok(kept + [last.fields])
        else Ok(kept)
  }

  /** getInfosystems(url, allowedOwners), on what the fetch gave. */
  function SourceDocs(fetched: Fetched, allowedOwners: Option<seq<string>>): Result<seq<Document>> {
    match DataAsJsonArray(fetched)
    case Err(e) => Err(e)
    case Ok(NotJsonArray) => Err(JsonException)
    case Ok(JsonArrayText(items)) => Kept(items, allowedOwners)
  }

  /** The documents of a list of JSON objects. */
  function Fields(items: seq<Value>): (r: seq<Document>)
    requires forall i :: 0 <= i < |items| ==> items[i].Obj?
    ensures |r| == |items| && forall i :: 0 <= i < |items| ==> r[i] == items[i].fields
  {
    seq(|items|, i requires 0 <= i < |items| && items[i].Obj? => items[i].fields)
  }

  /** The filter distributes over concatenation of arrays: the records of an
      earlier part come before those of a later part, and an exception in
      either part is an exception of the whole. With KeptOne this determines
      the filter completely. */
  lemma {:induction false} KeptAppend(a: seq<Value>, b: seq<Value>, allowedOwners: Option<seq<string>>)
    ensures Kept(a + b, allowedOwners) == Concat(Kept(a, allowedOwners), Kept(b, allowedOwners))
    decreases |b|
  {
    if b == [] {
      assert a + b == a;
      assert Kept(b, allowedOwners) == Ok([]);
      if Kept(a, allowedOwners).Ok? {
        assert Kept(a, allowedOwners).value + [] == Kept(a, allowedOwners).value;
      }
    } else {
      var b' := b[..|b| - 1];
      assert (a + b)[..|a + b| - 1] == a + b';
      assert (a + b)[|a + b| - 1] == b[|b| - 1];
      KeptAppend(a, b', allowedOwners);
      assert b[..|b| - 1] == b';
      assert [b[|b| - 1]][..0] == [];
      match Kept(a, allowedOwners)
      case Err(_) =>
      case Ok(x) =>
        match Kept(b', allowedOwners)
        case Err(_) =>
        case Ok(y) =>
          if b[|b| - 1].Obj? {
            assert x + y + [b[|b| - 1].fields] == x + (y + [b[|b| - 1].fields]);
          }
    }
  }

  /** The filter over one more element, after the earlier ones passed. */
  lemma KeptStep(items: seq<Value>, i: nat, allowedOwners: Option<seq<string>>)
    requires i < |items| && Kept(items[..i], allowedOwners).Ok?
    ensures Kept(items[..i + 1], allowedOwners) ==
      if !items[i].Obj? then Err(JsonException)
      else if Allowed(items[i].fields, allowedOwners) then Ok(Kept(items[..i], allowedOwners).value + [items[i].fields])
      else Kept(items[..i], allowedOwners)
  {
    assert items[..i + 1][..i] == items[..i];
  }

  /** One element: an object is kept exactly when its owner is allowed, and any
      other value throws. */
  lemma KeptOne(v: Value, allowedOwners: Option<seq<string>>)
    ensures Kept([v], allowedOwners) ==
      if !v.Obj? then Err(JsonException)
      else if Allowed(v.fields, allowedOwners) then Ok([v.fields])
      else Ok([])
  {
    assert [v][..0] == [];
    assert Kept([v][..0], allowedOwners) == Ok([]);
    if v.Obj? {
      assert [] + [v.fields] == [v.fields];
    }
  }

  /** The filter throws exactly when some element is not an object. */
  lemma {:induction false} KeptFailsExactly(items: seq<Value>, allowedOwners: Option<seq<string>>)
    ensures Kept(items, allowedOwners).Ok? <==> forall i :: 0 <= i < |items| ==> items[i].Obj?
    decreases |items|
  {
    if items != [] {
      var init := items[..|items| - 1];
      KeptFailsExactly(init, allowedOwners);
      assert forall i :: 0 <= i < |init| ==> init[i] == items[i];
    }
  }

  /** A kept document is one of the array's objects whose owner is allowed, and
      every such object is kept. */
  lemma {:induction false} KeptSelectsAllowed(items: seq<Value>, allowedOwners: Option<seq<string>>, d: Document)
    requires Kept(items, allowedOwners).Ok?
    ensures d in Kept(items, allowedOwners).value <==>
            exists i :: 0 <= i < |items| && items[i] == Obj(d) && Allowed(d, allowedOwners)
    decreases |items|
  {
    if items != [] {
      var init := items[..|items| - 1];
      KeptSelectsAllowed(init, allowedOwners, d);
      assert forall i :: 0 <= i < |init| ==> init[i] == items[i];
      if d in Kept(items, allowedOwners).value && d !in Kept(init, allowedOwners).value {
        assert items[|items| - 1] == Obj(d);
      }
    }
  }

  /** The unrestricted source keeps every record, in array order. */
  lemma {:induction false} KeptUnrestricted(items: seq<Value>)
    requires forall i :: 0 <= i < |items| ==> items[i].Obj?
    ensures Kept(items, None) == Ok(Fields(items))
    decreases |items|
  {
    if items != [] {
      var init := items[..|items| - 1];
      KeptUnrestricted(init);
      assert Fields(init) + [items[|items| - 1].fields] == Fields(items);
    }
  }

  /** A source that cannot be reached contributes no record and no exception. */
  lemma UnreachableSourceIsEmpty(allowedOwners: Option<seq<string>>)
    ensures SourceDocs(Unreachable, allowedOwners) == Ok([])
  {
  }

  /** A fetch that throws an unchecked exception is not caught: reading that
      source throws it, with or without an owner list. */
  lemma BrokenSourceThrows(allowedOwners: Option<seq<string>>)
    ensures SourceDocs(Broken, allowedOwners) == Err(FetchRuntimeException)
  {
  }

  // ---------------------------------------------------------------------------
  // The owner list of a producer: `producers.getProperty(url).split(",")`.

  /** The text between commas, empty pieces included: one more piece than
      there are commas. */
  function SplitAll(s: string): (r: seq<string>)
    ensures |r| >= 1
    decreases |s|
  {
    if s == [] then [""]
    else if s[0] == ',' then [""] + SplitAll(s[1..])
    else
      var rest := SplitAll(s[1..]);
      [[s[0]] + rest[0]] + rest[1..]
  }

  /** The pieces joined again with commas. */
  function JoinComma(parts: seq<string>): string
    requires |parts| >= 1
    decreases |parts|
  {
    if |parts| == 1 then parts[0] else parts[0] + "," + JoinComma(parts[1..])
  }

  /** Splitting loses nothing: no piece holds a comma, and joining the pieces
      with commas gives the text back. */
  lemma {:induction false} SplitAllJoins(s: string)
    ensures JoinComma(SplitAll(s)) == s
    ensures forall i :: 0 <= i < |SplitAll(s)| ==> ',' !in SplitAll(s)[i]
    decreases |s|
  {
    if s != [] {
      SplitAllJoins(s[1..]);
      var rest := SplitAll(s[1..]);
      if s[0] == ',' {
        assert SplitAll(s) == [""] + rest;
        assert JoinComma(SplitAll(s)) == "" + "," + JoinComma(rest);
        assert s == [','] + s[1..];
      } else {
        var parts := SplitAll(s);
        assert parts == [[s[0]] + rest[0]] + rest[1..];
        if |rest| == 1 {
          assert JoinComma(parts) == [s[0]] + rest[0];
        } else {
          assert parts[1..] == rest[1..];
          assert JoinComma(rest) == rest[0] + "," + JoinComma(rest[1..]);
          assert JoinComma(parts) == ([s[0]] + rest[0]) + "," + JoinComma(rest[1..]);
        }
        assert s == [s[0]] + s[1..];
        forall i | 0 <= i < |parts|
          ensures ',' !in parts[i]
        {
          if i == 0 {
            assert ',' !in rest[0];
          } else {
            assert parts[i] == rest[i];
          }
        }
      }
    }
  }

  /** Text without a comma is a single piece. */
  lemma {:induction false} SplitAllNoComma(s: string)
    requires ',' !in s
    ensures SplitAll(s) == [s]
    decreases |s|
  {
    if s != [] {
      SplitAllNoComma(s[1..]);
      assert s == [s[0]] + s[1..];
    }
  }

  /** Java's String.split drops trailing empty pieces. */
  function DropTrailingEmpty(parts: seq<string>): (r: seq<string>)
    decreases |parts|
  {
    if |parts| > 0 && parts[|parts| - 1] == "" then DropTrailingEmpty(parts[..|parts| - 1])
    else parts
  }

  /** `s.split(",")`: without a comma the whole text (even the empty text) is
      the one piece; otherwise the pieces between commas without the trailing
      empty ones. No piece is trimmed. */
  function SplitComma(s: string): seq<string> {
    if ',' !in s then [s] else DropTrailingEmpty(SplitAll(s))
  }

  /** Dropping trailing empty pieces keeps every non-empty piece. */
  lemma {:induction false} DropTrailingEmptyKeeps(parts: seq<string>, o: string)
    requires o != ""
    ensures o in DropTrailingEmpty(parts) <==> o in parts
    decreases |parts|
  {
    if |parts| > 0 && parts[|parts| - 1] == "" {
      var init := parts[..|parts| - 1];
      DropTrailingEmptyKeeps(init, o);
      assert parts == init + [""];
    }
  }

  /** A non-empty owner code is in a producer's owner list exactly when it is
      one of the comma-separated pieces of the property value. */
  lemma OwnerListMembership(s: string, o: string)
    requires o != ""
    ensures o in SplitComma(s) <==> o in SplitAll(s)
  {
    if ',' !in s {
      SplitAllNoComma(s);
    } else {
      DropTrailingEmptyKeeps(SplitAll(s), o);
    }
  }

  // ---------------------------------------------------------------------------
  // The legacy producer's URL: StringUtils.isNotBlank.

  /** java.lang.Character.isWhitespace as in Java 8 (Unicode 6.2): the Unicode
      space, line and paragraph separators other than the no-break spaces,
      and the ASCII controls U+0009 to U+000D and U+001C to U+001F. U+180E
      is a space separator in Unicode 6.2. */
  predicate IsWhitespace(c: char) {
    var n := c as int;
    n == 0x20 || (0x09 <= n <= 0x0D) || (0x1C <= n <= 0x1F) || n == 0x1680
    || n == 0x180E || (0x2000 <= n <= 0x2006) || (0x2008 <= n <= 0x200A)
    || n == 0x2028 || n == 0x2029 || n == 0x205F || n == 0x3000
  }

  /** isNotBlank: not null, and some character is not whitespace. */
  predicate IsNotBlank(s: Option<string>) {
    s.Some? && exists i :: 0 <= i < |s.value| && !IsWhitespace(s.value[i])
  }
}
