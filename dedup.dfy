/** The deduplicating merge of HarvestService.merge(List), stated on values.

    The merge is a left fold over the candidate documents. Its state is the list
    of surviving candidates, kept here as their positions in the input, so that
    which candidate survives (not only an equal document) is exact. The fold
    throws exactly where the Java code would: getId on a record without meta.URI
    once the result list is non-empty, and getUpdated on either record of a
    duplicate pair. */
module Dedup {
  import opened Outcomes
  import opened Json

  /** Every position in `acc` is below `n`. */
  predicate InRange(acc: seq<nat>, n: nat) {
    forall i :: 0 <= i < |acc| ==> acc[i] < n
  }

  /** Positions in strictly increasing order, i.e. input order. */
  predicate Increasing(acc: seq<nat>) {
    forall i, j :: 0 <= i < j < |acc| ==> acc[i] < acc[j]
  }

  /** The ids of the documents at the given positions. */
  function Ids(docs: seq<Document>, acc: seq<nat>): (r: seq<Option<string>>)
    requires InRange(acc, |docs|)
    ensures |r| == |acc| && forall i :: 0 <= i < |acc| ==> r[i] == IdOf(docs[acc[i]])
  {
    seq(|acc|, i requires 0 <= i < |acc| => IdOf(docs[acc[i]]))
  }

  /** `result.stream().filter(i -> i.getId().equals(candidate.getId())).findAny()`,
      scanning from position `j`: the first position whose record has the
      candidate's id. The existing record's getId is called before the
      candidate's, and the first absent id throws. */
  function FindFrom(docs: seq<Document>, acc: seq<nat>, k: nat, j: nat): (r: Result<Option<nat>>)
    requires InRange(acc, |docs|) && k < |docs| && j <= |acc|
    ensures r.Ok? && r.value.Some? ==>
              j <= r.value.value < |acc| && IdOf(docs[acc[r.value.value]]) == IdOf(docs[k])
              && forall i :: j <= i < r.value.value ==> IdOf(docs[acc[i]]) != IdOf(docs[k])
    ensures r == Ok(None) ==> forall i :: j <= i < |acc| ==> IdOf(docs[acc[i]]) != IdOf(docs[k])
    ensures (forall i :: j <= i < |acc| ==> IdOf(docs[acc[i]]).Some?) && IdOf(docs[k]).Some? ==> r.Ok?
    ensures j < |acc| && IdOf(docs[k]).None? ==> r.Err?
    decreases |acc| - j
  {
    if j == |acc| then Ok(None)
    else
      match IdOf(docs[acc[j]])
      case None => Err(JsonException)
      case Some(existing) =>
        match IdOf(docs[k])
        case None => Err(JsonException)
        case Some(candidate) =>
          if existing == candidate then Ok(Some(j)) else FindFrom(docs, acc, k, j + 1)
  }

  /** One turn of the loop in merge(List) for the candidate at position `k`:
      append a new id; on a strictly newer timestamp remove the existing record
      and append the candidate; otherwise keep the list as it is. The candidate's
      getUpdated is evaluated before the existing record's. */
  function Step(docs: seq<Document>, parse: Parser, acc: seq<nat>, k: nat): (r: Result<seq<nat>>)
    requires InRange(acc, k) && k < |docs|
    ensures r.Ok? ==> InRange(r.value, k + 1)
  {
    match FindFrom(docs, acc, k, 0)
    case Err(e) => Err(e)
    case Ok(None) => Ok(acc + [k])
    case Ok(Some(j)) =>
      match UpdatedOf(docs[k], parse)
      case Err(e) => Err(e)
      case Ok(t) =>
        match UpdatedOf(docs[acc[j]], parse)
        case Err(e) => Err(e)
        case Ok(existing) =>
          if t > existing then Ok(RemoveAt(acc, j) + [k]) else Ok(acc)
  }

  /** `result.remove(existing)`: the list without its entry at `p`. */
  function RemoveAt<T>(s: seq<T>, p: nat): (r: seq<T>)
    requires p < |s|
    ensures |r| == |s| - 1
    ensures forall i :: 0 <= i < |r| ==> r[i] == if i < p then s[i] else s[i + 1]
  {
    s[..p] + s[p + 1..]
  }

  /** The fold over the first `n` candidates. */
  function MergePrefix(docs: seq<Document>, parse: Parser, n: nat): (r: Result<seq<nat>>)
    requires n <= |docs|
    ensures r.Ok? ==> InRange(r.value, n)
  {
    if n == 0 then Ok([])
    else
      match MergePrefix(docs, parse, n - 1)
      case Err(e) => Err(e)
      case Ok(acc) => Step(docs, parse, acc, n - 1)
  }

  /** merge(List) over the whole candidate list. */
  function Merge(docs: seq<Document>, parse: Parser): Result<seq<nat>> {
    MergePrefix(docs, parse, |docs|)
  }

  /** The records at the given positions, in that order. */
  function Pick<T>(s: seq<T>, acc: seq<nat>): (r: seq<T>)
    requires InRange(acc, |s|)
    ensures |r| == |acc| && forall i :: 0 <= i < |acc| ==> r[i] == s[acc[i]]
  {
    seq(|acc|, i requires 0 <= i < |acc| => s[acc[i]])
  }

  /** Appending a position appends its record. */
  lemma PickAppend<T>(s: seq<T>, acc: seq<nat>, k: nat)
    requires InRange(acc, |s|) && k < |s|
    ensures InRange(acc + [k], |s|) && Pick(s, acc + [k]) == Pick(s, acc) + [s[k]]
  {
    assert Pick(s, acc + [k]) == Pick(s, acc) + [s[k]];
  }

  /** Removing a position and appending another does the same to the
      records. */
  lemma PickReplace<T>(s: seq<T>, acc: seq<nat>, p: nat, k: nat)
    requires InRange(acc, |s|) && p < |acc| && k < |s|
    ensures InRange(RemoveAt(acc, p) + [k], |s|)
    ensures Pick(s, RemoveAt(acc, p) + [k]) == RemoveAt(Pick(s, acc), p) + [s[k]]
  {
    assert Pick(s, RemoveAt(acc, p) + [k]) == RemoveAt(Pick(s, acc), p) + [s[k]];
  }

  // ---------------------------------------------------------------------------
  // The reference definition: who wins among the candidates sharing an id.

  /** Candidate `k` beats candidate `other`: both timestamps are readable and
      `k`'s is later, or they are equal and `k` came first. */
  predicate Beats(docs: seq<Document>, parse: Parser, k: nat, other: nat)
    requires k < |docs| && other < |docs|
  {
    var a := UpdatedOf(docs[k], parse);
    var b := UpdatedOf(docs[other], parse);
    a.Ok? && b.Ok? && (b.value < a.value || (b.value == a.value && k < other))
  }

  /** Among the first `n` candidates, `k` beats every other candidate with its
      id: it is the first one with the latest timestamp. */
  predicate IsWinner(docs: seq<Document>, parse: Parser, n: nat, k: nat)
    requires k < n <= |docs|
  {
    forall other :: 0 <= other < n && other != k && IdOf(docs[other]) == IdOf(docs[k]) ==>
      Beats(docs, parse, k, other)
  }

  /** The first `n` candidates can be merged without an exception: with two or
      more of them every id is present, and every candidate that shares its id
      with another has a readable timestamp. */
  predicate Mergeable(docs: seq<Document>, parse: Parser, n: nat)
    requires n <= |docs|
  {
    n <= 1 ||
    ((forall k :: 0 <= k < n ==> IdOf(docs[k]).Some?) &&
     (forall k, other :: 0 <= k < n && 0 <= other < n && k != other && IdOf(docs[k]) == IdOf(docs[other]) ==>
        UpdatedOf(docs[k], parse).Ok?))
  }

  /** `acc` lists exactly the winners among the first `n` candidates, in input
      order, and holds a record for every id met so far. */
  predicate WinnersInOrder(docs: seq<Document>, parse: Parser, n: nat, acc: seq<nat>)
    requires n <= |docs|
  {
    && InRange(acc, n)
    && Increasing(acc)
    && (forall i :: 0 <= i < |acc| ==> IsWinner(docs, parse, n, acc[i]))
    && (forall k :: 0 <= k < n && IsWinner(docs, parse, n, k) ==> k in acc)
    && (forall k :: 0 <= k < n ==> IdOf(docs[k]) in Ids(docs, acc))
  }

  // ---------------------------------------------------------------------------
  // Lemmas.

  /** Two winners with the same id are the same candidate. */
  lemma WinnerUnique(docs: seq<Document>, parse: Parser, n: nat, k: nat, other: nat)
    requires k < n <= |docs| && other < n
    requires IsWinner(docs, parse, n, k) && IsWinner(docs, parse, n, other)
    requires IdOf(docs[k]) == IdOf(docs[other])
    ensures k == other
  {
  }

  /** Winning against more candidates implies winning against fewer. */
  lemma WinnerOfPrefix(docs: seq<Document>, parse: Parser, n: nat, k: nat)
    requires k < n < |docs| && IsWinner(docs, parse, n + 1, k)
    ensures IsWinner(docs, parse, n, k)
  {
  }

  /** A candidate whose id differs from the new one's wins among `n + 1`
      exactly when it wins among `n`. */
  lemma WinnerOtherId(docs: seq<Document>, parse: Parser, n: nat, k: nat)
    requires k < n < |docs| && IdOf(docs[k]) != IdOf(docs[n])
    ensures IsWinner(docs, parse, n + 1, k) == IsWinner(docs, parse, n, k)
  {
  }

  /** A list whose prefix is not mergeable is not mergeable either. */
  lemma UnmergeableExtends(docs: seq<Document>, parse: Parser, n: nat)
    requires n < |docs| && !Mergeable(docs, parse, n)
    ensures !Mergeable(docs, parse, n + 1)
  {
  }

  /** Once the fold has thrown, it stays thrown. */
  lemma {:induction false} MergeErrSticks(docs: seq<Document>, parse: Parser, k: nat, n: nat)
    requires k <= n <= |docs| && MergePrefix(docs, parse, k).Err?
    ensures MergePrefix(docs, parse, n) == MergePrefix(docs, parse, k)
    decreases n
  {
    if k < n {
      MergeErrSticks(docs, parse, k, n - 1);
    }
  }

  /** Once the fold has thrown at candidate `k`, merge(List) throws. */
  lemma MergeStopsAt(docs: seq<Document>, parse: Parser, k: nat)
    requires k < |docs| && MergePrefix(docs, parse, k + 1).Err?
    ensures Merge(docs, parse).Err?
  {
    MergeErrSticks(docs, parse, k + 1, |docs|);
  }

  /** The first candidate of every list is kept without any getId call. */
  lemma MergeFirst(docs: seq<Document>, parse: Parser)
    requires 1 <= |docs|
    ensures MergePrefix(docs, parse, 1) == Ok([0])
    ensures Mergeable(docs, parse, 1) && WinnersInOrder(docs, parse, 1, [0])
  {
    assert MergePrefix(docs, parse, 0) == Ok([]);
    assert FindFrom(docs, [], 0, 0) == Ok(None);
    assert Step(docs, parse, [], 0) == Ok([] + [0]);
    assert [] + [0] == [0];
    FirstIsWinner(docs, parse);
  }

  /** The first candidate is the only winner among the first one. */
  lemma FirstIsWinner(docs: seq<Document>, parse: Parser)
    requires 1 <= |docs|
    ensures WinnersInOrder(docs, parse, 1, [0])
  {
    var ids := Ids(docs, [0]);
    assert ids[0] == IdOf(docs[0]);
    assert IsWinner(docs, parse, 1, 0);
  }

  /** With the fold state characterised after `n` candidates, one more Step
      throws exactly when the `n + 1` candidates are not mergeable, and
      otherwise leaves the winners among `n + 1` in input order. */
  lemma StepKeepsWinners(docs: seq<Document>, parse: Parser, n: nat, acc: seq<nat>)
    requires 1 <= n < |docs|
    requires Mergeable(docs, parse, n) && WinnersInOrder(docs, parse, n, acc)
    ensures Step(docs, parse, acc, n).Ok? <==> Mergeable(docs, parse, n + 1)
    ensures Step(docs, parse, acc, n).Ok? ==> WinnersInOrder(docs, parse, n + 1, Step(docs, parse, acc, n).value)
  {
    assert IdOf(docs[0]) in Ids(docs, acc);
    assert |acc| > 0;
    if exists k :: 0 <= k <= n && IdOf(docs[k]).None? {
      var k :| 0 <= k <= n && IdOf(docs[k]).None?;
      assert !Mergeable(docs, parse, n + 1);
      if IdOf(docs[n]).None? {
        assert FindFrom(docs, acc, n, 0).Err?;
      } else {
        assert n == 1 && k == 0;
        assert acc[0] == 0;
      }
    } else {
      StepAllIds(docs, parse, n, acc);
    }
  }

  /** StepKeepsWinners when every id among the first `n + 1` is present. */
  lemma StepAllIds(docs: seq<Document>, parse: Parser, n: nat, acc: seq<nat>)
    requires 1 <= n < |docs|
    requires Mergeable(docs, parse, n) && WinnersInOrder(docs, parse, n, acc)
    requires forall k :: 0 <= k <= n ==> IdOf(docs[k]).Some?
    ensures Step(docs, parse, acc, n).Ok? <==> Mergeable(docs, parse, n + 1)
    ensures Step(docs, parse, acc, n).Ok? ==> WinnersInOrder(docs, parse, n + 1, Step(docs, parse, acc, n).value)
  {
    var u := IdOf(docs[n]);
    var found := FindFrom(docs, acc, n, 0);
    assert found.Ok?;
    match found.value
    case None =>
      assert u !in Ids(docs, acc);
      StepNewId(docs, parse, n, acc);
    case Some(p) =>
      StepKnownId(docs, parse, n, acc, p);
  }

  /** A candidate with an id not met before is appended. */
  lemma StepNewId(docs: seq<Document>, parse: Parser, n: nat, acc: seq<nat>)
    requires 1 <= n < |docs|
    requires Mergeable(docs, parse, n) && WinnersInOrder(docs, parse, n, acc)
    requires forall k :: 0 <= k <= n ==> IdOf(docs[k]).Some?
    requires FindFrom(docs, acc, n, 0) == Ok(None)
    ensures Step(docs, parse, acc, n) == Ok(acc + [n])
    ensures Mergeable(docs, parse, n + 1) && WinnersInOrder(docs, parse, n + 1, acc + [n])
  {
    var u := IdOf(docs[n]);
    assert u !in Ids(docs, acc);
    forall k | 0 <= k < n
      ensures IdOf(docs[k]) != u
    {
      assert IdOf(docs[k]) in Ids(docs, acc);
    }
    AppendKeepsWinners(docs, parse, n, acc);
    assert Ids(docs, acc + [n]) == Ids(docs, acc) + [u];
  }

  /** Appending a candidate whose id no earlier candidate has: the old winners
      stay winners and the candidate is one. */
  lemma AppendKeepsWinners(docs: seq<Document>, parse: Parser, n: nat, acc: seq<nat>)
    requires n < |docs| && InRange(acc, n)
    requires forall i :: 0 <= i < |acc| ==> IsWinner(docs, parse, n, acc[i])
    requires forall k :: 0 <= k < n && IsWinner(docs, parse, n, k) ==> k in acc
    requires forall k :: 0 <= k < n ==> IdOf(docs[k]) != IdOf(docs[n])
    ensures forall i :: 0 <= i < |acc| + 1 ==> IsWinner(docs, parse, n + 1, (acc + [n])[i])
    ensures forall k :: 0 <= k < n + 1 && IsWinner(docs, parse, n + 1, k) ==> k in acc + [n]
  {
    var acc' := acc + [n];
    forall i | 0 <= i < |acc'|
      ensures IsWinner(docs, parse, n + 1, acc'[i])
    {
      if i < |acc| {
        WinnerOtherId(docs, parse, n, acc[i]);
      }
    }
    forall k | 0 <= k < n + 1 && IsWinner(docs, parse, n + 1, k)
      ensures k in acc'
    {
      if k < n {
        WinnerOtherId(docs, parse, n, k);
      }
    }
  }

  /** A candidate whose id is already held at position `p` either replaces the
      holder (moving to the end) or is dropped. */
  lemma StepKnownId(docs: seq<Document>, parse: Parser, n: nat, acc: seq<nat>, p: nat)
    requires 1 <= n < |docs|
    requires Mergeable(docs, parse, n) && WinnersInOrder(docs, parse, n, acc)
    requires forall k :: 0 <= k <= n ==> IdOf(docs[k]).Some?
    requires FindFrom(docs, acc, n, 0) == Ok(Some(p))
    ensures Step(docs, parse, acc, n).Ok? <==> Mergeable(docs, parse, n + 1)
    ensures Step(docs, parse, acc, n).Ok? ==> WinnersInOrder(docs, parse, n + 1, Step(docs, parse, acc, n).value)
  {
    var u := IdOf(docs[n]);
    var h := acc[p];
    assert IdOf(docs[h]) == u && h < n;
    // Mergeable(n + 1) holds exactly when both timestamps read.
    if UpdatedOf(docs[n], parse).Ok? && UpdatedOf(docs[h], parse).Ok? {
      forall k, other | 0 <= k < n + 1 && 0 <= other < n + 1 && k != other && IdOf(docs[k]) == IdOf(docs[other])
        ensures UpdatedOf(docs[k], parse).Ok?
      {
        if k != n && k != h {
          if other == n {
            assert IdOf(docs[k]) == IdOf(docs[h]);
          }
        }
      }
      assert Mergeable(docs, parse, n + 1);
      var t := UpdatedOf(docs[n], parse).value;
      var te := UpdatedOf(docs[h], parse).value;
      assert IsWinner(docs, parse, n, h);
      if t > te {
        StepReplaces(docs, parse, n, acc, p);
      } else {
        StepDiscards(docs, parse, n, acc, p);
      }
    } else {
      assert !Mergeable(docs, parse, n + 1) by {
        assert h != n && IdOf(docs[h]) == IdOf(docs[n]);
      }
    }
  }

  /** A strictly newer candidate replaces the holder and goes to the end. */
  lemma StepReplaces(docs: seq<Document>, parse: Parser, n: nat, acc: seq<nat>, p: nat)
    requires 1 <= n < |docs|
    requires Mergeable(docs, parse, n) && WinnersInOrder(docs, parse, n, acc)
    requires forall k :: 0 <= k <= n ==> IdOf(docs[k]).Some?
    requires FindFrom(docs, acc, n, 0) == Ok(Some(p))
    requires UpdatedOf(docs[n], parse).Ok? && UpdatedOf(docs[acc[p]], parse).Ok?
    requires UpdatedOf(docs[n], parse).value > UpdatedOf(docs[acc[p]], parse).value
    ensures Step(docs, parse, acc, n) == Ok(RemoveAt(acc, p) + [n])
    ensures WinnersInOrder(docs, parse, n + 1, RemoveAt(acc, p) + [n])
  {
    StepReplacesValue(docs, parse, n, acc, p);
    OthersHoldOtherIds(docs, parse, n, acc, p);
    NewerWins(docs, parse, n, acc[p]);
    ReplaceWinnersInOrder(docs, parse, n, acc, p);
  }

  /** The value of the step that replaces the holder at `p`. */
  lemma StepReplacesValue(docs: seq<Document>, parse: Parser, n: nat, acc: seq<nat>, p: nat)
    requires n < |docs| && InRange(acc, n)
    requires FindFrom(docs, acc, n, 0) == Ok(Some(p))
    requires UpdatedOf(docs[n], parse).Ok? && UpdatedOf(docs[acc[p]], parse).Ok?
    requires UpdatedOf(docs[n], parse).value > UpdatedOf(docs[acc[p]], parse).value
    ensures Step(docs, parse, acc, n) == Ok(RemoveAt(acc, p) + [n])
  {
  }

  /** The holder's id is held by no other record of the list. */
  lemma OthersHoldOtherIds(docs: seq<Document>, parse: Parser, n: nat, acc: seq<nat>, p: nat)
    requires n < |docs| && p < |acc| && WinnersInOrder(docs, parse, n, acc)
    requires IdOf(docs[acc[p]]) == IdOf(docs[n])
    ensures forall i :: 0 <= i < |acc| && i != p ==> IdOf(docs[acc[i]]) != IdOf(docs[n])
  {
    forall i | 0 <= i < |acc| && i != p
      ensures IdOf(docs[acc[i]]) != IdOf(docs[n])
    {
      if IdOf(docs[acc[i]]) == IdOf(docs[n]) {
        WinnerUnique(docs, parse, n, acc[i], acc[p]);
      }
    }
  }

  /** A candidate strictly newer than the winner of its id wins among one
      more candidate. */
  lemma NewerWins(docs: seq<Document>, parse: Parser, n: nat, h: nat)
    requires h < n < |docs| && IsWinner(docs, parse, n, h)
    requires IdOf(docs[h]) == IdOf(docs[n])
    requires UpdatedOf(docs[n], parse).Ok? && UpdatedOf(docs[h], parse).Ok?
    requires UpdatedOf(docs[n], parse).value > UpdatedOf(docs[h], parse).value
    ensures IsWinner(docs, parse, n + 1, n)
  {
    forall other | 0 <= other < n + 1 && other != n && IdOf(docs[other]) == IdOf(docs[n])
      ensures Beats(docs, parse, n, other)
    {
      if other != h {
        assert Beats(docs, parse, h, other);
      }
    }
  }

  /** Replacing the holder by the newer candidate keeps the list exactly the
      winners in input order. */
  lemma ReplaceWinnersInOrder(docs: seq<Document>, parse: Parser, n: nat, acc: seq<nat>, p: nat)
    requires 1 <= n < |docs| && p < |acc| && WinnersInOrder(docs, parse, n, acc)
    requires IdOf(docs[acc[p]]) == IdOf(docs[n])
    requires forall i :: 0 <= i < |acc| && i != p ==> IdOf(docs[acc[i]]) != IdOf(docs[n])
    requires IsWinner(docs, parse, n + 1, n)
    ensures WinnersInOrder(docs, parse, n + 1, RemoveAt(acc, p) + [n])
  {
    ReplaceKeepsWinners(docs, parse, n, acc, p);
    ReplaceHasAllWinners(docs, parse, n, acc, p);
    ReplaceKeepsOrder(docs, parse, n, acc, p);
  }

  /** After a replacement every record left is a winner among `n + 1`. */
  lemma ReplaceKeepsWinners(docs: seq<Document>, parse: Parser, n: nat, acc: seq<nat>, p: nat)
    requires 1 <= n < |docs| && p < |acc| && InRange(acc, n)
    requires forall i :: 0 <= i < |acc| ==> IsWinner(docs, parse, n, acc[i])
    requires forall i :: 0 <= i < |acc| && i != p ==> IdOf(docs[acc[i]]) != IdOf(docs[n])
    requires IsWinner(docs, parse, n + 1, n)
    ensures forall i :: 0 <= i < |acc| ==> IsWinner(docs, parse, n + 1, (RemoveAt(acc, p) + [n])[i])
  {
    var rest := RemoveAt(acc, p);
    var acc' := rest + [n];
    forall i | 0 <= i < |acc'|
      ensures IsWinner(docs, parse, n + 1, acc'[i])
    {
      if i < |rest| {
        var j := if i < p then i else i + 1;
        assert acc'[i] == acc[j] && j != p;
        WinnerOtherId(docs, parse, n, acc[j]);
      }
    }
  }

  /** After a replacement every winner among `n + 1` is in the list. */
  lemma ReplaceHasAllWinners(docs: seq<Document>, parse: Parser, n: nat, acc: seq<nat>, p: nat)
    requires 1 <= n < |docs| && p < |acc| && InRange(acc, n)
    requires forall k :: 0 <= k < n && IsWinner(docs, parse, n, k) ==> k in acc
    requires IdOf(docs[acc[p]]) == IdOf(docs[n])
    requires IsWinner(docs, parse, n + 1, n)
    ensures forall k :: 0 <= k < n + 1 && IsWinner(docs, parse, n + 1, k) ==> k in RemoveAt(acc, p) + [n]
  {
    var acc' := RemoveAt(acc, p) + [n];
    forall k | 0 <= k < n + 1 && IsWinner(docs, parse, n + 1, k)
      ensures k in acc'
    {
      if k < n {
        assert IdOf(docs[k]) != IdOf(docs[n]);
        WinnerOtherId(docs, parse, n, k);
        var j :| 0 <= j < |acc| && acc[j] == k;
        var i := if j < p then j else j - 1;
        assert acc'[i] == k;
      }
    }
  }

  /** Removing an entry keeps every other value that was there. */
  lemma RemoveAtKeeps<T>(s: seq<T>, p: nat, x: T)
    requires p < |s| && x in s && x != s[p]
    ensures x in RemoveAt(s, p)
  {
    var j :| 0 <= j < |s| && s[j] == x;
    var i := if j < p then j else j - 1;
    assert RemoveAt(s, p)[i] == x;
  }

  /** Removing an entry of a list without repeats drops that value. */
  lemma RemoveAtDrops(acc: seq<nat>, p: nat)
    requires p < |acc| && Increasing(acc)
    ensures acc[p] !in RemoveAt(acc, p)
  {
    forall i | 0 <= i < |acc| - 1
      ensures RemoveAt(acc, p)[i] != acc[p]
    {
      var j := if i < p then i else i + 1;
      assert RemoveAt(acc, p)[i] == acc[j];
    }
  }

  /** Removing an entry and appending a larger position keeps the list in
      input order. */
  lemma RemoveAtThenAppendIncreasing(acc: seq<nat>, p: nat, n: nat)
    requires p < |acc| && InRange(acc, n) && Increasing(acc)
    ensures InRange(RemoveAt(acc, p) + [n], n + 1) && Increasing(RemoveAt(acc, p) + [n])
  {
    var rest := RemoveAt(acc, p);
    var acc' := rest + [n];
    forall i, j | 0 <= i < j < |acc'|
      ensures acc'[i] < acc'[j]
    {
      if j < |rest| {
        var i0 := if i < p then i else i + 1;
        var j0 := if j < p then j else j + 1;
        assert acc'[i] == acc[i0] && acc'[j] == acc[j0];
      }
    }
  }

  /** The ids after a replacement: the holder's id is removed at its place
      and the candidate's id is appended. */
  lemma IdsAfterReplace(docs: seq<Document>, acc: seq<nat>, p: nat, n: nat)
    requires p < |acc| && n < |docs| && InRange(acc, n)
    ensures Ids(docs, RemoveAt(acc, p) + [n]) == RemoveAt(Ids(docs, acc), p) + [IdOf(docs[n])]
  {
  }

  /** After a replacement the list is still in input order and still holds a
      record for every id met. */
  lemma ReplaceKeepsOrder(docs: seq<Document>, parse: Parser, n: nat, acc: seq<nat>, p: nat)
    requires 1 <= n < |docs| && p < |acc|
    requires WinnersInOrder(docs, parse, n, acc)
    requires IdOf(docs[acc[p]]) == IdOf(docs[n])
    ensures InRange(RemoveAt(acc, p) + [n], n + 1) && Increasing(RemoveAt(acc, p) + [n])
    ensures forall k :: 0 <= k < n + 1 ==> IdOf(docs[k]) in Ids(docs, RemoveAt(acc, p) + [n])
  {
    RemoveAtThenAppendIncreasing(acc, p, n);
    IdsAfterReplace(docs, acc, p, n);
    var ids := Ids(docs, acc);
    forall k | 0 <= k < n + 1
      ensures IdOf(docs[k]) in RemoveAt(ids, p) + [IdOf(docs[n])]
    {
      if IdOf(docs[k]) != IdOf(docs[n]) {
        RemoveAtKeeps(ids, p, IdOf(docs[k]));
      }
    }
  }

  /** A candidate that is not strictly newer is dropped; the list is kept. */
  lemma StepDiscards(docs: seq<Document>, parse: Parser, n: nat, acc: seq<nat>, p: nat)
    requires 1 <= n < |docs|
    requires WinnersInOrder(docs, parse, n, acc)
    requires FindFrom(docs, acc, n, 0) == Ok(Some(p))
    requires UpdatedOf(docs[n], parse).Ok? && UpdatedOf(docs[acc[p]], parse).Ok?
    requires UpdatedOf(docs[n], parse).value <= UpdatedOf(docs[acc[p]], parse).value
    ensures Step(docs, parse, acc, n) == Ok(acc)
    ensures WinnersInOrder(docs, parse, n + 1, acc)
  {
    var h := acc[p];
    assert Beats(docs, parse, h, n);
    DiscardKeepsWinners(docs, parse, n, acc, p);
    DiscardKeepsIds(docs, n, acc, p);
  }

  /** Dropping a candidate whose id is held at `p` keeps a record for every id
      met. */
  lemma DiscardKeepsIds(docs: seq<Document>, n: nat, acc: seq<nat>, p: nat)
    requires n < |docs| && p < |acc| && InRange(acc, n)
    requires forall k :: 0 <= k < n ==> IdOf(docs[k]) in Ids(docs, acc)
    requires IdOf(docs[acc[p]]) == IdOf(docs[n])
    ensures forall k :: 0 <= k < n + 1 ==> IdOf(docs[k]) in Ids(docs, acc)
  {
    assert Ids(docs, acc)[p] == IdOf(docs[n]);
  }

  /** Dropping a candidate that the holder at `p` beats: the winners among
      `n + 1` are the winners among `n`. */
  lemma DiscardKeepsWinners(docs: seq<Document>, parse: Parser, n: nat, acc: seq<nat>, p: nat)
    requires n < |docs| && p < |acc| && InRange(acc, n) && Increasing(acc)
    requires forall i :: 0 <= i < |acc| ==> IsWinner(docs, parse, n, acc[i])
    requires forall k :: 0 <= k < n && IsWinner(docs, parse, n, k) ==> k in acc
    requires IdOf(docs[acc[p]]) == IdOf(docs[n]) && Beats(docs, parse, acc[p], n)
    ensures forall i :: 0 <= i < |acc| ==> IsWinner(docs, parse, n + 1, acc[i])
    ensures forall k :: 0 <= k < n + 1 && IsWinner(docs, parse, n + 1, k) ==> k in acc
  {
    DiscardKeepsOldWinners(docs, parse, n, acc, p);
    DiscardAddsNoWinner(docs, parse, n, acc, p);
  }

  /** Every winner among `n` still wins once the beaten candidate `n` joins. */
  lemma DiscardKeepsOldWinners(docs: seq<Document>, parse: Parser, n: nat, acc: seq<nat>, p: nat)
    requires n < |docs| && p < |acc| && InRange(acc, n)
    requires forall i :: 0 <= i < |acc| ==> IsWinner(docs, parse, n, acc[i])
    requires IdOf(docs[acc[p]]) == IdOf(docs[n]) && Beats(docs, parse, acc[p], n)
    ensures forall i :: 0 <= i < |acc| ==> IsWinner(docs, parse, n + 1, acc[i])
  {
    forall i | 0 <= i < |acc|
      ensures IsWinner(docs, parse, n + 1, acc[i])
    {
      if IdOf(docs[acc[i]]) == IdOf(docs[n]) {
        WinnerUnique(docs, parse, n, acc[i], acc[p]);
      }
      WinnerStaysIfBeaten(docs, parse, n, acc[i]);
    }
  }

  /** A winner among `n` that beats candidate `n`, or has another id, still
      wins among `n + 1`. */
  lemma WinnerStaysIfBeaten(docs: seq<Document>, parse: Parser, n: nat, k: nat)
    requires k < n < |docs| && IsWinner(docs, parse, n, k)
    requires IdOf(docs[k]) == IdOf(docs[n]) ==> Beats(docs, parse, k, n)
    ensures IsWinner(docs, parse, n + 1, k)
  {
  }

  /** A beaten candidate `n` makes no new winner: every winner among `n + 1`
      is already listed. */
  lemma DiscardAddsNoWinner(docs: seq<Document>, parse: Parser, n: nat, acc: seq<nat>, p: nat)
    requires n < |docs| && p < |acc| && InRange(acc, n)
    requires forall k :: 0 <= k < n && IsWinner(docs, parse, n, k) ==> k in acc
    requires IdOf(docs[acc[p]]) == IdOf(docs[n]) && Beats(docs, parse, acc[p], n)
    ensures forall k :: 0 <= k < n + 1 && IsWinner(docs, parse, n + 1, k) ==> k in acc
  {
    forall k | 0 <= k < n + 1 && IsWinner(docs, parse, n + 1, k)
      ensures k in acc
    {
      if k == n {
        assert false;
      }
      WinnerOfPrefix(docs, parse, n, k);
    }
  }

  /** The fold over the first `n` candidates throws exactly when they are not
      mergeable, and otherwise holds exactly their winners in input order. */
  predicate Characterised(docs: seq<Document>, parse: Parser, n: nat)
    requires n <= |docs|
  {
    && (MergePrefix(docs, parse, n).Ok? <==> Mergeable(docs, parse, n))
    && (MergePrefix(docs, parse, n).Ok? ==> WinnersInOrder(docs, parse, n, MergePrefix(docs, parse, n).value))
  }

  /** The characterisation holds for no candidate and for one. */
  lemma CharacterisedStart(docs: seq<Document>, parse: Parser, n: nat)
    requires n <= 1 && n <= |docs|
    ensures Characterised(docs, parse, n)
  {
    if n == 1 {
      MergeFirst(docs, parse);
    }
  }

  /** One more Step after a fold that has not thrown: StepKeepsWinners
      stated on the fold itself. */
  lemma CharacterisedStepOk(docs: seq<Document>, parse: Parser, n: nat)
    requires 2 <= n <= |docs| && Characterised(docs, parse, n - 1) && MergePrefix(docs, parse, n - 1).Ok?
    ensures Characterised(docs, parse, n)
  {
    var acc := MergePrefix(docs, parse, n - 1).value;
    assert MergePrefix(docs, parse, n) == Step(docs, parse, acc, n - 1);
    StepKeepsWinners(docs, parse, n - 1, acc);
  }

  /** A fold that has thrown stays thrown, and the longer prefix is not
      mergeable either. */
  lemma CharacterisedStepErr(docs: seq<Document>, parse: Parser, n: nat)
    requires 2 <= n <= |docs| && Characterised(docs, parse, n - 1) && MergePrefix(docs, parse, n - 1).Err?
    ensures Characterised(docs, parse, n)
  {
    assert MergePrefix(docs, parse, n).Err?;
    UnmergeableExtends(docs, parse, n - 1);
  }

  /** The characterisation carried from `n - 1` candidates to `n`. */
  lemma CharacterisedStep(docs: seq<Document>, parse: Parser, n: nat)
    requires 2 <= n <= |docs| && Characterised(docs, parse, n - 1)
    ensures Characterised(docs, parse, n)
  {
    if MergePrefix(docs, parse, n - 1).Ok? {
      CharacterisedStepOk(docs, parse, n);
    } else {
      CharacterisedStepErr(docs, parse, n);
    }
  }

  /** The characterisation holds for every prefix, by induction on its length. */
  lemma {:induction false} CharacterisedUpTo(docs: seq<Document>, parse: Parser, n: nat)
    requires n <= |docs|
    ensures Characterised(docs, parse, n)
  {
    if n <= 1 {
      CharacterisedStart(docs, parse, n);
    } else {
      CharacterisedUpTo(docs, parse, n - 1);
      CharacterisedStep(docs, parse, n);
    }
  }

  /** The merge, characterised: it throws exactly when the candidates are not
      mergeable, and otherwise keeps, in input order, exactly the candidates
      that beat every other candidate with their id, with one record for every
      id met. */
  lemma MergeCharacterised(docs: seq<Document>, parse: Parser, n: nat)
    requires n <= |docs|
    ensures MergePrefix(docs, parse, n).Ok? <==> Mergeable(docs, parse, n)
    ensures MergePrefix(docs, parse, n).Ok? ==> WinnersInOrder(docs, parse, n, MergePrefix(docs, parse, n).value)
  {
    CharacterisedUpTo(docs, parse, n);
  }

  // ---------------------------------------------------------------------------
  // What merge(List) promises, as consequences of MergeCharacterised.

  /** The merge throws exactly when the candidates are not mergeable. */
  lemma MergeFailsExactly(docs: seq<Document>, parse: Parser)
    ensures Merge(docs, parse).Ok? <==> Mergeable(docs, parse, |docs|)
  {
    MergeCharacterised(docs, parse, |docs|);
  }

  /** After any prefix of the candidates, the records held are in input order
      and no two of them share an id. */
  lemma PrefixOnePerId(docs: seq<Document>, parse: Parser, n: nat)
    requires n <= |docs| && MergePrefix(docs, parse, n).Ok?
    ensures var acc := MergePrefix(docs, parse, n).value;
            && Increasing(acc)
            && forall i, j :: 0 <= i < j < |acc| ==> IdOf(docs[acc[i]]) != IdOf(docs[acc[j]])
  {
    var acc := MergePrefix(docs, parse, n).value;
    MergeCharacterised(docs, parse, n);
    forall i, j | 0 <= i < j < |acc|
      ensures IdOf(docs[acc[i]]) != IdOf(docs[acc[j]])
    {
      if IdOf(docs[acc[i]]) == IdOf(docs[acc[j]]) {
        WinnerUnique(docs, parse, n, acc[i], acc[j]);
      }
    }
  }

  /** At most one record per id survives, and every id of the input survives. */
  lemma MergeOnePerId(docs: seq<Document>, parse: Parser)
    requires Merge(docs, parse).Ok?
    ensures var acc := Merge(docs, parse).value;
            (forall i, j :: 0 <= i < j < |acc| ==> IdOf(docs[acc[i]]) != IdOf(docs[acc[j]]))
            && (forall k :: 0 <= k < |docs| ==> IdOf(docs[k]) in Ids(docs, acc))
  {
    PrefixOnePerId(docs, parse, |docs|);
    MergeCharacterised(docs, parse, |docs|);
  }

  /** The merged records themselves: their ids are distinct, and every
      candidate's id is the id of one of them. */
  lemma MergedRecordsOnePerId(docs: seq<Document>, parse: Parser)
    requires Merge(docs, parse).Ok?
    ensures var merged := Pick(docs, Merge(docs, parse).value);
            && (forall i, j :: 0 <= i < j < |merged| ==> IdOf(merged[i]) != IdOf(merged[j]))
            && (forall k :: 0 <= k < |docs| ==> exists i :: 0 <= i < |merged| && IdOf(merged[i]) == IdOf(docs[k]))
  {
    MergeOnePerId(docs, parse);
    var acc := Merge(docs, parse).value;
    var merged := Pick(docs, acc);
    forall k | 0 <= k < |docs|
      ensures exists i :: 0 <= i < |merged| && IdOf(merged[i]) == IdOf(docs[k])
    {
      var ids := Ids(docs, acc);
      var i :| 0 <= i < |ids| && ids[i] == IdOf(docs[k]);
      assert IdOf(merged[i]) == IdOf(docs[k]);
    }
  }

  /** The surviving record of an id has a timestamp at least that of every
      other candidate with the id, and on an exact tie it is the earlier one. */
  lemma MergeKeepsNewest(docs: seq<Document>, parse: Parser, i: nat, k: nat)
    requires Merge(docs, parse).Ok? && i < |Merge(docs, parse).value| && k < |docs|
    requires k != Merge(docs, parse).value[i]
    requires IdOf(docs[k]) == IdOf(docs[Merge(docs, parse).value[i]])
    ensures var w := Merge(docs, parse).value[i];
            UpdatedOf(docs[k], parse).Ok? && UpdatedOf(docs[w], parse).Ok?
            && UpdatedOf(docs[k], parse).value <= UpdatedOf(docs[w], parse).value
            && (UpdatedOf(docs[k], parse).value == UpdatedOf(docs[w], parse).value ==> w < k)
  {
    MergeCharacterised(docs, parse, |docs|);
    assert Beats(docs, parse, Merge(docs, parse).value[i], k);
  }

  /** The survivors appear in the order of their input positions: of two
      kept records, the one at the earlier position comes out first. */
  lemma MergeKeepsInputOrder(docs: seq<Document>, parse: Parser)
    requires Merge(docs, parse).Ok?
    ensures Increasing(Merge(docs, parse).value)
  {
    MergeCharacterised(docs, parse, |docs|);
  }

  /** The positions 0, 1, ..., n - 1. */
  function Range(n: nat): (r: seq<nat>)
    ensures |r| == n && forall i :: 0 <= i < n ==> r[i] == i
  {
    seq(n, i => i)
  }

  /** When all ids are present and distinct, the merge returns its input: the
      same records in the same order. */
  lemma {:induction false} MergeDistinctIds(docs: seq<Document>, parse: Parser, n: nat)
    requires n <= |docs|
    requires forall k :: 0 <= k < n ==> IdOf(docs[k]).Some?
    requires forall k, other :: 0 <= k < other < n ==> IdOf(docs[k]) != IdOf(docs[other])
    ensures MergePrefix(docs, parse, n) == Ok(Range(n))
  {
    if n > 0 {
      MergeDistinctIds(docs, parse, n - 1);
      DistinctIdAppends(docs, parse, n - 1);
    }
  }

  /** A candidate whose id differs from every earlier present id is appended. */
  lemma DistinctIdAppends(docs: seq<Document>, parse: Parser, n: nat)
    requires n < |docs|
    requires forall k :: 0 <= k <= n ==> IdOf(docs[k]).Some?
    requires forall k :: 0 <= k < n ==> IdOf(docs[k]) != IdOf(docs[n])
    ensures Step(docs, parse, Range(n), n) == Ok(Range(n + 1))
  {
    var found := FindFrom(docs, Range(n), n, 0);
    assert found.Ok?;
    assert found == Ok(None);
    assert Range(n) + [n] == Range(n + 1);
  }

  /** One more candidate whose id is held at position `p` after the first `n`:
      if its timestamp is strictly later, the holder is removed and the
      candidate becomes the last record; otherwise the list is unchanged. */
  lemma MergeReplaceMovesToEnd(docs: seq<Document>, parse: Parser, n: nat, p: nat)
    requires n < |docs| && MergePrefix(docs, parse, n + 1).Ok?
    requires MergePrefix(docs, parse, n).Ok? && p < |MergePrefix(docs, parse, n).value|
    requires IdOf(docs[MergePrefix(docs, parse, n).value[p]]) == IdOf(docs[n])
    ensures var acc := MergePrefix(docs, parse, n).value;
            var acc' := MergePrefix(docs, parse, n + 1).value;
            UpdatedOf(docs[n], parse).Ok? && UpdatedOf(docs[acc[p]], parse).Ok?
            && (UpdatedOf(docs[n], parse).value > UpdatedOf(docs[acc[p]], parse).value ==>
                  acc' == RemoveAt(acc, p) + [n] && acc[p] !in acc' && acc'[|acc'| - 1] == n)
            && (UpdatedOf(docs[n], parse).value <= UpdatedOf(docs[acc[p]], parse).value ==> acc' == acc)
  {
    var acc := MergePrefix(docs, parse, n).value;
    PrefixOnePerId(docs, parse, n);
    assert MergePrefix(docs, parse, n + 1) == Step(docs, parse, acc, n);
    var found := FindFrom(docs, acc, n, 0);
    assert found.Ok? && found.value.Some?;
    assert found.value.value == p;
    if UpdatedOf(docs[n], parse).value > UpdatedOf(docs[acc[p]], parse).value {
      RemoveAtDrops(acc, p);
    }
  }
}
