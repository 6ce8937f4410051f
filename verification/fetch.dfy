/** Finding the latest draw: the remote lookup is asked for one round after
    another, counting down from a seed round, until it stops answering
    "fail"; the draw numbers are then read from that answer. */
module Fetch {
  import opened Wrappers

  /** The round the search starts from. */
  const SeedRound: int := 1163

  /** What the lookup yields for one round: a transport or decoding failure,
      or a decoded body with its `returnValue` (absent when the key is
      missing) and its numeric fields by key. */
  datatype Response =
    | TransportError
    | Body(returnValue: Option<string>, fields: map<string, int>)

  /** The lookup reports that the round has not been drawn. */
  predicate IsFail(r: Response)
  {
    r.Body? && r.returnValue == Some("fail")
  }

  /** `round` is the highest round at or below `seed` whose answer is not
      "fail". */
  ghost predicate IsLatest(lookup: int -> Response, seed: int, round: int)
  {
    && round <= seed
    && !IsFail(lookup(round))
    && forall r :: round < r <= seed ==> IsFail(lookup(r))
  }

  /** The search counts down from `seed` and stops at the first round whose
      answer is not "fail"; `calls` is how many lookups it made. The loop of
      `fetch_latest_lotto` has no lower bound, so some round at or below
      `seed` must answer. */
  method ProbeLatest(lookup: int -> Response, seed: int) returns (round: int, calls: nat)
    requires exists w :: w <= seed && !IsFail(lookup(w))
    ensures IsLatest(lookup, seed, round)
    ensures calls == seed - round + 1
  {
    ghost var w :| w <= seed && !IsFail(lookup(w));
    round := seed;
    calls := 1;
    while IsFail(lookup(round))
      invariant w <= round <= seed
      invariant forall r :: round < r <= seed ==> IsFail(lookup(r))
      invariant calls == seed - round + 1
      decreases round - w
    {
      round := round - 1;
      calls := calls + 1;
    }
  }

  /** Only one round can be the latest. */
  lemma LatestUnique(lookup: int -> Response, seed: int, r1: int, r2: int)
    requires IsLatest(lookup, seed, r1) && IsLatest(lookup, seed, r2)
    ensures r1 == r2
  {
  }

  /** A seed that fails just above a drawn round: that round is the latest
      (so `ProbeLatest` finds it with two lookups). */
  lemma OneStepBack(lookup: int -> Response, seed: int, round: int)
    requires IsFail(lookup(seed)) && !IsFail(lookup(seed - 1))
    requires IsLatest(lookup, seed, round)
    ensures round == seed - 1
  {
  }

  /** The keys of the six winning numbers, in order, and of the bonus. */
  const NumberKeys: seq<string> := ["drwtNo1", "drwtNo2", "drwtNo3", "drwtNo4", "drwtNo5", "drwtNo6"]
  const BonusKey: string := "bnusNo"
  const StatusKey: string := "returnValue"

  /** One drawn round: six winning numbers and the bonus. */
  datatype Draw = Draw(round: int, numbers: seq<int>, bonus: int)

  datatype FetchError = NetworkError | MissingField(key: string)

  /** The first key, in order, that the fields lack. */
  function FirstMissing(keys: seq<string>, fields: map<string, int>): (r: Option<string>)
    ensures r.None? <==> forall k :: 0 <= k < |keys| ==> keys[k] in fields
    ensures r.Some? ==>
              exists k :: 0 <= k < |keys| && keys[k] == r.value && r.value !in fields &&
                          forall j :: 0 <= j < k ==> keys[j] in fields
    decreases |keys|
  {
    if |keys| == 0 then None
    else if keys[0] !in fields then Some(keys[0])
    else
      var rest := FirstMissing(keys[1..], fields);
      assert forall k :: 1 <= k < |keys| ==> keys[k] == keys[1..][k - 1];
      rest
  }

  /** Reads the draw of `round` from its answer: a transport failure or a
      missing key is an error, checked in the order `fetch_latest_lotto`
      reads the keys. */
  function ReadDraw(resp: Response, round: int): (r: Result<Draw, FetchError>)
    ensures r == Failure(NetworkError) <==> resp.TransportError?
    ensures r.Success? <==>
              && resp.Body? && resp.returnValue.Some?
              && (forall k :: 0 <= k < 6 ==> NumberKeys[k] in resp.fields)
              && BonusKey in resp.fields
    ensures r.Success? ==>
              && r.value.round == round
              && |r.value.numbers| == 6
              && (forall k :: 0 <= k < 6 ==> r.value.numbers[k] == resp.fields[NumberKeys[k]])
              && r.value.bonus == resp.fields[BonusKey]
  {
    match resp
    case TransportError => Failure(NetworkError)
    case Body(status, fields) =>
      if status.None? then Failure(MissingField(StatusKey))
      else
        match FirstMissing(NumberKeys + [BonusKey], fields)
        case Some(key) => Failure(MissingField(key))
        case None =>
          assert forall k :: 0 <= k < 6 ==> (NumberKeys + [BonusKey])[k] == NumberKeys[k];
          assert (NumberKeys + [BonusKey])[6] == BonusKey;
          Success(Draw(round, seq(6, k requires 0 <= k < 6 => fields[NumberKeys[k]]), fields[BonusKey]))
  }

  /** The answer the lookup gives for a drawn round. */
  function EncodeDraw(d: Draw): Response
    requires |d.numbers| == 6
  {
    Body(Some("success"), map[
      NumberKeys[0] := d.numbers[0], NumberKeys[1] := d.numbers[1],
      NumberKeys[2] := d.numbers[2], NumberKeys[3] := d.numbers[3],
      NumberKeys[4] := d.numbers[4], NumberKeys[5] := d.numbers[5],
      BonusKey := d.bonus])
  }

  /** Reading the answer for a drawn round gives the draw back. */
  lemma ReadEncodeRoundTrip(d: Draw)
    requires |d.numbers| == 6
    ensures ReadDraw(EncodeDraw(d), d.round) == Success(d)
  {
    var r := ReadDraw(EncodeDraw(d), d.round);
    assert r.value.numbers == d.numbers;
  }

  /** `fetch_latest_lotto`: probe down from the fixed seed round, then read
      the numbers of the round found. */
  method FetchLatest(lookup: int -> Response) returns (round: int, outcome: Result<Draw, FetchError>)
    requires exists w :: w <= SeedRound && !IsFail(lookup(w))
    ensures IsLatest(lookup, SeedRound, round)
    ensures outcome == ReadDraw(lookup(round), round)
  {
    var calls;
    round, calls := ProbeLatest(lookup, SeedRound);
    outcome := ReadDraw(lookup(round), round);
  }
}
