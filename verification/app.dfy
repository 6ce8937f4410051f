/** The update button of the application: fetch the latest draw, classify
    the fixed sets against it, and append a record to the history. */
module App {
  import opened Wrappers
  import opened Text
  import opened Prize
  import opened Fetch
  import opened History

  /** One press of the update button. On a fetch failure the history is
      returned unchanged together with the error; otherwise the new record
      is appended and the result texts are returned. */
  method TriggerUpdate(store: seq<DrawRecord>, sets: seq<seq<int>>, lookup: int -> Response)
    returns (round: int, newStore: seq<DrawRecord>, report: Result<seq<string>, FetchError>)
    requires exists w :: w <= SeedRound && !IsFail(lookup(w))
    ensures IsLatest(lookup, SeedRound, round)
    ensures report.Failure? <==> ReadDraw(lookup(round), round).Failure?
    ensures report.Failure? ==> newStore == store && report.error == ReadDraw(lookup(round), round).error
    ensures report.Success? ==>
              var d := ReadDraw(lookup(round), round).value;
              && report.value == CheckWinnings(sets, d.numbers + [d.bonus])
              && |newStore| == |store| + 1
              && newStore[..|store|] == store
              && newStore[|store|] == DrawRecord(round, d.numbers, d.bonus, Join(report.value, ", "))
  {
    var fetched;
    round, fetched := FetchLatest(lookup);
    match fetched
    case Failure(e) =>
      newStore := store;
      report := Failure(e);
    case Success(d) =>
      var winning := d.numbers + [d.bonus];
      var results := CheckWinnings(sets, winning);
      newStore := Append(store, MakeRecord(d, results));
      report := Success(results);
  }
}
