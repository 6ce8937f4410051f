/** The draw history: one record per fetched draw, kept in fetch order. */
module History {
  import opened Text
  import opened Fetch
  import opened Prize

  /** One row of the history table: the round, the six winning numbers, the
      bonus and the joined result texts. */
  datatype DrawRecord = DrawRecord(round: int, numbers: seq<int>, bonus: int, outcome: string)

  /** The row for a fetched draw and its result texts, joined by ", ". */
  function MakeRecord(d: Draw, results: seq<string>): (rec: DrawRecord)
    requires |d.numbers| >= 6
    ensures rec.round == d.round && rec.numbers == d.numbers[..6] && rec.bonus == d.bonus
    ensures |results| > 0 ==> results[0] <= rec.outcome
    ensures |results| == 1 ==> rec.outcome == results[0]
  {
    var rec := DrawRecord(d.round, d.numbers[..6], d.bonus, Join(results, ", "));
    if |results| > 0 then JoinHead(results, ", "); rec else rec
  }

  /** Adds a record after the existing ones. */
  function Append(store: seq<DrawRecord>, rec: DrawRecord): (r: seq<DrawRecord>)
    ensures |r| == |store| + 1
    ensures forall i :: 0 <= i < |store| ==> r[i] == store[i]
    ensures r[|store|] == rec
  {
    store + [rec]
  }

  /** Records added one after the other end the history in the order they
      were added, and the earlier history is untouched. */
  lemma AppendTwice(store: seq<DrawRecord>, a: DrawRecord, b: DrawRecord)
    ensures Append(Append(store, a), b)[..|store|] == store
    ensures Append(Append(store, a), b)[|store|..] == [a, b]
  {
  }

  /** The history does not keep rounds unique: fetching the same draw twice
      leaves two rows for that round. */
  lemma RoundsNotDeduplicated(store: seq<DrawRecord>, rec: DrawRecord)
    ensures var r := Append(Append(store, rec), rec);
      r[|store|].round == r[|store| + 1].round && |r| == |store| + 2
  {
  }

  /** The stored outcome of a draw is the "no win" text exactly when none of
      the fixed sets qualifies; any win puts its own text first. */
  lemma OutcomeNoWinIff(d: Draw, sets: seq<seq<int>>, winning: seq<int>)
    requires |d.numbers| >= 6 && |winning| >= 7
    ensures MakeRecord(d, CheckWinnings(sets, winning)).outcome == NoWinText
        <==> forall i :: 0 <= i < |sets| ==> !Qualifies(sets[i], winning)
  {
  }
}
