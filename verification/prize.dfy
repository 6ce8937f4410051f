/** Prize classification of fixed number sets against one draw: the match
    count, the tier ladder, the per-set verdicts and their text. */
module Prize {
  import opened Wrappers
  import opened Seqs
  import opened Text
  import Parsing

  /** The five prize tiers, 1st (jackpot) to 5th. */
  datatype Tier = First | Second | Third | Fourth | Fifth {

    /** How many of the six winning numbers the tier needs. */
    function Matches(): nat
    {
      match this
      case First => 6
      case Second => 5
      case Third => 5
      case Fourth => 4
      case Fifth => 3
    }

    /** 1 for the best tier, 5 for the lowest. */
    function Rank(): nat
    {
      match this
      case First => 1
      case Second => 2
      case Third => 3
      case Fourth => 4
      case Fifth => 5
    }

    function Label(): string
    {
      match this
      case First => "🎉 1등 당첨!"
      case Second => "🥈 2등 당첨!"
      case Third => "🥉 3등 당첨!"
      case Fourth => "💰 4등 당첨!"
      case Fifth => "🎊 5등 당첨!"
    }
  }

  /** The prize table: tier `t` is won with `m` matching numbers, where the
      bonus number decides between the two five-match tiers. */
  predicate Wins(t: Tier, m: nat, bonusHit: bool)
  {
    && m == t.Matches()
    && (t == Second ==> bonusHit)
    && (t == Third ==> !bonusHit)
  }

  /** The values of a sequence, duplicates collapsed (Python's `set(xs)`). */
  function Distinct(s: seq<int>): set<int>
  {
    set x | x in s
  }

  /** How many distinct winning numbers the set holds. */
  function MatchCount(fixed: seq<int>, six: seq<int>): nat
  {
    |Distinct(fixed) * Distinct(six)|
  }

  /** The tier of one fixed set against the six winning numbers and the
      bonus, checked from the best tier down; the first that applies wins. */
  function Classify(fixed: seq<int>, six: seq<int>, bonus: int): (r: Option<Tier>)
    ensures forall t :: r == Some(t) <==> Wins(t, MatchCount(fixed, six), bonus in fixed)
  {
    var matching := MatchCount(fixed, six);
    var bonusHit := bonus in fixed;
    if matching == 6 then Some(First)
    else if matching == 5 && bonusHit then Some(Second)
    else if matching == 5 then Some(Third)
    else if matching == 4 then Some(Fourth)
    else if matching == 3 then Some(Fifth)
    else None
  }

  /** The outcome the application reports for a set, or the single "no
      win" entry. */
  datatype Verdict = Win(tier: Tier, fixed: seq<int>) | NoWin

  /** What one set adds to the result: a win entry or nothing. */
  function Entry(fixed: seq<int>, six: seq<int>, bonus: int): Option<Verdict>
  {
    match Classify(fixed, six, bonus)
    case Some(t) => Some(Win(t, fixed))
    case None => None
  }

  /** The set qualifies for some tier against the draw `winning` (six
      numbers, then the bonus). */
  predicate Qualifies(fixed: seq<int>, winning: seq<int>)
    requires |winning| >= 7
  {
    Classify(fixed, winning[..6], winning[6]).Some?
  }

  /** The win entries of all qualifying sets, in input order, or `[NoWin]`
      when none qualifies. */
  function Verdicts(sets: seq<seq<int>>, winning: seq<int>): (r: seq<Verdict>)
    requires |winning| >= 7
    ensures |r| >= 1
    ensures r == [NoWin] <==> forall i :: 0 <= i < |sets| ==> !Qualifies(sets[i], winning)
    ensures r == [NoWin] || (|r| <= |sets| && NoWin !in r)
  {
    var six, bonus := winning[..6], winning[6];
    var f := fixed => Entry(fixed, six, bonus);
    var wins := FilterMap(f, sets);
    FilterMapEmpty(f, sets);
    FilterMapMembers(f, sets);
    if wins == [] then [NoWin] else wins
  }

  const NoWinText: string := "❌ 꽝!"

  /** The text of one verdict: the tier label and the set as Python prints
      a list. */
  function Render(v: Verdict): (s: string)
    ensures |s| > 0
    ensures v.Win? ==> s[0] != NoWinText[0]
  {
    match v
    case Win(t, fixed) => t.Label() + " (" + ListRepr(fixed) + ")"
    case NoWin => NoWinText
  }

  /** `check_winnings`: one text per qualifying set, in input order, or the
      single "no win" text. */
  function CheckWinnings(sets: seq<seq<int>>, winning: seq<int>): (r: seq<string>)
    requires |winning| >= 7
    ensures r == [NoWinText] <==> forall i :: 0 <= i < |sets| ==> !Qualifies(sets[i], winning)
    ensures |r| == 1 || |r| <= |sets|
  {
    Map(Render, Verdicts(sets, winning))
  }

  /** No value occurs twice. */
  predicate NoDuplicates(s: seq<int>)
  {
    forall i, j :: 0 <= i < j < |s| ==> s[i] != s[j]
  }

  /** A sequence has at most as many distinct values as elements, and
      exactly as many when no value repeats. */
  lemma {:induction false} DistinctCard(s: seq<int>)
    ensures |Distinct(s)| <= |s|
    ensures |Distinct(s)| == |s| <==> NoDuplicates(s)
    decreases |s|
  {
    if |s| == 0 {
      assert Distinct(s) == {};
    } else {
      var n := |s| - 1;
      var p := s[..n];
      assert s == p + [s[n]];
      DistinctCard(p);
      DistinctSnoc(p, s[n]);
      NoDuplicatesSnoc(p, s[n]);
    }
  }

  lemma DistinctSnoc(p: seq<int>, x: int)
    ensures Distinct(p + [x]) == Distinct(p) + {x}
  {
    var s := p + [x];
    forall y | y in Distinct(s)
      ensures y in Distinct(p) + {x}
    {
      var j :| 0 <= j < |s| && s[j] == y;
      if j < |p| {
        assert p[j] == y;
      }
    }
    forall y | y in Distinct(p)
      ensures y in Distinct(s)
    {
      var j :| 0 <= j < |p| && p[j] == y;
      assert s[j] == y;
    }
    assert s[|p|] == x;
  }

  /** Appending a value keeps a sequence free of duplicates exactly when the
      value is new. */
  lemma NoDuplicatesSnoc(p: seq<int>, x: int)
    ensures NoDuplicates(p + [x]) <==> NoDuplicates(p) && x !in Distinct(p)
  {
    var s := p + [x];
    if x in Distinct(p) {
      var j :| 0 <= j < |p| && p[j] == x;
      assert s[j] == s[|p|];
    } else if NoDuplicates(p) {
      forall i, j | 0 <= i < j < |s|
        ensures s[i] != s[j]
      {
        assert s[i] == p[i];
        if j < |p| {
          assert s[j] == p[j];
        } else {
          assert p[i] in Distinct(p);
        }
      }
    } else {
      var i, j :| 0 <= i < j < |p| && p[i] == p[j];
      assert s[i] == s[j];
    }
  }

  /** The match count never exceeds the number of distinct winning
      numbers, so it is at most six. */
  lemma MatchCountBound(fixed: seq<int>, six: seq<int>)
    ensures MatchCount(fixed, six) <= |Distinct(six)| <= |six|
    ensures MatchCount(fixed, six) <= |Distinct(fixed)|
  {
    DistinctCard(six);
    var a, b := Distinct(fixed), Distinct(six);
    assert b == (a * b) + (b - a) && (a * b) * (b - a) == {};
    assert a == (a * b) + (a - b) && (a * b) * (a - b) == {};
  }

  /** Against six winning numbers a set wins nothing exactly when it holds
      fewer than three of them. */
  lemma NoTierBelowThree(fixed: seq<int>, six: seq<int>, bonus: int)
    requires |six| == 6
    ensures Classify(fixed, six, bonus).None? <==> MatchCount(fixed, six) < 3
  {
    MatchCountBound(fixed, six);
  }

  /** A set shares no number with the draw: it wins nothing, whatever the
      bonus. */
  lemma NoOverlapNoWin(fixed: seq<int>, six: seq<int>, bonus: int)
    requires forall i :: 0 <= i < |six| ==> six[i] !in fixed
    ensures Classify(fixed, six, bonus).None?
  {
    assert Distinct(fixed) * Distinct(six) == {};
  }

  /** First prize exactly when the six winning numbers are distinct and all
      in the set, in any order and whatever else the set holds. */
  lemma FirstPrizeIff(fixed: seq<int>, six: seq<int>, bonus: int)
    requires |six| == 6
    ensures Classify(fixed, six, bonus) == Some(First) <==>
      NoDuplicates(six) && forall i :: 0 <= i < 6 ==> six[i] in fixed
  {
    var a, b := Distinct(fixed), Distinct(six);
    DistinctCard(six);
    MatchCountBound(fixed, six);
    if MatchCount(fixed, six) == 6 {
      assert |b| == 6;
      assert a * b == b by {
        assert a * b <= b;
        assert |b - a * b| == |b| - |a * b|;
      }
      forall i | 0 <= i < 6
        ensures six[i] in fixed
      {
        assert six[i] in b;
      }
    }
    if NoDuplicates(six) && forall i :: 0 <= i < 6 ==> six[i] in fixed {
      assert a * b == b;
    }
  }

  /** The bonus number only matters with exactly five matches. */
  lemma BonusOnlyAtFive(fixed: seq<int>, six: seq<int>, b1: int, b2: int)
    requires MatchCount(fixed, six) != 5
    ensures Classify(fixed, six, b1) == Classify(fixed, six, b2)
  {
  }

  /** The tier depends on the values only: reordering or repeating numbers
      in the set or in the draw changes nothing. */
  lemma OrderInsensitive(f1: seq<int>, f2: seq<int>, six1: seq<int>, six2: seq<int>, bonus: int)
    requires Distinct(f1) == Distinct(f2)
    requires Distinct(six1) == Distinct(six2)
    ensures Classify(f1, six1, bonus) == Classify(f2, six2, bonus)
  {
    assert bonus in f1 <==> bonus in Distinct(f1);
    assert bonus in f2 <==> bonus in Distinct(f2);
  }

  /** The rank of a classification; no win ranks below every tier. */
  function RankOf(r: Option<Tier>): nat
  {
    match r
    case Some(t) => t.Rank()
    case None => 6
  }

  /** More matching numbers never give a worse tier. */
  lemma MoreMatchesNoWorse(f1: seq<int>, f2: seq<int>, six: seq<int>, bonus: int)
    requires |six| == 6
    requires MatchCount(f1, six) > MatchCount(f2, six)
    ensures RankOf(Classify(f1, six, bonus)) <= RankOf(Classify(f2, six, bonus))
  {
    MatchCountBound(f1, six);
  }

  /** At most one tier of the table applies, so the order in which the
      ladder tries them does not change the outcome. */
  lemma TableUnambiguous(t1: Tier, t2: Tier, m: nat, bonusHit: bool)
    requires Wins(t1, m, bonusHit) && Wins(t2, m, bonusHit)
    ensures t1 == t2
  {
  }

  /** Each win entry names a set of the input with its tier, and each
      qualifying set has its entry. */
  lemma VerdictsMembers(sets: seq<seq<int>>, winning: seq<int>)
    requires |winning| >= 7
    ensures forall k :: 0 <= k < |Verdicts(sets, winning)| && Verdicts(sets, winning)[k].Win? ==>
      exists i :: 0 <= i < |sets| && sets[i] == Verdicts(sets, winning)[k].fixed &&
        Classify(sets[i], winning[..6], winning[6]) == Some(Verdicts(sets, winning)[k].tier)
    ensures forall i :: 0 <= i < |sets| && Qualifies(sets[i], winning) ==>
      Win(Classify(sets[i], winning[..6], winning[6]).value, sets[i]) in Verdicts(sets, winning)
  {
    var six, bonus := winning[..6], winning[6];
    var f := fixed => Entry(fixed, six, bonus);
    FilterMapMembers(f, sets);
  }

  /** Entries keep the order of their sets: the verdicts of two lists of
      sets, one after the other, are the verdicts of each list in turn, the
      "no win" entry standing for an empty contribution. */
  lemma VerdictsConcat(a: seq<seq<int>>, b: seq<seq<int>>, winning: seq<int>)
    requires |winning| >= 7
    ensures Verdicts(a, winning) == [NoWin] ==> Verdicts(a + b, winning) == Verdicts(b, winning)
    ensures Verdicts(b, winning) == [NoWin] ==> Verdicts(a + b, winning) == Verdicts(a, winning)
    ensures Verdicts(a, winning) != [NoWin] && Verdicts(b, winning) != [NoWin] ==>
      Verdicts(a + b, winning) == Verdicts(a, winning) + Verdicts(b, winning)
  {
    var six, bonus := winning[..6], winning[6];
    var f := fixed => Entry(fixed, six, bonus);
    FilterMapAppend(f, a, b);
    FilterMapEmpty(f, a);
    FilterMapEmpty(f, b);
    FilterMapEmpty(f, a + b);
  }

  /** The positions of the sets that qualify. */
  ghost function QualifyingSets(sets: seq<seq<int>>, winning: seq<int>): set<int>
    requires |winning| >= 7
  {
    set i | 0 <= i < |sets| && Qualifies(sets[i], winning)
  }

  /** Unless nothing qualifies, there is exactly one entry per qualifying
      set. */
  lemma VerdictsCount(sets: seq<seq<int>>, winning: seq<int>)
    requires |winning| >= 7
    ensures Verdicts(sets, winning) != [NoWin] ==> |Verdicts(sets, winning)| == |QualifyingSets(sets, winning)|
  {
    var six, bonus := winning[..6], winning[6];
    var f := fixed => Entry(fixed, six, bonus);
    FilterMapCount(f, sets);
    assert Kept(f, sets) == QualifyingSets(sets, winning) by {
      forall i | 0 <= i < |sets|
        ensures i in Kept(f, sets) <==> i in QualifyingSets(sets, winning)
      {
      }
    }
    FilterMapEmpty(f, sets);
  }

  /** The tier named at the head of a result text, if any. */
  function TierOfText(s: string): Option<Tier>
  {
    if First.Label() + " (" <= s then Some(First)
    else if Second.Label() + " (" <= s then Some(Second)
    else if Third.Label() + " (" <= s then Some(Third)
    else if Fourth.Label() + " (" <= s then Some(Fourth)
    else if Fifth.Label() + " (" <= s then Some(Fifth)
    else None
  }

  /** The text of a verdict tells its tier back, and the "no win" text
      tells none. */
  lemma RenderTierRoundTrip(v: Verdict)
    ensures TierOfText(Render(v)) == if v.Win? then Some(v.tier) else None
  {
    var s := Render(v);
    if v.Win? {
      assert s == v.tier.Label() + " (" + (ListRepr(v.fixed) + ")");
    }
  }

  /** Reads the set back from a win text: the list items between the
      label's `" (["` and the closing `"])"`. */
  function SetOfText(s: string): Option<seq<int>>
  {
    match TierOfText(s)
    case None => None
    case Some(t) =>
      var start := |t.Label()| + 3;
      if t.Label() + " ([" <= s && start <= |s| - 2 && s[|s| - 2..] == "])"
      then Some(Parsing.ParseLine(s[start..|s| - 2]))
      else None
  }

  /** The text of a win shows the set: the values of a set of non-negative
      numbers, as printed in the text, parse back to that set. */
  lemma RenderSetRoundTrip(t: Tier, fixed: seq<int>)
    requires forall k :: 0 <= k < |fixed| ==> fixed[k] >= 0
    ensures SetOfText(Render(Win(t, fixed))) == Some(fixed)
  {
    var items := ListItems(fixed);
    var s := Render(Win(t, fixed));
    assert s == t.Label() + " ([" + items + "])";
    RenderTierRoundTrip(Win(t, fixed));
    var start := |t.Label()| + 3;
    assert s[start..|s| - 2] == items;
    assert s[|s| - 2..] == "])";
    Parsing.ParseLineOfItems(fixed);
  }

  /** Reads a verdict back from its text. */
  function ReadVerdict(s: string): Option<Verdict>
  {
    if s == NoWinText then Some(NoWin)
    else
      match (TierOfText(s), SetOfText(s))
      case (Some(t), Some(fixed)) => Some(Win(t, fixed))
      case _ => None
  }

  /** A verdict can be read back from its text: the tier and, for a set of
      non-negative numbers, the set itself. */
  lemma RenderRoundTrip(v: Verdict)
    requires v.Win? ==> forall k :: 0 <= k < |v.fixed| ==> v.fixed[k] >= 0
    ensures ReadVerdict(Render(v)) == Some(v)
  {
    if v.Win? {
      RenderTierRoundTrip(v);
      RenderSetRoundTrip(v.tier, v.fixed);
      assert Render(v) != NoWinText;
    }
  }
}
