/** Parsing of the "my fixed numbers" text box: one set per non-blank line,
    comma-separated tokens, and only the tokens that are digits once
    stripped are kept, as integers. */
module Parsing {
  import opened Wrappers
  import opened Seqs
  import opened Text

  /** One comma-separated token: its value when it is all digits once
      stripped, otherwise dropped. */
  function ParseToken(token: string): (r: Option<int>)
    ensures r.Some? <==> IsDigits(Trim(token))
    ensures r.Some? ==> r.value >= 0
  {
    var t := Trim(token);
    if IsDigits(t) then Some(DigitsValue(t)) else None
  }

  /** The positions of the tokens that are all digits once stripped. */
  ghost function NumericTokens(tokens: seq<string>): set<int>
  {
    set i | 0 <= i < |tokens| && IsDigits(Trim(tokens[i]))
  }

  /** The integers of one line, in token order. */
  function ParseLine(line: string): seq<int>
  {
    FilterMap(ParseToken, Split(line, ','))
  }

  /** One non-negative integer per numeric token of the line. */
  lemma ParseLineValues(line: string)
    ensures forall k :: 0 <= k < |ParseLine(line)| ==> ParseLine(line)[k] >= 0
    ensures |ParseLine(line)| == |NumericTokens(Split(line, ','))|
  {
    var tokens := Split(line, ',');
    var r := ParseLine(line);
    FilterMapMembers(ParseToken, tokens);
    forall k | 0 <= k < |r|
      ensures r[k] >= 0
    {
      var i :| 0 <= i < |tokens| && ParseToken(tokens[i]) == Some(r[k]);
    }
    FilterMapCount(ParseToken, tokens);
    assert Kept(ParseToken, tokens) == NumericTokens(tokens) by {
      forall i | 0 <= i < |tokens|
        ensures i in Kept(ParseToken, tokens) <==> i in NumericTokens(tokens)
      {
      }
    }
  }

  /** `line.strip()` is empty. */
  predicate IsBlank(line: string)
  {
    Trim(line) == []
  }

  /** A line yields a set unless it is blank. */
  function ParseLineEntry(line: string): Option<seq<int>>
  {
    if IsBlank(line) then None else Some(ParseLine(line))
  }

  /** The positions of the lines that are not blank. */
  ghost function NonBlankLines(lines: seq<string>): set<int>
  {
    set i | 0 <= i < |lines| && !IsBlank(lines[i])
  }

  /** The fixed sets of the whole text, in line order. */
  function ParseFixedSets(text: string): seq<seq<int>>
  {
    FilterMap(ParseLineEntry, Split(text, '\n'))
  }

  /** One set per non-blank line. */
  lemma ParseFixedSetsCount(text: string)
    ensures |ParseFixedSets(text)| == |NonBlankLines(Split(text, '\n'))|
  {
    var lines := Split(text, '\n');
    FilterMapCount(ParseLineEntry, lines);
    assert Kept(ParseLineEntry, lines) == NonBlankLines(lines) by {
      forall i | 0 <= i < |lines|
        ensures i in Kept(ParseLineEntry, lines) <==> i in NonBlankLines(lines)
      {
      }
    }
  }

  /** Each set is the parse of a non-blank line. */
  lemma ParseEntriesLines(lines: seq<string>)
    ensures forall k :: 0 <= k < |FilterMap(ParseLineEntry, lines)| ==>
      exists i :: 0 <= i < |lines| && !IsBlank(lines[i]) && FilterMap(ParseLineEntry, lines)[k] == ParseLine(lines[i])
  {
    var r := FilterMap(ParseLineEntry, lines);
    FilterMapMembers(ParseLineEntry, lines);
    forall k | 0 <= k < |r|
      ensures exists i :: 0 <= i < |lines| && !IsBlank(lines[i]) && r[k] == ParseLine(lines[i])
    {
      var i :| 0 <= i < |lines| && ParseLineEntry(lines[i]) == Some(r[k]);
    }
  }

  /** Every parsed value is non-negative. */
  lemma ParseFixedSetsNonNegative(text: string)
    ensures forall k, j :: 0 <= k < |ParseFixedSets(text)| && 0 <= j < |ParseFixedSets(text)[k]| ==> ParseFixedSets(text)[k][j] >= 0
  {
    var lines := Split(text, '\n');
    var r := FilterMap(ParseLineEntry, lines);
    ParseEntriesLines(lines);
    forall k, j | 0 <= k < |r| && 0 <= j < |r[k]|
      ensures r[k][j] >= 0
    {
      var i :| 0 <= i < |lines| && !IsBlank(lines[i]) && r[k] == ParseLine(lines[i]);
      ParseLineValues(lines[i]);
    }
  }

  /** The text the input box shows for a list of sets: one line per set,
      items separated by ", ". */
  function FormatFixedSets(sets: seq<seq<int>>): string
  {
    Join(Map(ListItems, sets), "\n")
  }

  /** Tokens keep their order: a comma splits a line into two independently
      parsed halves. */
  lemma ParseLineConcat(a: string, b: string)
    ensures ParseLine(a + [','] + b) == ParseLine(a) + ParseLine(b)
  {
    SplitConcat(a, ',', b);
    FilterMapAppend(ParseToken, Split(a, ','), Split(b, ','));
  }

  /** Lines keep their order: a newline splits the text into two
      independently parsed halves. */
  lemma ParseFixedSetsConcat(a: string, b: string)
    ensures ParseFixedSets(a + ['\n'] + b) == ParseFixedSets(a) + ParseFixedSets(b)
  {
    SplitConcat(a, '\n', b);
    FilterMapAppend(ParseLineEntry, Split(a, '\n'), Split(b, '\n'));
  }

  /** A token that is a number's decimal form parses back to the number. */
  lemma ParseTokenOfNat(n: nat)
    ensures ParseToken(NatToString(n)) == Some(n)
  {
    var s := NatToString(n);
    TrimUnchanged(s);
    DigitsRoundTrip(n);
  }

  /** A number's decimal form, alone on a line, parses to that one number. */
  lemma ParseLineOfNat(n: nat)
    ensures ParseLine(NatToString(n)) == [n]
  {
    assert ',' !in NatToString(n);
    SplitWithout(NatToString(n), ',');
    ParseTokenOfNat(n);
    FilterMapSingle(ParseToken, NatToString(n));
  }

  /** A leading space does not change how a line parses. */
  lemma ParseLineSkipsSpace(t: string)
    ensures ParseLine([' '] + t) == ParseLine(t)
  {
    var pieces := Split(t, ',');
    SplitPrepend(' ', t, ',');
    assert pieces == [pieces[0]] + pieces[1..];
    TrimSkipsSpace(' ', pieces[0]);
    FilterMapAppend(ParseToken, [[' '] + pieces[0]], pieces[1..]);
    FilterMapAppend(ParseToken, [pieces[0]], pieces[1..]);
    FilterMapSingle(ParseToken, [' '] + pieces[0]);
    FilterMapSingle(ParseToken, pieces[0]);
  }

  /** The items of a list of two or more: the first, a comma, a space,
      then the items of the rest. */
  lemma ItemsCons(xs: seq<int>)
    requires |xs| >= 2
    ensures ListItems(xs) == IntToString(xs[0]) + [','] + ([' '] + ListItems(xs[1..]))
  {
    assert Map(IntToString, xs)[1..] == Map(IntToString, xs[1..]);
  }

  /** The inductive step of `ParseLineOfItems`: one more leading number. */
  lemma ParseLineOfItemsStep(head: nat, tail: seq<int>)
    requires |tail| > 0
    requires ParseLine(ListItems(tail)) == tail
    ensures ParseLine(ListItems([head] + tail)) == [head] + tail
  {
    var xs := [head] + tail;
    assert xs[0] == head && xs[1..] == tail;
    var rest := ListItems(tail);
    ItemsCons(xs);
    ParseLineConcat(NatToString(head), [' '] + rest);
    ParseLineOfNat(head);
    ParseLineSkipsSpace(rest);
  }

  /** Printing a list of non-negative integers the way Python prints its
      items and parsing the result as a line gives the list back. */
  lemma {:induction false} ParseLineOfItems(xs: seq<int>)
    requires forall k :: 0 <= k < |xs| ==> xs[k] >= 0
    ensures ParseLine(ListItems(xs)) == xs
    decreases |xs|
  {
    if |xs| == 0 {
      assert ListItems(xs) == "";
      assert ParseToken("") == None;
      FilterMapSingle(ParseToken, "");
    } else if |xs| == 1 {
      ParseLineOfNat(xs[0]);
    } else {
      ParseLineOfItems(xs[1..]);
      ParseLineOfItemsStep(xs[0], xs[1..]);
      assert [xs[0]] + xs[1..] == xs;
    }
  }

  /** The printed items of a non-empty list of non-negative integers hold
      neither a newline nor only whitespace. */
  lemma ItemsLine(xs: seq<int>)
    requires |xs| > 0
    requires forall k :: 0 <= k < |xs| ==> xs[k] >= 0
    ensures '\n' !in ListItems(xs)
    ensures !IsBlank(ListItems(xs))
  {
    var strs := Map(IntToString, xs);
    forall k | 0 <= k < |strs|
      ensures '\n' !in strs[k]
    {
      assert '\n' !in NatToString(xs[k]);
    }
    JoinWithout(strs, ", ", '\n');
    var s := ListItems(xs);
    assert s[0] == NatToString(xs[0])[0];
    assert !AllSpace(s) by {
      assert !IsSpace(s[0]);
    }
  }

  /** Each printed set, as a line, parses back to the set. */
  lemma {:induction false} ParseItemLines(sets: seq<seq<int>>)
    requires forall k :: 0 <= k < |sets| ==> |sets[k]| > 0
    requires forall k, j :: 0 <= k < |sets| && 0 <= j < |sets[k]| ==> sets[k][j] >= 0
    ensures FilterMap(ParseLineEntry, Map(ListItems, sets)) == sets
    decreases |sets|
  {
    if |sets| > 0 {
      var lines := Map(ListItems, sets);
      var first, others := lines[0], Map(ListItems, sets[1..]);
      assert lines == [first] + others;
      ItemsLine(sets[0]);
      ParseLineOfItems(sets[0]);
      assert ParseLineEntry(first) == Some(sets[0]);
      FilterMapAppend(ParseLineEntry, [first], others);
      FilterMapSingle(ParseLineEntry, first);
      ParseItemLines(sets[1..]);
      assert [sets[0]] + sets[1..] == sets;
    }
  }

  /** Writing non-empty sets of non-negative integers into the input box in
      its own format and parsing the box gives the same sets back. */
  lemma ParseFormatRoundTrip(sets: seq<seq<int>>)
    requires forall k :: 0 <= k < |sets| ==> |sets[k]| > 0
    requires forall k, j :: 0 <= k < |sets| && 0 <= j < |sets[k]| ==> sets[k][j] >= 0
    ensures ParseFixedSets(FormatFixedSets(sets)) == sets
  {
    var lines := Map(ListItems, sets);
    if |sets| == 0 {
      assert FormatFixedSets(sets) == "";
      assert IsBlank("");
      FilterMapSingle(ParseLineEntry, "");
    } else {
      forall k | 0 <= k < |lines|
        ensures '\n' !in lines[k]
      {
        ItemsLine(sets[k]);
      }
      SplitJoin(lines, '\n');
      ParseItemLines(sets);
    }
  }

  /** A non-numeric token is dropped and the rest of the line still parses:
      `"foo,1,2"` gives the numbers of `"1,2"`. */
  lemma ParseLineDropsToken(w: string, t: string)
    requires ',' !in w
    requires !IsDigits(Trim(w))
    ensures ParseLine(w + [','] + t) == ParseLine(t)
  {
    ParseLineConcat(w, t);
    SplitWithout(w, ',');
    FilterMapSingle(ParseToken, w);
  }

  /** A whitespace-only line contributes no set, wherever it stands. */
  lemma ParseFixedSetsDropsBlank(w: string, t: string)
    requires '\n' !in w
    requires AllSpace(w)
    ensures ParseFixedSets(w + ['\n'] + t) == ParseFixedSets(t)
  {
    ParseFixedSetsConcat(w, t);
    SplitWithout(w, '\n');
    FilterMapSingle(ParseLineEntry, w);
  }
}
