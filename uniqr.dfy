/// uniqr: the loop of `run` reads its input line by line and writes one
/// record per run of adjacent lines that are equal once trailing whitespace
/// is removed, optionally prefixed with the length of the run.
module Uniqr {
  import opened Text
  import opened LineReader

  /** A run of adjacent lines: the text written for it and how many lines
      it holds. */
  datatype Group = Group(text: string, n: nat)

  /** The runs of ls, as run-length encoding by `trim_end` content: a line
      whose trimmed form matches the last run's joins it, any other line
      starts a run of its own. */
  function Groups(ls: seq<string>): (gs: seq<Group>)
    ensures |gs| <= |ls|
    ensures gs == [] <==> ls == []
    decreases |ls|
  {
    if ls == [] then [] else AddLine(Groups(ls[..|ls| - 1]), ls[|ls| - 1])
  }

  /** The runs after one more line. The text of a run is its first line,
      except that a run of blank lines at the very start has the text ""
      (the loop starts with `prev` empty, and such lines match it). */
  function AddLine(gs: seq<Group>, line: string): (gs': seq<Group>)
    ensures |gs'| == |gs| || |gs'| == |gs| + 1
    ensures gs' != []
    ensures gs != [] ==> gs'[..|gs| - 1] == gs[..|gs| - 1]
    ensures |gs'| == |gs| + 1 ==> gs'[|gs|].n == 1
  {
    if gs == [] then [Group(if TrimEnd(line) == "" then "" else line, 1)]
    else
      var last := gs[|gs| - 1];
      if TrimEnd(line) == TrimEnd(last.text) then gs[..|gs| - 1] + [Group(last.text, last.n + 1)]
      else gs + [Group(line, 1)]
  }

  /** The number of lines in the runs gs. */
  function Total(gs: seq<Group>): nat {
    if gs == [] then 0 else Total(gs[..|gs| - 1]) + gs[|gs| - 1].n
  }

  /** Each run stands for its length's worth of copies of its trimmed text. */
  function Expand(gs: seq<Group>): seq<string> {
    if gs == [] then [] else Expand(gs[..|gs| - 1]) + seq(gs[|gs| - 1].n, _ => TrimEnd(gs[|gs| - 1].text))
  }

  function Trimmed(ls: seq<string>): (ts: seq<string>)
    ensures |ts| == |ls|
    ensures forall i | 0 <= i < |ls| :: ts[i] == TrimEnd(ls[i])
  {
    if ls == [] then [] else Trimmed(ls[..|ls| - 1]) + [TrimEnd(ls[|ls| - 1])]
  }

  lemma GroupsSnoc(ls: seq<string>, line: string)
    ensures Groups(ls + [line]) == AddLine(Groups(ls), line)
  {
    assert (ls + [line])[..|ls|] == ls;
  }

  lemma AddLineTotal(gs: seq<Group>, line: string)
    ensures Total(AddLine(gs, line)) == Total(gs) + 1
  {
    var gs' := AddLine(gs, line);
    if gs != [] && TrimEnd(line) == TrimEnd(gs[|gs| - 1].text) {
      assert gs'[..|gs'| - 1] == gs[..|gs| - 1];
    } else if gs != [] {
      assert gs'[..|gs'| - 1] == gs;
    }
  }

  /** Every line read is counted exactly once: the runs' lengths add up to
      the number of lines. */
  lemma {:induction false} GroupsTotal(ls: seq<string>)
    ensures Total(Groups(ls)) == |ls|
    decreases |ls|
  {
    if ls != [] {
      GroupsTotal(ls[..|ls| - 1]);
      AddLineTotal(Groups(ls[..|ls| - 1]), ls[|ls| - 1]);
    }
  }

  /** No run is empty: write_line is only ever given n > 0 for a run that
      holds lines. */
  lemma {:induction false} GroupsPositive(ls: seq<string>)
    ensures forall k | 0 <= k < |Groups(ls)| :: Groups(ls)[k].n > 0
    decreases |ls|
  {
    if ls != [] {
      GroupsPositive(ls[..|ls| - 1]);
    }
  }

  predicate AdjacentDiffer(gs: seq<Group>) {
    forall k | 0 <= k < |gs| - 1 :: TrimEnd(gs[k].text) != TrimEnd(gs[k + 1].text)
  }

  lemma AddLineAdjacentDiffer(gs: seq<Group>, line: string)
    requires AdjacentDiffer(gs)
    ensures AdjacentDiffer(AddLine(gs, line))
  {
    var gs' := AddLine(gs, line);
    if gs != [] && TrimEnd(line) == TrimEnd(gs[|gs| - 1].text) {
      assert forall k | 0 <= k < |gs'| :: gs'[k].text == gs[k].text;
    } else if gs != [] {
      assert forall k | 0 <= k < |gs| :: gs'[k] == gs[k];
    }
  }

  /** A run ends only where the trimmed content changes: adjacent runs
      differ after `trim_end`. */
  lemma {:induction false} GroupsAdjacentDiffer(ls: seq<string>)
    ensures forall k | 0 <= k < |Groups(ls)| - 1 ::
      TrimEnd(Groups(ls)[k].text) != TrimEnd(Groups(ls)[k + 1].text)
    decreases |ls|
  {
    if ls != [] {
      GroupsAdjacentDiffer(ls[..|ls| - 1]);
      AddLineAdjacentDiffer(Groups(ls[..|ls| - 1]), ls[|ls| - 1]);
    }
  }

  lemma AddLineExpand(gs: seq<Group>, line: string)
    ensures Expand(AddLine(gs, line)) == Expand(gs) + [TrimEnd(line)]
  {
    var gs' := AddLine(gs, line);
    var last := gs'[|gs'| - 1];
    assert Expand(gs') == Expand(gs'[..|gs'| - 1]) + seq(last.n, _ => TrimEnd(last.text));
    if gs == [] {
      assert gs'[..|gs'| - 1] == [];
    } else if TrimEnd(line) == TrimEnd(gs[|gs| - 1].text) {
      var prior := gs[|gs| - 1];
      assert gs'[..|gs'| - 1] == gs[..|gs| - 1];
      assert seq(last.n, _ => TrimEnd(last.text)) == seq(prior.n, _ => TrimEnd(prior.text)) + [TrimEnd(line)];
    } else {
      assert gs'[..|gs'| - 1] == gs;
    }
  }

  /** Nothing is lost or reordered: repeating each run's trimmed text as
      often as its length gives back the trimmed input lines. */
  lemma {:induction false} GroupsExpand(ls: seq<string>)
    ensures Expand(Groups(ls)) == Trimmed(ls)
    decreases |ls|
  {
    if ls != [] {
      var init, line := ls[..|ls| - 1], ls[|ls| - 1];
      GroupsExpand(init);
      AddLineExpand(Groups(init), line);
    }
  }

  /** The texts of gs are those GroupsText promises for the lines ls. */
  predicate OpeningLines(gs: seq<Group>, ls: seq<string>) {
    forall k | 0 <= k < |gs| ::
      && Total(gs[..k]) < |ls|
      && gs[k].text == if k == 0 && TrimEnd(ls[0]) == "" then "" else ls[Total(gs[..k])]
  }

  lemma AddLineOpeningLines(gs: seq<Group>, ls: seq<string>, line: string)
    requires OpeningLines(gs, ls)
    requires Total(gs) == |ls|
    requires gs == [] <==> ls == []
    ensures OpeningLines(AddLine(gs, line), ls + [line])
  {
    var gs', ls' := AddLine(gs, line), ls + [line];
    if gs == [] {
      assert gs'[..0] == [];
    } else {
      assert ls'[0] == ls[0];
      forall k | 0 <= k < |gs'|
        ensures Total(gs'[..k]) < |ls'|
        ensures gs'[k].text == if k == 0 && TrimEnd(ls'[0]) == "" then "" else ls'[Total(gs'[..k])]
      {
        if k < |gs| {
          assert gs'[..k] == gs[..k];
        } else {
          assert gs'[..k] == gs;
        }
      }
    }
  }

  /** The text of each run is the line that opened it (`prev = line.clone()`),
      found at the run's starting position; a leading run of blank lines has
      the text "" instead. */
  lemma {:induction false} GroupsText(ls: seq<string>)
    ensures forall k | 0 <= k < |Groups(ls)| ::
      && Total(Groups(ls)[..k]) < |ls|
      && Groups(ls)[k].text ==
           if k == 0 && TrimEnd(ls[0]) == "" then "" else ls[Total(Groups(ls)[..k])]
    decreases |ls|
  {
    if ls != [] {
      var init, line := ls[..|ls| - 1], ls[|ls| - 1];
      assert ls == init + [line];
      GroupsText(init);
      GroupsTotal(init);
      AddLineOpeningLines(Groups(init), init, line);
    }
  }

  /** The `write_line` closure: a run of n lines whose text is text is
      written as one record, with its length in a field of four when count
      is set; nothing is written when n is 0. */
  function WriteLine(text: string, n: nat, count: bool): (written: seq<string>)
    ensures n == 0 <==> written == []
    ensures n > 0 && !count ==> written == [text]
    ensures n > 0 && count ==> |written| == 1 && |written[0]| > |text| && written[0][|written[0]| - |text|..] == text
  {
    if n > 0 then [Record(Group(text, n), count)] else []
  }

  /** The record written for a run. */
  function Record(g: Group, count: bool): (r: string)
    ensures !count ==> r == g.text
    ensures count ==> |r| >= 5 + |g.text| && r[|r| - |g.text| - 1..] == " " + g.text
  {
    if count then PadLeft(Show(g.n), 4) + " " + g.text else g.text
  }

  /** With count set, a run shorter than 10^4 lines is written as its length
      right-aligned in four columns, a space, then its text. */
  lemma CountedRecord(g: Group)
    requires g.n < 10_000
    ensures var r := Record(g, true);
      && |r| == 5 + |g.text|
      && r[4] == ' '
      && r[5..] == g.text
      && |Show(g.n)| <= 4
      && r[4 - |Show(g.n)|..4] == Show(g.n)
      && forall i | 0 <= i < 4 - |Show(g.n)| :: r[i] == ' '
  {
    assert Pow10(4) == 10_000;
    ShowWidth(g.n, 4);
    var r := Record(g, true);
    var field := PadLeft(Show(g.n), 4);
    PadLeftSpec(Show(g.n), 4);
    assert |field| == 4;
    assert r == field + " " + g.text;
    assert r[..4] == field;
    assert r[4 - |Show(g.n)|..4] == field[4 - |Show(g.n)|..];
  }

  /** Everything run writes for the runs gs, one record each. */
  function Rendered(gs: seq<Group>, count: bool): (out: seq<string>)
    ensures |out| == |gs|
    ensures forall k | 0 <= k < |gs| :: out[k] == Record(gs[k], count)
  {
    seq(|gs|, k requires 0 <= k < |gs| => Record(gs[k], count))
  }

  /** The runs written once the open run prev (of nObs lines) is closed. */
  function Closed(flushed: seq<Group>, prev: string, nObs: nat): seq<Group> {
    if nObs > 0 then flushed + [Group(prev, nObs)] else flushed
  }

  /** Closing the open run writes exactly its record. */
  lemma WriteClosed(flushed: seq<Group>, prev: string, nObs: nat, count: bool)
    ensures Rendered(flushed, count) + WriteLine(prev, nObs, count) == Rendered(Closed(flushed, prev, nObs), count)
  {
  }

  /** One pass of the loop body. Before it, the runs of the lines done are
      the flushed (written) runs followed by the open run, prev with nObs
      lines; before the first line prev is empty and nObs is 0. A line whose
      trimmed form differs from prev's closes the open run and opens one of
      its own; any other line joins the open run. Afterwards the runs of
      done + [line] are again the flushed runs and the open one. */
  lemma RunStep(done: seq<string>, flushed: seq<Group>, prev: string, nObs: nat, line: string,
                flushed': seq<Group>, prev': string, nObs': nat)
    requires nObs == 0 <==> done == []
    requires done == [] ==> prev == "" && flushed == []
    requires done != [] ==> Groups(done) == flushed + [Group(prev, nObs)]
    requires TrimEnd(line) != TrimEnd(prev) ==>
      flushed' == Closed(flushed, prev, nObs) && prev' == line && nObs' == 1
    requires TrimEnd(line) == TrimEnd(prev) ==>
      flushed' == flushed && prev' == prev && nObs' == nObs + 1
    ensures nObs' > 0
    ensures Groups(done + [line]) == flushed' + [Group(prev', nObs')]
  {
    GroupsSnoc(done, line);
    if done == [] {
      assert TrimEnd(prev) == "";
      if TrimEnd(line) != "" {
        assert Groups(done + [line]) == [Group(line, 1)];
      } else {
        assert Groups(done + [line]) == [Group("", 1)];
      }
    } else {
      var gs := flushed + [Group(prev, nObs)];
      assert gs[|gs| - 1] == Group(prev, nObs);
      assert gs[..|gs| - 1] == flushed;
      if TrimEnd(line) != TrimEnd(prev) {
        assert Groups(done + [line]) == gs + [Group(line, 1)];
      } else {
        assert Groups(done + [line]) == flushed + [Group(prev, nObs + 1)];
      }
    }
  }

  /** At the end of the input, closing the open run leaves every run
      flushed. */
  lemma RunEnd(done: seq<string>, flushed: seq<Group>, prev: string, nObs: nat)
    requires nObs == 0 <==> done == []
    requires done == [] ==> prev == "" && flushed == []
    requires done != [] ==> Groups(done) == flushed + [Group(prev, nObs)]
    ensures Closed(flushed, prev, nObs) == Groups(done)
  {
  }

  /** Reading one more line moves it from what is left to what is done. */
  lemma NextLine(done: seq<string>, rest: string)
    requires rest != []
    ensures var line := ReadLine(rest);
      done + Lines(rest) == (done + [line]) + Lines(rest[|line|..])
  {
  }

  /** The loop of `run` (and its final write_line) over the whole input:
      it writes one record per run of Groups, in order. */
  method Run(input: string, count: bool) returns (out: seq<string>)
    ensures out == Rendered(Groups(Lines(input)), count)
  {
    out := [];
    var line := "";
    var prev := "";
    var nObs: nat := 0;
    var rest := input;
    ghost var done: seq<string> := [];
    ghost var flushed: seq<Group> := [];
    while true
      invariant line == ""
      invariant done + Lines(rest) == Lines(input)
      invariant nObs == 0 <==> done == []
      invariant done == [] ==> prev == "" && flushed == []
      invariant done != [] ==> Groups(done) == flushed + [Group(prev, nObs)]
      invariant out == Rendered(flushed, count)
      decreases |rest|
    {
      var chunk := ReadLine(rest);
      line := line + chunk;
      assert line == chunk;
      if |chunk| == 0 {
        break;
      }
      NextLine(done, rest);
      rest := rest[|line|..];
      ghost var flushed0, prev0, nObs0 := flushed, prev, nObs;
      if TrimEnd(line) != TrimEnd(prev) {
        WriteClosed(flushed, prev, nObs, count);
        out := out + WriteLine(prev, nObs, count);
        flushed := Closed(flushed, prev, nObs);
        prev := line;
        nObs := 0;
      }
      nObs := nObs + 1;
      RunStep(done, flushed0, prev0, nObs0, line, flushed, prev, nObs);
      done := done + [line];
      line := "";
    }
    assert done == Lines(input);
    RunEnd(done, flushed, prev, nObs);
    WriteClosed(flushed, prev, nObs, count);
    out := out + WriteLine(prev, nObs, count);
  }
}
