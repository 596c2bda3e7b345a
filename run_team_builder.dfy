/**
 * `run_team_builder.py`: find the ten best partners of a creature and write them
 * as a fixed-width table to a results file. The file is modelled by the sequence
 * of strings written to it, in order.
 */
module RunTeamBuilder {
  import opened Outcome
  import opened PyDict
  import opened PyText
  import opened Pokedex
  import opened PartnerSearch

  /** The length of the longest key, 0 for an empty dict. */
  function LongestKey(scores: Scores): nat {
    if scores == [] then 0
    else
      var rest := LongestKey(scores[..|scores| - 1]);
      var last := |scores[|scores| - 1].0|;
      if last > rest then last else rest
  }

  /** At least the length of every key and equal to the length of some key, or 0 when there are none. */
  lemma {:induction false} LongestKeyBounds(scores: Scores)
    ensures forall i :: 0 <= i < |scores| ==> |scores[i].0| <= LongestKey(scores)
    ensures scores == [] ==> LongestKey(scores) == 0
    ensures scores != [] ==> exists i :: 0 <= i < |scores| && |scores[i].0| == LongestKey(scores)
  {
    if scores != [] {
      var front := scores[..|scores| - 1];
      LongestKeyBounds(front);
      assert forall i :: 0 <= i < |front| ==> scores[i] == front[i];
    }
  }

  /**
   * The `max_len` loop of `save_results`: at least the length of every key and
   * equal to the length of some key, or 0 when there are no keys.
   */
  method MaxKeyLength(scores: Scores) returns (maxLen: nat)
    ensures forall i :: 0 <= i < |scores| ==> |scores[i].0| <= maxLen
    ensures scores == [] ==> maxLen == 0
    ensures scores != [] ==> exists i :: 0 <= i < |scores| && |scores[i].0| == maxLen
    ensures maxLen == LongestKey(scores)
  {
    maxLen := 0;
    var i := 0;
    while i < |scores|
      invariant 0 <= i <= |scores|
      invariant maxLen == LongestKey(scores[..i])
    {
      assert scores[..i + 1][..i] == scores[..i];
      if |scores[i].0| > maxLen {
        maxLen := |scores[i].0|;
      }
      i := i + 1;
    }
    assert scores[..i] == scores;
    LongestKeyBounds(scores);
  }

  /** `'-' * n` */
  function Dashes(n: nat): (r: string)
    ensures |r| == n && forall i :: 0 <= i < n ==> r[i] == '-'
  {
    seq(n, _ => '-')
  }

  /** `' ' * n`, which is empty for a negative `n`. */
  function Spaces(n: int): (r: string)
    ensures |r| == (if n <= 0 then 0 else n) && forall i :: 0 <= i < |r| ==> r[i] == ' '
  {
    if n <= 0 then "" else seq(n, _ => ' ')
  }

  /** `pokemon + ' ' * (max_len - len(pokemon))` */
  function Padded(name: string, width: nat): (r: string)
    ensures |r| >= |name| && r[..|name|] == name
    ensures |name| <= width ==> |r| == width
  {
    name + Spaces(width - |name|)
  }

  /** The three strings written for the entry at position `count`. */
  function RowChunks(count: nat, entry: (string, real), width: nat, fmt: real -> string): seq<string> {
    ["|  " + DecimalString(count + 1) + "\t|",
     "  " + Padded(entry.0, width) + "\t|",
     "  Score = " + fmt(entry.1) + "\t|\n"]
  }

  /** The strings written for the first `n` entries. */
  function Rows(scores: Scores, n: nat, width: nat, fmt: real -> string): (r: seq<string>)
    requires n <= |scores|
    ensures |r| == 3 * n
  {
    if n == 0 then [] else Rows(scores, n - 1, width, fmt) + RowChunks(n - 1, scores[n - 1], width, fmt)
  }

  /** The title line, the opening rule and its line break. */
  function Opening(mon: string, width: nat): seq<string> {
    ["Results for " + mon + ":\n", Dashes(width + 31), "\n"]
  }

  /** Writing the next entry's chunks after the first `n` rows gives the first `n + 1`. */
  lemma RowsSnoc(opening: seq<string>, scores: Scores, n: nat, width: nat, fmt: real -> string)
    requires n < |scores|
    ensures opening + Rows(scores, n, width, fmt) + RowChunks(n, scores[n], width, fmt) == opening + Rows(scores, n + 1, width, fmt)
  {
    assert Rows(scores, n + 1, width, fmt) == Rows(scores, n, width, fmt) + RowChunks(n, scores[n], width, fmt);
  }

  /** The complete sequence of writes `save_results` makes; `fmt` renders `{:.5f}`. */
  function ReportText(mon: string, scores: Scores, fmt: real -> string): seq<string> {
    Opening(mon, LongestKey(scores)) + Rows(scores, |scores|, LongestKey(scores), fmt) + [Dashes(LongestKey(scores) + 31)]
  }

  lemma {:induction false} RowsAt(scores: Scores, n: nat, width: nat, fmt: real -> string, k: nat)
    requires k < n <= |scores|
    ensures Rows(scores, n, width, fmt)[3 * k .. 3 * k + 3] == RowChunks(k, scores[k], width, fmt)
  {
    var prev := Rows(scores, n - 1, width, fmt);
    if k < n - 1 {
      RowsAt(scores, n - 1, width, fmt, k);
      assert (prev + RowChunks(n - 1, scores[n - 1], width, fmt))[3 * k .. 3 * k + 3] == prev[3 * k .. 3 * k + 3];
    } else {
      assert (prev + RowChunks(n - 1, scores[n - 1], width, fmt))[3 * k .. 3 * k + 3] == RowChunks(k, scores[k], width, fmt);
    }
  }

  /**
   * The frame of the results file: a title, a rule of `max_len + 31` dashes, three
   * lines per entry, and a closing rule equal to the first.
   */
  lemma ReportRules(mon: string, scores: Scores, fmt: real -> string)
    ensures |ReportText(mon, scores, fmt)| == 3 * |scores| + 4
    ensures ReportText(mon, scores, fmt)[1] == ReportText(mon, scores, fmt)[3 * |scores| + 3]
    ensures |ReportText(mon, scores, fmt)[1]| == LongestKey(scores) + 31
    ensures forall i :: 0 <= i < LongestKey(scores) + 31 ==> ReportText(mon, scores, fmt)[1][i] == '-'
  {
    var w := LongestKey(scores);
    var rule := Dashes(w + 31);
    var head := Opening(mon, w) + Rows(scores, |scores|, w, fmt);
    assert |head| == 3 * |scores| + 3;
    assert head[1] == rule;
    assert ReportText(mon, scores, fmt) == head + [rule];
  }

  /**
   * The row of entry `k` in the results file: numbered `k + 1` in the dict's order,
   * the name padded to exactly `max_len` characters, then the formatted score.
   */
  lemma ReportRow(mon: string, scores: Scores, fmt: real -> string, k: nat)
    requires k < |scores|
    ensures ReportText(mon, scores, fmt)[3 + 3 * k] == "|  " + DecimalString(k + 1) + "\t|"
    ensures ReportText(mon, scores, fmt)[4 + 3 * k] == "  " + Padded(scores[k].0, LongestKey(scores)) + "\t|"
    ensures |Padded(scores[k].0, LongestKey(scores))| == LongestKey(scores)
    ensures ReportText(mon, scores, fmt)[5 + 3 * k] == "  Score = " + fmt(scores[k].1) + "\t|\n"
  {
    var w := LongestKey(scores);
    var opening := Opening(mon, w);
    var rows := Rows(scores, |scores|, w, fmt);
    var closing := [Dashes(w + 31)];
    var chunks := RowChunks(k, scores[k], w, fmt);
    RowsAt(scores, |scores|, w, fmt, k);
    assert rows[3 * k] == chunks[0] && rows[3 * k + 1] == chunks[1] && rows[3 * k + 2] == chunks[2];
    assert ReportText(mon, scores, fmt) == opening + rows + closing;
    Framed(opening, rows, closing, 3 + 3 * k);
    Framed(opening, rows, closing, 4 + 3 * k);
    Framed(opening, rows, closing, 5 + 3 * k);
    LongestKeyBounds(scores);
  }

  lemma Framed(opening: seq<string>, rows: seq<string>, closing: seq<string>, j: nat)
    requires |opening| <= j < |opening| + |rows|
    ensures (opening + rows + closing)[j] == rows[j - |opening|]
  {
  }

  /** `save_results`: the writes it makes to the results file, in order. */
  method SaveResults(mon: string, scores: Scores, fmt: real -> string) returns (written: seq<string>)
    ensures written == ReportText(mon, scores, fmt)
  {
    var maxLen := MaxKeyLength(scores);
    written := Opening(mon, maxLen);
    var count := 0;
    while count < |scores|
      invariant 0 <= count <= |scores|
      invariant written == Opening(mon, maxLen) + Rows(scores, count, maxLen, fmt)
    {
      var pokemon := scores[count].0;
      var spaces := Spaces(maxLen - |pokemon|);
      var row := ["|  " + DecimalString(count + 1) + "\t|",
                  "  " + (pokemon + spaces) + "\t|",
                  "  Score = " + fmt(scores[count].1) + "\t|\n"];
      assert row == RowChunks(count, scores[count], maxLen, fmt);
      RowsSnoc(Opening(mon, maxLen), scores, count, maxLen, fmt);
      written := written + row;
      count := count + 1;
    }
    written := written + [Dashes(maxLen + 31)];
  }

  /**
   * The loop that copies partners into `partners_new` and breaks after the entry at
   * position 9: the first min(10, n) entries, in order.
   */
  method KeepFirstTen(partners: Scores) returns (kept: Scores)
    requires Valid(partners)
    ensures kept == partners[..Min(10, |partners|)]
    ensures |kept| == Min(10, |partners|)
  {
    kept := [];
    var count := 0;
    while count < |partners|
      invariant 0 <= count <= |partners| && count <= 9
      invariant kept == partners[..count]
    {
      var pokemon := partners[count].0;
      assert forall i :: 0 <= i < |kept| ==> kept[i].0 != pokemon;
      kept := Put(kept, pokemon, partners[count].1);
      assert kept == partners[..count + 1];
      if count == 9 {
        return;
      }
      count := count + 1;
    }
  }

  /**
   * `find_partner(mon, dex, results_path)`: the kept partners are the first
   * min(10, |dex|) entries of the ranking (every dex creature scored, sorted best
   * first, ties in dex order), and the results file holds their table. An absent
   * query in a non-empty dex raises KeyError and nothing is written.
   */
  method FindPartner(mon: string, dex: Dex, score: Scorer, fmt: real -> string)
    returns (r: Result<Scores>, written: seq<string>)
    requires Valid(dex)
    ensures r.Failure? <==> dex != [] && Get(dex, mon).None?
    ensures r.Failure? ==> r.error == KeyError(mon) && written == []
    ensures r.Success? ==> RankPartners(mon, dex, score).Success?
    ensures r.Success? ==> r.value == RankPartners(mon, dex, score).value[..Min(10, |dex|)]
    ensures r.Success? ==> |r.value| == Min(10, |dex|)
    ensures r.Success? ==> written == ReportText(mon, r.value, fmt)
  {
    var scored := ScorePartners(mon, dex, score);
    if scored.Failure? {
      return Failure(scored.error), [];
    }
    var partners := SortByScore(scored.value);
    SortValid(scored.value);
    var kept := KeepFirstTen(partners);
    written := SaveResults(mon, kept, fmt);
    return Success(kept), written;
  }
}
