/**
 * `execute_builder.py`: find the partners of a creature and print the ten best as
 * table lines. The console is modelled by the sequence of lines printed.
 */
module ExecuteBuilder {
  import opened Outcome
  import opened PyDict
  import opened PyText
  import opened Pokedex
  import opened PartnerSearch

  /**
   * The line printed for the entry at position `count`: its rank `count + 1`, its
   * name verbatim and its score, which `fmt` renders as `round(score, 5)` with five
   * decimals.
   */
  function PrintedLine(count: nat, entry: (string, real), fmt: real -> string): string {
    "|" + DecimalString(count + 1) + " \t|\t " + entry.0 + " \t|\t Score = " + fmt(entry.1) + " \t|"
  }

  /**
   * The print loop, which breaks when `count` reaches 10: one line for each of the
   * first min(10, n) entries, in order, ranked 1, 2, ... consecutively.
   */
  method PrintTopTen(partners: Scores, fmt: real -> string) returns (lines: seq<string>)
    ensures |lines| == Min(10, |partners|)
    ensures forall k :: 0 <= k < |lines| ==> lines[k] == PrintedLine(k, partners[k], fmt)
  {
    lines := [];
    var count := 0;
    while count < |partners|
      invariant 0 <= count <= |partners| && count <= 10
      invariant |lines| == count
      invariant forall k :: 0 <= k < count ==> lines[k] == PrintedLine(k, partners[k], fmt)
    {
      if count == 10 {
        break;
      } else {
        var pokemon := partners[count].0;
        lines := lines + ["|" + DecimalString(count + 1) + " \t|\t " + pokemon + " \t|\t Score = " + fmt(partners[count].1) + " \t|"];
      }
      count := count + 1;
    }
  }

  /**
   * `find_partner(mon, dex)`: the printed lines rank the first min(10, |dex|)
   * entries of the ranking (every dex creature scored, sorted best first, ties in
   * dex order). The query name is used as given; absent from a non-empty dex it
   * raises KeyError and nothing is printed.
   */
  method FindPartner(mon: string, dex: Dex, score: Scorer, fmt: real -> string) returns (r: Result<seq<string>>)
    requires Valid(dex)
    ensures r.Failure? <==> dex != [] && Get(dex, mon).None?
    ensures r.Failure? ==> r.error == KeyError(mon)
    ensures r.Success? ==> RankPartners(mon, dex, score).Success?
    ensures r.Success? ==> |r.value| == Min(10, |dex|)
    ensures r.Success? ==> forall k :: 0 <= k < |r.value| ==>
      r.value[k] == PrintedLine(k, RankPartners(mon, dex, score).value[k], fmt)
  {
    var scored := ScorePartners(mon, dex, score);
    if scored.Failure? {
      return Failure(scored.error);
    }
    var partners := SortByScore(scored.value);
    var lines := PrintTopTen(partners, fmt);
    return Success(lines);
  }
}
