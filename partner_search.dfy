/**
 * The partner-search rule shared by both runner scripts: score every creature of
 * the dex against the query creature, then sort by score, lowest (best) first,
 * keeping the dex order among equal scores.
 */
module PartnerSearch {
  import opened Outcome
  import opened PyDict
  import opened Pokedex

  /**
   * The scorer, applied to the query's and the candidate's type lists. It is total:
   * type synergy is such a scorer only on type data where every type resolves.
   */
  type Scorer = (seq<string>, seq<string>) -> real

  /** Candidate names with their scores, as an ordered dict. */
  type Scores = Dict<string, real>

  function Min(a: nat, b: nat): nat {
    if a <= b then a else b
  }

  /** Every dex creature paired with its score against `query`, in dex order. */
  function ScoresAgainst(query: seq<string>, dex: Dex, score: Scorer): (r: Scores)
    ensures |r| == |dex|
  {
    seq(|dex|, i requires 0 <= i < |dex| => (dex[i].0, score(query, dex[i].1.types)))
  }

  /**
   * The scores of the loop `for pokemon in dex.keys(): partners[pokemon] =
   * type_synergy(dex[mon]['type'], dex[pokemon]['type'])`. The query is looked up
   * inside the loop, so an absent query raises KeyError only if the dex has a
   * creature at all.
   */
  function PartnerScores(mon: string, dex: Dex, score: Scorer): Result<Scores> {
    if dex == [] then Success([])
    else match Lookup(dex, mon)
      case Failure(e) => Failure(e)
      case Success(c) => Success(ScoresAgainst(c.types, dex, score))
  }

  /**
   * The scoring loop. Every dex creature, the query itself included, receives
   * exactly one score against the query creature, under its own name and in dex
   * order.
   */
  method ScorePartners(mon: string, dex: Dex, score: Scorer) returns (r: Result<Scores>)
    requires Valid(dex)
    ensures r == PartnerScores(mon, dex, score)
    ensures r.Success? ==> Valid(r.value) && Keys(r.value) == Keys(dex)
    ensures r.Success? ==> forall i :: 0 <= i < |dex| ==>
      r.value[i] == (dex[i].0, score(Get(dex, mon).value.types, dex[i].1.types))
    ensures r.Failure? <==> dex != [] && Get(dex, mon).None?
  {
    var partners: Scores := [];
    var count := 0;
    while count < |dex|
      invariant 0 <= count <= |dex|
      invariant count > 0 ==> Get(dex, mon).Some?
      invariant count > 0 ==> partners == ScoresAgainst(Get(dex, mon).value.types, dex[..count], score)
      invariant count == 0 ==> partners == []
    {
      var query := Lookup(dex, mon);
      if query.Failure? {
        return Failure(query.error);
      }
      var pokemon := dex[count].0;
      assert forall i :: 0 <= i < |partners| ==> partners[i].0 == dex[i].0 != pokemon;
      partners := Put(partners, pokemon, score(query.value.types, dex[count].1.types));
      assert dex[..count + 1][..count] == dex[..count];
      count := count + 1;
    }
    assert dex[..count] == dex;
    assert Keys(partners) == Keys(dex);
    return Success(partners);
  }

  /** Each score is at most the next one. */
  ghost predicate Ascending(s: Scores) {
    forall i :: 0 < i < |s| ==> s[i - 1].1 <= s[i].1
  }

  /** The entries of `s` whose score is `v`, in order. */
  function WithScore(s: Scores, v: real): Scores {
    if s == [] then [] else (if s[0].1 == v then [s[0]] else []) + WithScore(s[1..], v)
  }

  /** Insert `x` before the first entry whose score is at least its own. */
  function InsertByScore(x: (string, real), s: Scores): (r: Scores)
    requires Ascending(s)
    ensures |r| == |s| + 1
    ensures Ascending(r)
    ensures r[0] == x || (s != [] && r[0] == s[0])
  {
    if s == [] then [x]
    else if x.1 <= s[0].1 then [x] + s
    else [s[0]] + InsertByScore(x, s[1..])
  }

  /** Inserting adds `x` to the items and loses none. */
  lemma {:induction false} InsertPermutes(x: (string, real), s: Scores)
    requires Ascending(s)
    ensures multiset(InsertByScore(x, s)) == multiset(s) + multiset{x}
  {
    if s != [] && x.1 > s[0].1 {
      InsertPermutes(x, s[1..]);
      assert s == [s[0]] + s[1..];
    }
  }

  /**
   * `sorted(partners.items(), key=lambda item: item[1])`: ascending by score and a
   * permutation of the items, so the key set and each key's score are kept.
   */
  function SortByScore(s: Scores): (r: Scores)
    ensures multiset(r) == multiset(s)
    ensures |r| == |s|
    ensures Ascending(r)
  {
    if s == [] then []
    else
      assert s == [s[0]] + s[1..];
      InsertPermutes(s[0], SortByScore(s[1..]));
      InsertByScore(s[0], SortByScore(s[1..]))
  }

  lemma {:induction false} InsertValid(x: (string, real), s: Scores)
    requires Ascending(s) && Valid(s)
    requires forall i :: 0 <= i < |s| ==> s[i].0 != x.0
    ensures Valid(InsertByScore(x, s))
  {
    if s != [] && x.1 > s[0].1 {
      var t := InsertByScore(x, s[1..]);
      InsertValid(x, s[1..]);
      InsertPermutes(x, s[1..]);
      forall i | 0 <= i < |t| ensures t[i].0 != s[0].0 {
        assert t[i] in multiset(t);
        assert t[i] == x || t[i] in multiset(s[1..]);
      }
    }
  }

  /** Sorting a valid dict's items gives a valid dict. */
  lemma {:induction false} SortValid(s: Scores)
    requires Valid(s)
    ensures Valid(SortByScore(s))
  {
    if s != [] {
      var t := SortByScore(s[1..]);
      SortValid(s[1..]);
      forall i | 0 <= i < |t| ensures t[i].0 != s[0].0 {
        assert t[i] in multiset(s[1..]);
      }
      InsertValid(s[0], t);
    }
  }

  /** Ascending by successor means ascending between any two positions. */
  lemma {:induction false} AscendingPairwise(s: Scores, i: nat, j: nat)
    requires Ascending(s) && i <= j < |s|
    ensures s[i].1 <= s[j].1
    decreases j - i
  {
    if i < j {
      AscendingPairwise(s, i + 1, j);
    }
  }

  /** Filtering a list that starts with `a`. */
  lemma WithScoreCons(a: (string, real), t: Scores, v: real)
    ensures WithScore([a] + t, v) == (if a.1 == v then [a] else []) + WithScore(t, v)
  {
    assert ([a] + t)[1..] == t;
  }

  lemma {:induction false} InsertStable(x: (string, real), s: Scores, v: real)
    requires Ascending(s)
    ensures WithScore(InsertByScore(x, s), v) == (if x.1 == v then [x] else []) + WithScore(s, v)
  {
    if s == [] {
      WithScoreCons(x, [], v);
    } else if x.1 <= s[0].1 {
      WithScoreCons(x, s, v);
    } else {
      // `x` goes after `s[0]`, so at most one of the two has score `v`.
      var t := InsertByScore(x, s[1..]);
      InsertStable(x, s[1..], v);
      WithScoreCons(s[0], t, v);
      WithScoreCons(s[0], s[1..], v);
      assert [s[0]] + s[1..] == s;
      if s[0].1 == v {
        assert WithScore(t, v) == WithScore(s[1..], v);
      } else {
        assert WithScore(InsertByScore(x, s), v) == WithScore(t, v);
      }
    }
  }

  /**
   * The sort is stable: for every score, the entries with that score appear in the
   * same relative order before and after sorting.
   */
  lemma {:induction false} SortStable(s: Scores, v: real)
    ensures WithScore(SortByScore(s), v) == WithScore(s, v)
  {
    if s != [] {
      SortStable(s[1..], v);
      InsertStable(s[0], SortByScore(s[1..]), v);
    }
  }

  /** What `find_partner` ranks: the scores sorted best first, or the lookup error. */
  function RankPartners(mon: string, dex: Dex, score: Scorer): (r: Result<Scores>) {
    match PartnerScores(mon, dex, score)
    case Success(p) => Success(SortByScore(p))
    case Failure(e) => Failure(e)
  }

  /** The ranking holds every dex name once, best score first. */
  lemma RankPartnersProperties(mon: string, dex: Dex, score: Scorer)
    requires Valid(dex)
    requires RankPartners(mon, dex, score).Success?
    ensures Valid(RankPartners(mon, dex, score).value)
    ensures |RankPartners(mon, dex, score).value| == |dex|
    ensures forall i, j :: 0 <= i < j < |dex| ==>
      RankPartners(mon, dex, score).value[i].1 <= RankPartners(mon, dex, score).value[j].1
    ensures forall i :: 0 <= i < |dex| ==> exists j :: 0 <= j < |dex| && RankPartners(mon, dex, score).value[j].0 == dex[i].0
  {
    var p := PartnerScores(mon, dex, score).value;
    var r := SortByScore(p);
    if dex != [] {
      assert Valid(p) by {
        forall i, j | 0 <= i < j < |p| ensures p[i].0 != p[j].0 {
          assert p[i].0 == dex[i].0 && p[j].0 == dex[j].0;
        }
      }
      SortValid(p);
      forall i | 0 <= i < |dex| ensures exists j :: 0 <= j < |dex| && r[j].0 == dex[i].0 {
        assert p[i] in multiset(r);
        var j :| 0 <= j < |r| && r[j] == p[i];
      }
      forall i, j | 0 <= i < j < |r| ensures r[i].1 <= r[j].1 {
        AscendingPairwise(r, i, j);
      }
    }
  }
}
