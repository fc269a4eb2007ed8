/** Ranking capabilities for a query by fused ranks, availability and exact name (apps/marvins/discovery.py). */
module Ranking {
  import opened Basics
  import opened Sorting

  const RRF_K := 60
  const AVAILABILITY_BOOST := 0.05

  type Ranks = seq<(string, nat)>

  /** A search result: ranks count from one and no capability comes twice. */
  ghost predicate IsRanking(ranks: Ranks) {
    && (forall i | 0 <= i < |ranks| :: ranks[i].1 == i + 1)
    && (forall i, j | 0 <= i < j < |ranks| :: ranks[i].0 != ranks[j].0)
  }

  function Reciprocal(rank: nat): real {
    1.0 / (RRF_K + rank) as real
  }

  /** The total a list of ranks gives to a capability. */
  function Share(ranks: Ranks, id: string): real {
    if ranks == [] then 0.0
    else
      var rest, last := Share(ranks[..|ranks|-1], id), ranks[|ranks|-1];
      if last.0 == id then rest + Reciprocal(last.1) else rest
  }

  function Listed(ranks: Ranks): seq<string> {
    if ranks == [] then []
    else
      var rest, id := Listed(ranks[..|ranks|-1]), ranks[|ranks|-1].0;
      if id in rest then rest else rest + [id]
  }

  /** A dict of scores together with its insertion order. */
  datatype Scores = Scores(ids: seq<string>, score: map<string, real>) {
    ghost predicate Valid() {
      && (forall id :: id in ids <==> id in score)
      && (forall i, j | 0 <= i < j < |ids| :: ids[i] != ids[j])
    }

    function Get(id: string): real {
      if id in score then score[id] else 0.0
    }

    function Add(id: string, x: real): (s: Scores)
      ensures Valid() ==> s.Valid()
    {
      Scores(if id in score then ids else ids + [id], score[id := Get(id) + x])
    }
  }

  method RrfFusion(lexical: Ranks, vector: Ranks) returns (scores: Scores)
    ensures scores.Valid() && scores.ids == Listed(lexical + vector)
    ensures forall id :: scores.Get(id) == Share(lexical, id) + Share(vector, id)
  {
    scores := Scores([], map[]);
    scores := AddShares(scores, [], lexical);
    assert [] + lexical == lexical;
    scores := AddShares(scores, lexical, vector);
  }

  method AddShares(scores: Scores, before: Ranks, ranks: Ranks) returns (scores': Scores)
    requires scores.Valid() && scores.ids == Listed(before)
    ensures scores'.Valid() && scores'.ids == Listed(before + ranks)
    ensures forall id :: scores'.Get(id) == scores.Get(id) + Share(ranks, id)
  {
    scores' := scores;
    assert before + ranks[..0] == before;
    for n := 0 to |ranks|
      invariant scores'.Valid() && scores'.ids == Listed(before + ranks[..n])
      invariant forall id :: scores'.Get(id) == scores.Get(id) + Share(ranks[..n], id)
    {
      OneMore(before, ranks, n);
      scores' := scores'.Add(ranks[n].0, Reciprocal(ranks[n].1));
    }
    assert ranks[..|ranks|] == ranks;
  }

  lemma OneMore(before: Ranks, ranks: Ranks, n: nat)
    requires n < |ranks|
    ensures forall id :: Share(ranks[..n+1], id)
              == if ranks[n].0 == id then Share(ranks[..n], id) + Reciprocal(ranks[n].1) else Share(ranks[..n], id)
    ensures var listed := Listed(before + ranks[..n]);
            Listed(before + ranks[..n+1]) == if ranks[n].0 in listed then listed else listed + [ranks[n].0]
  {
    assert ranks[..n+1][..n] == ranks[..n];
    assert (before + ranks[..n+1])[..|before|+n] == before + ranks[..n];
  }

  function Min(a: nat, b: nat): nat {
    if a < b then a else b
  }

  function Online(online: map<string, nat>, id: string): nat {
    if id in online then Min(online[id], 10) else 0
  }

  function Raw(lexical: Ranks, vector: Ranks, online: map<string, nat>, exact: Option<string>, id: string): real {
    Share(lexical, id) + Share(vector, id)
    + AVAILABILITY_BOOST * Online(online, id) as real
    + if IsExact(exact, id) then 1.0 else 0.0
  }

  function MaxPossible(vector: Ranks): real {
    if vector != [] then 2.0 / RRF_K as real else 1.0 / (RRF_K + 1) as real
  }

  function Normalised(raw: real, maxPossible: real): real
    requires maxPossible > 0.0
  {
    if raw / maxPossible < 1.0 then raw / maxPossible else 1.0
  }

  function RawBefore(lexical: Ranks, vector: Ranks, online: map<string, nat>, exact: Option<string>)
    : (string, string) -> bool
  {
    (a: string, b: string) => Raw(lexical, vector, online, exact, a) >= Raw(lexical, vector, online, exact, b)
  }

  function RankedIds(lexical: Ranks, vector: Ranks, online: map<string, nat>, exact: Option<string>): seq<string> {
    Sort(Listed(lexical + vector), RawBefore(lexical, vector, online, exact))
  }

  predicate IsExact(exact: Option<string>, id: string) {
    exact == Some(id)
  }

  /** Scores, boosts, sorts by descending score and normalises. */
  method RankCapabilities(lexical: Ranks, vector: Ranks, online: map<string, nat>, exact: Option<string>)
    returns (ordered: seq<(string, real)>)
    requires IsRanking(lexical) && IsRanking(vector)
    ensures |ordered| == |RankedIds(lexical, vector, online, exact)|
    ensures forall i | 0 <= i < |ordered| ::
              ordered[i].0 == RankedIds(lexical, vector, online, exact)[i]
              && ordered[i].1 == Normalised(Raw(lexical, vector, online, exact, ordered[i].0), MaxPossible(vector))
  {
    var scores: Scores;
    if vector != [] {
      scores := RrfFusion(lexical, vector);
    } else {
      scores := LexicalScores(lexical);
      assert lexical + vector == lexical;
    }
    scores := Boost(scores, online, exact, lexical, vector);
    ByScoreIsRaw(scores, lexical, vector, online, exact);
    var ranked := Sort(scores.ids, ByScore(scores.score));
    ordered := Normalise(ranked, scores.score, MaxPossible(vector));
    forall i | 0 <= i < |ordered|
      ensures ordered[i].1 == Normalised(Raw(lexical, vector, online, exact, ordered[i].0), MaxPossible(vector))
    {
      assert ranked[i] in ranked;
    }
  }

  lemma ByScoreIsRaw(scores: Scores, lexical: Ranks, vector: Ranks, online: map<string, nat>, exact: Option<string>)
    requires scores.Valid()
    requires forall id | id in scores.score :: scores.score[id] == Raw(lexical, vector, online, exact, id)
    ensures Sort(scores.ids, ByScore(scores.score)) == Sort(scores.ids, RawBefore(lexical, vector, online, exact))
    ensures forall id <- Sort(scores.ids, ByScore(scores.score)) :: id in scores.score
  {
    SortSameOn(scores.ids, ByScore(scores.score), RawBefore(lexical, vector, online, exact));
    SortPermutes(scores.ids, ByScore(scores.score));
    forall id <- Sort(scores.ids, ByScore(scores.score)) ensures id in scores.score {
      assert id in multiset(Sort(scores.ids, ByScore(scores.score)));
    }
  }

  method Normalise(ranked: seq<string>, score: map<string, real>, maxPossible: real)
    returns (ordered: seq<(string, real)>)
    requires maxPossible > 0.0 && forall id <- ranked :: id in score
    ensures |ordered| == |ranked|
    ensures forall i | 0 <= i < |ranked| :: ordered[i] == (ranked[i], Normalised(score[ranked[i]], maxPossible))
  {
    ordered := [];
    for n := 0 to |ranked|
      invariant |ordered| == n
      invariant forall i | 0 <= i < n :: ordered[i] == (ranked[i], Normalised(score[ranked[i]], maxPossible))
    {
      ordered := ordered + [(ranked[n], Normalised(score[ranked[n]], maxPossible))];
    }
  }

  function ByScore(score: map<string, real>): (string, string) -> bool {
    (a: string, b: string) => (if a in score then score[a] else 0.0) >= (if b in score then score[b] else 0.0)
  }

  /** Scores from one list only: one entry per capability. */
  method LexicalScores(lexical: Ranks) returns (scores: Scores)
    requires IsRanking(lexical)
    ensures scores.Valid() && scores.ids == Listed(lexical)
    ensures forall id :: scores.Get(id) == Share(lexical, id)
  {
    scores := Scores([], map[]);
    for n := 0 to |lexical|
      invariant scores.Valid() && scores.ids == Listed(lexical[..n])
      invariant forall id :: scores.Get(id) == Share(lexical[..n], id)
    {
      assert lexical[..n+1][..n] == lexical[..n];
      var (id, rank) := lexical[n];
      NotListed(lexical[..n], id);
      scores := Scores(if id in scores.score then scores.ids else scores.ids + [id],
                       scores.score[id := Reciprocal(rank)]);
    }
    assert lexical[..|lexical|] == lexical;
  }

  lemma {:induction false} NotListed(ranks: Ranks, id: string)
    requires forall i | 0 <= i < |ranks| :: ranks[i].0 != id
    ensures Share(ranks, id) == 0.0 && id !in Listed(ranks)
  {
    if ranks != [] {
      NotListed(ranks[..|ranks|-1], id);
    }
  }

  method Boost(scores: Scores, online: map<string, nat>, exact: Option<string>, ghost lexical: Ranks,
               ghost vector: Ranks)
    returns (boosted: Scores)
    requires scores.Valid() && forall id :: scores.Get(id) == Share(lexical, id) + Share(vector, id)
    ensures boosted.Valid() && boosted.ids == scores.ids
    ensures forall id | id in boosted.score :: boosted.score[id] == Raw(lexical, vector, online, exact, id)
  {
    var score := scores.score;
    for n := 0 to |scores.ids|
      invariant score.Keys == scores.score.Keys
      invariant forall i | 0 <= i < n :: score[scores.ids[i]] == Raw(lexical, vector, online, exact, scores.ids[i])
      invariant forall i | n <= i < |scores.ids| :: score[scores.ids[i]] == scores.Get(scores.ids[i])
    {
      var id := scores.ids[n];
      score := score[id := score[id] + AVAILABILITY_BOOST * Online(online, id) as real];
      if IsExact(exact, id) {
        score := score[id := score[id] + 1.0];
      }
    }
    boosted := Scores(scores.ids, score);
    forall id | id in boosted.score ensures boosted.score[id] == Raw(lexical, vector, online, exact, id) {
      assert id in scores.ids;
    }
  }

  // ---------------------------------------------------------------------------------------------
  // What the order means.

  lemma {:induction false} ShareBound(ranks: Ranks, id: string)
    requires IsRanking(ranks)
    ensures 0.0 <= Share(ranks, id) <= 1.0 / 61.0
    ensures (exists i :: 0 <= i < |ranks| && ranks[i].0 == id && Share(ranks, id) == Reciprocal(i + 1)) ||
            Share(ranks, id) == 0.0
  {
    if ranks != [] {
      var init, last := ranks[..|ranks|-1], ranks[|ranks|-1];
      if last.0 == id {
        NotListed(init, id);
        ReciprocalBound(last.1);
        assert ranks[|ranks|-1].0 == id;
      } else {
        ShareBound(init, id);
        if i :| 0 <= i < |init| && init[i].0 == id && Share(init, id) == Reciprocal(i + 1) {
          assert ranks[i].0 == id;
        }
      }
    }
  }

  /** A list gives 1 / (61 + i) to the capability at position i, and nothing to those it does not list. */
  lemma ShareExactly(ranks: Ranks, id: string)
    requires IsRanking(ranks)
    ensures forall i | 0 <= i < |ranks| && ranks[i].0 == id :: Share(ranks, id) == 1.0 / (61 + i) as real
    ensures (forall i | 0 <= i < |ranks| :: ranks[i].0 != id) ==> Share(ranks, id) == 0.0
  {
    forall i | 0 <= i < |ranks| && ranks[i].0 == id ensures Share(ranks, id) == 1.0 / (61 + i) as real {
      ShareAt(ranks, i);
    }
    if forall i | 0 <= i < |ranks| :: ranks[i].0 != id {
      NotListed(ranks, id);
    }
  }

  /** The score: both shares, 0.05 for each online agent up to ten, and 1 for the exactly named capability. */
  lemma ScoreExactly(lexical: Ranks, vector: Ranks, online: map<string, nat>, exact: Option<string>, id: string)
    ensures var agents := if id !in online then 0 else if online[id] > 10 then 10 else online[id];
            Raw(lexical, vector, online, exact, id)
            == Share(lexical, id) + Share(vector, id) + agents as real / 20.0
               + if exact.Some? && exact.value == id then 1.0 else 0.0
  {
  }

  /** It is divided by 2 / 60, or without vectors by 1 / 61, and capped at one. */
  lemma NormalisedExactly(raw: real, vector: Ranks)
    ensures var scaled := if vector == [] then raw * 61.0 else raw * 30.0;
            Normalised(raw, MaxPossible(vector)) == if scaled > 1.0 then 1.0 else scaled
  {
  }

  function NamesOf(ranks: Ranks): seq<string> {
    if ranks == [] then [] else [ranks[0].0] + NamesOf(ranks[1..])
  }

  /** The capabilities are listed where they first appear. */
  lemma {:induction false} ListedExactly(ranks: Ranks)
    ensures Listed(ranks) == Firsts(NamesOf(ranks))
  {
    if ranks != [] {
      var init, last := ranks[..|ranks|-1], ranks[|ranks|-1];
      ListedExactly(init);
      NamesSnoc(init, last);
      FirstsSnoc(NamesOf(init), last.0);
      assert ranks == init + [last];
    }
  }

  lemma {:induction false} NamesSnoc(ranks: Ranks, last: (string, nat))
    ensures NamesOf(ranks + [last]) == NamesOf(ranks) + [last.0]
  {
    if ranks == [] {
      assert (ranks + [last])[1..] == [];
    } else {
      assert (ranks + [last])[1..] == ranks[1..] + [last];
      NamesSnoc(ranks[1..], last);
    }
  }

  lemma ReciprocalBound(rank: nat)
    requires rank >= 1
    ensures 0.0 < Reciprocal(rank) <= 1.0 / 61.0
    ensures Reciprocal(rank) == 1.0 / 61.0 <==> rank == 1
  {
    var d := (RRF_K + rank) as real;
    assert Reciprocal(rank) * d == 1.0;
    assert d >= 61.0;
  }

  /** Exact name first, then availability up to ten agents, then fused rank. */
  predicate LexBefore(lexical: Ranks, vector: Ranks, online: map<string, nat>, exact: Option<string>, a: string,
                      b: string) {
    var fusedA, fusedB := Share(lexical, a) + Share(vector, a), Share(lexical, b) + Share(vector, b);
    if IsExact(exact, a) != IsExact(exact, b) then IsExact(exact, a)
    else if Online(online, a) != Online(online, b) then Online(online, a) > Online(online, b)
    else fusedA >= fusedB
  }

  /** Ordering by the sum of the scores is exactly this lexicographic order: no lower level outweighs a higher one. */
  lemma ScoreOrderIsLexicographic(lexical: Ranks, vector: Ranks, online: map<string, nat>, exact: Option<string>,
                                  a: string, b: string)
    requires IsRanking(lexical) && IsRanking(vector)
    ensures Raw(lexical, vector, online, exact, a) >= Raw(lexical, vector, online, exact, b)
       <==> LexBefore(lexical, vector, online, exact, a, b)
  {
    ShareBound(lexical, a);
    ShareBound(vector, a);
    ShareBound(lexical, b);
    ShareBound(vector, b);
    var m, n := Online(online, a), Online(online, b);
    assert m > n ==> m as real >= n as real + 1.0;
    assert n > m ==> n as real >= m as real + 1.0;
    assert 0.0 <= m as real <= 10.0 && 0.0 <= n as real <= 10.0;
  }

  function LexOrder(lexical: Ranks, vector: Ranks, online: map<string, nat>, exact: Option<string>)
    : (string, string) -> bool
  {
    (a: string, b: string) => LexBefore(lexical, vector, online, exact, a, b)
  }

  /** The ranking is the one stable sort of the found capabilities in the lexicographic order. */
  lemma RankingIsLexicographic(lexical: Ranks, vector: Ranks, online: map<string, nat>, exact: Option<string>,
                               ranked: seq<string>)
    requires IsRanking(lexical) && IsRanking(vector)
    ensures ranked == RankedIds(lexical, vector, online, exact)
       <==> IsStableSort(ranked, Listed(lexical + vector), LexOrder(lexical, vector, online, exact))
  {
    var raw, lex := RawBefore(lexical, vector, online, exact), LexOrder(lexical, vector, online, exact);
    forall a, b ensures raw(a, b) <==> lex(a, b) {
      ScoreOrderIsLexicographic(lexical, vector, online, exact, a, b);
    }
    RawIsPreorder(lexical, vector, online, exact);
    assert TotalPreorder(lex);
    SortSameOn(Listed(lexical + vector), raw, lex);
    SortExactly(ranked, Listed(lexical + vector), lex);
  }

  lemma RawIsPreorder(lexical: Ranks, vector: Ranks, online: map<string, nat>, exact: Option<string>)
    ensures TotalPreorder(RawBefore(lexical, vector, online, exact))
  {
  }

  lemma {:induction false} ShareAt(ranks: Ranks, i: nat)
    requires IsRanking(ranks) && i < |ranks|
    ensures Share(ranks, ranks[i].0) == Reciprocal(i + 1)
  {
    if i == |ranks| - 1 {
      NotListed(ranks[..i], ranks[i].0);
    } else {
      ShareAt(ranks[..|ranks|-1], i);
    }
  }

  /**
   * The normalised score is the constant 1 for every available or exactly named capability, and besides only for the
   * first hit of a search without vectors.
   */
  lemma NormalisedScoreIsOne(lexical: Ranks, vector: Ranks, online: map<string, nat>, exact: Option<string>, id: string)
    requires IsRanking(lexical) && IsRanking(vector)
    ensures Normalised(Raw(lexical, vector, online, exact, id), MaxPossible(vector)) == 1.0
       <==> Online(online, id) > 0 || IsExact(exact, id) || (vector == [] && lexical != [] && lexical[0].0 == id)
  {
    var raw, m := Raw(lexical, vector, online, exact, id), Online(online, id);
    ShareBound(lexical, id);
    ShareBound(vector, id);
    assert m > 0 ==> m as real >= 1.0;
    if lexical != [] && lexical[0].0 == id {
      ShareAt(lexical, 0);
    } else if i :| 0 <= i < |lexical| && lexical[i].0 == id && Share(lexical, id) == Reciprocal(i + 1) {
      ReciprocalBound(i + 1);
    }
    assert Normalised(raw, MaxPossible(vector)) == 1.0 <==> raw >= MaxPossible(vector) by {
      QuotientAtLeastOne(raw, MaxPossible(vector));
    }
  }

  lemma QuotientAtLeastOne(x: real, y: real)
    requires y > 0.0
    ensures x / y >= 1.0 <==> x >= y
  {
    assert (x / y) * y == x;
  }
}
