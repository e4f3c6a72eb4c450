/** Automatic detection returns the most relevant candidate, and the most relevant of the others. */
module HighlightRanking {
  import opened Wrappers
  import opened Markup
  import opened Highlight

  /** What the candidates are highlighted to, in their order. */
  function Results(reg: Registry, text: string, candidates: Candidates): Attempt<seq<Rendered>>
    decreases candidates
  {
    match candidates
    case NoMore => Ok([])
    case Candidate(name, script, others) =>
      var r :- Highlighted(reg, name, text, script, false, None);
      var rest :- Results(reg, text, others);
      Ok([r.(language := Some(name))] + rest)
  }

  /** Of all results, number `b` is the best: none is more relevant, and none before it is as relevant;
      number `s` is the most relevant of the others. */
  ghost predicate Leading(all: seq<Rendered>, ranking: Ranking, b: nat, s: nat) {
    && b < |all| && s < |all| && b != s
    && all[b] == ranking.best && all[s] == ranking.second
    && (forall k | 0 <= k < |all| :: all[k].relevance <= ranking.best.relevance)
    && (forall k | 0 <= k < b :: all[k].relevance < ranking.best.relevance)
    && (forall k | 0 <= k < |all| && k != b :: all[k].relevance <= ranking.second.relevance)
  }

  lemma RankedLeads(all: seq<Rendered>, ranking: Ranking, b: nat, s: nat, r: Rendered) returns (b': nat, s': nat)
    requires Leading(all, ranking, b, s)
    ensures Leading(all + [r], Ranked(ranking, r), b', s')
  {
    if r.relevance > ranking.best.relevance {
      b', s' := |all|, b;
    } else if r.relevance > ranking.second.relevance {
      b', s' := b, |all|;
    } else {
      b', s' := b, s;
    }
  }

  lemma {:induction false} BestLeads(
      reg: Registry, text: string, candidates: Candidates, ranking: Ranking, all: seq<Rendered>, b: nat, s: nat)
    returns (b': nat, s': nat)
    requires BestOf(reg, text, candidates, ranking).Ok? && Leading(all, ranking, b, s)
    ensures Results(reg, text, candidates).Ok?
    ensures Leading(all + Results(reg, text, candidates).value, BestOf(reg, text, candidates, ranking).value, b', s')
    decreases candidates
  {
    hide Highlighted, Leading;
    match candidates
    case NoMore =>
      assert all + [] == all;
      b', s' := b, s;
    case Candidate(name, script, others) =>
      var r := Highlighted(reg, name, text, script, false, None).value.(language := Some(name));
      b', s' := RankedLeads(all, ranking, b, s, r);
      b', s' := BestLeads(reg, text, others, Ranked(ranking, r), all + [r], b', s');
      assert all + ([r] + Results(reg, text, others).value) == all + [r] + Results(reg, text, others).value;
  }

  /** The plain text, which counts as two results of no relevance, competes with the candidates: the
      first of the most relevant wins, and the second best is the most relevant of the others. */
  lemma DetectionPicksMostRelevant(reg: Registry, text: string, candidates: Candidates)
    ensures var r := BestOf(reg, text, candidates, NoneYet(text));
            r.Ok? ==>
              && Results(reg, text, candidates).Ok?
              && var plain := Rendered(Chars(text), None, None, CLEAN, 0);
                 var all := [plain, plain] + Results(reg, text, candidates).value;
                 exists b, s :: Leading(all, r.value, b, s)
  {
    hide BestOf, Results, Leading;
    if BestOf(reg, text, candidates, NoneYet(text)).Ok? {
      var plain := PlainResult(text);
      assert Leading([plain, plain], NoneYet(text), 0, 1) by {
        PlainLeads(text);
      }
      var b, s := BestLeads(reg, text, candidates, NoneYet(text), [plain, plain], 0, 1);
    }
  }

  lemma PlainLeads(text: string)
    ensures Leading([PlainResult(text), PlainResult(text)], NoneYet(text), 0, 1)
  {
  }
}
