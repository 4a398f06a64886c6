/** The choice of a host among scored nodes in scheduler/core/generic_scheduler.go: a
    reservoir sample of the nodes with the highest score. */
module SelectHost {
  import opened Wrappers

  datatype NodeScore = NodeScore(name: Name, score: int)

  /** The best score so far, the position selected, and how many positions had that score. */
  datatype Choice = Choice(maxScore: int, selected: nat, count: nat)

  /** One turn of the loop, for the entry at position i; `draw` is what rand.Intn returns in
      the case of a tie. */
  function Turn(c: Choice, i: nat, score: int, draw: nat): Choice {
    if score > c.maxScore then Choice(score, i, 1)
    else if score == c.maxScore then Choice(c.maxScore, if draw == 0 then i else c.selected, c.count + 1)
    else c
  }

  /** A position that no entry beats. */
  predicate IsMax(list: seq<NodeScore>, j: nat) {
    j < |list| && forall i :: 0 <= i < |list| ==> list[i].score <= list[j].score
  }

  /** Whatever the draws, an entry with the highest score is selected; an empty list is an
      error. `draws(i)` is the number drawn at position i, if one is drawn there. */
  method SelectHost(list: seq<NodeScore>, draws: nat -> nat) returns (selected: Option<Name>)
    ensures selected.None? <==> list == []
    ensures selected.Some? ==> exists j: nat :: IsMax(list, j) && selected.value == list[j].name
  {
    if |list| == 0 {
      return None;
    }
    var c := Choice(list[0].score, 0, 1);
    var i: nat := 1;
    while i < |list|
      invariant 1 <= i <= |list| && c.selected < i
      invariant list[c.selected].score == c.maxScore
      invariant forall k :: 0 <= k < i ==> list[k].score <= c.maxScore
    {
      c := Turn(c, i, list[i].score, draws(i));
      i := i + 1;
    }
    assert IsMax(list, c.selected);
    return Some(list[c.selected].name);
  }

  // ---------- Chances ----------

  /** The chance that position j is selected in the end, from choice c before position i,
      when each number that rand.Intn can draw is equally likely. */
  function Chance(list: seq<NodeScore>, i: nat, c: Choice, j: nat): real
    requires i <= |list|
    decreases |list| - i, 1, 0
  {
    if i == |list| then if c.selected == j then 1.0 else 0.0
    else if list[i].score == c.maxScore then ChanceSum(list, i, c, j, c.count + 1) / (c.count + 1) as real
    else Chance(list, i + 1, Turn(c, i, list[i].score, 0), j)
  }

  /** The chances after each of the first n draws at position i, added up. */
  function ChanceSum(list: seq<NodeScore>, i: nat, c: Choice, j: nat, n: nat): real
    requires i < |list|
    decreases |list| - i, 0, n
  {
    if n == 0 then 0.0
    else ChanceSum(list, i, c, j, n - 1) + Chance(list, i + 1, Turn(c, i, list[i].score, n - 1), j)
  }

  /** How many entries from position i on have this score. */
  function Ties(list: seq<NodeScore>, i: nat, score: int): nat
    requires i <= |list|
    decreases |list| - i
  {
    if i == |list| then 0 else Ties(list, i + 1, score) + if list[i].score == score then 1 else 0
  }

  /** The highest of `best` and the scores from position i on. */
  function Best(list: seq<NodeScore>, i: nat, best: int): int
    requires i <= |list|
    decreases |list| - i
  {
    if i == |list| then best
    else Best(list, i + 1, if list[i].score > best then list[i].score else best)
  }

  /** All draws but 0 have the same effect. */
  lemma {:induction false} SumUniform(list: seq<NodeScore>, i: nat, c: Choice, j: nat, n: nat)
    requires i < |list| && n >= 1 && list[i].score == c.maxScore
    ensures ChanceSum(list, i, c, j, n) ==
      Chance(list, i + 1, Turn(c, i, c.maxScore, 0), j)
        + (n - 1) as real * Chance(list, i + 1, Turn(c, i, c.maxScore, 1), j)
    decreases n
  {
    if n > 1 {
      SumUniform(list, i, c, j, n - 1);
      assert Turn(c, i, c.maxScore, n - 1) == Turn(c, i, c.maxScore, 1);
    } else {
      assert ChanceSum(list, i, c, j, 0) == 0.0;
    }
  }

  lemma {:induction false} BestIsBound(list: seq<NodeScore>, i: nat, best: int)
    requires i <= |list|
    ensures Best(list, i, best) >= best
    ensures Best(list, i, best) > best ==> Ties(list, i, Best(list, i, best)) >= 1
    ensures forall k :: i <= k < |list| ==> list[k].score <= Best(list, i, best)
    decreases |list| - i
  {
    if i < |list| {
      BestIsBound(list, i + 1, if list[i].score > best then list[i].score else best);
    }
  }

  /** What a choice before position i is worth: the selected position keeps the weight of all
      ties so far, if its score stays the best; every later best entry gets one share. */
  function Share(list: seq<NodeScore>, i: nat, c: Choice, j: nat): real
    requires i <= |list| && c.count >= 1
  {
    BestIsBound(list, i, c.maxScore);
    var best := Best(list, i, c.maxScore);
    var ties := Ties(list, i, best) + if best == c.maxScore then c.count else 0;
    if j == c.selected && best == c.maxScore then c.count as real / ties as real
    else if i <= j < |list| && list[j].score == best then 1.0 / ties as real
    else 0.0
  }

  /** The average of one draw with outcome a and `count` draws with outcome b. */
  function Blend(a: real, b: real, count: nat): real {
    (a + count as real * b) / (count + 1) as real
  }

  lemma TieChance(list: seq<NodeScore>, i: nat, c: Choice, j: nat)
    requires i < |list| && list[i].score == c.maxScore
    ensures Chance(list, i, c, j)
         == Blend(Chance(list, i + 1, Turn(c, i, c.maxScore, 0), j),
           Chance(list, i + 1, Turn(c, i, c.maxScore, 1), j), c.count)
  {
    SumUniform(list, i, c, j, c.count + 1);
  }

  lemma {:induction false} ChanceIsShare(list: seq<NodeScore>, i: nat, c: Choice, j: nat)
    requires i <= |list| && c.count >= 1 && c.selected < i
    ensures Chance(list, i, c, j) == Share(list, i, c, j)
    decreases |list| - i
  {
    if i < |list| {
      var score := list[i].score;
      ChanceIsShare(list, i + 1, Turn(c, i, score, 0), j);
      if score == c.maxScore {
        ChanceIsShare(list, i + 1, Turn(c, i, score, 1), j);
        TieChance(list, i, c, j);
        TieShares(list, i, c, j);
      } else {
        OtherShares(list, i, c, j);
      }
    }
  }

  lemma OtherShares(list: seq<NodeScore>, i: nat, c: Choice, j: nat)
    requires i < |list| && c.count >= 1 && c.selected < i && list[i].score != c.maxScore
    ensures Share(list, i + 1, Turn(c, i, list[i].score, 0), j) == Share(list, i, c, j)
  {
    BestIsBound(list, i + 1, if list[i].score > c.maxScore then list[i].score else c.maxScore);
  }

  lemma TieShares(list: seq<NodeScore>, i: nat, c: Choice, j: nat)
    requires i < |list| && c.count >= 1 && c.selected < i && list[i].score == c.maxScore
    ensures Share(list, i, c, j)
         == Blend(Share(list, i + 1, Turn(c, i, c.maxScore, 0), j), Share(list, i + 1, Turn(c, i, c.maxScore, 1), j),
           c.count)
  {
  }

  lemma {:induction false} BestIsAttained(list: seq<NodeScore>, i: nat, best: int, m: int)
    requires i <= |list| && best <= m && forall k :: i <= k < |list| ==> list[k].score <= m
    ensures Best(list, i, best) <= m
    decreases |list| - i
  {
    if i < |list| {
      BestIsAttained(list, i + 1, if list[i].score > best then list[i].score else best, m);
    }
  }

  lemma {:induction false} TiesCountItself(list: seq<NodeScore>, i: nat, j: nat)
    requires i <= j < |list|
    ensures Ties(list, i, list[j].score) >= 1
    decreases |list| - i
  {
    if i < j { TiesCountItself(list, i + 1, j); }
  }

  /** Every one of the k entries with the highest score is selected with chance exactly 1/k,
      and no other entry is. */
  lemma TieBreakIsUnbiased(list: seq<NodeScore>, j: nat)
    requires list != [] && j < |list|
    ensures IsMax(list, j) ==>
      && Ties(list, 0, list[j].score) >= 1
      && Chance(list, 1, Choice(list[0].score, 0, 1), j) == 1.0 / Ties(list, 0, list[j].score) as real
    ensures !IsMax(list, j) ==> Chance(list, 1, Choice(list[0].score, 0, 1), j) == 0.0
  {
    var c := Choice(list[0].score, 0, 1);
    ChanceIsShare(list, 1, c, j);
    BestIsBound(list, 1, c.maxScore);
    TiesCountItself(list, 0, j);
    if IsMax(list, j) { BestIsAttained(list, 1, c.maxScore, list[j].score); }
  }
}
