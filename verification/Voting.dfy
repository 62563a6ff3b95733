/** Temporal voting: which plate a track's accumulated reads elect. */
module Voting {
  import opened Wrappers
  import opened Plates

  /** Reads of one plate: weighted count and summed confidence. */
  datatype PlateVote = PlateVote(count: nat, confSum: real)

  type Votes = map<string, PlateVote>

  datatype Winner = Winner(plate: string, count: nat, avgConf: real)

  /** Vote count first, summed confidence second; equal pairs tie. */
  predicate AtMost(a: PlateVote, b: PlateVote) {
    a.count < b.count || (a.count == b.count && a.confSum <= b.confSum)
  }

  predicate Eligible(plausibleOnly: bool, p: string) {
    plausibleOnly ==> IsPlausiblePlate(p)
  }

  ghost predicate IsLeader(votes: Votes, plausibleOnly: bool, p: string) {
    && p in votes && Eligible(plausibleOnly, p)
    && forall q :: q in votes && Eligible(plausibleOnly, q) ==> AtMost(votes[q], votes[p])
  }

  ghost predicate HasPlausible(votes: Votes) {
    exists p :: p in votes && IsPlausiblePlate(p)
  }

  /** A hash map yields its entries in no particular order, so any leader may be elected. */
  ghost predicate IsWinner(votes: Votes, p: string) {
    IsLeader(votes, HasPlausible(votes), p)
  }

  function Average(v: PlateVote): real {
    if v.count > 0 then v.confSum / v.count as real else 0.0
  }

  method Leader(votes: Votes, plausibleOnly: bool) returns (best: Option<string>)
    ensures best.None? <==> forall p :: p in votes ==> !Eligible(plausibleOnly, p)
    ensures best.Some? ==> IsLeader(votes, plausibleOnly, best.value)
  {
    best := None;
    var todo := votes.Keys;
    while todo != {}
      invariant todo <= votes.Keys
      invariant best.None? ==> forall p :: p in votes && p !in todo ==> !Eligible(plausibleOnly, p)
      invariant best.Some? ==> best.value in votes && Eligible(plausibleOnly, best.value)
      invariant best.Some? ==> forall p :: p in votes && p !in todo && Eligible(plausibleOnly, p)
                                 ==> AtMost(votes[p], votes[best.value])
    {
      var p :| p in todo;
      todo := todo - {p};
      if Eligible(plausibleOnly, p) && (best.None? || AtMost(votes[best.value], votes[p])) {
        best := Some(p);
      }
    }
  }

  method WinningPlate(votes: Votes) returns (w: Option<Winner>)
    ensures w.None? <==> votes == map[]
    ensures w.Some? ==> IsWinner(votes, w.value.plate)
    ensures w.Some? && !IsPlausiblePlate(w.value.plate) ==> forall q :: q in votes ==> !IsPlausiblePlate(q)
    ensures w.Some? ==> w.value.count == votes[w.value.plate].count && w.value.avgConf == Average(votes[w.value.plate])
  {
    var best := Leader(votes, true);
    if best.None? {
      best := Leader(votes, false);
    }
    if best.None? {
      w := None;
    } else {
      w := Some(Winner(best.value, votes[best.value].count, Average(votes[best.value])));
    }
  }

  /** Ties are harmless: every plate that may be elected has the same standing. */
  lemma TiedWinnersAgree(votes: Votes, p: string, q: string)
    requires IsWinner(votes, p) && IsWinner(votes, q)
    ensures votes[p] == votes[q]
    ensures IsPlausiblePlate(p) <==> IsPlausiblePlate(q)
    ensures Average(votes[p]) == Average(votes[q])
  {
    assert AtMost(votes[p], votes[q]) && AtMost(votes[q], votes[p]);
  }

  lemma {:induction false} LeaderExists(votes: Votes, plausibleOnly: bool, q: string)
    returns (p: string)
    requires q in votes && Eligible(plausibleOnly, q)
    ensures IsLeader(votes, plausibleOnly, p)
    decreases |votes|
  {
    var rest := votes - {q};
    assert rest.Keys < votes.Keys;
    if r :| r in rest && Eligible(plausibleOnly, r) {
      var s := LeaderExists(rest, plausibleOnly, r);
      p := if AtMost(votes[q], votes[s]) then s else q;
      forall x | x in votes && Eligible(plausibleOnly, x)
        ensures AtMost(votes[x], votes[p])
      {
        if x != q { assert x in rest && AtMost(rest[x], rest[s]); }
      }
    } else {
      p := q;
      assert forall x :: x in votes ==> x == q || x in rest;
    }
  }

  lemma WinnerExists(votes: Votes) returns (p: string)
    requires votes != map[]
    ensures IsWinner(votes, p)
  {
    if q :| q in votes && IsPlausiblePlate(q) {
      p := LeaderExists(votes, true, q);
    } else {
      var q :| q in votes;
      p := LeaderExists(votes, false, q);
    }
  }

  /** The count any winner has. */
  ghost function LeadCount(votes: Votes): (n: nat)
    ensures forall p :: IsWinner(votes, p) ==> n == votes[p].count
  {
    if votes == map[] then 0
    else
      assert exists p :: IsWinner(votes, p) by { var p := WinnerExists(votes); }
      var p :| IsWinner(votes, p);
      assert forall q :: IsWinner(votes, q) ==> votes[q].count == votes[p].count by {
        forall q | IsWinner(votes, q) ensures votes[q].count == votes[p].count { TiedWinnersAgree(votes, p, q); }
      }
      votes[p].count
  }
}
