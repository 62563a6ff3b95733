/**
 The plate benchmark's edit distance: the rolling two-row table computes the least cost of any edit
 script, which is a metric; and the per-row accuracies built on it.
 */
module Levenshtein {

  function Min(a: nat, b: nat): nat { if a <= b then a else b }

  function Max(a: nat, b: nat): nat { if a <= b then b else a }

  function Mismatch(x: char, y: char): nat { if x == y then 0 else 1 }

  function Init(s: string): string
    requires s != ""
  {
    s[..|s| - 1]
  }

  function Last(s: string): char
    requires s != ""
  {
    s[|s| - 1]
  }

  /** The textbook recursion: delete, insert, or keep/substitute at the end. */
  function Distance(a: string, b: string): nat
    decreases |a| + |b|
  {
    if a == "" then |b|
    else if b == "" then |a|
    else Min(Min(Distance(Init(a), b), Distance(a, Init(b))) + 1, Distance(Init(a), Init(b)) + Mismatch(Last(a), Last(b)))
  }

  // ---------------------------------------------------------------- the table

  /** Row `i` of the table against the whole of `b`. */
  ghost predicate IsRow(row: seq<nat>, a: string, b: string) {
    |row| == |b| + 1 && forall j :: 0 <= j <= |b| ==> row[j] == Distance(a, b[..j])
  }

  method Levenshtein(a: string, b: string) returns (d: nat)
    ensures d == Distance(a, b)
  {
    hide Distance;
    FirstStep(a, b);
    if a == "" {
      return |b|;
    }
    if b == "" {
      return |a|;
    }
    FirstRow(b);
    var prev: seq<nat> := seq(|b| + 1, j requires 0 <= j <= |b| => j as nat);
    assert IsRow(prev, a[..0], b);
    for i := 0 to |a|
      invariant IsRow(prev, a[..i], b)
    {
      var cur: seq<nat> := [i + 1];
      FirstStep(a[..i + 1], b[..0]);
      for j := 0 to |b|
        invariant |cur| == j + 1
        invariant forall k :: 0 <= k <= j ==> cur[k] == Distance(a[..i + 1], b[..k])
      {
        CellStep(a, b, i, j);
        var cost := if a[i] != b[j] then 1 else 0;
        cur := cur + [Min(Min(prev[j + 1] + 1, cur[j] + 1), prev[j] + cost)];
      }
      prev := cur;
    }
    assert a[..|a|] == a && b[..|b|] == b;
    return prev[|b|];
  }

  lemma FirstRow(b: string)
    ensures forall j :: 0 <= j <= |b| ==> Distance("", b[..j]) == j
  {
  }

  lemma CellStep(a: string, b: string, i: nat, j: nat)
    requires i < |a| && j < |b|
    ensures Distance(a[..i + 1], b[..j + 1])
         == Min(Min(Distance(a[..i], b[..j + 1]) + 1, Distance(a[..i + 1], b[..j]) + 1), Distance(a[..i], b[..j]) + Mismatch(a[i], b[j]))
  {
    hide Distance;
    var s, t := a[..i + 1], b[..j + 1];
    assert Init(s) == a[..i] && Init(t) == b[..j] && Last(s) == a[i] && Last(t) == b[j];
    LastStep(s, t);
  }

  lemma LastStep(s: string, t: string)
    requires s != "" && t != ""
    ensures Distance(s, t)
         == Min(Min(Distance(Init(s), t), Distance(s, Init(t))) + 1, Distance(Init(s), Init(t)) + Mismatch(Last(s), Last(t)))
  {
    hide Min, Mismatch, Init, Last;
  }

  // ---------------------------------------------------------------- edit scripts

  /** One pass over the source: each source character is kept, replaced or dropped, and characters may be added. */
  datatype Edit = Keep | Replace(to: char) | Drop | Add(what: char)

  predicate Applies(script: seq<Edit>, a: string) {
    if script == [] then a == ""
    else match script[|script| - 1]
      case Add(_) => Applies(script[..|script| - 1], a)
      case _ => a != "" && Applies(script[..|script| - 1], Init(a))
  }

  function Apply(script: seq<Edit>, a: string): string
    requires Applies(script, a)
  {
    if script == [] then ""
    else
      var init := script[..|script| - 1];
      match script[|script| - 1]
      case Add(c) => Apply(init, a) + [c]
      case Keep => Apply(init, Init(a)) + [Last(a)]
      case Replace(c) => Apply(init, Init(a)) + [c]
      case Drop => Apply(init, Init(a))
  }

  function Cost(script: seq<Edit>): nat {
    if script == [] then 0 else Cost(script[..|script| - 1]) + if script[|script| - 1].Keep? then 0 else 1
  }

  /** No edit script turns `a` into something cheaper than its distance. */
  lemma {:induction false} ScriptsCostAtLeast(script: seq<Edit>, a: string)
    requires Applies(script, a)
    ensures Distance(a, Apply(script, a)) <= Cost(script)
  {
    if script != [] {
      var init := script[..|script| - 1];
      var b := Apply(script, a);
      match script[|script| - 1] {
        case Add(c) =>
          ScriptsCostAtLeast(init, a);
          assert Init(b) == Apply(init, a);
        case Keep =>
          ScriptsCostAtLeast(init, Init(a));
          assert Init(b) == Apply(init, Init(a));
        case Replace(c) =>
          ScriptsCostAtLeast(init, Init(a));
          assert Init(b) == Apply(init, Init(a));
        case Drop =>
          ScriptsCostAtLeast(init, Init(a));
          DropStep(a, b);
      }
    }
  }

  lemma DropStep(a: string, b: string)
    requires a != ""
    ensures Distance(a, b) <= Distance(Init(a), b) + 1
    ensures Distance(Init(a), b) <= Distance(a, b) + 1
  {
    Neighbours(a, b);
  }

  /** Some edit script reaches `b` at exactly the distance. */
  lemma {:induction false} BestScript(a: string, b: string) returns (script: seq<Edit>)
    ensures Applies(script, a) && Apply(script, a) == b && Cost(script) == Distance(a, b)
    decreases |a| + |b|
  {
    hide Distance;
    FirstStep(a, b);
    if a == "" && b == "" {
      script := [];
    } else if a == "" || (b != "" && Distance(a, b) == Distance(a, Init(b)) + 1) {
      var init := BestScript(a, Init(b));
      script := init + [Add(Last(b))];
      Append(init, Add(Last(b)));
    } else if b == "" || Distance(a, b) == Distance(Init(a), b) + 1 {
      var init := BestScript(Init(a), b);
      script := init + [Drop];
      Append(init, Drop);
    } else {
      LastStep(a, b);
      var init := BestScript(Init(a), Init(b));
      var last := if Last(a) == Last(b) then Keep else Replace(Last(b));
      script := init + [last];
      Append(init, last);
    }
  }

  lemma Append(init: seq<Edit>, last: Edit)
    ensures (init + [last])[..|init + [last]| - 1] == init && (init + [last])[|init + [last]| - 1] == last
  {
  }

  lemma FirstStep(a: string, b: string)
    ensures a == "" ==> Distance(a, b) == |b| && (b != "" ==> Distance(a, b) == Distance(a, Init(b)) + 1)
    ensures b == "" ==> Distance(a, b) == |a| && (a != "" ==> Distance(a, b) == Distance(Init(a), b) + 1)
  {
  }

  /** The table's answer is the least cost over all edit scripts from `a` to `b`. */
  lemma DistanceIsLeastCost(a: string, b: string)
    ensures exists script :: Applies(script, a) && Apply(script, a) == b && Cost(script) == Distance(a, b)
    ensures forall script :: Applies(script, a) && Apply(script, a) == b ==> Distance(a, b) <= Cost(script)
  {
    var best := BestScript(a, b);
    forall script | Applies(script, a) && Apply(script, a) == b ensures Distance(a, b) <= Cost(script) {
      ScriptsCostAtLeast(script, a);
    }
  }

  // ---------------------------------------------------------------- a metric

  /** One character more on either side moves the distance by at most one. */
  lemma {:induction false} Neighbours(a: string, b: string)
    ensures a != "" ==> Distance(a, b) <= Distance(Init(a), b) + 1 && Distance(Init(a), b) <= Distance(a, b) + 1
    ensures b != "" ==> Distance(a, b) <= Distance(a, Init(b)) + 1 && Distance(a, Init(b)) <= Distance(a, b) + 1
    decreases |a| + |b|
  {
    if a != "" && b != "" {
      Neighbours(Init(a), b);
      Neighbours(a, Init(b));
      Neighbours(Init(a), Init(b));
    }
  }

  lemma {:induction false} Symmetric(a: string, b: string)
    ensures Distance(a, b) == Distance(b, a)
    decreases |a| + |b|
  {
    if a != "" && b != "" {
      Symmetric(Init(a), b);
      Symmetric(a, Init(b));
      Symmetric(Init(a), Init(b));
    }
  }

  lemma {:induction false} ZeroIffEqual(a: string, b: string)
    ensures Distance(a, b) == 0 <==> a == b
    decreases |a| + |b|
  {
    if a != "" && b != "" {
      ZeroIffEqual(Init(a), Init(b));
      assert a == Init(a) + [Last(a)] && b == Init(b) + [Last(b)];
    }
  }

  lemma {:induction false} Triangle(a: string, b: string, c: string)
    ensures Distance(a, c) <= Distance(a, b) + Distance(b, c)
    decreases |a| + |b| + |c|
  {
    if a == "" || b == "" || c == "" {
      Bounds(a, b);
      Bounds(b, c);
      Bounds(a, c);
    } else {
      Neighbours(a, c);
      if Distance(a, b) == Distance(Init(a), b) + 1 {
        Triangle(Init(a), b, c);
      } else if Distance(b, c) == Distance(b, Init(c)) + 1 {
        Triangle(a, b, Init(c));
      } else if Distance(a, b) == Distance(a, Init(b)) + 1 {
        if Distance(b, c) == Distance(Init(b), c) + 1 {
          Triangle(a, Init(b), c);
        } else {
          Triangle(a, Init(b), Init(c));
        }
      } else if Distance(b, c) == Distance(Init(b), c) + 1 {
        Triangle(Init(a), Init(b), c);
      } else {
        Triangle(Init(a), Init(b), Init(c));
      }
    }
  }

  /** Between the difference of the lengths and the longer length. */
  lemma {:induction false} Bounds(a: string, b: string)
    ensures Max(|a|, |b|) - Min(|a|, |b|) <= Distance(a, b) <= Max(|a|, |b|)
    decreases |a| + |b|
  {
    if a != "" && b != "" {
      Bounds(Init(a), b);
      Bounds(a, Init(b));
      Bounds(Init(a), Init(b));
    }
  }

  // ---------------------------------------------------------------- scoring

  /** A labelled crop: the normalised truth, which is not empty, and the backend's normalised read. */
  datatype Row = Row(truth: string, pred: string)

  function Accuracy(r: Row): real {
    1.0 - Distance(r.truth, r.pred) as real / Max(Max(|r.truth|, |r.pred|), 1) as real
  }

  lemma AccuracyRange(r: Row)
    ensures 0.0 <= Accuracy(r) <= 1.0
    ensures Accuracy(r) == 1.0 <==> r.pred == r.truth
  {
    hide Distance;
    Bounds(r.truth, r.pred);
    ZeroIffEqual(r.truth, r.pred);
    Ratio(Distance(r.truth, r.pred) as real, Max(Max(|r.truth|, |r.pred|), 1) as real);
  }

  lemma Ratio(d: real, n: real)
    requires 0.0 <= d <= n && 1.0 <= n
    ensures 0.0 <= d / n <= 1.0
    ensures d / n == 0.0 <==> d == 0.0
  {
    assert d / n * n == d;
  }

  datatype Score = Score(exact: nat, read: nat, accuracy: real)

  function Total(rows: seq<Row>): Score {
    if rows == [] then Score(0, 0, 0.0)
    else
      var s, r := Total(rows[..|rows| - 1]), rows[|rows| - 1];
      Score(s.exact + if r.pred == r.truth then 1 else 0, s.read + if r.pred != "" then 1 else 0, s.accuracy + Accuracy(r))
  }

  /** The running counters of one backend over the labelled rows. */
  method ScoreRows(labeled: seq<Row>) returns (s: Score)
    requires forall i :: 0 <= i < |labeled| ==> labeled[i].truth != ""
    ensures s == Total(labeled)
    ensures s.exact <= s.read <= |labeled|
    ensures s.exact as real <= s.accuracy <= |labeled| as real
    ensures s.accuracy == |labeled| as real <==> s.exact == |labeled|
  {
    var exact, read, sum := 0, 0, 0.0;
    for i := 0 to |labeled|
      invariant Score(exact, read, sum) == Total(labeled[..i])
      invariant exact <= read <= i
      invariant exact as real <= sum <= i as real
      invariant sum == i as real <==> exact == i
    {
      var r := labeled[i];
      assert labeled[..i + 1][..i] == labeled[..i];
      AccuracyRange(r);
      if r.pred != "" {
        read := read + 1;
      }
      if r.pred == r.truth {
        exact := exact + 1;
      }
      var denom := Max(Max(|r.truth|, |r.pred|), 1);
      var d := Levenshtein(r.truth, r.pred);
      sum := sum + (1.0 - d as real / denom as real);
    }
    assert labeled[..|labeled|] == labeled;
    s := Score(exact, read, sum);
  }
}
