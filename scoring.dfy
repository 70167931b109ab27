/** The scoring loop of `submit`: parse each submitted pick, count the picks that
    equal the stored answer index, and turn the count into a rounded percentage. */
module Scoring {
  import opened Wrappers
  import opened PyText
  import opened Quiz

  /** `int(request.form.get(f"q_{idx}"))`, or -1 where `int` raises (`TypeError` for
      a missing field, `ValueError` for text that is not an integer). */
  function Pick(form: map<string, string>, idx: nat): (p: int)
    ensures "q_" + NatText(idx) !in form ==> p == -1
    ensures "q_" + NatText(idx) in form && ParseInt(form["q_" + NatText(idx)]).None? ==> p == -1
  {
    var key := "q_" + NatText(idx);
    if key in form && ParseInt(form[key]).Some? then ParseInt(form[key]).value else -1
  }

  /** The picks recorded for the first `n` questions. */
  function Picks(form: map<string, string>, n: nat): (ps: seq<int>)
    ensures |ps| == n
  {
    seq(n, i requires 0 <= i < n => Pick(form, i))
  }

  lemma PicksSnoc(form: map<string, string>, n: nat)
    ensures Picks(form, n + 1) == Picks(form, n) + [Pick(form, n)]
  {
    var a, b := Picks(form, n + 1), Picks(form, n) + [Pick(form, n)];
    forall i | 0 <= i < n + 1
      ensures a[i] == b[i]
    {
    }
  }

  /** The number of positions where the pick equals the question's answer index. */
  function Matches(quiz: seq<Question>, picks: seq<int>): (c: nat)
    requires |picks| == |quiz|
    ensures c <= |quiz|
  {
    if quiz == [] then 0
    else
      Matches(quiz[..|quiz| - 1], picks[..|picks| - 1])
      + (if picks[|picks| - 1] == quiz[|quiz| - 1].answerIndex then 1 else 0)
  }

  /** Scoring one more question adds its point to the running count. */
  lemma MatchesSnoc(quiz: seq<Question>, picks: seq<int>, i: nat, p: int)
    requires |picks| == i < |quiz|
    ensures Matches(quiz[..i + 1], picks + [p])
            == Matches(quiz[..i], picks) + (if p == quiz[i].answerIndex then 1 else 0)
  {
    assert quiz[..i + 1][..i] == quiz[..i];
    assert (picks + [p])[..i] == picks;
  }

  /** The positions a pick gets right. */
  function CorrectPositions(quiz: seq<Question>, picks: seq<int>): set<nat>
    requires |picks| == |quiz|
  {
    set i: nat | i < |quiz| && picks[i] == quiz[i].answerIndex
  }

  /** `correct` is the size of the set of correctly answered positions. */
  lemma {:induction false} MatchesCountsCorrectPositions(quiz: seq<Question>, picks: seq<int>)
    requires |picks| == |quiz|
    ensures Matches(quiz, picks) == |CorrectPositions(quiz, picks)|
  {
    if quiz != [] {
      var n := |quiz| - 1;
      var q0, p0 := quiz[..n], picks[..n];
      MatchesCountsCorrectPositions(q0, p0);
      var before := CorrectPositions(q0, p0);
      var after := CorrectPositions(quiz, picks);
      if picks[n] == quiz[n].answerIndex {
        assert after == before + {n};
        assert n !in before;
      } else {
        assert after == before;
      }
    }
  }

  /** A position whose pick misses (for instance an unparseable pick, stored as -1,
      against a well-formed question) keeps the count below full marks. */
  lemma {:induction false} MissedPickLosesAPoint(quiz: seq<Question>, picks: seq<int>, i: nat)
    requires |picks| == |quiz| && i < |quiz|
    requires picks[i] != quiz[i].answerIndex
    ensures Matches(quiz, picks) < |quiz|
  {
    var n := |quiz| - 1;
    if i < n {
      MissedPickLosesAPoint(quiz[..n], picks[..n], i);
    }
  }

  /** A form that answers nothing (every pick stored as -1) scores no point against
      well-formed questions, whose answer indices lie in 0..3. */
  lemma {:induction false} UnansweredQuizScoresZero(quiz: seq<Question>, picks: seq<int>)
    requires |picks| == |quiz|
    requires forall i :: 0 <= i < |quiz| ==> WellFormed(quiz[i]) && picks[i] == -1
    ensures Matches(quiz, picks) == 0
  {
    if quiz != [] {
      UnansweredQuizScoresZero(quiz[..|quiz| - 1], picks[..|picks| - 1]);
    }
  }

  /** Picking every stored answer index gives full marks. */
  lemma {:induction false} AllCorrectFullMarks(quiz: seq<Question>, picks: seq<int>)
    requires |picks| == |quiz|
    requires forall i :: 0 <= i < |quiz| ==> picks[i] == quiz[i].answerIndex
    ensures Matches(quiz, picks) == |quiz|
  {
    if quiz != [] {
      AllCorrectFullMarks(quiz[..|quiz| - 1], picks[..|picks| - 1]);
    }
  }

  /** A field holding the decimal text of a choice index, as the quiz page submits
      it, is read back as that index. */
  lemma PickReadsSubmittedIndex(form: map<string, string>, idx: nat, k: int)
    requires "q_" + NatText(idx) in form && form["q_" + NatText(idx)] == IntText(k)
    ensures Pick(form, idx) == k
  {
    ParseIntText(k);
  }

  function Abs(x: int): nat { if x < 0 then -x else x }

  /** Choosing between the two multiples of `d` around `n` by the remainder gives
      the nearest one, and the even one on a tie. */
  lemma RoundChoice(n: int, d: int, q: int, rem: int, r: int)
    requires d > 0 && 0 <= rem < d && n == q * d + rem
    requires r == if 2 * rem < d || (2 * rem == d && q % 2 == 0) then q else q + 1
    ensures 2 * Abs(n - r * d) <= d
    ensures 2 * Abs(n - r * d) == d ==> r % 2 == 0
  {
    if r == q {
      assert n - r * d == rem;
    } else {
      assert r * d == q * d + d;
      assert n - r * d == rem - d;
    }
  }

  lemma DivMod(n: nat, d: nat)
    requires d > 0
    ensures n == (n / d) * d + n % d && 0 <= n % d < d && 0 <= n / d
  {
  }

  /** Python's `round(n / d)` on exact rationals: the nearest integer, ties to even. */
  function RoundHalfEven(n: nat, d: nat): (r: nat)
    requires d > 0
    ensures 2 * Abs(n - r * d) <= d
    ensures 2 * Abs(n - r * d) == d ==> r % 2 == 0
  {
    DivMod(n, d);
    var q, rem := n / d, n % d;
    var r := if 2 * rem < d || (2 * rem == d && q % 2 == 0) then q else q + 1;
    RoundChoice(n, d, q, rem, r);
    r
  }

  /** A multiple of `d` that lies in [-d, d] is -d, 0 or d. */
  lemma SmallMultiple(k: int, d: int)
    requires d > 0 && -d <= k * d <= d
    ensures -1 <= k <= 1
  {
  }

  lemma Difference(n: int, d: int, r: int, s: int)
    ensures (n - r * d) - (n - s * d) == (s - r) * d
  {
  }

  /** Two offsets within half of `d` that differ by a non-zero multiple of `d`
      are both exactly half of `d` away. */
  lemma OnlyTiesDiffer(a: int, b: int, k: int, d: int)
    requires d > 0 && -1 <= k <= 1 && a - b == k * d
    requires 2 * Abs(a) <= d && 2 * Abs(b) <= d
    ensures k != 0 ==> 2 * Abs(a) == d && 2 * Abs(b) == d
  {
    assert k == 1 ==> k * d == d;
    assert k == -1 ==> k * d == -d;
  }

  /** The rounding rule fixes the result: any integer that is within half of `d`
      of `n`, and even on a tie, is `RoundHalfEven(n, d)`. */
  lemma RoundingRuleUnique(n: nat, d: nat, r: int)
    requires d > 0
    requires 2 * Abs(n - r * d) <= d
    requires 2 * Abs(n - r * d) == d ==> r % 2 == 0
    ensures r == RoundHalfEven(n, d)
  {
    var s := RoundHalfEven(n, d);
    Difference(n, d, r, s);
    SmallMultiple(s - r, d);
    OnlyTiesDiffer(n - r * d, n - s * d, s - r, d);
  }

  /** `round(100 * correct / total)`. */
  function Percent(correct: nat, total: nat): (score: nat)
    requires 0 < total && correct <= total
    ensures score <= 100
    ensures correct == 0 ==> score == 0
    ensures correct == total ==> score == 100
  {
    var r := RoundHalfEven(100 * correct, total);
    assert r <= 100 by {
      assert r * total < 101 * total;
      MulCancel(r, 101, total);
    }
    assert correct == 0 ==> r == 0 by {
      if correct == 0 {
        assert r * total < 1 * total;
        MulCancel(r, 1, total);
      }
    }
    assert correct == total ==> r == 100 by {
      if correct == total {
        assert (100 - r) * total < 1 * total;
        MulCancel(100 - r, 1, total);
      }
    }
    r
  }

  lemma MulCancel(a: int, b: int, t: int)
    requires t > 0 && a * t < b * t
    ensures a < b
  {
  }

  /** The `try`/`except` around one field of the submitted form. */
  method ReadPick(form: map<string, string>, idx: nat) returns (pickedIdx: int)
    ensures pickedIdx == Pick(form, idx)
  {
    var key := "q_" + NatText(idx);
    pickedIdx := -1;
    if key in form {
      var parsed := ParseInt(form[key]);
      if parsed.Some? {
        pickedIdx := parsed.value;
      }
    }
  }

  /** The loop at lines 169-178 and the figures of lines 180-181. */
  method Score(quiz: seq<Question>, form: map<string, string>)
    returns (userAnswers: seq<int>, correct: nat, total: nat, score: nat)
    ensures |userAnswers| == |quiz|
    ensures forall i :: 0 <= i < |quiz| ==> userAnswers[i] == Pick(form, i)
    ensures correct == Matches(quiz, userAnswers) && correct <= |quiz|
    ensures total == if |quiz| == 0 then 1 else |quiz|
    ensures score == Percent(correct, total) && score <= 100
  {
    userAnswers, correct := [], 0;
    var idx := 0;
    while idx < |quiz|
      invariant 0 <= idx <= |quiz|
      invariant |userAnswers| == idx
      invariant userAnswers == Picks(form, idx)
      invariant correct == Matches(quiz[..idx], userAnswers)
    {
      var pickedIdx := ReadPick(form, idx);
      MatchesSnoc(quiz, userAnswers, idx, pickedIdx);
      PicksSnoc(form, idx);
      userAnswers := userAnswers + [pickedIdx];
      if pickedIdx == quiz[idx].answerIndex {
        correct := correct + 1;
      }
      idx := idx + 1;
    }
    assert quiz[..idx] == quiz;
    total := if |quiz| == 0 then 1 else |quiz|;
    score := Percent(correct, total);
  }

  /** Three questions answered 0, 1, 2 and picks 0, 1, 3: two correct, 67 percent. */
  lemma ScoreExample(quiz: seq<Question>)
    requires |quiz| == 3
    requires quiz[0].answerIndex == 0 && quiz[1].answerIndex == 1 && quiz[2].answerIndex == 2
    ensures Matches(quiz, [0, 1, 3]) == 2
    ensures Percent(2, 3) == 67
  {
    var picks: seq<int> := [0, 1, 3];
    assert picks[..2] == [0, 1] && [0, 1][..1] == [0] && [0][..0] == [];
    assert quiz[..2][..1] == quiz[..1] && quiz[..1][..0] == [];
    assert Matches(quiz[..1], [0]) == 1;
    assert Matches(quiz[..2], [0, 1]) == 2;
    assert RoundHalfEven(200, 3) == 67;
  }
}
