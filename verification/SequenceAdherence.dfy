/**
 * The built-in evaluator that compares the tools an agent called with an expected
 * order. The greedy matcher is proved against the declarative notion of subsequence.
 */
module SequenceAdherence {
  import opened Common

  datatype Verdict = Skipped | Scored(score: real, passed: bool)

  datatype Config = Config(expectedSequence: Option<seq<string>>, strict: bool, useContextTrajectory: bool)

  function IsNamed(): string -> bool {
    (t: string) => t != ""
  }

  function NonEmpty(tools: seq<string>): seq<string> {
    Filter(tools, IsNamed())
  }

  /** A task's trajectory replaces the configured sequence when it is used and not empty. */
  function ExpectedTools(config: Config, trajectory: Option<seq<string>>): seq<string> {
    if config.useContextTrajectory && trajectory.Some? && trajectory.value != [] then NonEmpty(trajectory.value)
    else if config.expectedSequence.Some? then config.expectedSequence.value
    else []
  }

  /** Only empty names are dropped: the others stay, in order and as often as they occur. */
  lemma {:induction false} NonEmptyMeaning(tools: seq<string>, rest: seq<string>, t: string)
    ensures NonEmpty([]) == []
    ensures NonEmpty(tools + rest) == NonEmpty(tools) + NonEmpty(rest)
    ensures NonEmpty([t]) == if t == "" then [] else [t]
  {
    FilterAppend(tools, rest, IsNamed());
    assert [t][1..] == [];
  }

  /**
   * The trajectory's tools are expected iff the evaluator uses it, there is a task with one
   * and it has at least one step; otherwise the configured sequence is, as it is.
   */
  lemma ExpectedMeaning(config: Config, steps: seq<string>)
    ensures config.useContextTrajectory && steps != [] ==> ExpectedTools(config, Some(steps)) == NonEmpty(steps)
    ensures config.useContextTrajectory && steps == [] ==> ExpectedTools(config, Some(steps)) == ExpectedTools(config, None)
    ensures !config.useContextTrajectory ==> ExpectedTools(config, Some(steps)) == ExpectedTools(config, None)
    ensures config.expectedSequence.None? ==> ExpectedTools(config, None) == []
    ensures config.expectedSequence.Some? ==> ExpectedTools(config, None) == config.expectedSequence.value
  {
  }

  /** `expected_idx` after scanning the actual calls. */
  function Greedy(expected: seq<string>, actual: seq<string>): (k: nat)
    ensures k <= |expected|
  {
    if actual == [] then 0
    else
      var k := Greedy(expected, actual[..|actual| - 1]);
      if k < |expected| && actual[|actual| - 1] == expected[k] then k + 1 else k
  }

  method Evaluate(config: Config, trajectory: Option<seq<string>>, toolSteps: seq<string>) returns (v: Verdict)
    ensures var expected, actual := ExpectedTools(config, trajectory), NonEmpty(toolSteps);
            v == if expected == [] then Skipped
                 else if config.strict then
                   Scored(if actual == expected then 1.0 else 0.0, actual == expected)
                 else
                   Scored(Greedy(expected, actual) as real / |expected| as real, Greedy(expected, actual) == |expected|)
  {
    var expected := ExpectedTools(config, trajectory);
    var actual := NonEmpty(toolSteps);
    if expected == [] {
      return Skipped;
    }
    if config.strict {
      var passed := actual == expected;
      return Scored(if passed then 1.0 else 0.0, passed);
    }
    var expectedIdx := 0;
    for i := 0 to |actual|
      invariant expectedIdx == Greedy(expected, actual[..i])
    {
      assert actual[..i + 1][..i] == actual[..i];
      if expectedIdx < |expected| && actual[i] == expected[expectedIdx] {
        expectedIdx := expectedIdx + 1;
      }
    }
    assert actual[..|actual|] == actual;
    return Scored(expectedIdx as real / |expected| as real, expectedIdx == |expected|);
  }

  // ---- Subsequences ------------------------------------------------------------------------

  /** `at` says where each element of `sub` is found, left to right. */
  predicate Embedding(sub: seq<string>, s: seq<string>, at: seq<int>) {
    && |at| == |sub|
    && (forall i | 0 <= i < |at| :: 0 <= at[i] < |s| && s[at[i]] == sub[i])
    && (forall i, j | 0 <= i < j < |at| :: at[i] < at[j])
  }

  ghost predicate IsSubsequence(sub: seq<string>, s: seq<string>) {
    exists at :: Embedding(sub, s, at)
  }

  lemma SubsequenceTransitive(a: seq<string>, b: seq<string>, c: seq<string>)
    requires IsSubsequence(a, b) && IsSubsequence(b, c)
    ensures IsSubsequence(a, c)
  {
    var f :| Embedding(a, b, f);
    var g :| Embedding(b, c, g);
    var h := seq(|f|, i requires 0 <= i < |f| => g[f[i]]);
    assert Embedding(a, c, h);
  }

  // ---- Greedy matching is optimal ---------------------------------------------------------------

  /** What the scan has matched really is a subsequence. */
  lemma {:induction false} GreedyMatches(expected: seq<string>, actual: seq<string>)
    ensures IsSubsequence(expected[..Greedy(expected, actual)], actual)
    decreases |actual|
  {
    var k := Greedy(expected, actual);
    if actual == [] {
      assert Embedding(expected[..0], actual, []);
    } else {
      var rest := actual[..|actual| - 1];
      GreedyMatches(expected, rest);
      var k' := Greedy(expected, rest);
      var at :| Embedding(expected[..k'], rest, at);
      if k == k' {
        assert Embedding(expected[..k], actual, at);
      } else {
        assert expected[..k] == expected[..k'] + [actual[|rest|]];
        assert Embedding(expected[..k], actual, at + [|rest|]);
      }
    }
  }

  /** No longer prefix is a subsequence: an embedding is matched at least as far by the scan. */
  lemma {:induction false} GreedyIsFurthest(expected: seq<string>, actual: seq<string>, m: nat, at: seq<int>)
    requires m <= |expected| && Embedding(expected[..m], actual, at)
    ensures m <= Greedy(expected, actual)
    decreases |actual|
  {
    if m > 0 {
      assert 0 <= at[0] < |actual|;
      var rest := actual[..|actual| - 1];
      if at[m - 1] < |rest| {
        assert Embedding(expected[..m], rest, at);
        GreedyIsFurthest(expected, rest, m, at);
      } else {
        assert Embedding(expected[..m - 1], rest, at[..m - 1]) by {
          assert at[m - 1] == |rest|;
        }
        GreedyIsFurthest(expected, rest, m - 1, at[..m - 1]);
      }
    }
  }

  /** The index is the length of the longest prefix of the expected tools that is a subsequence of the calls. */
  lemma GreedyIsOptimal(expected: seq<string>, actual: seq<string>, m: nat)
    requires m <= |expected|
    ensures m <= Greedy(expected, actual) <==> IsSubsequence(expected[..m], actual)
  {
    var k := Greedy(expected, actual);
    GreedyMatches(expected, actual);
    if m <= k {
      var at :| Embedding(expected[..k], actual, at);
      assert Embedding(expected[..m], actual, at[..m]);
    }
    if IsSubsequence(expected[..m], actual) {
      var at :| Embedding(expected[..m], actual, at);
      GreedyIsFurthest(expected, actual, m, at);
    }
  }

  /** The non-strict check passes iff the whole expected list is a subsequence of the calls. */
  lemma PassedIffSubsequence(expected: seq<string>, actual: seq<string>)
    ensures Greedy(expected, actual) == |expected| <==> IsSubsequence(expected, actual)
  {
    GreedyIsOptimal(expected, actual, |expected|);
    assert expected[..|expected|] == expected;
  }

  /** Extra calls inserted anywhere never lower the index, and so never the score. */
  lemma ExtraCallsNeverHurt(expected: seq<string>, actual: seq<string>, longer: seq<string>)
    requires IsSubsequence(actual, longer)
    ensures Greedy(expected, actual) <= Greedy(expected, longer)
  {
    var k := Greedy(expected, actual);
    GreedyMatches(expected, actual);
    SubsequenceTransitive(expected[..k], actual, longer);
    GreedyIsOptimal(expected, longer, k);
  }

  /** A strict pass is a non-strict pass. */
  lemma StrictImpliesNonStrict(expected: seq<string>)
    ensures Greedy(expected, expected) == |expected|
  {
    assert Embedding(expected, expected, seq(|expected|, i => i));
    PassedIffSubsequence(expected, expected);
  }

  lemma ScaleOrder(x: real, y: real, b: real)
    requires b > 0.0
    ensures x <= y <==> x * b <= y * b
  {
    assert y * b - x * b == (y - x) * b;
  }

  lemma QuotientOrder(a: real, b: real, x: real)
    requires b > 0.0
    ensures a / b <= x <==> a <= x * b
    ensures x <= a / b <==> x * b <= a
  {
    var q := a / b;
    assert q * b == a;
    ScaleOrder(q, x, b);
    ScaleOrder(x, q, b);
  }

  lemma RatioRange(a: real, b: real)
    requires 0.0 <= a <= b && b > 0.0
    ensures 0.0 <= a / b <= 1.0
    ensures a / b >= 1.0 <==> a == b
  {
    QuotientOrder(a, b, 0.0);
    QuotientOrder(a, b, 1.0);
  }

  /** The non-strict score lies in [0, 1] and is 1 exactly on a pass. */
  lemma ScoreRange(expected: seq<string>, actual: seq<string>)
    requires expected != []
    ensures var score := Greedy(expected, actual) as real / |expected| as real;
            0.0 <= score <= 1.0 && (score == 1.0 <==> IsSubsequence(expected, actual))
  {
    RatioRange(Greedy(expected, actual) as real, |expected| as real);
    PassedIffSubsequence(expected, actual);
  }
}
