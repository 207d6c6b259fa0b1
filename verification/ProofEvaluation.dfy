/** Evaluation of a proof's claims under a confidence policy. */
module ProofEvaluation {
  import opened Sequences

  datatype VerificationStatus = Unverified | Supported | PartiallySupported | Contradicted | Verified

  datatype ProofStatus = Ready | NeedsReview | Invalid

  datatype Reason =
    | NoClaims | ContradictedClaim | UnverifiedClaim | PartiallySupportedClaim
    | ConfidenceBelowReview | ConfidenceBelowReady | SupportedRatioBelow | EvaluationPassed

  predicate InUnitInterval(x: real) { 0.0 <= x <= 1.0 }

  /** A score that its constructor accepts. */
  type ConfidenceScore = x: real | InUnitInterval(x)

  datatype Claim = Claim(status: VerificationStatus, confidence: ConfidenceScore)

  datatype PolicyFields = PolicyFields(minimumReview: real, minimumReady: real, minimumRatio: real)

  /** A policy that its constructor accepts. */
  type Policy = p: PolicyFields |
      InUnitInterval(p.minimumReview) && InUnitInterval(p.minimumReady) && InUnitInterval(p.minimumRatio)
      && p.minimumReview <= p.minimumReady
    witness PolicyFields(0.0, 0.7, 1.0)

  datatype Evaluation = Evaluation(status: ProofStatus, confidence: ConfidenceScore, reasons: seq<Reason>)

  function Total(claims: seq<Claim>): real {
    if claims == [] then 0.0 else Total(claims[..|claims| - 1]) + claims[|claims| - 1].confidence
  }

  predicate FullySupported(claim: Claim) {
    claim.status == Supported || claim.status == Verified
  }

  function SupportedCount(claims: seq<Claim>): nat {
    if claims == [] then 0
    else SupportedCount(claims[..|claims| - 1]) + if FullySupported(claims[|claims| - 1]) then 1 else 0
  }

  lemma {:induction false} SumsAreBounded(claims: seq<Claim>)
    ensures 0.0 <= Total(claims) <= |claims| as real
    ensures SupportedCount(claims) <= |claims|
    ensures SupportedCount(claims) == |claims| <==> forall i | 0 <= i < |claims| :: FullySupported(claims[i])
    decreases |claims|
  {
    if claims != [] {
      SumsAreBounded(claims[..|claims| - 1]);
    }
  }

  lemma QuotientInUnitInterval(x: real, n: real)
    requires 0.0 <= x <= n && n > 0.0
    ensures InUnitInterval(x / n)
    ensures x / n == 1.0 <==> x == n
  {
    var q := x / n;
    assert q * n == x;
    assert q > 1.0 ==> (q - 1.0) * n > 0.0;
    assert q < 0.0 ==> (0.0 - q) * n > 0.0;
  }

  /** The mean always is a score: its constructor never raises. */
  function Mean(claims: seq<Claim>): ConfidenceScore
    requires claims != []
  {
    SumsAreBounded(claims);
    QuotientInUnitInterval(Total(claims), |claims| as real);
    Total(claims) / |claims| as real
  }

  function SupportedRatio(claims: seq<Claim>): real
    requires claims != []
  {
    SupportedCount(claims) as real / |claims| as real
  }

  /** The mean and the ratio are scores, and the ratio is one exactly when every claim is fully supported. */
  lemma MeanAndRatioLieInTheUnitInterval(claims: seq<Claim>)
    requires claims != []
    ensures InUnitInterval(Mean(claims)) && InUnitInterval(SupportedRatio(claims))
    ensures SupportedRatio(claims) == 1.0 <==> forall i | 0 <= i < |claims| :: FullySupported(claims[i])
  {
    SumsAreBounded(claims);
    QuotientInUnitInterval(SupportedCount(claims) as real, |claims| as real);
  }

  /** The sum of confidences is what its name says: a claim's own for one, and additive. */
  lemma {:induction false} TotalsAddUp(left: seq<Claim>, right: seq<Claim>, c: Claim)
    ensures Total([]) == 0.0 && Total([c]) == c.confidence
    ensures Total(left + right) == Total(left) + Total(right)
    decreases |right|
  {
    assert [c][..0] == [];
    if right == [] {
      assert left + right == left;
    } else {
      TotalsAddUp(left, right[..|right| - 1], c);
      assert (left + right)[..|left + right| - 1] == left + right[..|right| - 1];
    }
  }

  /** The supported count is one for each verified or supported claim, and additive. */
  lemma {:induction false} SupportedCountsAddUp(left: seq<Claim>, right: seq<Claim>, c: Claim)
    ensures SupportedCount([]) == 0
    ensures SupportedCount([c]) == if c.status == Verified || c.status == Supported then 1 else 0
    ensures SupportedCount(left + right) == SupportedCount(left) + SupportedCount(right)
    decreases |right|
  {
    assert [c][..0] == [];
    if right == [] {
      assert left + right == left;
    } else {
      SupportedCountsAddUp(left, right[..|right| - 1], c);
      assert (left + right)[..|left + right| - 1] == left + right[..|right| - 1];
    }
  }

  /** The number, added up once for each of `n`. */
  function Times(x: real, n: nat): real {
    if n == 0 then 0.0 else Times(x, n - 1) + x
  }

  lemma {:induction false} TimesMultiplies(x: real, n: nat)
    ensures Times(x, n) == x * n as real
    decreases n
  {
    if n > 0 {
      TimesMultiplies(x, n - 1);
      var before := (n - 1) as real;
      assert n as real == before + 1.0;
      assert x * (before + 1.0) == x * before + x;
    }
  }

  /** A quotient gives the dividend when added up, and stands to a bound as the dividend to that many bounds. */
  lemma QuotientTimes(x: real, n: nat, bound: real)
    requires n > 0
    ensures Times(x / n as real, n) == x
    ensures x / n as real < bound <==> x < Times(bound, n)
  {
    var q := x / n as real;
    TimesMultiplies(q, n);
    TimesMultiplies(bound, n);
    assert q * n as real == x;
    assert q < bound ==> (bound - q) * n as real > 0.0;
    assert q >= bound ==> (q - bound) * n as real >= 0.0;
  }

  /** The mean stands to a threshold as the sum to that many thresholds. */
  lemma MeanComparesAsTheSumDoes(claims: seq<Claim>, threshold: real)
    requires claims != []
    ensures IsMeanOf(Mean(claims), claims)
    ensures Mean(claims) < threshold <==> !SumReaches(claims, threshold)
  {
    QuotientTimes(Total(claims), |claims|, threshold);
  }

  lemma RatioComparesAsTheCountDoes(claims: seq<Claim>, threshold: real)
    requires claims != []
    ensures Times(SupportedRatio(claims), |claims|) == SupportedCount(claims) as real
    ensures SupportedRatio(claims) < threshold <==> !CountReaches(claims, threshold)
  {
    QuotientTimes(SupportedCount(claims) as real, |claims|, threshold);
  }

  lemma {:induction false} TotalLiesBetween(claims: seq<Claim>, low: real, high: real)
    requires forall i | 0 <= i < |claims| :: low <= claims[i].confidence <= high
    ensures Times(low, |claims|) <= Total(claims) <= Times(high, |claims|)
    decreases |claims|
  {
    if claims != [] {
      TotalLiesBetween(claims[..|claims| - 1], low, high);
    }
  }

  /** The mean lies between any bounds on the confidences, so claims of one confidence have it as their mean. */
  lemma MeanLiesBetweenTheConfidences(claims: seq<Claim>, low: real, high: real)
    requires claims != []
    requires forall i | 0 <= i < |claims| :: low <= claims[i].confidence <= high
    ensures low <= Mean(claims) <= high
  {
    TotalLiesBetween(claims, low, high);
    MeanComparesAsTheSumDoes(claims, low);
    NotAboveTheBound(Total(claims), |claims|, high);
  }

  lemma NotAboveTheBound(x: real, n: nat, bound: real)
    requires n > 0 && x <= Times(bound, n)
    ensures x / n as real <= bound
  {
    var q := x / n as real;
    TimesMultiplies(bound, n);
    assert q * n as real == x;
    assert q > bound ==> (q - bound) * n as real > 0.0;
  }

  /** Every claim is supported or verified. */
  predicate AllSupported(claims: seq<Claim>) {
    forall i | 0 <= i < |claims| :: claims[i].status == Supported || claims[i].status == Verified
  }

  predicate SomeClaimIs(claims: seq<Claim>, status: VerificationStatus) {
    exists i :: 0 <= i < |claims| && claims[i].status == status
  }

  /** The confidences add up to the threshold for each claim. */
  predicate SumReaches(claims: seq<Claim>, threshold: real) {
    Total(claims) >= Times(threshold, |claims|)
  }

  /** The supported claims are as many as the threshold for each claim. */
  predicate CountReaches(claims: seq<Claim>, threshold: real) {
    SupportedCount(claims) as real >= Times(threshold, |claims|)
  }

  /** The number that, once for each claim, gives the sum of the confidences; zero without claims. */
  predicate IsMeanOf(confidence: real, claims: seq<Claim>) {
    if claims == [] then confidence == 0.0 else Times(confidence, |claims|) == Total(claims)
  }

  predicate AnyWith(claims: seq<Claim>, status: VerificationStatus) {
    exists c :: c in claims && c.status == status
  }

  function Given(holds: bool, reason: Reason): seq<Reason> {
    if holds then [reason] else []
  }

  function ListedReasons(unverified: bool, partial: bool, belowReview: bool, belowReady: bool, belowRatio: bool)
    : seq<Reason>
  {
    Given(unverified, UnverifiedClaim) + Given(partial, PartiallySupportedClaim)
    + Given(belowReview, ConfidenceBelowReview) + Given(belowReady, ConfidenceBelowReady)
    + Given(belowRatio, SupportedRatioBelow)
  }

  function ReviewReasons(policy: Policy, claims: seq<Claim>): seq<Reason>
    requires claims != []
  {
    ListedReasons(
      AnyWith(claims, Unverified), AnyWith(claims, PartiallySupported),
      Mean(claims) < policy.minimumReview, Mean(claims) < policy.minimumReady,
      SupportedRatio(claims) < policy.minimumRatio)
  }

  function Evaluated(policy: Policy, claims: seq<Claim>): Evaluation {
    if claims == [] then Evaluation(Ready, 0.0, [NoClaims])
    else if AnyWith(claims, Contradicted) then Evaluation(Invalid, Mean(claims), [ContradictedClaim])
    else
      var reasons := ReviewReasons(policy, claims);
      if reasons == [] then Evaluation(Ready, Mean(claims), [EvaluationPassed])
      else Evaluation(NeedsReview, Mean(claims), reasons)
  }

  method Evaluate(policy: Policy, claims: seq<Claim>) returns (r: Evaluation)
    ensures r == Evaluated(policy, claims)
    ensures r.status == Ready <==> AllSupported(claims) && SumReaches(claims, policy.minimumReady)
    ensures r.status == Invalid <==> SomeClaimIs(claims, Contradicted)
    ensures IsMeanOf(r.confidence, claims)
  {
    ReadyMeansSupportedAndConfident(policy, claims);
    if claims == [] {
      return Evaluation(Ready, 0.0, [NoClaims]);
    }
    var confidence := Mean(claims);
    if AnyWith(claims, Contradicted) {
      return Evaluation(Invalid, confidence, [ContradictedClaim]);
    }
    var reasons: seq<Reason> := [];
    if AnyWith(claims, Unverified) {
      reasons := reasons + [UnverifiedClaim];
    }
    if AnyWith(claims, PartiallySupported) {
      reasons := reasons + [PartiallySupportedClaim];
    }
    if confidence < policy.minimumReview {
      reasons := reasons + [ConfidenceBelowReview];
    }
    if confidence < policy.minimumReady {
      reasons := reasons + [ConfidenceBelowReady];
    }
    if SupportedRatio(claims) < policy.minimumRatio {
      reasons := reasons + [SupportedRatioBelow];
    }
    assert reasons == ReviewReasons(policy, claims);
    var status: ProofStatus;
    if reasons == [] {
      reasons := reasons + [EvaluationPassed];
      status := Ready;
    } else if ConfidenceBelowReview in reasons {
      status := NeedsReview;
    } else {
      status := NeedsReview;
    }
    r := Evaluation(status, confidence, reasons);
  }

  lemma ReadyMeansFullySupported(policy: Policy, claims: seq<Claim>)
    requires claims != []
    ensures Evaluated(policy, claims).status == Ready
            <==> (forall i | 0 <= i < |claims| :: FullySupported(claims[i])) && Mean(claims) >= policy.minimumReady
    ensures Evaluated(policy, claims).status == Invalid <==> AnyWith(claims, Contradicted)
  {
    MeanAndRatioLieInTheUnitInterval(claims);
    if forall i | 0 <= i < |claims| :: FullySupported(claims[i]) {
      assert forall c | c in claims :: FullySupported(c);
    } else {
      var i :| 0 <= i < |claims| && !FullySupported(claims[i]);
      assert claims[i] in claims;
      assert AnyWith(claims, claims[i].status);
    }
  }

  /**
   * A claim list is ready exactly when every claim is supported or verified and the confidences add up to the ready
   * threshold for each, and invalid exactly when some claim is contradicted; the confidence reported is the mean.
   */
  lemma ReadyMeansSupportedAndConfident(policy: Policy, claims: seq<Claim>)
    ensures Evaluated(policy, claims).status == Ready
            <==> AllSupported(claims) && SumReaches(claims, policy.minimumReady)
    ensures Evaluated(policy, claims).status == Invalid <==> SomeClaimIs(claims, Contradicted)
    ensures IsMeanOf(Evaluated(policy, claims).confidence, claims)
  {
    if claims != [] {
      ReadyMeansFullySupported(policy, claims);
      MeanComparesAsTheSumDoes(claims, policy.minimumReady);
      AnyWithMeansSomeClaimIs(claims, Contradicted);
    }
  }

  /** The ratio and review thresholds never decide the status. */
  lemma OnlyTheReadyThresholdMatters(policy: Policy, other: Policy, claims: seq<Claim>)
    requires policy.minimumReady == other.minimumReady
    ensures Evaluated(policy, claims).status == Evaluated(other, claims).status
  {
    if claims != [] {
      ReadyMeansSupportedAndConfident(policy, claims);
      ReadyMeansSupportedAndConfident(other, claims);
    }
  }

  /** Where a review reason stands among the others. */
  function Rank(reason: Reason): nat {
    match reason
    case UnverifiedClaim => 1
    case PartiallySupportedClaim => 2
    case ConfidenceBelowReview => 3
    case ConfidenceBelowReady => 4
    case SupportedRatioBelow => 5
    case _ => 0
  }

  /** The condition on the claims that a review reason names. */
  predicate Applies(reason: Reason, policy: Policy, claims: seq<Claim>) {
    match reason
    case UnverifiedClaim => SomeClaimIs(claims, Unverified)
    case PartiallySupportedClaim => SomeClaimIs(claims, PartiallySupported)
    case ConfidenceBelowReview => !SumReaches(claims, policy.minimumReview)
    case ConfidenceBelowReady => !SumReaches(claims, policy.minimumReady)
    case SupportedRatioBelow => !CountReaches(claims, policy.minimumRatio)
    case _ => false
  }

  lemma AnyWithMeansSomeClaimIs(claims: seq<Claim>, status: VerificationStatus)
    ensures AnyWith(claims, status) <==> SomeClaimIs(claims, status)
  {
    if i :| 0 <= i < |claims| && claims[i].status == status {
      assert claims[i] in claims;
    }
  }

  /** In ascending rank, so without repetitions. */
  predicate Ranked(reasons: seq<Reason>) {
    forall i, j | 0 <= i < j < |reasons| :: Rank(reasons[i]) < Rank(reasons[j])
  }

  lemma RankedWithOneMore(reasons: seq<Reason>, holds: bool, reason: Reason)
    requires Ranked(reasons) && forall x | x in reasons :: Rank(x) < Rank(reason)
    ensures Ranked(reasons + Given(holds, reason))
    ensures forall x | x in reasons + Given(holds, reason) :: Rank(x) <= Rank(reason)
    ensures forall x :: x in reasons + Given(holds, reason) <==> x in reasons || (holds && x == reason)
  {
  }

  lemma ListedReasonsAreRanked(
    unverified: bool, partial: bool, belowReview: bool, belowReady: bool, belowRatio: bool, reason: Reason)
    ensures var reasons := ListedReasons(unverified, partial, belowReview, belowReady, belowRatio);
            && Ranked(reasons)
            && (reason in reasons
                <==> match reason
                     case UnverifiedClaim => unverified
                     case PartiallySupportedClaim => partial
                     case ConfidenceBelowReview => belowReview
                     case ConfidenceBelowReady => belowReady
                     case SupportedRatioBelow => belowRatio
                     case _ => false)
  {
    var one := Given(unverified, UnverifiedClaim);
    var two := one + Given(partial, PartiallySupportedClaim);
    var three := two + Given(belowReview, ConfidenceBelowReview);
    var four := three + Given(belowReady, ConfidenceBelowReady);
    RankedWithOneMore(one, partial, PartiallySupportedClaim);
    RankedWithOneMore(two, belowReview, ConfidenceBelowReview);
    RankedWithOneMore(three, belowReady, ConfidenceBelowReady);
    RankedWithOneMore(four, belowRatio, SupportedRatioBelow);
  }

  lemma ReviewReasonsApply(policy: Policy, claims: seq<Claim>, reason: Reason)
    requires claims != []
    ensures reason in ReviewReasons(policy, claims) <==> Applies(reason, policy, claims)
    ensures Ranked(ReviewReasons(policy, claims))
  {
    MeanComparesAsTheSumDoes(claims, policy.minimumReview);
    MeanComparesAsTheSumDoes(claims, policy.minimumReady);
    RatioComparesAsTheCountDoes(claims, policy.minimumRatio);
    AnyWithMeansSomeClaimIs(claims, Unverified);
    AnyWithMeansSomeClaimIs(claims, PartiallySupported);
    ListedReasonsAreRanked(
      AnyWith(claims, Unverified), AnyWith(claims, PartiallySupported),
      Mean(claims) < policy.minimumReview, Mean(claims) < policy.minimumReady,
      SupportedRatio(claims) < policy.minimumRatio, reason);
  }

  /** The reasons given: those that apply, in their fixed order, or the one that settles the evaluation. */
  lemma ReasonsAreThoseThatApply(policy: Policy, claims: seq<Claim>)
    ensures var reasons := Evaluated(policy, claims).reasons;
            if claims == [] then reasons == [NoClaims]
            else if SomeClaimIs(claims, Contradicted) then reasons == [ContradictedClaim]
            else if forall reason: Reason :: !Applies(reason, policy, claims) then reasons == [EvaluationPassed]
            else Ranked(reasons) && forall reason: Reason :: reason in reasons <==> Applies(reason, policy, claims)
  {
    if claims != [] {
      AnyWithMeansSomeClaimIs(claims, Contradicted);
      var reasons := ReviewReasons(policy, claims);
      forall reason: Reason
        ensures reason in reasons <==> Applies(reason, policy, claims)
      {
        ReviewReasonsApply(policy, claims, reason);
      }
      ReviewReasonsApply(policy, claims, NoClaims);
      if reasons != [] {
        assert reasons[0] in reasons;
      }
    }
  }

  lemma {:induction false} SumsWithout(claims: seq<Claim>, k: nat)
    requires k < |claims|
    ensures Total(claims) == Total(Popped(claims, k)) + claims[k].confidence
    ensures SupportedCount(claims) == SupportedCount(Popped(claims, k)) + if FullySupported(claims[k]) then 1 else 0
    decreases |claims|
  {
    var last := |claims| - 1;
    if k == last {
      assert Popped(claims, k) == claims[..last];
    } else {
      SumsWithout(claims[..last], k);
      assert Popped(claims, k)[..last - 1] == Popped(claims[..last], k);
    }
  }

  lemma MatchingClaim(left: seq<Claim>, right: seq<Claim>) returns (k: nat)
    requires multiset(left) == multiset(right) && left != []
    ensures k < |right| && right[k] == left[|left| - 1]
    ensures multiset(left[..|left| - 1]) == multiset(Popped(right, k))
  {
    var last := |left| - 1;
    assert left[last] in multiset(right);
    k :| 0 <= k < |right| && right[k] == left[last];
    PoppingKeepsTheOthers(left, last);
    PoppingKeepsTheOthers(right, k);
    assert Popped(left, last) == left[..last];
    assert multiset(left[..last]) == multiset(left) - multiset{left[last]} == multiset(Popped(right, k));
  }

  lemma {:induction false} SumsIgnoreOrder(left: seq<Claim>, right: seq<Claim>)
    requires multiset(left) == multiset(right)
    ensures |left| == |right| && Total(left) == Total(right) && SupportedCount(left) == SupportedCount(right)
    decreases |left|
  {
    assert |left| == |multiset(left)| == |multiset(right)| == |right|;
    if left != [] {
      var k := MatchingClaim(left, right);
      SumsIgnoreOrder(left[..|left| - 1], Popped(right, k));
      SumsWithout(right, k);
    }
  }

  /** The evaluation does not depend on the order of the claims. */
  lemma EvaluationIgnoresClaimOrder(policy: Policy, left: seq<Claim>, right: seq<Claim>)
    requires multiset(left) == multiset(right)
    ensures Evaluated(policy, left) == Evaluated(policy, right)
  {
    SumsIgnoreOrder(left, right);
    forall c
      ensures c in left <==> c in right
    {
      assert c in left <==> c in multiset(left);
      assert c in right <==> c in multiset(right);
    }
  }
}
