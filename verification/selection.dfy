/**
  Assembling a quiz from the two question banks.

  The quiz takes int(N * 0.6) questions from the specific bank, tops up from
  the general bank, falls back to drawing from both banks concatenated when
  that still leaves it short of N, and shuffles the result.
 */
module Selection {

  import opened Questions

  function Min(a: int, b: int): (m: int)
    ensures m <= a && m <= b
    ensures m == a || m == b
  {
    if a <= b then a else b
  }

  /** Python's `s[:k]` for a non-negative `k`: the first `k` elements, or all of them. */
  function Take<T>(s: seq<T>, k: nat): (r: seq<T>)
    ensures |r| == Min(k, |s|)
    ensures r <= s
  {
    if k <= |s| then s[..k] else s
  }

  /** A prefix never holds an element more often than the whole sequence. */
  lemma PrefixSubMultiset<T>(s: seq<T>, k: nat)
    requires k <= |s|
    ensures multiset(s[..k]) <= multiset(s)
  {
    assert s == s[..k] + s[k..];
  }

  lemma TakeSubMultiset<T>(s: seq<T>, k: nat)
    ensures multiset(Take(s, k)) <= multiset(s)
  {
    if k <= |s| {
      PrefixSubMultiset(s, k);
    }
  }

  /**
    `random.shuffle`: some permutation of `s`. Each step moves an arbitrarily
    chosen remaining element to the output, so every permutation is a
    possible outcome and callers may rely on nothing but the postcondition.
   */
  method Shuffle<T>(s: seq<T>) returns (r: seq<T>)
    ensures |r| == |s|
    ensures multiset(r) == multiset(s)
  {
    r := [];
    var rest := s;
    while |rest| > 0
      invariant |r| + |rest| == |s|
      invariant multiset(r) + multiset(rest) == multiset(s)
      decreases |rest|
    {
      var i :| 0 <= i < |rest|;
      assert rest == rest[..i] + [rest[i]] + rest[i + 1..];
      r := r + [rest[i]];
      rest := rest[..i] + rest[i + 1..];
    }
  }

  /** int(N * 0.6) for the quiz sizes the application offers. */
  function SpecificTarget(n: nat): nat {
    n * 3 / 5
  }

  /** How many questions the first step takes from a specific bank of `specificCount` questions. */
  function SpecificQuota(n: nat, specificCount: nat): (m: nat)
    ensures m <= specificCount && m <= SpecificTarget(n) && m <= n
    ensures m == specificCount || m == SpecificTarget(n)
  {
    Min(specificCount, SpecificTarget(n))
  }

  /** The general bank can top the specific share up to `n`, so no fallback is needed. */
  predicate GeneralSuffices(n: nat, specificCount: nat, generalCount: nat) {
    generalCount >= n - SpecificQuota(n, specificCount)
  }

  /** The specific share of the first draw from an already shuffled specific bank. */
  function SpecificPart(n: nat, specific: seq<Question>): (a: seq<Question>)
    ensures |a| == SpecificQuota(n, |specific|)
    ensures multiset(a) <= multiset(specific)
  {
    if |specific| > 0 then
      TakeSubMultiset(specific, SpecificTarget(n));
      Take(specific, SpecificTarget(n))
    else []
  }

  /** The general top-up after `taken` specific questions, from an already shuffled general bank. */
  function GeneralPart(n: nat, taken: nat, general: seq<Question>): (a: seq<Question>)
    ensures taken <= n ==> |a| == Min(|general|, n - taken)
    ensures multiset(a) <= multiset(general)
  {
    if |general| > 0 && n - taken > 0 then
      TakeSubMultiset(general, n - taken);
      Take(general, n - taken)
    else []
  }

  /**
    The questions collected before the fallback test, from already shuffled
    banks: the specific share followed by the general top-up.
   */
  function FirstDraw(n: nat, specific: seq<Question>, general: seq<Question>): (a: seq<Question>)
    ensures |a| == n <==> GeneralSuffices(n, |specific|, |general|)
    ensures |a| <= n && |a| <= |specific| + |general|
    ensures multiset(a) <= multiset(specific) + multiset(general)
  {
    var s := SpecificPart(n, specific);
    var g := GeneralPart(n, |s|, general);
    assert multiset(s + g) == multiset(s) + multiset(g);
    s + g
  }

  /** Without the fallback, the first draw is the full specific quota plus the rest of `n` from the general bank. */
  lemma FirstDrawSplit(n: nat, specific: seq<Question>, general: seq<Question>)
    requires GeneralSuffices(n, |specific|, |general|)
    ensures var s := SpecificPart(n, specific);
            var g := GeneralPart(n, |s|, general);
            && multiset(FirstDraw(n, specific, general)) == multiset(s) + multiset(g)
            && |g| == n - SpecificQuota(n, |specific|)
            && n <= |specific| + |general|
  {
  }

  /** The fallback: shuffle both banks together and keep the first `n`. */
  method DrawFromBoth(n: nat, specific: seq<Question>, general: seq<Question>) returns (r: seq<Question>)
    ensures |r| == Min(n, |specific| + |general|)
    ensures multiset(r) <= multiset(specific) + multiset(general)
  {
    var all := Shuffle(specific + general);
    r := Take(all, n);
    TakeSubMultiset(all, n);
  }

  /**
    `QuestionManager.prepare_questions`, with the two banks passed in (an
    absent or unreadable bank is an empty one). The ghost outputs name the
    draw: whether the fallback over both banks was taken and, when the
    general bank covers the rest of the quota, which questions came from
    which bank.
   */
  method PrepareQuestions(n: nat, specific: seq<Question>, general: seq<Question>)
    returns (r: seq<Question>, ghost fallback: bool,
             ghost fromSpecific: multiset<Question>, ghost fromGeneral: multiset<Question>)
    ensures |r| == Min(n, |specific| + |general|)
    ensures n > 0 ==> (|r| == 0 <==> |specific| == 0 && |general| == 0)
    ensures multiset(r) <= multiset(specific) + multiset(general)
    ensures |specific| == 0 ==> multiset(r) <= multiset(general)
    ensures |general| == 0 ==> multiset(r) <= multiset(specific)
    ensures fallback <==> |specific| + |general| > 0 && !GeneralSuffices(n, |specific|, |general|)
    ensures GeneralSuffices(n, |specific|, |general|) ==>
              && multiset(r) == fromSpecific + fromGeneral
              && fromSpecific <= multiset(specific)
              && |fromSpecific| == SpecificQuota(n, |specific|)
              && fromGeneral <= multiset(general)
              && |fromGeneral| == n - SpecificQuota(n, |specific|)
  {
    if |specific| == 0 && |general| == 0 {
      r, fallback, fromSpecific, fromGeneral := [], false, multiset{}, multiset{};
      return;
    }
    // The application shuffles a bank only when it is non-empty; shuffling
    // an empty bank changes nothing, so both are shuffled here.
    var specificShuffled := Shuffle(specific);
    var generalShuffled := Shuffle(general);
    var available := FirstDraw(n, specificShuffled, generalShuffled);
    ghost var s := SpecificPart(n, specificShuffled);
    fromSpecific, fromGeneral := multiset(s), multiset(GeneralPart(n, |s|, generalShuffled));
    fallback := |available| < n;
    if |available| < n {
      available := DrawFromBoth(n, specificShuffled, generalShuffled);
    } else {
      FirstDrawSplit(n, specificShuffled, generalShuffled);
    }
    r := Shuffle(available);
  }
}
