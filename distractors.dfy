/**
 * Stage 3 of scripts/generate-puzzle.py: the acceptance filter that
 * `stage3_generate_distractors_for_question` applies to the candidates parsed
 * from the language model's reply, and the retry loop `gen` that
 * `stage3_parallel_distractors` runs for each question. Each reply (or the
 * exception raised instead of one) is an input.
 */
module Distractors {
  import opened Wrappers
  import opened Seqs
  import opened Text
  import opened Disguise
  import opened Validation

  /**
   * One parsed candidate: its `word` (the empty string when the key is absent,
   * as `.get('word', '')` reads it) and its `type`, if present.
   */
  datatype Candidate = Candidate(word: string, kind: Option<string>)

  /** How many distractors a question shows. */
  const Wanted := 3

  /** `max_retries`: `gen` makes at most this many calls after the first. */
  const MaxRetries := 2

  /** The filter loop rewrites each candidate's word upper-cased, `d['word'] = word`. */
  function Normalized(c: Candidate): (r: Candidate)
    ensures r.kind == c.kind && NoLower(r.word)
    ensures |r.word| == |c.word| && forall k :: 0 <= k < |c.word| ==> r.word[k] == ToUpper(c.word[k])
  {
    c.(word := Upper(c.word))
  }

  function NormalizedAll(cs: seq<Candidate>): (r: seq<Candidate>)
    ensures |r| == |cs|
    ensures forall k :: 0 <= k < |cs| ==> r[k] == Normalized(cs[k])
  {
    seq(|cs|, k requires 0 <= k < |cs| => Normalized(cs[k]))
  }

  /**
   * The test a candidate's upper-cased word must pass: non-empty, neither the
   * answer nor the prompt upper-cased, and with a non-empty skeleton other than
   * the answer's.
   */
  predicate Acceptable(promptWord: string, answerWord: string, word: string) {
    word != [] && word != Upper(answerWord) && word != Upper(promptWord) &&
    Skeleton(word) != Skeleton(answerWord) && Skeleton(word) != []
  }

  /** The list `valid`: the normalised candidates that pass, in their original order. */
  function Passing(promptWord: string, answerWord: string, cs: seq<Candidate>): (r: seq<Candidate>)
    ensures |r| <= |cs|
    ensures forall k :: 0 <= k < |r| ==> Acceptable(promptWord, answerWord, r[k].word)
    decreases |cs|
  {
    if cs == [] then []
    else
      var c := Normalized(cs[|cs| - 1]);
      Passing(promptWord, answerWord, cs[..|cs| - 1]) +
      (if Acceptable(promptWord, answerWord, c.word) then [c] else [])
  }

  /**
   * What the filter returns: the first three passing candidates when there are
   * three, else the first three candidates whatever they are, their words
   * already upper-cased.
   */
  function Selection(promptWord: string, answerWord: string, cs: seq<Candidate>): (r: seq<Candidate>)
    ensures |r| <= Wanted
  {
    var valid := Passing(promptWord, answerWord, cs);
    if |valid| < Wanted then Take(NormalizedAll(cs), Wanted) else Take(valid, Wanted)
  }

  /**
   * The filter loop of `stage3_generate_distractors_for_question`: it
   * upper-cases every candidate's word in place and returns the selection.
   */
  method FilterCandidates(promptWord: string, answerWord: string, ds: array<Candidate>)
    returns (r: seq<Candidate>)
    modifies ds
    ensures ds[..] == NormalizedAll(old(ds[..]))
    ensures r == Selection(promptWord, answerWord, old(ds[..]))
  {
    var valid := NormalizeAndCollect(promptWord, answerWord, ds);
    if |valid| < Wanted {
      return Take(ds[..], Wanted);
    }
    return Take(valid, Wanted);
  }

  /** The loop itself: upper-case each word in place and collect the candidates that pass. */
  method NormalizeAndCollect(promptWord: string, answerWord: string, ds: array<Candidate>)
    returns (valid: seq<Candidate>)
    modifies ds
    ensures ds[..] == NormalizedAll(old(ds[..]))
    ensures valid == Passing(promptWord, answerWord, old(ds[..]))
  {
    ghost var orig := ds[..];
    var skeleton := Skeleton(answerWord);
    valid := [];
    for i := 0 to ds.Length
      invariant forall k :: 0 <= k < i ==> ds[k] == Normalized(orig[k])
      invariant forall k :: i <= k < ds.Length ==> ds[k] == orig[k]
      invariant valid == Passing(promptWord, answerWord, orig[..i])
    {
      PassingStep(promptWord, answerWord, orig, i);
      var c := ds[i].(word := Upper(ds[i].word));
      ds[i] := c;
      var word := c.word;
      if word != [] && word != Upper(answerWord) && word != Upper(promptWord) {
        var dSkel := Skeleton(word);
        if dSkel != skeleton && dSkel != [] {
          valid := valid + [c];
        }
      }
    }
    assert orig[..ds.Length] == orig;
    assert ds[..] == NormalizedAll(orig);
  }

  lemma PassingStep(promptWord: string, answerWord: string, cs: seq<Candidate>, i: nat)
    requires i < |cs|
    ensures var c := Normalized(cs[i]);
      Passing(promptWord, answerWord, cs[..i + 1]) ==
      Passing(promptWord, answerWord, cs[..i]) + (if Acceptable(promptWord, answerWord, c.word) then [c] else [])
  {
    assert cs[..i + 1][..i] == cs[..i];
  }

  /** The positions of the passing candidates, in the order the loop meets them. */
  ghost function PassingIndices(promptWord: string, answerWord: string, cs: seq<Candidate>): (r: seq<nat>)
    ensures |r| == |Passing(promptWord, answerWord, cs)|
    ensures forall t :: 0 <= t < |r| ==> r[t] < |cs|
    decreases |cs|
  {
    if cs == [] then []
    else
      var c := Normalized(cs[|cs| - 1]);
      PassingIndices(promptWord, answerWord, cs[..|cs| - 1]) +
      (if Acceptable(promptWord, answerWord, c.word) then [|cs| - 1] else [])
  }

  /** The t-th passing candidate is the normalised candidate at the t-th recorded position. */
  lemma {:induction false} PassingAtIndices(promptWord: string, answerWord: string, cs: seq<Candidate>)
    ensures var r := Passing(promptWord, answerWord, cs);
      var idx := PassingIndices(promptWord, answerWord, cs);
      forall t :: 0 <= t < |idx| ==> r[t] == Normalized(cs[idx[t]])
    decreases |cs|
  {
    if cs != [] {
      var init := cs[..|cs| - 1];
      PassingAtIndices(promptWord, answerWord, init);
      var r0, idx0 := Passing(promptWord, answerWord, init), PassingIndices(promptWord, answerWord, init);
      assert forall t :: 0 <= t < |PassingIndices(promptWord, answerWord, init)| ==> Passing(promptWord, answerWord, init)[t] == Normalized(init[PassingIndices(promptWord, answerWord, init)[t]]);
      var r, idx := Passing(promptWord, answerWord, cs), PassingIndices(promptWord, answerWord, cs);
      var c := Normalized(cs[|cs| - 1]);
      if Acceptable(promptWord, answerWord, c.word) {
        assert r == r0 + [c] && idx == idx0 + [|cs| - 1];
      } else {
        assert r == r0 && idx == idx0;
      }
      forall t | 0 <= t < |idx| ensures r[t] == Normalized(cs[idx[t]]) {
        if t < |idx0| {
          assert r[t] == r0[t] && idx[t] == idx0[t];
          assert cs[idx0[t]] == init[idx0[t]];
        }
      }
    }
  }

  /** The recorded positions increase, so `valid` keeps the candidates' order. */
  lemma {:induction false} PassingIndicesIncrease(promptWord: string, answerWord: string, cs: seq<Candidate>)
    ensures var idx := PassingIndices(promptWord, answerWord, cs);
      forall s, t :: 0 <= s < t < |idx| ==> idx[s] < idx[t]
    decreases |cs|
  {
    if cs != [] {
      var init := cs[..|cs| - 1];
      PassingIndicesIncrease(promptWord, answerWord, init);
      assert forall s, t :: 0 <= s < t < |PassingIndices(promptWord, answerWord, init)| ==>
        PassingIndices(promptWord, answerWord, init)[s] < PassingIndices(promptWord, answerWord, init)[t];
      var idx0, idx := PassingIndices(promptWord, answerWord, init), PassingIndices(promptWord, answerWord, cs);
      assert idx == idx0 || idx == idx0 + [|cs| - 1];
      forall s, t | 0 <= s < t < |idx| ensures idx[s] < idx[t] {
        assert idx[s] == idx0[s] && idx0[s] < |init|;
        if t < |idx0| {
          assert idx[t] == idx0[t];
        }
      }
    }
  }

  /** A position is recorded exactly when its candidate's upper-cased word is acceptable. */
  lemma {:induction false} PassingIndicesExact(promptWord: string, answerWord: string, cs: seq<Candidate>)
    ensures var idx := PassingIndices(promptWord, answerWord, cs);
      forall j :: 0 <= j < |cs| ==> (Acceptable(promptWord, answerWord, Upper(cs[j].word)) <==> j in idx)
    decreases |cs|
  {
    if cs != [] {
      var init := cs[..|cs| - 1];
      PassingIndicesExact(promptWord, answerWord, init);
      forall j | 0 <= j < |cs| - 1
        ensures (Acceptable(promptWord, answerWord, Upper(cs[j].word)) <==> j in PassingIndices(promptWord, answerWord, cs))
      {
        assert init[j] == cs[j];
      }
    }
  }

  /** With three acceptable candidates the filter returns the first three of them. */
  lemma EnoughPassing(promptWord: string, answerWord: string, cs: seq<Candidate>)
    requires |Passing(promptWord, answerWord, cs)| >= Wanted
    ensures var r := Selection(promptWord, answerWord, cs);
      r == Passing(promptWord, answerWord, cs)[..Wanted] &&
      forall k :: 0 <= k < |r| ==> Acceptable(promptWord, answerWord, r[k].word)
  {
  }

  /**
   * With fewer than three acceptable candidates the filter pads with the raw
   * list: the first three candidates, upper-cased, acceptable or not.
   */
  lemma TooFewPassing(promptWord: string, answerWord: string, cs: seq<Candidate>)
    requires |Passing(promptWord, answerWord, cs)| < Wanted
    ensures var r := Selection(promptWord, answerWord, cs);
      |r| == Min(Wanted, |cs|) &&
      forall k :: 0 <= k < |r| ==> r[k] == Normalized(cs[k]) && NoLower(r[k].word)
  {
  }

  /** The padding can hand back the answer itself as a distractor. */
  lemma PaddingKeepsAnswer()
    ensures Selection("feline", "cat", [Candidate("cat", None)]) == [Candidate("CAT", None)]
  {
    var cs := [Candidate("cat", None)];
    assert Upper("cat") == "CAT";
    assert !Acceptable("feline", "cat", "CAT");
    assert cs[..0] == [];
    assert Passing("feline", "cat", cs) == [];
  }

  /** One call of the question's generator: the exception it raised, or the parsed candidates. */
  datatype Attempt = Raised | Returned(candidates: seq<Candidate>)

  /**
   * `gen` from attempt `n` on, where `last` is the value the name
   * `distractors` holds ([] while no call has returned).
   */
  function GenFrom(promptWord: string, answerWord: string, outcomes: seq<Attempt>, n: nat, last: seq<Candidate>): (r: seq<Candidate>)
    requires n <= |outcomes|
    requires |last| <= Wanted
    ensures |r| <= Wanted
    decreases |outcomes| - n
  {
    if n == |outcomes| then last
    else
      match outcomes[n]
      case Raised => GenFrom(promptWord, answerWord, outcomes, n + 1, last)
      case Returned(cs) =>
        var got := Selection(promptWord, answerWord, cs);
        if |got| >= Wanted then Take(got, Wanted)
        else GenFrom(promptWord, answerWord, outcomes, n + 1, got)
  }

  /** The distractors `gen` produces for a pair, given the outcome of each of its calls. */
  function Gen(pair: Pair, outcomes: seq<Attempt>): (r: seq<Candidate>)
    requires |outcomes| == MaxRetries + 1
    ensures |r| <= Wanted
  {
    GenFrom(pair.prompt, pair.answer, outcomes, 0, [])
  }

  /** The selection of the last call among the first n that returned, or [] if none did. */
  function LastReturned(promptWord: string, answerWord: string, outcomes: seq<Attempt>, n: nat): seq<Candidate>
    requires n <= |outcomes|
  {
    if n == 0 then []
    else
      match outcomes[n - 1]
      case Raised => LastReturned(promptWord, answerWord, outcomes, n - 1)
      case Returned(cs) => Selection(promptWord, answerWord, cs)
  }

  /** A call that returned three selected candidates. */
  predicate Succeeded(promptWord: string, answerWord: string, a: Attempt) {
    a.Returned? && |Selection(promptWord, answerWord, a.candidates)| >= Wanted
  }

  /** The first call that selects three candidates decides the result; later calls are not made. */
  lemma {:induction false} FirstSuccessWins(promptWord: string, answerWord: string, outcomes: seq<Attempt>, n: nat, last: seq<Candidate>, k: nat)
    requires n <= k < |outcomes| && |last| <= Wanted
    requires forall j :: n <= j < k ==> !Succeeded(promptWord, answerWord, outcomes[j])
    requires Succeeded(promptWord, answerWord, outcomes[k])
    ensures GenFrom(promptWord, answerWord, outcomes, n, last) == Selection(promptWord, answerWord, outcomes[k].candidates)
    decreases k - n
  {
    if n < k {
      assert !Succeeded(promptWord, answerWord, outcomes[n]);
      match outcomes[n]
      case Raised => FirstSuccessWins(promptWord, answerWord, outcomes, n + 1, last, k);
      case Returned(cs) =>
        FirstSuccessWins(promptWord, answerWord, outcomes, n + 1, Selection(promptWord, answerWord, cs), k);
    }
  }

  /**
   * When no call selects three candidates, `gen` gives what the last call that
   * returned selected, or [] when every call raised.
   */
  lemma {:induction false} NoSuccessKeepsLast(promptWord: string, answerWord: string, outcomes: seq<Attempt>, n: nat, last: seq<Candidate>)
    requires n <= |outcomes| && |last| <= Wanted
    requires last == LastReturned(promptWord, answerWord, outcomes, n)
    requires forall j :: n <= j < |outcomes| ==> !Succeeded(promptWord, answerWord, outcomes[j])
    ensures GenFrom(promptWord, answerWord, outcomes, n, last) == LastReturned(promptWord, answerWord, outcomes, |outcomes|)
    decreases |outcomes| - n
  {
    if n < |outcomes| {
      assert !Succeeded(promptWord, answerWord, outcomes[n]);
      match outcomes[n]
      case Raised =>
        NoSuccessKeepsLast(promptWord, answerWord, outcomes, n + 1, last);
      case Returned(cs) =>
        NoSuccessKeepsLast(promptWord, answerWord, outcomes, n + 1, Selection(promptWord, answerWord, cs));
    }
  }

  /** `gen` for one question: up to three calls, stopping at the first that yields three distractors. */
  method GenerateFor(pair: Pair, outcomes: seq<Attempt>) returns (r: seq<Candidate>)
    requires |outcomes| == MaxRetries + 1
    ensures r == Gen(pair, outcomes)
  {
    var last: seq<Candidate> := [];
    for attempt := 0 to MaxRetries + 1
      invariant |last| <= Wanted
      invariant GenFrom(pair.prompt, pair.answer, outcomes, attempt, last) == Gen(pair, outcomes)
    {
      match outcomes[attempt]
      case Raised =>
      case Returned(cs) =>
        var ds := new Candidate[|cs|](k requires 0 <= k < |cs| => cs[k]);
        assert ds[..] == cs;
        var got := FilterCandidates(pair.prompt, pair.answer, ds);
        if |got| >= Wanted {
          return Take(got, Wanted);
        }
        last := got;
    }
    return last;
  }

  /**
   * `stage3_parallel_distractors`: every question's `gen` result lands in its
   * own slot of `results`, which starts as `[None] * len(pairs)`.
   */
  method ParallelDistractors(pairs: seq<Pair>, outcomes: seq<seq<Attempt>>) returns (results: array<Option<seq<Candidate>>>)
    requires |outcomes| == |pairs|
    requires forall i :: 0 <= i < |pairs| ==> |outcomes[i]| == MaxRetries + 1
    ensures fresh(results) && results.Length == |pairs|
    ensures forall i :: 0 <= i < |pairs| ==> results[i] == Some(Gen(pairs[i], outcomes[i]))
  {
    results := new Option<seq<Candidate>>[|pairs|](_ => None);
    for idx := 0 to |pairs|
      invariant forall i :: 0 <= i < idx ==> results[i] == Some(Gen(pairs[i], outcomes[i]))
    {
      var distractors := GenerateFor(pairs[idx], outcomes[idx]);
      results[idx] := Some(distractors);
    }
  }
}
