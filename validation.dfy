/**
 * `stage2_validate` of scripts/generate-puzzle.py: the deterministic checks a
 * list of prompt/answer pairs must pass before distractors are generated.
 */
module Validation {
  import opened Seqs
  import opened Text
  import opened Disguise

  /**
   * A prompt/answer pair as the generator receives it. A key absent from the
   * parsed object reads as the empty string, which is what `.get(key, '')` gives.
   */
  datatype Pair = Pair(prompt: string, answer: string, emoji: string)

  /** The six pairs a puzzle is made of. */
  const PairCount := 6

  datatype ValidationError =
    | WrongCount(got: nat)
    | MissingField(pair: nat)
    | SameWord(pair: nat, prompt: string, answer: string)
    | DuplicatePrompts
    | DuplicateAnswers
    | SkeletonCollision(later: string, earlier: string, skeleton: string)

  /** The message the source appends for each error. */
  function Message(e: ValidationError): string {
    match e
    case WrongCount(n) => "Expected 6 pairs, got " + NatToString(n)
    case MissingField(i) => "Pair " + NatToString(i + 1) + ": missing prompt or answer"
    case SameWord(i, p, a) => "Pair " + NatToString(i + 1) + ": prompt \"" + p + "\" == answer \"" + a + "\""
    case DuplicatePrompts => "Duplicate prompts found"
    case DuplicateAnswers => "Duplicate answers found"
    case SkeletonCollision(later, earlier, sk) =>
      "Skeleton collision: \"" + later + "\" and \"" + earlier + "\" both produce \"" + sk + "\""
  }

  function Messages(es: seq<ValidationError>): (r: seq<string>)
    ensures |r| == |es|
    ensures forall k :: 0 <= k < |es| ==> r[k] == Message(es[k])
  {
    seq(|es|, k requires 0 <= k < |es| => Message(es[k]))
  }

  /** A pair's prompt and answer once `strip()` has been applied to them. */
  datatype Words = Words(prompt: string, answer: string)

  function Stripped(pairs: seq<Pair>): (r: seq<Words>)
    ensures |r| == |pairs|
    ensures forall k :: 0 <= k < |pairs| ==> r[k] == Words(Strip(pairs[k].prompt), Strip(pairs[k].answer))
  {
    seq(|pairs|, k requires 0 <= k < |pairs| => Words(Strip(pairs[k].prompt), Strip(pairs[k].answer)))
  }

  /** A pair whose stripped prompt or answer is empty. */
  predicate Missing(w: Words) {
    w.prompt == [] || w.answer == []
  }

  /** A pair the per-pair loop records nothing for. */
  predicate PairOk(w: Words) {
    !Missing(w) && Lower(w.prompt) != Lower(w.answer)
  }

  /** The errors the per-pair loop appends for pair i. */
  function PairError(w: Words, i: nat): (r: seq<ValidationError>)
    ensures |r| == 0 <==> PairOk(w)
  {
    if Missing(w) then [MissingField(i)]
    else if Lower(w.prompt) == Lower(w.answer) then [SameWord(i, w.prompt, w.answer)]
    else []
  }

  /** The errors of the per-pair loop over the first n pairs. */
  function PairErrors(ws: seq<Words>, n: nat): seq<ValidationError>
    requires n <= |ws|
  {
    if n == 0 then [] else PairErrors(ws, n - 1) + PairError(ws[n - 1], n - 1)
  }

  /** The pairs among the first n that take part in the duplicate checks. */
  function Kept(ws: seq<Words>, n: nat): (r: seq<Words>)
    requires n <= |ws|
    ensures |r| <= n
    ensures forall k :: 0 <= k < |r| ==> !Missing(r[k])
  {
    if n == 0 then [] else Kept(ws, n - 1) + (if Missing(ws[n - 1]) then [] else [ws[n - 1]])
  }

  function Prompts(ws: seq<Words>): (r: seq<string>)
    ensures |r| == |ws|
  {
    seq(|ws|, k requires 0 <= k < |ws| => Lower(ws[k].prompt))
  }

  function Answers(ws: seq<Words>): (r: seq<string>)
    ensures |r| == |ws|
  {
    seq(|ws|, k requires 0 <= k < |ws| => Upper(ws[k].answer))
  }

  function Skeletons(ws: seq<Words>): (r: seq<string>)
    ensures |r| == |ws|
  {
    seq(|ws|, k requires 0 <= k < |ws| => Skeleton(ws[k].answer))
  }

  /** The index of the last occurrence of x in s. */
  function LastIndexOf(s: seq<string>, x: string): (r: nat)
    requires x in s
    ensures r < |s| && s[r] == x
    ensures forall k :: r < k < |s| ==> s[k] != x
  {
    if s[|s| - 1] == x then |s| - 1 else LastIndexOf(s[..|s| - 1], x)
  }

  /**
   * The collision errors of the first n skeletons: each one already seen names
   * its own answer and the answer of the latest earlier entry with that skeleton.
   */
  function Collisions(sk: seq<string>, ans: seq<string>, n: nat): seq<ValidationError>
    requires |sk| == |ans| && n <= |sk|
  {
    if n == 0 then []
    else
      Collisions(sk, ans, n - 1) +
      (if sk[n - 1] in sk[..n - 1]
       then [SkeletonCollision(ans[n - 1], ans[LastIndexOf(sk[..n - 1], sk[n - 1])], sk[n - 1])]
       else [])
  }

  /** The errors of the checks after the count, over the stripped pairs. */
  function ErrorsOf(ws: seq<Words>): seq<ValidationError> {
    var kept := Kept(ws, |ws|);
    var sk := Skeletons(kept);
    PairErrors(ws, |ws|) +
    (if Distinct(Prompts(kept)) then [] else [DuplicatePrompts]) +
    (if Distinct(Answers(kept)) then [] else [DuplicateAnswers]) +
    (if Distinct(sk) then [] else Collisions(sk, Answers(kept), |sk|))
  }

  /** The errors `stage2_validate` reports, in the order it reports them. */
  function ValidationErrors(pairs: seq<Pair>): seq<ValidationError> {
    if |pairs| != PairCount then [WrongCount(|pairs|)] else ErrorsOf(Stripped(pairs))
  }

  lemma KeptAppend(kept: seq<Words>, w: Words)
    ensures Prompts(kept + [w]) == Prompts(kept) + [Lower(w.prompt)]
    ensures Answers(kept + [w]) == Answers(kept) + [Upper(w.answer)]
    ensures Skeletons(kept + [w]) == Skeletons(kept) + [Skeleton(w.answer)]
  {
  }

  lemma MessagesAppend(es: seq<ValidationError>, e: ValidationError)
    ensures Messages(es + [e]) == Messages(es) + [Message(e)]
  {
  }

  lemma MessagesConcat(es: seq<ValidationError>, more: seq<ValidationError>)
    ensures Messages(es + more) == Messages(es) + Messages(more)
  {
  }

  /** `stage2_validate`: `ok` holds exactly when no error was recorded. */
  method Validate(pairs: seq<Pair>) returns (ok: bool, errors: seq<string>)
    ensures errors == Messages(ValidationErrors(pairs))
    ensures ok <==> errors == []
  {
    if |pairs| != PairCount {
      errors := [Message(WrongCount(|pairs|))];
      return false, errors;
    }
    var ws := Stripped(pairs);
    errors := CheckStripped(ws);
    ok := |errors| == 0;
  }

  /** The checks of `stage2_validate` after the count, on the stripped words, in the order it appends them. */
  method CheckStripped(ws: seq<Words>) returns (errors: seq<string>)
    ensures errors == Messages(ErrorsOf(ws))
  {
    ghost var es;
    var prompts, answers, skeletons;
    es, errors, prompts, answers, skeletons := CheckPairs(ws);
    ghost var kept := Kept(ws, |ws|);
    ghost var e0 := PairErrors(ws, |ws|);
    ghost var e1 := if Distinct(Prompts(kept)) then [] else [DuplicatePrompts];
    ghost var e2 := if Distinct(Answers(kept)) then [] else [DuplicateAnswers];
    ghost var e3 := if Distinct(skeletons) then [] else Collisions(skeletons, answers, |skeletons|);
    assert ErrorsOf(ws) == e0 + e1 + e2 + e3;
    DistinctIffCardinality(prompts);
    if |SetOf(prompts)| != |prompts| {
      MessagesAppend(es, DuplicatePrompts);
      es := es + [DuplicatePrompts];
      errors := errors + [Message(DuplicatePrompts)];
    }
    assert es == e0 + e1;
    DistinctIffCardinality(answers);
    if |SetOf(answers)| != |answers| {
      MessagesAppend(es, DuplicateAnswers);
      es := es + [DuplicateAnswers];
      errors := errors + [Message(DuplicateAnswers)];
    }
    assert es == e0 + e1 + e2;
    DistinctIffCardinality(skeletons);
    if |SetOf(skeletons)| != |skeletons| {
      es, errors := ReportCollisions(skeletons, answers, es, errors);
    }
    assert es == e0 + e1 + e2 + e3;
  }

  /** The per-pair loop of `stage2_validate` over the stripped words: its errors and the three lists it builds. */
  method CheckPairs(ws: seq<Words>)
    returns (ghost es: seq<ValidationError>, errors: seq<string>, prompts: seq<string>, answers: seq<string>, skeletons: seq<string>)
    ensures var kept := Kept(ws, |ws|);
      es == PairErrors(ws, |ws|) && errors == Messages(es) &&
      prompts == Prompts(kept) && answers == Answers(kept) && skeletons == Skeletons(kept)
  {
    ghost var kept: seq<Words> := [];
    es, errors := [], [];
    prompts, answers, skeletons := [], [], [];
    for i := 0 to |ws|
      invariant es == PairErrors(ws, i) && errors == Messages(es)
      invariant kept == Kept(ws, i)
      invariant prompts == Prompts(kept) && answers == Answers(kept) && skeletons == Skeletons(kept)
    {
      var w := ws[i];
      var pairEs, pairErrors := CheckPair(w, i);
      MessagesConcat(es, pairEs);
      es, errors := es + pairEs, errors + pairErrors;
      if !Missing(w) {
        KeptAppend(kept, w);
        kept := kept + [w];
        prompts, answers, skeletons := prompts + [Lower(w.prompt)], answers + [Upper(w.answer)], skeletons + [Skeleton(w.answer)];
      }
    }
  }

  /** One pass of the per-pair loop: the error recorded for a pair's stripped words, if any. */
  method CheckPair(w: Words, i: nat) returns (ghost es: seq<ValidationError>, errors: seq<string>)
    ensures es == PairError(w, i) && errors == Messages(es)
  {
    es, errors := [], [];
    if w.prompt == [] || w.answer == [] {
      es, errors := [MissingField(i)], [Message(MissingField(i))];
    } else if Lower(w.prompt) == Lower(w.answer) {
      es, errors := [SameWord(i, w.prompt, w.answer)], [Message(SameWord(i, w.prompt, w.answer))];
    }
  }

  /** The `seen` loop: report every skeleton met before, naming the latest earlier answer. */
  method ReportCollisions(skeletons: seq<string>, answers: seq<string>, ghost es0: seq<ValidationError>, errors0: seq<string>)
    returns (ghost es: seq<ValidationError>, errors: seq<string>)
    requires |skeletons| == |answers|
    requires errors0 == Messages(es0)
    ensures es == es0 + Collisions(skeletons, answers, |skeletons|)
    ensures errors == Messages(es)
  {
    es, errors := es0, errors0;
    var seen: map<string, nat> := map[];
    for i := 0 to |skeletons|
      invariant es == es0 + Collisions(skeletons, answers, i) && errors == Messages(es)
      invariant seen.Keys == SetOf(skeletons[..i])
      invariant forall x :: x in seen ==> x in skeletons[..i] && seen[x] == LastIndexOf(skeletons[..i], x)
    {
      var sk := skeletons[i];
      assert skeletons[..i + 1] == skeletons[..i] + [sk];
      if sk in seen {
        var e := SkeletonCollision(answers[i], answers[seen[sk]], sk);
        MessagesAppend(es, e);
        es := es + [e];
        errors := errors + [Message(e)];
      }
      seen := seen[sk := i];
      SetOfAppend(skeletons[..i], sk);
      forall x | x in seen ensures x in skeletons[..i + 1] && seen[x] == LastIndexOf(skeletons[..i + 1], x) {
      }
    }
    assert skeletons[..|skeletons|] == skeletons;
  }

  /** Each skeleton met before adds exactly one error: as many as the list has repeats. */
  lemma {:induction false} CollisionCount(sk: seq<string>, ans: seq<string>, n: nat)
    requires |sk| == |ans| && n <= |sk|
    ensures |Collisions(sk, ans, n)| == n - |SetOf(sk[..n])|
  {
    if n == 0 {
      assert SetOf(sk[..0]) == {};
    } else {
      CollisionCount(sk, ans, n - 1);
      assert sk[..n] == sk[..n - 1] + [sk[n - 1]];
      SetOfAppend(sk[..n - 1], sk[n - 1]);
      if sk[n - 1] in sk[..n - 1] {
        assert SetOf(sk[..n]) == SetOf(sk[..n - 1]);
      } else {
        assert sk[n - 1] !in SetOf(sk[..n - 1]);
      }
    }
  }

  /** The skeleton loop reports something exactly when two answers share a skeleton. */
  lemma CollisionsIffRepeat(sk: seq<string>, ans: seq<string>)
    requires |sk| == |ans|
    ensures Collisions(sk, ans, |sk|) == [] <==> Distinct(sk)
  {
    CollisionCount(sk, ans, |sk|);
    assert sk[..|sk|] == sk;
    DistinctIffCardinality(sk);
  }

  /** Every collision error names two distinct entries with one skeleton, the earlier being the latest such. */
  lemma {:induction false} CollisionNamesBoth(sk: seq<string>, ans: seq<string>, n: nat, e: ValidationError)
    requires |sk| == |ans| && n <= |sk|
    requires e in Collisions(sk, ans, n)
    ensures exists j, i :: 0 <= j < i < n && sk[j] == sk[i] && e == SkeletonCollision(ans[i], ans[j], sk[i]) &&
                          forall k :: j < k < i ==> sk[k] != sk[i]
  {
    var prev := Collisions(sk, ans, n - 1);
    if e in prev {
      CollisionNamesBoth(sk, ans, n - 1, e);
    } else {
      var i := n - 1;
      var j := LastIndexOf(sk[..i], sk[i]);
      assert e == SkeletonCollision(ans[i], ans[j], sk[i]);
      forall k | j < k < i ensures sk[k] != sk[i] {
        assert sk[..i][k] == sk[k];
      }
    }
  }

  /** The per-pair loop records nothing exactly when every pair is complete and its two words differ. */
  lemma {:induction false} PairErrorsEmpty(ws: seq<Words>, n: nat)
    requires n <= |ws|
    ensures |PairErrors(ws, n)| == 0 <==> forall i :: 0 <= i < n ==> PairOk(ws[i])
  {
    if n > 0 {
      PairErrorsEmpty(ws, n - 1);
    }
  }

  /** With no pair missing a word, every pair takes part in the duplicate checks. */
  lemma {:induction false} KeptAll(ws: seq<Words>, n: nat)
    requires n <= |ws|
    requires forall i :: 0 <= i < n ==> !Missing(ws[i])
    ensures Kept(ws, n) == ws[..n]
  {
    if n > 0 {
      KeptAll(ws, n - 1);
      assert ws[..n] == ws[..n - 1] + [ws[n - 1]];
    }
  }

  /** A pair with an empty stripped word is reported under its own index. */
  lemma {:induction false} MissingReported(ws: seq<Words>, n: nat, i: nat)
    requires i < n <= |ws| && Missing(ws[i])
    ensures MissingField(i) in PairErrors(ws, n)
  {
    if i < n - 1 {
      MissingReported(ws, n - 1, i);
    }
  }

  /**
   * The pairs are accepted exactly when there are six, each has a non-empty
   * stripped prompt and answer that differ ignoring case, and prompts, answers
   * and answer skeletons are each free of repeats.
   */
  lemma AcceptedIff(pairs: seq<Pair>)
    ensures var ws := Stripped(pairs);
      ValidationErrors(pairs) == [] <==>
      |pairs| == PairCount && (forall i :: 0 <= i < |ws| ==> PairOk(ws[i])) &&
      Distinct(Prompts(ws)) && Distinct(Answers(ws)) && Distinct(Skeletons(ws))
  {
    var ws := Stripped(pairs);
    if |pairs| == PairCount {
      var kept := Kept(ws, |ws|);
      PairErrorsEmpty(ws, |ws|);
      if |PairErrors(ws, |ws|)| == 0 {
        KeptAll(ws, |ws|);
        assert ws[..|ws|] == ws;
      }
      CollisionsIffRepeat(Skeletons(kept), Answers(kept));
    }
  }
}
