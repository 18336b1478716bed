/**
 * Stages 4 and 6 and the output record of scripts/generate-puzzle.py:
 * `stage4_generate_disguises` turns pairs and their distractors into
 * questions, `stage6_regenerate` rebuilds the distractors of the questions a
 * reviewer flagged, and `assemble_puzzle` wraps the questions up.
 */
module Questions {
  import opened Wrappers
  import opened Seqs
  import opened Text
  import opened Disguise
  import opened Collisions
  import opened Validation
  import opened Distractors

  datatype Difficulty = Easy | Medium | Hard

  /** The `type` a distractor gets when its candidate has none. */
  const DefaultKind := "non-synonym"

  /** A distractor record: upper-cased word, its disguise and its type. */
  datatype DistractorRecord = DistractorRecord(word: string, disguise: string, kind: string)

  /** A question record as stage 4 writes it. */
  datatype Question = Question(
    prompt: string,
    emoji: string,
    answer: string,
    answerDisguise: string,
    distractors: seq<DistractorRecord>,
    difficulty: Difficulty,
    correctOption: string)

  /** Two easy questions, then two medium, then the rest hard. */
  function DifficultyAt(i: nat): (d: Difficulty)
    ensures d == Easy <==> i < 2
    ensures d == Medium <==> 2 <= i < 4
    ensures d == Hard <==> 4 <= i
  {
    if i < 2 then Easy else if i < 4 then Medium else Hard
  }

  function Words(cands: seq<Candidate>): (r: seq<string>)
    ensures |r| == |cands|
    ensures forall j :: 0 <= j < |cands| ==> r[j] == cands[j].word
  {
    seq(|cands|, j requires 0 <= j < |cands| => cands[j].word)
  }

  /** `[generate_disguise(d['word']) for d in ...]`: every candidate's own disguise. */
  function RawDisguises(cands: seq<Candidate>): (r: seq<string>)
    ensures |r| == |cands|
    ensures forall j :: 0 <= j < |cands| ==> r[j] == GenerateDisguise(cands[j].word)
  {
    seq(|cands|, j requires 0 <= j < |cands| => GenerateDisguise(cands[j].word))
  }

  /** The distractor disguises once collisions with the answer's disguise are resolved. */
  function ResolvedDisguises(answer: string, cands: seq<Candidate>): (r: seq<string>)
    ensures |r| == |cands|
  {
    Resolve(GenerateDisguise(answer), RawDisguises(cands), Words(cands))
  }

  function Record(c: Candidate, disguise: string): DistractorRecord {
    DistractorRecord(Upper(c.word), disguise, c.kind.GetOr(DefaultKind))
  }

  /** The distractor records of a question: one per candidate, in order. */
  function Records(cands: seq<Candidate>, disguises: seq<string>): (r: seq<DistractorRecord>)
    requires |disguises| == |cands|
    ensures |r| == |cands|
    ensures forall j :: 0 <= j < |cands| ==> r[j] == Record(cands[j], disguises[j])
  {
    seq(|cands|, j requires 0 <= j < |cands| => Record(cands[j], disguises[j]))
  }

  /** The question stage 4 builds for pair i from its distractor candidates. */
  function BuildQuestion(pair: Pair, i: nat, cands: seq<Candidate>): Question {
    var answer := Upper(pair.answer);
    Question(Lower(pair.prompt), pair.emoji, answer, GenerateDisguise(answer),
             Records(cands, ResolvedDisguises(answer, cands)), DifficultyAt(i), Capitalize(answer))
  }

  /** `all_distractors[i] or []`: a missing or empty slot gives no distractors. */
  function CandidatesAt(all: seq<Option<seq<Candidate>>>, i: nat): seq<Candidate>
    requires i < |all|
  {
    all[i].GetOr([])
  }

  /** The body of stage 4's loop for one pair. */
  method BuildOne(pair: Pair, i: nat, cands: seq<Candidate>) returns (q: Question)
    ensures q == BuildQuestion(pair, i, cands)
  {
    var answer := Upper(pair.answer);
    var answerDisguise := GenerateDisguise(answer);
    var disguises := new string[|cands|](j requires 0 <= j < |cands| => GenerateDisguise(cands[j].word));
    assert disguises[..] == RawDisguises(cands);
    var words := Words(cands);
    answerDisguise := ResolveCollisions(answerDisguise, disguises, answer, words);
    var out := MakeRecords(cands, disguises[..]);
    var difficulty;
    if i < 2 {
      difficulty := Easy;
    } else if i < 4 {
      difficulty := Medium;
    } else {
      difficulty := Hard;
    }
    q := Question(Lower(pair.prompt), pair.emoji, answer, answerDisguise, out, difficulty, Capitalize(answer));
  }

  /** The loop that builds a question's distractor records. */
  method MakeRecords(cands: seq<Candidate>, disguises: seq<string>) returns (out: seq<DistractorRecord>)
    requires |disguises| == |cands|
    ensures out == Records(cands, disguises)
  {
    out := [];
    for j := 0 to |cands|
      invariant |out| == j
      invariant forall k :: 0 <= k < j ==> out[k] == Record(cands[k], disguises[k])
    {
      out := out + [DistractorRecord(Upper(cands[j].word), disguises[j], cands[j].kind.GetOr(DefaultKind))];
    }
  }

  /** `stage4_generate_disguises`: one question per pair, in order. */
  method BuildQuestions(pairs: seq<Pair>, all: seq<Option<seq<Candidate>>>) returns (qs: seq<Question>)
    requires |pairs| <= |all|
    ensures |qs| == |pairs|
    ensures forall i :: 0 <= i < |pairs| ==> qs[i] == BuildQuestion(pairs[i], i, CandidatesAt(all, i))
  {
    qs := [];
    for i := 0 to |pairs|
      invariant |qs| == i
      invariant forall k :: 0 <= k < i ==> qs[k] == BuildQuestion(pairs[k], k, CandidatesAt(all, k))
    {
      var q := BuildOne(pairs[i], i, CandidatesAt(all, i));
      qs := qs + [q];
    }
  }

  /**
   * What a built question promises: a lower-case prompt, an upper-case answer
   * whose disguise is the answer's own, one distractor per candidate with that
   * candidate's word upper-cased and a type defaulting to "non-synonym", and a
   * correct option that spells the answer with its first letter a capital and
   * no other.
   */
  lemma QuestionShape(pair: Pair, i: nat, cands: seq<Candidate>)
    ensures var q := BuildQuestion(pair, i, cands);
      NoUpper(q.prompt) && Lower(q.prompt) == Lower(pair.prompt) &&
      NoLower(q.answer) && Lower(q.answer) == Lower(pair.answer) &&
      q.answerDisguise == GenerateDisguise(q.answer) &&
      |q.distractors| == |cands| &&
      (forall j :: 0 <= j < |cands| ==>
         q.distractors[j].word == Upper(cands[j].word) && NoLower(q.distractors[j].word) &&
         q.distractors[j].kind == (if cands[j].kind.Some? then cands[j].kind.value else DefaultKind)) &&
      Lower(q.correctOption) == Lower(pair.answer) &&
      |q.correctOption| == |pair.answer| &&
      (q.correctOption != [] ==> q.correctOption[0] == ToUpper(pair.answer[0])) &&
      (q.correctOption != [] ==> NoUpper(q.correctOption[1..]))
  {
    var answer := Upper(pair.answer);
    LowerIdempotent(pair.prompt);
    LowerOfUpper(pair.answer);
    CapitalizeShape(answer);
  }

  /**
   * When the answer's disguise and the candidates' disguises are all distinct,
   * every distractor keeps the disguise of its own word.
   */
  lemma DistinctDisguisesKept(pair: Pair, i: nat, cands: seq<Candidate>)
    requires Distinct([GenerateDisguise(Upper(pair.answer))] + RawDisguises(cands))
    ensures var q := BuildQuestion(pair, i, cands);
      forall j :: 0 <= j < |cands| ==> q.distractors[j].disguise == GenerateDisguise(cands[j].word)
  {
    ResolveNoCollision(GenerateDisguise(Upper(pair.answer)), RawDisguises(cands), Words(cands));
  }

  /** One issue from the reviewer: its `severity`, if any, and its `question` number (0 when absent). */
  datatype Issue = Issue(severity: Option<string>, question: int)

  predicate High(iss: Issue) {
    iss.severity == Some("high")
  }

  /** The 0-based indices that high-severity issues with a question number in 1..n name. */
  function Flagged(issues: seq<Issue>, n: nat): (r: set<nat>)
    ensures forall k :: k in r ==> k < n
  {
    set iss | iss in issues && High(iss) && 1 <= iss.question <= n :: (iss.question - 1) as nat
  }

  /** The flagging loop of `stage6_regenerate`. */
  method FlagQuestions(issues: seq<Issue>, n: nat) returns (flagged: set<nat>)
    ensures flagged == Flagged(issues, n)
  {
    var high := [];
    for j := 0 to |issues|
      invariant forall x :: x in high <==> x in issues[..j] && High(x)
    {
      assert issues[..j + 1] == issues[..j] + [issues[j]];
      if High(issues[j]) {
        high := high + [issues[j]];
      }
    }
    assert issues[..|issues|] == issues;
    flagged := {};
    for j := 0 to |high|
      invariant flagged == set iss | iss in high[..j] && 1 <= iss.question <= n :: (iss.question - 1) as nat
    {
      assert high[..j + 1] == high[..j] + [high[j]];
      var qNum := high[j].question;
      if 1 <= qNum <= n {
        flagged := flagged + {qNum - 1};
      }
    }
    assert high[..|high|] == high;
  }

  /** The new answer disguise and distractors a regeneration call yields, if it yields three. */
  function Regeneration(pair: Pair, outcome: Attempt): Option<(string, seq<DistractorRecord>)> {
    match outcome
    case Raised => None
    case Returned(cs) =>
      var got := Selection(pair.prompt, pair.answer, cs);
      if |got| < Wanted then None
      else
        var answer := Upper(pair.answer);
        Some((GenerateDisguise(answer), Records(got, ResolvedDisguises(answer, got))))
  }

  /** A question after its regeneration call: the two fields replaced, or the question as it was. */
  function Regenerated(q: Question, pair: Pair, outcome: Attempt): (r: Question)
    ensures r.prompt == q.prompt && r.emoji == q.emoji && r.answer == q.answer &&
            r.difficulty == q.difficulty && r.correctOption == q.correctOption
    ensures Regeneration(pair, outcome).None? ==> r == q
  {
    match Regeneration(pair, outcome)
    case None => q
    case Some((answerDisguise, records)) => q.(answerDisguise := answerDisguise, distractors := records)
  }

  /**
   * Question k after its regeneration attempt. `pairs[idx]` is read inside the
   * `try`, so an index past the pairs raises there and the question is kept.
   */
  function RegeneratedAt(q: Question, pairs: seq<Pair>, k: nat, outcome: Attempt): (r: Question)
    ensures k >= |pairs| ==> r == q
  {
    if k < |pairs| then Regenerated(q, pairs[k], outcome) else q
  }

  /** The questions `stage6_regenerate` leaves, given the outcome of each question's one regeneration call. */
  function RegenerateAll(qs: seq<Question>, issues: seq<Issue>, pairs: seq<Pair>, outcomes: seq<Attempt>): (r: seq<Question>)
    requires |outcomes| == |qs|
    ensures |r| == |qs|
  {
    var flagged := Flagged(issues, |qs|);
    seq(|qs|, k requires 0 <= k < |qs| => if k in flagged then RegeneratedAt(qs[k], pairs, k, outcomes[k]) else qs[k])
  }

  /**
   * `stage6_regenerate`: rebuild the flagged questions in place, in whatever
   * order the set of flagged indices yields them.
   */
  method Regenerate(questions: array<Question>, issues: seq<Issue>, pairs: seq<Pair>, outcomes: seq<Attempt>)
    requires |outcomes| == questions.Length
    modifies questions
    ensures questions[..] == RegenerateAll(old(questions[..]), issues, pairs, outcomes)
  {
    ghost var orig := questions[..];
    var flagged := FlagQuestions(issues, questions.Length);
    var todo := flagged;
    while todo != {}
      invariant todo <= flagged
      invariant forall k :: 0 <= k < questions.Length ==>
        questions[k] == if k in flagged - todo then RegeneratedAt(orig[k], pairs, k, outcomes[k]) else orig[k]
      decreases |todo|
    {
      var idx :| idx in todo;
      if idx < |pairs| {
        RegenerateOne(questions, idx, pairs[idx], outcomes[idx]);
      }
      todo := todo - {idx};
    }
    assert questions[..] == RegenerateAll(orig, issues, pairs, outcomes);
  }

  /** The body of stage 6's loop for one flagged index. */
  method RegenerateOne(questions: array<Question>, idx: nat, pair: Pair, outcome: Attempt)
    requires idx < questions.Length
    modifies questions
    ensures questions[idx] == Regenerated(old(questions[idx]), pair, outcome)
    ensures forall k :: 0 <= k < questions.Length && k != idx ==> questions[k] == old(questions[k])
  {
    if outcome.Raised? {
      return;
    }
    var ds := new Candidate[|outcome.candidates|](k requires 0 <= k < |outcome.candidates| => outcome.candidates[k]);
    assert ds[..] == outcome.candidates;
    var got := FilterCandidates(pair.prompt, pair.answer, ds);
    if |got| < Wanted {
      return;
    }
    var q := BuildOne(pair, 0, got);
    questions[idx] := questions[idx].(answerDisguise := q.answerDisguise, distractors := q.distractors);
  }

  /**
   * Regeneration touches only the flagged questions, only when their call
   * yields three distractors, and then only the disguise and distractor fields.
   */
  lemma RegenerateOnlyFlagged(qs: seq<Question>, issues: seq<Issue>, pairs: seq<Pair>, outcomes: seq<Attempt>, k: nat)
    requires |outcomes| == |qs| && k < |qs|
    ensures var r := RegenerateAll(qs, issues, pairs, outcomes)[k];
      r.prompt == qs[k].prompt && r.emoji == qs[k].emoji && r.answer == qs[k].answer &&
      r.difficulty == qs[k].difficulty && r.correctOption == qs[k].correctOption &&
      (k !in Flagged(issues, |qs|) ==> r == qs[k]) &&
      (k >= |pairs| ==> r == qs[k]) &&
      (k in Flagged(issues, |qs|) && k < |pairs| ==> r == Regenerated(qs[k], pairs[k], outcomes[k]))
  {
  }

  /** A question is flagged exactly when some high-severity issue names its 1-based number. */
  lemma FlaggedIff(issues: seq<Issue>, n: nat, k: nat)
    ensures k in Flagged(issues, n) <==> k < n && exists j :: 0 <= j < |issues| && High(issues[j]) && issues[j].question == k + 1
  {
    if k < n && exists j :: 0 <= j < |issues| && High(issues[j]) && issues[j].question == k + 1 {
      var j :| 0 <= j < |issues| && High(issues[j]) && issues[j].question == k + 1;
      assert issues[j] in issues;
    }
  }

  /** A regenerated question carries three distractors and the answer's own disguise. */
  lemma RegenerationShape(pair: Pair, outcome: Attempt)
    requires Regeneration(pair, outcome).Some?
    ensures var (answerDisguise, records) := Regeneration(pair, outcome).value;
      answerDisguise == GenerateDisguise(Upper(pair.answer)) && |records| == Wanted
  {
  }

  /** The puzzle file's record. */
  datatype Puzzle = Puzzle(theme: string, publicationDate: string, questions: seq<Question>)

  /** `assemble_puzzle` */
  function Assemble(theme: string, date: string, questions: seq<Question>): (p: Puzzle)
    ensures p.theme == theme && p.publicationDate == date && p.questions == questions
  {
    Puzzle(theme, date, questions)
  }
}
