/**
 * The page build: turning a stored quiz into the CHAIN_DATA object the web
 * page reads (emoji lookup, shuffled options, puzzle number, day name) and
 * splicing that object's text between the page's data markers.
 */
module Site {
  import opened Wrappers
  import opened Seqs
  import opened Text
  import opened Calendar
  import Validation
  import Distractors
  import Questions

  // ---------------------------------------------------------------- emoji

  /** The emoji table, in its insertion order; the `default` entry takes part in the search too. */
  const EmojiMap: seq<(string, string)> := [
    ("building", "\U{1F3E2}"), ("house", "\U{1F3E0}"), ("home", "\U{1F3E0}"), ("garage", "\U{1F3D7}\U{FE0F}"),
    ("hotel", "\U{1F3E8}"), ("castle", "\U{1F3F0}"), ("church", "\U{26EA}"), ("tower", "\U{1F5FC}"),
    ("emotion", "\U{1F60A}"), ("happy", "\U{1F60A}"), ("sad", "\U{1F622}"), ("angry", "\U{1F620}"),
    ("weather", "\U{1F324}\U{FE0F}"), ("rain", "\U{1F327}\U{FE0F}"), ("sun", "\U{2600}\U{FE0F}"), ("storm", "\U{26C8}\U{FE0F}"),
    ("animal", "\U{1F43E}"), ("dog", "\U{1F415}"), ("cat", "\U{1F431}"), ("bird", "\U{1F426}"),
    ("default", "\U{2753}")
  ]

  /** `EMOJI_MAP['default']` */
  const DefaultEmoji: string := "\U{2753}"

  /** The key is a substring of the lower-cased word or theme. */
  predicate KeyMatches(key: string, word: string, theme: string) {
    Occurs(Lower(word), key) || Occurs(Lower(theme), key)
  }

  /** The emoji of the first entry of `table` from position k on whose key matches, or the default. */
  function EmojiFrom(table: seq<(string, string)>, word: string, theme: string, k: nat): string
    requires k <= |table|
    decreases |table| - k
  {
    if k == |table| then DefaultEmoji
    else if KeyMatches(table[k].0, word, theme) then table[k].1
    else EmojiFrom(table, word, theme, k + 1)
  }

  /** `get_emoji(word, theme)` */
  function EmojiFor(word: string, theme: string): string {
    EmojiFrom(EmojiMap, word, theme, 0)
  }

  /** The loop of `get_emoji`: the first key, in table order, found in the word or the theme wins. */
  method GetEmoji(word: string, theme: string) returns (emoji: string)
    ensures emoji == EmojiFor(word, theme)
  {
    var table := EmojiMap;
    var wordLower, themeLower := Lower(word), Lower(theme);
    for k := 0 to |table|
      invariant EmojiFrom(table, word, theme, 0) == EmojiFrom(table, word, theme, k)
    {
      var (key, e) := table[k];
      if Find(wordLower, key) != -1 || Find(themeLower, key) != -1 {
        return e;
      }
    }
    return DefaultEmoji;
  }

  lemma {:induction false} EmojiFromFirst(table: seq<(string, string)>, word: string, theme: string, k: nat)
    requires k <= |table|
    ensures var r := EmojiFrom(table, word, theme, k);
      (exists m :: k <= m < |table| && KeyMatches(table[m].0, word, theme) &&
         (forall j :: k <= j < m ==> !KeyMatches(table[j].0, word, theme)) && r == table[m].1) ||
      ((forall j :: k <= j < |table| ==> !KeyMatches(table[j].0, word, theme)) && r == DefaultEmoji)
    decreases |table| - k
  {
    if k < |table| && !KeyMatches(table[k].0, word, theme) {
      EmojiFromFirst(table, word, theme, k + 1);
    }
  }

  /** The emoji is that of the first entry whose key occurs in the word or theme, or `❓` when none does. */
  lemma EmojiIsFirstMatch(word: string, theme: string)
    ensures var r := EmojiFor(word, theme);
      (exists m :: 0 <= m < |EmojiMap| && KeyMatches(EmojiMap[m].0, word, theme) &&
         (forall j :: 0 <= j < m ==> !KeyMatches(EmojiMap[j].0, word, theme)) && r == EmojiMap[m].1) ||
      ((forall j :: 0 <= j < |EmojiMap| ==> !KeyMatches(EmojiMap[j].0, word, theme)) && r == DefaultEmoji)
  {
    EmojiFromFirst(EmojiMap, word, theme, 0);
  }

  lemma {:induction false} EmojiFromCase(table: seq<(string, string)>, word: string, theme: string, k: nat)
    requires k <= |table|
    ensures EmojiFrom(table, Upper(word), Upper(theme), k) == EmojiFrom(table, word, theme, k)
    decreases |table| - k
  {
    LowerOfUpper(word);
    LowerOfUpper(theme);
    if k < |table| {
      EmojiFromCase(table, word, theme, k + 1);
    }
  }

  /** Lookup ignores the case of the word and the theme. */
  lemma EmojiIgnoresCase(word: string, theme: string)
    ensures EmojiFor(Upper(word), Upper(theme)) == EmojiFor(word, theme)
  {
    EmojiFromCase(EmojiMap, word, theme, 0);
  }

  lemma OccursSameLength(s: string, pat: string)
    requires |s| == |pat| && Occurs(s, pat)
    ensures s == pat
  {
  }

  /** Table order decides: in "Doghouse" the earlier key "house" wins over "dog". */
  lemma EmojiOrderExample()
    ensures EmojiFor("Doghouse", "") == "\U{1F3E0}"
  {
    var w := Lower("Doghouse");
    assert w == "doghouse";
    assert OccursAt(w, "house", 3);
    if Occurs(w, "building") {
      OccursSameLength(w, "building");
    }
    assert !Occurs(Lower(""), "building");
  }

  // -------------------------------------------------------------- shuffle

  /** The k-th `randbelow(i + 1)` of a shuffle, read from the oracle `draws` (0 once it runs out). */
  function Draw(draws: seq<nat>, k: nat, i: nat): (j: nat)
    ensures j <= i
  {
    if k < |draws| then draws[k] % (i + 1) else 0
  }

  function Swap<T>(s: seq<T>, i: nat, j: nat): (r: seq<T>)
    requires i < |s| && j < |s|
    ensures |r| == |s|
  {
    s[i := s[j]][j := s[i]]
  }

  lemma SwapPermutes<T>(s: seq<T>, i: nat, j: nat)
    requires i < |s| && j < |s|
    ensures multiset(Swap(s, i, j)) == multiset(s)
  {
  }

  /** `random.shuffle` from position i down to 1: swap position i with a drawn position at or below it. */
  function ShuffleDown<T>(s: seq<T>, i: nat, draws: seq<nat>): seq<T>
    requires i < |s|
    decreases i
  {
    if i == 0 then s else ShuffleDown(Swap(s, i, Draw(draws, |s| - 1 - i, i)), i - 1, draws)
  }

  /** `random.shuffle(x)`, with the random numbers it draws supplied as `draws`. */
  function Shuffled<T>(s: seq<T>, draws: seq<nat>): seq<T> {
    if s == [] then [] else ShuffleDown(s, |s| - 1, draws)
  }

  /** The Fisher-Yates loop of `random.shuffle`, in place. */
  method Shuffle<T>(a: array<T>, draws: seq<nat>)
    modifies a
    ensures a[..] == Shuffled(old(a[..]), draws)
  {
    if a.Length == 0 {
      return;
    }
    var i := a.Length - 1;
    while i > 0
      invariant 0 <= i < a.Length
      invariant ShuffleDown(a[..], i, draws) == Shuffled(old(a[..]), draws)
      decreases i
    {
      var j := Draw(draws, a.Length - 1 - i, i);
      assert ShuffleDown(a[..], i, draws) == ShuffleDown(Swap(a[..], i, j), i - 1, draws);
      Exchange(a, i, j);
      i := i - 1;
    }
  }

  method Exchange<T>(a: array<T>, i: nat, j: nat)
    requires i < a.Length && j < a.Length
    modifies a
    ensures a[..] == Swap(old(a[..]), i, j)
  {
    a[i], a[j] := a[j], a[i];
  }

  lemma {:induction false} ShuffleDownPermutes<T>(s: seq<T>, i: nat, draws: seq<nat>)
    requires i < |s|
    ensures |ShuffleDown(s, i, draws)| == |s| && multiset(ShuffleDown(s, i, draws)) == multiset(s)
    decreases i
  {
    if i > 0 {
      SwapPermutes(s, i, Draw(draws, |s| - 1 - i, i));
      ShuffleDownPermutes(Swap(s, i, Draw(draws, |s| - 1 - i, i)), i - 1, draws);
    }
  }

  /** Whatever numbers are drawn, shuffling only reorders the elements. */
  lemma ShuffledPermutes<T>(s: seq<T>, draws: seq<nat>)
    ensures |Shuffled(s, draws)| == |s| && multiset(Shuffled(s, draws)) == multiset(s)
  {
    if s != [] {
      ShuffleDownPermutes(s, |s| - 1, draws);
    }
  }

  // ------------------------------------------------------------ transform

  /** The stored quiz JSON; absent keys are None and read with the source's defaults. */
  datatype QuizDistractor = QuizDistractor(disguise: Option<string>)
  datatype QuizQuestion = QuizQuestion(
    prompt: Option<string>,
    answer: Option<string>,
    answerDisguise: Option<string>,
    distractors: Option<seq<QuizDistractor>>)
  datatype QuizData = QuizData(publicationDate: Option<string>, theme: Option<string>, questions: Option<seq<QuizQuestion>>)

  /** One entry of CHAIN_DATA's `links`; its `bridge` is always null and is not represented. */
  datatype Link = Link(category: string, options: seq<string>, answer: string, decoded: string, emoji: string)
  datatype Chain = Chain(number: int, date: string, links: seq<Link>)

  const MaxOptions := 4

  function DisguisesOf(ds: seq<QuizDistractor>): (r: seq<string>)
    ensures |r| == |ds| && forall k :: 0 <= k < |ds| ==> r[k] == ds[k].disguise.GetOr("")
  {
    seq(|ds|, k requires 0 <= k < |ds| => ds[k].disguise.GetOr(""))
  }

  /** The answer's disguise first, then each distractor's disguise. */
  function OptionsOf(q: QuizQuestion): seq<string> {
    [q.answerDisguise.GetOr("")] + DisguisesOf(q.distractors.GetOr([]))
  }

  /** The link for one question, shuffled with `draws`. */
  function LinkOf(q: QuizQuestion, theme: string, draws: seq<nat>): Link {
    var answer := q.answer.GetOr("");
    Link(Capitalize(q.prompt.GetOr("")), Take(Shuffled(OptionsOf(q), draws), MaxOptions),
         q.answerDisguise.GetOr(""), answer, EmojiFor(answer, theme))
  }

  /** `strftime('%A')` of the parsed date, or the text itself when it does not parse. */
  function DateDisplay(pubDate: string): string {
    match ParseDate(pubDate)
    case Some(d) => DayName(d)
    case None => pubDate
  }

  /** The puzzle number, or 1 when the date does not parse. */
  function NumberOf(pubDate: string): int {
    PuzzleNumber(pubDate).GetOr(1)
  }

  function DrawsAt(draws: seq<seq<nat>>, i: nat): seq<nat> {
    if i < |draws| then draws[i] else []
  }

  function QuestionsOf(quiz: QuizData): seq<QuizQuestion> {
    quiz.questions.GetOr([])
  }

  function PubDateOf(quiz: QuizData, today: string): string {
    quiz.publicationDate.GetOr(today)
  }

  function ThemeOf(quiz: QuizData): string {
    quiz.theme.GetOr("Quiz")
  }

  /**
   * `transform_quiz_to_chain(quiz_data)`; `today` stands for the clock's date
   * and `draws[i]` for the random numbers the shuffle of question i draws.
   */
  function ChainOf(quiz: QuizData, today: string, draws: seq<seq<nat>>): Chain {
    var pubDate, theme, qs := PubDateOf(quiz, today), ThemeOf(quiz), QuestionsOf(quiz);
    Chain(NumberOf(pubDate), DateDisplay(pubDate),
          seq(|qs|, i requires 0 <= i < |qs| => LinkOf(qs[i], theme, DrawsAt(draws, i))))
  }

  method TransformQuizToChain(quiz: QuizData, today: string, draws: seq<seq<nat>>) returns (chain: Chain)
    ensures chain == ChainOf(quiz, today, draws)
  {
    var pubDate := quiz.publicationDate.GetOr(today);
    var theme := quiz.theme.GetOr("Quiz");
    var questions := quiz.questions.GetOr([]);
    var links: seq<Link> := [];
    for i := 0 to |questions|
      invariant |links| == i && forall k :: 0 <= k < i ==> links[k] == LinkOf(questions[k], theme, DrawsAt(draws, k))
    {
      var link := MakeLink(questions[i], theme, DrawsAt(draws, i));
      links := links + [link];
    }
    chain := Chain(NumberOf(pubDate), DateDisplay(pubDate), links);
  }

  /** The body of the question loop: collect the options, shuffle them, keep four. */
  method MakeLink(q: QuizQuestion, theme: string, draws: seq<nat>) returns (link: Link)
    ensures link == LinkOf(q, theme, draws)
  {
    var answerDisguise := q.answerDisguise.GetOr("");
    var ds := q.distractors.GetOr([]);
    var options := [answerDisguise];
    for k := 0 to |ds|
      invariant options == [answerDisguise] + DisguisesOf(ds[..k])
    {
      assert ds[..k + 1] == ds[..k] + [ds[k]];
      options := options + [ds[k].disguise.GetOr("")];
    }
    assert ds[..|ds|] == ds;
    var a := new string[|options|](k requires 0 <= k < |options| => options[k]);
    assert a[..] == options;
    Shuffle(a, draws);
    var answer := q.answer.GetOr("");
    var emoji := GetEmoji(answer, theme);
    link := Link(Capitalize(q.prompt.GetOr("")), Take(a[..], MaxOptions), answerDisguise, answer, emoji);
  }

  /**
   * What each link holds: the capitalised prompt, the answer and its disguise,
   * the looked-up emoji, and at most four options drawn without repetition
   * from the answer's and the distractors' disguises; with three distractors
   * or fewer every one of them is shown, the answer's disguise included.
   */
  lemma LinkShape(q: QuizQuestion, theme: string, draws: seq<nat>)
    ensures var link := LinkOf(q, theme, draws);
      var all := OptionsOf(q);
      link.category == Capitalize(q.prompt.GetOr("")) &&
      link.answer == q.answerDisguise.GetOr("") && link.decoded == q.answer.GetOr("") &&
      link.emoji == EmojiFor(q.answer.GetOr(""), theme) &&
      |link.options| == Min(MaxOptions, |all|) &&
      multiset(link.options) <= multiset(all) &&
      (|all| <= MaxOptions ==> multiset(link.options) == multiset(all))
  {
    var all := OptionsOf(q);
    var sh := Shuffled(all, draws);
    ShuffledPermutes(all, draws);
    var n := Min(MaxOptions, |all|);
    assert sh == sh[..n] + sh[n..];
    assert multiset(sh) == multiset(sh[..n]) + multiset(sh[n..]);
  }

  /** With at most three distractors the answer's disguise is always one of the options. */
  lemma AnswerAmongOptions(q: QuizQuestion, theme: string, draws: seq<nat>)
    requires |q.distractors.GetOr([])| < MaxOptions
    ensures LinkOf(q, theme, draws).answer in LinkOf(q, theme, draws).options
  {
    LinkShape(q, theme, draws);
    var all := OptionsOf(q);
    assert all[0] == q.answerDisguise.GetOr("");
    assert all[0] in multiset(all);
  }

  lemma ShuffleFiveExample()
    ensures Shuffled(["a", "b", "c", "d", "e"], [0]) == ["b", "c", "d", "e", "a"]
  {
    var d: seq<nat> := [0];
    var s0, s1, s2, s3, s4 := ["a", "b", "c", "d", "e"], ["e", "b", "c", "d", "a"], ["d", "b", "c", "e", "a"],
                              ["c", "b", "d", "e", "a"], ["b", "c", "d", "e", "a"];
    assert Swap(s0, 4, 0) == s1 && Swap(s1, 3, 0) == s2 && Swap(s2, 2, 0) == s3 && Swap(s3, 1, 0) == s4;
    assert ShuffleDown(s0, 4, d) == ShuffleDown(s1, 3, d);
    assert ShuffleDown(s1, 3, d) == ShuffleDown(s2, 2, d);
    assert ShuffleDown(s2, 2, d) == ShuffleDown(s3, 1, d);
    assert ShuffleDown(s3, 1, d) == s4;
  }

  /** With four distractors the shuffle can push the answer's disguise out of the four options shown. */
  lemma AnswerCanBeCut()
    ensures var q := QuizQuestion(Some("p"), Some("ANS"), Some("a"),
                                  Some([QuizDistractor(Some("b")), QuizDistractor(Some("c")),
                                        QuizDistractor(Some("d")), QuizDistractor(Some("e"))]));
      LinkOf(q, "", [0]).options == ["b", "c", "d", "e"]
  {
    var q := QuizQuestion(Some("p"), Some("ANS"), Some("a"),
                          Some([QuizDistractor(Some("b")), QuizDistractor(Some("c")),
                                QuizDistractor(Some("d")), QuizDistractor(Some("e"))]));
    assert OptionsOf(q) == ["a", "b", "c", "d", "e"];
    ShuffleFiveExample();
  }

  /** The chain has one link per question, its number and day name come from the publication date. */
  lemma ChainShape(quiz: QuizData, today: string, draws: seq<seq<nat>>)
    ensures var c := ChainOf(quiz, today, draws);
      var pubDate := PubDateOf(quiz, today);
      |c.links| == |QuestionsOf(quiz)| &&
      (forall i :: 0 <= i < |c.links| ==> c.links[i] == LinkOf(QuestionsOf(quiz)[i], ThemeOf(quiz), DrawsAt(draws, i))) &&
      (ParseDate(pubDate).Some? ==> c.number == DayNumber(ParseDate(pubDate).value) && c.date == DayName(ParseDate(pubDate).value)) &&
      (ParseDate(pubDate).None? ==> c.number == 1 && c.date == pubDate)
  {
  }

  /** A date written `YYYY-MM-DD` gets its own day number and day name. */
  lemma ChainOfFormattedDate(d: Date, quiz: QuizData, today: string, draws: seq<seq<nat>>)
    requires Valid(d) && d.year >= 1000 && quiz.publicationDate == Some(FormatDate(d))
    ensures ChainOf(quiz, today, draws).number == DayNumber(d)
    ensures ChainOf(quiz, today, draws).date == DayName(d)
  {
    ParseFormat(d);
  }

  /** The stored form of a generated puzzle. */
  function QuizOf(p: Questions.Puzzle): (quiz: QuizData)
    ensures |QuestionsOf(quiz)| == |p.questions|
  {
    QuizData(Some(p.publicationDate), Some(p.theme),
             Some(seq(|p.questions|, i requires 0 <= i < |p.questions| => QuizQuestionOf(p.questions[i]))))
  }

  function QuizQuestionOf(q: Questions.Question): QuizQuestion {
    QuizQuestion(Some(q.prompt), Some(q.answer), Some(q.answerDisguise),
                 Some(seq(|q.distractors|, k requires 0 <= k < |q.distractors| => QuizDistractor(Some(q.distractors[k].disguise)))))
  }

  /**
   * A puzzle the generator assembled, once built into the page, shows each
   * question's answer disguise among its options whenever the question has
   * at most three distractors, the count the generator selects.
   */
  lemma GeneratedAnswersShown(p: Questions.Puzzle, today: string, draws: seq<seq<nat>>, i: nat)
    requires i < |p.questions| && |p.questions[i].distractors| < MaxOptions
    ensures var c := ChainOf(QuizOf(p), today, draws);
      i < |c.links| && c.links[i].answer == p.questions[i].answerDisguise &&
      c.links[i].decoded == p.questions[i].answer &&
      p.questions[i].answerDisguise in c.links[i].options
  {
    var q := QuizQuestionOf(p.questions[i]);
    assert QuestionsOf(QuizOf(p))[i] == q;
    AnswerAmongOptions(q, ThemeOf(QuizOf(p)), DrawsAt(draws, i));
  }

  /** Stage 4 builds one distractor per selected candidate, and the selection keeps at most three. */
  lemma SelectedQuestionsFit(pair: Validation.Pair, i: nat, promptWord: string, answerWord: string, raw: seq<Distractors.Candidate>)
    ensures |Questions.BuildQuestion(pair, i, Distractors.Selection(promptWord, answerWord, raw)).distractors| < MaxOptions
  {
    Questions.QuestionShape(pair, i, Distractors.Selection(promptWord, answerWord, raw));
  }

  // --------------------------------------------------------------- inject

  const StartMarker := "// __PUZZLE_DATA_START__"
  const EndMarker := "// __PUZZLE_DATA_END__"
  const MarkersMissing := "Could not find puzzle data markers in index.html"

  /**
   * The replacement block; `chainJs` is the `json.dumps` text of the chain,
   * whose line breaks are indented by four more spaces.
   */
  function NewBlock(chainJs: string): (b: string)
    ensures StartsWith(b, StartMarker) && EndsWith(b, EndMarker)
  {
    StartMarker + "\n    const CHAIN_DATA = " + ReplaceAll(chainJs, "\n", "\n    ") + ";\n    " + EndMarker
  }

  /**
   * `inject_puzzle_data` as written: the end index adds the marker's length
   * before the test against -1, so a missing end marker goes unnoticed and
   * the splice resumes at index 21.
   */
  function InjectAsWritten(html: string, chainJs: string): Result<string, string> {
    var startIdx := Find(html, StartMarker);
    var endIdx := Find(html, EndMarker) + |EndMarker|;
    if startIdx == -1 || endIdx == -1 then Failure(MarkersMissing)
    else Success(html[..startIdx] + NewBlock(chainJs) + html[endIdx..])
  }

  /** `inject_puzzle_data` with both markers checked before the splice. */
  function InjectPuzzleData(html: string, chainJs: string): Result<string, string> {
    var startIdx, endIdx := Find(html, StartMarker), Find(html, EndMarker);
    if startIdx == -1 || endIdx == -1 then Failure(MarkersMissing)
    else Success(html[..startIdx] + NewBlock(chainJs) + html[endIdx + |EndMarker|..])
  }

  /**
   * Injection fails exactly when a marker is missing; otherwise the page keeps
   * everything before its first start marker and after its first end marker,
   * with the new block in between.
   */
  lemma InjectSplices(html: string, chainJs: string)
    ensures InjectPuzzleData(html, chainJs).Failure? <==> !Occurs(html, StartMarker) || !Occurs(html, EndMarker)
    ensures InjectPuzzleData(html, chainJs).Success? ==>
      exists i, j :: OccursAt(html, StartMarker, i) && OccursAt(html, EndMarker, j) &&
        (forall k :: 0 <= k < i ==> !OccursAt(html, StartMarker, k)) &&
        (forall k :: 0 <= k < j ==> !OccursAt(html, EndMarker, k)) &&
        InjectPuzzleData(html, chainJs).value == html[..i] + NewBlock(chainJs) + html[j + |EndMarker|..]
  {
  }

  lemma OccursInSplice(pre: string, mid: string, post: string, pat: string, k: nat)
    requires OccursAt(mid, pat, k)
    ensures Occurs(pre + mid + post, pat)
  {
    var r := pre + mid + post;
    assert r[|pre| + k..|pre| + k + |pat|] == mid[k..k + |pat|];
    assert OccursAt(r, pat, |pre| + k);
  }

  /** The injected page carries both markers again, so the build can be run on it once more. */
  lemma InjectRepeatable(html: string, chainJs: string, nextJs: string)
    requires InjectPuzzleData(html, chainJs).Success?
    ensures InjectPuzzleData(InjectPuzzleData(html, chainJs).value, nextJs).Success?
  {
    var startIdx, endIdx := Find(html, StartMarker), Find(html, EndMarker);
    SpliceKeepsMarkers(html[..startIdx], html[endIdx + |EndMarker|..], chainJs);
    InjectSplices(InjectPuzzleData(html, chainJs).value, nextJs);
  }

  /** A page with the new block spliced in holds both markers, whatever surrounds the block. */
  lemma SpliceKeepsMarkers(pre: string, post: string, chainJs: string)
    ensures Occurs(pre + NewBlock(chainJs) + post, StartMarker)
    ensures Occurs(pre + NewBlock(chainJs) + post, EndMarker)
  {
    var block := NewBlock(chainJs);
    BlockHoldsMarkers(chainJs);
    OccursInSplice(pre, block, post, StartMarker, 0);
    OccursInSplice(pre, block, post, EndMarker, |block| - |EndMarker|);
  }

  lemma BlockHoldsMarkers(chainJs: string)
    ensures OccursAt(NewBlock(chainJs), StartMarker, 0)
    ensures OccursAt(NewBlock(chainJs), EndMarker, |NewBlock(chainJs)| - |EndMarker|)
  {
  }

  /** Where the end marker is present, the code as written and the checked version agree. */
  lemma AsWrittenAgrees(html: string, chainJs: string)
    requires Occurs(html, EndMarker)
    ensures InjectAsWritten(html, chainJs) == InjectPuzzleData(html, chainJs)
  {
  }

  /**
   * A page with a start marker and no end marker: the code as written raises
   * nothing and leaves the tail of the start marker, "T__", after the block;
   * the checked version reports the missing marker.
   */
  lemma MissingEndMarkerUndetected(chainJs: string)
    ensures InjectAsWritten(StartMarker + "\n", chainJs) == Success(NewBlock(chainJs) + "T__\n")
    ensures InjectPuzzleData(StartMarker + "\n", chainJs) == Failure(MarkersMissing)
  {
    var html := StartMarker + "\n";
    assert OccursAt(html, StartMarker, 0);
    assert Find(html, StartMarker) == 0;
    forall k | 0 <= k <= |html| - |EndMarker| ensures !OccursAt(html, EndMarker, k) {
      assert html[k + 17] != EndMarker[17];
    }
    assert Find(html, EndMarker) == -1;
    assert html[..0] == [] && html[21..] == "T__\n";
    assert |EndMarker| == 22;
    assert InjectAsWritten(html, chainJs) == Success(html[..0] + NewBlock(chainJs) + html[21..]);
    assert html[..0] + NewBlock(chainJs) + html[21..] == NewBlock(chainJs) + "T__\n";
  }
}
