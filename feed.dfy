/**
 * The RSS feed build: the puzzle files dated today or earlier, newest first,
 * at most thirty, each turned into a feed item.
 */
module Feed {
  import opened Wrappers
  import opened Seqs
  import opened Text
  import opened Calendar

  const SiteUrl := "https://cnmn.app"
  const FeedTitle := "cnmn"
  const FeedDescription := "A free daily synonym puzzle. New puzzle every day."
  const MaxItems := 30

  /** A file of the puzzles directory: its name and, for JSON files, the `theme` key of its content. */
  datatype PuzzleFile = PuzzleFile(name: string, theme: Option<string>)

  /** A collected puzzle: the date taken from the file name and the file it came from. */
  datatype Entry = Entry(date: string, file: PuzzleFile)

  datatype Item = Item(title: string, link: string, description: string, guid: string, pubDate: string)
  datatype Channel = Channel(title: string, link: string, description: string, language: string,
                             lastBuildDate: Option<string>, items: seq<Item>)

  /** `fname.replace(".json", "")`: every occurrence goes, not only the suffix. */
  function DateOfName(name: string): (date: string)
    ensures |date| <= |name|
  {
    ReplaceAll(name, ".json", "")
  }

  /** The file is a JSON file whose date is not after today (string order, as the source compares). */
  predicate Wanted(f: PuzzleFile, today: string) {
    EndsWith(f.name, ".json") && LexLe(DateOfName(f.name), today)
  }

  /** The collection loop over the directory listing, in listing order. */
  function Collected(files: seq<PuzzleFile>, today: string): (r: seq<Entry>)
    ensures |r| <= |files|
  {
    if files == [] then []
    else
      var rest := Collected(files[..|files| - 1], today);
      var f := files[|files| - 1];
      if Wanted(f, today) then rest + [Entry(DateOfName(f.name), f)] else rest
  }

  method CollectPuzzles(files: seq<PuzzleFile>, today: string) returns (puzzles: seq<Entry>)
    ensures puzzles == Collected(files, today)
  {
    puzzles := [];
    for i := 0 to |files|
      invariant puzzles == Collected(files[..i], today)
    {
      var f := files[i];
      assert files[..i + 1][..i] == files[..i];
      if !EndsWith(f.name, ".json") {
        continue;
      }
      var dateStr := ReplaceAll(f.name, ".json", "");
      if !LexLe(dateStr, today) {
        continue;
      }
      puzzles := puzzles + [Entry(dateStr, f)];
    }
    assert files[..|files|] == files;
  }

  /** A file is collected exactly when it is wanted, under the date its name gives. */
  lemma {:induction false} CollectedIff(files: seq<PuzzleFile>, today: string)
    ensures forall e :: e in Collected(files, today) <==> e.file in files && Wanted(e.file, today) && e.date == DateOfName(e.file.name)
  {
    if files != [] {
      var init := files[..|files| - 1];
      CollectedIff(init, today);
      assert files == init + [files[|files| - 1]];
    }
  }

  /** Every collected date is today or earlier. */
  lemma CollectedNotAfterToday(files: seq<PuzzleFile>, today: string)
    ensures forall e :: e in Collected(files, today) ==> LexLe(e.date, today)
  {
    CollectedIff(files, today);
  }

  // ----------------------------------------------------------------- sort

  /** Newest first: no entry has a later date than one before it. */
  predicate Descending(s: seq<Entry>) {
    forall i, j :: 0 <= i < j < |s| ==> LexLe(s[j].date, s[i].date)
  }

  /** Put e before the first entry whose date is not after its own. */
  function Insert(e: Entry, s: seq<Entry>): (r: seq<Entry>)
    ensures |r| == |s| + 1
  {
    if s == [] || LexLe(s[0].date, e.date) then [e] + s else [s[0]] + Insert(e, s[1..])
  }

  /** `puzzles.sort(key=lambda x: x[0], reverse=True)`, as an insertion sort that keeps ties in order. */
  function SortDescending(s: seq<Entry>): (r: seq<Entry>)
    ensures |r| == |s|
  {
    if s == [] then [] else Insert(s[0], SortDescending(s[1..]))
  }

  lemma {:induction false} InsertPermutes(e: Entry, s: seq<Entry>)
    ensures multiset(Insert(e, s)) == multiset(s) + multiset{e}
  {
    if s != [] && !LexLe(s[0].date, e.date) {
      InsertPermutes(e, s[1..]);
      assert s == [s[0]] + s[1..];
    }
  }

  lemma {:induction false} InsertSorted(e: Entry, s: seq<Entry>)
    requires Descending(s)
    ensures Descending(Insert(e, s))
  {
    if s != [] && !LexLe(s[0].date, e.date) {
      var rest := s[1..];
      InsertSorted(e, rest);
      InsertPermutes(e, rest);
      LexLeTotal(s[0].date, e.date);
      var r := Insert(e, rest);
      forall k | 0 <= k < |r| ensures LexLe(r[k].date, s[0].date) {
        assert r[k] in multiset(r);
        assert r[k] == e || r[k] in multiset(rest);
        if r[k] != e {
          var m :| 0 <= m < |rest| && rest[m] == r[k];
          assert s[m + 1] == r[k];
        }
      }
    } else if s != [] {
      forall j | 0 <= j < |s| ensures LexLe(s[j].date, e.date) {
        if j > 0 {
          LexLeTransitive(s[j].date, s[0].date, e.date);
        }
      }
    }
  }

  /** The sort puts the entries newest first and neither drops nor adds any. */
  lemma SortDescendingCorrect(s: seq<Entry>)
    ensures Descending(SortDescending(s)) && multiset(SortDescending(s)) == multiset(s)
  {
    SortDescendingSorted(s);
    SortDescendingPermutes(s);
  }

  lemma {:induction false} SortDescendingSorted(s: seq<Entry>)
    ensures Descending(SortDescending(s))
  {
    if s != [] {
      SortDescendingSorted(s[1..]);
      InsertSorted(s[0], SortDescending(s[1..]));
    }
  }

  lemma {:induction false} SortDescendingPermutes(s: seq<Entry>)
    ensures multiset(SortDescending(s)) == multiset(s)
  {
    if s != [] {
      SortDescendingPermutes(s[1..]);
      InsertPermutes(s[0], SortDescending(s[1..]));
      assert s == [s[0]] + s[1..];
    }
  }

  // ---------------------------------------------------------------- items

  /** The puzzles the feed lists: collected, newest first, the first thirty. */
  function Latest(files: seq<PuzzleFile>, today: string): (r: seq<Entry>)
    ensures |r| == Min(MaxItems, |Collected(files, today)|)
  {
    Take(SortDescending(Collected(files, today)), MaxItems)
  }

  /** The item for a puzzle whose date parsed as d. */
  function ItemFor(e: Entry, d: Date): Item
    requires Valid(d)
  {
    var theme := e.file.theme.GetOr("Puzzle");
    Item(ItemTitle(DayNumber(d), theme), SiteUrl,
         "Today's theme: " + theme + ". Play now at cnmn.app!",
         "cnmn-" + e.date, FeedDate(d))
  }

  /** An item's title: the puzzle number and the theme. */
  function ItemTitle(num: int, theme: string): string {
    "cnmn #" + IntToString(num) + ": " + theme
  }

  /** The item for one puzzle; it fails where `strptime` rejects the date. */
  function ItemOf(e: Entry): (r: Result<Item, string>)
    ensures r.Failure? <==> ParseDate(e.date).None?
    ensures r.Success? ==> r.value.link == SiteUrl && r.value.guid == "cnmn-" + e.date
  {
    match ParseDate(e.date)
    case None => Failure("time data " + e.date + " does not match format '%Y-%m-%d'")
    case Some(d) => Success(ItemFor(e, d))
  }

  /** The items of the entries in order, or the first failure. */
  function ItemsOf(es: seq<Entry>): (r: Result<seq<Item>, string>)
    ensures r.Success? ==> |r.value| == |es|
  {
    MapResults(ItemOf, es)
  }

  /** `build_feed()` up to the XML: the channel, or the error strptime raises. */
  function ChannelOf(files: seq<PuzzleFile>, today: string): (r: Result<Channel, string>)
    ensures r.Success? ==> r.value.title == FeedTitle && r.value.link == SiteUrl &&
                           r.value.description == FeedDescription && r.value.language == "en"
  {
    var latest := Latest(files, today);
    var last := if latest == [] then Success(None)
                else match ParseDate(latest[0].date)
                     case None => Failure("time data " + latest[0].date + " does not match format '%Y-%m-%d'")
                     case Some(d) => Success(Some(FeedDate(d)));
    if last.Failure? then Failure(last.error)
    else match ItemsOf(latest)
         case Failure(msg) => Failure(msg)
         case Success(items) => Success(Channel(FeedTitle, SiteUrl, FeedDescription, "en", last.value, items))
  }

  method BuildFeed(files: seq<PuzzleFile>, today: string) returns (r: Result<Channel, string>)
    ensures r == ChannelOf(files, today)
  {
    var puzzles := CollectPuzzles(files, today);
    puzzles := Take(SortDescending(puzzles), MaxItems);
    var last: Option<string> := None;
    if puzzles != [] {
      var latestDate := ParseDate(puzzles[0].date);
      if latestDate.None? {
        return Failure("time data " + puzzles[0].date + " does not match format '%Y-%m-%d'");
      }
      last := Some(FeedDate(latestDate.value));
    }
    var items := MakeItems(puzzles);
    if items.Failure? {
      return Failure(items.error);
    }
    r := Success(Channel(FeedTitle, SiteUrl, FeedDescription, "en", last, items.value));
  }

  /** The item loop; it stops at the first date strptime rejects. */
  method MakeItems(puzzles: seq<Entry>) returns (r: Result<seq<Item>, string>)
    ensures r == ItemsOf(puzzles)
  {
    var items: seq<Item> := [];
    for i := 0 to |puzzles|
      invariant MapResults(ItemOf, puzzles[..i]) == Success(items)
    {
      assert puzzles[..i + 1][..i] == puzzles[..i];
      var item := ItemOf(puzzles[i]);
      if item.Failure? {
        MapResultsFailureSticks(ItemOf, puzzles, i + 1);
        return Failure(item.error);
      }
      items := items + [item.value];
    }
    assert puzzles[..|puzzles|] == puzzles;
    return Success(items);
  }

  /** The items fail exactly when some listed date does not parse. */
  lemma ItemsFailIff(es: seq<Entry>)
    ensures ItemsOf(es).Failure? <==> exists k :: 0 <= k < |es| && ParseDate(es[k].date).None?
  {
    MapResultsFailIff(ItemOf, es);
    assert forall k :: 0 <= k < |es| ==> (ItemOf(es[k]).Failure? <==> ParseDate(es[k].date).None?);
  }

  /** The build fails exactly when some listed puzzle's date is rejected by `strptime`. */
  lemma ChannelFailIff(files: seq<PuzzleFile>, today: string)
    ensures ChannelOf(files, today).Failure? <==>
      exists k :: 0 <= k < |Latest(files, today)| && ParseDate(Latest(files, today)[k].date).None?
  {
    ItemsFailIff(Latest(files, today));
  }

  /** The listed puzzles are the first thirty collected ones once sorted newest first, none after today. */
  lemma LatestShape(files: seq<PuzzleFile>, today: string)
    ensures var latest := Latest(files, today);
      |latest| == Min(MaxItems, |Collected(files, today)|) && Descending(latest) &&
      forall k :: 0 <= k < |latest| ==> LexLe(latest[k].date, today)
  {
    var coll := Collected(files, today);
    var sorted := SortDescending(coll);
    SortDescendingCorrect(coll);
    var latest := Latest(files, today);
    CollectedNotAfterToday(files, today);
    forall k | 0 <= k < |latest| ensures LexLe(latest[k].date, today) {
      assert latest[k] == sorted[k];
      assert sorted[k] in multiset(coll);
    }
  }

  /**
   * A built channel has one item per listed puzzle, in the same order; its
   * last build date is present exactly when there are items, and is the
   * first (newest) item's date.
   */
  lemma ChannelShape(files: seq<PuzzleFile>, today: string)
    requires ChannelOf(files, today).Success?
    ensures var c := ChannelOf(files, today).value;
      var latest := Latest(files, today);
      |c.items| == |latest| &&
      (forall k :: 0 <= k < |latest| ==> ItemOf(latest[k]).Success? && c.items[k] == ItemOf(latest[k]).value) &&
      (c.items == [] <==> c.lastBuildDate.None?) &&
      (c.items != [] ==> c.lastBuildDate == Some(c.items[0].pubDate))
  {
    MapResultsAt(ItemOf, Latest(files, today));
  }

  /** Any collected puzzle left out of the feed is no newer than every puzzle in it. */
  lemma OlderOnesDropped(files: seq<PuzzleFile>, today: string, k: nat, m: nat)
    requires var sorted := SortDescending(Collected(files, today));
      k < MaxItems <= m < |sorted|
    ensures var sorted := SortDescending(Collected(files, today));
      sorted[k] in Latest(files, today) && LexLe(sorted[m].date, sorted[k].date)
  {
    SortDescendingCorrect(Collected(files, today));
  }

  lemma NumberText()
    ensures IntToString(779) == "779"
  {
    assert NatToString(7) == "7";
    assert NatToString(77) == "77";
  }

  /** The item for 2026-02-17 is puzzle 779; a file without a theme is titled "Puzzle". */
  lemma ItemTitleExample(f: PuzzleFile)
    requires f.theme.None?
    ensures ItemFor(Entry("2026-02-17", f), Date(2026, 2, 17)).title == "cnmn #779: Puzzle"
  {
    assert DayNumber(Date(2026, 2, 17)) == 779 by { PuzzleNumberExample(); }
    assert ItemTitle(779, "Puzzle") == "cnmn #779: Puzzle" by { NumberText(); }
  }

  /** Only the `.json` suffix is checked, but every ".json" in the name goes, so "a.json.json" is dated "a". */
  lemma ReplaceAllExample()
    ensures DateOfName("a.json.json") == "a"
  {
    var s := "a.json.json";
    assert s[..5] != ".json" && s[1..] == ".json.json";
    var t := ".json.json";
    assert t[..5] == ".json" && t[5..] == ".json";
    var u := ".json";
    assert u[..5] == ".json" && u[5..] == "";
  }
}
