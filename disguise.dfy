/**
 * The skeleton and disguise transforms of scripts/generate-puzzle.py:
 * `consonant_skeleton`, `generate_disguise` and `_disguise_with_kept_vowel`.
 */
module Disguise {
  import opened Wrappers
  import opened Seqs
  import opened Text

  /** No lower-case vowel anywhere in `s`. */
  predicate NoVowel(s: string) {
    forall i :: 0 <= i < |s| ==> !IsVowel(s[i])
  }

  /** `re.sub(r'[aeiou]', '', s)`: delete every lower-case vowel. */
  function DeleteVowels(s: string): (r: string)
    ensures |r| <= |s|
  {
    if s == [] then [] else (if IsVowel(s[0]) then [] else [s[0]]) + DeleteVowels(s[1..])
  }

  /** Vowel deletion leaves no vowel and adds no capital. */
  lemma {:induction false} DeleteVowelsFacts(s: string)
    ensures NoVowel(DeleteVowels(s))
    ensures NoUpper(s) ==> NoUpper(DeleteVowels(s))
  {
    if s != [] {
      DeleteVowelsFacts(s[1..]);
      var h := if IsVowel(s[0]) then [] else [s[0]];
      assert DeleteVowels(s) == h + DeleteVowels(s[1..]);
      if NoUpper(s) {
        assert NoUpper(s[1..]) by {
          forall i | 0 <= i < |s[1..]| ensures !IsUpper(s[1..][i]) {
            assert s[1..][i] == s[i + 1];
          }
        }
      }
    }
  }

  lemma {:induction false} DeleteVowelsAppend(a: string, b: string)
    ensures DeleteVowels(a + b) == DeleteVowels(a) + DeleteVowels(b)
  {
    if a == [] {
      assert a + b == b;
    } else {
      var h := if IsVowel(a[0]) then [] else [a[0]];
      assert (a + b)[0] == a[0];
      assert (a + b)[1..] == a[1..] + b;
      assert DeleteVowels(a + b) == h + DeleteVowels(a[1..] + b);
      assert DeleteVowels(a) == h + DeleteVowels(a[1..]);
      DeleteVowelsAppend(a[1..], b);
    }
  }

  lemma DeleteVowelsSplit(s: string, k: nat)
    requires k <= |s|
    ensures DeleteVowels(s) == DeleteVowels(s[..k]) + DeleteVowels(s[k..])
  {
    assert s == s[..k] + s[k..];
    DeleteVowelsAppend(s[..k], s[k..]);
  }

  /** A string without vowels is its own vowel deletion. */
  lemma {:induction false} DeleteVowelsNoVowels(s: string)
    requires NoVowel(s)
    ensures DeleteVowels(s) == s
  {
    if s != [] {
      DeleteVowelsNoVowels(s[1..]);
    }
  }

  /** `consonant_skeleton`: lower-case the word, then delete the vowels. */
  function Skeleton(word: string): (r: string)
    ensures NoVowel(r) && NoUpper(r)
  {
    DeleteVowelsFacts(Lower(word));
    DeleteVowels(Lower(word))
  }

  /** A skeleton has no vowels and no capitals left, so skeletonising it again changes nothing. */
  lemma SkeletonIdempotent(word: string)
    ensures Skeleton(Skeleton(word)) == Skeleton(word)
  {
    var s := Skeleton(word);
    assert Lower(s) == s;
    DeleteVowelsNoVowels(s);
  }

  /** The skeleton only sees the lower-cased word. */
  lemma SkeletonIgnoresCase(word: string)
    ensures Skeleton(Upper(word)) == Skeleton(word)
    ensures Skeleton(Lower(word)) == Skeleton(word)
  {
    LowerOfUpper(word);
    LowerIdempotent(word);
  }

  /** The suffix rules `re.sub(r'<suffix>$', rep, d)`, in the order the source applies them. */
  const SuffixRules: seq<(string, string)> :=
    [("tion", "shn"), ("sion", "zhn"), ("age", "j"), ("dge", "j"), ("ght", "t")]

  /** The `d.replace(pattern, rep)` rules, in the order the source applies them. */
  const LiteralRules: seq<(string, string)> :=
    [("ck", "k"), ("ph", "f"), ("wh", "w"), ("wr", "r"), ("kn", "n")]

  /** Every rule shortens or keeps the length and writes only lower-case text. */
  predicate WellBehavedRules(rules: seq<(string, string)>) {
    forall i :: 0 <= i < |rules| ==>
      rules[i].0 != [] && |rules[i].1| <= |rules[i].0| &&
      NoUpper(rules[i].1)
  }

  lemma SuffixRulesWellBehaved()
    ensures WellBehavedRules(SuffixRules)
  {
    forall i | 0 <= i < |SuffixRules| ensures SuffixRules[i].0 != [] && |SuffixRules[i].1| <= |SuffixRules[i].0| {
    }
    forall i, k | 0 <= i < |SuffixRules| && 0 <= k < |SuffixRules[i].1| ensures !IsUpper(SuffixRules[i].1[k]) {
    }
  }

  lemma LiteralRulesWellBehaved()
    ensures WellBehavedRules(LiteralRules)
  {
    forall i | 0 <= i < |LiteralRules| ensures LiteralRules[i].0 != [] && |LiteralRules[i].1| <= |LiteralRules[i].0| {
    }
    forall i, k | 0 <= i < |LiteralRules| && 0 <= k < |LiteralRules[i].1| ensures !IsUpper(LiteralRules[i].1[k]) {
    }
  }

  function ReplaceSuffix(s: string, suffix: string, rep: string): string {
    if EndsWith(s, suffix) then s[..|s| - |suffix|] + rep else s
  }

  function ApplySuffixRules(s: string, rules: seq<(string, string)>): string
    decreases |rules|
  {
    if rules == [] then s
    else ApplySuffixRules(ReplaceSuffix(s, rules[0].0, rules[0].1), rules[1..])
  }

  function ApplyLiteralRules(s: string, rules: seq<(string, string)>): string
    requires WellBehavedRules(rules)
    decreases |rules|
  {
    if rules == [] then s
    else ApplyLiteralRules(ReplaceAll(s, rules[0].0, rules[0].1), rules[1..])
  }

  lemma {:induction false} SuffixRulesShrink(s: string, rules: seq<(string, string)>)
    requires WellBehavedRules(rules)
    ensures |ApplySuffixRules(s, rules)| <= |s|
    ensures NoUpper(s) ==> NoUpper(ApplySuffixRules(s, rules))
    decreases |rules|
  {
    if rules != [] {
      SuffixRulesShrink(ReplaceSuffix(s, rules[0].0, rules[0].1), rules[1..]);
    }
  }

  lemma {:induction false} LiteralRulesShrink(s: string, rules: seq<(string, string)>)
    requires WellBehavedRules(rules)
    ensures |ApplyLiteralRules(s, rules)| <= |s|
    ensures NoUpper(s) ==> NoUpper(ApplyLiteralRules(s, rules))
    decreases |rules|
  {
    if rules != [] {
      var t := ReplaceAll(s, rules[0].0, rules[0].1);
      if NoUpper(s) {
        ReplaceAllKeepsCase(s, rules[0].0, rules[0].1);
      }
      LiteralRulesShrink(t, rules[1..]);
    }
  }

  /** The phonetic substitutions both disguises begin with: the suffix rules, then the literal ones. */
  function Phonetic(lower: string): (r: string)
    ensures |r| <= |lower|
    ensures NoUpper(lower) ==> NoUpper(r)
  {
    SuffixRulesWellBehaved();
    LiteralRulesWellBehaved();
    SuffixRulesShrink(lower, SuffixRules);
    LiteralRulesShrink(ApplySuffixRules(lower, SuffixRules), LiteralRules);
    ApplyLiteralRules(ApplySuffixRules(lower, SuffixRules), LiteralRules)
  }

  /** `re.sub(r'[aeiou](?=[aeiou])', '', s)`: delete each vowel that a vowel follows. */
  function DropVowelBeforeVowel(s: string): (r: string)
    ensures |r| <= |s|
    ensures NoUpper(s) ==> NoUpper(r)
    ensures s != [] ==> r != [] && r[|r| - 1] == s[|s| - 1]
    ensures s != [] && !IsVowel(s[0]) ==> r[0] == s[0]
    ensures forall i :: 0 <= i < |r| - 1 ==> !(IsVowel(r[i]) && IsVowel(r[i + 1]))
  {
    if s == [] then []
    else (if |s| >= 2 && IsVowel(s[0]) && IsVowel(s[1]) then [] else [s[0]]) + DropVowelBeforeVowel(s[1..])
  }

  /** `re.sub(r'[aeiou]$', '', s)` */
  function DropTrailingVowel(s: string): string {
    if s != [] && IsVowel(s[|s| - 1]) then s[..|s| - 1] else s
  }

  /** The weaker transform `generate_disguise` falls back to for short results. */
  function ShortWordDisguise(lower: string): string {
    DropTrailingVowel(DropVowelBeforeVowel(lower))
  }

  /** `generate_disguise` */
  function GenerateDisguise(word: string): (r: string)
    ensures word == [] <==> r == []
    ensures |r| <= |word|
  {
    if word == [] then []
    else
      var lower := Lower(word);
      var d0 := DeleteVowels(Phonetic(lower));
      var d := if |d0| < 2 then ShortWordDisguise(lower) else d0;
      if d != [] then d else Take(lower, 3)
  }

  lemma {:induction false} ReplaceAllAbsent(s: string, pat: string, rep: string)
    requires pat != [] && pat[0] !in s
    ensures ReplaceAll(s, pat, rep) == s
    decreases |s|
  {
    if |s| >= |pat| {
      assert s[0] in s;
      assert s[..|pat|][0] == s[0];
      assert s[1..] == [] || s[1..][0] in s;
      ReplaceAllAbsent(s[1..], pat, rep);
    }
  }

  lemma NationSuffix()
    ensures ApplySuffixRules("nation", SuffixRules) == "nashn"
  {
    assert SuffixRules[1..][1..][1..][1..][1..] == [];
    assert ReplaceSuffix("nation", "tion", "shn") == "nashn";
    assert ReplaceSuffix("nashn", "sion", "zhn") == "nashn";
    assert ReplaceSuffix("nashn", "age", "j") == "nashn";
    assert ReplaceSuffix("nashn", "dge", "j") == "nashn";
    assert ReplaceSuffix("nashn", "ght", "t") == "nashn";
  }

  lemma NashnLiteral()
    ensures ApplyLiteralRules("nashn", LiteralRules) == "nashn"
  {
    forall i | 0 <= i < |LiteralRules|
      ensures ReplaceAll("nashn", LiteralRules[i].0, LiteralRules[i].1) == "nashn"
    {
      ReplaceAllAbsent("nashn", LiteralRules[i].0, LiteralRules[i].1);
    }
    assert LiteralRules[1..][1..][1..][1..][1..] == [];
  }

  lemma NationPhonetic()
    ensures Phonetic("nation") == "nashn"
  {
    assert Lower("nation") == "nation";
    NationSuffix();
    NashnLiteral();
  }

  lemma NashnVowels()
    ensures DeleteVowels("nashn") == "nshn"
  {
    DeleteVowelsAppend("na", "shn");
    DeleteVowelsAppend("n", "a");
    DeleteVowelsAppend("s", "hn");
    DeleteVowelsAppend("h", "n");
    assert DeleteVowels("a") == "";
    assert DeleteVowels("n") == "n" && DeleteVowels("s") == "s" && DeleteVowels("h") == "h";
    assert "nashn" == "na" + "shn";
    assert "na" == "n" + "a" && "shn" == "s" + "hn" && "hn" == "h" + "n";
  }

  lemma NationVowels()
    ensures DeleteVowels("nation") == "ntn"
  {
    DeleteVowelsAppend("nat", "ion");
    DeleteVowelsAppend("n", "at");
    DeleteVowelsAppend("a", "t");
    DeleteVowelsAppend("io", "n");
    DeleteVowelsAppend("i", "o");
    assert DeleteVowels("a") == "" && DeleteVowels("i") == "" && DeleteVowels("o") == "";
    assert DeleteVowels("n") == "n" && DeleteVowels("t") == "t";
    assert "nation" == "nat" + "ion";
    assert "nat" == "n" + "at" && "at" == "a" + "t" && "ion" == "io" + "n" && "io" == "i" + "o";
  }

  /**
   * The rule order is visible in the result: the `tion` suffix is rewritten
   * before the vowels go, so "nation" is not disguised as its skeleton "ntn".
   */
  lemma NationExample()
    ensures GenerateDisguise("nation") == "nshn"
    ensures Skeleton("nation") == "ntn"
  {
    var w := "nation";
    assert Lower(w) == w;
    NationPhonetic();
    NashnVowels();
    NationVowels();
    var p := Phonetic(w);
    assert p == "nashn";
    assert DeleteVowels(p) == "nshn";
  }

  /** When phonetic stripping leaves two or more letters, the disguise is that vowel-free result. */
  lemma {:induction false} MainDisguiseHasNoVowels(word: string)
    requires |DeleteVowels(Phonetic(Lower(word)))| >= 2
    ensures GenerateDisguise(word) == DeleteVowels(Phonetic(Lower(word)))
    ensures |GenerateDisguise(word)| >= 2
    ensures NoVowel(GenerateDisguise(word))
  {
    DeleteVowelsFacts(Phonetic(Lower(word)));
  }

  /** Every disguise is written in lower case, whatever the case of the word. */
  lemma DisguiseIsLowerCase(word: string)
    ensures NoUpper(GenerateDisguise(word))
  {
    if word != [] {
      var lower := Lower(word);
      MainDisguiseIsLowerCase(lower);
      ShortDisguiseIsLowerCase(lower);
      NoUpperPrefix(lower, Min(3, |lower|));
    }
  }

  lemma MainDisguiseIsLowerCase(lower: string)
    requires NoUpper(lower)
    ensures NoUpper(DeleteVowels(Phonetic(lower)))
  {
    DeleteVowelsFacts(Phonetic(lower));
  }

  lemma ShortDisguiseIsLowerCase(lower: string)
    requires NoUpper(lower)
    ensures NoUpper(ShortWordDisguise(lower))
  {
    var dropped := DropVowelBeforeVowel(lower);
    if dropped != [] {
      NoUpperPrefix(dropped, |dropped| - 1);
    }
  }

  lemma NoUpperPrefix(s: string, n: nat)
    requires NoUpper(s) && n <= |s|
    ensures NoUpper(s[..n])
  {
    forall i | 0 <= i < n ensures !IsUpper(s[..n][i]) {
      assert s[..n][i] == s[i];
    }
  }

  /** The weaker transform deletes vowels only, so it keeps every consonant. */
  lemma {:induction false} DropVowelBeforeVowelKeepsConsonants(s: string)
    ensures DeleteVowels(DropVowelBeforeVowel(s)) == DeleteVowels(s)
  {
    if s != [] {
      var head := if |s| >= 2 && IsVowel(s[0]) && IsVowel(s[1]) then [] else [s[0]];
      DeleteVowelsAppend(head, DropVowelBeforeVowel(s[1..]));
      DropVowelBeforeVowelKeepsConsonants(s[1..]);
    }
  }

  lemma {:induction false} ShortWordKeepsConsonants(lower: string)
    ensures DeleteVowels(ShortWordDisguise(lower)) == DeleteVowels(lower)
  {
    var t := DropVowelBeforeVowel(lower);
    DropVowelBeforeVowelKeepsConsonants(lower);
    if t != [] && IsVowel(t[|t| - 1]) {
      assert t == t[..|t| - 1] + [t[|t| - 1]];
      DeleteVowelsAppend(t[..|t| - 1], [t[|t| - 1]]);
    }
  }

  /**
   * For a short result the disguise is recomputed from the lower-cased word
   * itself, not from its phonetic form: its consonants are exactly the word's.
   */
  lemma {:induction false} ShortDisguiseKeepsConsonants(word: string)
    requires word != []
    requires |DeleteVowels(Phonetic(Lower(word)))| < 2
    ensures DeleteVowels(GenerateDisguise(word)) == DeleteVowels(Lower(word))
  {
    var lower := Lower(word);
    var short := ShortWordDisguise(lower);
    assert GenerateDisguise(word) == if short != [] then short else Take(lower, 3);
    ShortWordKeepsConsonants(lower);
    if short == [] {
      DeleteVowelsSplit(lower, Min(3, |lower|));
    }
  }

  /** The first index in [lo, hi) holding a vowel. */
  function FirstVowelIn(d: string, lo: nat, hi: nat): (r: Option<nat>)
    requires hi <= |d|
    ensures r.Some? ==> lo <= r.value < hi && IsVowel(d[r.value]) &&
                        forall k :: lo <= k < r.value ==> !IsVowel(d[k])
    ensures r.None? ==> forall k :: lo <= k < hi ==> !IsVowel(d[k])
    decreases hi
  {
    if hi <= lo then None
    else match FirstVowelIn(d, lo, hi - 1)
      case Some(j) => Some(j)
      case None => if IsVowel(d[hi - 1]) then Some(hi - 1) else None
  }

  /**
   * The interior step of `_disguise_with_kept_vowel`: of the vowels strictly
   * between the first and the last position, keep the first and delete the rest.
   */
  function KeepFirstInteriorVowel(d: string): (r: string)
  {
    if |d| < 3 then d
    else match FirstVowelIn(d, 1, |d| - 1)
      case None => d
      case Some(j) => d[..j + 1] + DeleteVowels(d[j + 1..|d| - 1]) + [d[|d| - 1]]
  }

  /** Drop one leading vowel, then one trailing vowel. */
  function StripOuterVowels(s: string): (r: string)
    ensures |r| <= |s| <= |r| + 2
    ensures s != [] && !IsVowel(s[0]) && !IsVowel(s[|s| - 1]) ==> r == s
  {
    var t := if s != [] && IsVowel(s[0]) then s[1..] else s;
    if t != [] && IsVowel(t[|t| - 1]) then t[..|t| - 1] else t
  }

  /** The value `_disguise_with_kept_vowel` returns. */
  function KeptVowelDisguise(word: string): (r: string)
    ensures word != [] ==> r != []
  {
    var lower := Lower(word);
    var s := StripOuterVowels(KeepFirstInteriorVowel(Phonetic(lower)));
    if s != [] then s else Take(lower, 3)
  }

  lemma {:induction false} DeleteVowelsInside(p: string, m: string, l: string)
    ensures DeleteVowels(p + DeleteVowels(m) + l) == DeleteVowels(p + m + l)
  {
    DeleteVowelsAppend(p + m, l);
    DeleteVowelsAppend(p, m);
    DeleteVowelsAppend(p + DeleteVowels(m), l);
    DeleteVowelsAppend(p, DeleteVowels(m));
    DeleteVowelsFacts(m);
    DeleteVowelsNoVowels(DeleteVowels(m));
  }

  /** Keeping one interior vowel deletes vowels only: all consonants survive. */
  lemma {:induction false} KeepFirstInteriorVowelKeepsConsonants(d: string)
    ensures DeleteVowels(KeepFirstInteriorVowel(d)) == DeleteVowels(d)
  {
    if |d| >= 3 {
      match FirstVowelIn(d, 1, |d| - 1)
      case None =>
      case Some(j) =>
        var n := |d|;
        assert d == d[..j + 1] + d[j + 1..n - 1] + d[n - 1..];
        assert [d[n - 1]] == d[n - 1..];
        DeleteVowelsInside(d[..j + 1], d[j + 1..n - 1], d[n - 1..]);
    }
  }

  /**
   * Everything up to and including the first interior vowel is kept as it was,
   * and no other vowel is left strictly inside the result.
   */
  lemma {:induction false} KeepFirstInteriorVowelKeepsOnlyFirst(d: string)
    ensures var r := KeepFirstInteriorVowel(d);
      |r| <= |d| &&
      (|d| >= 3 && FirstVowelIn(d, 1, |d| - 1).Some? ==>
         var j := FirstVowelIn(d, 1, |d| - 1).value; r[..j + 1] == d[..j + 1]) &&
      forall i, k :: 0 < i < k < |r| - 1 ==> !(IsVowel(r[i]) && IsVowel(r[k]))
  {
    var r := KeepFirstInteriorVowel(d);
    if |d| >= 3 {
      match FirstVowelIn(d, 1, |d| - 1)
      case None =>
      case Some(j) =>
        var n := |d|;
        var m := DeleteVowels(d[j + 1..n - 1]);
        assert r == d[..j + 1] + m + [d[n - 1]];
        DeleteVowelsFacts(d[j + 1..n - 1]);
        forall i | 0 < i < |r| - 1 && IsVowel(r[i]) ensures i == j {
          if i <= j {
            assert r[i] == d[i];
          }
        }
    }
  }

  /** Python's concatenation `''.join(chars)`. */
  function Join(cells: seq<string>): string {
    if cells == [] then [] else cells[0] + Join(cells[1..])
  }

  lemma {:induction false} JoinAppend(a: seq<string>, b: seq<string>)
    ensures Join(a + b) == Join(a) + Join(b)
  {
    if a == [] {
      assert a + b == b;
    } else {
      assert (a + b)[0] == a[0];
      assert (a + b)[1..] == a[1..] + b;
      JoinAppend(a[1..], b);
    }
  }

  lemma {:induction false} JoinSingletons(cells: seq<string>, s: string)
    requires |cells| == |s|
    requires forall k :: 0 <= k < |s| ==> cells[k] == [s[k]]
    ensures Join(cells) == s
  {
    if s != [] {
      JoinSingletons(cells[1..], s[1..]);
    }
  }

  lemma {:induction false} JoinVowelCells(cells: seq<string>, s: string)
    requires |cells| == |s|
    requires forall k :: 0 <= k < |s| ==> cells[k] == if IsVowel(s[k]) then [] else [s[k]]
    ensures Join(cells) == DeleteVowels(s)
  {
    if s != [] {
      JoinVowelCells(cells[1..], s[1..]);
    }
  }

  /** The list entry at index k once `_disguise_with_kept_vowel`'s loop has passed it. */
  function BlankedCell(d: string, k: nat): string
    requires k < |d|
  {
    if 1 <= k < |d| - 1 && IsVowel(d[k]) && FirstVowelIn(d, 1, k).Some? then [] else [d[k]]
  }

  /** Every cell of `cells` holds what the loop leaves at that index of d. */
  predicate BlankedCells(d: string, cells: seq<string>) {
    |cells| == |d| && forall k {:trigger cells[k]} :: 0 <= k < |d| ==> cells[k] == BlankedCell(d, k)
  }

  lemma JoinBlankedCells(d: string, cells: seq<string>)
    requires BlankedCells(d, cells)
    ensures Join(cells) == KeepFirstInteriorVowel(d)
  {
    var n := |d|;
    if n < 3 || FirstVowelIn(d, 1, n - 1).None? {
      JoinBlankedCellsNone(d, cells);
    } else {
      JoinBlankedCellsVowel(d, cells, FirstVowelIn(d, 1, n - 1).value);
    }
  }

  /** Without an interior vowel nothing is blanked. */
  lemma JoinBlankedCellsNone(d: string, cells: seq<string>)
    requires |d| < 3 || FirstVowelIn(d, 1, |d| - 1).None?
    requires BlankedCells(d, cells)
    ensures Join(cells) == d
  {
    var n := |d|;
    forall k | 0 <= k < n ensures cells[k] == [d[k]] {
      if 1 <= k < n - 1 {
        assert !IsVowel(d[k]);
      }
    }
    JoinSingletons(cells, d);
  }

  lemma JoinBlankedCellsVowel(d: string, cells: seq<string>, j: nat)
    requires |d| >= 3 && FirstVowelIn(d, 1, |d| - 1) == Some(j)
    requires BlankedCells(d, cells)
    ensures Join(cells) == d[..j + 1] + DeleteVowels(d[j + 1..|d| - 1]) + [d[|d| - 1]]
  {
    var n := |d|;
    JoinBlankedPrefix(d, cells, j);
    JoinBlankedMiddle(d, cells, j);
    JoinBlankedLast(d, cells);
    JoinParts(cells, j + 1, n - 1, d[..j + 1], DeleteVowels(d[j + 1..n - 1]), [d[n - 1]]);
  }

  /** The last cell is never blanked. */
  lemma JoinBlankedLast(d: string, cells: seq<string>)
    requires |d| >= 1 && BlankedCells(d, cells)
    ensures Join(cells[|d| - 1..]) == [d[|d| - 1]]
  {
    var n := |d|;
    assert cells[n - 1] == BlankedCell(d, n - 1) == [d[n - 1]];
    assert cells[n - 1..] == [cells[n - 1]];
    assert Join(cells[n - 1..][1..]) == [];
  }

  lemma JoinParts(cells: seq<string>, i: nat, k: nat, a: string, b: string, c: string)
    requires i <= k <= |cells|
    requires Join(cells[..i]) == a && Join(cells[i..k]) == b && Join(cells[k..]) == c
    ensures Join(cells) == a + b + c
  {
    var front := cells[..k];
    assert front == cells[..i] + cells[i..k];
    JoinAppend(cells[..i], cells[i..k]);
    assert Join(front) == a + b;
    assert cells == front + cells[k..];
    JoinAppend(front, cells[k..]);
  }

  /** Up to and including the first interior vowel, every cell still holds its character. */
  lemma JoinBlankedPrefix(d: string, cells: seq<string>, j: nat)
    requires |d| >= 3 && FirstVowelIn(d, 1, |d| - 1) == Some(j)
    requires BlankedCells(d, cells)
    ensures Join(cells[..j + 1]) == d[..j + 1]
  {
    var a := cells[..j + 1];
    forall k | 0 <= k < j + 1 ensures a[k] == [d[..j + 1][k]] {
      assert a[k] == cells[k] == BlankedCell(d, k);
      if 1 <= k {
        assert FirstVowelIn(d, 1, k).None?;
      }
    }
    JoinSingletons(a, d[..j + 1]);
  }

  /** Between the first interior vowel and the last position, exactly the vowels are blanked. */
  lemma JoinBlankedMiddle(d: string, cells: seq<string>, j: nat)
    requires |d| >= 3 && FirstVowelIn(d, 1, |d| - 1) == Some(j)
    requires BlankedCells(d, cells)
    ensures Join(cells[j + 1..|d| - 1]) == DeleteVowels(d[j + 1..|d| - 1])
  {
    var n := |d|;
    var b := cells[j + 1..n - 1];
    var mid := d[j + 1..n - 1];
    forall k | 0 <= k < |mid| ensures b[k] == if IsVowel(mid[k]) then [] else [mid[k]] {
      assert b[k] == cells[j + 1 + k] == BlankedCell(d, j + 1 + k);
      assert mid[k] == d[j + 1 + k];
      assert FirstVowelIn(d, 1, j + 1 + k).Some?;
    }
    JoinVowelCells(b, mid);
  }

  /** Python's `cell in 'aeiou'` for a one-character string. */
  lemma VowelCell(c: char)
    ensures Occurs("aeiou", [c]) <==> IsVowel(c)
  {
    if IsVowel(c) {
      var k := if c == 'a' then 0 else if c == 'e' then 1 else if c == 'i' then 2 else if c == 'o' then 3 else 4;
      assert OccursAt("aeiou", [c], k);
    } else {
      forall k | 0 <= k <= 5 ensures !OccursAt("aeiou", [c], k) {
        if k < 5 {
          assert "aeiou"[k..k + 1] == ["aeiou"[k]];
        }
      }
    }
  }

  /**
   * `_disguise_with_kept_vowel`: the characters of the phonetic form go into a
   * list; the loop over the interior positions blanks every vowel after the
   * first one; the join then loses one leading and one trailing vowel.
   */
  method DisguiseWithKeptVowel(word: string) returns (r: string)
    ensures r == KeptVowelDisguise(word)
  {
    var lower := Lower(word);
    var d := Phonetic(lower);
    var joined := BlankAndJoin(d);
    var result := joined;
    if result != [] && IsVowel(result[0]) {
      result := result[1..];
    }
    if result != [] && IsVowel(result[|result| - 1]) {
      result := result[..|result| - 1];
    }
    assert result == StripOuterVowels(joined);
    r := if result != [] then result else Take(lower, 3);
  }

  /** The characters of d as a list of one-character cells, the later interior vowels blanked, joined again. */
  method BlankAndJoin(d: string) returns (joined: string)
    ensures joined == KeepFirstInteriorVowel(d)
  {
    var chars := new string[|d|](k requires 0 <= k < |d| => [d[k]]);
    BlankLaterVowels(d, chars);
    assert BlankedCells(d, chars[..]);
    JoinBlankedCells(d, chars[..]);
    joined := Join(chars[..]);
  }

  /** The loop of `_disguise_with_kept_vowel` over the interior cells, with its `kept` flag. */
  method BlankLaterVowels(d: string, chars: array<string>)
    requires chars.Length == |d|
    requires forall k :: 0 <= k < |d| ==> chars[k] == [d[k]]
    modifies chars
    ensures forall k :: 0 <= k < |d| ==> chars[k] == BlankedCell(d, k)
  {
    var kept := false;
    var idx := 1;
    while idx < |d| - 1
      invariant 1 <= idx
      invariant |d| >= 2 ==> idx <= |d| - 1
      invariant |d| < 3 ==> idx == 1
      invariant kept == (idx <= |d| && FirstVowelIn(d, 1, idx).Some?)
      invariant forall k :: 0 <= k < idx && k < |d| ==> chars[k] == BlankedCell(d, k)
      invariant forall k :: idx <= k < |d| ==> chars[k] == [d[k]]
    {
      var cell := chars[idx];
      VowelCell(d[idx]);
      if Occurs("aeiou", cell) && !kept {
        kept := true;
      } else if Occurs("aeiou", cell) {
        chars[idx] := [];
      }
      idx := idx + 1;
    }
  }
}
