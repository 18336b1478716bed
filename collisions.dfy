/**
 * `resolve_disguise_collisions` of scripts/generate-puzzle.py: the answer's
 * disguise is fixed, and the distractors are walked left to right against a
 * growing set of taken disguises, each colliding one being rewritten in place.
 */
module Collisions {
  import opened Seqs
  import opened Text
  import opened Disguise

  /** `distractor_words or [''] * len(distractor_disguises)`, cut to the disguises read. */
  function WordsFor(words: seq<string>, n: nat): (r: seq<string>)
    requires words == [] || n <= |words|
    ensures |r| == n
    ensures words == [] ==> forall k :: 0 <= k < n ==> r[k] == []
    ensures words != [] ==> forall k :: 0 <= k < n ==> r[k] == words[k]
  {
    if words == [] then seq(n, _ => []) else words[..n]
  }

  /** The last resort's prefix: the word's first letter lower-cased, or the index for an empty word. */
  function FallbackPrefix(word: string, i: nat): string {
    if word != [] then [ToLower(word[0])] else NatToString(i)
  }

  /** The value distractor `i` ends with, given the disguises taken before its turn. */
  function Step(d: string, word: string, i: nat, taken: set<string>): (r: string)
    ensures r == d <==> d !in taken
    ensures d in taken && r != FallbackPrefix(word, i) + d ==> r !in taken
  {
    if d !in taken then d
    else
      var alt := if word != [] then KeptVowelDisguise(word) else d;
      if alt != d && alt !in taken then alt else FallbackPrefix(word, i) + d
  }

  /** The values of distractors `i..` once the loop reaches `i` with `taken`. */
  function ResolveFrom(ds: seq<string>, words: seq<string>, i: nat, taken: set<string>): (r: seq<string>)
    requires i <= |ds| == |words|
    ensures |r| == |ds| - i
    decreases |ds| - i
  {
    if i == |ds| then []
    else
      var v := Step(ds[i], words[i], i, taken);
      [v] + ResolveFrom(ds, words, i + 1, taken + {v})
  }

  /** The distractor disguises `resolve_disguise_collisions` returns. */
  function Resolve(answer: string, ds: seq<string>, words: seq<string>): (r: seq<string>)
    requires words == [] || |ds| <= |words|
    ensures |r| == |ds|
  {
    if Distinct([answer] + ds) then ds
    else ResolveFrom(ds, WordsFor(words, |ds|), 0, {answer})
  }

  /** The body of the loop for a colliding distractor: the kept-vowel alternative, else the prefix. */
  method Rederive(d: string, word: string, i: nat, taken: set<string>) returns (v: string)
    requires d in taken
    ensures v == Step(d, word, i, taken)
  {
    var alt := d;
    if word != [] {
      alt := DisguiseWithKeptVowel(word);
    }
    if alt != d && alt !in taken {
      v := alt;
    } else {
      var first := if word != [] then [ToLower(word[0])] else NatToString(i);
      v := first + d;
    }
  }

  /**
   * `resolve_disguise_collisions`: returns the answer disguise unaltered and
   * rewrites the distractor disguises in place.
   */
  method ResolveCollisions(answerDisguise: string, ds: array<string>, answerWord: string, words: seq<string>)
    returns (a: string)
    requires words == [] || ds.Length <= |words|
    modifies ds
    ensures a == answerDisguise
    ensures ds[..] == Resolve(answerDisguise, old(ds[..]), words)
  {
    var ws := WordsFor(words, ds.Length);
    var all := [answerDisguise] + ds[..];
    DistinctIffCardinality(all);
    if |SetOf(all)| == |all| {
      return answerDisguise;
    }
    WalkDistractors(answerDisguise, ds, ws);
    return answerDisguise;
  }

  /** The loop of `resolve_disguise_collisions`, seeded with the answer's disguise as taken. */
  method WalkDistractors(answerDisguise: string, ds: array<string>, ws: seq<string>)
    requires ds.Length == |ws|
    modifies ds
    ensures ds[..] == ResolveFrom(old(ds[..]), ws, 0, {answerDisguise})
  {
    ghost var orig := ds[..];
    ghost var target := ResolveFrom(orig, ws, 0, {answerDisguise});
    var taken := {answerDisguise};
    var i := 0;
    while i < ds.Length
      invariant 0 <= i <= ds.Length
      invariant forall k :: i <= k < ds.Length ==> ds[k] == orig[k]
      invariant forall k :: 0 <= k < i ==> ds[k] == target[k]
      invariant ResolveFrom(orig, ws, i, taken) == target[i..]
    {
      ResolveFromUnfold(orig, ws, i, taken, target);
      var d := ds[i];
      if d in taken {
        ds[i] := Rederive(d, ws[i], i, taken);
      }
      assert ds[i] == Step(orig[i], ws[i], i, taken);
      taken := taken + {ds[i]};
      i := i + 1;
    }
    assert ds[..] == target;
  }

  /** One step of the walk: the value at i, and the walk from i + 1 with that value taken. */
  lemma ResolveFromUnfold(ds: seq<string>, words: seq<string>, i: nat, taken: set<string>, target: seq<string>)
    requires i < |ds| == |words| == |target|
    requires ResolveFrom(ds, words, i, taken) == target[i..]
    ensures var v := Step(ds[i], words[i], i, taken);
      target[i] == v && ResolveFrom(ds, words, i + 1, taken + {v}) == target[i + 1..]
  {
    var rest := ResolveFrom(ds, words, i, taken);
    assert rest[0] == target[i];
    assert rest[1..] == target[i + 1..];
  }

  /**
   * With no collision among the disguises, walking the distractors would
   * change nothing either: the early return only saves the walk.
   */
  lemma {:induction false} ResolveFromNoCollision(ds: seq<string>, words: seq<string>, i: nat, taken: set<string>)
    requires i <= |ds| == |words|
    requires Distinct(ds)
    requires forall k :: i <= k < |ds| ==> ds[k] !in taken
    ensures ResolveFrom(ds, words, i, taken) == ds[i..]
    decreases |ds| - i
  {
    if i < |ds| {
      forall k | i + 1 <= k < |ds| ensures ds[k] !in taken + {ds[i]} {
      }
      ResolveFromNoCollision(ds, words, i + 1, taken + {ds[i]});
    }
  }

  lemma DistinctTail(x: string, s: seq<string>)
    requires Distinct([x] + s)
    ensures Distinct(s)
    ensures forall k :: 0 <= k < |s| ==> s[k] !in {x}
  {
    var all := [x] + s;
    forall i, j | 0 <= i < j < |s| ensures s[i] != s[j] {
      assert all[i + 1] != all[j + 1];
    }
    forall k | 0 <= k < |s| ensures s[k] !in {x} {
      assert all[0] != all[k + 1];
    }
  }

  lemma ResolveNoCollision(answer: string, ds: seq<string>, words: seq<string>)
    requires words == [] || |ds| <= |words|
    requires Distinct([answer] + ds)
    ensures Resolve(answer, ds, words) == ds
    ensures ResolveFrom(ds, WordsFor(words, |ds|), 0, {answer}) == ds
  {
    DistinctTail(answer, ds);
    ResolveFromNoCollision(ds, WordsFor(words, |ds|), 0, {answer});
  }

  /**
   * Each distractor's turn sees as taken exactly the answer's disguise and the
   * final values of every earlier distractor.
   */
  lemma {:induction false} ResolveFromAt(ds: seq<string>, words: seq<string>, i: nat, taken: set<string>, k: nat)
    requires i <= k < |ds| == |words|
    ensures var r := ResolveFrom(ds, words, i, taken);
      r[k - i] == Step(ds[k], words[k], k, taken + SetOf(r[..k - i]))
    decreases k - i
  {
    var r := ResolveFrom(ds, words, i, taken);
    var v := Step(ds[i], words[i], i, taken);
    if k == i {
      assert SetOf(r[..0]) == {};
    } else {
      var rest := ResolveFrom(ds, words, i + 1, taken + {v});
      ResolveFromAt(ds, words, i + 1, taken + {v}, k);
      assert r == [v] + rest;
      assert r[..k - i] == [v] + rest[..k - i - 1];
      SetOfCons(v, rest[..k - i - 1]);
      var seen := taken + SetOf(r[..k - i]);
      assert (taken + {v}) + SetOf(rest[..k - i - 1]) == seen;
      assert rest[k - (i + 1)] == Step(ds[k], words[k], k, seen);
    }
  }

  /** What happens at position k of a resolution that walked the distractors. */
  lemma ResolveAt(answer: string, ds: seq<string>, ws: seq<string>, k: nat)
    requires |ds| == |ws| && k < |ds|
    ensures var r := ResolveFrom(ds, ws, 0, {answer});
      var taken := {answer} + SetOf(r[..k]);
      var alt := if ws[k] != [] then KeptVowelDisguise(ws[k]) else ds[k];
      (ds[k] !in taken ==> r[k] == ds[k]) &&
      (ds[k] in taken && alt != ds[k] && alt !in taken ==> r[k] == alt) &&
      (ds[k] in taken && (alt == ds[k] || alt in taken) ==> r[k] == FallbackPrefix(ws[k], k) + ds[k])
  {
    ResolveFromAt(ds, ws, 0, {answer}, k);
  }

  /**
   * Unless distractor k fell back to the prefixed form, its final value is
   * distinct from the answer's disguise and from every earlier final value.
   */
  lemma AvoidsTakenUnlessPrefixed(answer: string, ds: seq<string>, ws: seq<string>, k: nat)
    requires |ds| == |ws| && k < |ds|
    ensures var r := ResolveFrom(ds, ws, 0, {answer});
      r[k] != FallbackPrefix(ws[k], k) + ds[k] ==> r[k] != answer && r[k] !in r[..k]
  {
    var r := ResolveFrom(ds, ws, 0, {answer});
    ResolveFromAt(ds, ws, 0, {answer}, k);
    if r[k] in r[..k] {
      assert r[k] in SetOf(r[..k]);
    }
  }

  /** When no distractor needed the prefix, the options all differ. */
  lemma NoPrefixMeansDistinct(answer: string, ds: seq<string>, ws: seq<string>)
    requires |ds| == |ws|
    requires var r := ResolveFrom(ds, ws, 0, {answer});
      forall k :: 0 <= k < |ds| ==> r[k] != FallbackPrefix(ws[k], k) + ds[k]
    ensures Distinct([answer] + ResolveFrom(ds, ws, 0, {answer}))
  {
    var r := ResolveFrom(ds, ws, 0, {answer});
    var all := [answer] + r;
    forall i, j | 0 <= i < j < |all| ensures all[i] != all[j] {
      AvoidsTakenUnlessPrefixed(answer, ds, ws, j - 1);
      if i > 0 {
        assert all[i] == r[..j - 1][i - 1];
      }
    }
  }

  /**
   * The prefixed form is not checked against what is taken: here the second
   * distractor's fallback "1" + "x" lands on the answer's own disguise.
   */
  lemma PrefixCanCollide()
    ensures Resolve("1x", ["x", "x"], []) == ["x", "1x"]
  {
    var ds: seq<string> := ["x", "x"];
    var all := ["1x"] + ds;
    assert all[1] == all[2];
    var ws := WordsFor([], 2);
    assert ws[0] == [] && ws[1] == [];
    assert Step("x", [], 0, {"1x"}) == "x";
    assert NatToString(1) == "1";
    assert Step("x", [], 1, {"1x", "x"}) == "1x";
    assert ResolveFrom(ds, ws, 2, {"1x", "x"}) == [];
    assert ResolveFrom(ds, ws, 1, {"1x", "x"}) == ["1x"];
    assert ResolveFrom(ds, ws, 0, {"1x"}) == ["x", "1x"];
  }
}
