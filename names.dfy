/** The name normaliser: turns a dataset directory name into the query name sent to the
    taxonomy search (preprocess_name). */
module Names {

  /** The length of the noise word "_sp", "_adult" or "_larva" that starts at the beginning
      of s, trying them in that order, or 0 when none does. */
  function NoiseAt(s: string): (n: nat)
    ensures n == 0 || n == 3 || n == 6
    ensures n <= |s|
    ensures n > 0 ==> s[0] == '_'
  {
    if |s| >= 3 && s[0] == '_' && s[1] == 's' && s[2] == 'p' then 3
    else if |s| >= 6 && s[0] == '_' && s[1] == 'a' && s[2] == 'd' && s[3] == 'u' && s[4] == 'l' && s[5] == 't' then 6
    else if |s| >= 6 && s[0] == '_' && s[1] == 'l' && s[2] == 'a' && s[3] == 'r' && s[4] == 'v' && s[5] == 'a' then 6
    else 0
  }

  /** The three noise words removed from a directory name. */
  const NoiseWords: set<string> := {"_sp", "_adult", "_larva"}

  /** re.sub('_sp|_adult|_larva', '', s): one left-to-right pass that deletes every
      non-overlapping match, trying the alternatives in order at each position and
      resuming after the deleted text; the output is never rescanned. */
  function StripNoise(s: string): (r: string)
    ensures |r| <= |s|
    decreases |s|
  {
    if |s| == 0 then ""
    else
      var n := NoiseAt(s);
      if n > 0 then StripNoise(s[n..]) else [s[0]] + StripNoise(s[1..])
  }

  /** Text without underscores contains no noise word and passes through unchanged. */
  lemma {:induction false} StripNoiseClean(s: string)
    requires '_' !in s
    ensures StripNoise(s) == s
    decreases |s|
  {
    if |s| > 0 {
      assert '_' !in s[1..];
      StripNoiseClean(s[1..]);
    }
  }

  /** The position of the first occurrence of c in s. */
  function IndexOf(s: string, c: char): (i: nat)
    requires c in s
    ensures i < |s| && s[i] == c && c !in s[..i]
  {
    if s[0] == c then 0
    else
      assert c in s[1..] by { var k :| 0 <= k < |s| && s[k] == c; assert s[1..][k - 1] == c; }
      var j := IndexOf(s[1..], c);
      assert s[..j + 1] == [s[0]] + s[1..][..j];
      j + 1
  }

  /** '_'.join(parts) */
  function Join(parts: seq<string>): string
    requires |parts| >= 1
  {
    if |parts| == 1 then parts[0] else parts[0] + "_" + Join(parts[1..])
  }

  /** s.split('_'): the maximal pieces between underscores, empty pieces included. */
  function Split(s: string): (parts: seq<string>)
    ensures |parts| >= 1
    ensures forall k :: 0 <= k < |parts| ==> '_' !in parts[k]
    ensures Join(parts) == s
    decreases |s|
  {
    if '_' !in s then [s]
    else
      var i := IndexOf(s, '_');
      var rest := Split(s[i + 1..]);
      assert s == s[..i] + "_" + s[i + 1..];
      assert ([s[..i]] + rest)[1..] == rest;
      [s[..i]] + rest
  }

  /** preprocess_name: strip the noise words, then build the query name from what is left. */
  function PreprocessName(dirName: string): (queryName: string)
    ensures '_' !in queryName
  {
    QueryOf(StripNoise(dirName))
  }

  /** The query name of a stripped name: split on '_', and keep the first and the last piece
      joined by '+' when there are two or more pieces; a single piece is returned as is. */
  function QueryOf(t: string): (queryName: string)
    ensures '_' !in queryName
  {
    var parts := Split(t);
    if |parts| > 1 then
      assert '_' !in parts[0] && '_' !in parts[|parts| - 1];
      parts[0] + "+" + parts[|parts| - 1]
    else parts[0]
  }

  /** Splitting undoes joining, for pieces without underscores. */
  lemma {:induction false} SplitJoin(parts: seq<string>)
    requires |parts| >= 1
    requires forall k :: 0 <= k < |parts| ==> '_' !in parts[k]
    ensures Split(Join(parts)) == parts
    decreases |parts|
  {
    if |parts| > 1 {
      var s := Join(parts);
      var p := parts[0];
      assert s == p + "_" + Join(parts[1..]);
      assert s[|p|] == '_';
      var i := IndexOf(s, '_');
      assert s[..i] == p;
      assert s[i + 1..] == Join(parts[1..]);
      SplitJoin(parts[1..]);
      assert Split(s) == [p] + parts[1..];
    }
  }

  /** The last piece of a split is whatever follows the last underscore. */
  lemma SplitLast(t: string, j: nat)
    requires j < |t| && t[j] == '_' && '_' !in t[j + 1..]
    ensures |Split(t)| > 1 && Split(t)[|Split(t)| - 1] == t[j + 1..]
  {
    assert t == t[..j] + "_" + t[j + 1..];
    SplitLastPiece(t[..j], t[j + 1..]);
  }

  /** The last piece of splitting a + "_" + b is b, when b holds no underscore. */
  lemma {:induction false} SplitLastPiece(a: string, b: string)
    requires '_' !in b
    ensures var parts := Split(a + "_" + b); |parts| > 1 && parts[|parts| - 1] == b
    decreases |a|
  {
    if '_' !in a {
      SplitClearPrefix(a, b);
    } else {
      var i := IndexOf(a, '_');
      SplitAfterFirst(a, b);
      SplitLastPiece(a[i + 1..], b);
      LastOfCons(a[..i], Split(a[i + 1..] + "_" + b));
    }
  }

  /** Splitting a + "_" + b, neither holding an underscore, gives a and b. */
  lemma SplitClearPrefix(a: string, b: string)
    requires '_' !in a && '_' !in b
    ensures Split(a + "_" + b) == [a, b]
  {
    var t := a + "_" + b;
    assert t[|a|] == '_' && t[..|a|] == a;
    IndexOfUnique(t, '_', |a|);
    assert t[|a| + 1..] == b;
  }

  /** When a holds an underscore, the first piece of a + "_" + b is that of a, and the rest
      is the split of what follows it in a, then "_" + b. */
  lemma SplitAfterFirst(a: string, b: string)
    requires '_' in a
    ensures var i := IndexOf(a, '_');
      Split(a + "_" + b) == [a[..i]] + Split(a[i + 1..] + "_" + b)
  {
    var t := a + "_" + b;
    var i := IndexOf(a, '_');
    assert t[i] == '_' && t[..i] == a[..i];
    IndexOfUnique(t, '_', i);
    assert t[i + 1..] == a[i + 1..] + "_" + b;
    SplitUnfold(t);
  }

  /** The last element of [x] + p is that of p. */
  lemma LastOfCons(x: string, p: seq<string>)
    requires |p| > 0
    ensures |[x] + p| > 1 && ([x] + p)[|[x] + p| - 1] == p[|p| - 1]
  {
  }

  /** One step of split: the text before the first underscore, then the split of the rest. */
  lemma SplitUnfold(t: string)
    requires '_' in t
    ensures Split(t) == [t[..IndexOf(t, '_')]] + Split(t[IndexOf(t, '_') + 1..])
  {
  }

  /** The first occurrence is the only position holding c with no c before it. */
  lemma {:induction false} IndexOfUnique(s: string, c: char, k: nat)
    requires k < |s| && s[k] == c && c !in s[..k]
    ensures c in s && IndexOf(s, c) == k
    decreases k
  {
    assert s[k] in s;
    if k > 0 {
      assert s[0] == s[..k][0];
      assert s[1..][k - 1] == c;
      assert s[1..][..k - 1] == s[..k][1..];
      IndexOfUnique(s[1..], c, k - 1);
    }
  }

  /** A noise word that starts inside a non-empty a cannot reach into b when b begins with an
      underscore: each noise word has its only underscore at its first position. */
  lemma NoiseStaysInside(a: string, b: string)
    requires |a| > 0
    requires |b| > 0 ==> b[0] == '_'
    ensures NoiseAt(a + b) == NoiseAt(a)
  {
  }

  /** So the pass works piecewise at a boundary followed by an underscore. */
  lemma {:induction false} StripNoiseConcat(a: string, b: string)
    requires |b| > 0 ==> b[0] == '_'
    ensures StripNoise(a + b) == StripNoise(a) + StripNoise(b)
    decreases |a|
  {
    if |a| == 0 {
      assert a + b == b;
    } else {
      StripNoiseConcat(a[Advance(a)..], b);
      StripNoiseConcatStep(a, b);
    }
  }

  /** How far one step of the pass moves: past a noise word, or past one kept character. */
  function Advance(s: string): (k: nat)
    requires |s| > 0
    ensures 0 < k <= |s|
  {
    if NoiseAt(s) > 0 then NoiseAt(s) else 1
  }

  /** One step of StripNoiseConcat: if the pass works piecewise on what follows the first step
      over a, it works piecewise on a. */
  lemma StripNoiseConcatStep(a: string, b: string)
    requires |b| > 0 ==> b[0] == '_'
    requires |a| > 0
    requires StripNoise(a[Advance(a)..] + b) == StripNoise(a[Advance(a)..]) + StripNoise(b)
    ensures StripNoise(a + b) == StripNoise(a) + StripNoise(b)
  {
    if NoiseAt(a) > 0 {
      StripSkip(a, b);
    } else {
      StripKeep(a, b);
      PrependAppend(a[0], StripNoise(a[1..]), StripNoise(b));
    }
  }

  /** Prepending a character and appending text can be done in either order. */
  lemma PrependAppend(x: char, r: string, b: string)
    ensures [x] + (r + b) == ([x] + r) + b
  {
  }

  /** A noise word at the start of a is deleted from a + b as from a. */
  lemma StripSkip(a: string, b: string)
    requires |b| > 0 ==> b[0] == '_'
    requires |a| > 0 && NoiseAt(a) > 0
    ensures StripNoise(a + b) == StripNoise(a[NoiseAt(a)..] + b)
    ensures StripNoise(a) == StripNoise(a[NoiseAt(a)..])
  {
    NoiseStaysInside(a, b);
    assert (a + b)[NoiseAt(a)..] == a[NoiseAt(a)..] + b;
  }

  /** A first character of a that starts no noise word is kept in a + b as in a. */
  lemma StripKeep(a: string, b: string)
    requires |b| > 0 ==> b[0] == '_'
    requires |a| > 0 && NoiseAt(a) == 0
    ensures StripNoise(a + b) == [a[0]] + StripNoise(a[1..] + b)
    ensures StripNoise(a) == [a[0]] + StripNoise(a[1..])
  {
    NoiseStaysInside(a, b);
    assert (a + b)[1..] == a[1..] + b;
  }

  /** With the stripped name t, the query name joins the text before the first underscore of t
      and the text after its last underscore. */
  lemma PreprocessNameEnds(dirName: string, i: nat, j: nat)
    requires var t := StripNoise(dirName);
      i <= j < |t| && t[i] == '_' && t[j] == '_' && '_' !in t[..i] && '_' !in t[j + 1..]
    ensures var t := StripNoise(dirName); PreprocessName(dirName) == t[..i] + "+" + t[j + 1..]
  {
    var t := StripNoise(dirName);
    var k := IndexOf(t, '_');
    assert k == i;
    SplitLast(t, j);
  }

  /** Without an underscore left after stripping, the stripped name is the query name. */
  lemma PreprocessNameSinglePart(dirName: string)
    requires '_' !in StripNoise(dirName)
    ensures PreprocessName(dirName) == StripNoise(dirName)
  {
  }

  /** Each noise word on its own is deleted completely. */
  lemma NoiseWordsVanish(w: string)
    requires w in NoiseWords
    ensures w[0] == '_' && StripNoise(w) == ""
  {
    assert NoiseAt(w) == |w|;
    assert w[|w|..] == "";
  }

  /** Appending a noise word does not change the query name. */
  lemma NoiseSuffixDropped(base: string, noise: string)
    requires noise in NoiseWords
    ensures PreprocessName(base + noise) == PreprocessName(base)
  {
    NoiseWordsVanish(noise);
    VanishingSuffix(base, noise);
  }

  lemma VanishingSuffix(base: string, w: string)
    requires |w| > 0 && w[0] == '_' && StripNoise(w) == ""
    ensures PreprocessName(base + w) == PreprocessName(base)
  {
    StripNoiseOfVanishingSuffix(base, w);
    SameStripSameQuery(base + w, base);
  }

  lemma StripNoiseOfVanishingSuffix(base: string, w: string)
    requires |w| > 0 && w[0] == '_' && StripNoise(w) == ""
    ensures StripNoise(base + w) == StripNoise(base)
  {
    StripNoiseConcat(base, w);
    assert StripNoise(base) + "" == StripNoise(base);
  }

  /** The query name depends on the directory name only through the stripped name. */
  lemma SameStripSameQuery(a: string, b: string)
    requires StripNoise(a) == StripNoise(b)
    ensures PreprocessName(a) == PreprocessName(b)
  {
  }

  /** When stripping leaves the pieces of parts joined by underscores, the query name is
      built from the first and the last of them. */
  lemma PreprocessNameOfPieces(dirName: string, parts: seq<string>)
    requires |parts| >= 1
    requires forall k :: 0 <= k < |parts| ==> '_' !in parts[k]
    requires StripNoise(dirName) == Join(parts)
    ensures PreprocessName(dirName) == if |parts| > 1 then parts[0] + "+" + parts[|parts| - 1] else parts[0]
  {
    SplitJoin(parts);
  }

  /** An underscore followed by a piece that has no underscore and does not begin a noise word
      passes through the stripping pass unchanged. */
  lemma CleanPiece(piece: string)
    requires '_' !in piece && NoiseAt("_" + piece) == 0
    ensures StripNoise("_" + piece) == "_" + piece
  {
    assert ("_" + piece)[1..] == piece;
    StripNoiseClean(piece);
  }

  /** "_" followed by clean pieces joined by underscores passes through unchanged. */
  lemma {:induction false} CleanTail(parts: seq<string>)
    requires |parts| >= 1
    requires forall k :: 0 <= k < |parts| ==> '_' !in parts[k] && NoiseAt("_" + parts[k]) == 0
    ensures StripNoise("_" + Join(parts)) == "_" + Join(parts)
    decreases |parts|
  {
    var head := "_" + parts[0];
    CleanPiece(parts[0]);
    if |parts| > 1 {
      var more := "_" + Join(parts[1..]);
      assert "_" + Join(parts) == head + more;
      CleanTail(parts[1..]);
      StripNoiseConcat(head, more);
    }
  }

  /** A name made of pieces without underscores, none of them after the first starting with a
      noise word's letters, is left alone by the stripping pass. */
  lemma StripNoiseOfCleanJoin(parts: seq<string>)
    requires |parts| >= 1
    requires forall k :: 0 <= k < |parts| ==> '_' !in parts[k]
    requires forall k :: 1 <= k < |parts| ==> NoiseAt("_" + parts[k]) == 0
    ensures StripNoise(Join(parts)) == Join(parts)
  {
    StripNoiseClean(parts[0]);
    if |parts| > 1 {
      var tail := "_" + Join(parts[1..]);
      assert Join(parts) == parts[0] + tail;
      CleanTail(parts[1..]);
      StripNoiseConcat(parts[0], tail);
    }
  }

  /** The query name of a clean name "First_..._Last" is "First+Last": the middle parts are
      discarded, and a single part is returned as it is. */
  lemma CleanNameQuery(parts: seq<string>)
    requires |parts| >= 1
    requires forall k :: 0 <= k < |parts| ==> '_' !in parts[k]
    requires forall k :: 1 <= k < |parts| ==> NoiseAt("_" + parts[k]) == 0
    ensures PreprocessName(Join(parts)) == if |parts| > 1 then parts[0] + "+" + parts[|parts| - 1] else parts[0]
  {
    StripNoiseOfCleanJoin(parts);
    PreprocessNameOfPieces(Join(parts), parts);
  }

  /* The examples below state what the query name of a particular directory name is. */

  /** The examples in the source's documentation of preprocess_name. */
  lemma ExampleBinomial(name: string)
    requires name == "Asellus" + "_" + "aquaticus"
    ensures PreprocessName(name) == "Asellus" + "+" + "aquaticus"
  {
    assert Join(["Asellus", "aquaticus"]) == name;
    CleanNameQuery(["Asellus", "aquaticus"]);
  }

  lemma ExampleSinglePart(name: string)
    requires name == "Chelifera"
    ensures PreprocessName(name) == name
  {
    StripNoiseClean(name);
    PreprocessNameOfPieces(name, [name]);
  }

  lemma ExampleThreeParts(name: string)
    requires name == "Ephemerella" + "_" + "aroni" + "_" + "aurivillii"
    ensures PreprocessName(name) == "Ephemerella" + "+" + "aurivillii"
  {
    var parts := ["Ephemerella", "aroni", "aurivillii"];
    assert Join(parts) == name by {
      assert parts[1..] == ["aroni", "aurivillii"];
      assert Join(parts[1..]) == "aroni" + "_" + "aurivillii";
    }
    CleanNameQuery(parts);
  }

  /** Empty pieces are kept: a trailing underscore leaves an empty last piece. */
  lemma ExampleTrailingUnderscore(name: string)
    requires name == "Foo" + "_"
    ensures PreprocessName(name) == "Foo" + "+"
  {
    var parts := ["Foo", ""];
    assert Join(parts) == name;
    CleanNameQuery(parts);
  }

  /** Noise words at the end of a name are dropped, also several in a row. */
  lemma ExampleNoiseSuffixes(genus: string)
    requires genus == "Foo"
    ensures PreprocessName(genus + "_sp") == genus
    ensures PreprocessName(genus + "_adult" + "_larva") == genus
  {
    StripNoiseClean(genus);
    PreprocessNameOfPieces(genus, [genus]);
    NoiseSuffixDropped(genus, "_sp");
    NoiseSuffixDropped(genus + "_adult", "_larva");
    NoiseSuffixDropped(genus, "_adult");
  }

  /** The pass is not a fixpoint: deleting "_sp" from "_s_spp" leaves a new "_sp", and a
      second pass would delete that too. */
  lemma SinglePassOnly(s: string)
    requires s == "_s" + ("_sp" + "p")
    ensures StripNoise(s) == "_sp"
    ensures StripNoise(StripNoise(s)) == ""
    ensures PreprocessName("A" + s) == "A" + "+" + "sp"
  {
    NoiseWordsVanish("_sp");
    var front, back := "_s", "_sp" + "p";
    assert StripNoise(front) == front by {
      assert NoiseAt(front) == 0 && front[1..] == "s";
      StripNoiseClean("s");
    }
    assert StripNoise(back) == "p" by {
      assert NoiseAt(back) == 3 && back[3..] == "p";
      StripNoiseClean("p");
    }
    StripNoiseConcat(front, back);
    assert StripNoise(s) == "_sp";
    StripNoiseConcat("A", s);
    StripNoiseClean("A");
    assert Join(["A", "sp"]) == "A" + "_sp";
    PreprocessNameOfPieces("A" + s, ["A", "sp"]);
  }

  /** "_sp" is deleted wherever it occurs, also at the start of an epithet such as "spinosus". */
  lemma NoiseInsideEpithet(name: string)
    requires name == "Baetis" + ("_sp" + "inosus")
    ensures PreprocessName(name) == "Baetis" + "inosus"
  {
    SpPrefixDropped("Baetis", "inosus");
  }

  /** A genus and an epithet glued by "_sp", neither with an underscore, lose the "_sp". */
  lemma SpPrefixDropped(genus: string, rest: string)
    requires '_' !in genus && '_' !in rest
    ensures PreprocessName(genus + ("_sp" + rest)) == genus + rest
  {
    var tail := "_sp" + rest;
    StripNoiseConcat(genus, tail);
    StripNoiseClean(genus);
    assert StripNoise(tail) == rest by {
      assert NoiseAt(tail) == 3 && tail[3..] == rest;
      StripNoiseClean(rest);
    }
    CleanConcat(genus, rest);
    PreprocessNameOfPieces(genus + tail, [genus + rest]);
  }

  lemma CleanConcat(a: string, b: string)
    requires '_' !in a && '_' !in b
    ensures '_' !in a + b && Join([a + b]) == a + b
  {
  }
}
