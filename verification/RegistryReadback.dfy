/** What the pieces omxregister writes say to a reader: numbers, quality strings and component lines
    read back give what was written, and every component stands under its library. */
module RegistryReadback {
  import opened RegistryText
  import opened RegistryScan
  import opened Sequences

  // ---------------------------------------------------------------- numbers

  predicate IsDigit(c: char) {
    '0' <= c <= '9'
  }

  /** The value of a string of digits, as strtol computes it. */
  function Value(s: string): int {
    if s == [] then 0 else 10 * Value(s[..|s| - 1]) + (s[|s| - 1] as int - '0' as int)
  }

  function ReadInt(s: string): int {
    if s != [] && s[0] == '-' then -Value(s[1..]) else Value(s)
  }

  ghost predicate AllDigits(s: string) {
    forall i :: 0 <= i < |s| ==> IsDigit(s[i])
  }

  /** The digits of a number read back give the number, and there is no leading zero. */
  lemma {:induction false} DecimalReadsBack(n: nat)
    ensures Value(Decimal(n)) == n && AllDigits(Decimal(n))
    ensures Decimal(n)[0] == '0' <==> n == 0
  {
    if n >= 10 {
      DecimalReadsBack(n / 10);
      var s := Decimal(n);
      assert s[..|s| - 1] == Decimal(n / 10);
    } else {
      assert Decimal(n)[..0] == [];
    }
  }

  lemma {:induction false} ReadDigits(s: string)
    requires s != [] && AllDigits(s)
    ensures ReadInt(s) == Value(s) && ReadInt("-" + s) == -Value(s)
    ensures Free(s, {' ', ','}) && Free("-" + s, {' ', ','})
  {
    assert IsDigit(s[0]) && ("-" + s)[1..] == s;
    forall i | 0 <= i < |s| ensures s[i] !in {' ', ','} {
      assert IsDigit(s[i]);
    }
  }

  lemma {:induction false} PrintReadsBack(v: int)
    ensures ReadInt(Print(v)) == v
    ensures Print(v) != [] && Free(Print(v), {' ', ','})
  {
    var n := if v < 0 then -v else v;
    DecimalReadsBack(n);
    ReadDigits(Decimal(n));
  }

  // ---------------------------------------------------------------- the quality string

  /** The words of a text in which each is followed by a space. */
  function Words(s: string): seq<string>
    decreases |s|
  {
    var k := Until(s, {' '});
    if k == |s| then [] else [s[..k]] + Words(s[k + 1..])
  }

  function Spaced(words: seq<string>): string {
    if words == [] then [] else words[0] + " " + Spaced(words[1..])
  }

  lemma {:induction false} WordsOfSpaced(words: seq<string>)
    requires forall i :: 0 <= i < |words| ==> Free(words[i], {' '})
    ensures Words(Spaced(words)) == words
  {
    if words != [] {
      var s, rest := Spaced(words), Spaced(words[1..]);
      assert Free(words[0], {' '});
      UntilIs(s, {' '}, |words[0]|);
      assert s[..|words[0]|] == words[0] && s[|words[0]| + 1..] == rest;
      WordsOfSpaced(words[1..]);
    }
  }

  lemma {:induction false} SpacedAppend(words: seq<string>, word: string)
    ensures Spaced(words + [word]) == Spaced(words) + (word + " ")
  {
    if words == [] {
      assert words + [word] == [word] && [word][1..] == [];
      assert Spaced([word]) == word + " " + [];
    } else {
      SpacedAppend(words[1..], word);
      assert (words + [word])[1..] == words[1..] + [word];
      Assoc(words[0] + " ", Spaced(words[1..]), word + " ");
    }
  }

  function LevelWord(level: Level): string {
    Print(level.0) + "," + Print(level.1)
  }

  function ReadLevel(word: string): Level {
    var k := Until(word, {','});
    (ReadInt(word[..k]), ReadInt(if k < |word| then word[k + 1..] else []))
  }

  lemma {:induction false} LevelReadsBack(level: Level)
    ensures ReadLevel(LevelWord(level)) == level
    ensures Free(LevelWord(level), {' '})
  {
    PrintReadsBack(level.0);
    PrintReadsBack(level.1);
    var word, k := LevelWord(level), |Print(level.0)|;
    UntilIs(word, {','}, k);
    assert word[..k] == Print(level.0) && word[k + 1..] == Print(level.1);
  }

  function WordAt(levels: seq<Level>, i: nat): string
    requires i <= |levels|
  {
    if i == 0 then Print(|levels|) else LevelWord(levels[i - 1])
  }

  /** The count, then the levels. */
  function QualityWords(levels: seq<Level>): (ws: seq<string>)
    ensures |ws| == |levels| + 1
    ensures forall i :: 0 <= i <= |levels| ==> ws[i] == WordAt(levels, i)
  {
    seq(|levels| + 1, i requires 0 <= i <= |levels| => WordAt(levels, i))
  }

  lemma {:induction false} WordFree(levels: seq<Level>, i: nat)
    requires i <= |levels|
    ensures Free(WordAt(levels, i), {' '})
  {
    if i == 0 {
      PrintReadsBack(|levels|);
    } else {
      LevelReadsBack(levels[i - 1]);
    }
  }

  lemma {:induction false} PieceIsWord(levels: seq<Level>, i: nat)
    requires i <= |levels|
    ensures QualityPieces(levels)[i].text == WordAt(levels, i) + " "
  {
    PiecesToAt(levels, |levels|, i);
  }

  lemma {:induction false} MeantIsSpaced(ps: seq<Piece>, words: seq<string>, k: nat)
    requires k <= |ps| == |words| && forall i :: 0 <= i < |ps| ==> ps[i].text == words[i] + " "
    ensures Meant(ps, k) == Spaced(words[..k])
  {
    if k > 0 {
      MeantIsSpaced(ps, words, k - 1);
      SpacedAppend(words[..k - 1], words[k - 1]);
      assert words[..k] == words[..k - 1] + [words[k - 1]];
    }
  }

  /** The quality string meant, read word by word, gives the number of levels and then each level:
      first its CPU and then its memory value.  So, by QualityExact, does the string built, when
      all values are positive. */
  lemma {:induction false} QualityReadsBack(levels: seq<Level>)
    requires levels != []
    ensures var words := Words(QualityText(levels) + " ");
            && |words| == |levels| + 1 && ReadInt(words[0]) == |levels|
            && forall i :: 0 <= i < |levels| ==> ReadLevel(words[i + 1]) == levels[i]
  {
    var words := QualityWords(levels);
    QualityTextIs(levels);
    QualityWordsRead(levels);
    WordsOfSpaced(words);
    forall i | 0 <= i < |levels| ensures ReadLevel(words[i + 1]) == levels[i] {
      assert words[i + 1] == WordAt(levels, i + 1);
      LevelReadsBack(levels[i]);
    }
  }

  lemma {:induction false} QualityTextIs(levels: seq<Level>)
    requires levels != []
    ensures QualityText(levels) + " " == Spaced(QualityWords(levels))
  {
    var ps, words := QualityPieces(levels), QualityWords(levels);
    forall i | 0 <= i < |ps| ensures ps[i].text == words[i] + " " {
      PieceIsWord(levels, i);
    }
    AllWordsSpaced(ps, words);
  }

  lemma {:induction false} AllWordsSpaced(ps: seq<Piece>, words: seq<string>)
    requires |ps| == |words| > 0 && forall i :: 0 <= i < |ps| ==> ps[i].text == words[i] + " "
    ensures ButLast(Meant(ps, |ps|)) + " " == Spaced(words)
  {
    MeantIsSpaced(ps, words, |ps|);
    assert words[..|words|] == words;
    EndsWithSpace(words);
  }

  lemma {:induction false} QualityWordsRead(levels: seq<Level>)
    ensures var words := QualityWords(levels);
            && ReadInt(words[0]) == |levels|
            && forall i :: 0 <= i < |words| ==> Free(words[i], {' '})
  {
    var words := QualityWords(levels);
    PrintReadsBack(|levels|);
    forall i | 0 <= i < |words| ensures Free(words[i], {' '}) {
      WordFree(levels, i);
    }
  }

  lemma {:induction false} EndsWithSpace(words: seq<string>)
    requires words != []
    ensures Spaced(words) != [] && Spaced(words)[|Spaced(words)| - 1] == ' '
  {
    if |words| > 1 {
      EndsWithSpace(words[1..]);
    }
  }

  // ---------------------------------------------------------------- a component line

  /** The quality string is what stands behind the last arrow. */
  lemma {:induction false} QualityIsLast(c: Component)
    requires c.quality != []
    ensures ComponentLine(c) == ComponentLine(c.(quality := [])) + ARROW + c.quality
  {
    var plain := ComponentLine(c.(quality := []));
    assert plain + [] == plain;
  }

  /** One line as it stands in a file. */
  lemma {:induction false} SampleLine()
    ensures ComponentLine(Component("OMX.x", ["a", "b"], "1 7,9")) == " ==> OMX.x ==> a:b: ==> 1 7,9"
  {
    SampleRoles();
    assert ARROW + "OMX.x" == " ==> OMX.x";
    assert " ==> OMX.x" + (ARROW + "a:b:") == " ==> OMX.x ==> a:b:";
    assert " ==> OMX.x ==> a:b:" + (ARROW + "1 7,9") == " ==> OMX.x ==> a:b: ==> 1 7,9";
  }

  lemma {:induction false} SampleRoles()
    ensures RolesText(["a", "b"]) == "a:b:"
  {
    var roles := ["a", "b"];
    assert roles[1..] == ["b"] && roles[1..][1..] == [];
  }

  // ---------------------------------------------------------------- the order of the file

  /** a is b with some elements left out. */
  predicate Subsequence<T(==)>(a: seq<T>, b: seq<T>) {
    a == [] || (b != [] && if a[0] == b[0] then Subsequence(a[1..], b[1..]) else Subsequence(a, b[1..]))
  }

  lemma {:induction false} WrittenInOrder(comps: seq<Component>, seen: seq<string>)
    ensures Subsequence(Written(NewComps(comps, seen).0), comps)
  {
    if comps != [] {
      var next := if comps[0].name in seen then seen else seen + [comps[0].name];
      WrittenInOrder(comps[1..], next);
      WrittenHead(comps, seen);
      var written, rest := Written(NewComps(comps, seen).0), Written(NewComps(comps[1..], next).0);
      if comps[0].name in seen {
        WrittenFirst(comps, seen);
        assert written == rest && (written != [] ==> written[0] in written);
      } else {
        assert written[1..] == rest;
      }
    }
  }

  /** The components of the registry stand in the order of the libraries and of the components within
      each; with RegisteredOnce this fixes the file's components. */
  lemma {:induction false} RegistryInOrder(libs: seq<Library>)
    ensures Subsequence(Written(RegistryLines(libs, [])), AllComps(libs))
  {
    WrittenOfRegistry(libs, []);
    WrittenInOrder(AllComps(libs), []);
  }

  lemma {:induction false} NewCompsAreOwn(comps: seq<Component>, seen: seq<string>)
    ensures forall i :: 0 <= i < |NewComps(comps, seen).0| ==> NewComps(comps, seen).0[i].comp in comps
  {
    if comps != [] {
      NewCompsAreOwn(comps[1..], if comps[0].name in seen then seen else seen + [comps[0].name]);
      assert comps == [comps[0]] + comps[1..];
    }
  }

  /** Every component line stands under the path of a library that has the component. */
  lemma {:induction false} UnderItsLibrary(libs: seq<Library>, seen: seq<string>, i: nat)
    requires i < |RegistryLines(libs, seen)| && RegistryLines(libs, seen)[i].CompLine?
    ensures var lines := RegistryLines(libs, seen); var n := |Paths(lines[..i])|;
            1 <= n <= |libs| && Paths(lines[..i])[n - 1] == libs[n - 1].path && lines[i].comp in libs[n - 1].comps
  {
    var own := NewComps(libs[0].comps, seen);
    var head, rest := [LibraryLine(libs[0].path)], RegistryLines(libs[1..], own.1);
    var lines := RegistryLines(libs, seen);
    assert Paths(head) == [libs[0].path] + Paths([]);
    if i <= |own.0| {
      NewCompsAreOwn(libs[0].comps, seen);
      assert lines[..i] == head + own.0[..i - 1] && lines[i] == own.0[i - 1];
      PathsAppend(head, own.0[..i - 1]);
      NoPathsInComps(own.0[..i - 1]);
    } else {
      var k := i - 1 - |own.0|;
      assert lines[..i] == head + own.0 + rest[..k] && lines[i] == rest[k];
      PathsAppend(head + own.0, rest[..k]);
      PathsAppend(head, own.0);
      NoPathsInComps(own.0);
      UnderItsLibrary(libs[1..], own.1, k);
    }
  }
}
