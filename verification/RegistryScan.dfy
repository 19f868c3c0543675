/** The two hand-written scanners of the registry file, and what they recover from what
    omxregister writes: the loader reads the libraries, omxregister -l the components. */
module RegistryScan {
  import opened RegistryText
  import opened Sequences

  const MAX_LINE_LENGTH: nat := 2048
  const DEFAULT_LINE_LENGHT: nat := 500

  /** The loader's buffer for a library name: twice OMX_MAX_STRINGNAME_SIZE. */
  const LIBNAME_SIZE: nat := 256

  /** What fgetc yields at end of file, stored in a char. */
  const EOF_CHAR: char := 255 as char

  // ---------------------------------------------------------------- the loader's reader

  /** The lines of components are told by their first two characters. */
  predicate Skipped(line: string) {
    |line| >= 2 && line[0] == ' ' && line[1] == '='
  }

  const ENDS: set<char> := {'\n', NUL}

  /** The library names the loader opens, in order: it stops at an empty line, at a line of
      MAX_LINE_LENGTH or more, and at one that the file does not terminate. */
  function Visited(file: string): seq<string>
    decreases |file|
  {
    var k := Until(file, ENDS);
    if k >= |file| || k == 0 || k >= MAX_LINE_LENGTH then []
    else (if Skipped(file[..k]) then [] else [file[..k]]) + Visited(file[k + 1..])
  }

  /** Every library name visited fits the buffer it is copied to, with its terminator. */
  predicate VisitDefined(file: string)
    decreases |file|
  {
    var k := Until(file, ENDS);
    k >= |file| || k == 0 || k >= MAX_LINE_LENGTH
    || ((Skipped(file[..k]) || k < LIBNAME_SIZE) && VisitDefined(file[k + 1..]))
  }

  /** The reading loops of BOSA_ST_InitComponentLoader. */
  method ReadLibraries(file: string) returns (libs: seq<string>)
    requires VisitDefined(file)
    ensures libs == Visited(file)
  {
    var line := new char[MAX_LINE_LENGTH + 1];
    libs := [];
    var pos := 0;
    var more := true;
    assert file[0..] == file;
    while more
      invariant 0 <= pos <= |file|
      invariant Visited(file) == libs + (if more then Visited(file[pos..]) else [])
      invariant more ==> VisitDefined(file[pos..])
      decreases more, |file| - pos
    {
      var found;
      more, pos, found := VisitLine(file, pos, line);
      Assoc(libs, found, if more then Visited(file[pos..]) else []);
      libs := libs + found;
    }
  }

  /** One round of the loop: the library found, if the line names one. */
  method VisitLine(file: string, start: nat, line: array<char>) returns (more: bool, pos: nat, found: seq<string>)
    requires start <= |file| && line.Length == MAX_LINE_LENGTH + 1 && VisitDefined(file[start..])
    modifies line
    ensures pos <= |file| && (more ==> start < pos && VisitDefined(file[pos..]))
    ensures Visited(file[start..]) == found + (if more then Visited(file[pos..]) else [])
  {
    ghost var rest := file[start..];
    var index;
    pos, index := ReadLine(file, start, line);
    if index >= MAX_LINE_LENGTH || index == 0 {
      VisitedStops(rest, index);
      return false, pos, [];
    }
    VisitedGoesOn(rest, index);
    assert rest[index + 1..] == file[pos..];
    var skip := LooksLikeComponent(line, index);
    more := true;
    found := [];
    if !skip {
      var libname := new char[LIBNAME_SIZE];
      CopyName(line, index, libname);
      found := [libname[..index]];
    }
  }

  /** strcpy from the line to the library name. */
  method CopyName(line: array<char>, length: nat, libname: array<char>)
    requires line != libname && length < line.Length && length < libname.Length
    modifies libname
    ensures libname[..length] == line[..length]
  {
    var i := 0;
    while i <= length
      invariant 0 <= i <= length + 1
      invariant forall k :: 0 <= k < i ==> libname[k] == line[k]
    {
      libname[i] := line[i];
      i := i + 1;
    }
  }

  /** index is what the reading of a line gives for this text. */
  ghost predicate LineEnd(text: string, index: nat) {
    var end := Until(text, ENDS);
    index == if end < |text| && end < MAX_LINE_LENGTH then end else MAX_LINE_LENGTH
  }

  lemma {:induction false} VisitedStops(text: string, index: nat)
    requires LineEnd(text, index) && (index == MAX_LINE_LENGTH || index == 0)
    ensures Visited(text) == []
  {
  }

  lemma {:induction false} VisitedGoesOn(text: string, index: nat)
    requires LineEnd(text, index) && 0 < index < MAX_LINE_LENGTH
    ensures index < |text|
    ensures VisitDefined(text) <==> (Skipped(text[..index]) || index < LIBNAME_SIZE) && VisitDefined(text[index + 1..])
    ensures Visited(text) == (if Skipped(text[..index]) then [] else [text[..index]]) + Visited(text[index + 1..])
  {
  }

  method LooksLikeComponent(line: array<char>, index: nat) returns (skip: bool)
    requires 1 <= index < line.Length && line[index] == NUL
    ensures skip <==> Skipped(line[..index])
  {
    skip := line[0] == ' ' && line[1] == '=';
  }

  /** One line into the buffer: index is where its end was found, or MAX_LINE_LENGTH. */
  method ReadLine(file: string, start: nat, line: array<char>) returns (pos: nat, index: nat)
    requires start <= |file| && line.Length == MAX_LINE_LENGTH + 1
    modifies line
    ensures start <= pos <= |file| && index <= MAX_LINE_LENGTH && line[index] == NUL
    ensures LineEnd(file[start..], index)
    ensures index < MAX_LINE_LENGTH ==> pos == start + index + 1 && line[..index] == file[start..][..index]
  {
    ghost var rest := file[start..];
    pos, index := start, 0;
    while index < MAX_LINE_LENGTH
      invariant 0 <= index <= MAX_LINE_LENGTH
      invariant pos == if index <= |rest| then start + index else |file|
      invariant forall j :: 0 <= j < index && j < |rest| ==> line[j] == rest[j] && rest[j] !in ENDS
    {
      if pos < |file| {
        line[index] := file[pos];
        pos := pos + 1;
      } else {
        line[index] := EOF_CHAR;
      }
      if line[index] == '\n' || line[index] == NUL {
        assert rest[index] in ENDS;
        UntilIs(rest, ENDS, index);
        break;
      }
      index := index + 1;
    }
    line[index] := NUL;
  }

  // ---------------------------------------------------------------- libraries round trip

  ghost predicate OneLiners(lines: seq<string>) {
    forall i :: 0 <= i < |lines| ==> Free(lines[i], ENDS)
  }

  ghost predicate Short(line: string) {
    0 < |line| < MAX_LINE_LENGTH
  }

  ghost function VisitedLines(lines: seq<string>): seq<string> {
    if lines == [] || !Short(lines[0]) then []
    else (if Skipped(lines[0]) then [] else [lines[0]]) + VisitedLines(lines[1..])
  }

  ghost predicate NamesFit(lines: seq<string>) {
    lines == [] || !Short(lines[0]) || ((Skipped(lines[0]) || |lines[0]| < LIBNAME_SIZE) && NamesFit(lines[1..]))
  }

  /** Each line followed by its end. */
  function Ended(lines: seq<string>, ends: string): string
    requires |lines| == |ends|
  {
    if lines == [] then [] else lines[0] + [ends[0]] + Ended(lines[1..], ends[1..])
  }

  /** On any lines, each ended by a newline or a null, and a last one without an end, the reader sees
      the lines that are ended. */
  lemma {:induction false} VisitsEndedLines(lines: seq<string>, ends: string, tail: string)
    requires OneLiners(lines) && |lines| == |ends| && Free(tail, ENDS)
    requires forall i :: 0 <= i < |ends| ==> ends[i] in ENDS
    ensures Visited(Ended(lines, ends) + tail) == VisitedLines(lines)
    ensures VisitDefined(Ended(lines, ends) + tail) <==> NamesFit(lines)
  {
    var file := Ended(lines, ends) + tail;
    if lines == [] {
      assert file == tail;
      UntilIs(file, ENDS, |file|);
    } else {
      var rest := Ended(lines[1..], ends[1..]) + tail;
      assert file == lines[0] + [ends[0]] + rest;
      assert Free(lines[0], ENDS);
      UntilIs(file, ENDS, |lines[0]|);
      assert file[..|lines[0]|] == lines[0];
      assert file[|lines[0]| + 1..] == rest;
      VisitsEndedLines(lines[1..], ends[1..], tail);
    }
  }

  lemma {:induction false} FileTextIsEnded(lines: seq<string>, ends: string)
    requires |lines| == |ends| && forall i :: 0 <= i < |ends| ==> ends[i] == '\n'
    ensures FileText(lines) == Ended(lines, ends)
  {
    if lines != [] {
      FileTextIsEnded(lines[1..], ends[1..]);
    }
  }

  /** In particular it sees the lines of a file that is written line by line, and ends at its end. */
  lemma {:induction false} VisitsLines(lines: seq<string>)
    requires OneLiners(lines)
    ensures Visited(FileText(lines)) == VisitedLines(lines)
    ensures VisitDefined(FileText(lines)) <==> NamesFit(lines)
  {
    var ends := seq(|lines|, _ => '\n');
    FileTextIsEnded(lines, ends);
    VisitsEndedLines(lines, ends, []);
    assert FileText(lines) + [] == FileText(lines);
  }

  ghost function Paths(lines: seq<Line>): seq<string> {
    if lines == [] then []
    else (if lines[0].LibraryLine? then [lines[0].path] else []) + Paths(lines[1..])
  }

  /** The path fits the buffer and does not look like a component line. */
  ghost predicate GoodPath(path: string) {
    |path| < LIBNAME_SIZE && !Skipped(path)
  }

  /** Every library line is reached and taken: as long as one is to come, the next line is
      short, and if it is a library line it has a good path. */
  ghost predicate AllReached(lines: seq<Line>) {
    Paths(lines) == [] ||
    (&& Short(TextOf(lines[0]))
     && (lines[0].LibraryLine? ==> GoodPath(lines[0].path))
     && AllReached(lines[1..]))
  }

  lemma {:induction false} CompLineSkipped(c: Component)
    ensures Skipped(ComponentLine(c)) && ComponentLine(c) != []
  {
  }

  lemma {:induction false} NoMoreThanPaths(lines: seq<Line>)
    ensures |VisitedLines(Texts(lines))| <= |Paths(lines)|
  {
    if lines != [] {
      VisitedFirst(lines);
      NoMoreThanPaths(lines[1..]);
    }
  }

  lemma {:induction false} NoPathsInComps(lines: seq<Line>)
    requires forall i :: 0 <= i < |lines| ==> lines[i].CompLine?
    ensures Paths(lines) == []
  {
    if lines != [] {
      NoPathsInComps(lines[1..]);
    }
  }

  lemma {:induction false} GoodLinesReached(lines: seq<Line>)
    requires forall i :: 0 <= i < |lines| ==>
               Short(TextOf(lines[i])) && (lines[i].LibraryLine? ==> GoodPath(lines[i].path))
    ensures AllReached(lines)
  {
    if lines != [] {
      assert Short(TextOf(lines[0])) && (lines[0].LibraryLine? ==> GoodPath(lines[0].path));
      GoodLinesReached(lines[1..]);
    }
  }

  lemma {:induction false} VisitedFirst(lines: seq<Line>)
    requires lines != []
    ensures VisitedLines(Texts(lines))
         == if !Short(TextOf(lines[0])) then []
            else if lines[0].LibraryLine? && !Skipped(lines[0].path) then
              [lines[0].path] + VisitedLines(Texts(lines[1..]))
            else VisitedLines(Texts(lines[1..]))
  {
    assert Texts(lines)[1..] == Texts(lines[1..]);
    if lines[0].CompLine? {
      CompLineSkipped(lines[0].comp);
    }
  }

  lemma {:induction false} NamesFitFirst(lines: seq<Line>)
    requires lines != []
    ensures NamesFit(Texts(lines))
        <==> !Short(TextOf(lines[0]))
             || (&& (lines[0].CompLine? || Skipped(lines[0].path) || |lines[0].path| < LIBNAME_SIZE)
                 && NamesFit(Texts(lines[1..])))
  {
    assert Texts(lines)[1..] == Texts(lines[1..]);
    if lines[0].CompLine? {
      CompLineSkipped(lines[0].comp);
    }
  }

  lemma {:induction false} NoPathsFit(lines: seq<Line>)
    requires Paths(lines) == []
    ensures NamesFit(Texts(lines))
  {
    if lines != [] {
      NamesFitFirst(lines);
      NoPathsFit(lines[1..]);
    }
  }

  lemma {:induction false} VisitedAreThePaths(lines: seq<Line>)
    ensures NamesFit(Texts(lines)) && VisitedLines(Texts(lines)) == Paths(lines) <==> AllReached(lines)
  {
    if lines != [] {
      VisitedFirst(lines);
      NoMoreThanPaths(lines);
      NoMoreThanPaths(lines[1..]);
      VisitedAreThePaths(lines[1..]);
      NamesFitFirst(lines);
      if Paths(lines) == [] {
        NoPathsFit(lines);
      }
      if lines[0].LibraryLine? {
        SameHead(lines[0].path, VisitedLines(Texts(lines[1..])), Paths(lines[1..]));
      }
    }
  }

  lemma {:induction false} SameHead(x: string, a: seq<string>, b: seq<string>)
    ensures [x] + a == [x] + b <==> a == b
  {
    assert ([x] + a)[1..] == a && ([x] + b)[1..] == b;
  }

  ghost function LibraryPaths(libs: seq<Library>): (r: seq<string>)
    ensures |r| == |libs|
  {
    if libs == [] then [] else [libs[0].path] + LibraryPaths(libs[1..])
  }

  lemma {:induction false} PathsAppend(a: seq<Line>, b: seq<Line>)
    ensures Paths(a + b) == Paths(a) + Paths(b)
  {
    if a == [] {
      assert a + b == b;
    } else {
      PathsAppend(a[1..], b);
      assert (a + b)[1..] == a[1..] + b && (a + b)[0] == a[0];
      Assoc(if a[0].LibraryLine? then [a[0].path] else [], Paths(a[1..]), Paths(b));
    }
  }

  lemma {:induction false} PathsOfRegistry(libs: seq<Library>, seen: seq<string>)
    ensures Paths(RegistryLines(libs, seen)) == LibraryPaths(libs)
  {
    if libs != [] {
      var own := NewComps(libs[0].comps, seen);
      var head := [LibraryLine(libs[0].path)];
      PathsAppend(head + own.0, RegistryLines(libs[1..], own.1));
      PathsAppend(head, own.0);
      NoPathsInComps(own.0);
      assert Paths(head) == [libs[0].path] + Paths([]);
      PathsOfRegistry(libs[1..], own.1);
    }
  }

  /** For any libraries whose texts have no newline or null inside, the loader stays within its
      buffers and visits exactly the libraries written, in order, if and only if every library
      line is reached and taken; in particular whenever all lines are non-empty and shorter than
      MAX_LINE_LENGTH, and all paths fit the name buffer and do not begin like a component line. */
  lemma {:induction false} LibrariesRoundTrip(libs: seq<Library>)
    requires OneLiners(Texts(RegistryLines(libs, [])))
    ensures VisitDefined(RegistryFile(libs, [])) && Visited(RegistryFile(libs, [])) == LibraryPaths(libs)
        <==> AllReached(RegistryLines(libs, []))
    ensures var lines := RegistryLines(libs, []);
            (forall i :: 0 <= i < |lines| ==>
               Short(TextOf(lines[i])) && (lines[i].LibraryLine? ==> GoodPath(lines[i].path)))
            ==> AllReached(lines)
  {
    var lines := RegistryLines(libs, []);
    VisitsLines(Texts(lines));
    VisitedAreThePaths(lines);
    PathsOfRegistry(libs, []);
    if forall i :: 0 <= i < |lines| ==>
         Short(TextOf(lines[i])) && (lines[i].LibraryLine? ==> GoodPath(lines[i].path)) {
      GoodLinesReached(lines);
    }
  }

  // ---------------------------------------------------------------- the lister's scanner

  /** The role names cut out of a rules string: each ends at a colon that is not its first
      character. */
  function Tokens(rules: string): seq<string>
    decreases |rules|
  {
    if rules == [] then []
    else
      var k := 1 + Until(rules[1..], {':'});
      if k >= |rules| then [] else [rules[..k]] + Tokens(rules[k + 1..])
  }

  /** The cutting loop of showComponentsList; temp is what the pointer temp_rules points at. */
  method CutRules(rules: string) returns (tokens: seq<string>)
    ensures tokens == Tokens(rules)
  {
    tokens := [];
    var temp, i := rules, 0;
    while i < |temp|
      invariant 0 <= i <= |temp|
      invariant tokens + Tokens(temp) == Tokens(rules)
      invariant forall j :: 1 <= j <= i && j < |temp| ==> temp[j] != ':'
      decreases |temp|, |temp| - i
    {
      i := i + 1;
      if i < |temp| && temp[i] == ':' {
        FirstToken(temp, i);
        Assoc(tokens, [temp[..i]], Tokens(temp[i + 1..]));
        tokens := tokens + [temp[..i]];
        temp := temp[i + 1..];
        i := 0;
      }
    }
    LastToken(temp);
  }

  lemma {:induction false} FirstToken(rules: string, k: nat)
    requires 1 <= k < |rules| && rules[k] == ':'
    requires forall j :: 1 <= j < k ==> rules[j] != ':'
    ensures Tokens(rules) == [rules[..k]] + Tokens(rules[k + 1..])
  {
    UntilIs(rules[1..], {':'}, k - 1);
  }

  lemma {:induction false} LastToken(rules: string)
    requires forall j :: 1 <= j < |rules| ==> rules[j] != ':'
    ensures Tokens(rules) == []
  {
    if rules != [] {
      UntilIs(rules[1..], {':'}, |rules| - 1);
    }
  }

  const NAME_ENDS: set<char> := {NUL, ' '}
  const RULE_ENDS: set<char> := {'\n', ' '}

  /** What follows the name, from the space that ends it. */
  function AfterName(buffer: string): string
    requires |buffer| >= 5
  {
    buffer[5..][Until(buffer[5..], NAME_ENDS)..]
  }

  /** Where the scanner stays inside its buffers. */
  predicate Scannable(buffer: string) {
    && 5 <= |buffer| <= DEFAULT_LINE_LENGHT
    && NUL !in buffer
    && var rest := AfterName(buffer);
       rest != [] ==> |rest| >= 5 && Until(rest[5..], RULE_ENDS) < |rest[5..]|
  }

  /** The component name and role names scanned from one line and its newline. */
  function Scan(buffer: string): (string, seq<string>)
    requires |buffer| >= 5
  {
    var name := buffer[5..][..Until(buffer[5..], NAME_ENDS)];
    var rest := AfterName(buffer);
    if |rest| < 5 then (name, [])
    else (name, Tokens(rest[5..][..Until(rest[5..], RULE_ENDS)]))
  }

  /** The body of the line loop of showComponentsList; temp is what temp_buffer points at. */
  method ScanLine(buffer: string) returns (name: string, roles: seq<string>)
    requires Scannable(buffer)
    ensures (name, roles) == Scan(buffer)
  {
    var temp := buffer[5..];
    var i := 0;
    while i < |temp| && temp[i] != ' '
      invariant 0 <= i <= |temp|
      invariant forall k :: 0 <= k < i ==> temp[k] !in NAME_ENDS
    {
      assert temp[i] in buffer;
      i := i + 1;
    }
    UntilIs(temp, NAME_ENDS, i);
    name := temp[..i];
    temp := temp[i..];
    if |temp| == 0 {
      return name, [];
    }
    temp := temp[5..];
    i := 0;
    while temp[i] != '\n' && temp[i] != ' '
      invariant 0 <= i < |temp| && i <= Until(temp, RULE_ENDS) < |temp|
      invariant forall k :: 0 <= k < i ==> temp[k] !in RULE_ENDS
      decreases |temp| - i
    {
      i := i + 1;
    }
    UntilIs(temp, RULE_ENDS, i);
    roles := CutRules(temp[..i]);
  }

  // ---------------------------------------------------------------- components round trip

  /** No character with a meaning in the file. */
  ghost predicate Clean(c: Component) {
    && Free(c.name, {NUL, ' ', '\n'})
    && (forall i :: 0 <= i < |c.roles| ==> Free(c.roles[i], {NUL, ' ', '\n', ':'}))
    && AllPlain(c.quality)
  }

  ghost predicate NonEmpty(roles: seq<string>) {
    forall i :: 0 <= i < |roles| ==> roles[i] != []
  }

  /** Cutting recovers the roles exactly when none is empty. */
  lemma {:induction false} TokensOfRoles(roles: seq<string>)
    requires forall i :: 0 <= i < |roles| ==> Free(roles[i], {NUL, ' ', '\n', ':'})
    ensures Tokens(RolesText(roles)) == roles <==> NonEmpty(roles)
  {
    if roles != [] {
      var role, rest := roles[0], RolesText(roles[1..]);
      var text := RolesText(roles);
      assert text == role + ":" + rest;
      assert Free(role, {NUL, ' ', '\n', ':'});
      NonEmptyRest(roles);
      if role != [] {
        RoleToken(role, rest);
        TokensOfRoles(roles[1..]);
        SameHead(role, Tokens(rest), roles[1..]);
        assert roles == [role] + roles[1..];
      } else {
        assert text[0] == ':';
      }
    }
  }

  lemma {:induction false} RoleToken(role: string, rest: string)
    requires role != [] && Free(role, {':'})
    ensures Tokens(role + ":" + rest) == [role] + Tokens(rest)
  {
    var text := role + ":" + rest;
    FirstToken(text, |role|);
    assert text[..|role|] == role && text[|role| + 1..] == rest;
  }

  lemma {:induction false} NonEmptyRest(roles: seq<string>)
    requires roles != []
    ensures NonEmpty(roles) <==> roles[0] != [] && NonEmpty(roles[1..])
  {
    if roles[0] != [] && NonEmpty(roles[1..]) {
      forall i | 0 <= i < |roles| ensures roles[i] != [] {
        if i > 0 { assert roles[i] == roles[1..][i - 1]; }
      }
    }
  }

  lemma {:induction false} RolesTextFree(roles: seq<string>)
    requires forall i :: 0 <= i < |roles| ==> Free(roles[i], {NUL, ' ', '\n', ':'})
    ensures Free(RolesText(roles), {NUL, ' ', '\n'})
  {
    if roles != [] {
      RolesTextFree(roles[1..]);
      assert Free(roles[0], {NUL, ' ', '\n', ':'});
    }
  }

  /** A text with no colon gives no tokens. */
  lemma {:induction false} NoTokens(text: string)
    requires Free(text, {':'})
    ensures Tokens(text) == []
  {
  }

  /** What a component line has after the name. */
  function Tail(c: Component): string {
    (if c.roles == [] then [] else ARROW + RolesText(c.roles))
    + (if c.quality == [] then [] else ARROW + c.quality)
    + "\n"
  }

  lemma {:induction false} LineIsNameAndTail(c: Component)
    ensures var buffer := ComponentLine(c) + "\n";
            |buffer| >= 5 && buffer[5..] == c.name + Tail(c)
  {
  }

  /** The scanner on any text that has this shape: a name, an arrow, rules, and an end. */
  lemma {:induction false} ScanShape(buffer: string, name: string, rules: string, rest: string)
    requires |buffer| >= 5 && buffer[5..] == name + (ARROW + (rules + rest))
    requires Free(name, NAME_ENDS) && Free(rules, RULE_ENDS) && rest != [] && rest[0] in RULE_ENDS
    ensures Scan(buffer) == (name, Tokens(rules))
    ensures NUL !in buffer && |buffer| <= DEFAULT_LINE_LENGHT ==> Scannable(buffer)
  {
    var t, u := buffer[5..], rules + rest;
    UntilIs(t, NAME_ENDS, |name|);
    assert t[..|name|] == name;
    assert AfterName(buffer) == ARROW + u;
    assert (ARROW + u)[5..] == u;
    UntilIs(u, RULE_ENDS, |rules|);
    assert u[..|rules|] == rules;
  }

  lemma {:induction false} ScanWithRoles(c: Component)
    requires Clean(c) && c.roles != []
    ensures var buffer := ComponentLine(c) + "\n";
            && |buffer| >= 5 && Scan(buffer) == (c.name, Tokens(RolesText(c.roles)))
            && (NUL !in buffer && |buffer| <= DEFAULT_LINE_LENGHT ==> Scannable(buffer))
  {
    LineIsNameAndTail(c);
    RolesTextFree(c.roles);
    var rest := (if c.quality == [] then [] else ARROW + c.quality) + "\n";
    assert Tail(c) == ARROW + (RolesText(c.roles) + rest);
    ScanShape(ComponentLine(c) + "\n", c.name, RolesText(c.roles), rest);
  }

  lemma {:induction false} ScanWithQualityOnly(c: Component)
    requires Clean(c) && c.roles == [] && c.quality != []
    ensures var buffer := ComponentLine(c) + "\n";
            && |buffer| >= 5 && Scan(buffer) == (c.name, [])
            && (NUL !in buffer && |buffer| <= DEFAULT_LINE_LENGHT ==> Scannable(buffer))
  {
    LineIsNameAndTail(c);
    var k := Until(c.quality, RULE_ENDS);
    var word, rest := c.quality[..k], c.quality[k..] + "\n";
    assert Tail(c) == ARROW + (word + rest);
    ScanShape(ComponentLine(c) + "\n", c.name, word, rest);
    assert Free(word, {':'}) by {
      forall i | 0 <= i < |word| ensures word[i] != ':' {
        assert Plain(c.quality[i]);
      }
    }
    NoTokens(word);
  }

  lemma {:induction false} ScanBare(c: Component)
    requires Clean(c) && c.roles == [] && c.quality == []
    ensures var buffer := ComponentLine(c) + "\n";
            && |buffer| >= 5 && Scan(buffer) == (c.name + "\n", [])
            && (NUL !in buffer && |buffer| <= DEFAULT_LINE_LENGHT ==> Scannable(buffer))
  {
    LineIsNameAndTail(c);
    assert Tail(c) == "\n";
    var t := c.name + "\n";
    UntilIs(t, NAME_ENDS, |t|);
    assert t[..|t|] == t && t[|t|..] == [];
  }

  ghost predicate Listable(c: Component) {
    (c.roles != [] || c.quality != []) && NonEmpty(c.roles)
  }

  /** For any name, roles and quality string without characters that have a meaning, scanning
      the printed line recovers exactly that name and those roles in order if and only if no role
      is empty and the line has roles or a quality string; with neither, the name scanned keeps
      the newline. */
  lemma {:induction false} ComponentRoundTrip(c: Component)
    requires Clean(c)
    ensures Scan(ComponentLine(c) + "\n") == (c.name, c.roles) <==> Listable(c)
    ensures |ComponentLine(c)| < DEFAULT_LINE_LENGHT ==> Scannable(ComponentLine(c) + "\n")
  {
    NoNulInLine(c);
    TokensOfRoles(c.roles);
    if c.roles != [] {
      ScanWithRoles(c);
    } else if c.quality != [] {
      ScanWithQualityOnly(c);
    } else {
      ScanBare(c);
      assert |c.name + "\n"| != |c.name|;
    }
  }

  /** A component with neither is listed with the newline in its name. */
  lemma {:induction false} BareNameKeepsNewline()
    ensures Scan(ComponentLine(Component("OMX.a", [], "")) + "\n") == ("OMX.a\n", [])
  {
    var c := Component("OMX.a", [], "");
    assert Clean(c);
    ScanBare(c);
    assert c.name + "\n" == "OMX.a\n";
  }

  lemma {:induction false} NoNulInLine(c: Component)
    requires Clean(c)
    ensures NUL !in ComponentLine(c) + "\n"
    ensures Free(ComponentLine(c), {'\n'})
  {
    RolesTextFree(c.roles);
    var roles := if c.roles == [] then [] else ARROW + RolesText(c.roles);
    var quality := if c.quality == [] then [] else ARROW + c.quality;
    FreeAppend(ARROW, c.name);
    FreeAppend(ARROW, RolesText(c.roles));
    assert Free(c.quality, ENDS) by {
      forall i | 0 <= i < |c.quality| ensures c.quality[i] !in ENDS {
        assert Plain(c.quality[i]);
      }
    }
    FreeAppend(ARROW, c.quality);
    FreeAppend(ARROW + c.name, roles);
    FreeAppend(ARROW + c.name + roles, quality);
    assert forall i :: 0 <= i < |ComponentLine(c)| ==> ComponentLine(c)[i] !in ENDS;
  }

  lemma {:induction false} FreeAppend(a: string, b: string)
    requires Free(a, ENDS) && Free(b, ENDS)
    ensures Free(a + b, ENDS)
  {
  }

  // ---------------------------------------------------------------- the whole listing

  const NEWLINE: set<char> := {'\n'}

  /** What omxregister -l lists of a file: every terminated line that does not begin with a
      slash, scanned. */
  function Listing(file: string): seq<(string, seq<string>)>
    requires ListingDefined(file)
    decreases |file|
  {
    var k := Until(file, NEWLINE);
    if k == |file| then []
    else (if file[0] == '/' then [] else [Scan(file[..k + 1])]) + Listing(file[k + 1..])
  }

  /** Every line fits the buffer it is read to, and every line to be scanned can be. */
  predicate ListingDefined(file: string)
    decreases |file|
  {
    var k := Until(file, NEWLINE);
    k == |file|
    || (k + 1 <= DEFAULT_LINE_LENGHT && (file[0] == '/' || Scannable(file[..k + 1])) && ListingDefined(file[k + 1..]))
  }

  /** showComponentsList. */
  method ShowComponents(file: string) returns (shown: seq<(string, seq<string>)>)
    requires ListingDefined(file)
    ensures shown == Listing(file)
  {
    shown := [];
    var pos := 0;
    var more := true;
    assert file[0..] == file;
    while more
      invariant 0 <= pos <= |file|
      invariant more ==> ListingDefined(file[pos..])
      invariant Listing(file) == shown + (if more then Listing(file[pos..]) else [])
      decreases more, |file| - pos
    {
      var found;
      more, pos, found := ShowLine(file, pos);
      Assoc(shown, found, if more then Listing(file[pos..]) else []);
      shown := shown + found;
    }
  }

  /** One round of the loop. */
  method ShowLine(file: string, start: nat) returns (more: bool, pos: nat, found: seq<(string, seq<string>)>)
    requires start <= |file| && ListingDefined(file[start..])
    ensures pos <= |file| && (more ==> start < pos && ListingDefined(file[pos..]))
    ensures Listing(file[start..]) == found + (if more then Listing(file[pos..]) else [])
  {
    ghost var rest := file[start..];
    var eof;
    pos, eof := SkipLine(file, start);
    if eof {
      return false, pos, [];
    }
    more := true;
    var buffer := file[start..pos];
    assert buffer == rest[..Until(rest, NEWLINE) + 1];
    assert rest[Until(rest, NEWLINE) + 1..] == file[pos..];
    if buffer[0] == '/' {
      found := [];
    } else {
      var name, roles := ScanLine(buffer);
      found := [(name, roles)];
    }
  }

  /** Reading up to a newline or the end of the file. */
  method SkipLine(file: string, start: nat) returns (pos: nat, eof: bool)
    requires start <= |file|
    ensures start <= pos <= |file|
    ensures var rest := file[start..];
            eof <==> Until(rest, NEWLINE) == |rest|
    ensures !eof ==> pos == start + Until(file[start..], NEWLINE) + 1
  {
    ghost var rest := file[start..];
    pos, eof := start, false;
    var more := true;
    while more
      invariant start <= pos <= |file| && (eof ==> !more)
      invariant more || eof ==> forall j :: 0 <= j < pos - start ==> rest[j] !in NEWLINE
      invariant eof ==> pos == |file|
      invariant !more && !eof ==> start < pos && rest[pos - start - 1] == '\n'
      invariant !more && !eof ==> forall j :: 0 <= j < pos - start - 1 ==> rest[j] !in NEWLINE
      decreases more, |file| - pos
    {
      if pos < |file| {
        more := file[pos] != '\n';
        pos := pos + 1;
      } else {
        eof, more := true, false;
      }
    }
    UntilIs(rest, NEWLINE, if eof then |rest| else pos - start - 1);
  }

  ghost function Pairs(lines: seq<Line>): seq<(string, seq<string>)> {
    if lines == [] then []
    else (if lines[0].CompLine? then [(lines[0].comp.name, lines[0].comp.roles)] else []) + Pairs(lines[1..])
  }

  /** Lines as the writer produces them from absolute paths and clean components. */
  ghost predicate Regular(line: Line) {
    && Free(TextOf(line), NEWLINE) && |TextOf(line)| < DEFAULT_LINE_LENGHT
    && (line.LibraryLine? ==> line.path != [] && line.path[0] == '/')
    && (line.CompLine? ==> Clean(line.comp))
  }

  ghost predicate AllRegular(lines: seq<Line>) {
    forall i :: 0 <= i < |lines| ==> Regular(lines[i])
  }

  ghost predicate AllListable(lines: seq<Line>) {
    forall i :: 0 <= i < |lines| && lines[i].CompLine? ==> Listable(lines[i].comp)
  }

  /** The listing of a written registry is exactly its components with their roles, in order, if
      and only if every one of them is listable; a last line without a newline is not listed. */
  lemma {:induction false} ListingRoundTrip(lines: seq<Line>, tail: string)
    requires AllRegular(lines) && Free(tail, NEWLINE)
    ensures ListingDefined(FileText(Texts(lines)) + tail)
    ensures Listing(FileText(Texts(lines)) + tail) == Pairs(lines) <==> AllListable(lines)
  {
    if lines == [] {
      assert FileText(Texts(lines)) + tail == tail;
      UntilIs(tail, NEWLINE, |tail|);
    } else {
      var rest := lines[1..];
      SplitFirst(lines);
      ListingRoundTrip(rest, tail);
      FirstListedRight(lines[0], FileText(Texts(rest)) + tail, Pairs(rest));
      assert Texts(lines)[1..] == Texts(rest);
      Assoc(TextOf(lines[0]) + "\n", FileText(Texts(rest)), tail);
    }
  }

  lemma {:induction false} FirstListedRight(line: Line, rest: string, pairs: seq<(string, seq<string>)>)
    requires Regular(line) && ListingDefined(rest)
    ensures ListingDefined(TextOf(line) + "\n" + rest)
    ensures Listing(TextOf(line) + "\n" + rest)
            == (if line.CompLine? then [(line.comp.name, line.comp.roles)] else []) + pairs
        <==> (line.CompLine? ==> Listable(line.comp)) && Listing(rest) == pairs
  {
    FirstListed(line, rest);
    if line.CompLine? {
      ComponentRoundTrip(line.comp);
      SamePair(Scan(ComponentLine(line.comp) + "\n"), (line.comp.name, line.comp.roles), Listing(rest), pairs);
    } else {
      assert [] + pairs == pairs && [] + Listing(rest) == Listing(rest);
    }
  }

  lemma {:induction false} SplitFirst(lines: seq<Line>)
    requires lines != []
    ensures AllRegular(lines) ==> Regular(lines[0]) && AllRegular(lines[1..])
    ensures AllListable(lines) <==> (lines[0].CompLine? ==> Listable(lines[0].comp)) && AllListable(lines[1..])
  {
  }

  lemma {:induction false} SamePair<T>(x: T, y: T, a: seq<T>, b: seq<T>)
    ensures [x] + a == [y] + b <==> x == y && a == b
  {
    assert ([x] + a)[0] == x && ([y] + b)[0] == y;
    assert ([x] + a)[1..] == a && ([y] + b)[1..] == b;
  }

  lemma {:induction false} FirstListed(line: Line, rest: string)
    requires Regular(line) && ListingDefined(rest)
    ensures var file := TextOf(line) + "\n" + rest;
            && ListingDefined(file)
            && Listing(file) == (if line.CompLine? then [Scan(ComponentLine(line.comp) + "\n")] else []) + Listing(rest)
  {
    var text := TextOf(line);
    var file := text + "\n" + rest;
    UntilIs(file, NEWLINE, |text|);
    assert file[..|text| + 1] == text + "\n" && file[|text| + 1..] == rest;
    if line.CompLine? {
      ComponentRoundTrip(line.comp);
      assert file[0] == ARROW[0];
    }
  }
}
