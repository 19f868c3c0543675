/** The registry file as omxregister writes it: the decimal printer, the quality string built at
    a running index, the component line and the whole file. */
module RegistryText {
  import opened Sequences

  const NUL: char := '\0'
  const ARROW: string := " ==> "

  // ---------------------------------------------------------------- C strings

  /** The length of the longest prefix of s free of the characters of stop. */
  function Until(s: string, stop: set<char>): (k: nat)
    ensures k <= |s|
    ensures forall i :: 0 <= i < k ==> s[i] !in stop
    ensures k < |s| ==> s[k] in stop
  {
    if s == [] || s[0] in stop then 0 else 1 + Until(s[1..], stop)
  }

  ghost predicate Free(s: string, chars: set<char>) {
    forall i :: 0 <= i < |s| ==> s[i] !in chars
  }

  lemma {:induction false} UntilIs(s: string, stop: set<char>, k: nat)
    requires k <= |s| && (forall i :: 0 <= i < k ==> s[i] !in stop) && (k < |s| ==> s[k] in stop)
    ensures Until(s, stop) == k
  {
  }

  /** The string that a buffer holds. */
  function CString(buffer: seq<char>): string {
    buffer[..Until(buffer, {NUL})]
  }

  // ---------------------------------------------------------------- numbers

  function Digit(d: nat): char
    requires d < 10
  {
    ('0' as int + d) as char
  }

  function Decimal(n: nat): (s: string)
    ensures |s| >= 1
  {
    if n < 10 then [Digit(n)] else Decimal(n / 10) + [Digit(n % 10)]
  }

  /** What printf writes for %i. */
  function Print(v: int): string {
    if v < 0 then "-" + Decimal(-v) else Decimal(v)
  }

  function DigitCount(v: int): int {
    if v < 0 then -1 else if v == 0 then 0 else |Decimal(v)|
  }

  /** int2strlen: the length of the decimal rendering, for a positive value. */
  method Int2StrLen(v: int) returns (ret: int)
    ensures ret == DigitCount(v)
    ensures ret == if v < 0 then -1 else if v == 0 then 0 else |Print(v)|
  {
    if v < 0 {
      return -1;
    }
    var value := v;
    ret := 0;
    while value > 0
      invariant value >= 0
      invariant ret + DigitCount(value) == DigitCount(v)
    {
      value := value / 10;
      ret := ret + 1;
    }
  }

  lemma {:induction false} DigitCountExact(v: int)
    ensures DigitCount(v) <= |Print(v)|
    ensures DigitCount(v) == |Print(v)| <==> v > 0
    ensures -1 <= DigitCount(v)
  {
  }

  // ---------------------------------------------------------------- the quality string

  /** Not a character with a meaning in the registry file. */
  predicate Plain(c: char) {
    c != NUL && c != '\n' && c != ':'
  }

  ghost predicate AllPlain(s: string) {
    forall i :: 0 <= i < |s| ==> Plain(s[i])
  }

  /** A text written at a running index, and by how much the index then advances. */
  datatype Piece = Piece(text: string, width: nat)

  ghost predicate Pieces(ps: seq<Piece>) {
    forall i :: 0 <= i < |ps| ==> ps[i].width <= |ps[i].text| && AllPlain(ps[i].text)
  }

  /** The first k texts one after the other: what is meant. */
  function Meant(ps: seq<Piece>, k: nat): string
    requires k <= |ps|
  {
    if k == 0 then [] else Meant(ps, k - 1) + ps[k - 1].text
  }

  /** What stands before the running index after k pieces: a piece begins where the index says,
      which is inside the text before if that advanced too little. */
  ghost function Overlaid(ps: seq<Piece>, k: nat): string
    requires k <= |ps| && Pieces(ps)
  {
    if k == 0 then []
    else
      var before, p := Overlaid(ps, k - 1), ps[k - 1];
      (before + p.text)[..|before| + p.width]
  }

  ghost predicate FullWidths(ps: seq<Piece>, k: nat)
    requires k <= |ps|
  {
    forall i :: 0 <= i < k ==> ps[i].width == |ps[i].text|
  }

  lemma {:induction false} OverlaidExact(ps: seq<Piece>, k: nat)
    requires k <= |ps| && Pieces(ps)
    ensures |Overlaid(ps, k)| <= |Meant(ps, k)|
    ensures |Overlaid(ps, k)| == |Meant(ps, k)| <==> FullWidths(ps, k)
    ensures FullWidths(ps, k) ==> Overlaid(ps, k) == Meant(ps, k)
    ensures AllPlain(Overlaid(ps, k))
  {
    if k > 0 {
      OverlaidExact(ps, k - 1);
      if FullWidths(ps, k) {
        var s := Overlaid(ps, k - 1) + ps[k - 1].text;
        assert s[..|s|] == s;
      }
    }
  }

  lemma {:induction false} MeantGrows(ps: seq<Piece>, j: nat, k: nat)
    requires j <= k <= |ps|
    ensures |Meant(ps, j)| <= |Meant(ps, k)|
  {
    if j < k {
      MeantGrows(ps, j, k - 1);
    }
  }

  type Level = (int, int)

  /** "%i,%i " */
  function Field(level: Level): string {
    Print(level.0) + "," + Print(level.1) + " "
  }

  function FieldWidth(level: Level): int {
    2 + DigitCount(level.0) + DigitCount(level.1)
  }

  lemma {:induction false} FieldExact(level: Level)
    ensures 0 <= FieldWidth(level) <= |Field(level)|
    ensures FieldWidth(level) == |Field(level)| <==> level.0 > 0 && level.1 > 0
    ensures AllPlain(Field(level))
  {
    PrintPlain(level.0);
    PrintPlain(level.1);
    DigitCountExact(level.0);
    DigitCountExact(level.1);
  }

  lemma {:induction false} DecimalPlain(n: nat)
    ensures AllPlain(Decimal(n))
  {
    if n >= 10 {
      DecimalPlain(n / 10);
    }
  }

  lemma {:induction false} PrintPlain(v: int)
    ensures AllPlain(Print(v))
  {
    DecimalPlain(if v < 0 then -v else v);
  }

  function LevelPiece(level: Level): Piece {
    FieldExact(level);
    Piece(Field(level), FieldWidth(level))
  }

  function CountPiece(count: nat): Piece {
    Piece(Print(count) + " ", |Print(count)| + 1)
  }

  function PieceAt(levels: seq<Level>, i: nat): Piece
    requires i <= |levels|
  {
    if i == 0 then CountPiece(|levels|) else LevelPiece(levels[i - 1])
  }

  /** "%i " with the number of levels, then "%i,%i " for each of the first k. */
  function PiecesTo(levels: seq<Level>, k: nat): (ps: seq<Piece>)
    requires k <= |levels|
    ensures |ps| == k + 1
  {
    if k == 0 then [PieceAt(levels, 0)] else PiecesTo(levels, k - 1) + [PieceAt(levels, k)]
  }

  lemma {:induction false} PiecesToAt(levels: seq<Level>, k: nat, i: nat)
    requires i <= k <= |levels|
    ensures PiecesTo(levels, k)[i] == PieceAt(levels, i)
  {
    if i < k {
      PiecesToAt(levels, k - 1, i);
    }
  }

  function QualityPieces(levels: seq<Level>): (ps: seq<Piece>)
    ensures |ps| == |levels| + 1
  {
    PiecesTo(levels, |levels|)
  }

  lemma {:induction false} QualityPiecesFit(levels: seq<Level>)
    requires levels != []
    ensures Pieces(QualityPieces(levels))
    ensures FullWidths(QualityPieces(levels), |levels| + 1)
        <==> forall i :: 0 <= i < |levels| ==> levels[i].0 > 0 && levels[i].1 > 0
  {
    var n := |levels|;
    var ps := QualityPieces(levels);
    PrintPlain(|levels|);
    forall i | 0 <= i < |ps|
      ensures ps[i].width <= |ps[i].text| && AllPlain(ps[i].text)
      ensures i > 0 ==> (ps[i].width == |ps[i].text| <==> levels[i - 1].0 > 0 && levels[i - 1].1 > 0)
    {
      PiecesToAt(levels, n, i);
      if i > 0 {
        FieldExact(levels[i - 1]);
      }
    }
    PiecesToAt(levels, n, 0);
    if forall i :: 0 <= i < |levels| ==> levels[i].0 > 0 && levels[i].1 > 0 {
      forall i | 0 <= i < |ps| ensures ps[i].width == |ps[i].text| {
        if i > 0 {
          assert levels[i - 1].0 > 0 && levels[i - 1].1 > 0;
        }
      }
    } else {
      var i :| 0 <= i < |levels| && !(levels[i].0 > 0 && levels[i].1 > 0);
      assert ps[i + 1].width != |ps[i + 1].text|;
    }
  }

  function ButLast(s: string): string {
    if s == [] then [] else s[..|s| - 1]
  }

  /** The string meant: the count and the levels, separated by single spaces. */
  function QualityText(levels: seq<Level>): string
    requires levels != []
  {
    ButLast(Meant(QualityPieces(levels), |levels| + 1))
  }

  /** The string built; nothing for a component without quality levels. */
  ghost function Quality(levels: seq<Level>): string {
    if levels == [] then []
    else
      QualityPiecesFit(levels);
      ButLast(Overlaid(QualityPieces(levels), |levels| + 1))
  }

  /** The string built is the one meant exactly when all values are positive: each zero or
      negative one makes a later field overwrite an earlier one.  Whatever the values, it has no
      character with a meaning in the file. */
  lemma {:induction false} QualityExact(levels: seq<Level>)
    requires levels != []
    ensures Quality(levels) == QualityText(levels)
        <==> forall i :: 0 <= i < |levels| ==> levels[i].0 > 0 && levels[i].1 > 0
    ensures AllPlain(Quality(levels))
  {
    QualityPiecesFit(levels);
    OverlaidExact(QualityPieces(levels), |levels| + 1);
    MeantGrows(QualityPieces(levels), 1, |levels| + 1);
    assert Meant(QualityPieces(levels), 1) == Meant(QualityPieces(levels), 0) + QualityPieces(levels)[0].text;
  }

  lemma {:induction false} ZeroPieces()
    ensures QualityPieces([(0, 5)]) == [Piece("1 ", 2), Piece("0,5 ", 3)]
  {
    var levels: seq<Level> := [(0, 5)];
    assert Print(1) == "1" && Print(0) == "0" && Print(5) == "5";
    assert PieceAt(levels, 0) == Piece("1 ", 2);
    assert Field((0, 5)) == "0,5 " && FieldWidth((0, 5)) == 3;
    assert PieceAt(levels, 1) == Piece("0,5 ", 3);
    assert PiecesTo(levels, 1) == PiecesTo(levels, 0) + [PieceAt(levels, 1)];
  }

  lemma {:induction false} TwoPieces(p: Piece, q: Piece)
    requires Pieces([p, q]) && p.width == |p.text| && q.width <= |q.text|
    ensures Overlaid([p, q], 2) == (p.text + q.text)[..p.width + q.width]
    ensures Meant([p, q], 2) == p.text + q.text
  {
    var ps := [p, q];
    assert [] + p.text == p.text && p.text[..p.width] == p.text;
    assert Overlaid(ps, 1) == p.text && Meant(ps, 1) == p.text;
  }

  /** One level with no CPU resource: its zero counts for no digit, and the memory is cut off. */
  lemma {:induction false} ZeroGarblesQuality()
    ensures Quality([(0, 5)]) == "1 0," && QualityText([(0, 5)]) == "1 0,5"
  {
    QualityPiecesFit([(0, 5)]);
    ZeroPieces();
    TwoPieces(Piece("1 ", 2), Piece("0,5 ", 3));
    assert ("1 " + "0,5 ")[..5] == "1 0,5";
  }

  /** sprintf at an index: the text and its terminator. */
  method Sprintf(buffer: array<char>, at: nat, text: string)
    requires at + |text| < buffer.Length
    modifies buffer
    ensures buffer[..] == old(buffer[..at]) + text + [NUL] + old(buffer[at + |text| + 1..])
  {
    var i := 0;
    while i < |text|
      invariant 0 <= i <= |text|
      invariant forall k :: 0 <= k < i ==> buffer[at + k] == text[k]
      invariant forall k :: 0 <= k < buffer.Length && !(at <= k < at + i) ==> buffer[k] == old(buffer[k])
    {
      buffer[at + i] := text[i];
      i := i + 1;
    }
    buffer[at + i] := NUL;
    assert buffer[at..at + |text|] == text;
  }

  /** The loop of buildComponentsList that builds the quality string at a running index.  The
      buffer has room for the string meant. */
  method BuildQuality(levels: seq<Level>, buffer: array<char>)
    requires levels != [] && |Meant(QualityPieces(levels), |levels| + 1)| < buffer.Length
    modifies buffer
    ensures CString(buffer[..]) == Quality(levels)
  {
    ghost var ps := QualityPieces(levels);
    QualityPiecesFit(levels);
    OverlaidNext(ps, 0);
    PiecesToAt(levels, |levels|, 0);
    var index := PrintCount(buffer, |levels|, ps[0]);
    var qi := 0;
    while qi < |levels|
      invariant 0 <= qi <= |levels| && 2 <= index < buffer.Length
      invariant buffer[..index] == Overlaid(ps, qi + 1)
    {
      PiecesToAt(levels, |levels|, qi + 1);
      index := AddField(buffer, index, levels[qi], ps, qi + 1);
      qi := qi + 1;
    }
    QualityIs(levels);
    Terminate(buffer, index, Overlaid(ps, qi + 1));
  }

  lemma {:induction false} QualityIs(levels: seq<Level>)
    requires levels != [] && Pieces(QualityPieces(levels))
    ensures Quality(levels) == ButLast(Overlaid(QualityPieces(levels), |levels| + 1))
    ensures AllPlain(Overlaid(QualityPieces(levels), |levels| + 1))
  {
    OverlaidExact(QualityPieces(levels), |levels| + 1);
  }

  lemma {:induction false} OverlaidNext(ps: seq<Piece>, k: nat)
    requires k < |ps| && Pieces(ps)
    ensures Overlaid(ps, k + 1) == (Overlaid(ps, k) + ps[k].text)[..|Overlaid(ps, k)| + ps[k].width]
    ensures |Overlaid(ps, k)| + |ps[k].text| <= |Meant(ps, |ps|)|
    ensures k == 0 ==> Overlaid(ps, 1) == ps[0].text[..ps[0].width]
  {
    OverlaidExact(ps, k);
    MeantGrows(ps, k + 1, |ps|);
    if k == 0 {
      assert [] + ps[0].text == ps[0].text;
    }
  }

  method PrintCount(buffer: array<char>, count: nat, ghost p: Piece) returns (index: nat)
    requires count > 0 && p == CountPiece(count)
    requires |p.text| < buffer.Length
    modifies buffer
    ensures 2 <= index < buffer.Length && buffer[..index] == p.text[..p.width]
  {
    DigitCountExact(count);
    Sprintf(buffer, 0, Print(count) + " ");
    var width := Int2StrLen(count);
    index := width + 1;
  }

  /** One round of the loop. */
  method AddField(buffer: array<char>, index: nat, level: Level, ghost ps: seq<Piece>, ghost k: nat)
    returns (next: nat)
    requires Pieces(ps) && k < |ps| && ps[k] == LevelPiece(level) && |Meant(ps, |ps|)| < buffer.Length
    requires 2 <= index < buffer.Length && buffer[..index] == Overlaid(ps, k)
    modifies buffer
    ensures 2 <= next < buffer.Length && buffer[..next] == Overlaid(ps, k + 1)
  {
    OverlaidNext(ps, k);
    next := PrintField(buffer, index, level);
  }

  method PrintField(buffer: array<char>, index: nat, level: Level) returns (next: nat)
    requires index + |LevelPiece(level).text| < buffer.Length
    modifies buffer
    ensures next == index + LevelPiece(level).width <= index + |LevelPiece(level).text|
    ensures buffer[..next] == (old(buffer[..index]) + LevelPiece(level).text)[..next]
  {
    FieldExact(level);
    Sprintf(buffer, index, Field(level));
    var cpu := Int2StrLen(level.0);
    var mem := Int2StrLen(level.1);
    next := index + 2 + cpu + mem;
  }

  /** Cutting the last space. */
  method Terminate(buffer: array<char>, index: nat, ghost text: string)
    requires 1 <= index < buffer.Length && buffer[..index] == text && AllPlain(text)
    modifies buffer
    ensures CString(buffer[..]) == ButLast(text)
  {
    buffer[index - 1] := NUL;
    forall i | 0 <= i < index - 1 ensures buffer[..][i] == text[i] {
      assert old(buffer[..index])[i] == text[i];
    }
    UntilIs(buffer[..], {NUL}, index - 1);
  }

  // ---------------------------------------------------------------- lines

  /** What the writer needs of a component: its name, the names of its specific roles, and the
      quality string built for it. */
  datatype Component = Component(name: string, roles: seq<string>, quality: string)

  datatype Library = Library(path: string, comps: seq<Component>)

  /** Each role followed by a colon. */
  function RolesText(roles: seq<string>): string {
    if roles == [] then [] else roles[0] + ":" + RolesText(roles[1..])
  }

  /** A component line without its newline. */
  function ComponentLine(c: Component): string {
    ARROW + c.name
    + (if c.roles == [] then [] else ARROW + RolesText(c.roles))
    + (if c.quality == [] then [] else ARROW + c.quality)
  }

  lemma {:induction false} RolesTextAppend(roles: seq<string>, role: string)
    ensures RolesText(roles + [role]) == RolesText(roles) + role + ":"
  {
    if roles == [] {
      assert roles + [role] == [role];
      assert RolesText([role][1..]) == [];
    } else {
      RolesTextAppend(roles[1..], role);
      assert (roles + [role])[1..] == roles[1..] + [role];
    }
  }

  /** The strcpy and strcat calls of buildComponentsList for one component. */
  method PrintComponentLine(c: Component) returns (buffer: string)
    ensures buffer == ComponentLine(c) + "\n"
  {
    buffer := ARROW;
    buffer := buffer + c.name;
    if |c.roles| > 0 {
      buffer := buffer + ARROW;
      ghost var head := buffer;
      var j := 0;
      while j < |c.roles|
        invariant 0 <= j <= |c.roles|
        invariant buffer == head + RolesText(c.roles[..j])
      {
        RolesTextAppend(c.roles[..j], c.roles[j]);
        assert c.roles[..j + 1] == c.roles[..j] + [c.roles[j]];
        buffer := buffer + c.roles[j];
        buffer := buffer + ":";
        j := j + 1;
      }
      assert c.roles[..j] == c.roles;
    }
    if |c.quality| > 0 {
      buffer := buffer + ARROW;
      buffer := buffer + c.quality;
    }
    buffer := buffer + "\n";
  }

  // ---------------------------------------------------------------- the file

  datatype Line = LibraryLine(path: string) | CompLine(comp: Component)

  function TextOf(line: Line): string {
    match line
    case LibraryLine(path) => path
    case CompLine(c) => ComponentLine(c)
  }

  function Texts(lines: seq<Line>): (r: seq<string>)
    ensures |r| == |lines|
    ensures forall i :: 0 <= i < |r| ==> r[i] == TextOf(lines[i])
  {
    if lines == [] then [] else [TextOf(lines[0])] + Texts(lines[1..])
  }

  /** Each line followed by a newline. */
  function FileText(lines: seq<string>): string {
    if lines == [] then [] else lines[0] + "\n" + FileText(lines[1..])
  }

  lemma {:induction false} TextsAppend(a: seq<Line>, b: seq<Line>)
    ensures Texts(a + b) == Texts(a) + Texts(b)
  {
  }

  /** The components of one library whose names have not been seen, in order, with the names
      seen afterwards. */
  function NewComps(comps: seq<Component>, seen: seq<string>): (r: (seq<Line>, seq<string>))
    ensures forall i :: 0 <= i < |r.0| ==> r.0[i].CompLine?
  {
    if comps == [] then ([], seen)
    else if comps[0].name in seen then NewComps(comps[1..], seen)
    else
      var rest := NewComps(comps[1..], seen + [comps[0].name]);
      ([CompLine(comps[0])] + rest.0, rest.1)
  }

  /** The lines of the registry: each library, then its components not registered before. */
  function RegistryLines(libs: seq<Library>, seen: seq<string>): seq<Line> {
    if libs == [] then []
    else
      var own := NewComps(libs[0].comps, seen);
      [LibraryLine(libs[0].path)] + own.0 + RegistryLines(libs[1..], own.1)
  }

  lemma {:induction false} FileTextAppend(a: seq<string>, b: seq<string>)
    ensures FileText(a + b) == FileText(a) + FileText(b)
  {
    if a == [] {
      assert a + b == b;
    } else {
      FileTextAppend(a[1..], b);
      assert (a + b)[1..] == a[1..] + b;
      Assoc(a[0] + "\n", FileText(a[1..]), FileText(b));
    }
  }

  /** The search of the list of names already registered. */
  method IsRegistered(names: seq<string>, name: string) returns (found: bool)
    ensures found <==> name in names
  {
    var i := 0;
    while i < |names|
      invariant 0 <= i <= |names|
      invariant name !in names[..i]
    {
      if names[i] == name {
        return true;
      }
      i := i + 1;
    }
    assert names[..i] == names;
    found := false;
  }

  /** The component loop of buildComponentsList. */
  method WriteComponents(comps: seq<Component>, seen: seq<string>) returns (text: string, names: seq<string>)
    ensures text == FileText(Texts(NewComps(comps, seen).0))
    ensures names == NewComps(comps, seen).1
  {
    text, names := [], seen;
    var i := 0;
    while i < |comps|
      invariant 0 <= i <= |comps|
      invariant names == NewComps(comps[..i], seen).1
      invariant text == FileText(Texts(NewComps(comps[..i], seen).0))
    {
      NewCompsAppend(comps[..i], comps[i], seen);
      assert comps[..i + 1] == comps[..i] + [comps[i]];
      var known := IsRegistered(names, comps[i].name);
      if !known {
        names := names + [comps[i].name];
        var line := PrintComponentLine(comps[i]);
        text := text + line;
      }
      i := i + 1;
    }
    assert comps[..i] == comps;
  }

  lemma {:induction false} NewCompsAppend(comps: seq<Component>, c: Component, seen: seq<string>)
    ensures var before, after := NewComps(comps, seen), NewComps(comps + [c], seen);
            && after.1 == (if c.name in before.1 then before.1 else before.1 + [c.name])
            && after.0 == (if c.name in before.1 then before.0 else before.0 + [CompLine(c)])
            && FileText(Texts(after.0)) == FileText(Texts(before.0))
                 + (if c.name in before.1 then [] else ComponentLine(c) + "\n")
  {
    NewCompsAppendLines(comps, c, seen);
    var before := NewComps(comps, seen);
    TextsAppend(before.0, [CompLine(c)]);
    OneLine(CompLine(c));
    FileTextAppend(Texts(before.0), Texts([CompLine(c)]));
  }

  lemma {:induction false} OneLine(line: Line)
    ensures FileText(Texts([line])) == TextOf(line) + "\n"
  {
  }

  lemma {:induction false} NewCompsAppendLines(comps: seq<Component>, c: Component, seen: seq<string>)
    ensures var before, after := NewComps(comps, seen), NewComps(comps + [c], seen);
            && after.1 == (if c.name in before.1 then before.1 else before.1 + [c.name])
            && after.0 == (if c.name in before.1 then before.0 else before.0 + [CompLine(c)])
  {
    if comps == [] {
      assert comps + [c] == [c];
      assert NewComps([c][1..], seen) == ([], seen);
    } else {
      assert (comps + [c])[1..] == comps[1..] + [c];
      NewCompsAppendLines(comps[1..], c, if comps[0].name in seen then seen else seen + [comps[0].name]);
    }
  }

  ghost function RegistryFile(libs: seq<Library>, seen: seq<string>): string {
    FileText(Texts(RegistryLines(libs, seen)))
  }

  /** buildComponentsList, given the libraries the directory scan finds. */
  method WriteRegistry(libs: seq<Library>) returns (text: string)
    ensures text == RegistryFile(libs, [])
  {
    text := [];
    var names: seq<string> := [];
    var i := 0;
    while i < |libs|
      invariant 0 <= i <= |libs|
      invariant text + RegistryFile(libs[i..], names) == RegistryFile(libs, [])
    {
      ghost var head, rest := text, RegistryFile(libs[i + 1..], NewComps(libs[i].comps, names).1);
      OneLibrary(libs[i..], names);
      assert libs[i..][1..] == libs[i + 1..];
      text := text + libs[i].path;
      text := text + "\n";
      var comps;
      comps, names := WriteComponents(libs[i].comps, names);
      Regroup(head, libs[i].path, comps, rest);
      text := text + comps;
      i := i + 1;
    }
  }

  lemma {:induction false} Regroup(head: string, path: string, comps: string, rest: string)
    ensures head + path + "\n" + comps + rest == head + (path + "\n" + comps + rest)
  {
  }

  lemma {:induction false} OneLibrary(libs: seq<Library>, seen: seq<string>)
    requires libs != []
    ensures RegistryFile(libs, seen)
         == libs[0].path + "\n" + FileText(Texts(NewComps(libs[0].comps, seen).0))
            + RegistryFile(libs[1..], NewComps(libs[0].comps, seen).1)
  {
    var own := NewComps(libs[0].comps, seen);
    var head := [LibraryLine(libs[0].path)];
    var rest := RegistryLines(libs[1..], own.1);
    OneLine(head[0]);
    TextsAppend(head, own.0);
    TextsAppend(head + own.0, rest);
    FileTextAppend(Texts(head), Texts(own.0));
    FileTextAppend(Texts(head + own.0), Texts(rest));
  }

  // ---------------------------------------------------------------- each name once

  function AllComps(libs: seq<Library>): seq<Component> {
    if libs == [] then [] else libs[0].comps + AllComps(libs[1..])
  }

  function Written(lines: seq<Line>): seq<Component> {
    if lines == [] then [] else WrittenBy(lines[0]) + Written(lines[1..])
  }

  function WrittenBy(line: Line): seq<Component> {
    if line.CompLine? then [line.comp] else []
  }

  /** c is the first of the components that has its name. */
  ghost predicate First(c: Component, comps: seq<Component>) {
    exists i :: 0 <= i < |comps| && FirstAt(c, comps, i)
  }

  ghost predicate FirstAt(c: Component, comps: seq<Component>, i: nat)
    requires i < |comps|
  {
    comps[i] == c && forall j :: 0 <= j < i ==> comps[j].name != c.name
  }

  ghost predicate DistinctNames(comps: seq<Component>) {
    forall i, j :: 0 <= i < j < |comps| ==> comps[i].name != comps[j].name
  }

  lemma {:induction false} WrittenAppend(a: seq<Line>, b: seq<Line>)
    ensures Written(a + b) == Written(a) + Written(b)
  {
    if a == [] {
      assert a + b == b;
    } else {
      WrittenAppend(a[1..], b);
      assert (a + b)[1..] == a[1..] + b && (a + b)[0] == a[0];
      Assoc(WrittenBy(a[0]), Written(a[1..]), Written(b));
    }
  }

  /** Going on with further components is starting with all of them. */
  lemma {:induction false} NewCompsConcat(a: seq<Component>, b: seq<Component>, seen: seq<string>)
    ensures NewComps(a + b, seen).0 == NewComps(a, seen).0 + NewComps(b, NewComps(a, seen).1).0
  {
    if a == [] {
      assert a + b == b;
    } else {
      assert (a + b)[1..] == a[1..] + b;
      NewCompsConcat(a[1..], b, if a[0].name in seen then seen else seen + [a[0].name]);
    }
  }

  lemma {:induction false} WrittenOfRegistry(libs: seq<Library>, seen: seq<string>)
    ensures Written(RegistryLines(libs, seen)) == Written(NewComps(AllComps(libs), seen).0)
  {
    if libs != [] {
      var own := NewComps(libs[0].comps, seen);
      var head := [LibraryLine(libs[0].path)];
      WrittenOfRegistry(libs[1..], own.1);
      WrittenAppend(head + own.0, RegistryLines(libs[1..], own.1));
      WrittenAppend(head, own.0);
      assert Written(head) == Written([]);
      NewCompsConcat(libs[0].comps, AllComps(libs[1..]), seen);
      WrittenAppend(own.0, NewComps(AllComps(libs[1..]), own.1).0);
    }
  }

  lemma {:induction false} FirstInRest(c: Component, comps: seq<Component>)
    requires comps != []
    ensures First(c, comps) <==> c == comps[0] || (c.name != comps[0].name && First(c, comps[1..]))
  {
    if First(c, comps) {
      var i :| 0 <= i < |comps| && FirstAt(c, comps, i);
      if i > 0 {
        assert FirstAt(c, comps[1..], i - 1);
      }
    }
    if c == comps[0] {
      assert FirstAt(c, comps, 0);
    } else if c.name != comps[0].name && First(c, comps[1..]) {
      var i :| 0 <= i < |comps[1..]| && FirstAt(c, comps[1..], i);
      assert FirstAt(c, comps, i + 1);
    }
  }

  lemma {:induction false} WrittenFirst(comps: seq<Component>, seen: seq<string>)
    ensures DistinctNames(Written(NewComps(comps, seen).0))
    ensures forall c :: c in Written(NewComps(comps, seen).0) <==> c.name !in seen && First(c, comps)
  {
    if comps != [] {
      var next := if comps[0].name in seen then seen else seen + [comps[0].name];
      WrittenFirst(comps[1..], next);
      forall c ensures c in Written(NewComps(comps, seen).0) <==> c.name !in seen && First(c, comps) {
        FirstInRest(c, comps);
      }
      WrittenHead(comps, seen);
    }
  }

  lemma {:induction false} WrittenHead(comps: seq<Component>, seen: seq<string>)
    requires comps != []
    ensures var next := if comps[0].name in seen then seen else seen + [comps[0].name];
            Written(NewComps(comps, seen).0)
            == (if comps[0].name in seen then [] else [comps[0]]) + Written(NewComps(comps[1..], next).0)
  {
  }

  /** Every component name is registered once, by the first component that has it, in whatever
      library; the others are skipped. */
  lemma {:induction false} RegisteredOnce(libs: seq<Library>)
    ensures DistinctNames(Written(RegistryLines(libs, [])))
    ensures forall c :: c in Written(RegistryLines(libs, [])) <==> First(c, AllComps(libs))
  {
    WrittenOfRegistry(libs, []);
    WrittenFirst(AllComps(libs), []);
  }
}
