/** The directory of components: enumeration by index and the two role queries, within the static
    loader and over all loaders of the core. */
module ComponentDirectory {
  import opened Sequences

  datatype Error = ErrorNone | ErrorNoMore | ErrorComponentNotFound

  /** One entry of name_specific with its entry of role_specific. */
  datatype Specific = Specific(name: string, role: string)

  /** stLoaderComponentType, as far as the queries read it. */
  datatype Template = Template(name: string, specifics: seq<Specific>)

  type Loader = seq<Template>

  const OMX_MAX_STRINGNAME_SIZE: nat := 128

  /** What strncpy of at most n characters delivers. */
  function Copied(s: string, n: nat): (r: string)
    ensures r <= s && |r| == Min(|s|, n)
  {
    if |s| <= n then s else s[..n]
  }

  function Min(a: nat, b: nat): nat {
    if a <= b then a else b
  }

  /** An unsigned long stored in an int. */
  function AsInt(v: nat): (r: int)
    ensures -0x8000_0000 <= r < 0x8000_0000 && (v - r) % 0x1_0000_0000 == 0
    ensures v < 0x8000_0000 ==> r == v
  {
    var low := v % 0x1_0000_0000;
    if low < 0x8000_0000 then low else low - 0x1_0000_0000
  }

  /** An unsigned long stored in an unsigned int. */
  function AsUnsigned(v: nat): (r: nat)
    ensures r < 0x1_0000_0000 && (v - r) % 0x1_0000_0000 == 0
  {
    v % 0x1_0000_0000
  }

  // ---------------------------------------------------------------- names by index

  function SpecificNames(ss: seq<Specific>): (r: seq<string>)
    ensures |r| == |ss|
    ensures forall j :: 0 <= j < |ss| ==> r[j] == ss[j].name
  {
    seq(|ss|, j requires 0 <= j < |ss| => ss[j].name)
  }

  /** The general name followed by the specific ones. */
  function OwnNames(t: Template): seq<string> {
    [t.name] + SpecificNames(t.specifics)
  }

  function Names(ts: Loader): seq<string> {
    if ts == [] then [] else OwnNames(ts[0]) + Names(ts[1..])
  }

  function AllNames(loaders: seq<Loader>): seq<string> {
    if loaders == [] then [] else Names(loaders[0]) + AllNames(loaders[1..])
  }

  /** BOSA_ST_ComponentNameEnum */
  method LoaderNameEnum(ts: Loader, nNameLength: nat, nIndex: nat) returns (err: Error, name: string)
    ensures nIndex < |Names(ts)| ==> err == ErrorNone && name == Copied(Names(ts)[nIndex], nNameLength)
    ensures nIndex >= |Names(ts)| ==> err == ErrorNoMore
  {
    name := "";
    ghost var all := Names(ts);
    var i, index := 0, 0;
    while i < |ts|
      invariant 0 <= i <= |ts| && index <= nIndex && index <= |all|
      invariant all[index..] == Names(ts[i..])
    {
      assert ts[i..][1..] == ts[i + 1..];
      ghost var start := index;
      Advance(all, start, OwnNames(ts[i]), Names(ts[i + 1..]));
      if index == nIndex {
        return ErrorNone, Copied(ts[i].name, nNameLength);
      }
      index := index + 1;
      var j := 0;
      while j < |ts[i].specifics|
        invariant 0 <= j <= |ts[i].specifics| && index == start + 1 + j <= nIndex
      {
        if index == nIndex {
          assert all[nIndex] == OwnNames(ts[i])[1 + j];
          return ErrorNone, Copied(ts[i].specifics[j].name, nNameLength);
        }
        index := index + 1;
        j := j + 1;
      }
      i := i + 1;
    }
    err := ErrorNoMore;
  }

  /** Passing one part of a list. */
  lemma {:induction false} Advance(all: seq<string>, index: nat, own: seq<string>, rest: seq<string>)
    requires index <= |all| && all[index..] == own + rest
    ensures index + |own| <= |all| && all[index + |own|..] == rest
    ensures forall k :: 0 <= k < |own| ==> all[index + k] == own[k]
  {
  }

  /** How many names stand before template i. */
  function NamesBefore(ts: Loader, i: nat): nat
    requires i <= |ts|
  {
    if i == 0 then 0 else NamesBefore(ts, i - 1) + 1 + |ts[i - 1].specifics|
  }

  lemma {:induction false} NamesCounted(ts: Loader, i: nat)
    requires i <= |ts|
    ensures |Names(ts[..i])| == NamesBefore(ts, i)
  {
    if i > 0 {
      NamesCounted(ts, i - 1);
      assert ts[..i] == ts[..i - 1] + [ts[i - 1]];
      NamesAppend(ts[..i - 1], [ts[i - 1]]);
      assert OwnNames(ts[i - 1]) + [] == Names([ts[i - 1]]);
    }
  }

  lemma {:induction false} AllCounted(ts: Loader)
    ensures |Names(ts)| == NamesBefore(ts, |ts|)
  {
    NamesCounted(ts, |ts|);
    assert ts[..|ts|] == ts;
  }

  lemma {:induction false} NamesSplit(ts: Loader, i: nat)
    requires i < |ts|
    ensures NamesBefore(ts, i) <= |Names(ts)|
    ensures Names(ts)[NamesBefore(ts, i)..] == OwnNames(ts[i]) + Names(ts[i + 1..])
  {
    NamesCounted(ts, i);
    assert ts == ts[..i] + ts[i..] && ts[i..][1..] == ts[i + 1..];
    NamesAppend(ts[..i], ts[i..]);
  }

  lemma {:induction false} OwnInPlace(all: seq<string>, at: nat, t: Template, rest: seq<string>)
    requires at <= |all| && all[at..] == OwnNames(t) + rest
    ensures at + 1 + |t.specifics| <= |all| && all[at] == t.name
    ensures forall j :: 0 <= j < |t.specifics| ==> all[at + 1 + j] == t.specifics[j].name
  {
    var own := OwnNames(t);
    Advance(all, at, own, rest);
    assert all[at + 0] == own[0];
    forall j | 0 <= j < |t.specifics| ensures all[at + 1 + j] == t.specifics[j].name {
      assert all[at + (1 + j)] == own[1 + j];
    }
  }

  /** The enumeration has every name at its place: each template's general name, then its specific
      names in order, and nothing else. */
  lemma {:induction false} NamesInPlace(ts: Loader, i: nat)
    requires i < |ts|
    ensures |Names(ts)| == NamesBefore(ts, |ts|) >= NamesBefore(ts, i) + 1 + |ts[i].specifics|
    ensures Names(ts)[NamesBefore(ts, i)] == ts[i].name
    ensures forall j :: 0 <= j < |ts[i].specifics| ==>
              Names(ts)[NamesBefore(ts, i) + 1 + j] == ts[i].specifics[j].name
  {
    AllCounted(ts);
    NamesSplit(ts, i);
    OwnInPlace(Names(ts), NamesBefore(ts, i), ts[i], Names(ts[i + 1..]));
  }

  /** OMX_ComponentNameEnum: over increasing indices it yields the names loader by loader and
      template by template, then no more. */
  method ComponentNameEnum(loaders: seq<Loader>, nNameLength: nat, nIndex: nat) returns (err: Error, name: string)
    ensures nIndex < |AllNames(loaders)| ==>
              err == ErrorNone && name == Copied(AllNames(loaders)[nIndex], nNameLength)
    ensures nIndex >= |AllNames(loaders)| ==> err == ErrorNoMore
  {
    name := "";
    ghost var all := AllNames(loaders);
    var index := 0;
    for i := 0 to |loaders|
      invariant index <= nIndex && index <= |all|
      invariant all[index..] == AllNames(loaders[i..])
    {
      assert loaders[i..][1..] == loaders[i + 1..];
      ghost var start, own := index, Names(loaders[i]);
      Advance(all, start, own, AllNames(loaders[i + 1..]));
      var offset := 0;
      err, name := LoaderNameEnum(loaders[i], nNameLength, offset);
      while err != ErrorNoMore
        invariant 0 <= offset <= |own| && index == start + offset <= nIndex
        invariant offset < |own| ==> err == ErrorNone && name == Copied(own[offset], nNameLength)
        invariant offset >= |own| ==> err == ErrorNoMore
        decreases |own| - offset
      {
        if index == nIndex {
          assert all[nIndex] == own[offset];
          return;
        }
        offset := offset + 1;
        index := index + 1;
        err, name := LoaderNameEnum(loaders[i], nNameLength, offset);
      }
    }
    err := ErrorNoMore;
  }

  // ---------------------------------------------------------------- roles of a component

  function Roles(ss: seq<Specific>): (r: seq<string>)
    ensures |r| == |ss|
    ensures forall j :: 0 <= j < |ss| ==> r[j] == ss[j].role
  {
    seq(|ss|, j requires 0 <= j < |ss| => ss[j].role)
  }

  /** The role of the last specific entry of that name. */
  function LastRole(ss: seq<Specific>, name: string): seq<string> {
    if ss == [] then []
    else if ss[|ss| - 1].name == name then [ss[|ss| - 1].role]
    else LastRole(ss[..|ss| - 1], name)
  }

  datatype Answer = NotFound | Found(roles: seq<string>)

  /** What the first template that knows the name says. */
  function RolesOf(ts: Loader, name: string): Answer {
    if ts == [] then NotFound
    else if ts[0].name == name then Found(Roles(ts[0].specifics))
    else if LastRole(ts[0].specifics, name) != [] then Found(LastRole(ts[0].specifics, name))
    else RolesOf(ts[1..], name)
  }

  /** The first n entries of the caller's array are those of the list, and the others as before. */
  twostate predicate Filled(a: array<string>, list: seq<string>, n: nat)
    reads a
  {
    && n <= |list| && n <= a.Length
    && (forall k :: 0 <= k < n ==> a[k] == list[k])
    && (forall k :: n <= k < a.Length ==> a[k] == old(a[k]))
  }

  /** BOSA_ST_GetRolesOfComponent; a null array asks for the number only. */
  method LoaderGetRoles(ts: Loader, compName: string, numRoles: nat, roles: array?<string>)
    returns (err: Error, count: nat)
    requires roles != null ==> roles.Length >= AsUnsigned(numRoles)
    modifies roles
    ensures match RolesOf(ts, compName)
            case NotFound => err == ErrorComponentNotFound && count == 0
                             && (roles != null ==> Filled(roles, [], 0))
            case Found(rs) => err == ErrorNone && count == |rs|
                              && (roles != null ==> Filled(roles, rs, Min(AsUnsigned(numRoles), |rs|)))
  {
    var maxRoles := AsUnsigned(numRoles);
    var i := 0;
    while i < |ts|
      invariant 0 <= i <= |ts|
      invariant RolesOf(ts, compName) == RolesOf(ts[i..], compName)
      invariant roles != null ==> Filled(roles, [], 0)
    {
      assert ts[i..][1..] == ts[i + 1..];
      if ts[i].name == compName {
        count := |ts[i].specifics|;
        if roles == null {
          return ErrorNone, count;
        }
        var index := 0;
        while index < |ts[i].specifics|
          invariant 0 <= index <= |ts[i].specifics|
          invariant Filled(roles, Roles(ts[i].specifics), Min(maxRoles, index))
        {
          if index < maxRoles {
            roles[index] := ts[i].specifics[index].role;
          }
          index := index + 1;
        }
        return ErrorNone, count;
      }
      var found := SearchSpecifics(ts[i].specifics, compName, maxRoles, roles);
      if found {
        return ErrorNone, 1;
      }
      i := i + 1;
    }
    return ErrorComponentNotFound, 0;
  }

  /** The inner loop: a later entry of the same name overwrites an earlier one. */
  method SearchSpecifics(ss: seq<Specific>, compName: string, numRoles: nat, roles: array?<string>)
    returns (found: bool)
    requires roles != null ==> roles.Length >= numRoles
    modifies roles
    ensures found <==> LastRole(ss, compName) != []
    ensures |LastRole(ss, compName)| <= 1
    ensures roles != null ==>
              Filled(roles, LastRole(ss, compName), Min(numRoles, |LastRole(ss, compName)|))
  {
    found := false;
    var j := 0;
    while j < |ss|
      invariant 0 <= j <= |ss|
      invariant found <==> LastRole(ss[..j], compName) != []
      invariant |LastRole(ss[..j], compName)| <= 1
      invariant roles == null ==> !found
      invariant roles != null ==>
                  Filled(roles, LastRole(ss[..j], compName), Min(numRoles, |LastRole(ss[..j], compName)|))
    {
      assert ss[..j + 1][..j] == ss[..j];
      if ss[j].name == compName {
        found := true;
        if roles == null {
          LastRoleStays(ss, compName, j);
          return;
        }
        if numRoles > 0 {
          roles[0] := ss[j].role;
        }
      }
      j := j + 1;
    }
    assert ss[..j] == ss;
  }

  lemma {:induction false} LastRoleStays(ss: seq<Specific>, name: string, j: nat)
    requires j < |ss| && ss[j].name == name
    ensures |LastRole(ss, name)| == 1
    decreases |ss|
  {
    if ss[|ss| - 1].name != name {
      LastRoleStays(ss[..|ss| - 1], name, j);
    }
  }

  /** What the first loader that knows the name says, and which it is. */
  function CoreRolesOf(loaders: seq<Loader>, name: string): Answer {
    if loaders == [] then NotFound
    else if RolesOf(loaders[0], name).Found? then RolesOf(loaders[0], name)
    else CoreRolesOf(loaders[1..], name)
  }

  /** The template has the name as its general name or as one of its specific names. */
  predicate Knows(t: Template, name: string) {
    t.name == name || exists k :: 0 <= k < |t.specifics| && t.specifics[k].name == name
  }

  ghost predicate FirstKnows(ts: Loader, name: string, i: int) {
    0 <= i < |ts| && Knows(ts[i], name) && forall j :: 0 <= j < i ==> !Knows(ts[j], name)
  }

  /** Entry k is the last one of that name. */
  predicate LastNamed(ss: seq<Specific>, name: string, k: int) {
    0 <= k < |ss| && ss[k].name == name && forall j :: k < j < |ss| ==> ss[j].name != name
  }

  /** What a template that knows the name should answer: all its roles for its general name, the
      role of the last entry for a specific one. */
  ghost predicate Answers(t: Template, name: string, roles: seq<string>) {
    if t.name == name then
      |roles| == |t.specifics| && forall j :: 0 <= j < |roles| ==> roles[j] == t.specifics[j].role
    else
      exists k :: LastNamed(t.specifics, name, k) && roles == [t.specifics[k].role]
  }

  lemma {:induction false} LastRoleIs(ss: seq<Specific>, name: string)
    ensures LastRole(ss, name) == [] <==> forall k :: 0 <= k < |ss| ==> ss[k].name != name
    ensures LastRole(ss, name) != [] ==> exists k :: LastNamed(ss, name, k) && LastRole(ss, name) == [ss[k].role]
  {
    if ss != [] {
      var last := |ss| - 1;
      if ss[last].name == name {
        assert LastNamed(ss, name, last);
      } else {
        LastRoleIs(ss[..last], name);
        if LastRole(ss, name) != [] {
          var k: nat :| LastNamed(ss[..last], name, k) && LastRole(ss[..last], name) == [ss[..last][k].role];
          assert LastNamed(ss, name, k);
        }
      }
    }
  }

  /** The role query finds nothing exactly when no template knows the name, and otherwise answers
      for the first template that does. */
  lemma {:induction false} RolesOfExact(ts: Loader, name: string)
    ensures RolesOf(ts, name) == NotFound <==> forall i :: 0 <= i < |ts| ==> !Knows(ts[i], name)
    ensures forall i :: FirstKnows(ts, name, i) ==>
              RolesOf(ts, name).Found? && Answers(ts[i], name, RolesOf(ts, name).roles)
  {
    if ts != [] {
      LastRoleIs(ts[0].specifics, name);
      RolesOfExact(ts[1..], name);
      assert Knows(ts[0], name) <==> ts[0].name == name || LastRole(ts[0].specifics, name) != [];
      if !Knows(ts[0], name) {
        RestKnows(ts, name);
      }
    }
  }

  lemma {:induction false} RestKnows(ts: Loader, name: string)
    requires ts != [] && !Knows(ts[0], name)
    ensures (forall i :: 0 <= i < |ts| ==> !Knows(ts[i], name))
        <==> forall i :: 0 <= i < |ts[1..]| ==> !Knows(ts[1..][i], name)
    ensures forall i :: FirstKnows(ts, name, i) ==> i > 0 && FirstKnows(ts[1..], name, i - 1)
  {
    forall i | FirstKnows(ts, name, i) ensures i > 0 && FirstKnows(ts[1..], name, i - 1) {
      assert ts[1..][i - 1] == ts[i];
      assert forall j :: 0 <= j < i - 1 ==> ts[1..][j] == ts[j + 1];
    }
    if forall i :: 0 <= i < |ts[1..]| ==> !Knows(ts[1..][i], name) {
      forall i | 0 <= i < |ts| ensures !Knows(ts[i], name) {
        assert i > 0 ==> ts[1..][i - 1] == ts[i];
      }
    }
  }

  /** How many roles OMX_GetRolesOfComponent writes for the caller: a loader that does not know
      the name zeroes the count, which is also the capacity handed to the next loader. */
  function RolesWritten(loaders: seq<Loader>, name: string, numRoles: nat): nat {
    if loaders == [] then 0
    else match RolesOf(loaders[0], name)
      case Found(rs) => Min(AsUnsigned(numRoles), |rs|)
      case NotFound => 0
  }

  /** OMX_GetRolesOfComponent */
  method GetRolesOfComponent(loaders: seq<Loader>, compName: string, numRoles: nat, roles: array?<string>)
    returns (err: Error, count: nat)
    requires roles != null ==> roles.Length >= numRoles
    modifies roles
    ensures match CoreRolesOf(loaders, compName)
            case NotFound =>
              && err == ErrorComponentNotFound && count == (if loaders == [] then numRoles else 0)
              && (roles != null ==> Filled(roles, [], 0))
            case Found(rs) =>
              && err == ErrorNone && count == |rs|
              && (roles != null ==> Filled(roles, rs, RolesWritten(loaders, compName, numRoles)))
  {
    count := numRoles;
    for i := 0 to |loaders|
      invariant CoreRolesOf(loaders, compName) == CoreRolesOf(loaders[i..], compName)
      invariant i == 0 ==> count == numRoles
      invariant i > 0 ==> count == 0 && RolesOf(loaders[0], compName) == NotFound
      invariant roles != null ==> Filled(roles, [], 0)
    {
      assert loaders[i..][1..] == loaders[i + 1..];
      err, count := LoaderGetRoles(loaders[i], compName, count, roles);
      if err == ErrorNone {
        return;
      }
    }
    err := ErrorComponentNotFound;
  }

  /** The caller is promised the first min(capacity, number) roles.  That is what is written
      exactly when there is nothing to write, or the first loader knows the name and the
      capacity, or what an unsigned int keeps of it, suffices. */
  lemma {:induction false} RolesDeliveredIff(loaders: seq<Loader>, name: string, numRoles: nat)
    requires CoreRolesOf(loaders, name).Found?
    ensures var rs := CoreRolesOf(loaders, name).roles;
            RolesWritten(loaders, name, numRoles) == Min(numRoles, |rs|)
            <==> numRoles == 0 || rs == []
                 || (RolesOf(loaders[0], name).Found? && (numRoles < 0x1_0000_0000 || |rs| <= AsUnsigned(numRoles)))
  {
    if numRoles < 0x1_0000_0000 {
      assert AsUnsigned(numRoles) == numRoles;
    } else {
      assert AsUnsigned(numRoles) < numRoles;
    }
  }

  /** Two loaders, of which the second knows the name: the one role asked for is not written. */
  lemma {:induction false} SecondLoaderWritesNothing()
    ensures var loaders := [[Template("a", [])], [Template("b", [Specific("b.x", "x")])]];
            && CoreRolesOf(loaders, "b") == Found(["x"])
            && RolesWritten(loaders, "b", 1) == 0
  {
    var first, second := [Template("a", [])], [Template("b", [Specific("b.x", "x")])];
    var loaders := [first, second];
    assert first[1..] == [] && LastRole([], "b") == [];
    assert RolesOf(first, "b") == NotFound;
    assert Roles(second[0].specifics) == ["x"];
    assert loaders[1..] == [second];
  }

  // ---------------------------------------------------------------- components of a role

  /** The general name, once for each specific entry with the role. */
  function Matches(t: Template, role: string, k: nat): seq<string>
    requires k <= |t.specifics|
  {
    if k == 0 then []
    else Matches(t, role, k - 1) + if t.specifics[k - 1].role == role then [t.name] else []
  }

  function ComponentsOf(ts: Loader, role: string): seq<string> {
    if ts == [] then [] else Matches(ts[0], role, |ts[0].specifics|) + ComponentsOf(ts[1..], role)
  }

  function AllComponentsOf(loaders: seq<Loader>, role: string): seq<string> {
    if loaders == [] then [] else ComponentsOf(loaders[0], role) + AllComponentsOf(loaders[1..], role)
  }

  /** BOSA_ST_GetComponentsOfRole: the number of all matches, and as many names as fit. */
  method LoaderGetComponents(ts: Loader, role: string, numComps: nat, compNames: array?<string>)
    returns (count: nat)
    requires compNames != null ==> compNames.Length >= AsInt(numComps)
    modifies compNames
    ensures count == |ComponentsOf(ts, role)|
    ensures compNames != null ==>
              forall k :: 0 <= k < compNames.Length ==>
                compNames[k] == if k < count && k < AsInt(numComps) then ComponentsOf(ts, role)[k]
                                else old(compNames[k])
  {
    count := 0;
    ghost var all := ComponentsOf(ts, role);
    var maxEntries: nat := if AsInt(numComps) < 0 then 0 else AsInt(numComps);
    var i := 0;
    while i < |ts|
      invariant 0 <= i <= |ts| && count <= |all|
      invariant all[count..] == ComponentsOf(ts[i..], role)
      invariant compNames != null ==> Filled(compNames, all, Min(maxEntries, count))
    {
      assert ts[i..][1..] == ts[i + 1..];
      ghost var start, own := count, Matches(ts[i], role, |ts[i].specifics|);
      Advance(all, start, own, ComponentsOf(ts[i + 1..], role));
      MatchesAll(ts[i], role, 0, |ts[i].specifics|);
      count := AddMatches(ts[i], role, count, maxEntries, compNames, all);
      i := i + 1;
    }
  }

  /** The first n entries of the array are those of the list. */
  ghost predicate Holds(a: array?<string>, list: seq<string>, n: nat)
    reads a
  {
    a != null ==> n <= |list| && n <= a.Length && forall k :: 0 <= k < n ==> a[k] == list[k]
  }

  /** The inner loop: the matches of one template. */
  method AddMatches(t: Template, role: string, start: nat, maxEntries: nat, compNames: array?<string>,
                    ghost all: seq<string>)
    returns (count: nat)
    requires compNames != null ==> compNames.Length >= maxEntries
    requires start + |Matches(t, role, |t.specifics|)| <= |all|
    requires forall k :: start <= k < start + |Matches(t, role, |t.specifics|)| ==> all[k] == t.name
    requires Holds(compNames, all, Min(maxEntries, start))
    modifies compNames
    ensures count == start + |Matches(t, role, |t.specifics|)|
    ensures Holds(compNames, all, Min(maxEntries, count))
    ensures compNames != null ==>
              forall k :: Min(maxEntries, count) <= k < compNames.Length ==> compNames[k] == old(compNames[k])
  {
    count := start;
    var j := 0;
    while j < |t.specifics|
      invariant 0 <= j <= |t.specifics|
      invariant count == start + |Matches(t, role, j)|
      invariant Holds(compNames, all, Min(maxEntries, count))
      invariant compNames != null ==>
                  forall k :: Min(maxEntries, count) <= k < compNames.Length ==> compNames[k] == old(compNames[k])
    {
      MatchesNext(t, role, j);
      if t.specifics[j].role == role {
        assert all[start + |Matches(t, role, j)|] == t.name;
        if compNames != null {
          if count < maxEntries {
            compNames[count] := t.name;
          }
        }
        count := count + 1;
      }
      j := j + 1;
    }
  }

  lemma {:induction false} MatchesNext(t: Template, role: string, j: nat)
    requires j < |t.specifics|
    ensures |Matches(t, role, j + 1)| == |Matches(t, role, j)| + (if t.specifics[j].role == role then 1 else 0)
    ensures |Matches(t, role, j + 1)| <= |Matches(t, role, |t.specifics|)|
    ensures forall k :: 0 <= k < |Matches(t, role, |t.specifics|)| ==> Matches(t, role, |t.specifics|)[k] == t.name
  {
    MatchesAll(t, role, j + 1, |t.specifics|);
  }

  lemma {:induction false} MatchesAll(t: Template, role: string, j: nat, k: nat)
    requires j <= k <= |t.specifics|
    ensures |Matches(t, role, j)| <= |Matches(t, role, k)|
    ensures forall i :: 0 <= i < |Matches(t, role, k)| ==> Matches(t, role, k)[i] == t.name
    decreases k
  {
    if k > 0 {
      MatchesAll(t, role, if j < k then j else k - 1, k - 1);
    }
  }

  /** Every name fits, with its end mark, into the buffers of OMX_MAX_STRINGNAME_SIZE characters
      that OMX_GetComponentsOfRole has the loaders write to. */
  ghost predicate FitBuffers(names: seq<string>) {
    forall k :: 0 <= k < |names| ==> |names[k]| < OMX_MAX_STRINGNAME_SIZE
  }

  /** OMX_GetComponentsOfRole: always the number of all matches; into the caller's array as many
      names as fit, unchanged. */
  method GetComponentsOfRole(loaders: seq<Loader>, role: string, numComps: nat, compNames: array?<string>)
    returns (count: nat)
    requires compNames != null ==> compNames.Length >= numComps
    requires |AllComponentsOf(loaders, role)| < 0x8000_0000
    requires compNames != null ==> FitBuffers(AllComponentsOf(loaders, role))
    modifies compNames
    ensures count == |AllComponentsOf(loaders, role)|
    ensures compNames != null ==>
              Filled(compNames, AllComponentsOf(loaders, role), Min(numComps, count))
  {
    ghost var all := AllComponentsOf(loaders, role);
    count := 0;
    for i := 0 to |loaders|
      invariant count <= |all| && all[count..] == AllComponentsOf(loaders[i..], role)
      invariant compNames != null ==> Filled(compNames, all, Min(numComps, count))
    {
      assert loaders[i..][1..] == loaders[i + 1..];
      ghost var start, own := count, ComponentsOf(loaders[i], role);
      Advance(all, start, own, AllComponentsOf(loaders[i + 1..], role));
      var tempNumComp := LoaderGetComponents(loaders[i], role, numComps, null);
      if compNames != null {
        var temp := FetchFrom(loaders[i], role, tempNumComp);
        forall k | 0 <= k < temp.Length ensures NameAt(all, start + k, temp[k]) {
          assert all[start + k] == own[k];
        }
        CopyNames(temp, count, numComps, compNames, all);
      }
      count := count + tempNumComp;
    }
  }

  ghost predicate NameAt(all: seq<string>, i: nat, name: string) {
    i < |all| && all[i] == name
  }

  /** The two calls for one loader: count, then fetch into an array of that length. */
  method FetchFrom(ts: Loader, role: string, tempNumComp: nat) returns (temp: array<string>)
    requires tempNumComp == |ComponentsOf(ts, role)| < 0x8000_0000
    requires FitBuffers(ComponentsOf(ts, role))
    ensures fresh(temp) && temp.Length == tempNumComp
    ensures forall k :: 0 <= k < tempNumComp ==> temp[k] == ComponentsOf(ts, role)[k]
  {
    temp := new string[tempNumComp];
    var again := LoaderGetComponents(ts, role, tempNumComp, temp);
  }

  /** The copying loop: as many of the names as fit behind the first start ones. */
  method CopyNames(temp: array<string>, start: nat, numComps: nat, compNames: array<string>,
                   ghost all: seq<string>)
    requires temp != compNames && compNames.Length >= numComps && start + temp.Length <= |all|
    requires forall k :: 0 <= k < temp.Length ==> NameAt(all, start + k, temp[k])
    requires FitBuffers(all) && Holds(compNames, all, Min(numComps, start))
    modifies compNames
    ensures Holds(compNames, all, Min(numComps, start + temp.Length))
    ensures forall k :: Min(numComps, start + temp.Length) <= k < compNames.Length ==> compNames[k] == old(compNames[k])
  {
    var j := 0;
    while j < temp.Length
      invariant 0 <= j <= temp.Length
      invariant Holds(compNames, all, Min(numComps, start + j))
      invariant forall k :: Min(numComps, start + j) <= k < compNames.Length ==> compNames[k] == old(compNames[k])
    {
      assert NameAt(all, start + j, temp[j]);
      if start + j < numComps {
        compNames[start + j] := Copied(temp[j], OMX_MAX_STRINGNAME_SIZE);
      }
      j := j + 1;
    }
  }

  /** The documented use, a count call and then a call with that capacity, returns every match. */
  method CountThenFetch(loaders: seq<Loader>, role: string) returns (names: array<string>)
    requires |AllComponentsOf(loaders, role)| < 0x8000_0000
    requires FitBuffers(AllComponentsOf(loaders, role))
    ensures fresh(names) && names[..] == AllComponentsOf(loaders, role)
  {
    var count := GetComponentsOfRole(loaders, role, 0, null);
    names := new string[count];
    var again := GetComponentsOfRole(loaders, role, count, names);
  }

  // ---------------------------------------------------------------- the two queries together

  /** How often a role occurs among the entries of a template. */
  function RoleCount(ss: seq<Specific>, role: string): nat {
    if ss == [] then 0 else RoleCount(ss[..|ss| - 1], role) + if ss[|ss| - 1].role == role then 1 else 0
  }

  function RoleCountNamed(ts: Loader, name: string, role: string): nat {
    if ts == [] then 0
    else (if ts[0].name == name then RoleCount(ts[0].specifics, role) else 0) + RoleCountNamed(ts[1..], name, role)
  }

  lemma {:induction false} RolesCounted(ss: seq<Specific>, role: string)
    ensures multiset(Roles(ss))[role] == RoleCount(ss, role)
  {
    if ss != [] {
      RolesCounted(ss[..|ss| - 1], role);
      assert Roles(ss) == Roles(ss[..|ss| - 1]) + [ss[|ss| - 1].role];
    }
  }

  lemma {:induction false} MatchesCounted(t: Template, role: string, k: nat, name: string)
    requires k <= |t.specifics|
    ensures multiset(Matches(t, role, k))[name] == if t.name == name then RoleCount(t.specifics[..k], role) else 0
  {
    if k > 0 {
      MatchesCounted(t, role, k - 1, name);
      assert t.specifics[..k][..k - 1] == t.specifics[..k - 1];
    }
  }

  lemma {:induction false} ComponentsCounted(ts: Loader, role: string, name: string)
    ensures multiset(ComponentsOf(ts, role))[name] == RoleCountNamed(ts, name, role)
  {
    if ts != [] {
      var t := ts[0];
      MatchesCounted(t, role, |t.specifics|, name);
      assert t.specifics[..|t.specifics|] == t.specifics;
      ComponentsCounted(ts[1..], role, name);
    }
  }

  /** The queries are inverse for this name: each role occurs among its roles as often as the
      name occurs among the components of the role. */
  ghost predicate InverseFor(ts: Loader, name: string) {
    RolesOf(ts, name).Found? &&
    forall role :: multiset(RolesOf(ts, name).roles)[role] == multiset(ComponentsOf(ts, role))[name]
  }

  ghost predicate KnownFirstAt(ts: Loader, name: string, i: nat) {
    && i < |ts| && ts[i].name == name
    && forall j :: 0 <= j < i ==> ts[j].name != name && LastRole(ts[j].specifics, name) == []
  }

  lemma {:induction false} KnownFirst(ts: Loader, name: string, i: nat, role: string)
    requires KnownFirstAt(ts, name, i)
    ensures RolesOf(ts, name) == Found(Roles(ts[i].specifics))
    ensures RoleCountNamed(ts, name, role)
         == RoleCount(ts[i].specifics, role) + RoleCountNamed(ts[i + 1..], name, role)
  {
    if i > 0 {
      assert ts[0].name != name && LastRole(ts[0].specifics, name) == [];
      assert forall j :: 0 <= j < i - 1 ==> ts[1..][j] == ts[j + 1];
      KnownFirst(ts[1..], name, i - 1, role);
      assert ts[1..][i..] == ts[i + 1..];
    }
  }

  lemma {:induction false} NoneNamed(ts: Loader, name: string, role: string)
    requires forall j :: 0 <= j < |ts| && ts[j].name == name ==> ts[j].specifics == []
    ensures RoleCountNamed(ts, name, role) == 0
  {
    if ts != [] {
      NoneNamed(ts[1..], name, role);
    }
  }

  lemma {:induction false} SomeNamed(ts: Loader, name: string, j: nat)
    requires j < |ts| && ts[j].name == name && ts[j].specifics != []
    ensures exists role :: RoleCountNamed(ts, name, role) > 0
  {
    var last := ts[j].specifics[|ts[j].specifics| - 1].role;
    if j > 0 {
      SomeNamedAt(ts, name, j, last);
    }
    assert RoleCountNamed(ts, name, last) > 0;
  }

  lemma {:induction false} SomeNamedAt(ts: Loader, name: string, j: nat, role: string)
    requires j < |ts| && ts[j].name == name && RoleCount(ts[j].specifics, role) > 0
    ensures RoleCountNamed(ts, name, role) > 0
  {
    if j > 0 {
      SomeNamedAt(ts[1..], name, j - 1, role);
    }
  }

  /** What the component query counts more than the role query. */
  lemma {:induction false} CountedTwice(ts: Loader, name: string, i: nat, role: string)
    requires KnownFirstAt(ts, name, i)
    ensures RolesOf(ts, name).Found?
    ensures multiset(ComponentsOf(ts, role))[name]
         == multiset(RolesOf(ts, name).roles)[role] + RoleCountNamed(ts[i + 1..], name, role)
  {
    KnownFirst(ts, name, i, role);
    ComponentsCounted(ts, role, name);
    RolesCounted(ts[i].specifics, role);
  }

  ghost predicate NoneLater(ts: Loader, name: string, i: nat) {
    forall j :: i < j < |ts| && ts[j].name == name ==> ts[j].specifics == []
  }

  ghost predicate NothingMore(later: Loader, name: string) {
    forall role :: RoleCountNamed(later, name, role) == 0
  }

  lemma {:induction false} LaterCountIff(ts: Loader, name: string, i: nat, later: Loader)
    requires i < |ts| && later == ts[i + 1..]
    ensures NoneLater(ts, name, i) <==> NothingMore(later, name)
  {
    if NoneLater(ts, name, i) {
      forall role ensures RoleCountNamed(later, name, role) == 0 {
        NoneNamed(later, name, role);
      }
    } else {
      var j :| i < j < |ts| && ts[j].name == name && ts[j].specifics != [];
      assert later[j - i - 1] == ts[j];
      SomeNamed(later, name, j - i - 1);
    }
  }

  /** For a name that is first met as a general name, the queries are inverse if and only if no
      later template of the same name has specific entries. */
  lemma {:induction false} InverseIff(ts: Loader, name: string, i: nat)
    requires KnownFirstAt(ts, name, i)
    ensures InverseFor(ts, name) <==> NoneLater(ts, name, i)
  {
    var later := ts[i + 1..];
    LaterCountIff(ts, name, i, later);
    CountedTwice(ts, name, i, "");
    forall role
      ensures multiset(ComponentsOf(ts, role))[name]
           == multiset(RolesOf(ts, name).roles)[role] + RoleCountNamed(later, name, role)
    {
      CountedTwice(ts, name, i, role);
    }
  }

  ghost predicate DistinctNames(ts: Loader) {
    && (forall i, j :: 0 <= i < j < |ts| ==> ts[i].name != ts[j].name)
    && (forall i, j, k :: 0 <= i < |ts| && 0 <= j < |ts| && 0 <= k < |ts[j].specifics| ==>
          ts[i].name != ts[j].specifics[k].name)
  }

  lemma {:induction false} NoLastRole(ss: seq<Specific>, name: string)
    requires forall k :: 0 <= k < |ss| ==> ss[k].name != name
    ensures LastRole(ss, name) == []
  {
    if ss != [] {
      NoLastRole(ss[..|ss| - 1], name);
    }
  }

  /** In particular they are inverse for every general name when names are distinct. */
  lemma {:induction false} InverseWhenDistinct(ts: Loader, i: nat)
    requires DistinctNames(ts) && i < |ts|
    ensures InverseFor(ts, ts[i].name)
  {
    forall j | 0 <= j < i ensures ts[j].name != ts[i].name && LastRole(ts[j].specifics, ts[i].name) == [] {
      NoLastRole(ts[j].specifics, ts[i].name);
    }
    InverseIff(ts, ts[i].name, i);
  }

  // ---------------------------------------------------------------- the queries of the core

  /** The templates of all loaders, one after the other. */
  function Flat(loaders: seq<Loader>): Loader {
    if loaders == [] then [] else loaders[0] + Flat(loaders[1..])
  }

  lemma {:induction false} RolesOfAppend(a: Loader, b: Loader, name: string)
    ensures RolesOf(a + b, name) == if RolesOf(a, name).Found? then RolesOf(a, name) else RolesOf(b, name)
  {
    if a == [] {
      assert a + b == b;
    } else {
      assert (a + b)[1..] == a[1..] + b;
      RolesOfAppend(a[1..], b, name);
    }
  }

  lemma {:induction false} ComponentsOfAppend(a: Loader, b: Loader, role: string)
    ensures ComponentsOf(a + b, role) == ComponentsOf(a, role) + ComponentsOf(b, role)
  {
    if a == [] {
      assert a + b == b;
    } else {
      assert (a + b)[1..] == a[1..] + b;
      ComponentsOfAppend(a[1..], b, role);
      Assoc(Matches(a[0], role, |a[0].specifics|), ComponentsOf(a[1..], role), ComponentsOf(b, role));
    }
  }

  /** Over several loaders both queries answer as one loader with all their templates would. */
  lemma {:induction false} CoreIsFlat(loaders: seq<Loader>, name: string, role: string)
    ensures CoreRolesOf(loaders, name) == RolesOf(Flat(loaders), name)
    ensures AllComponentsOf(loaders, role) == ComponentsOf(Flat(loaders), role)
  {
    if loaders != [] {
      CoreIsFlat(loaders[1..], name, role);
      RolesOfAppend(loaders[0], Flat(loaders[1..]), name);
      ComponentsOfAppend(loaders[0], Flat(loaders[1..]), role);
    }
  }

  lemma {:induction false} NamesAppend(a: Loader, b: Loader)
    ensures Names(a + b) == Names(a) + Names(b)
  {
    if a == [] {
      assert a + b == b;
    } else {
      assert (a + b)[1..] == a[1..] + b;
      NamesAppend(a[1..], b);
      Assoc(OwnNames(a[0]), Names(a[1..]), Names(b));
    }
  }

  lemma {:induction false} AllNamesFlat(loaders: seq<Loader>)
    ensures AllNames(loaders) == Names(Flat(loaders))
  {
    if loaders != [] {
      AllNamesFlat(loaders[1..]);
      NamesAppend(loaders[0], Flat(loaders[1..]));
    }
  }

  /** The role query of the core, over the templates of all loaders. */
  lemma {:induction false} CoreRolesExact(loaders: seq<Loader>, name: string)
    ensures var all := Flat(loaders);
            && (CoreRolesOf(loaders, name) == NotFound <==> forall i :: 0 <= i < |all| ==> !Knows(all[i], name))
            && (forall i :: FirstKnows(all, name, i) ==>
                  && CoreRolesOf(loaders, name).Found?
                  && Answers(all[i], name, CoreRolesOf(loaders, name).roles))
  {
    CoreIsFlat(loaders, name, "");
    RolesOfExact(Flat(loaders), name);
  }

  /** The enumeration of the core, over the templates of all loaders. */
  lemma {:induction false} CoreNamesInPlace(loaders: seq<Loader>, i: nat)
    requires i < |Flat(loaders)|
    ensures var all, at := Flat(loaders), NamesBefore(Flat(loaders), i);
            && |AllNames(loaders)| == NamesBefore(all, |all|) >= at + 1 + |all[i].specifics|
            && AllNames(loaders)[at] == all[i].name
            && forall j :: 0 <= j < |all[i].specifics| ==> AllNames(loaders)[at + 1 + j] == all[i].specifics[j].name
  {
    AllNamesFlat(loaders);
    NamesInPlace(Flat(loaders), i);
  }

  ghost predicate CoreInverseFor(loaders: seq<Loader>, name: string) {
    CoreRolesOf(loaders, name).Found? &&
    forall role :: multiset(CoreRolesOf(loaders, name).roles)[role] == multiset(AllComponentsOf(loaders, role))[name]
  }

  /** For a name first met as a general name, the two queries of the core are inverse if and only
      if no later template of that name, in whatever loader, has specific entries. */
  lemma {:induction false} CoreInverseIff(loaders: seq<Loader>, name: string, i: nat)
    requires KnownFirstAt(Flat(loaders), name, i)
    ensures CoreInverseFor(loaders, name) <==> NoneLater(Flat(loaders), name, i)
  {
    InverseIff(Flat(loaders), name, i);
    SameInverse(loaders, name);
  }

  lemma {:induction false} SameInverse(loaders: seq<Loader>, name: string)
    ensures CoreInverseFor(loaders, name) <==> InverseFor(Flat(loaders), name)
  {
    forall role
      ensures CoreRolesOf(loaders, name) == RolesOf(Flat(loaders), name)
      ensures AllComponentsOf(loaders, role) == ComponentsOf(Flat(loaders), role)
    {
      CoreIsFlat(loaders, name, role);
    }
    CoreIsFlat(loaders, name, "");
  }

  /** In particular for every general name when all names of all loaders are distinct. */
  lemma {:induction false} CoreInverseWhenDistinct(loaders: seq<Loader>, i: nat)
    requires DistinctNames(Flat(loaders)) && i < |Flat(loaders)|
    ensures CoreInverseFor(loaders, Flat(loaders)[i].name)
  {
    InverseWhenDistinct(Flat(loaders), i);
    SameInverse(loaders, Flat(loaders)[i].name);
  }
}
