/** Parsing and printing URLs (src/microservice-essentials/utilities/url.cpp). */
module Urls {
  import opened Statuses

  datatype Url = Url(
    scheme: string, userinfo: string, host: string, port: string, path: string, query: string, fragment: string)

  const EMPTY := Url("", "", "", "", "", "", "")

  // ---------------------------------------------------------------------
  // Printing

  function GetConnectionString(u: Url): string {
    var withUser := if u.userinfo != "" then u.userinfo + "@" + u.host else u.host;
    var withScheme := if u.scheme != "" then u.scheme + "://" + withUser else withUser;
    if u.port != "" then withScheme + ":" + u.port else withScheme
  }

  function GetWholePath(u: Url): string {
    var path := if u.path != "" then "/" + u.path else "/";
    var withQuery := if u.query != "" then path + "?" + u.query else path;
    if u.fragment != "" then withQuery + "#" + u.fragment else withQuery
  }

  function GetString(u: Url): string {
    GetConnectionString(u) + GetWholePath(u)
  }

  // ---------------------------------------------------------------------
  // The regular expression, as a backtracking search: a greedy repetition tries its longest match first, an
  // optional group is tried before it is skipped, and the first way to match the whole text wins.

  predicate Dot(c: char) { c != '\n' && c != '\r' }

  predicate HostChar(c: char) { c != '/' && c != '?' && c != '#' && c != ':' }

  predicate Digit(c: char) { '0' <= c <= '9' }

  predicate PathChar(c: char) { c != '?' && c != '#' }

  predicate QueryChar(c: char) { c != '#' }

  predicate All(cls: char -> bool, s: string) {
    forall i :: 0 <= i < |s| ==> cls(s[i])
  }

  type Match = Option<Url>

  /** cls repeated greedily, n characters at most and least at least, then the rest of the expression. */
  function Greedy(cls: char -> bool, least: nat, s: string, n: nat, rest: (string, string) -> Match): Match
    requires n <= |s|
  {
    if n < least then None
    else if All(cls, s[..n]) && rest(s[..n], s[n..]).Some? then rest(s[..n], s[n..])
    else if n == 0 then None
    else Greedy(cls, least, s, n - 1, rest)
  }

  // (#(.+))?
  function FragmentGroup(s: string): Match {
    var taken := if s != "" && s[0] == '#' then Greedy(Dot, 1, s[1..], |s| - 1, AfterFragment) else None;
    if taken.Some? then taken else if s == "" then Some(EMPTY) else None
  }

  function AfterFragment(fragment: string, rest: string): Match {
    if rest == "" then Some(EMPTY.(fragment := fragment)) else None
  }

  // (\?([^#]+))?
  function QueryGroup(s: string): Match {
    var taken := if s != "" && s[0] == '?' then Greedy(QueryChar, 1, s[1..], |s| - 1, AfterQuery) else None;
    if taken.Some? then taken else FragmentGroup(s)
  }

  function AfterQuery(query: string, rest: string): Match {
    var m := FragmentGroup(rest);
    if m.Some? then Some(m.value.(query := query)) else None
  }

  // (\/([^\?#]*))?
  function PathGroup(s: string): Match {
    var taken := if s != "" && s[0] == '/' then Greedy(PathChar, 0, s[1..], |s| - 1, AfterPath) else None;
    if taken.Some? then taken else QueryGroup(s)
  }

  function AfterPath(path: string, rest: string): Match {
    var m := QueryGroup(rest);
    if m.Some? then Some(m.value.(path := path)) else None
  }

  // (\:(\d+))?
  function PortGroup(s: string): Match {
    var taken := if s != "" && s[0] == ':' then Greedy(Digit, 1, s[1..], |s| - 1, AfterPort) else None;
    if taken.Some? then taken else PathGroup(s)
  }

  function AfterPort(port: string, rest: string): Match {
    var m := PathGroup(rest);
    if m.Some? then Some(m.value.(port := port)) else None
  }

  // ([^\/\?#:]+)
  function HostPart(s: string): Match {
    Greedy(HostChar, 1, s, |s|, AfterHost)
  }

  function AfterHost(host: string, rest: string): Match {
    var m := PortGroup(rest);
    if m.Some? then Some(m.value.(host := host)) else None
  }

  // ((.+)@)?
  function UserGroup(s: string): Match {
    var taken := Greedy(Dot, 1, s, |s|, AfterUser);
    if taken.Some? then taken else HostPart(s)
  }

  function AfterUser(userinfo: string, rest: string): Match {
    if rest != "" && rest[0] == '@' then
      var m := HostPart(rest[1..]);
      if m.Some? then Some(m.value.(userinfo := userinfo)) else None
    else None
  }

  // ((.*)(:\/\/))?
  function ToUrl(s: string): Match {
    var taken := Greedy(Dot, 0, s, |s|, AfterScheme);
    if taken.Some? then taken else UserGroup(s)
  }

  function AfterScheme(scheme: string, rest: string): Match {
    if "://" <= rest then
      var m := UserGroup(rest[3..]);
      if m.Some? then Some(m.value.(scheme := scheme)) else None
    else None
  }

  // ---------------------------------------------------------------------
  // Searching

  /** The search finds the longest prefix that works. */
  predicate Works(cls: char -> bool, s: string, n: nat, rest: (string, string) -> Match)
    requires n <= |s|
  {
    All(cls, s[..n]) && rest(s[..n], s[n..]).Some?
  }

  lemma {:induction false} GreedyFindsLongest(
      cls: char -> bool, least: nat, s: string, n: nat, rest: (string, string) -> Match, m: nat)
    requires least <= m <= n <= |s| && Works(cls, s, m, rest)
    requires forall j :: m < j <= n ==> !Works(cls, s, j, rest)
    ensures Greedy(cls, least, s, n, rest) == rest(s[..m], s[m..])
  {
    if m < n {
      assert !Works(cls, s, n, rest);
      GreedyFindsLongest(cls, least, s, n - 1, rest, m);
    }
  }

  lemma {:induction false} GreedyFails(
      cls: char -> bool, least: nat, s: string, n: nat, rest: (string, string) -> Match)
    requires n <= |s| && forall j :: least <= j <= n ==> !Works(cls, s, j, rest)
    ensures Greedy(cls, least, s, n, rest).None?
  {
    if n >= least {
      assert !Works(cls, s, n, rest);
      if n > 0 {
        GreedyFails(cls, least, s, n - 1, rest);
      }
    }
  }

  lemma {:induction false} GreedyIsSound(
      cls: char -> bool, least: nat, s: string, n: nat, rest: (string, string) -> Match) returns (m: nat)
    requires n <= |s| && Greedy(cls, least, s, n, rest).Some?
    ensures least <= m <= n && Works(cls, s, m, rest)
    ensures Greedy(cls, least, s, n, rest) == rest(s[..m], s[m..])
    ensures forall j :: m < j <= n ==> !Works(cls, s, j, rest)
  {
    if Works(cls, s, n, rest) {
      m := n;
    } else {
      m := GreedyIsSound(cls, least, s, n - 1, rest);
    }
  }

  /** A run of cls that ends the text or is followed by another character is taken whole. */
  lemma GreedyTakesRun(
      cls: char -> bool, least: nat, run: string, after: string, rest: (string, string) -> Match)
    requires |run| >= least && All(cls, run) && (after == "" || !cls(after[0]))
    requires rest(run, after).Some?
    ensures Greedy(cls, least, run + after, |run + after|, rest) == rest(run, after)
  {
    var s := run + after;
    assert s[..|run|] == run && s[|run|..] == after;
    assert Works(cls, s, |run|, rest);
    forall j | |run| < j <= |s|
      ensures !Works(cls, s, j, rest)
    {
      assert s[..j][|run|] == after[0];
    }
    GreedyFindsLongest(cls, least, s, |s|, rest, |run|);
  }

  // ---------------------------------------------------------------------
  // host [":" port] ["/" path] ["?" query] ["#" fragment]

  function Part(mark: string, x: string): string { if x == "" then "" else mark + x }

  function FragmentText(u: Url): string { Part("#", u.fragment) }

  function QueryText(u: Url): string { Part("?", u.query) + FragmentText(u) }

  // without slash the path is empty
  function PathText(u: Url, slash: bool): string { (if slash then "/" + u.path else "") + QueryText(u) }

  function PortText(u: Url, slash: bool): string { Part(":", u.port) + PathText(u, slash) }

  function Tail(u: Url, slash: bool): string { u.host + PortText(u, slash) }

  predicate TailOk(u: Url) {
    && u.host != "" && All(HostChar, u.host) && All(Digit, u.port) && All(PathChar, u.path)
    && All(QueryChar, u.query) && All(Dot, u.fragment)
  }

  function TailOf(u: Url): Url { u.(scheme := "", userinfo := "") }

  lemma TextStarts(u: Url, slash: bool)
    ensures FragmentText(u) != "" ==> FragmentText(u)[0] == '#'
    ensures QueryText(u) != "" ==> QueryText(u)[0] == '?' || QueryText(u)[0] == '#'
    ensures PathText(u, slash) != "" ==>
              PathText(u, slash)[0] == '/' || PathText(u, slash)[0] == '?' || PathText(u, slash)[0] == '#'
    ensures PortText(u, slash) != "" ==> !HostChar(PortText(u, slash)[0])
  {
  }

  // each optional group, on plain text

  lemma FragmentMatches(fragment: string)
    requires fragment != "" && All(Dot, fragment)
    ensures FragmentGroup("#" + fragment) == Some(EMPTY.(fragment := fragment))
  {
    var s := "#" + fragment;
    assert s[1..] == fragment + "";
    GreedyTakesRun(Dot, 1, fragment, "", AfterFragment);
  }

  lemma QueryMatches(query: string, after: string, m: Url)
    requires query != "" && All(QueryChar, query) && (after == "" || !QueryChar(after[0]))
    requires FragmentGroup(after) == Some(m)
    ensures QueryGroup("?" + query + after) == Some(m.(query := query))
  {
    var s := "?" + query + after;
    assert s[1..] == query + after;
    GreedyTakesRun(QueryChar, 1, query, after, AfterQuery);
  }

  lemma PathMatches(path: string, after: string, m: Url)
    requires All(PathChar, path) && (after == "" || !PathChar(after[0]))
    requires QueryGroup(after) == Some(m)
    ensures PathGroup("/" + path + after) == Some(m.(path := path))
  {
    var s := "/" + path + after;
    assert s[1..] == path + after;
    GreedyTakesRun(PathChar, 0, path, after, AfterPath);
  }

  lemma PortMatches(port: string, after: string, m: Url)
    requires port != "" && All(Digit, port) && (after == "" || !Digit(after[0]))
    requires PathGroup(after) == Some(m)
    ensures PortGroup(":" + port + after) == Some(m.(port := port))
  {
    var s := ":" + port + after;
    assert s[1..] == port + after;
    GreedyTakesRun(Digit, 1, port, after, AfterPort);
  }

  lemma GroupsSkipped(s: string)
    ensures s == "" || s[0] != '?' ==> QueryGroup(s) == FragmentGroup(s)
    ensures s == "" || s[0] != '/' ==> PathGroup(s) == QueryGroup(s)
    ensures s == "" || s[0] != ':' ==> PortGroup(s) == PathGroup(s)
  {
  }

  lemma FragmentGroupMatches(u: Url)
    requires TailOk(u)
    ensures FragmentGroup(FragmentText(u)) == Some(EMPTY.(fragment := u.fragment))
  {
    if u.fragment != "" {
      FragmentMatches(u.fragment);
    }
  }

  lemma {:induction false} QueryGroupMatches(u: Url)
    requires TailOk(u)
    ensures QueryGroup(QueryText(u)) == Some(EMPTY.(query := u.query, fragment := u.fragment))
  {
    var after := FragmentText(u);
    FragmentGroupMatches(u);
    TextStarts(u, true);
    if u.query != "" {
      QueryMatches(u.query, after, EMPTY.(fragment := u.fragment));
    } else {
      assert QueryText(u) == after;
      GroupsSkipped(after);
    }
  }

  lemma {:induction false} PathGroupMatches(u: Url, slash: bool)
    requires TailOk(u) && (slash || u.path == "")
    ensures PathGroup(PathText(u, slash)) == Some(EMPTY.(path := u.path, query := u.query, fragment := u.fragment))
  {
    var after := QueryText(u);
    QueryGroupMatches(u);
    TextStarts(u, slash);
    if slash {
      PathMatches(u.path, after, EMPTY.(query := u.query, fragment := u.fragment));
    } else {
      assert PathText(u, slash) == after;
      GroupsSkipped(after);
    }
  }

  lemma {:induction false} PortGroupMatches(u: Url, slash: bool)
    requires TailOk(u) && (slash || u.path == "")
    ensures PortGroup(PortText(u, slash)) == Some(TailOf(u).(host := ""))
  {
    var after := PathText(u, slash);
    PathGroupMatches(u, slash);
    TextStarts(u, slash);
    if u.port != "" {
      PortMatches(u.port, after, EMPTY.(path := u.path, query := u.query, fragment := u.fragment));
    } else {
      assert PortText(u, slash) == after;
      GroupsSkipped(after);
    }
  }

  /** Every text of this form parses to its parts. */
  lemma HostPartMatches(u: Url, slash: bool)
    requires TailOk(u) && (slash || u.path == "")
    ensures HostPart(Tail(u, slash)) == Some(TailOf(u))
  {
    PortGroupMatches(u, slash);
    TextStarts(u, slash);
    GreedyTakesRun(HostChar, 1, u.host, PortText(u, slash), AfterHost);
  }

  // what a successful search has taken, and what it has left to the rest of the expression
  lemma GreedyTook(cls: char -> bool, least: nat, s: string, rest: (string, string) -> Match)
    returns (run: string, after: string)
    requires Greedy(cls, least, s, |s|, rest).Some?
    ensures s == run + after && |run| >= least && All(cls, run)
    ensures Greedy(cls, least, s, |s|, rest) == rest(run, after)
  {
    var m := GreedyIsSound(cls, least, s, |s|, rest);
    run, after := s[..m], s[m..];
  }

  lemma SameQuery(u: Url, v: Url)
    requires u.query == v.query && u.fragment == v.fragment
    ensures QueryText(u) == QueryText(v)
  {
  }

  lemma SamePath(u: Url, v: Url, slash: bool)
    requires u.path == v.path && u.query == v.query && u.fragment == v.fragment
    ensures PathText(u, slash) == PathText(v, slash)
  {
  }

  lemma {:induction false} FragmentGroupIsSound(s: string)
    requires FragmentGroup(s).Some?
    ensures var u := FragmentGroup(s).value;
            u == EMPTY.(fragment := u.fragment) && All(Dot, u.fragment) && s == FragmentText(u)
  {
    if s != "" {
      var fragment, after := GreedyTook(Dot, 1, s[1..], AfterFragment);
      assert s == "#" + fragment;
    }
  }

  lemma {:induction false} QueryGroupIsSound(s: string)
    requires QueryGroup(s).Some?
    ensures var u := QueryGroup(s).value;
            && u == EMPTY.(query := u.query, fragment := u.fragment)
            && All(QueryChar, u.query) && All(Dot, u.fragment) && s == QueryText(u)
  {
    if s != "" && s[0] == '?' && Greedy(QueryChar, 1, s[1..], |s| - 1, AfterQuery).Some? {
      var query, after := GreedyTook(QueryChar, 1, s[1..], AfterQuery);
      FragmentGroupIsSound(after);
      assert s == "?" + query + after;
    } else {
      FragmentGroupIsSound(s);
    }
  }

  // what a successful group has taken, and what it has left

  lemma {:induction false} PathTaken(s: string) returns (path: string, after: string)
    requires s != "" && s[0] == '/' && Greedy(PathChar, 0, s[1..], |s| - 1, AfterPath).Some?
    ensures s == "/" + path + after && All(PathChar, path) && QueryGroup(after).Some?
    ensures PathGroup(s) == Some(QueryGroup(after).value.(path := path))
  {
    path, after := GreedyTook(PathChar, 0, s[1..], AfterPath);
    assert s == "/" + path + after;
  }

  lemma {:induction false} PortTaken(s: string) returns (port: string, after: string)
    requires s != "" && s[0] == ':' && Greedy(Digit, 1, s[1..], |s| - 1, AfterPort).Some?
    ensures s == ":" + port + after && port != "" && All(Digit, port) && PathGroup(after).Some?
    ensures PortGroup(s) == Some(PathGroup(after).value.(port := port))
  {
    port, after := GreedyTook(Digit, 1, s[1..], AfterPort);
    assert s == ":" + port + after;
  }

  lemma PathInFront(u: Url, path: string)
    ensures "/" + path + QueryText(u) == PathText(u.(path := path), true)
  {
    SameQuery(u.(path := path), u);
  }

  lemma PortInFront(u: Url, port: string, slash: bool)
    requires port != ""
    ensures ":" + port + PathText(u, slash) == PortText(u.(port := port), slash)
  {
    SamePath(u.(port := port), u, slash);
  }

  lemma {:induction false} PathGroupIsSound(s: string) returns (slash: bool)
    requires PathGroup(s).Some?
    ensures var u := PathGroup(s).value;
            && u == EMPTY.(path := u.path, query := u.query, fragment := u.fragment)
            && All(PathChar, u.path) && All(QueryChar, u.query) && All(Dot, u.fragment)
            && s == PathText(u, slash) && (slash || u.path == "")
  {
    slash := s != "" && s[0] == '/' && Greedy(PathChar, 0, s[1..], |s| - 1, AfterPath).Some?;
    if slash {
      var path, after := PathTaken(s);
      QueryGroupIsSound(after);
      PathInFront(QueryGroup(after).value, path);
    } else {
      QueryGroupIsSound(s);
    }
  }

  lemma {:induction false} PortGroupIsSound(s: string) returns (slash: bool)
    requires PortGroup(s).Some?
    ensures var u := PortGroup(s).value;
            && u == TailOf(u) && u.host == ""
            && All(Digit, u.port) && All(PathChar, u.path) && All(QueryChar, u.query) && All(Dot, u.fragment)
            && s == PortText(u, slash) && (slash || u.path == "")
  {
    if s != "" && s[0] == ':' && Greedy(Digit, 1, s[1..], |s| - 1, AfterPort).Some? {
      var port, after := PortTaken(s);
      slash := PathGroupIsSound(after);
      PortInFront(PathGroup(after).value, port, slash);
    } else {
      slash := PathGroupIsSound(s);
      assert PortText(PathGroup(s).value, slash) == s;
    }
  }

  /** Only texts of this form parse. */
  lemma {:induction false} HostPartIsSound(s: string) returns (slash: bool)
    requires HostPart(s).Some?
    ensures var u := HostPart(s).value;
            u == TailOf(u) && TailOk(u) && s == Tail(u, slash) && (slash || u.path == "")
  {
    var host, after := GreedyTook(HostChar, 1, s, AfterHost);
    slash := PortGroupIsSound(after);
    var u := PortGroup(after).value.(host := host);
    assert PortText(u, slash) == after;
  }

  // ---------------------------------------------------------------------
  // The grammar, without a parser

  ghost predicate IsTail(s: string) {
    exists u, slash :: TailOk(u) && (slash || u.path == "") && s == Tail(u, slash)
  }

  /** s[..p] can be the user information. */
  ghost predicate UserSplit(s: string, p: nat) {
    0 < p < |s| && All(Dot, s[..p]) && s[p] == '@' && IsTail(s[p + 1..])
  }

  ghost predicate IsRest(s: string) {
    IsTail(s) || exists p :: UserSplit(s, p)
  }

  /** s[..n] can be the scheme. */
  ghost predicate SchemeSplit(s: string, n: nat) {
    n + 3 <= |s| && All(Dot, s[..n]) && s[n..n + 3] == "://" && IsRest(s[n + 3..])
  }

  ghost predicate NoUserAfter(s: string, p: nat) {
    forall j: nat :: p < j ==> !UserSplit(s, j)
  }

  ghost predicate NoSchemeAfter(s: string, n: nat) {
    forall j: nat :: n < j ==> !SchemeSplit(s, j)
  }

  ghost predicate NoScheme(s: string) {
    forall j: nat :: !SchemeSplit(s, j)
  }

  lemma HostPartIff(s: string)
    ensures HostPart(s).Some? <==> IsTail(s)
  {
    if HostPart(s).Some? {
      var slash := HostPartIsSound(s);
      assert s == Tail(HostPart(s).value, slash);
    }
    if IsTail(s) {
      var u, slash :| TailOk(u) && (slash || u.path == "") && s == Tail(u, slash);
      HostPartMatches(u, slash);
    }
  }

  lemma UserSplitIff(s: string, p: nat)
    requires 0 < p <= |s|
    ensures Works(Dot, s, p, AfterUser) <==> UserSplit(s, p)
  {
    if p < |s| {
      assert s[p..][0] == s[p] && s[p..][1..] == s[p + 1..];
      HostPartIff(s[p + 1..]);
    }
  }

  lemma {:induction false} Last(p: nat -> bool, n: nat, j: nat) returns (m: nat)
    requires j <= n && p(j)
    ensures j <= m <= n && p(m) && forall i :: m < i <= n ==> !p(i)
  {
    if p(n) {
      m := n;
    } else {
      m := Last(p, n - 1, j);
    }
  }

  lemma FindUser(s: string) returns (p: nat)
    ensures NoUserAfter(s, p)
    ensures p > 0 ==> UserSplit(s, p)
  {
    p := 0;
    if j: nat :| UserSplit(s, j) {
      ghost var split := (i: nat) => UserSplit(s, i);
      p := Last(split, |s|, j);
      forall i: nat | p < i
        ensures !UserSplit(s, i)
      {
        if i <= |s| {
          assert !split(i);
        }
      }
    }
  }

  lemma UserGroupTakes(s: string, p: nat)
    requires UserSplit(s, p) && NoUserAfter(s, p)
    ensures HostPart(s[p + 1..]).Some?
    ensures UserGroup(s) == Some(HostPart(s[p + 1..]).value.(userinfo := s[..p]))
  {
    HostPartIff(s[p + 1..]);
    UserSplitIff(s, p);
    forall j | p < j <= |s|
      ensures !Works(Dot, s, j, AfterUser)
    {
      UserSplitIff(s, j);
    }
    GreedyFindsLongest(Dot, 1, s, |s|, AfterUser, p);
    assert s[p..][1..] == s[p + 1..];
  }

  lemma UserGroupSkips(s: string)
    requires NoUserAfter(s, 0)
    ensures UserGroup(s) == HostPart(s)
  {
    forall j | 1 <= j <= |s|
      ensures !Works(Dot, s, j, AfterUser)
    {
      UserSplitIff(s, j);
    }
    GreedyFails(Dot, 1, s, |s|, AfterUser);
  }

  /** The user information ends at the last possible place; p is 0 when there is none. */
  lemma UserGroupFollows(s: string) returns (p: nat)
    ensures NoUserAfter(s, p)
    ensures p == 0 ==> UserGroup(s) == HostPart(s)
    ensures p > 0 ==> UserSplit(s, p) && HostPart(s[p + 1..]).Some?
    ensures p > 0 ==> UserGroup(s) == Some(HostPart(s[p + 1..]).value.(userinfo := s[..p]))
  {
    p := FindUser(s);
    if p == 0 {
      UserGroupSkips(s);
    } else {
      UserGroupTakes(s, p);
    }
  }

  lemma UserGroupIff(s: string)
    ensures UserGroup(s).Some? <==> IsRest(s)
  {
    var p := UserGroupFollows(s);
    HostPartIff(s);
  }

  lemma SchemeSplitIff(s: string, n: nat)
    requires n <= |s|
    ensures Works(Dot, s, n, AfterScheme) <==> SchemeSplit(s, n)
  {
    if n + 3 <= |s| {
      assert s[n..][..3] == s[n..n + 3] && s[n..][3..] == s[n + 3..];
      UserGroupIff(s[n + 3..]);
    }
  }

  lemma SchemeTakes(s: string, n: nat)
    requires SchemeSplit(s, n) && NoSchemeAfter(s, n)
    ensures UserGroup(s[n + 3..]).Some?
    ensures ToUrl(s) == Some(UserGroup(s[n + 3..]).value.(scheme := s[..n]))
  {
    UserGroupIff(s[n + 3..]);
    SchemeSplitIff(s, n);
    forall j | n < j <= |s|
      ensures !Works(Dot, s, j, AfterScheme)
    {
      SchemeSplitIff(s, j);
    }
    GreedyFindsLongest(Dot, 0, s, |s|, AfterScheme, n);
    assert s[n..][..3] == s[n..n + 3] && s[n..][3..] == s[n + 3..];
  }

  lemma FindScheme(s: string) returns (taken: bool, n: nat)
    ensures !taken ==> NoScheme(s)
    ensures taken ==> SchemeSplit(s, n) && NoSchemeAfter(s, n)
  {
    taken, n := false, 0;
    if j: nat :| SchemeSplit(s, j) {
      ghost var split := (i: nat) => SchemeSplit(s, i);
      taken := true;
      n := Last(split, |s|, j);
      forall i: nat | n < i
        ensures !SchemeSplit(s, i)
      {
        if i <= |s| {
          assert !split(i);
        }
      }
    }
  }

  lemma SchemeSkips(s: string)
    requires NoScheme(s)
    ensures ToUrl(s) == UserGroup(s)
  {
    forall j | 0 <= j <= |s|
      ensures !Works(Dot, s, j, AfterScheme)
    {
      SchemeSplitIff(s, j);
    }
    GreedyFails(Dot, 0, s, |s|, AfterScheme);
  }

  /** The scheme ends at the last possible place, if there is one. */
  lemma ToUrlFollows(s: string) returns (taken: bool, n: nat)
    ensures !taken ==> NoScheme(s) && ToUrl(s) == UserGroup(s)
    ensures taken ==> SchemeSplit(s, n) && NoSchemeAfter(s, n) && UserGroup(s[n + 3..]).Some?
    ensures taken ==> ToUrl(s) == Some(UserGroup(s[n + 3..]).value.(scheme := s[..n]))
  {
    taken, n := FindScheme(s);
    if taken {
      SchemeTakes(s, n);
    } else {
      SchemeSkips(s);
    }
  }

  /** Which texts are accepted. */
  lemma AcceptedIff(s: string)
    ensures ToUrl(s).Some? <==> IsRest(s) || exists n: nat :: SchemeSplit(s, n)
  {
    var taken, n := ToUrlFollows(s);
    UserGroupIff(s);
  }

  // ---------------------------------------------------------------------
  // Round trips

  function SchemeText(u: Url): string { if u.scheme == "" then "" else u.scheme + "://" }

  function UserText(u: Url): string { if u.userinfo == "" then "" else u.userinfo + "@" }

  function RestText(u: Url): string { UserText(u) + Tail(u, true) }

  lemma Associative(a: string, b: string, c: string)
    ensures a + (b + c) == a + b + c
  {
  }

  // everything before the path, and everything from it on
  function HeadText(u: Url): string { UserText(u) + u.host + Part(":", u.port) }

  lemma RestOfHead(u: Url, slash: bool)
    ensures UserText(u) + Tail(u, slash) == HeadText(u) + PathText(u, slash)
  {
    Associative(u.host, Part(":", u.port), PathText(u, slash));
    Associative(UserText(u), u.host + Part(":", u.port), PathText(u, slash));
    Associative(UserText(u), u.host, Part(":", u.port));
  }

  lemma ConnectionText(u: Url)
    ensures GetConnectionString(u) == SchemeText(u) + HeadText(u)
  {
    var withUser := UserText(u) + u.host;
    var withScheme := SchemeText(u) + withUser;
    assert u.userinfo == "" ==> withUser == u.host;
    assert u.scheme == "" ==> withScheme == withUser;
    Associative(SchemeText(u), withUser, Part(":", u.port));
    if u.port == "" {
      assert withScheme + "" == withScheme;
    } else {
      Associative(withScheme, ":", u.port);
    }
  }

  lemma StringOfParts(u: Url)
    ensures GetString(u) == SchemeText(u) + RestText(u)
  {
    RestOfHead(u, true);
    WholePathText(u);
    ConnectionText(u);
    Associative(SchemeText(u), HeadText(u), PathText(u, true));
  }

  lemma WholePathText(u: Url)
    ensures GetWholePath(u) == PathText(u, true)
  {
    Associative("/" + u.path, Part("?", u.query), Part("#", u.fragment));
  }

  /** The printed text, written out. */
  lemma PrintedForm(u: Url)
    ensures GetString(u)
            == (if u.scheme == "" then "" else u.scheme + "://")
               + ((if u.userinfo == "" then "" else u.userinfo + "@") + u.host
                  + (if u.port == "" then "" else ":" + u.port))
               + ("/" + u.path
                  + ((if u.query == "" then "" else "?" + u.query)
                     + (if u.fragment == "" then "" else "#" + u.fragment)))
  {
    ConnectionText(u);
    WholePathText(u);
  }

  /** Nothing in the printed text can be mistaken for a later end of the scheme or of the user information:
      no later "://" or "@" is followed by text that is itself of the remaining form. */
  ghost predicate Unambiguous(u: Url) {
    && NoUserAfter(RestText(u), |u.userinfo|)
    && (if u.scheme == "" then NoScheme(GetString(u)) else NoSchemeAfter(GetString(u), |u.scheme|))
  }

  ghost predicate WellFormed(u: Url) {
    TailOk(u) && All(Dot, u.scheme) && All(Dot, u.userinfo)
  }

  lemma AllIff(cls: char -> bool, s: string)
    ensures All(cls, s) <==> forall c :: c in s ==> cls(c)
  {
    if All(cls, s) {
      forall c | c in s
        ensures cls(c)
      {
        var i :| 0 <= i < |s| && s[i] == c;
      }
    } else {
      var i :| 0 <= i < |s| && !cls(s[i]);
      assert s[i] in s;
    }
  }

  /** The characters that each part may have. */
  lemma WellFormedIff(u: Url)
    ensures WellFormed(u) <==>
              && (forall c :: c in u.scheme || c in u.userinfo || c in u.fragment ==> c != '\n' && c != '\r')
              && u.host != "" && (forall c :: c in u.host ==> c != '/' && c != '?' && c != '#' && c != ':')
              && (forall c :: c in u.port ==> '0' <= c <= '9')
              && (forall c :: c in u.path ==> c != '?' && c != '#')
              && (forall c :: c in u.query ==> c != '#')
  {
    AllIff(Dot, u.scheme);
    AllIff(Dot, u.userinfo);
    AllIff(Dot, u.fragment);
    AllIff(HostChar, u.host);
    AllIff(Digit, u.port);
    AllIff(PathChar, u.path);
    AllIff(QueryChar, u.query);
  }

  lemma RestParses(u: Url)
    requires TailOk(u) && All(Dot, u.userinfo)
    requires NoUserAfter(RestText(u), |u.userinfo|)
    ensures IsRest(RestText(u))
    ensures UserGroup(RestText(u)) == Some(u.(scheme := ""))
  {
    HostPartMatches(u, true);
    HostPartIff(Tail(u, true));
    var s, p := RestText(u), |u.userinfo|;
    if u.userinfo == "" {
      assert s == Tail(u, true);
      UserGroupSkips(s);
    } else {
      assert s[..p] == u.userinfo && s[p] == '@' && s[p + 1..] == Tail(u, true);
      assert UserSplit(s, p);
      UserGroupTakes(s, p);
    }
  }

  lemma UnambiguousParses(u: Url)
    requires WellFormed(u) && Unambiguous(u)
    ensures ToUrl(GetString(u)) == Some(u)
  {
    StringOfParts(u);
    RestParses(u);
    var s, n := GetString(u), |u.scheme|;
    if u.scheme == "" {
      assert s == RestText(u);
      SchemeSkips(s);
    } else {
      assert s[..n] == u.scheme && s[n..n + 3] == "://" && s[n + 3..] == RestText(u);
      SchemeTakes(s, n);
    }
  }

  // what the parser returns, printed, is longer than what it was given by at most the slash
  lemma RestLength(s: string)
    requires UserGroup(s).Some?
    ensures var u := UserGroup(s).value;
            u.scheme == "" && TailOk(u) && All(Dot, u.userinfo) && |RestText(u)| <= |s| + 1
  {
    var p := UserGroupFollows(s);
    if p == 0 {
      var slash := HostPartIsSound(s);
    } else {
      var slash := HostPartIsSound(s[p + 1..]);
    }
  }

  lemma ParsedRestIsUnambiguous(u: Url)
    requires UserGroup(RestText(u)) == Some(u.(scheme := ""))
    ensures NoUserAfter(RestText(u), |u.userinfo|)
  {
    var p := UserGroupFollows(RestText(u));
    if p == 0 {
      var slash := HostPartIsSound(RestText(u));
    }
  }

  // where the scheme of a printed URL ends, if it ends early enough
  lemma SchemeEnds(scheme: string, rest: string, s: string, n: nat)
    requires n + 3 <= |s| && scheme == s[..n] && |rest| <= |s| - n - 2
    requires s == (if scheme == "" then "" else scheme + "://") + rest
    ensures scheme != "" && s[n + 3..] == rest
  {
  }

  lemma ParsedRestOfScheme(u: Url, n: nat)
    requires n + 3 <= |GetString(u)| && UserGroup(GetString(u)[n + 3..]).Some?
    requires u == UserGroup(GetString(u)[n + 3..]).value.(scheme := GetString(u)[..n])
    ensures u.scheme != "" && GetString(u)[n + 3..] == RestText(u)
    ensures UserGroup(RestText(u)) == Some(u.(scheme := ""))
  {
    var s := GetString(u);
    RestLength(s[n + 3..]);
    SameRest(u, UserGroup(s[n + 3..]).value);
    StringOfParts(u);
    SchemeEnds(u.scheme, RestText(u), s, n);
  }

  lemma ParsedRest(u: Url)
    requires ToUrl(GetString(u)) == Some(u)
    ensures All(Dot, u.scheme)
    ensures UserGroup(RestText(u)) == Some(u.(scheme := ""))
    ensures if u.scheme == "" then NoScheme(GetString(u)) else NoSchemeAfter(GetString(u), |u.scheme|)
  {
    var taken, n := ToUrlFollows(GetString(u));
    if taken {
      ParsedRestOfScheme(u, n);
    } else {
      RestLength(GetString(u));
      StringOfParts(u);
      assert GetString(u) == RestText(u);
    }
  }

  lemma SameRest(u: Url, v: Url)
    requires v == u.(scheme := "")
    ensures RestText(u) == RestText(v)
  {
  }

  lemma ParsedIsUnambiguous(u: Url)
    requires ToUrl(GetString(u)) == Some(u)
    ensures WellFormed(u) && Unambiguous(u)
  {
    ParsedRest(u);
    ParsedRestIsUnambiguous(u);
    RestLength(RestText(u));
  }

  /** A URL survives printing and parsing exactly when its parts are of the right characters and none of the
      text after a part can be mistaken for its end. */
  lemma RoundTripIff(u: Url)
    ensures ToUrl(GetString(u)) == Some(u) <==> WellFormed(u) && Unambiguous(u)
  {
    if WellFormed(u) && Unambiguous(u) {
      UnambiguousParses(u);
    }
    if ToUrl(GetString(u)) == Some(u) {
      ParsedIsUnambiguous(u);
    }
  }

  predicate Occurs(mark: string, s: string, i: nat) {
    i + |mark| <= |s| && s[i..i + |mark|] == mark
  }

  lemma OccursInSuffix(mark: string, a: string, b: string, i: nat)
    requires |a| <= i && Occurs(mark, a + b, i)
    ensures Occurs(mark, b, i - |a|)
  {
    assert (a + b)[i..i + |mark|] == b[i - |a|..i - |a| + |mark|];
  }

  lemma NoLateScheme(u: Url, n: nat)
    requires forall i: nat :: !Occurs("://", RestText(u), i)
    requires SchemeSplit(GetString(u), n)
    ensures u.scheme != "" && n <= |u.scheme|
  {
    StringOfParts(u);
    var s := GetString(u);
    if |SchemeText(u)| <= n {
      OccursInSuffix("://", SchemeText(u), RestText(u), n);
    } else {
      assert s[n..n + 3][0] == ':';
      assert s[n] == SchemeText(u)[n];
    }
  }

  /** In particular when "@" occurs at most before the host, and "://" at most after the scheme. */
  lemma PlainRoundTrip(u: Url)
    requires forall c :: c in u.scheme || c in u.userinfo || c in u.fragment ==> c != '\n' && c != '\r'
    requires u.host != "" && forall c :: c in u.host ==> c != '/' && c != '?' && c != '#' && c != ':'
    requires forall c :: c in u.port ==> '0' <= c <= '9'
    requires forall c :: c in u.path ==> c != '?' && c != '#'
    requires forall c :: c in u.query ==> c != '#'
    requires '@' !in u.host && '@' !in u.path && '@' !in u.query && '@' !in u.fragment
    requires forall i: nat :: !Occurs("://", RestText(u), i)
    ensures ToUrl(GetString(u)) == Some(u)
  {
    WellFormedIff(u);
    PlainIsUnambiguous(u);
    UnambiguousParses(u);
  }

  lemma PlainIsUnambiguous(u: Url)
    requires WellFormed(u)
    requires '@' !in u.host && '@' !in u.path && '@' !in u.query && '@' !in u.fragment
    requires forall i: nat :: !Occurs("://", RestText(u), i)
    ensures Unambiguous(u)
  {
    forall p: nat | |u.userinfo| < p
      ensures !UserSplit(RestText(u), p)
    {
      if p < |RestText(u)| {
        NoLateAt(u, p);
      }
    }
    forall n: nat | SchemeSplit(GetString(u), n)
      ensures u.scheme != "" && n <= |u.scheme|
    {
      NoLateScheme(u, n);
    }
  }

  lemma NoLateAt(u: Url, p: nat)
    requires TailOk(u)
    requires '@' !in u.host && '@' !in u.path && '@' !in u.query && '@' !in u.fragment
    requires |u.userinfo| < p < |RestText(u)|
    ensures RestText(u)[p] != '@'
  {
    var k := |UserText(u)|;
    assert p >= k && RestText(u)[p] == Tail(u, true)[p - k];
    assert RestText(u)[p] in Tail(u, true);
    assert '@' !in u.port;
    assert '@' !in Part(":", u.port) && '@' !in "/" + u.path && '@' !in QueryText(u);
  }

  /** A URL with "@" in its path, "h/a@b", does not survive: the text before it becomes user information. */
  lemma AtInPathIsMisread()
    ensures ToUrl("h/a@b") == Some(EMPTY.(userinfo := "h/a", host := "b"))
  {
    var s, v := "h/a@b", EMPTY.(host := "b");
    assert s[0] == 'h' && s[1] == '/' && s[2] == 'a' && s[3] == '@' && s[4] == 'b' && |s| == 5;
    assert s[..3] == "h/a" && s[4..] == "b" == Tail(v, false);
    HostPartMatches(v, false);
    UserGroupTakes(s, 3);
    NoColonNoScheme(s);
    SchemeSkips(s);
  }

  lemma NoColonNoScheme(s: string)
    requires ':' !in s
    ensures NoScheme(s)
  {
    forall n: nat
      ensures !SchemeSplit(s, n)
    {
      if n + 3 <= |s| {
        assert s[n..n + 3][0] == s[n] && s[n] in s;
      }
    }
  }

  lemma AtInPathIsPrinted()
    ensures GetString(EMPTY.(host := "h", path := "a@b")) == "h/a@b"
  {
    StringOfParts(EMPTY.(host := "h", path := "a@b"));
  }
}
