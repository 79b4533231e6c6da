/** Printing a parsed URL gives a normal form of the text: parsing it again yields the same URL. */
module UrlNormalForm {
  import opened Statuses
  import opened Urls

  lemma TailStartsWithHost(s: string)
    requires IsTail(s)
    ensures s != "" && HostChar(s[0])
  {
    var u, slash :| TailOk(u) && (slash || u.path == "") && s == Tail(u, slash);
    assert s[0] == u.host[0];
  }

  // where printing inserts the slash that a parsed text may lack
  function SlashAt(u: Url): nat { |HeadText(u)| }

  // the text as parsed, without the slash
  function Bare(u: Url): string { UserText(u) + Tail(u, false) }

  lemma SlashInserted(u: Url)
    requires u.path == ""
    ensures Slashed(Bare(u), RestText(u), HeadText(u), QueryText(u))
  {
    RestOfHead(u, false);
    RestOfHead(u, true);
    assert PathText(u, false) == QueryText(u) && PathText(u, true) == "/" + QueryText(u);
    Associative(HeadText(u), "/", QueryText(u));
  }

  lemma InFourParts(a: string, b: string, c: string, d: string, i: nat)
    requires i < |a + b + c|
    ensures (a + (b + (c + d)))[i]
            == if i < |a| then a[i] else if i < |a| + |b| then b[i - |a|] else c[i - |a| - |b|]
  {
  }

  // characters of RestText up to the inserted slash: the user information and its "@" ...
  lemma InUser(u: Url, i: nat)
    requires i < |UserText(u)|
    ensures i < |RestText(u)|
    ensures RestText(u)[i] == if i < |u.userinfo| then u.userinfo[i] else '@'
  {
  }

  // ... then the host, the ":" and the port
  lemma InHostOrPort(u: Url, i: nat)
    requires TailOk(u) && |UserText(u)| <= i < SlashAt(u)
    ensures i < |RestText(u)| && RestText(u)[i] != '/'
    ensures |UserText(u)| + |u.host| <= i ==> RestText(u)[i] != '@'
    ensures RestText(u)[i] == ':' ==> i == |UserText(u)| + |u.host|
  {
    InFourParts(UserText(u), u.host, Part(":", u.port), PathText(u, true), i);
    assert RestText(u) == UserText(u) + (u.host + (Part(":", u.port) + PathText(u, true)));
  }

  lemma AfterSlash(u: Url)
    requires u.path == "" && SlashAt(u) + 1 < |RestText(u)|
    ensures RestText(u)[SlashAt(u) + 1] != '/'
  {
    SlashInserted(u);
    TextStarts(u, true);
    assert RestText(u)[SlashAt(u) + 1] == QueryText(u)[0];
  }

  // w is x with a slash inserted behind head
  ghost predicate Slashed(x: string, w: string, head: string, after: string) {
    x == head + after && w == head + "/" + after
  }

  // up to some place behind the slash
  lemma WithoutSlash(x: string, w: string, head: string, after: string, n: nat)
    requires Slashed(x, w, head, after) && |head| < n <= |w| && All(Dot, w[..n])
    ensures n - 1 <= |x| && All(Dot, x[..n - 1]) && x[n - 1..] == w[n..]
  {
    var y, z := x[..n - 1], w[..n];
    forall i | 0 <= i < |y|
      ensures Dot(y[i])
    {
      assert y[i] == z[if i < |head| then i else i + 1];
    }
  }

  lemma UserSplitAfterSlash(x: string, w: string, head: string, after: string, p: nat)
    requires Slashed(x, w, head, after) && 0 < |head| < p && UserSplit(w, p)
    ensures UserSplit(x, p - 1)
  {
    WithoutSlash(x, w, head, after, p);
    assert x[p - 1] == w[p];
    assert x[p..] == w[p + 1..];
  }

  lemma HostSplits(u: Url, slash: bool, i: nat)
    requires i < |u.host|
    ensures UserText(u) + Tail(u, slash)
            == (UserText(u) + u.host[..i]) + [u.host[i]] + (u.host[i + 1..] + PortText(u, slash))
  {
    assert u.host == u.host[..i] + [u.host[i]] + u.host[i + 1..];
  }

  lemma Middle(before: string, c: char, after: string)
    ensures (before + [c] + after)[..|before|] == before
    ensures (before + [c] + after)[|before|] == c
    ensures (before + [c] + after)[|before| + 1..] == after
  {
  }

  // the host may start later, unless nothing of it is left
  lemma ShorterHost(u: Url, rest: string)
    requires TailOk(u) && u.path == "" && All(HostChar, rest) && IsTail(rest + PortText(u, true))
    ensures IsTail(rest + PortText(u, false))
  {
    TextStarts(u, true);
    assert rest == "" ==> rest + PortText(u, true) == PortText(u, true);
    TailStartsWithHost(rest + PortText(u, true));
    var v := u.(host := rest);
    SameParts(u, v);
    assert TailOk(v) && rest + PortText(u, false) == Tail(v, false);
  }

  lemma SameParts(u: Url, v: Url)
    requires u == v.(host := u.host)
    ensures PortText(u, false) == PortText(v, false)
  {
  }

  // an "@" in the host
  lemma UserSplitInHost(u: Url, p: nat)
    requires TailOk(u) && u.path == "" && |UserText(u)| <= p < |UserText(u)| + |u.host| && UserSplit(RestText(u), p)
    ensures UserSplit(Bare(u), p)
  {
    var i := p - |UserText(u)|;
    var before, rest := UserText(u) + u.host[..i], u.host[i + 1..];
    HostSplits(u, true, i);
    HostSplits(u, false, i);
    Middle(before, u.host[i], rest + PortText(u, true));
    Middle(before, u.host[i], rest + PortText(u, false));
    ShorterHost(u, rest);
  }

  // an "@" behind the user information but before the slash is in the host
  lemma AtIsInHost(u: Url, p: nat)
    requires TailOk(u) && u.path == "" && |u.userinfo| < p <= SlashAt(u)
    requires p < |RestText(u)| && RestText(u)[p] == '@'
    ensures |UserText(u)| <= p < |UserText(u)| + |u.host|
  {
    if p < SlashAt(u) {
      InHostOrPort(u, p);
    } else {
      SlashInserted(u);
      Middle(HeadText(u), '/', QueryText(u));
    }
  }

  lemma UserSplitBehindSlash(u: Url, p: nat)
    requires TailOk(u) && u.path == "" && SlashAt(u) < p && UserSplit(RestText(u), p)
    ensures UserSplit(Bare(u), p - 1)
  {
    SlashInserted(u);
    UserSplitAfterSlash(Bare(u), RestText(u), HeadText(u), QueryText(u), p);
  }

  lemma UserSplitBeforeSlash(u: Url, p: nat)
    requires TailOk(u) && u.path == "" && |u.userinfo| < p <= SlashAt(u) && UserSplit(RestText(u), p)
    ensures UserSplit(Bare(u), p)
  {
    AtIsInHost(u, p);
    UserSplitInHost(u, p);
  }

  // where a place of the printed text was before the slash was inserted
  function Before(u: Url, p: nat): nat { if SlashAt(u) < p then p - 1 else p }

  /** An "@" that could end the user information after the slash was inserted could before. */
  lemma UserSplitTransfers(u: Url, p: nat)
    requires TailOk(u) && u.path == "" && |u.userinfo| < p && UserSplit(RestText(u), p)
    ensures |u.userinfo| < Before(u, p) && UserSplit(Bare(u), Before(u, p))
  {
    if SlashAt(u) < p {
      UserSplitBehindSlash(u, p);
    } else {
      UserSplitBeforeSlash(u, p);
    }
  }

  // the remainder of a user information, up to its "@", can stand before the host
  lemma RestOfUserIsRest(u: Url, k: nat)
    requires TailOk(u) && u.path == "" && All(Dot, u.userinfo) && u.userinfo != "" && k <= |u.userinfo|
    ensures IsRest(Bare(u)[k..])
  {
    var x, left := Bare(u)[k..], u.userinfo[k..];
    assert x == left + ['@'] + Tail(u, false);
    Middle(left, '@', Tail(u, false));
    if left == "" {
      var v := u.(host := "@" + u.host);
      SameParts(u, v);
      Associative("@", u.host, PortText(u, false));
      assert TailOk(v) && x == Tail(v, false);
    } else {
      assert UserSplit(x, |left|);
    }
  }

  // where a "://" of the printed text lies with respect to the inserted slash
  lemma SchemeMarkPlaces(u: Url, k: nat)
    requires TailOk(u) && u.path == "" && Occurs("://", RestText(u), k)
    ensures SlashAt(u) < k || (u.userinfo != "" && k + 3 <= |u.userinfo|)
  {
    var w, q := RestText(u), SlashAt(u);
    SlashInserted(u);
    Middle(HeadText(u), '/', QueryText(u));
    assert w[k] == ':' && w[k + 1] == '/' && w[k + 2] == '/' by {
      assert w[k..k + 3][0] == ':' && w[k..k + 3][1] == '/' && w[k..k + 3][2] == '/';
    }
    if |UserText(u)| <= k < q {
      InHostOrPort(u, k);
      if k + 1 == q {
        AfterSlash(u);
      } else {
        InHostOrPort(u, k + 1);
      }
    } else if k < |UserText(u)| {
      MarkInUser(u, k);
    }
  }

  // a "://" that begins in the user information ends there
  lemma MarkInUser(u: Url, k: nat)
    requires TailOk(u) && k < |UserText(u)| && k + 2 < |RestText(u)|
    requires RestText(u)[k] == ':' && RestText(u)[k + 1] == '/' && RestText(u)[k + 2] == '/'
    ensures u.userinfo != "" && k + 3 <= |u.userinfo|
  {
    InUser(u, k);
    if k + 1 < |UserText(u)| {
      InUser(u, k + 1);
      if k + 2 < |UserText(u)| {
        InUser(u, k + 2);
      }
    }
  }

  lemma SchemeSplitAfterSlash(x: string, w: string, head: string, after: string, k: nat)
    requires Slashed(x, w, head, after) && |head| < k && SchemeSplit(w, k)
    ensures SchemeSplit(x, k - 1)
  {
    WithoutSlash(x, w, head, after, k);
    assert x[k - 1..k + 2] == w[k..k + 3];
    assert x[k + 2..] == w[k + 3..];
  }

  lemma SchemeSplitInUser(u: Url, k: nat)
    requires TailOk(u) && u.path == "" && All(Dot, u.userinfo) && SchemeSplit(RestText(u), k)
    requires u.userinfo != "" && k + 3 <= |u.userinfo|
    ensures SchemeSplit(Bare(u), k)
  {
    var x, w := Bare(u), RestText(u);
    RestOfUserIsRest(u, k + 3);
    assert x[..k] == u.userinfo[..k] && x[k..k + 3] == u.userinfo[k..k + 3] == w[k..k + 3];
  }

  lemma SchemeSplitPlaces(u: Url, k: nat)
    requires TailOk(u) && u.path == "" && SchemeSplit(RestText(u), k)
    ensures SlashAt(u) < k || (u.userinfo != "" && k + 3 <= |u.userinfo|)
  {
    SchemeMarkPlaces(u, k);
  }

  lemma SchemeSplitBehindSlash(u: Url, k: nat)
    requires TailOk(u) && u.path == "" && SlashAt(u) < k && SchemeSplit(RestText(u), k)
    ensures SchemeSplit(Bare(u), k - 1)
  {
    SlashInserted(u);
    SchemeSplitAfterSlash(Bare(u), RestText(u), HeadText(u), QueryText(u), k);
  }

  /** A "://" that could end the scheme after the slash was inserted could before. */
  lemma SchemeSplitTransfers(u: Url, k: nat)
    requires TailOk(u) && u.path == "" && All(Dot, u.userinfo) && SchemeSplit(RestText(u), k)
    ensures SchemeSplit(Bare(u), Before(u, k))
  {
    if SlashAt(u) < k {
      SchemeSplitBehindSlash(u, k);
    } else {
      SchemeSplitPlaces(u, k);
      SchemeSplitInUser(u, k);
    }
  }

  // a split does not depend on what precedes it
  lemma SchemeSplitDrop(before: string, rest: string, n: nat)
    requires |before| <= n && SchemeSplit(before + rest, n)
    ensures SchemeSplit(rest, n - |before|)
  {
    var s, k := before + rest, n - |before|;
    assert s[..n] == before + rest[..k] && s[n..n + 3] == rest[k..k + 3] && s[n + 3..] == rest[k + 3..];
    assert forall i :: 0 <= i < k ==> rest[..k][i] == s[..n][|before| + i];
  }

  lemma AllOfBoth(cls: char -> bool, a: string, b: string)
    requires All(cls, a) && All(cls, b)
    ensures All(cls, a + b)
  {
  }

  lemma SliceOfSuffix(before: string, rest: string, i: nat, j: nat)
    requires i <= j <= |rest|
    ensures (before + rest)[|before| + i..|before| + j] == rest[i..j]
  {
  }

  lemma SchemeSplitAdd(before: string, rest: string, k: nat)
    requires All(Dot, before) && SchemeSplit(rest, k)
    ensures SchemeSplit(before + rest, |before| + k)
  {
    var s, n := before + rest, |before| + k;
    assert s[..n] == before + rest[..k];
    AllOfBoth(Dot, before, rest[..k]);
    SliceOfSuffix(before, rest, k, k + 3);
    SliceOfSuffix(before, rest, k + 3, |rest|);
    assert s[n + 3..] == s[n + 3..|before| + |rest|] && rest[k + 3..] == rest[k + 3..|rest|];
  }

  lemma SameTail(u: Url, v: Url, slash: bool)
    requires TailOk(v) && TailOf(u) == TailOf(v)
    ensures TailOk(u) && Tail(u, slash) == Tail(v, slash)
  {
    assert PathText(u, slash) == PathText(v, slash);
    assert PortText(u, slash) == PortText(v, slash);
  }

  ghost predicate HasShape(s: string, u: Url, slash: bool) {
    u.scheme == "" && TailOk(u) && All(Dot, u.userinfo) && (slash || u.path == "") && s == UserText(u) + Tail(u, slash)
  }

  lemma RestAfterUser(s: string, p: nat, u: Url) returns (slash: bool)
    requires UserSplit(s, p) && HostPart(s[p + 1..]).Some?
    requires u == HostPart(s[p + 1..]).value.(userinfo := s[..p])
    ensures HasShape(s, u, slash) && |u.userinfo| == p
  {
    slash := HostPartIsSound(s[p + 1..]);
    SameTail(u, HostPart(s[p + 1..]).value, slash);
    CutAt(s, p, p + 1);
    assert s[p..p + 1] == "@";
  }

  lemma RestWithoutUser(s: string, u: Url) returns (slash: bool)
    requires HostPart(s) == Some(u)
    ensures HasShape(s, u, slash) && |u.userinfo| == 0
  {
    slash := HostPartIsSound(s);
    assert s == "" + s;
  }

  /** Text that parses without a scheme is its user information and tail, with or without the slash. */
  lemma RestShape(s: string, u: Url) returns (slash: bool)
    requires UserGroup(s) == Some(u)
    ensures HasShape(s, u, slash)
    ensures NoUserAfter(s, |u.userinfo|)
  {
    var p := UserGroupFollows(s);
    if p == 0 {
      slash := RestWithoutUser(s, u);
    } else {
      slash := RestAfterUser(s, p, u);
    }
  }

  lemma NoLaterUser(u: Url, slash: bool)
    requires TailOk(u) && (slash || u.path == "")
    requires NoUserAfter(UserText(u) + Tail(u, slash), |u.userinfo|)
    ensures NoUserAfter(RestText(u), |u.userinfo|)
  {
    if !slash {
      forall p: nat | |u.userinfo| < p
        ensures !UserSplit(RestText(u), p)
      {
        if UserSplit(RestText(u), p) {
          UserSplitTransfers(u, p);
        }
      }
    }
  }

  lemma SchemeSplitOfParsed(u: Url, slash: bool, k: nat) returns (m: nat)
    requires TailOk(u) && All(Dot, u.userinfo) && (slash || u.path == "") && SchemeSplit(RestText(u), k)
    ensures SchemeSplit(UserText(u) + Tail(u, slash), m)
  {
    m := k;
    if !slash {
      m := Before(u, k);
      SchemeSplitTransfers(u, k);
    }
  }

  // a scheme split of the printed text behind its scheme gives one of the parsed text
  lemma LaterSchemeTransfers(u: Url, before: string, slash: bool, k: nat) returns (m: nat)
    requires TailOk(u) && All(Dot, u.userinfo) && All(Dot, before) && (slash || u.path == "")
    requires SchemeSplit(RestText(u), k)
    ensures |before| <= m && SchemeSplit(before + (UserText(u) + Tail(u, slash)), m)
  {
    var i := SchemeSplitOfParsed(u, slash, k);
    SchemeSplitAdd(before, UserText(u) + Tail(u, slash), i);
    m := |before| + i;
  }

  // no "://" begins inside the scheme's own
  lemma NotInsideMark(u: Url, rest: string, n: nat)
    requires n < |SchemeText(u)| && SchemeSplit(SchemeText(u) + rest, n)
    ensures u.scheme != "" && n <= |u.scheme|
  {
    var s := SchemeText(u) + rest;
    assert s[n..n + 3][0] == s[n] == SchemeText(u)[n];
  }

  lemma SplitBehindScheme(u: Url, before: string, slash: bool, n: nat) returns (m: nat)
    requires TailOk(u) && All(Dot, u.userinfo) && All(Dot, before) && (slash || u.path == "")
    requires |SchemeText(u)| <= n && SchemeSplit(SchemeText(u) + RestText(u), n)
    ensures |before| <= m && SchemeSplit(before + (UserText(u) + Tail(u, slash)), m)
  {
    SchemeSplitDrop(SchemeText(u), RestText(u), n);
    m := LaterSchemeTransfers(u, before, slash, n - |SchemeText(u)|);
  }

  // no scheme split of s lies behind what precedes the rest
  ghost predicate NoSchemeBehind(s: string, before: string) {
    if before == "" then NoScheme(s) else NoSchemeAfter(s, |before| - 1)
  }

  lemma NoLaterScheme(u: Url, before: string, slash: bool, n: nat)
    requires TailOk(u) && All(Dot, u.userinfo) && All(Dot, before) && (slash || u.path == "")
    requires NoSchemeBehind(before + (UserText(u) + Tail(u, slash)), before)
    requires SchemeSplit(SchemeText(u) + RestText(u), n)
    ensures u.scheme != "" && n <= |u.scheme|
  {
    if |SchemeText(u)| <= n {
      var m := SplitBehindScheme(u, before, slash, n);
    } else {
      NotInsideMark(u, RestText(u), n);
    }
  }

  /** before is what precedes the rest in the parsed text, SchemeText(u) what precedes it when printed. */
  lemma PrintedIsUnambiguous(u: Url, before: string, rest: string)
    requires UserGroup(rest) == Some(u.(scheme := ""))
    requires All(Dot, before) && All(Dot, u.scheme) && NoSchemeBehind(before + rest, before)
    ensures WellFormed(u) && Unambiguous(u)
  {
    var slash := RestShape(rest, u.(scheme := ""));
    SameTail(u, u.(scheme := ""), slash);
    StringOfParts(u);
    NoLaterUser(u, slash);
    forall n: nat | SchemeSplit(GetString(u), n)
      ensures u.scheme != "" && n <= |u.scheme|
    {
      NoLaterScheme(u, before, slash, n);
    }
  }

  lemma CutAt(s: string, i: nat, j: nat)
    requires i <= j <= |s|
    ensures s == s[..i] + s[i..j] + s[j..]
  {
  }

  lemma CutAtScheme(s: string, n: nat)
    requires SchemeSplit(s, n)
    ensures s == s[..n] + "://" + s[n + 3..] && All(Dot, s[..n] + "://")
  {
    CutAt(s, n, n + 3);
    AllOfBoth(Dot, s[..n], "://");
  }

  lemma ParsedScheme(s: string, n: nat) returns (before: string, rest: string)
    requires SchemeSplit(s, n) && NoSchemeAfter(s, n) && UserGroup(s[n + 3..]).Some?
    requires ToUrl(s) == Some(UserGroup(s[n + 3..]).value.(scheme := s[..n]))
    ensures s == before + rest && before == s[..n] + "://" && rest == s[n + 3..]
    ensures UserGroup(rest) == Some(ToUrl(s).value.(scheme := ""))
    ensures All(Dot, before) && NoSchemeAfter(s, |before| - 1)
  {
    before, rest := s[..n] + "://", s[n + 3..];
    RestLength(rest);
    CutAtScheme(s, n);
  }

  lemma ParsedUnambiguously(s: string, u: Url)
    requires ToUrl(s) == Some(u)
    ensures WellFormed(u) && Unambiguous(u)
  {
    var taken, n := ToUrlFollows(s);
    if taken {
      var before, rest := ParsedScheme(s, n);
      PrintedIsUnambiguous(u, before, rest);
    } else {
      RestLength(s);
      assert "" + s == s;
      PrintedIsUnambiguous(u, "", s);
    }
  }

  /** For every text the parser accepts: printing what it returns, and parsing that, returns it again. */
  lemma PrintingNormalises(s: string)
    requires ToUrl(s).Some?
    ensures ToUrl(GetString(ToUrl(s).value)) == ToUrl(s)
  {
    ParsedUnambiguously(s, ToUrl(s).value);
    UnambiguousParses(ToUrl(s).value);
  }
}
