/** Token authentication followed by a claim check (src/microservice-essentials/security). */
module ClaimPipeline {
  import opened Statuses
  import opened ParentGraph
  import opened Metadata
  import opened Contexts
  import opened Words
  import opened Pipeline

  // decode_token, verify_token and extract_claim of a token hook; T is the decoded token
  datatype Scheme<!T> = Scheme(
    decode: string -> (Option<T>, string),
    verify: T -> (bool, string),
    extract: (T, string) -> Option<string>)

  function Unauth(details: string): Status { Status(Unauthenticated, details) }

  /** Every required claim erased and replaced by an empty one. */
  function Blanked(own: Multimap, claims: seq<string>): Multimap {
    if claims == [] then own
    else
      var m := Blanked(own, claims[..|claims| - 1]);
      WithEntry(WithoutKey(m, claims[|claims| - 1]), claims[|claims| - 1], "")
  }

  /** Required claims replaced, one after the other, by what the token says; stops at one it does not have. */
  function Filled<T>(scheme: Scheme<T>, token: T, own: Multimap, claims: seq<string>): (Multimap, Status)
    decreases |claims|
  {
    if claims == [] then (own, OK)
    else
      var m := WithoutKey(own, claims[0]);
      var v := scheme.extract(token, claims[0]);
      if v.None? then (m, Unauth("required claim not available: " + claims[0]))
      else Filled(scheme, token, WithEntry(m, claims[0], v.value), claims[1..])
  }

  /** pre_process of a token hook: the context's own metadata afterwards and the status. */
  function Authenticated<T>(
      scheme: Scheme<T>, tokenKey: string, claims: seq<string>, own: Multimap, above: seq<Multimap>)
    : (Multimap, Status)
  {
    var blank := Blanked(own, claims);
    var token := Nearest([blank] + above, tokenKey);
    if token.None? then (blank, Unauth("metadata key '" + tokenKey + "' is missing"))
    else
      var (decoded, decodingDetails) := scheme.decode(token.value);
      if decoded.None? then (blank, Unauth("unable to decode token: " + decodingDetails))
      else
        var (verified, verificationDetails) := scheme.verify(decoded.value);
        if !verified then (blank, Unauth("token verification failed: " + verificationDetails))
        else Filled(scheme, decoded.value, blank, claims)
  }

  class TokenAuthRequestHook<T> {
    const scheme: Scheme<T>
    const tokenMetadataKey: string
    const requiredClaims: seq<string>

    constructor (scheme: Scheme<T>, tokenMetadataKey: string, requiredClaims: seq<string>)
      ensures this.scheme == scheme && this.tokenMetadataKey == tokenMetadataKey
      ensures this.requiredClaims == requiredClaims
    {
      this.scheme, this.tokenMetadataKey, this.requiredClaims := scheme, tokenMetadataKey, requiredClaims;
    }

    method PreProcess(context: Context, ghost all: set<Context>, ghost rank: map<Context, nat>) returns (s: Status)
      requires context in all && Ranked(Parents(all), rank)
      modifies context`metadata
      ensures (context.metadata, s) == Authenticated(scheme, tokenMetadataKey, requiredClaims,
                                                     old(context.metadata), old(Above(all, rank, context)))
    {
      ghost var ancestors := Ancestors(Parents(all), rank, context);
      assert context !in ancestors;
      BlankClaims(context);
      assert Parents(all) == old(Parents(all)) && Held(ancestors) == old(Held(ancestors));
      assert Above(all, rank, context) == old(Above(all, rank, context));
      var present := context.Contains(tokenMetadataKey, all, rank);
      LookupAgreesWithFlattening(Chain(all, rank, context), tokenMetadataKey);
      if !present {
        return Unauth("metadata key '" + tokenMetadataKey + "' is missing");
      }
      var token := context.At(tokenMetadataKey, all, rank);
      var (decoded, decodingDetails) := scheme.decode(token.value);
      if decoded.None? {
        return Unauth("unable to decode token: " + decodingDetails);
      }
      var (verified, verificationDetails) := scheme.verify(decoded.value);
      if !verified {
        return Unauth("token verification failed: " + verificationDetails);
      }
      s := FillClaims(context, decoded.value);
    }

    method BlankClaims(context: Context)
      modifies context`metadata
      ensures context.metadata == Blanked(old(context.metadata), requiredClaims)
    {
      var claims := requiredClaims;
      for i := 0 to |claims|
        invariant context.metadata == Blanked(old(context.metadata), claims[..i])
      {
        assert claims[..i + 1][..i] == claims[..i];
        var _ := context.Erase(claims[i]);
        context.Insert(claims[i], "");
      }
      assert claims[..|claims|] == claims;
    }

    method FillClaims(context: Context, token: T) returns (s: Status)
      modifies context`metadata
      ensures (context.metadata, s) == Filled(scheme, token, old(context.metadata), requiredClaims)
    {
      var claims := requiredClaims;
      for i := 0 to |claims|
        invariant Filled(scheme, token, old(context.metadata), claims)
                  == Filled(scheme, token, context.metadata, claims[i..])
      {
        var _ := context.Erase(claims[i]);
        var value := scheme.extract(token, claims[i]);
        if value.None? {
          return Unauth("required claim not available: " + claims[i]);
        }
        context.Insert(claims[i], value.value);
        assert claims[i..][1..] == claims[i + 1..];
      }
      return OK;
    }
  }

  class ClaimCheckerRequestHook {
    const claim: string
    const value: string
    const failStatus: Status

    constructor (claim: string, value: string, failStatus: Status)
      ensures this.claim == claim && this.value == value && this.failStatus == failStatus
    {
      this.claim, this.value, this.failStatus := claim, value, failStatus;
    }

    method PreProcess(context: Context, ghost all: set<Context>, ghost rank: map<Context, nat>) returns (s: Status)
      requires context in all && Ranked(Parents(all), rank)
      ensures s == Checked(claim, value, failStatus, Chain(all, rank, context))
      ensures var found := Nearest(Chain(all, rank, context), claim);
              s == if found.Some? && value in Split(found.value) then OK else failStatus
    {
      LookupAgreesWithFlattening(Chain(all, rank, context), claim);
      var present := context.Contains(claim, all, rank);
      if !present {
        return failStatus;
      }
      var found := context.At(claim, all, rank);
      var listed := ContainsWord(found.value, value);
      if !listed {
        return failStatus;
      }
      return OK;
    }
  }

  /** pre_process of a claim check whose predicate looks for value in a space-separated list. */
  function Checked(claim: string, value: string, failStatus: Status, chain: seq<Multimap>): Status {
    var found := Nearest(chain, claim);
    if found.Some? && value in Split(found.value) then OK else failStatus
  }

  // ---------------------------------------------------------------------
  // Claims come from the token

  lemma {:induction false} BlankedValues(own: Multimap, claims: seq<string>, k: string)
    ensures Values(Blanked(own, claims), k) == if k in claims then [""] else Values(own, k)
  {
    if claims != [] {
      BlankedValues(own, claims[..|claims| - 1], k);
      assert k in claims <==> k in claims[..|claims| - 1] || k == claims[|claims| - 1];
    }
  }

  /** Position of the first required claim that the token lacks. */
  function FirstMissing<T>(scheme: Scheme<T>, token: T, claims: seq<string>): (i: nat)
    ensures i <= |claims| && (forall j :: 0 <= j < i ==> scheme.extract(token, claims[j]).Some?)
    ensures i < |claims| ==> scheme.extract(token, claims[i]).None?
  {
    if claims == [] || scheme.extract(token, claims[0]).None? then 0
    else 1 + FirstMissing(scheme, token, claims[1..])
  }

  lemma ReplacedValues(own: Multimap, claim: string, value: string, k: string)
    ensures Values(WithEntry(WithoutKey(own, claim), claim, value), k) == if k == claim then [value] else Values(own, k)
  {
  }

  /** What filling leaves under a key that held `was`: the token's claims up to the first missing one, which is
      erased. */
  function FilledIn<T>(scheme: Scheme<T>, token: T, claims: seq<string>, k: string, was: seq<string>): seq<string> {
    var n := FirstMissing(scheme, token, claims);
    if k in claims[..n] && scheme.extract(token, k).Some? then [scheme.extract(token, k).value]
    else if n < |claims| && k == claims[n] then []
    else was
  }

  lemma FilledInNext<T>(scheme: Scheme<T>, token: T, claims: seq<string>, k: string, was: seq<string>)
    requires claims != [] && scheme.extract(token, claims[0]).Some?
    ensures FilledIn(scheme, token, claims, k, was)
            == FilledIn(scheme, token, claims[1..], k,
                        if k == claims[0] then [scheme.extract(token, k).value] else was)
  {
    var n := FirstMissing(scheme, token, claims);
    assert claims[..n] == [claims[0]] + claims[1..][..n - 1];
  }

  lemma {:induction false} FilledValues<T>(scheme: Scheme<T>, token: T, own: Multimap, claims: seq<string>, k: string)
    ensures Filled(scheme, token, own, claims).1.IsOk() <==> FirstMissing(scheme, token, claims) == |claims|
    ensures Values(Filled(scheme, token, own, claims).0, k) == FilledIn(scheme, token, claims, k, Values(own, k))
    decreases |claims|
  {
    if claims != [] && scheme.extract(token, claims[0]).Some? {
      var v := scheme.extract(token, claims[0]).value;
      ReplacedValues(own, claims[0], v, k);
      FilledValues(scheme, token, WithEntry(WithoutKey(own, claims[0]), claims[0], v), claims[1..], k);
      FilledInNext(scheme, token, claims, k, Values(own, k));
    }
  }

  /** The token as the hook sees it: a token key that is itself a required claim has just been blanked. */
  function Presented(tokenKey: string, claims: seq<string>, own: Multimap, above: seq<Multimap>): Option<string> {
    if tokenKey in claims then Some("") else Nearest([own] + above, tokenKey)
  }

  /** The presented token, decoded, if it can be decoded and is verified. */
  function Accepted<T>(
      scheme: Scheme<T>, tokenKey: string, claims: seq<string>, own: Multimap, above: seq<Multimap>): Option<T>
  {
    var token := Presented(tokenKey, claims, own, above);
    if token.None? then None
    else
      var decoded := scheme.decode(token.value).0;
      if decoded.Some? && scheme.verify(decoded.value).0 then decoded else None
  }

  lemma PresentedIsFound(tokenKey: string, claims: seq<string>, own: Multimap, above: seq<Multimap>)
    ensures Nearest([Blanked(own, claims)] + above, tokenKey) == Presented(tokenKey, claims, own, above)
  {
    BlankedValues(own, claims, tokenKey);
    NearestOfFront(Blanked(own, claims), above, tokenKey);
    NearestOfFront(own, above, tokenKey);
  }

  /** pre_process as seen from outside: everything blanked, and filled if the token is accepted. */
  lemma AuthenticatedIs<T>(
      scheme: Scheme<T>, tokenKey: string, claims: seq<string>, own: Multimap, above: seq<Multimap>)
    ensures var token := Accepted(scheme, tokenKey, claims, own, above);
            var (after, s) := Authenticated(scheme, tokenKey, claims, own, above);
            if token.None? then after == Blanked(own, claims) && s.code == Unauthenticated
            else (after, s) == Filled(scheme, token.value, Blanked(own, claims), claims)
  {
    PresentedIsFound(tokenKey, claims, own, above);
  }

  /** After success every required claim, looked up from the context, is what the presented token says,
      whatever the context and its ancestors held before; other keys keep their values. */
  lemma ClaimsComeFromToken<T>(
      scheme: Scheme<T>, tokenKey: string, claims: seq<string>, own: Multimap, above: seq<Multimap>, k: string)
    requires Authenticated(scheme, tokenKey, claims, own, above).1.IsOk()
    ensures var token := Accepted(scheme, tokenKey, claims, own, above);
            var after := [Authenticated(scheme, tokenKey, claims, own, above).0] + above;
            && token.Some?
            && (k in claims ==> Nearest(after, k) == scheme.extract(token.value, k) && Nearest(after, k).Some?)
            && (k !in claims ==> Nearest(after, k) == Nearest([own] + above, k))
  {
    AuthenticatedIs(scheme, tokenKey, claims, own, above);
    var token := Accepted(scheme, tokenKey, claims, own, above).value;
    FilledValues(scheme, token, Blanked(own, claims), claims, k);
    BlankedValues(own, claims, k);
    NearestOfFront(Authenticated(scheme, tokenKey, claims, own, above).0, above, k);
    NearestOfFront(own, above, k);
  }

  lemma NearestOfFront(own: Multimap, above: seq<Multimap>, k: string)
    ensures Nearest([own] + above, k) == if Values(own, k) != [] then Some(Values(own, k)[0]) else Nearest(above, k)
  {
    assert ([own] + above)[1..] == above;
  }

  /** The claim is the first one that an accepted token lacks. */
  predicate FirstUnavailable<T(!new)>(
      scheme: Scheme<T>, tokenKey: string, claims: seq<string>, own: Multimap, above: seq<Multimap>, k: string)
  {
    var token := Accepted(scheme, tokenKey, claims, own, above);
    && token.Some?
    && var n := FirstMissing(scheme, token.value, claims);
    && n < |claims| && k == claims[n]
  }

  /** What a required claim is afterwards, on every path: the first one that an accepted token lacks is erased and
      not set again, so that the inherited value shows through; every other one is the token's or empty. */
  lemma InheritedClaimShowsIff<T(!new)>(
      scheme: Scheme<T>, tokenKey: string, claims: seq<string>, own: Multimap, above: seq<Multimap>, k: string)
    requires k in claims
    ensures var (after, s) := Authenticated(scheme, tokenKey, claims, own, above);
            var token := Accepted(scheme, tokenKey, claims, own, above);
            && (k !in after <==> FirstUnavailable(scheme, tokenKey, claims, own, above, k))
            && Nearest([after] + above, k)
               == (if FirstUnavailable(scheme, tokenKey, claims, own, above, k) then Nearest(above, k)
                   else if token.Some? && k in claims[..FirstMissing(scheme, token.value, claims)]
                   then scheme.extract(token.value, k)
                   else Some(""))
  {
    AuthenticatedIs(scheme, tokenKey, claims, own, above);
    BlankedValues(own, claims, k);
    NearestOfFront(Authenticated(scheme, tokenKey, claims, own, above).0, above, k);
    var token := Accepted(scheme, tokenKey, claims, own, above);
    if token.Some? {
      FilledValues(scheme, token.value, Blanked(own, claims), claims, k);
    }
  }

  lemma {:induction false} FilledStatus<T>(scheme: Scheme<T>, token: T, own: Multimap, claims: seq<string>)
    ensures var n := FirstMissing(scheme, token, claims);
            Filled(scheme, token, own, claims).1
            == if n == |claims| then OK else Status(Unauthenticated, "required claim not available: " + claims[n])
    decreases |claims|
  {
    if claims != [] && scheme.extract(token, claims[0]).Some? {
      var v := scheme.extract(token, claims[0]).value;
      FilledStatus(scheme, token, WithEntry(WithoutKey(own, claims[0]), claims[0], v), claims[1..]);
    }
  }

  /** What the caller is told, on every path. */
  lemma AuthenticationTells<T>(
      scheme: Scheme<T>, tokenKey: string, claims: seq<string>, own: Multimap, above: seq<Multimap>)
    ensures var s := Authenticated(scheme, tokenKey, claims, own, above).1;
            var token := Presented(tokenKey, claims, own, above);
            if token.None? then s == Status(Unauthenticated, "metadata key '" + tokenKey + "' is missing")
            else
              var (decoded, why) := scheme.decode(token.value);
              if decoded.None? then s == Status(Unauthenticated, "unable to decode token: " + why)
              else
                var (verified, whyNot) := scheme.verify(decoded.value);
                if !verified then s == Status(Unauthenticated, "token verification failed: " + whyNot)
                else
                  var n := FirstMissing(scheme, decoded.value, claims);
                  s == if n == |claims| then Status(Ok, "")
                       else Status(Unauthenticated, "required claim not available: " + claims[n])
  {
    PresentedIsFound(tokenKey, claims, own, above);
    var token := Presented(tokenKey, claims, own, above);
    if token.Some? && scheme.decode(token.value).0.Some? {
      FilledStatus(scheme, scheme.decode(token.value).0.value, Blanked(own, claims), claims);
    }
  }

  /** So it always is when an accepted token lacks a required claim: authentication fails, and looking up the first
      such claim yields what the ancestors hold, as if the hook had not blanked it. */
  lemma MissingClaimShows<T(!new)>(
      scheme: Scheme<T>, tokenKey: string, claims: seq<string>, own: Multimap, above: seq<Multimap>, i: nat)
    requires Accepted(scheme, tokenKey, claims, own, above).Some?
    requires i == FirstMissing(scheme, Accepted(scheme, tokenKey, claims, own, above).value, claims) < |claims|
    ensures var (after, s) := Authenticated(scheme, tokenKey, claims, own, above);
            s.code == Unauthenticated && Nearest([after] + above, claims[i]) == Nearest(above, claims[i])
  {
    var token := Accepted(scheme, tokenKey, claims, own, above).value;
    InheritedClaimShowsIff(scheme, tokenKey, claims, own, above, claims[i]);
    AuthenticatedIs(scheme, tokenKey, claims, own, above);
    FilledStatus(scheme, token, Blanked(own, claims), claims);
  }

  /** A hook of another kind than the basic one: its tokens are lists of scopes and carry nothing else. */
  function ScopesOnly(): Scheme<string> {
    Scheme(
      (t: string) => (Some(t), ""),
      (d: string) => (true, ""),
      (d: string, claim: string) => if claim == "scope" then Some(d) else None)
  }

  lemma ScopesOnlyLacksTenant(token: string)
    ensures FirstMissing(ScopesOnly(), token, ["scope", "tenant"]) == 1
  {
    assert ["scope", "tenant"][1..] == ["tenant"];
  }

  function Entry(k: string, v: string): Multimap { map[k := [v]] }

  /** If it requires a tenant besides the scope, a tenant that the parent context holds shows through. */
  lemma InheritedTenantShows()
    ensures var own, above := Entry("token", "read"), [Entry("tenant", "other")];
            var (after, s) := Authenticated(ScopesOnly(), "token", ["scope", "tenant"], own, above);
            s.code == Unauthenticated && Nearest([after] + above, "tenant") == Some("other")
  {
    var claims := ["scope", "tenant"];
    var own, above := Entry("token", "read"), [Entry("tenant", "other")];
    NearestOfFront(own, above, "token");
    assert Accepted(ScopesOnly(), "token", claims, own, above) == Some("read");
    ScopesOnlyLacksTenant("read");
    MissingClaimShows(ScopesOnly(), "token", claims, own, above, 1);
  }

  // ---------------------------------------------------------------------
  // The basic token hook

  // entries of valid_tokens_with_scope in iteration order
  type TokenTable = seq<(string, seq<string>)>

  predicate Registered(table: TokenTable, token: string) {
    exists i :: 0 <= i < |table| && table[i].0 == token
  }

  /** Scopes of the last entry for the token. */
  function LastScopes(table: TokenTable, token: string): seq<string> {
    if table == [] then []
    else if table[|table| - 1].0 == token then table[|table| - 1].1
    else LastScopes(table[..|table| - 1], token)
  }

  /** The scheme of the basic hook: a decoded token is the token with its joined scopes. */
  function Basic(table: TokenTable): Scheme<(string, string)> {
    Scheme(
      (t: string) => (Some((t, if Registered(table, t) then Join(LastScopes(table, t), " ") else "")), ""),
      (d: (string, string)) => if Registered(table, d.0) then (true, "") else (false, "invalid token"),
      (d: (string, string), claim: string) => if claim == "scope" then Some(d.1) else None)
  }

  /** The table of joined scopes: a later entry for a token replaces an earlier one. */
  function ScopesOf(table: TokenTable): map<string, string> {
    if table == [] then map[]
    else ScopesOf(table[..|table| - 1])[table[|table| - 1].0 := Join(table[|table| - 1].1, " ")]
  }

  lemma {:induction false} ScopesOfToken(table: TokenTable, t: string)
    ensures t in ScopesOf(table) <==> Registered(table, t)
    ensures t in ScopesOf(table) ==> ScopesOf(table)[t] == Join(LastScopes(table, t), " ")
  {
    if table != [] {
      var prefix, last := table[..|table| - 1], table[|table| - 1];
      ScopesOfToken(prefix, t);
      assert Registered(table, t) <==> Registered(prefix, t) || t == last.0 by {
        if i :| 0 <= i < |prefix| && prefix[i].0 == t {
          assert table[i].0 == t;
        }
        if i :| 0 <= i < |table| && table[i].0 == t {
          assert i < |prefix| ==> prefix[i].0 == t;
        }
      }
    }
  }

  /** A registered token has the scopes of its last entry. */
  lemma {:induction false} LastEntryDecides(table: TokenTable, i: nat)
    requires i < |table| && forall j :: i < j < |table| ==> table[j].0 != table[i].0
    ensures LastScopes(table, table[i].0) == table[i].1
    ensures table[i].0 in ScopesOf(table) && ScopesOf(table)[table[i].0] == Join(table[i].1, " ")
  {
    if i < |table| - 1 {
      LastEntryDecides(table[..|table| - 1], i);
    }
  }

  class BasicTokenAuthRequestHook {
    ghost const table: TokenTable
    var allValidTokens: set<string>
    var scopes: map<string, string>

    ghost predicate Valid()
      reads this
    {
      scopes == ScopesOf(table) && allValidTokens == scopes.Keys
    }

    constructor (table: TokenTable)
      ensures this.table == table && Valid()
    {
      this.table := table;
      allValidTokens, scopes := {}, map[];
      new;
      for i := 0 to |table|
        invariant scopes == ScopesOf(table[..i]) && allValidTokens == scopes.Keys
      {
        assert table[..i + 1][..i] == table[..i];
        allValidTokens := allValidTokens + {table[i].0};
        scopes := scopes[table[i].0 := Join(table[i].1, " ")];
      }
      assert table[..|table|] == table;
    }

    method DecodeToken(token: string) returns (decoded: Option<(string, string)>, details: string)
      requires Valid()
      ensures (decoded, details) == Basic(table).decode(token)
    {
      ScopesOfToken(table, token);
      var found := if token in scopes then scopes[token] else "";
      return Some((token, found)), "";
    }

    method VerifyToken(decoded: (string, string)) returns (verified: bool, details: string)
      requires Valid()
      ensures (verified, details) == Basic(table).verify(decoded)
    {
      ScopesOfToken(table, decoded.0);
      if decoded.0 in allValidTokens {
        return true, "";
      }
      return false, "invalid token";
    }

    method ExtractClaim(decoded: (string, string), claim: string) returns (value: Option<string>)
      ensures value == Basic(table).extract(decoded, claim)
    {
      if claim == "scope" {
        return Some(decoded.1);
      }
      return None;
    }
  }

  // ---------------------------------------------------------------------
  // Both hooks in the pipeline

  // the request context's own metadata and that of its ancestors
  datatype World = World(own: Multimap, above: seq<Multimap>)

  function AuthHook(table: TokenTable, tokenKey: string): Hook<World> {
    Hook(0,
         (w: World) => var (own, s) := Authenticated(Basic(table), tokenKey, ["scope"], w.own, w.above);
                       (Returned(s), w.(own := own)),
         (w: World, s: Status) => (Returned(s), w))
  }

  function ScopeHook(value: string, failStatus: Status): Hook<World> {
    Hook(1,
         (w: World) => (Returned(Checked("scope", value, failStatus, [w.own] + w.above)), w),
         (w: World, s: Status) => (Returned(s), w))
  }

  lemma BasicAuthentication(table: TokenTable, tokenKey: string, w: World)
    ensures var (own, s) := Authenticated(Basic(table), tokenKey, ["scope"], w.own, w.above);
            var token := Presented(tokenKey, ["scope"], w.own, w.above);
            && (s.IsOk() <==> token.Some? && Registered(table, token.value))
            && (s.IsOk() ==> Nearest([own] + w.above, "scope") == Some(Join(LastScopes(table, token.value), " ")))
  {
    AuthenticatedIs(Basic(table), tokenKey, ["scope"], w.own, w.above);
    var decoded := Accepted(Basic(table), tokenKey, ["scope"], w.own, w.above);
    if decoded.Some? {
      FilledValues(Basic(table), decoded.value, Blanked(w.own, ["scope"]), ["scope"], "scope");
      ClaimsComeFromToken(Basic(table), tokenKey, ["scope"], w.own, w.above, "scope");
    }
  }

  /** One of the token's last registered scopes contains the word. */
  predicate Grants(table: TokenTable, token: string, value: string) {
    exists i :: 0 <= i < |LastScopes(table, token)| && value in Split(LastScopes(table, token)[i])
  }

  lemma BothEntered(auth: Hook<World>, scope: Hook<World>, w: World)
    requires auth.pre(w).0.Returned? && scope.pre(auth.pre(w).1).0.Returned?
    ensures Entered([auth, scope], w).0 == 2
            <==> auth.pre(w).0.status.IsOk() && scope.pre(auth.pre(w).1).0.status.IsOk()
  {
    var v := auth.pre(w).1;
    assert Entered([scope], v).0 == if scope.pre(v).0.status.IsOk() then 1 else 0;
    assert [auth, scope][1..] == [scope];
  }

  /** When the scope check behind an authentication answers OK. */
  lemma CheckedBehind(
      table: TokenTable, tokenKey: string, value: string, failStatus: Status, w: World)
    requires Authenticated(Basic(table), tokenKey, ["scope"], w.own, w.above).1.IsOk()
    ensures var token := Presented(tokenKey, ["scope"], w.own, w.above);
            && token.Some?
            && var own := Authenticated(Basic(table), tokenKey, ["scope"], w.own, w.above).0;
            Checked("scope", value, failStatus, [own] + w.above).IsOk()
            <==> Grants(table, token.value, value) || failStatus.IsOk()
  {
    BasicAuthentication(table, tokenKey, w);
    var token := Presented(tokenKey, ["scope"], w.own, w.above);
    SplitOfJoin(LastScopes(table, token.value), value);
  }

  /** With basic token authentication and a scope check around it, the function runs exactly when the
      presented token is registered and one of its last registered scopes contains the required word, or else the
      check has been configured to answer with an OK status. */
  lemma FunctionRunsIff(
      table: TokenTable, tokenKey: string, value: string, failStatus: Status, run: World -> (Outcome, World), w: World)
    ensures var hooks := [AuthHook(table, tokenKey), ScopeHook(value, failStatus)];
            var token := Presented(tokenKey, ["scope"], w.own, w.above);
            BodyRun in Call(Nest(Bases(hooks), Body(run)), w).trace <==>
              && token.Some? && Registered(table, token.value)
              && (Grants(table, token.value, value) || failStatus.IsOk())
  {
    var auth, scope := AuthHook(table, tokenKey), ScopeHook(value, failStatus);
    BodyRunsIff([auth, scope], run, w);
    BothEntered(auth, scope, w);
    BasicAuthentication(table, tokenKey, w);
    if auth.pre(w).0.status.IsOk() {
      CheckedBehind(table, tokenKey, value, failStatus, w);
    }
  }

  /** What a caller is told for whom the function does not run: the reason of the authentication, or the status the
      scope check is configured with; with the reserved code in it, an exception. */
  lemma RefusedCallerGets(
      table: TokenTable, tokenKey: string, value: string, failStatus: Status, run: World -> (Outcome, World), w: World)
    ensures var hooks := [AuthHook(table, tokenKey), ScopeHook(value, failStatus)];
            var o := Call(Nest(Bases(hooks), Body(run)), w).outcome;
            var token := Presented(tokenKey, ["scope"], w.own, w.above);
            && (token.None? ==> o == Returned(Status(Unauthenticated, "metadata key '" + tokenKey + "' is missing")))
            && (token.Some? && !Registered(table, token.value) ==>
                  o == Returned(Status(Unauthenticated, "token verification failed: " + "invalid token")))
            && (token.Some? && Registered(table, token.value) && !Grants(table, token.value, value)
                && failStatus.code != Ok ==>
                  o == if failStatus.code == Invalid then Threw(BAD_CODE) else Returned(failStatus))
  {
    var auth, scope := AuthHook(table, tokenKey), ScopeHook(value, failStatus);
    NestOfTwo(auth, scope, run);
    AuthenticationTells(Basic(table), tokenKey, ["scope"], w.own, w.above);
    BasicAuthentication(table, tokenKey, w);
    if auth.pre(w).0.status.IsOk() {
      CheckedBehind(table, tokenKey, value, failStatus, w);
      PostDecides(auth, Wrapped(Base(scope), Body(run)), w);
    } else {
      HookRefuses(auth, Wrapped(Base(scope), Body(run)), w);
    }
  }

  lemma NestOfTwo(auth: Hook<World>, scope: Hook<World>, run: World -> (Outcome, World))
    ensures Nest(Bases([auth, scope]), Body(run)) == Wrapped(Base(auth), Wrapped(Base(scope), Body(run)))
  {
    assert [auth, scope][1..] == [scope] && [scope][1..] == [];
    assert Bases([scope]) == [Base(scope)];
    assert Bases([auth, scope]) == [Base(auth)] + [Base(scope)];
    assert Bases([auth, scope])[1..] == [Base(scope)] && Bases([scope])[1..] == [];
    assert Nest(Bases([scope]), Body(run)) == Wrapped(Base(scope), Body(run));
  }

  /** For scopes that are single words: exactly when the required scope is among them. */
  lemma FunctionRunsIffScopeGranted(
      table: TokenTable, tokenKey: string, value: string, failStatus: Status, run: World -> (Outcome, World), w: World)
    requires forall i, j :: 0 <= i < |table| && 0 <= j < |table[i].1| ==> IsWord(table[i].1[j])
    ensures var hooks := [AuthHook(table, tokenKey), ScopeHook(value, failStatus)];
            var token := Presented(tokenKey, ["scope"], w.own, w.above);
            BodyRun in Call(Nest(Bases(hooks), Body(run)), w).trace <==>
              && token.Some? && Registered(table, token.value)
              && (value in LastScopes(table, token.value) || failStatus.IsOk())
  {
    FunctionRunsIff(table, tokenKey, value, failStatus, run, w);
    var token := Presented(tokenKey, ["scope"], w.own, w.above);
    if token.Some? {
      LastScopesAreWords(table, token.value);
      SplitUndoesJoin(LastScopes(table, token.value));
      SplitOfJoin(LastScopes(table, token.value), value);
    }
  }

  /** What RequestProcessor::Process puts in place: a new context below the given ones, holding the name. */
  function Below(chain: seq<Multimap>): (string, World) -> World {
    (name: string, w: World) => World(Entry("request", name), chain)
  }

  /** So the token is looked up in the processor's own context and above, unless its key is one of the two keys
      the request context sets itself. */
  lemma RequestIsAuthorizedIff(
      table: TokenTable, tokenKey: string, value: string, failStatus: Status, run: World -> (Outcome, World),
      name: string, chain: seq<Multimap>, w: World)
    ensures var hooks := [AuthHook(table, tokenKey), ScopeHook(value, failStatus)];
            var token := if tokenKey == "scope" then Some("")
                         else if tokenKey == "request" then Some(name) else Nearest(chain, tokenKey);
            BodyRun in Call(Nest(Bases(hooks), Body(run)), Below(chain)(name, w)).trace <==>
              && token.Some? && Registered(table, token.value)
              && (Grants(table, token.value, value) || failStatus.IsOk())
  {
    var entered := Below(chain)(name, w);
    FunctionRunsIff(table, tokenKey, value, failStatus, run, entered);
    NearestOfFront(entered.own, chain, tokenKey);
  }

  lemma {:induction false} LastScopesAreWords(table: TokenTable, token: string)
    requires forall i, j :: 0 <= i < |table| && 0 <= j < |table[i].1| ==> IsWord(table[i].1[j])
    ensures forall j :: 0 <= j < |LastScopes(table, token)| ==> IsWord(LastScopes(table, token)[j])
  {
    if table != [] && table[|table| - 1].0 != token {
      LastScopesAreWords(table[..|table| - 1], token);
    }
  }
}
