/** Space-separated lists: joining and splitting
    (src/microservice-essentials/security/basic-token-auth-request-hook.cpp:17-29,
    claim-checker-request-hook.cpp:27-38). */
module Words {

  // std::isspace in the "C" locale
  predicate IsSpace(c: char) {
    c == ' ' || c == '\t' || c == '\n' || c == '\r' || c == '\U{000B}' || c == '\U{000C}'
  }

  const SPACES: set<char> := {' ', '\t', '\n', '\r', '\U{000B}', '\U{000C}'}

  function Join(parts: seq<string>, delim: string): string {
    if parts == [] then "" else if |parts| == 1 then parts[0] else parts[0] + delim + Join(parts[1..], delim)
  }

  function WordLength(s: string): (n: nat)
    ensures n <= |s| && forall i :: 0 <= i < n ==> !IsSpace(s[i])
    ensures n < |s| ==> IsSpace(s[n])
  {
    if s == "" || IsSpace(s[0]) then 0 else 1 + WordLength(s[1..])
  }

  /** The tokens that repeated extraction from a string stream yields. */
  function Split(s: string): seq<string>
    decreases |s|
  {
    if s == "" then []
    else if IsSpace(s[0]) then Split(s[1..])
    else [s[..WordLength(s)]] + Split(s[WordLength(s)..])
  }

  /** s[i..j] is a maximal run of characters other than spaces. */
  predicate IsRun(s: string, i: nat, j: nat) {
    && i < j <= |s| && (forall k :: i <= k < j ==> s[k] !in SPACES)
    && (i == 0 || s[i - 1] in SPACES) && (j == |s| || s[j] in SPACES)
  }

  ghost predicate HasRun(s: string, value: string) {
    exists i: nat, j: nat :: IsRun(s, i, j) && s[i..j] == value
  }

  lemma RunInSuffix(s: string, n: nat, i: nat, j: nat)
    requires n <= i && n <= |s|
    requires i > n || n == 0 || s[n - 1] in SPACES
    ensures IsRun(s, i, j) <==> n <= j && IsRun(s[n..], i - n, j - n)
    ensures IsRun(s, i, j) ==> s[i..j] == s[n..][i - n..j - n]
  {
  }

  // no run starts at or before n, unless it is the first one of s
  lemma HasRunInSuffix(s: string, n: nat, value: string)
    requires 0 < n <= |s| && (s[n - 1] in SPACES || n == |s| || s[n] in SPACES)
    requires forall i: nat, j: nat :: IsRun(s, i, j) && i < n ==> s[i..j] != value
    ensures HasRun(s, value) <==> HasRun(s[n..], value)
  {
    if i: nat, j: nat :| IsRun(s, i, j) && s[i..j] == value {
      RunInSuffix(s, n, i, j);
    }
    if i: nat, j: nat :| IsRun(s[n..], i, j) && s[n..][i..j] == value {
      RunInSuffix(s, n, i + n, j + n);
    }
  }

  lemma InWord(s: string, k: nat)
    requires k < WordLength(s)
    ensures s[k] !in SPACES
  {
  }

  lemma BehindWord(s: string)
    requires WordLength(s) < |s|
    ensures s[WordLength(s)] in SPACES
  {
  }

  lemma FirstRun(s: string)
    requires s != "" && s[0] !in SPACES
    ensures IsRun(s, 0, WordLength(s))
    ensures forall i: nat, j: nat :: IsRun(s, i, j) && i < WordLength(s) ==> i == 0 && j == WordLength(s)
  {
    var n := WordLength(s);
    forall i: nat, j: nat | IsRun(s, i, j) && i < n
      ensures i == 0 && j == n
    {
      if i > 0 {
        InWord(s, i - 1);
      } else if j < n {
        InWord(s, j);
      } else if n < j {
        BehindWord(s);
      }
    }
  }

  /** Splitting finds exactly the maximal runs of characters other than spaces. */
  lemma {:induction false} SplitFindsRuns(s: string, value: string)
    ensures value in Split(s) <==> HasRun(s, value)
    decreases |s|
  {
    if s == "" {
    } else if s[0] in SPACES {
      HasRunInSuffix(s, 1, value);
      SplitFindsRuns(s[1..], value);
    } else {
      var n := WordLength(s);
      FirstRun(s);
      SplitFindsRuns(s[n..], value);
      if s[..n] == value {
        assert s[0..n] == value;
      } else {
        HasRunInSuffix(s, n, value);
      }
    }
  }

  /** The loop of ClaimInSpaceSeparatedList: extract tokens until one equals value or none is left. */
  method ContainsWord(list: string, value: string) returns (found: bool)
    ensures found <==> value in Split(list)
  {
    var rest := list;
    while true
      invariant value in Split(list) <==> value in Split(rest)
      decreases |rest|
    {
      ghost var before := |rest|;
      while rest != "" && IsSpace(rest[0])
        invariant value in Split(list) <==> value in Split(rest)
        invariant |rest| <= before
        decreases |rest|
      {
        rest := rest[1..];
      }
      if rest == "" {
        return false;
      }
      var n := WordLength(rest);
      if rest[..n] == value {
        return true;
      }
      rest := rest[n..];
    }
  }

  lemma {:induction false} WordLengthStopsAtSpace(a: string, sp: char, b: string)
    requires IsSpace(sp)
    ensures WordLength(a + [sp] + b) == WordLength(a)
  {
    if a != "" && !IsSpace(a[0]) {
      assert (a + [sp] + b)[1..] == a[1..] + [sp] + b;
      WordLengthStopsAtSpace(a[1..], sp, b);
    }
  }

  lemma SliceBeforeSpace(a: string, sp: char, b: string, n: nat)
    requires n <= |a|
    ensures (a + [sp] + b)[..n] == a[..n] && (a + [sp] + b)[n..] == a[n..] + [sp] + b
  {
  }

  lemma {:induction false} SplitAtSpace(a: string, sp: char, b: string)
    requires IsSpace(sp)
    ensures Split(a + [sp] + b) == Split(a) + Split(b)
    decreases |a|
  {
    var s := a + [sp] + b;
    if a == "" {
      assert s[1..] == b;
    } else if IsSpace(a[0]) {
      SliceBeforeSpace(a, sp, b, 1);
      SplitAtSpace(a[1..], sp, b);
    } else {
      var n := WordLength(a);
      WordLengthStopsAtSpace(a, sp, b);
      SliceBeforeSpace(a, sp, b, n);
      SplitAtSpace(a[n..], sp, b);
      assert Split(s) == [a[..n]] + Split(s[n..]);
    }
  }

  predicate IsWord(s: string) {
    s != "" && forall i :: 0 <= i < |s| ==> s[i] !in SPACES
  }

  lemma WordSplitsToItself(s: string)
    requires IsWord(s)
    ensures Split(s) == [s]
  {
    assert WordLength(s) == |s|;
    assert s[..|s|] == s && s[|s|..] == "";
  }

  /** Splitting a joined list finds what splitting its parts finds. */
  lemma {:induction false} SplitOfJoin(parts: seq<string>, value: string)
    ensures value in Split(Join(parts, " ")) <==> exists i :: 0 <= i < |parts| && value in Split(parts[i])
  {
    if |parts| > 1 {
      SplitOfJoin(parts[1..], value);
      SplitAtSpace(parts[0], ' ', Join(parts[1..], " "));
      assert Split(Join(parts, " ")) == Split(parts[0]) + Split(Join(parts[1..], " "));
      if i :| 0 <= i < |parts| && value in Split(parts[i]) {
        if i > 0 {
          assert parts[1..][i - 1] == parts[i];
        }
      }
    }
  }

  /** Splitting undoes joining for parts that are single words. */
  lemma {:induction false} SplitUndoesJoin(parts: seq<string>)
    requires forall i :: 0 <= i < |parts| ==> IsWord(parts[i])
    ensures Split(Join(parts, " ")) == parts
  {
    if parts != [] {
      WordSplitsToItself(parts[0]);
      if |parts| > 1 {
        SplitUndoesJoin(parts[1..]);
        SplitAtSpace(parts[0], ' ', Join(parts[1..], " "));
      }
    }
  }
}
