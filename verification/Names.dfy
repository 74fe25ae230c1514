/** Artifact names and environment variable names
    (rust/src/generator/normalize.rs, `header_env_var_name` of rust/src/generator/mod.rs):
    characters are mapped, runs of the separator are replaced until none is left, the ends
    are trimmed; and header variables are made distinct with numeric suffixes. */
module Names {
  import opened Decimal

  predicate IsAlphanumeric(c: char) {
    'a' <= c <= 'z' || 'A' <= c <= 'Z' || '0' <= c <= '9'
  }

  function ToLower(c: char): char {
    if 'A' <= c <= 'Z' then c - 'A' + 'a' else c
  }

  function ToUpper(c: char): char {
    if 'a' <= c <= 'z' then c - 'a' + 'A' else c
  }

  function ArtifactChar(c: char): char {
    if IsAlphanumeric(c) || c == '-' || c == '_' then ToLower(c) else '-'
  }

  function EnvChar(c: char): char {
    if IsAlphanumeric(c) then ToUpper(c) else '_'
  }

  function MapChars(f: char -> char, s: string): (r: string)
    ensures |r| == |s| && forall i | 0 <= i < |s| :: r[i] == f(s[i])
  {
    seq(|s|, i requires 0 <= i < |s| => f(s[i]))
  }

  // ---- replacing pairs until none is left ----

  predicate PairAt(s: string, c: char) {
    |s| >= 2 && s[0] == c && s[1] == c
  }

  predicate HasPair(s: string, c: char) {
    s != [] && (PairAt(s, c) || HasPair(s[1..], c))
  }

  /** One pass of the standard `replace`: non-overlapping pairs, from the left. */
  function ReplacePairs(s: string, c: char): string {
    if s == [] then []
    else if PairAt(s, c) then [c] + ReplacePairs(s[2..], c)
    else [s[0]] + ReplacePairs(s[1..], c)
  }

  /** Every run of c becomes a single c, in one pass. */
  function Collapse(s: string, c: char): string {
    if s == [] then []
    else if PairAt(s, c) then Collapse(s[1..], c)
    else [s[0]] + Collapse(s[1..], c)
  }

  lemma {:induction false} ReplaceShortens(s: string, c: char)
    ensures |ReplacePairs(s, c)| <= |s|
    ensures HasPair(s, c) ==> |ReplacePairs(s, c)| < |s|
    decreases |s|
  {
    if PairAt(s, c) {
      ReplaceShortens(s[2..], c);
    } else if s != [] {
      ReplaceShortens(s[1..], c);
    }
  }

  /** A leading c may be dropped before another when collapsing. */
  lemma CollapseHead(s: string, c: char, x: char)
    ensures Collapse([x] + s, c) == if x == c && s != [] && s[0] == c then Collapse(s, c) else [x] + Collapse(s, c)
  {
    assert ([x] + s)[1..] == s;
  }

  lemma {:induction false} ReplaceHead(s: string, c: char)
    ensures s != [] ==> ReplacePairs(s, c) != [] && ReplacePairs(s, c)[0] == s[0]
    ensures s == [] ==> ReplacePairs(s, c) == []
  {
  }

  lemma {:induction false} ReplaceKeepsCollapse(s: string, c: char)
    ensures Collapse(ReplacePairs(s, c), c) == Collapse(s, c)
    decreases |s|
  {
    if PairAt(s, c) {
      var rest := s[2..];
      ReplaceKeepsCollapse(rest, c);
      ReplaceHead(rest, c);
      CollapseHead(ReplacePairs(rest, c), c, c);
      CollapseHead(rest, c, c);
      assert s[1..] == [c] + rest;
    } else if s != [] {
      ReplaceKeepsCollapse(s[1..], c);
      ReplaceHead(s[1..], c);
      CollapseHead(ReplacePairs(s[1..], c), c, s[0]);
    }
  }

  lemma {:induction false} CollapseFixed(s: string, c: char)
    ensures Collapse(s, c) == s <==> !HasPair(s, c)
    ensures |Collapse(s, c)| <= |s|
    decreases |s|
  {
    if s != [] {
      CollapseFixed(s[1..], c);
      assert s == [s[0]] + s[1..];
      if !PairAt(s, c) {
        assert ([s[0]] + Collapse(s[1..], c))[1..] == Collapse(s[1..], c);
      }
    }
  }

  lemma {:induction false} CollapseNoPair(s: string, c: char)
    ensures !HasPair(Collapse(s, c), c)
    ensures s != [] ==> Collapse(s, c) != [] && Collapse(s, c)[0] == s[0]
    decreases |s|
  {
    if s != [] {
      CollapseNoPair(s[1..], c);
      if !PairAt(s, c) {
        assert ([s[0]] + Collapse(s[1..], c))[1..] == Collapse(s[1..], c);
      }
    }
  }

  /** The loop of the source ends, and its result is the one-pass collapse. */
  method ReplaceUntilStable(s: string, c: char) returns (out: string)
    ensures out == Collapse(s, c)
  {
    out := s;
    while HasPair(out, c)
      invariant Collapse(out, c) == Collapse(s, c)
      decreases |out|
    {
      ReplaceShortens(out, c);
      ReplaceKeepsCollapse(out, c);
      out := ReplacePairs(out, c);
    }
    CollapseFixed(out, c);
  }

  // ---- trimming ----

  function TrimLeft(s: string, c: char): string {
    if s != [] && s[0] == c then TrimLeft(s[1..], c) else s
  }

  function TrimRight(s: string, c: char): string {
    if s != [] && s[|s| - 1] == c then TrimRight(s[..|s| - 1], c) else s
  }

  function TrimMatches(s: string, c: char): string {
    TrimRight(TrimLeft(s, c), c)
  }

  /** No separator at either end, and no two in a row. */
  predicate Neat(s: string, c: char) {
    !HasPair(s, c) && (s == [] || (s[0] != c && s[|s| - 1] != c))
  }

  lemma {:induction false} TrimLeftIs(s: string, c: char) returns (n: nat)
    ensures n <= |s| && TrimLeft(s, c) == s[n..]
    ensures TrimLeft(s, c) == [] || TrimLeft(s, c)[0] != c
    ensures s == [] || s[0] != c ==> TrimLeft(s, c) == s
    decreases |s|
  {
    if s != [] && s[0] == c {
      var m := TrimLeftIs(s[1..], c);
      n := m + 1;
    } else {
      n := 0;
    }
  }

  lemma {:induction false} TrimRightIs(s: string, c: char) returns (n: nat)
    ensures n <= |s| && TrimRight(s, c) == s[..n]
    ensures n == 0 || s[n - 1] != c
    ensures s == [] || s[|s| - 1] != c ==> TrimRight(s, c) == s
    decreases |s|
  {
    if s != [] && s[|s| - 1] == c {
      n := TrimRightIs(s[..|s| - 1], c);
    } else {
      n := |s|;
    }
  }

  lemma {:induction false} PairPosition(s: string, c: char)
    ensures HasPair(s, c) <==> exists i :: 0 <= i < |s| - 1 && s[i] == c && s[i + 1] == c
    decreases |s|
  {
    if s != [] {
      PairPosition(s[1..], c);
      if HasPair(s[1..], c) {
        var i :| 0 <= i < |s[1..]| - 1 && s[1..][i] == c && s[1..][i + 1] == c;
        assert s[i + 1] == c && s[i + 2] == c;
      }
      if i :| 0 <= i < |s| - 1 && s[i] == c && s[i + 1] == c {
        if i > 0 {
          assert s[1..][i - 1] == c && s[1..][i] == c;
        }
      }
    }
  }

  /** Trimming a text without pairs leaves it neat, and takes nothing from a neat one. */
  lemma TrimMakesNeat(s: string, c: char)
    requires !HasPair(s, c)
    ensures Neat(TrimMatches(s, c), c)
    ensures Neat(s, c) ==> TrimMatches(s, c) == s
    ensures forall x | x in TrimMatches(s, c) :: x in s
    ensures s != [] && s[0] != c ==> TrimMatches(s, c) != [] && TrimMatches(s, c)[0] == s[0]
  {
    var i := TrimLeftIs(s, c);
    var left := TrimLeft(s, c);
    var n := TrimRightIs(left, c);
    var out := left[..n];
    PairPosition(s, c);
    PairPosition(out, c);
    assert forall k | 0 <= k < |out| :: out[k] == s[i + k];
    if s != [] && s[0] != c && n == 0 {
      LastStays(s, c);
    }
  }

  lemma {:induction false} LastStays(s: string, c: char)
    requires s != [] && s[0] != c
    ensures TrimRight(s, c) != []
    decreases |s|
  {
    if s[|s| - 1] == c {
      LastStays(s[..|s| - 1], c);
    }
  }

  // ---- the three sanitizers ----

  function SanitizeArtifactName(raw: string): string {
    TrimMatches(Collapse(MapChars(ArtifactChar, raw), '-'), '-')
  }

  function SanitizeEnvKey(raw: string): string {
    TrimMatches(Collapse(MapChars(EnvChar, raw), '_'), '_')
  }

  const CONNECT_NAME := "MCPWAY" + ['_'] + ("CONNECT" + ['_'] + "HEADER")
  const CONNECT_PREFIX := CONNECT_NAME + ['_']

  function HeaderEnvVarName(header: string): string {
    TrimMatches(Collapse(CONNECT_PREFIX + MapChars(EnvChar, header), '_'), '_')
  }

  method Sanitize(raw: string, f: char -> char, prefix: string, c: char) returns (out: string)
    ensures out == TrimMatches(Collapse(prefix + MapChars(f, raw), c), c)
  {
    out := prefix;
    for i := 0 to |raw|
      invariant out == prefix + MapChars(f, raw)[..i]
    {
      out := out + [f(raw[i])];
    }
    assert MapChars(f, raw)[..|raw|] == MapChars(f, raw);
    out := ReplaceUntilStable(out, c);
    out := TrimMatches(out, c);
  }

  predicate IsArtifactChar(c: char) {
    'a' <= c <= 'z' || '0' <= c <= '9' || c == '-' || c == '_'
  }

  predicate IsArtifactName(s: string) {
    Neat(s, '-') && forall i | 0 <= i < |s| :: IsArtifactChar(s[i])
  }

  /** Sanitizing always gives a clean name, and leaves a name alone exactly when it is clean. */
  lemma SanitizeArtifactNameIff(raw: string)
    ensures IsArtifactName(SanitizeArtifactName(raw))
    ensures SanitizeArtifactName(raw) == raw <==> IsArtifactName(raw)
  {
    var mapped := MapChars(ArtifactChar, raw);
    var s := Collapse(mapped, '-');
    CollapseNoPair(mapped, '-');
    TrimMakesNeat(s, '-');
    forall x | x in TrimMatches(s, '-') ensures IsArtifactChar(x) {
      CollapseMembers(mapped, '-', x);
    }
    if IsArtifactName(raw) {
      assert mapped == raw;
      CollapseFixed(raw, '-');
    }
  }

  lemma {:induction false} CollapseMembers(s: string, c: char, x: char)
    requires x in Collapse(s, c)
    ensures x in s
    decreases |s|
  {
    if PairAt(s, c) {
      CollapseMembers(s[1..], c, x);
    } else if x != s[0] {
      assert x in Collapse(s[1..], c);
      CollapseMembers(s[1..], c, x);
    }
  }

  /** Letters become lower case in an artifact name and upper case in a variable, digits stay,
      and what a name may not hold becomes its separator. */
  lemma CharsAre(c: char)
    ensures 'a' <= c <= 'z' ==> ArtifactChar(c) == c && EnvChar(c) == c - 'a' + 'A'
    ensures 'A' <= c <= 'Z' ==> ArtifactChar(c) == c - 'A' + 'a' && EnvChar(c) == c
    ensures '0' <= c <= '9' ==> ArtifactChar(c) == c && EnvChar(c) == c
    ensures c == '-' || c == '_' ==> ArtifactChar(c) == c && EnvChar(c) == '_'
    ensures !IsAlphanumeric(c) && c != '-' && c != '_' ==> ArtifactChar(c) == '-' && EnvChar(c) == '_'
  {
  }

  /** The characters of s that are not c, in order. */
  function Others(s: string, c: char): string {
    if s == [] then [] else (if s[0] == c then [] else [s[0]]) + Others(s[1..], c)
  }

  /** Collapsing and trimming take away separators and nothing else. */
  lemma SanitizingKeepsOthers(s: string, c: char)
    ensures Others(TrimMatches(Collapse(s, c), c), c) == Others(s, c)
  {
    CollapseKeepsOthers(s, c);
    TrimLeftKeepsOthers(Collapse(s, c), c);
    TrimRightKeepsOthers(TrimLeft(Collapse(s, c), c), c);
  }

  lemma {:induction false} CollapseKeepsOthers(s: string, c: char)
    ensures Others(Collapse(s, c), c) == Others(s, c)
    decreases |s|
  {
    if s != [] {
      CollapseKeepsOthers(s[1..], c);
      assert ([s[0]] + Collapse(s[1..], c))[1..] == Collapse(s[1..], c);
    }
  }

  lemma {:induction false} TrimLeftKeepsOthers(s: string, c: char)
    ensures Others(TrimLeft(s, c), c) == Others(s, c)
    decreases |s|
  {
    if s != [] && s[0] == c {
      TrimLeftKeepsOthers(s[1..], c);
    }
  }

  lemma {:induction false} TrimRightKeepsOthers(s: string, c: char)
    ensures Others(TrimRight(s, c), c) == Others(s, c)
    decreases |s|
  {
    if s != [] && s[|s| - 1] == c {
      TrimRightKeepsOthers(s[..|s| - 1], c);
      OthersPush(s[..|s| - 1], c);
      assert s == s[..|s| - 1] + [c];
    }
  }

  lemma {:induction false} OthersPush(s: string, c: char)
    ensures Others(s + [c], c) == Others(s, c)
    decreases |s|
  {
    if s != [] {
      OthersPush(s[1..], c);
      assert (s + [c])[1..] == s[1..] + [c];
    }
  }

  /** Sanitizing twice is sanitizing once. */
  lemma SanitizeArtifactNameIdempotent(raw: string)
    ensures SanitizeArtifactName(SanitizeArtifactName(raw)) == SanitizeArtifactName(raw)
  {
    SanitizeArtifactNameIff(raw);
    SanitizeArtifactNameIff(SanitizeArtifactName(raw));
  }

  /** A header variable is never empty, and is neat. */
  lemma HeaderEnvVarNameIsName(header: string)
    ensures HeaderEnvVarName(header) != [] && HeaderEnvVarName(header)[0] == 'M'
    ensures Neat(HeaderEnvVarName(header), '_')
  {
    var s := CONNECT_PREFIX + MapChars(EnvChar, header);
    assert s[0] == 'M';
    CollapseNoPair(s, '_');
    TrimMakesNeat(Collapse(s, '_'), '_');
  }

  // ---- header variables of connect profiles ----

  lemma {:induction false} CollapseAfter(q: string, t: string, c: char)
    requires q != [] && !HasPair(q, c) && q[|q| - 1] != c
    ensures Collapse(q + t, c) == q + Collapse(t, c)
    decreases |q|
  {
    assert (q + t)[1..] == q[1..] + t;
    if |q| == 1 {
      assert q[1..] + t == t && q == [q[0]];
    } else {
      assert !PairAt(q + t, c);
      CollapseAfter(q[1..], t, c);
      assert q == [q[0]] + q[1..];
    }
  }

  lemma {:induction false} TrimRightAfter(q: string, t: string, c: char)
    ensures TrimRight(q + t, c) == if TrimRight(t, c) == [] then TrimRight(q, c) else q + TrimRight(t, c)
    decreases |t|
  {
    if t == [] {
      assert q + t == q;
    } else if t[|t| - 1] == c {
      assert (q + t)[..|q + t| - 1] == q + t[..|t| - 1];
      TrimRightAfter(q, t[..|t| - 1], c);
    }
  }

  /** A separator in front of a text collapses with those the text begins with. */
  lemma CollapseBehindSeparator(s: string, c: char)
    ensures Collapse([c] + s, c) == [c] + TrimLeft(Collapse(s, c), c)
  {
    var v := Collapse(s, c);
    CollapseHead(s, c, c);
    CollapseNoPair(s, c);
    if v != [] && v[0] == c {
      assert v[1..] == [] || v[1] != c;
      assert v == [c] + v[1..];
    }
  }

  lemma ConnectNameIsNeat()
    ensures Neat(CONNECT_NAME, '_')
  {
    PairPosition("HEADER", '_');
    NoPairJoins("CONNECT", "HEADER", '_');
    NoPairJoins("MCPWAY", "CONNECT" + ['_'] + "HEADER", '_');
  }

  lemma NoPairJoins(a: string, b: string, c: char)
    requires c !in a && !HasPair(b, c) && b != [] && b[0] != c
    ensures !HasPair(a + [c] + b, c)
  {
    var s := a + [c] + b;
    PairPosition(b, c);
    PairPosition(s, c);
    forall i | 0 <= i < |s| - 1 ensures !(s[i] == c && s[i + 1] == c) {
      if i < |a| {
        assert s[i] == a[i] && s[i] in a;
      } else if i == |a| {
        assert s[i + 1] == b[0];
      } else {
        assert s[i] == b[i - |a| - 1] && s[i + 1] == b[i - |a|];
      }
    }
  }

  lemma ConnectNameIs()
    ensures CONNECT_NAME == "MCPWAY_CONNECT_HEADER"
  {
  }

  /** The variable of a header is a fixed name and the sanitized header behind it, if any. */
  lemma HeaderEnvVarNameIs(header: string)
    ensures var key := SanitizeEnvKey(header);
            HeaderEnvVarName(header) == if key == [] then CONNECT_NAME else CONNECT_PREFIX + key
  {
    ConnectNameIsNeat();
    SeparatedName(CONNECT_NAME, MapChars(EnvChar, header), '_');
  }

  lemma SeparatedName(name: string, s: string, c: char)
    requires name != [] && Neat(name, c)
    ensures var key := TrimMatches(Collapse(s, c), c);
            TrimMatches(Collapse(name + [c] + s, c), c) == if key == [] then name else name + [c] + key
  {
    var w := TrimLeft(Collapse(s, c), c);
    assert name + [c] + s == name + ([c] + s);
    CollapseAfter(name, [c] + s, c);
    CollapseBehindSeparator(s, c);
    assert name + ([c] + w) == (name + [c]) + w;
    TrimRightAfter(name + [c], w, c);
    TrimRightAfter(name, [c], c);
    assert [c][..0] == [];
    assert TrimLeft(name + [c] + w, c) == name + [c] + w;
  }

  lemma BehindPrefix(prefix: string, x: string, y: string)
    ensures prefix + x == prefix + y <==> x == y
  {
    assert (prefix + x)[|prefix|..] == x && (prefix + y)[|prefix|..] == y;
  }

  /** Headers of a connect profile share a variable if and only if they sanitize alike. */
  lemma HeaderVarsCollideIff(a: string, b: string)
    ensures HeaderEnvVarName(a) == HeaderEnvVarName(b) <==> SanitizeEnvKey(a) == SanitizeEnvKey(b)
  {
    HeaderEnvVarNameIs(a);
    HeaderEnvVarNameIs(b);
    var x, y := SanitizeEnvKey(a), SanitizeEnvKey(b);
    BehindPrefix(CONNECT_PREFIX, x, y);
    assert |CONNECT_PREFIX + x| > |CONNECT_NAME| && |CONNECT_PREFIX + y| > |CONNECT_NAME|;
  }

  /** Such headers exist. */
  lemma DashAndUnderscoreCollide()
    ensures HeaderEnvVarName("X-A") == HeaderEnvVarName("X_A")
  {
    assert MapChars(EnvChar, "X-A") == MapChars(EnvChar, "X_A");
  }

  // ---- fresh header variables ----

  /** The names tried for a base: itself, then with suffixes from 1 on. */
  function Candidate(base: string, k: nat): string {
    if k == 0 then base else base + "_" + PrintNat(k)
  }

  lemma CandidatesDiffer(base: string, j: nat, k: nat)
    requires j < k
    ensures Candidate(base, j) != Candidate(base, k)
  {
    if j > 0 && Candidate(base, j) == Candidate(base, k) {
      assert Candidate(base, j)[|base| + 1..] == PrintNat(j);
      assert Candidate(base, k)[|base| + 1..] == PrintNat(k);
      PrintNatInjective(j, k);
    }
  }

  /** k rejected candidates are k different used names. */
  lemma {:induction false} RejectedAreUsed(base: string, k: nat, used: set<string>)
    requires forall j | 0 <= j < k :: Candidate(base, j) in used
    ensures k <= |used|
    decreases k
  {
    if k > 0 {
      var last := Candidate(base, k - 1);
      forall j | 0 <= j < k - 1 ensures Candidate(base, j) in used - {last} {
        CandidatesDiffer(base, j, k - 1);
      }
      RejectedAreUsed(base, k - 1, used - {last});
    }
  }

  function HeaderBase(header: string): string {
    "MCPWAY_HEADER_" + SanitizeEnvKey(header)
  }

  function UsedBy(vars: seq<string>): set<string> {
    set v | v in vars
  }

  /** The variable is the first candidate of its header that no earlier header has taken. */
  ghost predicate FirstFree(header: string, earlier: seq<string>, v: string) {
    exists k: nat :: v == Candidate(HeaderBase(header), k) && v !in earlier &&
                     forall j | 0 <= j < k :: Candidate(HeaderBase(header), j) in earlier
  }

  ghost predicate Assigned(headers: seq<string>, vars: seq<string>)
    requires |vars| <= |headers|
  {
    forall i | 0 <= i < |vars| :: FirstFree(headers[i], vars[..i], vars[i])
  }

  lemma AssignedPush(headers: seq<string>, vars: seq<string>, v: string)
    requires |vars| < |headers| && Assigned(headers, vars) && FirstFree(headers[|vars|], vars, v)
    ensures Assigned(headers, vars + [v])
  {
    var after := vars + [v];
    forall i | 0 <= i < |after| ensures FirstFree(headers[i], after[..i], after[i]) {
      assert after[..i] == vars[..i];
    }
  }

  /** The search for a free suffix always ends, and every header gets its own variable, even
      when header names sanitize alike. */
  method AssignHeaderVars(headers: seq<string>) returns (vars: seq<string>)
    ensures |vars| == |headers| && Assigned(headers, vars)
    ensures forall i, j | 0 <= i < j < |vars| :: vars[i] != vars[j]
  {
    vars := [];
    var used: set<string> := {};
    for i := 0 to |headers|
      invariant |vars| == i && used == UsedBy(vars) && Assigned(headers, vars)
      invariant forall m, n | 0 <= m < n < i :: vars[m] != vars[n]
    {
      var base := HeaderBase(headers[i]);
      var candidate := FreeCandidate(base, used);
      used := used + {candidate};
      AssignedPush(headers, vars, candidate);
      vars := vars + [candidate];
    }
  }

  /** A header whose name is not taken gets it plainly; the next one that sanitizes alike gets
      it with the suffix 1. */
  lemma FirstVariables(header: string, earlier: seq<string>, v: string)
    requires FirstFree(header, earlier, v)
    ensures var base := "MCPWAY_HEADER_" + SanitizeEnvKey(header);
            && (base !in earlier ==> v == base)
            && (earlier == [base] ==> v == base + "_1")
  {
    var base := HeaderBase(header);
    var k: nat :| v == Candidate(base, k) && v !in earlier && forall j | 0 <= j < k :: Candidate(base, j) in earlier;
    assert Candidate(base, 0) == base;
    assert PrintNat(1) == "1";
    if earlier == [base] {
      CandidatesDiffer(base, 0, 1);
    }
  }

  method FreeCandidate(base: string, used: set<string>) returns (candidate: string)
    ensures candidate !in used
    ensures exists k: nat :: candidate == Candidate(base, k) && forall j | 0 <= j < k :: Candidate(base, j) in used
  {
    candidate := base;
    var suffix := 1;
    assert candidate == Candidate(base, 0);
    while candidate in used
      invariant suffix >= 1 && candidate == Candidate(base, suffix - 1)
      invariant forall j | 0 <= j < suffix - 1 :: Candidate(base, j) in used
      decreases |used| + 1 - suffix
    {
      RejectedAreUsed(base, suffix, used);
      candidate := base + "_" + PrintNat(suffix);
      suffix := suffix + 1;
    }
  }
}
