/** Filtering, sorting and paging a discovery report (`apply_search` and `compare_servers` of
    rust/src/discovery/mod.rs). */
module Search {
  import opened Json
  import opened Ordering
  import opened Sorting
  import opened Discovery
  import Text

  datatype SortField = ByServerName | BySource | ByScope | ByTransport | ByOriginPath

  datatype SortOrder = Asc | Desc

  datatype Options = Options(
    query: Option<string>,
    transport: Option<Transport>,
    scope: Option<Scope>,
    source: Option<Source>,
    enabledOnly: bool,
    sortBy: SortField,
    sortOrder: SortOrder,
    offset: nat,
    limit: Option<nat>)

  // ---- which servers ----

  function LowerChar(c: char): char {
    if 'A' <= c <= 'Z' then c - 'A' + 'a' else c
  }

  function Lower(s: string): (r: string)
    ensures |r| == |s|
  {
    seq(|s|, i requires 0 <= i < |s| => LowerChar(s[i]))
  }

  predicate Contains(s: string, part: string) {
    part <= s || (s != [] && Contains(s[1..], part))
  }

  function SourceText(s: Source): string {
    match s
    case Cursor => "cursor"
    case Claude => "claude"
    case Codex => "codex"
    case Windsurf => "windsurf"
    case OpenCode => "opencode"
    case Nodecode => "nodecode"
    case VsCode => "vscode"
  }

  function ScopeText(s: Scope): string {
    match s case Project => "project" case Global => "global"
  }

  function TransportText(t: Transport): string {
    match t
    case Stdio => "stdio"
    case Sse => "sse"
    case Ws => "ws"
    case StreamableHttp => "streamable-http"
    case Grpc => "grpc"
  }

  function OrEmpty(s: Option<string>): string {
    match s case Some(v) => v case None => ""
  }

  predicate MatchesQuery(s: Server, query: string) {
    || Contains(Lower(s.name), query)
    || Contains(SourceText(s.source), query)
    || Contains(ScopeText(s.scope), query)
    || Contains(TransportText(s.transport), query)
    || Contains(Lower(s.originPath), query)
    || Contains(Lower(s.rawFormat), query)
    || Contains(Lower(OrEmpty(s.command)), query)
    || Contains(Lower(OrEmpty(s.url)), query)
  }

  /** The query after trimming and lowering; a blank query is none. */
  function Query(o: Options): Option<string> {
    match o.query
    case Some(q) => if Text.Trim(q) == [] then None else Some(Lower(Text.Trim(q)))
    case None => None
  }

  predicate Matches(s: Server, o: Options) {
    && (o.transport.Some? ==> s.transport == o.transport.value)
    && (o.scope.Some? ==> s.scope == o.scope.value)
    && (o.source.Some? ==> s.source == o.source.value)
    && (o.enabledOnly ==> s.enabled)
    && (Query(o).Some? ==> MatchesQuery(s, Query(o).value))
  }

  function Keep(o: Options): Server -> bool {
    s => Matches(s, o)
  }

  /** One text is found in another: somewhere in it. */
  lemma {:induction false} ContainsIff(s: string, part: string)
    ensures Contains(s, part) <==> exists i: nat :: FoundAt(s, part, i)
    decreases |s|
  {
    if Contains(s, part) {
      FoundSomewhere(s, part);
    }
    if i: nat :| FoundAt(s, part, i) {
      FoundIsContained(s, part, i);
    }
  }

  predicate FoundAt(s: string, part: string, i: nat) {
    i + |part| <= |s| && s[i..i + |part|] == part
  }

  lemma {:induction false} FoundSomewhere(s: string, part: string)
    requires Contains(s, part)
    ensures exists i: nat :: FoundAt(s, part, i)
    decreases |s|
  {
    if part <= s {
      assert FoundAt(s, part, 0);
    } else {
      FoundSomewhere(s[1..], part);
      var i: nat :| FoundAt(s[1..], part, i);
      assert s[1..][i..i + |part|] == s[i + 1..i + 1 + |part|];
      assert FoundAt(s, part, i + 1);
    }
  }

  lemma {:induction false} FoundIsContained(s: string, part: string, i: nat)
    requires FoundAt(s, part, i)
    ensures Contains(s, part)
    decreases i
  {
    if i > 0 && s != [] {
      assert s[1..][i - 1..i - 1 + |part|] == s[i..i + |part|];
      FoundIsContained(s[1..], part, i - 1);
    } else {
      assert s[..|part|] == part;
    }
  }

  /** The words a query can use for a source, a scope and a transport. */
  lemma WordsAre()
    ensures SourceText(Cursor) == "cursor" && SourceText(Claude) == "claude" && SourceText(Codex) == "codex"
    ensures SourceText(Windsurf) == "windsurf" && SourceText(OpenCode) == "opencode"
    ensures SourceText(Nodecode) == "nodecode" && SourceText(VsCode) == "vscode"
    ensures ScopeText(Project) == "project" && ScopeText(Global) == "global"
    ensures TransportText(Stdio) == "stdio" && TransportText(Sse) == "sse" && TransportText(Ws) == "ws"
    ensures TransportText(StreamableHttp) == "streamable-http" && TransportText(Grpc) == "grpc"
  {
  }

  /** The texts of a server that a query is looked for in. */
  function Texts(s: Server): seq<string> {
    [s.name, s.originPath, s.rawFormat, OrEmpty(s.command), OrEmpty(s.url),
     SourceText(s.source), ScopeText(s.scope), TransportText(s.transport)]
  }

  /** Two texts agree but for the case of ASCII letters. */
  predicate SameButCase(a: string, b: string) {
    |a| == |b| && forall i | 0 <= i < |a| :: SameLetter(a[i], b[i])
  }

  predicate SameLetter(a: char, b: char) {
    a == b || ('a' <= a <= 'z' && b == a - 'a' + 'A') || ('a' <= b <= 'z' && a == b - 'a' + 'A')
  }

  /** Lowering brings texts together exactly when they differ in nothing but case. */
  lemma LowerIff(a: string, b: string)
    ensures Lower(a) == Lower(b) <==> SameButCase(a, b)
  {
    if Lower(a) == Lower(b) {
      forall i | 0 <= i < |a| ensures SameLetter(a[i], b[i]) {
        assert Lower(a)[i] == Lower(b)[i];
      }
    }
    if SameButCase(a, b) {
      forall i | 0 <= i < |a| ensures Lower(a)[i] == Lower(b)[i] {
        assert SameLetter(a[i], b[i]);
      }
    }
  }

  /** The query stands at place i of that text, but for case. */
  predicate MentionedAt(text: string, query: string, i: nat) {
    i + |query| <= |text| && SameButCase(text[i..i + |query|], query)
  }

  lemma ContainsLowerIff(text: string, query: string)
    ensures Contains(Lower(text), Lower(query)) <==> exists i: nat :: MentionedAt(text, query, i)
  {
    ContainsIff(Lower(text), Lower(query));
    forall i: nat ensures FoundAt(Lower(text), Lower(query), i) <==> MentionedAt(text, query, i) {
      if i + |query| <= |text| {
        assert Lower(text)[i..i + |query|] == Lower(text[i..i + |query|]);
        LowerIff(text[i..i + |query|], query);
      }
    }
  }

  lemma WordsAreLower(s: Server)
    ensures Lower(SourceText(s.source)) == SourceText(s.source)
    ensures Lower(ScopeText(s.scope)) == ScopeText(s.scope)
    ensures Lower(TransportText(s.transport)) == TransportText(s.transport)
  {
    LowerText(SourceText(s.source));
    LowerText(ScopeText(s.scope));
    LowerText(TransportText(s.transport));
  }

  lemma LowerText(t: string)
    requires forall i | 0 <= i < |t| :: !('A' <= t[i] <= 'Z')
    ensures Lower(t) == t
  {
  }

  /** The k-th text of a server mentions the query somewhere. */
  ghost predicate Mentions(s: Server, query: string, k: nat) {
    k < 8 && exists i: nat :: MentionedAt(Texts(s)[k], query, i)
  }

  lemma MatchesQueryIff(s: Server, query: string)
    ensures MatchesQuery(s, Lower(query)) <==> exists k: nat :: Mentions(s, query, k)
  {
    WordsAreLower(s);
    forall k: nat | k < 8 ensures Mentions(s, query, k) <==> Contains(Lower(Texts(s)[k]), Lower(query)) {
      ContainsLowerIff(Texts(s)[k], query);
    }
    assert MatchesQuery(s, Lower(query)) <==>
           Mentions(s, query, 0) || Mentions(s, query, 1) || Mentions(s, query, 2) || Mentions(s, query, 3) ||
           Mentions(s, query, 4) || Mentions(s, query, 5) || Mentions(s, query, 6) || Mentions(s, query, 7);
  }

  /** A server matches if it has the transport, scope and source asked for, is enabled if that
      is asked for, and one of its texts mentions the trimmed query, whatever the case. */
  lemma MatchesIff(s: Server, o: Options)
    ensures Matches(s, o) <==>
            && (o.transport == None || o.transport == Some(s.transport))
            && (o.scope == None || o.scope == Some(s.scope))
            && (o.source == None || o.source == Some(s.source))
            && (!o.enabledOnly || s.enabled)
            && (o.query == None || Text.Trim(o.query.value) == [] ||
                exists k: nat :: Mentions(s, Text.Trim(o.query.value), k))
  {
    if o.query.Some? {
      MatchesQueryIff(s, Text.Trim(o.query.value));
    }
  }

  // ---- the order ----

  datatype Cmp = Lt | Eq | Gt

  function Then(first: Cmp, second: Cmp): Cmp {
    if first == Eq then second else first
  }

  function CompareText(a: string, b: string): Cmp {
    if Less(a, b) then Lt else if Less(b, a) then Gt else Eq
  }

  function CompareNat(a: nat, b: nat): Cmp {
    if a < b then Lt else if a > b then Gt else Eq
  }

  function TransportPriority(t: Transport): nat {
    match t case Stdio => 0 case Sse => 1 case Ws => 2 case StreamableHttp => 3 case Grpc => 4
  }

  function Primary(l: Server, r: Server, field: SortField): Cmp {
    match field
    case ByServerName => CompareText(l.name, r.name)
    case BySource => CompareText(SourceText(l.source), SourceText(r.source))
    case ByScope => CompareNat(ScopePriority(l.scope), ScopePriority(r.scope))
    case ByTransport => CompareNat(TransportPriority(l.transport), TransportPriority(r.transport))
    case ByOriginPath => CompareText(l.originPath, r.originPath)
  }

  function CompareServers(l: Server, r: Server, field: SortField): Cmp {
    var primary := Primary(l, r, field);
    if primary != Eq then primary
    else Then(CompareText(l.name, r.name),
              Then(CompareText(SourceText(l.source), SourceText(r.source)), CompareText(l.originPath, r.originPath)))
  }

  function Flip(c: Cmp): Cmp {
    match c case Lt => Gt case Eq => Eq case Gt => Lt
  }

  /** The three comparisons of three elements agree with one order. */
  predicate Agree(xy: Cmp, yz: Cmp, xz: Cmp) {
    && (xy == Eq ==> xz == yz)
    && (yz == Eq ==> xz == xy)
    && (xy == yz ==> xz == xy)
  }

  lemma TextAgrees(x: string, y: string, z: string)
    ensures Agree(CompareText(x, y), CompareText(y, z), CompareText(x, z))
    ensures CompareText(y, x) == Flip(CompareText(x, y))
    ensures CompareText(x, y) == Eq <==> x == y
  {
    LessTotal(x, y);
    LessTotal(y, z);
    LessIrreflexive(x);
    if Less(x, y) && Less(y, x) {
      LessTransitive(x, y, x);
    }
    if Less(x, y) && Less(y, z) {
      LessTransitive(x, y, z);
    }
    if Less(z, y) && Less(y, x) {
      LessTransitive(z, y, x);
    }
    LessAsymmetric(x, z);
    LessAsymmetric(x, y);
  }

  lemma LessAsymmetric(a: string, b: string)
    ensures !(Less(a, b) && Less(b, a))
  {
    LessIrreflexive(a);
    if Less(a, b) && Less(b, a) {
      LessTransitive(a, b, a);
    }
  }

  lemma PrimaryAgrees(x: Server, y: Server, z: Server, field: SortField)
    ensures Agree(Primary(x, y, field), Primary(y, z, field), Primary(x, z, field))
    ensures Primary(y, x, field) == Flip(Primary(x, y, field))
  {
    TextAgrees(x.name, y.name, z.name);
    TextAgrees(SourceText(x.source), SourceText(y.source), SourceText(z.source));
    TextAgrees(x.originPath, y.originPath, z.originPath);
  }

  lemma CompareAgrees(x: Server, y: Server, z: Server, field: SortField)
    ensures Agree(CompareServers(x, y, field), CompareServers(y, z, field), CompareServers(x, z, field))
    ensures CompareServers(y, x, field) == Flip(CompareServers(x, y, field))
  {
    PrimaryAgrees(x, y, z, field);
    TextAgrees(x.name, y.name, z.name);
    TextAgrees(SourceText(x.source), SourceText(y.source), SourceText(z.source));
    TextAgrees(x.originPath, y.originPath, z.originPath);
  }

  function AtMostBy(field: SortField): (Server, Server) -> bool {
    (l, r) => CompareServers(l, r, field) != Gt
  }

  /** `compare_servers` is a total preorder for every field, and two servers that compare
      equal have the same name. */
  lemma CompareIsPreorder(field: SortField)
    ensures TotalPreorder(AtMostBy(field))
    ensures forall x, y | AtMostBy(field)(x, y) && AtMostBy(field)(y, x) :: x.name == y.name
  {
    forall x, y ensures AtMostBy(field)(x, y) || AtMostBy(field)(y, x) {
      CompareAgrees(x, y, x, field);
    }
    forall x, y, z | AtMostBy(field)(x, y) && AtMostBy(field)(y, z) ensures AtMostBy(field)(x, z) {
      CompareAgrees(x, y, z, field);
    }
    forall x, y | AtMostBy(field)(x, y) && AtMostBy(field)(y, x) ensures x.name == y.name {
      CompareAgrees(x, y, x, field);
      TextAgrees(x.name, y.name, x.name);
    }
  }

  // ---- the result ----

  function Reversed<A>(s: seq<A>): (r: seq<A>)
    ensures |r| == |s| && forall i | 0 <= i < |s| :: r[i] == s[|s| - 1 - i]
  {
    seq(|s|, i requires 0 <= i < |s| => s[|s| - 1 - i])
  }

  function Drop<A>(s: seq<A>, n: nat): seq<A> {
    if n <= |s| then s[n..] else []
  }

  function Take<A>(s: seq<A>, n: nat): seq<A> {
    if n <= |s| then s[..n] else s
  }

  /** Every matching server, in order. */
  function AllResults(servers: seq<Server>, o: Options): seq<Server> {
    var sorted := SortBy(AtMostBy(o.sortBy), Filter(Keep(o), servers));
    if o.sortOrder == Desc then Reversed(sorted) else sorted
  }

  function Page(all: seq<Server>, offset: nat, limit: Option<nat>): seq<Server> {
    match limit case Some(n) => Take(Drop(all, offset), n) case None => Drop(all, offset)
  }

  method KeepMatching(report: seq<Server>, o: Options) returns (servers: seq<Server>)
    ensures servers == Filter(Keep(o), report)
  {
    servers := [];
    for i := 0 to |report|
      invariant servers == Filter(Keep(o), report[..i])
    {
      FilterPush(Keep(o), report[..i], report[i]);
      assert report[..i + 1] == report[..i] + [report[i]];
      if Matches(report[i], o) {
        servers := servers + [report[i]];
      }
    }
    assert report[..|report|] == report;
  }

  /** The pipeline as the source runs it on a vector. */
  method ApplySearch(report: seq<Server>, o: Options) returns (servers: seq<Server>)
    ensures servers == Page(AllResults(report, o), o.offset, o.limit)
  {
    servers := KeepMatching(report, o);
    servers := SortBy(AtMostBy(o.sortBy), servers);
    if o.sortOrder == Desc {
      servers := Reversed(servers);
    }
    if o.offset > 0 {
      servers := if o.offset <= |servers| then servers[o.offset..] else [];
    }
    if o.limit.Some? && o.limit.value < |servers| {
      servers := servers[..o.limit.value];
    }
  }

  ghost predicate DistinctlyNamed(servers: seq<Server>) {
    forall x, y | x in servers && y in servers && x.name == y.name :: x == y
  }

  lemma {:induction false} FilterMultiset(p: Server -> bool, s: seq<Server>, t: seq<Server>)
    requires multiset(s) == multiset(t)
    ensures multiset(Filter(p, s)) == multiset(Filter(p, t))
  {
    forall x ensures multiset(Filter(p, s))[x] == multiset(Filter(p, t))[x] {
      FilterCount(p, s, x);
      FilterCount(p, t, x);
    }
  }

  lemma {:induction false} FilterCount(p: Server -> bool, s: seq<Server>, x: Server)
    ensures multiset(Filter(p, s))[x] == if p(x) then multiset(s)[x] else 0
    decreases |s|
  {
    if s != [] {
      FilterCount(p, s[1..], x);
      assert s == [s[0]] + s[1..];
    }
  }

  /** With distinct names the result does not depend on the order of the report. */
  lemma ResultsIgnoreInputOrder(s: seq<Server>, t: seq<Server>, o: Options)
    requires multiset(s) == multiset(t) && DistinctlyNamed(s)
    ensures AllResults(s, o) == AllResults(t, o)
  {
    var le, keep := AtMostBy(o.sortBy), Keep(o);
    var fs, ft := Filter(keep, s), Filter(keep, t);
    CompareIsPreorder(o.sortBy);
    FilterMultiset(keep, s, t);
    SortSorts(le, fs);
    SortSorts(le, ft);
    SortPermutes(le, fs);
    SortPermutes(le, ft);
    SameMembers(SortBy(le, fs), fs);
    SortedUnique(le, SortBy(le, fs), SortBy(le, ft));
  }

  /** With distinct names there is one ascending order of the matching servers, and it is the
      one produced. */
  lemma OnlyOneOrder(s: seq<Server>, t: seq<Server>, o: Options)
    requires DistinctlyNamed(s) && o.sortOrder == Asc
    requires multiset(t) == multiset(Filter(Keep(o), s)) && SortedBy(AtMostBy(o.sortBy), t)
    ensures t == AllResults(s, o)
  {
    var le, fs := AtMostBy(o.sortBy), Filter(Keep(o), s);
    CompareIsPreorder(o.sortBy);
    SortSorts(le, fs);
    SortPermutes(le, fs);
    SameMembers(t, fs);
    SortedUnique(le, t, SortBy(le, fs));
  }

  /** What discovery reports has distinct names, so searching it has one result. */
  lemma ReportsHaveDistinctNames(sources: seq<Source>, found: Source -> seq<Server>, servers: seq<Server>)
    requires HoldsWinners(sources, found, servers)
    ensures DistinctlyNamed(servers)
  {
    forall x, y | x in servers && y in servers && x.name == y.name ensures x == y {
      var i :| 0 <= i < |servers| && servers[i] == x;
      var j :| 0 <= j < |servers| && servers[j] == y;
    }
  }

  /** The results are exactly the matching servers, as often as they are in the report, and
      each is in order with every later one. */
  lemma ResultsAreSortedMatches(s: seq<Server>, o: Options, x: Server)
    ensures multiset(AllResults(s, o))[x] == if Matches(x, o) then multiset(s)[x] else 0
    ensures forall i, j | 0 <= i < j < |AllResults(s, o)| ::
              var c := CompareServers(AllResults(s, o)[i], AllResults(s, o)[j], o.sortBy);
              if o.sortOrder == Asc then c != Gt else c != Lt
  {
    var le, keep := AtMostBy(o.sortBy), Keep(o);
    var sorted := SortBy(le, Filter(keep, s));
    CompareIsPreorder(o.sortBy);
    SortSorts(le, Filter(keep, s));
    SortPermutes(le, Filter(keep, s));
    FilterCount(keep, s, x);
    ReversedMultiset(sorted);
    if o.sortOrder == Desc {
      forall i, j | 0 <= i < j < |sorted|
        ensures CompareServers(Reversed(sorted)[i], Reversed(sorted)[j], o.sortBy) != Lt
      {
        assert le(sorted[|sorted| - 1 - j], sorted[|sorted| - 1 - i]);
        CompareAgrees(Reversed(sorted)[i], Reversed(sorted)[j], Reversed(sorted)[i], o.sortBy);
      }
    } else {
      assert forall i, j | 0 <= i < j < |sorted| :: le(sorted[i], sorted[j]);
    }
  }

  lemma {:induction false} ReversedMultiset(s: seq<Server>)
    ensures multiset(Reversed(s)) == multiset(s)
    decreases |s|
  {
    if s != [] {
      ReversedMultiset(s[1..]);
      assert s == [s[0]] + s[1..];
      assert Reversed(s) == Reversed(s[1..]) + [s[0]];
    }
  }

  /** The place of a server by one field: scopes and transports have an order of their own, the
      other fields are ordered as texts. */
  ghost predicate InOrder(x: Server, y: Server, field: SortField) {
    match field
    case ByServerName => !Less(y.name, x.name)
    case BySource => !Less(SourceText(y.source), SourceText(x.source))
    case ByScope => x.scope == Project || y.scope == Global
    case ByTransport =>
      || x.transport == y.transport || x.transport == Stdio || y.transport == Grpc
      || (x.transport == Sse && y.transport != Stdio)
      || (x.transport == Ws && y.transport == StreamableHttp)
    case ByOriginPath => !Less(y.originPath, x.originPath)
  }

  /** The results are ordered by the field asked for, and by name where that is the same. */
  lemma ResultsAreOrdered(s: seq<Server>, o: Options, i: nat, j: nat)
    requires i < j < |AllResults(s, o)|
    ensures var x, y := AllResults(s, o)[i], AllResults(s, o)[j];
            && InOrder(if o.sortOrder == Asc then x else y, if o.sortOrder == Asc then y else x, o.sortBy)
            && (InOrder(x, y, o.sortBy) && InOrder(y, x, o.sortBy) ==>
                if o.sortOrder == Asc then !Less(y.name, x.name) else !Less(x.name, y.name))
  {
    var x, y := AllResults(s, o)[i], AllResults(s, o)[j];
    ResultsAreSortedMatches(s, o, x);
    InOrderIff(x, y, o.sortBy);
    InOrderIff(y, x, o.sortBy);
    CompareAgrees(x, y, x, o.sortBy);
    TextAgrees(x.name, y.name, x.name);
  }

  lemma InOrderIff(x: Server, y: Server, field: SortField)
    ensures InOrder(x, y, field) <==> Primary(x, y, field) != Gt
  {
    TextAgrees(x.name, y.name, x.name);
    TextAgrees(SourceText(x.source), SourceText(y.source), SourceText(x.source));
    TextAgrees(x.originPath, y.originPath, x.originPath);
    LessAsymmetric(x.name, y.name);
    LessAsymmetric(SourceText(x.source), SourceText(y.source));
    LessAsymmetric(x.originPath, y.originPath);
  }

  /** A page is that part of the results, cut off at their end. */
  lemma PageIs(all: seq<Server>, offset: nat, limit: Option<nat>, i: nat)
    ensures var page := Page(all, offset, limit);
            && (i < |page| <==> offset + i < |all| && (limit == None || i < limit.value))
            && (i < |page| ==> page[i] == all[offset + i])
  {
  }

  /** Descending order is ascending order backwards. */
  lemma DescReversesAsc(s: seq<Server>, o: Options)
    ensures AllResults(s, o.(sortOrder := Desc)) == Reversed(AllResults(s, o.(sortOrder := Asc)))
  {
    SameFilter(s, o.(sortOrder := Desc), o.(sortOrder := Asc));
  }

  lemma {:induction false} SameFilter(s: seq<Server>, o: Options, o': Options)
    requires o.(sortOrder := o'.sortOrder) == o'
    ensures Filter(Keep(o), s) == Filter(Keep(o'), s)
    decreases |s|
  {
    if s != [] {
      SameFilter(s[1..], o, o');
    }
  }

  /** Consecutive pages join into one, and the pages from the start make up the whole. */
  lemma PagesJoin(all: seq<Server>, offset: nat, a: nat, b: nat)
    ensures Page(all, offset, Some(a)) + Page(all, offset + a, Some(b)) == Page(all, offset, Some(a + b))
    ensures Page(all, offset, Some(a)) + Page(all, offset + a, None) == Page(all, offset, None)
    ensures Page(all, 0, None) == all
  {
  }
}
