/** Merging the servers found in the configuration files of several tools
    (rust/src/discovery/mod.rs): within a tool the narrower scope wins, between tools the one
    of higher priority, and what loses is reported as a conflict. */
module Discovery {
  import opened Json
  import opened Ordering
  import opened Sorting

  datatype Source = Cursor | Claude | Codex | Windsurf | OpenCode | Nodecode | VsCode

  datatype Scope = Project | Global

  datatype Transport = Stdio | Sse | Ws | StreamableHttp | Grpc

  datatype Server = Server(
    name: string,
    source: Source,
    scope: Scope,
    originPath: string,
    transport: Transport,
    command: Option<string>,
    args: seq<string>,
    url: Option<string>,
    headers: map<string, string>,
    env: map<string, string>,
    enabled: bool,
    rawFormat: string)

  datatype Conflict = Conflict(
    name: string,
    keptSource: Source,
    keptScope: Scope,
    keptOriginPath: string,
    droppedSource: Source,
    droppedScope: Scope,
    droppedOriginPath: string)

  const SOURCE_PRIORITY: seq<Source> := [Cursor, Claude, Codex, Windsurf, OpenCode, Nodecode, VsCode]

  function ScopePriority(s: Scope): nat {
    match s case Project => 0 case Global => 1
  }

  // ---- one source ----

  predicate ByNameAndScope(a: Server, b: Server) {
    Less(a.name, b.name) || (a.name == b.name && ScopePriority(a.scope) <= ScopePriority(b.scope))
  }

  lemma ByNameAndScopeIsPreorder()
    ensures TotalPreorder(ByNameAndScope)
  {
    forall x: Server, y: Server ensures ByNameAndScope(x, y) || ByNameAndScope(y, x) {
      LessTotal(x.name, y.name);
    }
    forall x: Server, y: Server, z: Server | ByNameAndScope(x, y) && ByNameAndScope(y, z) ensures ByNameAndScope(x, z) {
      if Less(x.name, y.name) && Less(y.name, z.name) {
        LessTransitive(x.name, y.name, z.name);
      }
    }
  }

  function FirstNamed(s: seq<Server>, name: string): Option<Server> {
    if s == [] then None else if s[0].name == name then Some(s[0]) else FirstNamed(s[1..], name)
  }

  /** Server i is the one its source contributes under its name: no other of that name has a
      narrower scope, or the same scope and an earlier place. */
  ghost predicate Contributes(servers: seq<Server>, i: nat)
    requires i < |servers|
  {
    forall j | 0 <= j < |servers| && servers[j].name == servers[i].name ::
      ScopePriority(servers[i].scope) < ScopePriority(servers[j].scope) ||
      (servers[i].scope == servers[j].scope && i <= j)
  }

  /** A source contributes one server for each of its names, and that is the one. */
  ghost predicate Collapses(servers: seq<Server>, out: map<string, Server>) {
    && (forall i | 0 <= i < |servers| :: servers[i].name in out)
    && (forall n | n in out ::
          exists i :: 0 <= i < |servers| && servers[i] == out[n] && out[n].name == n && Contributes(servers, i))
  }

  /** Said of project and global servers: the first project server of a name is the one, and the
      first global server only when the name has no project server. */
  lemma ContributesIff(servers: seq<Server>, i: nat)
    requires i < |servers|
    ensures Contributes(servers, i) <==>
            && (forall j | 0 <= j < i && servers[j].name == servers[i].name :: servers[j].scope != servers[i].scope)
            && (servers[i].scope == Project ||
                forall j | 0 <= j < |servers| && servers[j].name == servers[i].name :: servers[j].scope == Global)
  {
  }

  method CollapseSourceScopePrecedence(servers: seq<Server>) returns (out: map<string, Server>)
    ensures Collapses(servers, out)
  {
    var sorted := SortBy(ByNameAndScope, servers);
    out := map[];
    for i := 0 to |sorted|
      invariant forall n :: FirstNamed(sorted[..i], n) == if n in out then Some(out[n]) else None
    {
      FirstNamedPush(sorted, i);
      if sorted[i].name !in out {
        out := out[sorted[i].name := sorted[i]];
      }
    }
    assert sorted[..|sorted|] == sorted;
    forall n
      ensures n in out ==>
                exists i :: 0 <= i < |servers| && servers[i] == out[n] && out[n].name == n && Contributes(servers, i)
    {
      FirstOfSorted(servers, n);
      if n in out {
        var i := BestPlace(servers, n);
      }
    }
    forall i | 0 <= i < |servers| ensures servers[i].name in out {
      FirstOfSorted(servers, servers[i].name);
      BestExists(servers, i);
    }
  }

  lemma {:induction false} FirstNamedPush(s: seq<Server>, i: nat)
    requires i < |s|
    ensures forall n :: FirstNamed(s[..i + 1], n) ==
                        match FirstNamed(s[..i], n)
                        case Some(x) => Some(x)
                        case None => if s[i].name == n then Some(s[i]) else None
    decreases i
  {
    if i > 0 {
      FirstNamedPush(s[1..], i - 1);
      assert s[1..][..i] == s[..i + 1][1..] && s[1..][..i - 1] == s[..i][1..];
    }
  }

  /** Reading from the right: the server of that name with the narrowest scope, the earliest
      among equals. */
  function Best(s: seq<Server>, name: string): Option<Server> {
    if s == [] then None
    else if s[0].name != name then Best(s[1..], name)
    else match Best(s[1..], name)
      case Some(y) => if ScopePriority(s[0].scope) <= ScopePriority(y.scope) then Some(s[0]) else Some(y)
      case None => Some(s[0])
  }

  lemma {:induction false} BestExists(s: seq<Server>, i: nat)
    requires i < |s|
    ensures Best(s, s[i].name).Some?
    decreases |s|
  {
    if i > 0 {
      BestExists(s[1..], i - 1);
    }
  }

  lemma {:induction false} BestPlace(s: seq<Server>, name: string) returns (i: nat)
    requires Best(s, name).Some?
    ensures i < |s| && s[i] == Best(s, name).value && s[i].name == name && Contributes(s, i)
    decreases |s|
  {
    var later := Best(s[1..], name);
    if s[0].name == name && Best(s, name) == Some(s[0])
       && (later.Some? ==> ScopePriority(s[0].scope) <= ScopePriority(later.value.scope)) {
      i := 0;
      if Best(s[1..], name).Some? {
        var k := BestPlace(s[1..], name);
        forall j | 0 <= j < |s| && s[j].name == name
          ensures ScopePriority(s[0].scope) < ScopePriority(s[j].scope) || s[0].scope == s[j].scope
        {
          if j > 0 {
            assert s[1..][j - 1] == s[j];
          }
        }
      } else {
        forall j | 0 < j < |s| ensures s[j].name != name {
          if s[j].name == name {
            BestExists(s[1..], j - 1);
          }
        }
      }
    } else {
      var k := BestPlace(s[1..], name);
      i := k + 1;
      forall j | 0 <= j < |s| && s[j].name == name
        ensures ScopePriority(s[i].scope) < ScopePriority(s[j].scope) || (s[i].scope == s[j].scope && i <= j)
      {
        if j > 0 {
          assert s[1..][j - 1] == s[j];
        }
      }
    }
  }

  /** The first of a name after the sort is the best of that name before it. */
  lemma {:induction false} FirstOfSorted(s: seq<Server>, name: string)
    ensures FirstNamed(SortBy(ByNameAndScope, s), name) == Best(s, name)
    decreases |s|
  {
    if s != [] {
      FirstOfSorted(s[1..], name);
      ByNameAndScopeIsPreorder();
      SortSorts(ByNameAndScope, s[1..]);
      FirstOfInsert(s[0], SortBy(ByNameAndScope, s[1..]), name);
    }
  }

  lemma {:induction false} FirstOfInsert(x: Server, s: seq<Server>, name: string)
    requires SortedBy(ByNameAndScope, s)
    ensures FirstNamed(Insert(ByNameAndScope, x, s), name) ==
            if x.name != name then FirstNamed(s, name)
            else match FirstNamed(s, name)
              case Some(y) => if ScopePriority(x.scope) <= ScopePriority(y.scope) then Some(x) else Some(y)
              case None => Some(x)
    decreases |s|
  {
    LessIrreflexive(name);
    if s == [] {
    } else if ByNameAndScope(x, s[0]) {
      assert ([x] + s)[1..] == s;
      if x.name == name && FirstNamed(s, name).Some? {
        FirstIsLater(s, name);
        ByNameAndScopeIsPreorder();
        assert ByNameAndScope(x, FirstNamed(s, name).value);
      }
    } else {
      FirstOfInsert(x, s[1..], name);
      assert ([s[0]] + Insert(ByNameAndScope, x, s[1..]))[1..] == Insert(ByNameAndScope, x, s[1..]);
    }
  }

  lemma {:induction false} FirstIsLater(s: seq<Server>, name: string)
    requires SortedBy(ByNameAndScope, s) && FirstNamed(s, name).Some?
    ensures FirstNamed(s, name).value in s && FirstNamed(s, name).value.name == name
    ensures s[0] == FirstNamed(s, name).value || ByNameAndScope(s[0], FirstNamed(s, name).value)
    decreases |s|
  {
    if s[0].name != name {
      FirstIsLater(s[1..], name);
    }
  }

  // ---- several sources ----

  type Contribution = map<string, Server>

  ghost predicate Named(c: Contribution) {
    forall n | n in c :: c[n].name == n
  }

  predicate ByName(a: Server, b: Server) {
    Less(a.name, b.name) || a.name == b.name
  }

  lemma ByNameIsPreorder()
    ensures TotalPreorder(ByName)
  {
    forall x: Server, y: Server ensures ByName(x, y) || ByName(y, x) {
      LessTotal(x.name, y.name);
    }
    forall x: Server, y: Server, z: Server | ByName(x, y) && ByName(y, z) ensures ByName(x, z) {
      if Less(x.name, y.name) && Less(y.name, z.name) {
        LessTransitive(x.name, y.name, z.name);
      }
    }
  }

  /** s holds the servers of a contribution, each once. */
  ghost predicate Enumerates(s: seq<Server>, c: Contribution) {
    && (forall i | 0 <= i < |s| :: s[i].name in c && c[s[i].name] == s[i])
    && (forall i, j | 0 <= i < j < |s| :: s[i].name != s[j].name)
    && (forall n | n in c :: c[n] in s)
  }

  ghost predicate DistinctNames(s: seq<Server>) {
    forall i, j | 0 <= i < j < |s| :: s[i].name != s[j].name
  }

  /** The servers of a tree map, in the order of their names. */
  method ValuesByName(c: Contribution) returns (s: seq<Server>)
    requires Named(c)
    ensures Enumerates(s, c) && SortedBy(ByName, s) && |s| == |c|
  {
    s := [];
    var rest := c.Keys;
    while rest != {}
      invariant rest <= c.Keys && |s| + |rest| == |c|
      invariant SortedBy(ByName, s) && DistinctNames(s)
      invariant forall x :: x in s <==> x.name in c.Keys - rest && c[x.name] == x
      decreases rest
    {
      var n :| n in rest;
      rest := rest - {n};
      InsertByName(c[n], s);
      s := Insert(ByName, c[n], s);
    }
  }

  lemma InsertByName(x: Server, s: seq<Server>)
    requires SortedBy(ByName, s) && DistinctNames(s) && forall y | y in s :: y.name != x.name
    ensures var r := Insert(ByName, x, s);
            SortedBy(ByName, r) && DistinctNames(r) && |r| == |s| + 1 && forall y :: y in r <==> y == x || y in s
  {
    ByNameIsPreorder();
    InsertSorts(ByName, x, s);
    InsertAdds(x, s);
  }

  lemma {:induction false} InsertAdds(x: Server, s: seq<Server>)
    requires DistinctNames(s) && forall y | y in s :: y.name != x.name
    ensures var r := Insert(ByName, x, s);
            DistinctNames(r) && |r| == |s| + 1 && forall y :: y in r <==> y == x || y in s
    decreases |s|
  {
    if s != [] && !ByName(x, s[0]) {
      InsertAdds(x, s[1..]);
      var rest := Insert(ByName, x, s[1..]);
      forall j | 0 <= j < |rest| ensures rest[j].name != s[0].name {
        assert rest[j] in rest;
        assert rest[j] == x || rest[j] in s[1..];
      }
      assert forall y :: y in s <==> y == s[0] || y in s[1..];
    }
  }

  function ConflictOf(kept: Server, dropped: Server): Conflict {
    Conflict(dropped.name, kept.source, kept.scope, kept.originPath, dropped.source, dropped.scope, dropped.originPath)
  }

  function Total(lists: seq<Contribution>): nat {
    if lists == [] then 0 else Total(lists[..|lists| - 1]) + |lists[|lists| - 1]|
  }

  /** The servers of the sources before i, and those of source i named in `done`. */
  predicate Seen(lists: seq<Contribution>, i: nat, done: set<string>, j: nat, n: string) {
    j < |lists| && n in lists[j] && (j < i || (j == i && n in done))
  }

  /** What merging has made of the servers seen so far. `at` gives the source that each kept
      server came from, `drops` the source and name of each conflict's dropped server. */
  ghost predicate Merged(lists: seq<Contribution>, i: nat, done: set<string>,
                         servers: map<string, Server>, conflicts: seq<Conflict>,
                         at: map<string, nat>, drops: seq<(nat, string)>) {
    && at.Keys == servers.Keys && |drops| == |conflicts|
    && (forall n | n in at :: Seen(lists, i, done, at[n], n) && servers[n] == lists[at[n]][n])
    && (forall j: nat, n | Seen(lists, i, done, j, n) :: Accounted(at, drops, j, n))
    && (forall k | 0 <= k < |drops| :: DropOk(lists, i, done, servers, conflicts[k], at, drops[k]))
    && (forall k, l | 0 <= k < l < |drops| :: drops[k] != drops[l])
  }

  /** A seen server is the one kept under its name, or it was dropped for one of higher
      priority. */
  predicate Accounted(at: map<string, nat>, drops: seq<(nat, string)>, j: nat, n: string) {
    n in at && at[n] <= j && (at[n] < j ==> (j, n) in drops)
  }

  ghost predicate DropOk(lists: seq<Contribution>, i: nat, done: set<string>, servers: map<string, Server>, c: Conflict,
                         at: map<string, nat>, drop: (nat, string)) {
    var (j, n) := drop;
    && Seen(lists, i, done, j, n)
    && n in at && at[n] < j
    && n in servers && c == ConflictOf(servers[n], lists[j][n])
  }

  /** One server of source i is merged: kept when its name is new, reported otherwise. */
  method MergeServer(lists: seq<Contribution>, i: nat, ghost done: set<string>, server: Server,
                     servers: map<string, Server>, conflicts: seq<Conflict>,
                     ghost at: map<string, nat>, ghost drops: seq<(nat, string)>)
    returns (servers': map<string, Server>, conflicts': seq<Conflict>,
             ghost at': map<string, nat>, ghost drops': seq<(nat, string)>)
    requires i < |lists| && Named(lists[i]) && server.name in lists[i] && lists[i][server.name] == server
    requires server.name !in done && Merged(lists, i, done, servers, conflicts, at, drops)
    ensures Merged(lists, i, done + {server.name}, servers', conflicts', at', drops')
    ensures |servers'| + |conflicts'| == |servers| + |conflicts| + 1
  {
    var n := server.name;
    if n in servers {
      DropKeepsMerged(lists, i, done, servers, conflicts, at, drops, n);
      return servers, conflicts + [ConflictOf(servers[n], server)], at, drops + [(i, n)];
    } else {
      KeepKeepsMerged(lists, i, done, servers, conflicts, at, drops, n);
      return servers[n := server], conflicts, at[n := i], drops;
    }
  }

  /** One source is merged into what the sources of higher priority have left. */
  method MergeSource(lists: seq<Contribution>, i: nat, servers: map<string, Server>, conflicts: seq<Conflict>,
                     ghost at: map<string, nat>, ghost drops: seq<(nat, string)>)
    returns (servers': map<string, Server>, conflicts': seq<Conflict>,
             ghost at': map<string, nat>, ghost drops': seq<(nat, string)>)
    requires i < |lists| && Named(lists[i])
    requires Merged(lists, i, {}, servers, conflicts, at, drops)
    ensures Merged(lists, i + 1, {}, servers', conflicts', at', drops')
    ensures |servers'| + |conflicts'| == |servers| + |conflicts| + |lists[i]|
  {
    servers', conflicts', at', drops' := servers, conflicts, at, drops;
    var values := ValuesByName(lists[i]);
    assert NamesOf(values[..0]) == {};
    for k := 0 to |values|
      invariant Merged(lists, i, NamesOf(values[..k]), servers', conflicts', at', drops')
      invariant |servers'| + |conflicts'| == |servers| + |conflicts| + k
    {
      NextName(values, lists[i], k);
      servers', conflicts', at', drops' :=
        MergeServer(lists, i, NamesOf(values[..k]), values[k], servers', conflicts', at', drops');
    }
    AllNamed(values, lists[i]);
    AllSeen(lists, i, NamesOf(values[..|values|]), servers', conflicts', at', drops');
  }

  function NamesOf(s: seq<Server>): set<string> {
    set x | x in s :: x.name
  }

  lemma NextName(values: seq<Server>, c: Contribution, k: nat)
    requires k < |values| && Enumerates(values, c)
    ensures values[k].name in c && c[values[k].name] == values[k]
    ensures values[k].name !in NamesOf(values[..k])
    ensures NamesOf(values[..k + 1]) == NamesOf(values[..k]) + {values[k].name}
  {
    assert values[..k + 1] == values[..k] + [values[k]];
  }

  lemma AllNamed(values: seq<Server>, c: Contribution)
    requires Named(c) && Enumerates(values, c)
    ensures forall n | n in c :: n in NamesOf(values[..|values|])
  {
    assert values[..|values|] == values;
  }

  lemma KeepKeepsMerged(lists: seq<Contribution>, i: nat, done: set<string>, servers: map<string, Server>,
                        conflicts: seq<Conflict>, at: map<string, nat>, drops: seq<(nat, string)>, n: string)
    requires Merged(lists, i, done, servers, conflicts, at, drops)
    requires i < |lists| && n in lists[i] && n !in servers
    ensures Merged(lists, i, done + {n}, servers[n := lists[i][n]], conflicts, at[n := i], drops)
  {
    var servers', at' := servers[n := lists[i][n]], at[n := i];
    forall k | 0 <= k < |drops| ensures DropOk(lists, i, done + {n}, servers', conflicts[k], at', drops[k]) {
      assert DropOk(lists, i, done, servers, conflicts[k], at, drops[k]);
    }
    forall j: nat, m | Seen(lists, i, done + {n}, j, m) ensures Accounted(at', drops, j, m) {
      if (j, m) != (i, n) {
        assert Accounted(at, drops, j, m);
      }
    }
  }

  lemma DropKeepsMerged(lists: seq<Contribution>, i: nat, done: set<string>, servers: map<string, Server>,
                        conflicts: seq<Conflict>, at: map<string, nat>, drops: seq<(nat, string)>, n: string)
    requires Merged(lists, i, done, servers, conflicts, at, drops)
    requires i < |lists| && n in lists[i] && n !in done && n in servers && Named(lists[i])
    ensures Merged(lists, i, done + {n}, servers, conflicts + [ConflictOf(servers[n], lists[i][n])], at,
                   drops + [(i, n)])
  {
    var conflicts', drops' := conflicts + [ConflictOf(servers[n], lists[i][n])], drops + [(i, n)];
    assert Seen(lists, i, done, at[n], n);
    forall k | 0 <= k < |drops'| ensures DropOk(lists, i, done + {n}, servers, conflicts'[k], at, drops'[k]) {
      if k < |drops| {
        assert DropOk(lists, i, done, servers, conflicts[k], at, drops[k]);
      }
    }
    forall k | 0 <= k < |drops| ensures drops[k] != (i, n) {
      assert DropOk(lists, i, done, servers, conflicts[k], at, drops[k]);
    }
    assert drops'[|drops|] == (i, n);
    forall j: nat, m | Seen(lists, i, done + {n}, j, m) ensures Accounted(at, drops', j, m) {
      if (j, m) != (i, n) {
        assert Accounted(at, drops, j, m);
      }
    }
  }

  lemma AllSeen(lists: seq<Contribution>, i: nat, done: set<string>, servers: map<string, Server>,
                conflicts: seq<Conflict>, at: map<string, nat>, drops: seq<(nat, string)>)
    requires Merged(lists, i, done, servers, conflicts, at, drops)
    requires i < |lists| && forall n | n in lists[i] :: n in done
    ensures Merged(lists, i + 1, {}, servers, conflicts, at, drops)
  {
    forall j: nat, n | Seen(lists, i + 1, {}, j, n) ensures Accounted(at, drops, j, n) {
      assert Accounted(at, drops, j, n);
    }
    forall n | n in at ensures Seen(lists, i + 1, {}, at[n], n) {
      assert Seen(lists, i, done, at[n], n);
    }
    forall k | 0 <= k < |drops| ensures DropOk(lists, i + 1, {}, servers, conflicts[k], at, drops[k]) {
      assert DropOk(lists, i, done, servers, conflicts[k], at, drops[k]);
    }
  }

  lemma TotalPush(lists: seq<Contribution>, i: nat)
    requires i < |lists|
    ensures Total(lists[..i + 1]) == Total(lists[..i]) + |lists[i]|
  {
    assert lists[..i + 1][..i] == lists[..i];
  }

  lemma NothingMerged(lists: seq<Contribution>)
    ensures Merged(lists, 0, {}, map[], [], map[], [])
  {
  }

  /** `discover`, given what each selected source contributes, in order of priority: for each
      name the server of the first source that has it, and for every other one exactly one
      conflict, which names that server as kept. */
  method Merge(lists: seq<Contribution>)
    returns (servers: map<string, Server>, conflicts: seq<Conflict>,
             ghost at: map<string, nat>, ghost drops: seq<(nat, string)>)
    requires forall i | 0 <= i < |lists| :: Named(lists[i])
    ensures Merged(lists, |lists|, {}, servers, conflicts, at, drops)
    ensures |servers| + |conflicts| == Total(lists)
  {
    servers, conflicts, at, drops := map[], [], map[], [];
    NothingMerged(lists);
    for i := 0 to |lists|
      invariant Merged(lists, i, {}, servers, conflicts, at, drops)
      invariant |servers| + |conflicts| == Total(lists[..i])
    {
      TotalPush(lists, i);
      servers, conflicts, at, drops := MergeSource(lists, i, servers, conflicts, at, drops);
    }
    assert lists[..|lists|] == lists;
  }

  /** The kept server of a name is the least of all servers of that name found anywhere, first
      by source, then by scope, then by place in its source's list. */
  lemma KeptIsLeast(found: seq<seq<Server>>, lists: seq<Contribution>, servers: map<string, Server>,
                    conflicts: seq<Conflict>, at: map<string, nat>, drops: seq<(nat, string)>, n: string)
    returns (i: nat, k: nat)
    requires |lists| == |found| && forall s | 0 <= s < |found| :: Collapses(found[s], lists[s])
    requires Merged(lists, |lists|, {}, servers, conflicts, at, drops) && n in servers
    ensures i < |found| && k < |found[i]| && found[i][k] == servers[n] && servers[n].name == n
    ensures Contributes(found[i], k)
    ensures forall j | 0 <= j < i :: forall m | 0 <= m < |found[j]| :: found[j][m].name != n
  {
    i := at[n];
    assert Seen(lists, |lists|, {}, at[n], n);
    k :| 0 <= k < |found[i]| && found[i][k] == lists[i][n] && lists[i][n].name == n && Contributes(found[i], k);
    forall j: nat | j < |lists| && n in lists[j] ensures i <= j {
      assert Seen(lists, |lists|, {}, j, n);
    }
    forall j, m | 0 <= j < i && 0 <= m < |found[j]| ensures found[j][m].name != n {
      assert found[j][m].name in lists[j];
    }
  }

  /** Every server found has its name kept; and each contribution that is not kept is the
      dropped side of one conflict, and of one only. */
  lemma EveryLoserConflictsOnce(lists: seq<Contribution>, servers: map<string, Server>, conflicts: seq<Conflict>,
                                at: map<string, nat>, drops: seq<(nat, string)>, j: nat, n: string)
    returns (k: nat)
    requires Merged(lists, |lists|, {}, servers, conflicts, at, drops)
    requires j < |lists| && n in lists[j] && n in at && at[n] != j
    ensures k < |conflicts| && drops[k] == (j, n) && conflicts[k] == ConflictOf(servers[n], lists[j][n])
    ensures n in servers && conflicts[k].name == lists[j][n].name
    ensures conflicts[k].keptSource == servers[n].source && conflicts[k].keptScope == servers[n].scope
    ensures conflicts[k].keptOriginPath == servers[n].originPath
    ensures conflicts[k].droppedSource == lists[j][n].source && conflicts[k].droppedScope == lists[j][n].scope
    ensures conflicts[k].droppedOriginPath == lists[j][n].originPath
    ensures forall l | 0 <= l < |drops| && l != k :: drops[l] != (j, n)
  {
    assert Seen(lists, |lists|, {}, j, n);
    assert Accounted(at, drops, j, n);
    k :| 0 <= k < |drops| && drops[k] == (j, n);
    assert DropOk(lists, |lists|, {}, servers, conflicts[k], at, drops[k]);
  }

  // ---- the report ----

  datatype Report = Report(servers: seq<Server>, conflicts: seq<Conflict>)

  function Selected(from: Option<Source>): seq<Source> {
    match from case Some(source) => [source] case None => SOURCE_PRIORITY
  }

  function IsSelected(from: Option<Source>): Source -> bool {
    source => source in Selected(from)
  }

  /** The selected sources in the order in which they are merged. */
  function InPriorityOrder(from: Option<Source>): seq<Source> {
    Filter(IsSelected(from), SOURCE_PRIORITY)
  }

  /** Server x is the least of its name over all sources: no earlier source has the name, and
      it is the one its own source contributes. */
  ghost predicate Wins(sources: seq<Source>, found: Source -> seq<Server>, x: Server) {
    exists i: nat, k: nat :: WinsAt(sources, found, x, i, k)
  }

  ghost predicate WinsAt(sources: seq<Source>, found: Source -> seq<Server>, x: Server, i: nat, k: nat) {
    && i < |sources| && k < |found(sources[i])| && found(sources[i])[k] == x && Contributes(found(sources[i]), k)
    && forall j, m | 0 <= j < i && 0 <= m < |found(sources[j])| :: found(sources[j])[m].name != x.name
  }

  /** What merging has worked out: each source's list collapsed, all of them merged. */
  ghost predicate Worked(sources: seq<Source>, found: Source -> seq<Server>, lists: seq<Contribution>,
                         servers: map<string, Server>, conflicts: seq<Conflict>, at: map<string, nat>,
                         drops: seq<(nat, string)>) {
    Collapsed(sources, found, lists) && Merged(lists, |lists|, {}, servers, conflicts, at, drops)
  }

  /** The reported servers are in the order of their names, one for every name found, each
      the winner of its name. */
  ghost predicate HoldsWinners(sources: seq<Source>, found: Source -> seq<Server>, servers: seq<Server>) {
    && SortedBy(ByName, servers) && DistinctNames(servers)
    && (forall x | x in servers :: Wins(sources, found, x))
    && (forall source, y | source in sources && y in found(source) :: HasName(servers, y.name))
  }

  predicate HasName(servers: seq<Server>, name: string) {
    exists x | x in servers :: x.name == name
  }

  /** The list of every selected source, collapsed. */
  method CollapseEach(from: Option<Source>, found: Source -> seq<Server>) returns (bySource: map<Source, Contribution>)
    ensures forall source | source in Selected(from) :: source in bySource && Collapses(found(source), bySource[source])
  {
    bySource := map[];
    var selected := Selected(from);
    for i := 0 to |selected|
      invariant forall source | source in selected[..i] ::
                  source in bySource && Collapses(found(source), bySource[source])
    {
      assert selected[..i + 1] == selected[..i] + [selected[i]];
      var collapsed := CollapseSourceScopePrecedence(found(selected[i]));
      bySource := bySource[selected[i] := collapsed];
    }
    assert selected[..|selected|] == selected;
  }

  /** The conflicts are those of merging the collapsed lists, and with the servers they account
      for every contribution: conflict k reports the winner of the name `drops[k].1` and what
      source number `drops[k].0` contributes under it. */
  ghost predicate AccountsForAll(sources: seq<Source>, found: Source -> seq<Server>, report: Report) {
    exists lists, servers, at, drops ::
      && Worked(sources, found, lists, servers, report.conflicts, at, drops)
      && Enumerates(report.servers, servers)
      && |report.servers| + |report.conflicts| == Total(lists)
  }

  /** `discover`, given what the reader of each tool finds. */
  method Discover(from: Option<Source>, found: Source -> seq<Server>) returns (report: Report)
    ensures HoldsWinners(Selected(from), found, report.servers)
    ensures AccountsForAll(Selected(from), found, report)
  {
    var bySource := CollapseEach(from, found);
    var sources := InPriorityOrder(from);
    MergedInPriorityOrder(from);
    report := MergeCollapsed(sources, found, bySource);
  }

  method MergeCollapsed(sources: seq<Source>, found: Source -> seq<Server>, bySource: map<Source, Contribution>)
    returns (report: Report)
    requires forall source | source in sources :: source in bySource && Collapses(found(source), bySource[source])
    ensures HoldsWinners(sources, found, report.servers)
    ensures AccountsForAll(sources, found, report)
  {
    var lists := seq(|sources|, i requires 0 <= i < |sources| => bySource[sources[i]]);
    CollapsedIsNamed(sources, found, lists);
    var servers, conflicts, at, drops := Merge(lists);
    MergedIsNamed(sources, found, lists, servers, conflicts, at, drops);
    var values := ValuesByName(servers);
    report := Report(values, conflicts);
    ReportHoldsWinners(sources, found, lists, servers, conflicts, at, drops, values);
    assert Worked(sources, found, lists, servers, report.conflicts, at, drops);
  }

  lemma ReportHoldsWinners(sources: seq<Source>, found: Source -> seq<Server>, lists: seq<Contribution>,
                           servers: map<string, Server>, conflicts: seq<Conflict>,
                           at: map<string, nat>, drops: seq<(nat, string)>,
                           values: seq<Server>)
    requires Worked(sources, found, lists, servers, conflicts, at, drops)
    requires Enumerates(values, servers) && SortedBy(ByName, values)
    ensures HoldsWinners(sources, found, values)
  {
    forall x | x in values ensures Wins(sources, found, x) {
      WinnerOf(sources, found, lists, servers, conflicts, at, drops, x.name);
    }
    forall source, y | source in sources && y in found(source) ensures HasName(values, y.name) {
      var i :| 0 <= i < |sources| && sources[i] == source;
      var k :| 0 <= k < |found(source)| && found(source)[k] == y;
      NameIsKept(sources, found, lists, servers, conflicts, at, drops, i, k);
      assert servers[y.name] in values;
      WinnerOf(sources, found, lists, servers, conflicts, at, drops, y.name);
    }
  }

  lemma NameIsKept(sources: seq<Source>, found: Source -> seq<Server>, lists: seq<Contribution>,
                   servers: map<string, Server>, conflicts: seq<Conflict>,
                   at: map<string, nat>, drops: seq<(nat, string)>,
                   i: nat, k: nat)
    requires Worked(sources, found, lists, servers, conflicts, at, drops)
    requires i < |sources| && k < |found(sources[i])|
    ensures found(sources[i])[k].name in servers
  {
    var n := found(sources[i])[k].name;
    assert Collapses(found(sources[i]), lists[i]);
    assert Seen(lists, |lists|, {}, i, n);
    assert Accounted(at, drops, i, n);
  }

  /** Each list is what the reader's servers of that source collapse to. */
  ghost predicate Collapsed(sources: seq<Source>, found: Source -> seq<Server>, lists: seq<Contribution>) {
    |lists| == |sources| && forall i | 0 <= i < |sources| :: Collapses(found(sources[i]), lists[i])
  }

  lemma CollapsedIsNamed(sources: seq<Source>, found: Source -> seq<Server>, lists: seq<Contribution>)
    requires Collapsed(sources, found, lists)
    ensures forall i | 0 <= i < |lists| :: Named(lists[i])
  {
  }

  lemma MergedIsNamed(sources: seq<Source>, found: Source -> seq<Server>, lists: seq<Contribution>,
                      servers: map<string, Server>, conflicts: seq<Conflict>,
                      at: map<string, nat>, drops: seq<(nat, string)>)
    requires Worked(sources, found, lists, servers, conflicts, at, drops)
    ensures Named(servers)
  {
    forall n | n in servers ensures servers[n].name == n {
      WinnerOf(sources, found, lists, servers, conflicts, at, drops, n);
    }
  }

  lemma WinnerOf(sources: seq<Source>, found: Source -> seq<Server>, lists: seq<Contribution>,
                 servers: map<string, Server>, conflicts: seq<Conflict>,
                 at: map<string, nat>, drops: seq<(nat, string)>,
                 n: string)
    requires Worked(sources, found, lists, servers, conflicts, at, drops) && n in servers
    ensures servers[n].name == n && Wins(sources, found, servers[n])
  {
    var all := seq(|sources|, i requires 0 <= i < |sources| => found(sources[i]));
    forall j | 0 <= j < |sources| ensures all[j] == found(sources[j]) && Collapses(all[j], lists[j]) {
      assert Collapses(found(sources[j]), lists[j]);
    }
    var i, k := KeptIsLeast(all, lists, servers, conflicts, at, drops, n);
    assert WinsAt(sources, found, servers[n], i, k) by {
      forall j, m | 0 <= j < i && 0 <= m < |found(sources[j])| ensures found(sources[j])[m].name != n {
        assert all[j][m].name != n;
      }
    }
  }

  /** A name has one winner, so what is reported depends on nothing but what was found. */
  lemma OneWinner(sources: seq<Source>, found: Source -> seq<Server>, x: Server, y: Server)
    requires Wins(sources, found, x) && Wins(sources, found, y) && x.name == y.name
    ensures x == y
  {
    var i: nat, k: nat :| WinsAt(sources, found, x, i, k);
    var j: nat, m: nat :| WinsAt(sources, found, y, j, m);
    assert found(sources[i])[k].name == found(sources[j])[m].name;
  }

  /** The order of merging is the order of priority whether one source is asked for or all. */
  lemma MergedInPriorityOrder(from: Option<Source>)
    ensures InPriorityOrder(from) == Selected(from)
    ensures Selected(from) == match from
                              case Some(source) => [source]
                              case None => [Cursor, Claude, Codex, Windsurf, OpenCode, Nodecode, VsCode]
  {
    match from {
      case None =>
        FilterAll(IsSelected(from), SOURCE_PRIORITY);
      case Some(source) =>
        var i: nat := match source case Cursor => 0 case Claude => 1 case Codex => 2 case Windsurf => 3
                                   case OpenCode => 4 case Nodecode => 5 case VsCode => 6;
        assert SOURCE_PRIORITY[i] == source;
        FilterOne(IsSelected(from), SOURCE_PRIORITY, i);
    }
  }

  lemma {:induction false} FilterAll(p: Source -> bool, s: seq<Source>)
    requires forall x | x in s :: p(x)
    ensures Filter(p, s) == s
    decreases |s|
  {
    if s != [] {
      FilterAll(p, s[1..]);
      assert s == [s[0]] + s[1..];
    }
  }

  lemma {:induction false} FilterNone(p: Source -> bool, s: seq<Source>)
    requires forall x | x in s :: !p(x)
    ensures Filter(p, s) == []
    decreases |s|
  {
    if s != [] {
      FilterNone(p, s[1..]);
    }
  }

  lemma {:induction false} FilterOne(p: Source -> bool, s: seq<Source>, i: nat)
    requires i < |s| && forall j | 0 <= j < |s| :: p(s[j]) <==> j == i
    ensures Filter(p, s) == [s[i]]
    decreases |s|
  {
    if i > 0 {
      FilterOne(p, s[1..], i - 1);
    } else {
      FilterNone(p, s[1..]);
    }
  }
}
