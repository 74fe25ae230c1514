/** Filling in defaults and looking for missing keys in the arguments of a tool call
    (rust/src/tool_api/schema.rs and `normalize_args_for_tool` of
    rust/src/tool_api/client.rs). */
module Schema {
  import opened Json

  type Members = map<string, Value>

  // ---- reading a schema ----

  function Properties(schema: Value): (r: Members)
    ensures forall k | k in r :: r[k] < schema
  {
    match schema.Get("properties")
    case Some(Obj(fields)) => fields
    case _ => map[]
  }

  /** The keys a schema requires: the strings in its `required` array. */
  function RequiredKeys(schema: Value): seq<string> {
    match schema.Get("required")
    case Some(Arr(items)) => StringsOf(items)
    case _ => []
  }

  function StringsOf(items: seq<Value>): seq<string> {
    if items == [] then []
    else (if items[0].Str? then [items[0].s] else []) + StringsOf(items[1..])
  }

  predicate IsObjectSchema(schema: Value) {
    schema.Obj? &&
    match schema.Get("type")
    case Some(Str(t)) => t == "object"
    case Some(_) => false
    case None => "properties" in schema.fields || "required" in schema.fields
  }

  function DefaultOf(schema: Value, key: string): Option<Value> {
    if key in Properties(schema) then Properties(schema)[key].Get("default") else None
  }

  // ---- defaults ----

  /** A value after defaults: its members are completed when it is an object and its schema an
      object schema. */
  function Filled(schema: Value, v: Value): Value
    decreases schema, 1
  {
    if IsObjectSchema(schema) && v.Obj? then Obj(Completed(schema, v.fields)) else v
  }

  /** The members of an object after defaults: those it had and the defaults of those it had
      not, each filled in by its own property schema. */
  function Completed(schema: Value, args: Members): Members
    decreases schema, 0
  {
    var props := Properties(schema);
    map k | k in args.Keys + props.Keys && (k in args || DefaultOf(schema, k).Some?) ::
      var v := if k in args then args[k] else DefaultOf(schema, k).value;
      if k in props then Filled(props[k], v) else v
  }

  /** `apply_defaults_object`: the properties are visited in any order. */
  method ApplyDefaultsObject(schema: Value, args: Members) returns (out: Members)
    ensures out == Completed(schema, args)
    decreases schema, 0
  {
    var props := Properties(schema);
    out := args;
    var rest := props.Keys;
    while rest != {}
      invariant rest <= props.Keys && PartlyCompleted(schema, args, out, rest)
      decreases rest
    {
      var key :| key in rest;
      NextProperty(schema, args, out, rest, key);
      out := ApplyDefaultsProperty(props[key], key, out);
      rest := rest - {key};
    }
  }

  /** One pass of that loop. */
  method ApplyDefaultsProperty(property: Value, key: string, args: Members) returns (out: Members)
    ensures out == Visited(property, key, args)
    decreases property, 2
  {
    out := args;
    if key !in out && property.Get("default").Some? {
      out := out[key := property.Get("default").value];
    }
    if key in out {
      var value := ApplyDefaults(property, out[key]);
      out := out[key := value];
    }
  }

  function Visited(property: Value, key: string, args: Members): Members {
    if key in args then args[key := Filled(property, args[key])]
    else match property.Get("default")
      case Some(v) => args[key := Filled(property, v)]
      case None => args
  }

  /** All properties but those in `rest` have been visited. */
  ghost predicate PartlyCompleted(schema: Value, args: Members, out: Members, rest: set<string>) {
    && out.Keys == args.Keys + (set k | k in Properties(schema) && k !in rest && DefaultOf(schema, k).Some?)
    && forall k | k in out :: out[k] == if k in rest then args[k] else Completed(schema, args)[k]
  }

  lemma NextProperty(schema: Value, args: Members, out: Members, rest: set<string>, key: string)
    requires key in rest && rest <= Properties(schema).Keys && PartlyCompleted(schema, args, out, rest)
    ensures PartlyCompleted(schema, args, Visited(Properties(schema)[key], key, out), rest - {key})
  {
  }

  method ApplyDefaults(schema: Value, v: Value) returns (out: Value)
    ensures out == Filled(schema, v)
    decreases schema, 1
  {
    if !IsObjectSchema(schema) || !v.Obj? {
      return v;
    }
    var fields := ApplyDefaultsObject(schema, v.fields);
    out := Obj(fields);
  }

  // ---- what a schema says, in its own words ----

  /** The schema says that it describes objects: with the type "object", or without a type but
      with properties or required keys. */
  predicate SaysObject(schema: Value) {
    match schema.Get("type")
    case Some(t) => t == Str("object")
    case None => schema.Get("properties").Some? || schema.Get("required").Some?
  }

  /** Defaults go into objects whose schema says that it describes objects, and nowhere else. */
  lemma FilledIs(schema: Value, v: Value)
    ensures Filled(schema, v) == if v.Obj? && SaysObject(schema) then Obj(Completed(schema, v.fields)) else v
  {
  }

  /** A listed property is there afterwards if it was there or has a default, with its own
      defaults in it; every other member stays as it was. */
  lemma CompletedIs(schema: Value, args: Members, key: string)
    ensures var out := Completed(schema, args);
            var listed := schema.Get("properties");
            if listed.Some? && listed.value.Get(key).Some? then
              var property := listed.value.Get(key).value;
              if key in args then key in out && out[key] == Filled(property, args[key])
              else match property.Get("default")
                case Some(v) => key in out && out[key] == Filled(property, v)
                case None => key !in out
            else if key in args then key in out && out[key] == args[key]
            else key !in out
  {
  }

  /** The `required` array holds that key. */
  predicate Requires(schema: Value, key: string) {
    match schema.Get("required")
    case Some(Arr(items)) => Str(key) in items
    case _ => false
  }

  lemma {:induction false} StringsAre(items: seq<Value>, key: string)
    ensures key in StringsOf(items) <==> Str(key) in items
    decreases |items|
  {
    if items != [] {
      StringsAre(items[1..], key);
      assert items == [items[0]] + items[1..];
    }
  }

  ghost predicate LacksOwn(schema: Value, args: Members) {
    exists key :: Requires(schema, key) && key !in args
  }

  /** Property k is an object whose schema describes objects, and lacks something in turn. */
  ghost predicate LacksIn(schema: Value, args: Members, k: string) {
    && schema.Get("properties").Some? && schema.Get("properties").value.Get(k).Some?
    && var property := schema.Get("properties").value.Get(k).value;
       SaysObject(property) && k in args && args[k].Obj? && Lacks(property, args[k].fields)
  }

  /** Something is missing exactly when a required key is not among the members, or something
      is missing in a member that is an object with an object schema. */
  lemma LacksIff(schema: Value, args: Members)
    ensures Lacks(schema, args) <==> LacksOwn(schema, args) || exists k :: LacksIn(schema, args, k)
  {
    if Lacks(schema, args) {
      var path, key :| MissingAt(schema, args, path, key);
      LacksFrom(schema, args, path, key);
    }
    if LacksOwn(schema, args) {
      var key :| Requires(schema, key) && key !in args;
      RequiredAre(schema, key);
      assert MissingAt(schema, args, [], key);
    }
    if k :| LacksIn(schema, args, k) {
      LacksAbove(schema, args, k);
    }
  }

  lemma RequiredAre(schema: Value, key: string)
    ensures key in RequiredKeys(schema) <==> Requires(schema, key)
  {
    match schema.Get("required") {
      case Some(Arr(items)) => StringsAre(items, key);
      case _ =>
    }
  }

  lemma LacksFrom(schema: Value, args: Members, path: seq<string>, key: string)
    requires MissingAt(schema, args, path, key)
    ensures LacksOwn(schema, args) || exists k :: LacksIn(schema, args, k)
  {
    if path == [] {
      RequiredAre(schema, key);
    } else {
      assert LacksIn(schema, args, path[0]);
    }
  }

  lemma LacksAbove(schema: Value, args: Members, k: string)
    requires LacksIn(schema, args, k)
    ensures Lacks(schema, args)
  {
    var property := schema.Get("properties").value.Get(k).value;
    var path, key :| MissingAt(property, args[k].fields, path, key);
    assert ([k] + path)[1..] == path;
    assert MissingAt(schema, args, [k] + path, key);
  }

  /** For a schema that has properties or required keys and no type, saying "object" changes
      nothing. */
  lemma TypeIsOptional(schema: Value, v: Value, args: Members)
    requires schema.Obj? && schema.Get("type") == None
    requires schema.Get("properties").Some? || schema.Get("required").Some?
    ensures var typed := schema.With("type", Str("object"));
            && Filled(typed, v) == Filled(schema, v)
            && (Lacks(typed, args) <==> Lacks(schema, args))
  {
    var typed := schema.With("type", Str("object"));
    assert Properties(typed) == Properties(schema) && RequiredKeys(typed) == RequiredKeys(schema);
    if v.Obj? {
      assert Completed(typed, v.fields) == Completed(schema, v.fields);
    }
    forall path, key ensures MissingAt(typed, args, path, key) <==> MissingAt(schema, args, path, key) {
    }
  }

  /** A required key that the arguments do not have and no default supplies is missing
      afterwards. */
  lemma RequiredWithoutDefaultIsMissing(schema: Value, args: Members, key: string)
    requires Requires(schema, key) && key !in args
    requires !(schema.Get("properties").Some? && schema.Get("properties").value.Get(key).Some?
               && schema.Get("properties").value.Get(key).value.Get("default").Some?)
    ensures Lacks(schema, Completed(schema, args))
  {
    CompletedIs(schema, args, key);
    LacksIff(schema, Completed(schema, args));
  }

  /** Filling in defaults a second time changes nothing. */
  lemma {:induction false} FilledIdempotent(schema: Value, v: Value)
    ensures Filled(schema, Filled(schema, v)) == Filled(schema, v)
    decreases schema
  {
    if IsObjectSchema(schema) && v.Obj? {
      var once := Completed(schema, v.fields);
      forall k | k in once && k in Properties(schema)
        ensures Filled(Properties(schema)[k], once[k]) == once[k]
      {
        FilledIdempotent(Properties(schema)[k], if k in v.fields then v.fields[k] else DefaultOf(schema, k).value);
      }
      assert Completed(schema, once) == once;
    }
  }

  /** The value a path of member names leads to. */
  function At(v: Value, path: seq<string>): Option<Value> {
    if path == [] then Some(v)
    else match v.Get(path[0])
      case Some(w) => At(w, path[1..])
      case None => None
  }

  /** The property schema a path leads to, through object schemas only. */
  function SchemaAt(schema: Value, path: seq<string>): Option<Value> {
    if path == [] then Some(schema)
    else if IsObjectSchema(schema) && path[0] in Properties(schema)
    then SchemaAt(Properties(schema)[path[0]], path[1..])
    else None
  }

  /** Defaults take nothing away: at any depth every value stays where it was, a value that is
      not an object stays what it was, and an object keeps its members. */
  lemma {:induction false} ExistingValuesKept(schema: Value, v: Value, path: seq<string>)
    requires At(v, path).Some?
    ensures At(Filled(schema, v), path).Some?
    ensures var was, now := At(v, path).value, At(Filled(schema, v), path).value;
            if was.Obj? then now.Obj? && was.fields.Keys <= now.fields.Keys else now == was
    decreases |path|
  {
    if path != [] && IsObjectSchema(schema) && v.Obj? && path[0] in Properties(schema) {
      ExistingValuesKept(Properties(schema)[path[0]], v.fields[path[0]], path[1..]);
    }
  }

  /** Where step n of a path leaves the arguments, the default of that step's property was
      put, completed by its own schema. */
  ghost predicate AddedAt(schema: Value, v: Value, path: seq<string>, n: nat)
    requires n < |path|
  {
    var parent, key := At(v, path[..n]), path[n];
    && parent.Some? && parent.value.Obj? && key !in parent.value.fields
    && SchemaAt(schema, path[..n]).Some? && IsObjectSchema(SchemaAt(schema, path[..n]).value)
    && var s := SchemaAt(schema, path[..n]).value;
       && DefaultOf(s, key).Some?
       && At(Filled(schema, v), path[..n + 1]) == Some(Filled(Properties(s)[key], DefaultOf(s, key).value))
  }

  /** Defaults add nothing else: whatever is in the result and was not in the arguments lies
      under the default of a property its object lacked. */
  lemma {:induction false} AddedAreDefaults(schema: Value, v: Value, path: seq<string>) returns (n: nat)
    requires At(Filled(schema, v), path).Some? && At(v, path) == None
    ensures n < |path| && AddedAt(schema, v, path, n)
    decreases |path|
  {
    var key := path[0];
    assert path[..1][0] == key && path[..1][1..] == [];
    if v.Get(key) == None {
      n := 0;
      assert path[..0] == [] && path[..1] == [key];
    } else {
      var child := if key in Properties(schema) then Properties(schema)[key] else Null;
      var m := AddedAreDefaults(child, v.fields[key], path[1..]);
      n := m + 1;
      assert path[..n][1..] == path[1..][..m] && path[..n + 1][1..] == path[1..][..m + 1];
    }
  }

  // ---- required keys ----

  /** Following `path` through objects of the arguments and object schemas ends at an object
      that lacks `key`, which its schema requires. */
  predicate MissingAt(schema: Value, args: Members, path: seq<string>, key: string) {
    if path == [] then key in RequiredKeys(schema) && key !in args
    else
      var step, props := path[0], Properties(schema);
      && step in props && IsObjectSchema(props[step])
      && step in args && args[step].Obj?
      && MissingAt(props[step], args[step].fields, path[1..], key)
  }

  /** Something is missing somewhere. */
  ghost predicate Lacks(schema: Value, args: Members) {
    exists path, key :: MissingAt(schema, args, path, key)
  }

  /** Nothing is missing, level by level. */
  ghost predicate Complete(schema: Value, args: Members)
    decreases schema
  {
    && (forall key | key in RequiredKeys(schema) :: key in args)
    && (forall k | k in Properties(schema) && Descends(schema, args, k) ::
          Complete(Properties(schema)[k], args[k].fields))
  }

  predicate Descends(schema: Value, args: Members, k: string)
    requires k in Properties(schema)
  {
    IsObjectSchema(Properties(schema)[k]) && k in args && args[k].Obj?
  }

  lemma {:induction false} CompleteLacksNothing(schema: Value, args: Members, path: seq<string>, key: string)
    requires Complete(schema, args)
    ensures !MissingAt(schema, args, path, key)
    decreases |path|
  {
    if path != [] && path[0] in Properties(schema) && Descends(schema, args, path[0]) {
      CompleteLacksNothing(Properties(schema)[path[0]], args[path[0]].fields, path[1..], key);
    }
  }

  function Render(path: string, steps: seq<string>): string
    decreases |steps|
  {
    if steps == [] then path else Render(path + "." + steps[0], steps[1..])
  }

  /** The steps of a path are joined by dots. */
  lemma {:induction false} RenderIs(path: string, steps: seq<string>, last: string)
    ensures Render(path, []) == path
    ensures Render(path, steps + [last]) == Render(path, steps) + "." + last
    decreases |steps|
  {
    if steps != [] {
      assert (steps + [last])[1..] == steps[1..] + [last];
      RenderIs(path + "." + steps[0], steps[1..], last);
    }
  }

  datatype Missing = Missing(path: string, key: string)

  /** A report names a place where a key is missing. */
  ghost predicate Reports(schema: Value, args: Members, path: string, m: Missing) {
    exists steps :: MissingAt(schema, args, steps, m.key) && m.path == Render(path, steps)
  }

  /** `validate_required_object`: the first missing key, whatever order the properties have. */
  method ValidateRequiredObject(schema: Value, args: Members, path: string) returns (missing: Option<Missing>)
    ensures missing == None <==> Complete(schema, args)
    ensures missing.Some? ==> Reports(schema, args, path, missing.value)
    decreases schema
  {
    var required := RequiredKeys(schema);
    for i := 0 to |required|
      invariant forall j | 0 <= j < i :: required[j] in args
    {
      if required[i] !in args {
        assert MissingAt(schema, args, [], required[i]) && Render(path, []) == path;
        return Some(Missing(path, required[i]));
      }
    }
    var props := Properties(schema);
    var rest := props.Keys;
    while rest != {}
      invariant rest <= props.Keys
      invariant forall k | k in props.Keys - rest && Descends(schema, args, k) :: Complete(props[k], args[k].fields)
      decreases rest
    {
      var key :| key in rest;
      rest := rest - {key};
      if IsObjectSchema(props[key]) && key in args && args[key].Obj? {
        missing := ValidateRequiredObject(props[key], args[key].fields, path + "." + key);
        if missing.Some? {
          var steps :| MissingAt(props[key], args[key].fields, steps, missing.value.key) &&
                       missing.value.path == Render(path + "." + key, steps);
          assert ([key] + steps)[1..] == steps;
          assert MissingAt(schema, args, [key] + steps, missing.value.key);
          assert !Complete(schema, args) by {
            if Complete(schema, args) {
              CompleteLacksNothing(schema, args, [key] + steps, missing.value.key);
            }
          }
          return;
        }
      }
    }
    missing := None;
  }

  datatype ArgsError = NotAnObject | MissingRequired(missing: Missing)
  datatype Prepared = Ready(args: Value) | Refused(error: ArgsError)

  /** `normalize_args_for_tool`: arguments that are not an object are refused; others are
      completed, and refused exactly when some required key is then missing. */
  method NormalizeArgs(schema: Value, args: Value) returns (r: Prepared)
    ensures r == Refused(NotAnObject) <==> !args.Obj?
    ensures r.Ready? ==> r.args == Filled(schema, args)
    ensures args.Obj? && IsObjectSchema(schema) ==>
              (r.Ready? <==> !Lacks(schema, Completed(schema, args.fields)))
    ensures args.Obj? && !IsObjectSchema(schema) ==> r == Ready(args)
    ensures args.Obj? && schema.Get("type") == Some(Str("object")) ==>
              (r.Ready? <==> !Lacks(schema, Completed(schema, args.fields)))
    ensures args.Obj? && schema.Get("type") == None
            && (schema.Get("properties").Some? || schema.Get("required").Some?) ==>
              (r.Ready? <==> !Lacks(schema, Completed(schema, args.fields)))
    ensures args.Obj? && !SaysObject(schema) ==> r == Ready(args)
    ensures r.Refused? && r.error.MissingRequired? ==>
              Reports(schema, Completed(schema, args.fields), "$", r.error.missing)
  {
    if !args.Obj? {
      return Refused(NotAnObject);
    }
    var filled := ApplyDefaults(schema, args);
    if IsObjectSchema(schema) {
      CompleteIff(schema, filled.fields);
      var missing := ValidateRequiredObject(schema, filled.fields, "$");
      if missing.Some? {
        return Refused(MissingRequired(missing.value));
      }
    }
    r := Ready(filled);
  }

  /** Complete is the same as lacking nothing anywhere. */
  lemma CompleteIff(schema: Value, args: Members)
    ensures Complete(schema, args) <==> !Lacks(schema, args)
  {
    if Complete(schema, args) && Lacks(schema, args) {
      var path, key :| MissingAt(schema, args, path, key);
      CompleteLacksNothing(schema, args, path, key);
    } else if !Complete(schema, args) {
      var path, key := FindMissing(schema, args);
    }
  }

  lemma {:induction false} FindMissing(schema: Value, args: Members) returns (path: seq<string>, key: string)
    requires !Complete(schema, args)
    ensures MissingAt(schema, args, path, key)
    decreases schema
  {
    if key' :| key' in RequiredKeys(schema) && key' !in args {
      path, key := [], key';
    } else {
      var k :| k in Properties(schema) && Descends(schema, args, k) && !Complete(Properties(schema)[k], args[k].fields);
      path, key := FindMissing(Properties(schema)[k], args[k].fields);
      assert ([k] + path)[1..] == path;
      path := [k] + path;
    }
  }

  // ---- defaults and required keys together ----

  /** Each default that would be put in lacks nothing once it is completed. */
  ghost predicate InsertedDefaultsComplete(schema: Value, args: Members)
    decreases schema
  {
    forall k | k in Properties(schema) && IsObjectSchema(Properties(schema)[k]) ::
      var s := Properties(schema)[k];
      if k in args then args[k].Obj? ==> InsertedDefaultsComplete(s, args[k].fields)
      else DefaultOf(schema, k).Some? && DefaultOf(schema, k).value.Obj? ==>
           Complete(s, Completed(s, DefaultOf(schema, k).value.fields))
  }

  /** Arguments that lack nothing before defaults lack nothing after them exactly when every
      default put in is complete. */
  lemma {:induction false} CompletenessKeptIff(schema: Value, args: Members)
    requires Complete(schema, args)
    ensures Complete(schema, Completed(schema, args)) <==> InsertedDefaultsComplete(schema, args)
    decreases schema
  {
    var props, out := Properties(schema), Completed(schema, args);
    forall k | k in props && Descends(schema, args, k)
      ensures Complete(props[k], out[k].fields) <==> InsertedDefaultsComplete(props[k], args[k].fields)
    {
      CompletenessKeptIff(props[k], args[k].fields);
    }
    forall k | k in props && IsObjectSchema(props[k])
      ensures Descends(schema, out, k) <==>
              if k in args then args[k].Obj? else DefaultOf(schema, k).Some? && DefaultOf(schema, k).value.Obj?
    {
      if k in out {
        var v := if k in args then args[k] else DefaultOf(schema, k).value;
        assert out[k] == Filled(props[k], v);
      }
    }
  }

  /** A schema whose object defaults are all complete, at every depth. */
  ghost predicate DefaultsComplete(schema: Value)
    decreases schema
  {
    forall k | k in Properties(schema) && IsObjectSchema(Properties(schema)[k]) ::
      var s := Properties(schema)[k];
      && DefaultsComplete(s)
      && (DefaultOf(schema, k).Some? && DefaultOf(schema, k).value.Obj? ==>
          Complete(s, Completed(s, DefaultOf(schema, k).value.fields)))
  }

  /** With such a schema, defaults never break arguments that were complete. */
  lemma {:induction false} CompleteDefaultsAreHarmless(schema: Value, args: Members)
    requires DefaultsComplete(schema) && Complete(schema, args)
    ensures Complete(schema, Completed(schema, args))
    decreases schema
  {
    HarmlessForAll(schema, args);
    CompletenessKeptIff(schema, args);
  }

  lemma {:induction false} HarmlessForAll(schema: Value, args: Members)
    requires DefaultsComplete(schema)
    ensures InsertedDefaultsComplete(schema, args)
    decreases schema
  {
    forall k | k in Properties(schema) && IsObjectSchema(Properties(schema)[k]) && k in args && args[k].Obj?
      ensures InsertedDefaultsComplete(Properties(schema)[k], args[k].fields)
    {
      HarmlessForAll(Properties(schema)[k], args[k].fields);
    }
  }

  const TRAP_PROPERTY := Obj(map["required" := Arr([Str("x")]), "default" := Obj(map[])])

  /** A schema with a property whose default is empty and whose own schema requires a key. */
  const TRAP := Obj(map["properties" := Obj(map["p" := TRAP_PROPERTY])])

  lemma TrapPropertyRequires()
    ensures RequiredKeys(TRAP_PROPERTY) == ["x"] && RequiredKeys(TRAP) == []
    ensures Completed(TRAP_PROPERTY, map[]) == map[]
  {
    assert [Str("x")][1..] == [];
    assert StringsOf([Str("x")]) == ["x"];
    assert Properties(TRAP_PROPERTY) == map[];
  }

  /** Without that, defaults can turn complete arguments into incomplete ones. */
  lemma DefaultCanBreakArguments()
    ensures Complete(TRAP, map[]) && !Complete(TRAP, Completed(TRAP, map[]))
  {
    TrapPropertyRequires();
    assert Properties(TRAP) == map["p" := TRAP_PROPERTY];
    assert Completed(TRAP, map[])["p"] == Obj(map[]);
    assert !Complete(TRAP_PROPERTY, map[]) by {
      assert "x" in RequiredKeys(TRAP_PROPERTY);
    }
  }
}
