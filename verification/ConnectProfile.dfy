/** Saving a connect profile as metadata and regenerating it from there
    (rust/src/generator/mod.rs). Paths are strings; making one absolute and finding the host
    of an endpoint are parameters. */
module ConnectProfile {
  import opened Json
  import opened Names
  import opened Ordering

  datatype Outcome<+T> = Success(value: T) | Failure(error: string)

  datatype Spec = Spec(
    artifactName: string,
    endpoint: string,
    protocol: string,
    headerBindings: seq<(string, string)>,
    outputDir: string)

  datatype Config = Config(
    endpoint: Option<string>,
    saveProfileDir: Option<string>,
    profileName: Option<string>,
    headers: map<string, string>)

  datatype ConnectMetadata = ConnectMetadata(
    endpoint: string,
    protocol: string,
    headersTemplate: map<string, string>,
    profileName: Option<string>)

  /** The members of the metadata file that regeneration reads. */
  datatype Metadata = Metadata(artifactName: string, outputDir: string, connect: Option<ConnectMetadata>)

  // ---- templates ----

  function Template(key: string): string {
    "${" + key + "}"
  }

  function ExtractTemplateEnvKey(value: string): Option<string> {
    if |value| > 3 && value[0] == '$' && value[1] == '{' && value[|value| - 1] == '}'
    then Some(value[2..|value| - 1])
    else None
  }

  /** A text is read as the template of a key exactly when it is that template and the key is
      not empty. */
  lemma TemplateRoundTripIff(value: string, key: string)
    ensures ExtractTemplateEnvKey(value) == Some(key) <==> key != [] && value == "${" + key + "}"
    ensures ExtractTemplateEnvKey(Template(key)) == Some(key) <==> key != []
  {
    var template := "${" + key + "}";
    assert template[2..|template| - 1] == key && Template(key) == template;
  }

  // ---- a spec, its metadata, and back ----

  ghost function BindingsFor(headers: seq<string>, keyOf: map<string, string>): seq<(string, string)>
    requires forall h | h in headers :: h in keyOf
  {
    seq(|headers|, i requires 0 <= i < |headers| => (headers[i], keyOf[headers[i]]))
  }

  const DEFAULT_NAME := "endpoint" + ['-'] + "profile"

  function DeriveEndpointProfileName(host: Option<string>): string {
    if host.Some? && SanitizeArtifactName(host.value) != [] then SanitizeArtifactName(host.value) else DEFAULT_NAME
  }

  function NameFor(config: Config, host: Option<string>): string {
    if config.profileName.Some? && SanitizeArtifactName(config.profileName.value) != []
    then SanitizeArtifactName(config.profileName.value)
    else DeriveEndpointProfileName(host)
  }

  function HeaderVars(headers: set<string>): map<string, string> {
    map h | h in headers :: HeaderEnvVarName(h)
  }

  ghost function FromConfig(config: Config, protocol: string, host: Option<string>,
                            absolute: string -> Outcome<string>): Outcome<Spec> {
    if config.endpoint == None then Failure("connect profile endpoint is missing")
    else if config.saveProfileDir == None then Failure("save profile path missing")
    else match absolute(config.saveProfileDir.value)
      case Failure(error) => Failure(error)
      case Success(dir) =>
        Success(Spec(NameFor(config, host), config.endpoint.value, protocol,
                     BindingsFor(Sorted(config.headers.Keys), HeaderVars(config.headers.Keys)), dir))
  }

  /** The map filled binding by binding: a later binding of a header replaces an earlier one. */
  function TemplatesOf(bindings: seq<(string, string)>): map<string, string> {
    if bindings == [] then map[]
    else
      var (header, key) := bindings[|bindings| - 1];
      TemplatesOf(bindings[..|bindings| - 1])[header := Template(key)]
  }

  method BuildTemplates(bindings: seq<(string, string)>) returns (templates: map<string, string>)
    ensures templates == TemplatesOf(bindings)
  {
    templates := map[];
    for i := 0 to |bindings|
      invariant templates == TemplatesOf(bindings[..i])
    {
      assert bindings[..i + 1][..i] == bindings[..i];
      templates := templates[bindings[i].0 := "${" + bindings[i].1 + "}"];
    }
    assert bindings[..|bindings|] == bindings;
  }

  function Write(spec: Spec): Metadata {
    Metadata(spec.artifactName, spec.outputDir,
             Some(ConnectMetadata(spec.endpoint, spec.protocol, TemplatesOf(spec.headerBindings),
                                  Some(spec.artifactName))))
  }

  /** The members of the metadata file that `write_connect_profile` fills from the profile. */
  method WriteProfile(spec: Spec) returns (m: Metadata)
    ensures m == Write(spec)
    ensures m.artifactName == spec.artifactName && m.outputDir == spec.outputDir && m.connect.Some?
    ensures m.connect.value.endpoint == spec.endpoint && m.connect.value.protocol == spec.protocol
    ensures m.connect.value.profileName == Some(spec.artifactName)
  {
    var templates := BuildTemplates(spec.headerBindings);
    var connect := ConnectMetadata(spec.endpoint, spec.protocol, templates, Some(spec.artifactName));
    m := Metadata(spec.artifactName, spec.outputDir, Some(connect));
  }

  function EnvKeyOf(header: string, template: string): string {
    match ExtractTemplateEnvKey(template) case Some(key) => key case None => HeaderEnvVarName(header)
  }

  function EnvKeys(templates: map<string, string>): map<string, string> {
    map h | h in templates :: EnvKeyOf(h, templates[h])
  }

  /** `outOverride` is the directory given on the command line, if any. */
  ghost function FromMetadata(m: Metadata, outOverride: Option<string>,
                              absolute: string -> Outcome<string>): Outcome<Spec> {
    if m.connect == None then Failure("connect metadata missing for connect profile regeneration")
    else
      var dir := match outOverride case Some(path) => absolute(path) case None => Success(m.outputDir);
      match dir
      case Failure(error) => Failure(error)
      case Success(outputDir) =>
        var name := SanitizeArtifactName(m.artifactName);
        if name == [] then Failure("Invalid artifact name in metadata")
        else
          var c := m.connect.value;
          Success(Spec(name, c.endpoint, c.protocol,
                       BindingsFor(Sorted(c.headersTemplate.Keys), EnvKeys(c.headersTemplate)), outputDir))
  }

  lemma BindingsPush(headers: seq<string>, keyOf: map<string, string>, i: nat)
    requires i < |headers| && forall h | h in headers :: h in keyOf
    ensures BindingsFor(headers[..i + 1], keyOf) == BindingsFor(headers[..i], keyOf) + [(headers[i], keyOf[headers[i]])]
  {
    var more := BindingsFor(headers[..i], keyOf) + [(headers[i], keyOf[headers[i]])];
    assert forall j | 0 <= j <= i :: BindingsFor(headers[..i + 1], keyOf)[j] == more[j];
  }

  method HeaderVariable(header: string) returns (variable: string)
    ensures variable == HeaderEnvVarName(header)
  {
    variable := Sanitize(header, EnvChar, CONNECT_PREFIX, '_');
  }

  method CleanName(raw: string) returns (name: string)
    ensures name == SanitizeArtifactName(raw)
  {
    name := Sanitize(raw, ArtifactChar, "", '-');
    assert "" + MapChars(ArtifactChar, raw) == MapChars(ArtifactChar, raw);
  }

  /** The bindings of a configuration: its headers in order, each with a variable made from
      its name. */
  method BindHeaders(headers: map<string, string>) returns (bindings: seq<(string, string)>)
    ensures bindings == BindingsFor(Sorted(headers.Keys), HeaderVars(headers.Keys))
  {
    var sorted := SortedKeys(headers.Keys);
    bindings := [];
    ghost var keyOf := HeaderVars(headers.Keys);
    for i := 0 to |sorted|
      invariant bindings == BindingsFor(sorted[..i], keyOf)
    {
      BindingsPush(sorted, keyOf, i);
      var variable := HeaderVariable(sorted[i]);
      bindings := bindings + [(sorted[i], variable)];
    }
    assert sorted[..|sorted|] == sorted;
  }

  method ReadKey(header: string, template: string) returns (key: string)
    ensures key == EnvKeyOf(header, template)
  {
    match ExtractTemplateEnvKey(template) {
      case Some(k) => key := k;
      case None => key := HeaderVariable(header);
    }
  }

  /** The bindings of a metadata file; its tree map yields them in the order of the headers,
      which is the order they are then sorted into. */
  method ReadBindings(templates: map<string, string>) returns (bindings: seq<(string, string)>)
    ensures bindings == BindingsFor(Sorted(templates.Keys), EnvKeys(templates))
  {
    var sorted := SortedKeys(templates.Keys);
    bindings := [];
    ghost var keyOf := EnvKeys(templates);
    for i := 0 to |sorted|
      invariant bindings == BindingsFor(sorted[..i], keyOf)
    {
      BindingsPush(sorted, keyOf, i);
      var key := ReadKey(sorted[i], templates[sorted[i]]);
      bindings := bindings + [(sorted[i], key)];
    }
    assert sorted[..|sorted|] == sorted;
  }

  /** A profile is named after the name asked for, or else after the host of its endpoint, or
      else by default: the first of these that sanitizes to anything. */
  predicate IsNameFor(name: string, asked: Option<string>, host: Option<string>) {
    if asked.Some? && SanitizeArtifactName(asked.value) != [] then name == SanitizeArtifactName(asked.value)
    else if host.Some? && SanitizeArtifactName(host.value) != [] then name == SanitizeArtifactName(host.value)
    else name == "endpoint-profile"
  }

  lemma NameIs(config: Config, host: Option<string>)
    ensures IsNameFor(NameFor(config, host), config.profileName, host)
  {
    assert DEFAULT_NAME == "endpoint-profile";
  }

  /** The bindings are the headers in order, each with the variable made from its name. */
  ghost predicate Binds(bindings: seq<(string, string)>, headers: set<string>) {
    && Lists(Headers(bindings), headers)
    && forall i | 0 <= i < |bindings| :: bindings[i].1 == HeaderEnvVarName(bindings[i].0)
  }

  lemma BindingsAre(headers: set<string>)
    ensures Binds(BindingsFor(Sorted(headers), HeaderVars(headers)), headers)
  {
    var bindings := BindingsFor(Sorted(headers), HeaderVars(headers));
    assert Headers(bindings) == Sorted(headers);
  }

  method ProfileFromConfig(config: Config, protocol: string, host: Option<string>, absolute: string -> Outcome<string>)
    returns (spec: Outcome<Spec>)
    ensures spec == FromConfig(config, protocol, host, absolute)
    ensures config.endpoint == None ==> spec == Failure("connect profile endpoint is missing")
    ensures config.endpoint.Some? && config.saveProfileDir == None ==> spec == Failure("save profile path missing")
    ensures config.endpoint.Some? && config.saveProfileDir.Some? ==>
              match absolute(config.saveProfileDir.value)
              case Failure(error) => spec == Failure(error)
              case Success(dir) =>
                && spec.Success? && Some(spec.value.endpoint) == config.endpoint
                && spec.value.protocol == protocol && spec.value.outputDir == dir
                && IsNameFor(spec.value.artifactName, config.profileName, host)
                && Binds(spec.value.headerBindings, config.headers.Keys)
  {
    if config.endpoint == None {
      return Failure("connect profile endpoint is missing");
    }
    if config.saveProfileDir == None {
      return Failure("save profile path missing");
    }
    var dir := absolute(config.saveProfileDir.value);
    if dir.Failure? {
      return Failure(dir.error);
    }
    var bindings := BindHeaders(config.headers);
    BindingsAre(config.headers.Keys);
    NameIs(config, host);
    spec := Success(Spec(NameFor(config, host), config.endpoint.value, protocol, bindings, dir.value));
  }

  /** The bindings are the headers in order, each with the key its template names, or with the
      variable made from its name when its value is no template. */
  ghost predicate Reads(bindings: seq<(string, string)>, templates: map<string, string>) {
    && Lists(Headers(bindings), templates.Keys)
    && forall i | 0 <= i < |bindings| :: ReadsOne(bindings[i], templates)
  }

  predicate ReadsOne(binding: (string, string), templates: map<string, string>) {
    && binding.0 in templates
    && match ExtractTemplateEnvKey(templates[binding.0])
       case Some(key) => binding.1 == key
       case None => binding.1 == HeaderEnvVarName(binding.0)
  }

  lemma BindingsRead(templates: map<string, string>)
    ensures Reads(BindingsFor(Sorted(templates.Keys), EnvKeys(templates)), templates)
  {
    var bindings := BindingsFor(Sorted(templates.Keys), EnvKeys(templates));
    assert Headers(bindings) == Sorted(templates.Keys);
    forall i | 0 <= i < |bindings| ensures ReadsOne(bindings[i], templates) {
      assert Sorted(templates.Keys)[i] in templates;
    }
  }

  method ProfileFromMetadata(m: Metadata, outOverride: Option<string>, absolute: string -> Outcome<string>)
    returns (spec: Outcome<Spec>)
    ensures spec == FromMetadata(m, outOverride, absolute)
    ensures spec.Success? ==>
              && m.connect.Some? && spec.value.endpoint == m.connect.value.endpoint
              && spec.value.protocol == m.connect.value.protocol
              && spec.value.artifactName == SanitizeArtifactName(m.artifactName)
              && (outOverride == None ==> spec.value.outputDir == m.outputDir)
              && Reads(spec.value.headerBindings, m.connect.value.headersTemplate)
  {
    if m.connect == None {
      return Failure("connect metadata missing for connect profile regeneration");
    }
    var dir := match outOverride case Some(path) => absolute(path) case None => Success(m.outputDir);
    if dir.Failure? {
      return Failure(dir.error);
    }
    var name := CleanName(m.artifactName);
    if name == [] {
      return Failure("Invalid artifact name in metadata");
    }
    var bindings := ReadBindings(m.connect.value.headersTemplate);
    BindingsRead(m.connect.value.headersTemplate);
    spec := Success(Spec(name, m.connect.value.endpoint, m.connect.value.protocol, bindings, dir.value));
  }

  // ---- the round trip ----

  function Headers(bindings: seq<(string, string)>): seq<string> {
    seq(|bindings|, i requires 0 <= i < |bindings| => bindings[i].0)
  }

  /** What a spec must be to come back unchanged: a clean name, bindings in ascending order
      of their headers, and no empty variable. */
  ghost predicate Regular(spec: Spec) {
    && spec.artifactName != [] && IsArtifactName(spec.artifactName)
    && Ascending(Headers(spec.headerBindings))
    && forall i | 0 <= i < |spec.headerBindings| :: spec.headerBindings[i].1 != []
  }

  lemma {:induction false} TemplatesOfAscending(bindings: seq<(string, string)>)
    requires Ascending(Headers(bindings))
    ensures forall h :: h in TemplatesOf(bindings) <==> h in Headers(bindings)
    ensures forall i | 0 <= i < |bindings| :: Holds(TemplatesOf(bindings), bindings[i])
    decreases |bindings|
  {
    if bindings != [] {
      var n := |bindings| - 1;
      var past := bindings[..n];
      assert Headers(bindings) == Headers(past) + [bindings[n].0];
      assert Ascending(Headers(past)) by {
        assert forall i | 0 <= i < n :: Headers(past)[i] == Headers(bindings)[i];
      }
      TemplatesOfAscending(past);
      forall i | 0 <= i < n ensures Holds(TemplatesOf(bindings), bindings[i]) {
        assert Holds(TemplatesOf(past), past[i]);
        assert Less(Headers(bindings)[i], Headers(bindings)[n]);
        LessIrreflexive(bindings[n].0);
      }
    }
  }

  predicate Holds(templates: map<string, string>, binding: (string, string)) {
    binding.0 in templates && templates[binding.0] == Template(binding.1)
  }

  lemma BindingsFollowHeaders(headers: seq<string>, keyOf: map<string, string>)
    requires forall h | h in headers :: h in keyOf && keyOf[h] != []
    ensures Headers(BindingsFor(headers, keyOf)) == headers
    ensures forall i | 0 <= i < |headers| :: BindingsFor(headers, keyOf)[i].1 != []
  {
  }

  /** Whatever the templates, the bindings read from them are in order and name a variable. */
  lemma BindingsReadAreRegular(templates: map<string, string>)
    ensures var back := BindingsFor(Sorted(templates.Keys), EnvKeys(templates));
            Ascending(Headers(back)) && forall i | 0 <= i < |back| :: back[i].1 != []
  {
    forall h | h in templates ensures EnvKeys(templates)[h] != [] {
      HeaderEnvVarNameIsName(h);
    }
    BindingsFollowHeaders(Sorted(templates.Keys), EnvKeys(templates));
  }

  /** Regenerating a profile from the metadata written for it gives back the same profile, if
      and only if the profile is regular. */
  lemma RegenerationIsFixedPointIff(spec: Spec, absolute: string -> Outcome<string>)
    ensures FromMetadata(Write(spec), None, absolute) == Success(spec) <==> Regular(spec)
  {
    SanitizeArtifactNameIff(spec.artifactName);
    BindingsReadAreRegular(TemplatesOf(spec.headerBindings));
    if Regular(spec) {
      RegularComesBack(spec);
    }
  }

  lemma RegularComesBack(spec: Spec)
    requires Regular(spec)
    ensures var templates := TemplatesOf(spec.headerBindings);
            BindingsFor(Sorted(templates.Keys), EnvKeys(templates)) == spec.headerBindings
  {
    var bindings := spec.headerBindings;
    var templates := TemplatesOf(bindings);
    TemplatesOfAscending(bindings);
    ListsUnique(Headers(bindings), Sorted(templates.Keys), templates.Keys);
    forall i | 0 <= i < |bindings|
      ensures bindings[i].0 in templates && EnvKeys(templates)[bindings[i].0] == bindings[i].1
    {
      assert Holds(templates, bindings[i]);
      TemplateRoundTripIff(Template(bindings[i].1), bindings[i].1);
    }
    var back := BindingsFor(Sorted(templates.Keys), EnvKeys(templates));
    assert |back| == |bindings|;
    forall i | 0 <= i < |bindings| ensures back[i] == bindings[i] {
      assert Headers(bindings)[i] == bindings[i].0;
    }
  }

  /** A profile saved from a configuration is regular, so it regenerates unchanged. */
  lemma SavedProfilesAreRegular(config: Config, protocol: string, host: Option<string>,
                                absolute: string -> Outcome<string>)
    requires FromConfig(config, protocol, host, absolute).Success?
    ensures Regular(FromConfig(config, protocol, host, absolute).value)
    ensures var spec := FromConfig(config, protocol, host, absolute).value;
            FromMetadata(Write(spec), None, absolute) == Success(spec)
  {
    var spec := FromConfig(config, protocol, host, absolute).value;
    ChosenNameIsClean(config, host);
    VariablesAreRegular(config.headers.Keys);
    RegenerationIsFixedPointIff(spec, absolute);
  }

  lemma ChosenNameIsClean(config: Config, host: Option<string>)
    ensures NameFor(config, host) != [] && IsArtifactName(NameFor(config, host))
  {
    if config.profileName.Some? {
      SanitizeArtifactNameIff(config.profileName.value);
    }
    if host.Some? {
      SanitizeArtifactNameIff(host.value);
    }
    DefaultNameIsClean();
  }

  lemma VariablesAreRegular(headers: set<string>)
    ensures var bindings := BindingsFor(Sorted(headers), HeaderVars(headers));
            Ascending(Headers(bindings)) && forall i | 0 <= i < |bindings| :: bindings[i].1 != []
  {
    forall h | h in headers ensures HeaderVars(headers)[h] != [] {
      HeaderEnvVarNameIsName(h);
    }
    BindingsFollowHeaders(Sorted(headers), HeaderVars(headers));
  }

  lemma DefaultNameIsClean()
    ensures IsArtifactName(DEFAULT_NAME)
  {
    PairPosition("profile", '-');
    NoPairJoins("endpoint", "profile", '-');
    assert forall i | 0 <= i < |DEFAULT_NAME| :: DEFAULT_NAME[i] == '-' || 'a' <= DEFAULT_NAME[i] <= 'z';
  }

  /** Whatever directory it is sent to, a regenerated profile differs from the saved one in
      nothing else. */
  lemma OverrideMovesOnly(spec: Spec, path: string, absolute: string -> Outcome<string>)
    requires Regular(spec) && absolute(path).Success?
    ensures FromMetadata(Write(spec), Some(path), absolute) == Success(spec.(outputDir := absolute(path).value))
  {
    RegenerationIsFixedPointIff(spec, absolute);
  }
}
