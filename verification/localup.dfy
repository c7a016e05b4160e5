/**
 The `local up` command from a parsed Compose file onwards: scan the
 services for secret labels, resolve the secrets, and build the
 `docker-compose up` command whose environment carries them. Generating the
 Compose file, setting up the local network, parsing YAML, talking to AWS
 and running the subprocess are outside the model; their outcomes are
 parameters.
 */
module LocalUp {
  import opened Results
  import opened Compose
  import opened Scanner
  import opened Resolver
  import opened Launcher
  import opened Strings

  /** The outcome of secret resolution for a parsed Compose configuration,
      as the command computes it (`decryptSecrets(readSecrets(config))`). */
  function ResolveConfig<C>(config: Config, b: Backend<C>, ssmInit: ClientInit<C>, smInit: ClientInit<C>)
    : (resolved: Result<map<string, string>, Error>)
  {
    DecryptSecrets(b, ssmInit, smInit, ReadSecrets(config.services))
  }

  /** The same with both client constructors checked. */
  function ResolveConfigChecked<C>(config: Config, b: Backend<C>, ssmInit: ClientInit<C>, smInit: ClientInit<C>)
    : (resolved: Result<map<string, string>, Error>)
  {
    DecryptSecretsChecked(b, ssmInit, smInit, ReadSecrets(config.services))
  }

  /** The `docker-compose` invocation for a Compose file. */
  function ComposeUp(filename: string, env: seq<string>): (cmd: Command)
  {
    Command("docker-compose", ["-f", filename, "up", "-d"], env)
  }

  /** `cmd` brings up the Compose file `filename` with the variables
      `envVars`: its `Env` has one entry per variable, on Unix-like systems the
      child sees exactly those variables when there is at least one, and inherits `parentEnv`
      when there are none. */
  predicate StartsCompose(filename: string, envVars: map<string, string>, parentEnv: seq<string>, cmd: Command)
  {
    && cmd.program == "docker-compose"
    && cmd.args == ["-f", filename, "up", "-d"]
    && |cmd.env| == |envVars|
    && (|envVars| == 0 ==> ChildEnvironment(cmd, parentEnv) == parentEnv)
    && (|envVars| > 0 ==> ChildEnvironment(cmd, parentEnv) == cmd.env)
    && (|envVars| > 0 && (forall k :: k in envVars ==> '=' !in k) ==>
          EnvToMap(ChildEnvironment(cmd, parentEnv)) == envVars)
  }

  /** `upComposeFile` up to starting the subprocess: the environment list
      and the command that would carry it. The list names each variable once,
      in the visiting order `order`. */
  method Launch(filename: string, envVars: map<string, string>, parentEnv: seq<string>)
    returns (cmd: Command, ghost order: seq<string>)
    ensures StartsCompose(filename, envVars, parentEnv, cmd)
    ensures Enumerates(envVars, order, cmd.env)
  {
    var envs;
    envs, order := BuildEnv(envVars);
    cmd := ComposeUp(filename, envs);
  }

  /** `Up` in its step order, as written. `parsed` is what the Compose
      parser made of the file at `composePath`, and `parentEnv` is the
      environment of the command itself. A parse failure ends the run before
      any secret client is consulted; a resolution failure ends it before
      any command is built. */
  method Up<C>(composePath: string, parsed: Result<Config, string>, b: Backend<C>,
               ssmInit: ClientInit<C>, smInit: ClientInit<C>, parentEnv: seq<string>)
    returns (r: Result<Command, Error>, ghost order: seq<string>)
    ensures parsed.Failure? ==> r == Failure(ComposeUnmarshalFailed(composePath, parsed.error))
    ensures parsed.Success? ==>
              var resolved := ResolveConfig(parsed.value, b, ssmInit, smInit);
              && (r.Failure? <==> resolved.Failure?)
              && (r.Failure? ==> r.error == resolved.error)
              && (r.Success? ==> StartsCompose(parsed.value.filename, resolved.value, parentEnv, r.value))
              && (r.Success? ==> Enumerates(resolved.value, order, r.value.env))
  {
    if parsed.Failure? {
      return Failure(ComposeUnmarshalFailed(composePath, parsed.error)), [];
    }
    var config := parsed.value;
    var resolved := ResolveConfig(config, b, ssmInit, smInit);
    if resolved.Failure? {
      return Failure(resolved.error), [];
    }
    var cmd;
    cmd, order := Launch(config.filename, resolved.value, parentEnv);
    r := Success(cmd);
  }

  /** `Up` with both client constructors checked: as `Up`, except that a
      failed SSM client also ends the run. */
  method UpChecked<C>(composePath: string, parsed: Result<Config, string>, b: Backend<C>,
                      ssmInit: ClientInit<C>, smInit: ClientInit<C>, parentEnv: seq<string>)
    returns (r: Result<Command, Error>, ghost order: seq<string>)
    ensures parsed.Failure? ==> r == Failure(ComposeUnmarshalFailed(composePath, parsed.error))
    ensures parsed.Success? ==>
              var resolved := ResolveConfigChecked(parsed.value, b, ssmInit, smInit);
              && (r.Failure? <==> resolved.Failure?)
              && (r.Failure? ==> r.error == resolved.error)
              && (r.Success? ==> StartsCompose(parsed.value.filename, resolved.value, parentEnv, r.value))
              && (r.Success? ==> Enumerates(resolved.value, order, r.value.env))
  {
    if parsed.Failure? {
      return Failure(ComposeUnmarshalFailed(composePath, parsed.error)), [];
    }
    var config := parsed.value;
    var resolved := ResolveConfigChecked(config, b, ssmInit, smInit);
    if resolved.Failure? {
      return Failure(resolved.error), [];
    }
    var cmd;
    cmd, order := Launch(config.filename, resolved.value, parentEnv);
    r := Success(cmd);
  }

  /** The SSM client cannot be built, the Secrets Manager client can, and
      the Compose file has no services: the command as written starts
      `docker-compose` with no `Env` of its own, so the child inherits the
      parent's environment, while the checked command stops. */
  method SSMClientErrorStartsContainers(filename: string, parentEnv: seq<string>)
    returns (asWritten: Result<Command, Error>, checked: Result<Command, Error>)
    ensures asWritten == Success(ComposeUp(filename, []))
    ensures ChildEnvironment(asWritten.value, parentEnv) == parentEnv
    ensures checked == Failure(ClientCreationFailed("no credentials for SSM"))
  {
    var b := Backend((cs: ContainerSecret) => Success(SSMServiceName),
                     (c: int, cs: ContainerSecret) => Success("plaintext"));
    var ssmInit := ClientInit(0, Some("no credentials for SSM"));
    var smInit := ClientInit(1, None);
    var config := Config(filename, []);
    assert ReadSecrets(config.services) == [];
    assert ResolveConfig(config, b, ssmInit, smInit) == Success(map[]);
    ghost var order;
    asWritten, order := Up(filename, Success(config), b, ssmInit, smInit, parentEnv);
    assert asWritten.value.env == [];
    checked, order := UpChecked(filename, Success(config), b, ssmInit, smInit, parentEnv);
  }

  /** A service `web` whose labels are an image label and the secret label
      `DB_PASSWORD` yields exactly one record, carrying the label's value. */
  lemma WebLabelsScan(ref: string)
    ensures ScanLabels("web", WebLabels(ref)) == [ContainerSecret("web", "DB_PASSWORD", ref)]
  {
    var secret := Label(SecretLabelPrefix + "DB_PASSWORD", ref);
    var labels := [Label("image", "nginx"), secret];
    LastSegmentAfterSeparator(SecretLabelPrefix, "DB_PASSWORD", '.');
    assert IsSecretLabel(secret.key);
    assert !IsSecretLabel("image");
    assert labels[1..] == [secret];
    assert ScanLabels("web", [secret]) == [FromLabel("web", secret)] + ScanLabels("web", []);
  }

  /** The same record resolved through Secrets Manager gives the single
      variable `DB_PASSWORD`; the SSM client is never asked. */
  lemma WebSecretResolves<C>(b: Backend<C>, sm: C, ssm: C, ref: string)
    requires b.serviceOf(ContainerSecret("web", "DB_PASSWORD", ref)) == Success(SecretsManagerServiceName)
    requires b.decrypt(sm, ContainerSecret("web", "DB_PASSWORD", ref)) == Success("hunter2")
    ensures DecryptSecrets(b, ClientInit(ssm, None), ClientInit(sm, None),
                           [ContainerSecret("web", "DB_PASSWORD", ref)])
            == Success(map["DB_PASSWORD" := "hunter2"])
  {
    var cs := ContainerSecret("web", "DB_PASSWORD", ref);
    var r := DecryptSecrets(b, ClientInit(ssm, None), ClientInit(sm, None), [cs]);
    assert LastWithName([cs], 0);
    assert Names([cs]) == {"DB_PASSWORD"};
    assert r.value == map["DB_PASSWORD" := "hunter2"];
  }

  /** The labels of the service `web` above. */
  function WebLabels(ref: string): (labels: seq<Label>)
  {
    [Label("image", "nginx"), Label(SecretLabelPrefix + "DB_PASSWORD", ref)]
  }

  /** A Compose file whose one service is `web` resolves, as written, to the
      single variable `DB_PASSWORD`. */
  lemma WebConfigResolves<C>(b: Backend<C>, sm: C, ssm: C, ref: string, filename: string)
    requires b.serviceOf(ContainerSecret("web", "DB_PASSWORD", ref)) == Success(SecretsManagerServiceName)
    requires b.decrypt(sm, ContainerSecret("web", "DB_PASSWORD", ref)) == Success("hunter2")
    ensures ResolveConfig(Config(filename, [Service("web", WebLabels(ref))]), b, ClientInit(ssm, None), ClientInit(sm, None))
            == Success(map["DB_PASSWORD" := "hunter2"])
  {
    var services := [Service("web", WebLabels(ref))];
    WebLabelsScan(ref);
    assert services[1..] == [];
    assert ReadSecrets(services) == [ContainerSecret("web", "DB_PASSWORD", ref)];
    WebSecretResolves(b, sm, ssm, ref);
  }

  /** The whole run for that service: `docker-compose` is started with the
      one-entry environment `DB_PASSWORD=hunter2`, and on Unix-like
      systems the child sees exactly that. */
  method WebUp<C>(b: Backend<C>, sm: C, ssm: C, ref: string, filename: string, parentEnv: seq<string>)
    returns (r: Result<Command, Error>)
    requires b.serviceOf(ContainerSecret("web", "DB_PASSWORD", ref)) == Success(SecretsManagerServiceName)
    requires b.decrypt(sm, ContainerSecret("web", "DB_PASSWORD", ref)) == Success("hunter2")
    ensures r == Success(ComposeUp(filename, ["DB_PASSWORD=hunter2"]))
    ensures ChildEnvironment(r.value, parentEnv) == ["DB_PASSWORD=hunter2"]
  {
    var config := Config(filename, [Service("web", WebLabels(ref))]);
    WebConfigResolves(b, sm, ssm, ref, filename);
    ghost var order;
    r, order := Up(filename, Success(config), b, ClientInit(ssm, None), ClientInit(sm, None), parentEnv);
    var m := map["DB_PASSWORD" := "hunter2"];
    assert StartsCompose(filename, m, parentEnv, r.value) && Enumerates(m, order, r.value.env);
    SingleVariableList("DB_PASSWORD", "hunter2", order, r.value.env);
    WebEntry();
  }

  /** The entry `upComposeFile` writes for that variable. */
  lemma WebEntry()
    ensures EnvEntry("DB_PASSWORD", "hunter2") == "DB_PASSWORD=hunter2"
  {
  }

  /** Two services that both declare a secret `TOKEN`: one variable comes
      out, holding the value of the later record. */
  lemma CollidingNamesLastWins<C>(b: Backend<C>, clients: Clients<C>, first: ContainerSecret, second: ContainerSecret)
    requires first.name == second.name
    requires ResolveOne(b, clients, first).Success? && ResolveOne(b, clients, second).Success?
    ensures Accumulate(b, clients, [first, second], map[])
            == Success(map[second.name := ResolveOne(b, clients, second).value])
  {
    var r := Accumulate(b, clients, [first, second], map[]);
    assert LastWithName([first, second], 1);
    assert AllResolve(b, clients, [first, second]);
    assert Names([first, second]) == {second.name};
    assert r.value == map[second.name := ResolveOne(b, clients, second).value];
  }
}
