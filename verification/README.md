# Secrets of `ecs-cli local up`

This project models the secret pipeline of the `ecs-cli local up` command
(`ecs-cli/modules/cli/local/up_app.go`). Once the Compose file has been
parsed, the command runs three steps:

1. **Scanning** (`readSecrets`). Every label of every service whose key
   starts with `ecs-local.secret.` yields one record of three parts:
   - the service's name;
   - the secret name, which is the last `.`-separated segment of the key;
   - the reference, which is the label's value.
2. **Resolution** (`decryptSecrets`). The command builds an SSM client and a
   Secrets Manager client. Each record goes to whichever client belongs to
   the AWS service that owns its reference. The plaintexts are collected in
   a map keyed by secret name. The first failure ends the run.
3. **Launch** (`upComposeFile`). Each map entry becomes one `NAME=VALUE`
   string, and the list is the `Env` of a `docker-compose -f <file> up -d`
   subprocess.

`LocalUp.Up` composes the three steps in the order the command runs them,
with the code's resolver as written. `LocalUp.UpChecked` is the same
composition with the client check corrected (see "## Findings").

Modules, in dependency order:
- `Results`: `Option`, `Result` and the command's fatal errors, each as a
  variant.
- `Strings`: Go's `strings.HasPrefix` and `strings.Split` for a
  one-character separator, and the last segment of a key.
- `Sequences`: facts about sequences and their multisets, for reasoning
  about visiting orders.
- `Compose`: the parsed Compose document.
- `Scanner`: the label scan.
- `Resolver`: dispatch and accumulation, with the AWS side abstract.
- `Launcher`: the environment list and the subprocess's environment.
- `LocalUp`: the composition, plus worked scenarios.

Modelling conventions:
- **Map order.** Go visits a map in an unspecified order. A service's labels
  are therefore a sequence. The scan is proved to produce the same records
  whatever that order (a multiset equality). The environment list is built
  by a loop that picks keys arbitrarily, and its contract holds for every
  such order. Services are scanned in the order of the parsed
  configuration's `Services` slice, which the parser (not part of this
  model) decides. The multiset of records is proved not to depend on that
  order either. Which record of a shared name is resolved last does depend
  on it, and within one service it depends on the label visiting order:
  the keys `ecs-local.secret.X` and `ecs-local.secret.a.X` both name the
  secret `X`, so which value `X` gets can change from run to run.
- **Fatal errors.** `logrus.Fatalf` becomes a `Failure` result. A failed run
  returns no partial map and no command.
- **Abstract collaborators.** Which AWS service owns a reference
  (`ContainerSecret.ServiceName`) and what a client returns for a record
  (`ContainerSecret.Decrypt`) are the two functions of a `Backend`. Clients
  are opaque values, and a client constructor's outcome is a `ClientInit`
  (the client, plus possibly an error). The parsed Compose file (or the
  parser's error) and the parent process's environment are parameters of
  `Up`.
- **Child environment.** The model follows the code. When no secret is
  resolved, the list `envs` is never appended to and stays nil. Go's
  `os/exec` then gives the child the parent's environment. When at least
  one secret is resolved, the child gets exactly the list on Unix-like
  systems (on Windows `os/exec` also adds `SYSTEMROOT`; see "## Left out").
  `Launcher.ChildEnvironment` states this, and `LocalUp.Launch` proves both
  cases. So the environment is "the whole environment, with nothing
  inherited" only when there is at least one secret.

## Model

| member | source | states |
|---|---|---|
| `Strings.SplitPiecesLackSeparator` | ecs-cli/modules/cli/local/up_app.go:74 | no piece produced by splitting on `.` contains a `.` |
| `Strings.SplitThenJoin` | ecs-cli/modules/cli/local/up_app.go:74 | splitting loses nothing: joining the pieces with the separator gives the key back |
| `Strings.JoinThenSplit` | ecs-cli/modules/cli/local/up_app.go:74 | splitting undoes joining for separator-free pieces, so the pieces of a key are exactly its segments |
| `Strings.LastSegment` | ecs-cli/modules/cli/local/up_app.go:74-75 | the last piece contains no separator, is a suffix of the key, and is either the whole key or directly preceded by a separator, i.e. it is the text after the final `.` |
| `Strings.LastSegmentAfterSeparator` | ecs-cli/modules/cli/local/up_app.go:74-75 | a key that ends in `.` followed by a dot-free tail has that tail as its secret name |
| `Scanner.ScanLabelsOnePerSecretLabel` | ecs-cli/modules/cli/local/up_app.go:70-78 | one service's scan gives exactly one record per prefixed label, in label order. Each record carries the service's name, the key's last segment and the label value unchanged. A service without prefixed labels contributes nothing. |
| `Scanner.ScanLabelsMembership` | ecs-cli/modules/cli/local/up_app.go:70-78 | a record appears in a service's scan iff some prefixed label of that service gives rise to it (non-prefixed labels are skipped) |
| `Scanner.ReadSecretsCount` | ecs-cli/modules/cli/local/up_app.go:67-81 | the number of records equals the number of prefixed labels across all services |
| `Scanner.ReadSecretsSound` | ecs-cli/modules/cli/local/up_app.go:67-81 | every record comes from a prefixed label of some service |
| `Scanner.ReadSecretsComplete` | ecs-cli/modules/cli/local/up_app.go:67-81 | every prefixed label of every service yields its record |
| `Scanner.ScanIgnoresLabelOrder` | ecs-cli/modules/cli/local/up_app.go:70-78 | any two visiting orders of a service's label map give the same records with the same multiplicities |
| `Scanner.ReadSecretsIgnoresLabelOrder` | ecs-cli/modules/cli/local/up_app.go:69-79 | for a given `Services` slice, permuting any service's labels leaves the multiset of all records unchanged |
| `Scanner.ReadSecretsIgnoresServiceOrder` | ecs-cli/modules/cli/local/up_app.go:67-81 | permuting the `Services` slice leaves the multiset of all records unchanged |
| `Scanner.SecretCountIsPrefixedKeyCount` | ecs-cli/modules/cli/local/up_app.go:70-73 | for a label map (distinct keys), a service's record count equals the number of its distinct keys that carry the prefix |
| `Scanner.SecretNameWithinRemainder` | ecs-cli/modules/cli/local/up_app.go:71-75 | for any prefix that ends in `.` (as the secret prefix does), the secret name of a key with that prefix never reaches back into the prefix. It is the last segment of the text after the prefix, hence a suffix of it, and all of it when it has no further `.`. |
| `Resolver.ResolveOne` | ecs-cli/modules/cli/local/up_app.go:92-109 | full dispatch table. A failing service lookup is fatal. The Secrets Manager identity is decrypted with the Secrets Manager client, and the SSM identity with the SSM client. Any other identity is an "unknown service" failure. A decrypt error is fatal. |
| `Resolver.DispatchNeverCrossesBackends` | ecs-cli/modules/cli/local/up_app.go:99-106 | a record owned by one service gets the same outcome whatever the other client is. A record owned by neither gets the same outcome whatever either client is. |
| `Resolver.Accumulate` | ecs-cli/modules/cli/local/up_app.go:90-112 | succeeds iff every record resolves. A failure is the error of the first record that fails. On success the keys are the previous keys plus the secret names, and keys outside the names are untouched. Each name maps to the value of the last record with that name. |
| `Resolver.DecryptSecrets` | ecs-cli/modules/cli/local/up_app.go:83-113 | as written: a Secrets Manager client error aborts before any record is examined. Otherwise the run succeeds iff all records resolve, with the first failure reported. The map's keys are exactly the secret names, and the last record with a name wins. The SSM constructor's error is never consulted. |
| `Resolver.DecryptSecretsChecked` | ecs-cli/modules/cli/local/up_app.go:84-88 | corrected: either constructor error aborts, SSM first, before any record is examined. Success iff both clients were built and every record resolves. The map's keys and values are as for the code as written. |
| `Resolver.SSMClientErrorIgnored` | ecs-cli/modules/cli/local/up_app.go:84-88 | with only the SSM constructor failing and no secrets, the code as written succeeds with an empty map while the checked version fails |
| `Launcher.EntryRoundTrip` | ecs-cli/modules/cli/local/up_app.go:119 | reading back a `NAME=VALUE` entry at its first `=` gives the name and value, provided the name has no `=` |
| `Launcher.EnumerationDecodes` | ecs-cli/modules/cli/local/up_app.go:117-123 | an environment list that lists each map entry once, in any order, reads back as exactly that map |
| `Launcher.BuildEnv` | ecs-cli/modules/cli/local/up_app.go:117-120 | whatever order the map is visited in, the list has one `k=v` entry per map entry and no map key twice, and its length is the map's size. Read back, it is the map when no name contains `=`. |
| `LocalUp.Launch` | ecs-cli/modules/cli/local/up_app.go:116-123 | the command is `docker-compose -f <file> up -d`, and its `Env` lists each variable of the map once, in some visiting order, with as many entries as the map has variables. On Unix-like systems the child gets exactly those variables when there is at least one, and the parent's environment when there are none. Read back, the child's environment is the map when no name contains `=`. |
| `LocalUp.Up` | ecs-cli/modules/cli/local/up_app.go:42-53 | as written: a parse failure ends the run with the file name and cause. Otherwise the run fails iff `decryptSecrets` as written fails on the scanned records, with that error and no command. On success the command is the one `upComposeFile` builds for the resolved map. |
| `LocalUp.UpChecked` | ecs-cli/modules/cli/local/up_app.go:42-53 | the same composition with the corrected resolver: a failed SSM client also ends the run |
| `LocalUp.SSMClientErrorStartsContainers` | ecs-cli/modules/cli/local/up_app.go:84-88 | with only the SSM constructor failing and no services, the run as written starts `docker-compose -f <file> up -d` with an empty `Env`, so the child inherits the parent's environment. The checked run fails with the SSM client's error. |
| `LocalUp.WebLabelsScan` | ecs-cli/modules/cli/local/up_app.go:70-77 | the labels `image` and `ecs-local.secret.DB_PASSWORD` of service `web` give exactly the one record `(web, DB_PASSWORD, ref)` |
| `LocalUp.WebSecretResolves` | ecs-cli/modules/cli/local/up_app.go:90-112 | that record, owned by Secrets Manager, resolves through `decryptSecrets` as written to the single variable `DB_PASSWORD` |
| `LocalUp.WebUp` | ecs-cli/modules/cli/local/up_app.go:116-123 | the whole run for that file starts `docker-compose -f <file> up -d` with the environment list exactly `["DB_PASSWORD=hunter2"]`, which on Unix-like systems is also what the child sees |
| `LocalUp.CollidingNamesLastWins` | ecs-cli/modules/cli/local/up_app.go:110 | two records with the same secret name give one variable, holding the later record's value |

## Left out

- `Up` steps `Create(c)`, `network.Setup` and `docker.NewClient` (lines 45-47): they generate the Compose file and set up the Docker network. These are file and daemon side effects, and `Create` is not part of this model.
- `readComposeFile` (lines 55-65): the flag lookup that picks the file name and the YAML parsing in `converter.UnmarshalComposeFile` are not modelled. The parse outcome is a parameter of `LocalUp.Up`. Only its failure path is modelled: a fatal error carrying the file name.
- The internals of `ContainerSecret.ServiceName` (parsing an ARN) and `ContainerSecret.Decrypt` (AWS calls): these are network calls. Both are abstract functions of `Resolver.Backend`.
- Client constructors `NewSSMDecrypter` and `NewSecretsManagerDecrypter`: their outcomes are parameters (`Resolver.ClientInit`).
- `cmd.CombinedOutput`, the fatal error when `docker-compose` fails, and the `fmt.Printf` echo (lines 125-129): these are subprocess and terminal I/O. `LocalUp.Up` returns the command it would run.
- `logrus.Fatalf` message texts and process exit: each fatal exit is a variant of `Results.Error` carrying the underlying cause.
- `converter.SecretLabelPrefix` lives in a package that is not part of this model. Its value, `ecs-local.secret.`, is the documented label convention and is written into `Scanner.SecretLabelPrefix`.
- How `os/exec` treats duplicate names inside `Env`: it is not modelled beyond `Launcher.EnvToMap` (the last entry wins). On Unix-like systems, a list built from a map repeats an `os/exec` name (the text up to the first `=`) only when a secret name contains `=`, which a label key such as `ecs-local.secret.A=B` produces. The read-back in `Launcher.BuildEnv` and `Launcher.EnumerationDecodes` then does not hold, which is why both require names without `=`.
- `Launcher.ChildEnvironment` and `Launcher.EnvToMap` follow `os/exec` on Unix-like systems. On Windows `os/exec` also adds `SYSTEMROOT` from the parent when `Env` lacks it, and it matches names case-insensitively, so there the child is not limited to the secrets and names such as `DB` and `db` collide. Platform-specific behaviour is not modelled.
- Struct accessors of `ContainerSecret` (`Name()`, constructor): these are datatype fields here.

## Findings

| source | as written | input that shows it | evidently intended | confidence | as-written member | corrected member |
|---|---|---|---|---|---|---|
| ecs-cli/modules/cli/local/up_app.go:84-88 | the error returned by `NewSSMDecrypter` is assigned to `err` and then overwritten by the error of `NewSecretsManagerDecrypter` before `err` is tested, so the SSM constructor's error never stops the run | SSM constructor fails, Secrets Manager constructor succeeds, no secret labels: the resolver succeeds with an empty map (`Resolver.SSMClientErrorIgnored`), and the run starts `docker-compose` with the parent's environment (`LocalUp.SSMClientErrorStartsContainers`) | a failure to build either client aborts the run before any record is examined | high, not executed | `Resolver.DecryptSecrets` | `Resolver.DecryptSecretsChecked` |
