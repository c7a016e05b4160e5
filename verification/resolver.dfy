/**
 The secret resolver of `local up` (`decryptSecrets`). Each record is sent
 to the Secrets Manager or the SSM Parameter Store client according to the
 AWS service that owns its reference; the plaintext values are collected
 in a map keyed by secret name. The first failure ends the run.

 The AWS side is abstract: which service owns a record, and what a client
 returns for it, are the functions of a `Backend`; the clients themselves
 are opaque values of type `C`.
 */
module Resolver {
  import opened Results
  import opened Scanner

  /** The service identities that `decryptSecrets` switches on. */
  const SecretsManagerServiceName: string := "secretsmanager"
  const SSMServiceName: string := "ssm"

  /** The secret-service collaborators: `serviceOf` tells which AWS service
      owns a record's reference (or why it cannot), and `decrypt` fetches the
      plaintext of a record through a given client. */
  datatype Backend<!C> = Backend(
    serviceOf: ContainerSecret -> Result<string, string>,
    decrypt: (C, ContainerSecret) -> Result<string, string>)

  /** What a client constructor returns: a client value and, possibly, an
      error. As in Go, the value is there either way. */
  datatype ClientInit<C> = ClientInit(client: C, err: Option<string>)

  /** The two clients a run works with. */
  datatype Clients<C> = Clients(secretsManager: C, ssm: C)

  /** A backend's failure, as the command reports it. */
  function DecryptOutcome(d: Result<string, string>): (r: Result<string, Error>)
  {
    match d
    case Success(v) => Success(v)
    case Failure(e) => Failure(DecryptFailed(e))
  }

  /** One iteration of the resolution loop: find the owning service and ask
      that service's client, and only that one. */
  function ResolveOne<C>(b: Backend<C>, clients: Clients<C>, cs: ContainerSecret): (r: Result<string, Error>)
    ensures b.serviceOf(cs).Failure? ==> r == Failure(ServiceLookupFailed(b.serviceOf(cs).error))
    ensures b.serviceOf(cs) == Success(SecretsManagerServiceName) ==>
              r == DecryptOutcome(b.decrypt(clients.secretsManager, cs))
    ensures b.serviceOf(cs) == Success(SSMServiceName) ==>
              r == DecryptOutcome(b.decrypt(clients.ssm, cs))
    ensures b.serviceOf(cs).Success? && b.serviceOf(cs).value != SecretsManagerServiceName
            && b.serviceOf(cs).value != SSMServiceName ==>
              r == Failure(UnknownService(b.serviceOf(cs).value))
  {
    match b.serviceOf(cs)
    case Failure(e) => Failure(ServiceLookupFailed(e))
    case Success(service) =>
      if service == SecretsManagerServiceName then DecryptOutcome(b.decrypt(clients.secretsManager, cs))
      else if service == SSMServiceName then DecryptOutcome(b.decrypt(clients.ssm, cs))
      else Failure(UnknownService(service))
  }

  /** Dispatch never crosses backends: the outcome for a record owned by one
      service is the same whatever the other service's client is, and the
      outcome for a record owned by neither does not depend on any client. */
  lemma DispatchNeverCrossesBackends<C>(b: Backend<C>, cs: ContainerSecret, sm: C, sm': C, ssm: C, ssm': C)
    ensures b.serviceOf(cs) == Success(SecretsManagerServiceName) ==>
              ResolveOne(b, Clients(sm, ssm), cs) == ResolveOne(b, Clients(sm, ssm'), cs)
    ensures b.serviceOf(cs) == Success(SSMServiceName) ==>
              ResolveOne(b, Clients(sm, ssm), cs) == ResolveOne(b, Clients(sm', ssm), cs)
    ensures b.serviceOf(cs).Success? && b.serviceOf(cs).value != SecretsManagerServiceName
            && b.serviceOf(cs).value != SSMServiceName ==>
              ResolveOne(b, Clients(sm, ssm), cs) == ResolveOne(b, Clients(sm', ssm'), cs)
  {
  }

  /** The names of the records. */
  ghost function Names(secrets: seq<ContainerSecret>): (names: set<string>)
  {
    set cs | cs in secrets :: cs.name
  }

  /** Every record resolves. */
  ghost predicate AllResolve<C>(b: Backend<C>, clients: Clients<C>, secrets: seq<ContainerSecret>)
  {
    forall i :: 0 <= i < |secrets| ==> ResolveOne(b, clients, secrets[i]).Success?
  }

  /** `e` is the error of the first record that does not resolve. */
  ghost predicate FirstFailure<C>(b: Backend<C>, clients: Clients<C>, secrets: seq<ContainerSecret>, e: Error)
  {
    exists i :: 0 <= i < |secrets| && ResolveOne(b, clients, secrets[i]) == Failure(e)
                && forall j :: 0 <= j < i ==> ResolveOne(b, clients, secrets[j]).Success?
  }

  /** No later record has the name of record `i`. */
  ghost predicate LastWithName(secrets: seq<ContainerSecret>, i: int)
    requires 0 <= i < |secrets|
  {
    forall j :: i < j < |secrets| ==> secrets[j].name != secrets[i].name
  }

  /** Facts about a record list that follow from the same facts about its
      tail, once the first record has resolved. */
  lemma ResolvedHead<C>(b: Backend<C>, clients: Clients<C>, secrets: seq<ContainerSecret>)
    requires |secrets| > 0 && ResolveOne(b, clients, secrets[0]).Success?
    ensures AllResolve(b, clients, secrets) <==> AllResolve(b, clients, secrets[1..])
    ensures forall e :: FirstFailure(b, clients, secrets[1..], e) ==> FirstFailure(b, clients, secrets, e)
    ensures Names(secrets) == {secrets[0].name} + Names(secrets[1..])
    ensures forall i :: 0 < i < |secrets| && LastWithName(secrets, i) ==> LastWithName(secrets[1..], i - 1)
    ensures LastWithName(secrets, 0) ==> secrets[0].name !in Names(secrets[1..])
  {
    var rest := secrets[1..];
    assert secrets == [secrets[0]] + rest;
    assert forall i :: 0 < i < |secrets| ==> secrets[i] == rest[i - 1];
    forall e | FirstFailure(b, clients, rest, e)
      ensures FirstFailure(b, clients, secrets, e)
    {
      var i :| 0 <= i < |rest| && ResolveOne(b, clients, rest[i]) == Failure(e)
               && forall j :: 0 <= j < i ==> ResolveOne(b, clients, rest[j]).Success?;
      assert ResolveOne(b, clients, secrets[i + 1]) == Failure(e);
    }
  }

  /** The resolution loop: resolve the records in order, writing each value
      under its secret name into `env`, and stop at the first failure. */
  function Accumulate<C>(b: Backend<C>, clients: Clients<C>, secrets: seq<ContainerSecret>,
                         env: map<string, string>): (r: Result<map<string, string>, Error>)
    ensures r.Success? <==> AllResolve(b, clients, secrets)
    ensures r.Failure? ==> FirstFailure(b, clients, secrets, r.error)
    ensures r.Success? ==> r.value.Keys == env.Keys + Names(secrets)
    ensures r.Success? ==> forall k :: k in env && k !in Names(secrets) ==> r.value[k] == env[k]
    ensures r.Success? ==> forall i :: 0 <= i < |secrets| && LastWithName(secrets, i) ==>
              r.value[secrets[i].name] == ResolveOne(b, clients, secrets[i]).value
    decreases |secrets|
  {
    if |secrets| == 0 then Success(env)
    else
      var cs := secrets[0];
      match ResolveOne(b, clients, cs)
      case Failure(e) =>
        assert FirstFailure(b, clients, secrets, e) by {
          assert ResolveOne(b, clients, secrets[0]) == Failure(e);
        }
        Failure(e)
      case Success(v) =>
        ResolvedHead(b, clients, secrets);
        Accumulate(b, clients, secrets[1..], env[cs.name := v])
  }

  /** `decryptSecrets` as written: both clients are constructed, but the
      error of the SSM constructor is overwritten by that of the Secrets
      Manager constructor before it is tested, so only the latter aborts. */
  function DecryptSecrets<C>(b: Backend<C>, ssmInit: ClientInit<C>, smInit: ClientInit<C>,
                             secrets: seq<ContainerSecret>): (r: Result<map<string, string>, Error>)
    ensures smInit.err.Some? ==> r == Failure(ClientCreationFailed(smInit.err.value))
    ensures smInit.err.None? ==>
              (r.Success? <==> AllResolve(b, Clients(smInit.client, ssmInit.client), secrets))
    ensures r.Failure? && smInit.err.None? ==>
              FirstFailure(b, Clients(smInit.client, ssmInit.client), secrets, r.error)
    ensures r.Success? ==> r.value.Keys == Names(secrets)
    ensures r.Success? ==> forall i :: 0 <= i < |secrets| && LastWithName(secrets, i) ==>
              r.value[secrets[i].name] == ResolveOne(b, Clients(smInit.client, ssmInit.client), secrets[i]).value
  {
    if smInit.err.Some? then Failure(ClientCreationFailed(smInit.err.value))
    else Accumulate(b, Clients(smInit.client, ssmInit.client), secrets, map[])
  }

  /** `decryptSecrets` with both constructor errors tested, in construction
      order, before any record is looked at. On success the map holds one
      entry per secret name: the value of the last record with that name. */
  function DecryptSecretsChecked<C>(b: Backend<C>, ssmInit: ClientInit<C>, smInit: ClientInit<C>,
                                    secrets: seq<ContainerSecret>): (r: Result<map<string, string>, Error>)
    ensures ssmInit.err.Some? ==> r == Failure(ClientCreationFailed(ssmInit.err.value))
    ensures ssmInit.err.None? && smInit.err.Some? ==> r == Failure(ClientCreationFailed(smInit.err.value))
    ensures r.Success? <==> ssmInit.err.None? && smInit.err.None?
                            && AllResolve(b, Clients(smInit.client, ssmInit.client), secrets)
    ensures r.Failure? && ssmInit.err.None? && smInit.err.None? ==>
              FirstFailure(b, Clients(smInit.client, ssmInit.client), secrets, r.error)
    ensures r.Success? ==> r.value.Keys == Names(secrets)
    ensures r.Success? ==> forall i :: 0 <= i < |secrets| && LastWithName(secrets, i) ==>
              r.value[secrets[i].name] == ResolveOne(b, Clients(smInit.client, ssmInit.client), secrets[i]).value
  {
    if ssmInit.err.Some? then Failure(ClientCreationFailed(ssmInit.err.value))
    else DecryptSecrets(b, ssmInit, smInit, secrets)
  }

  /** The discrepancy between the two: when only the SSM client cannot be
      built and there is nothing to resolve, the code as written succeeds
      with an empty map and goes on to start the containers, while the
      intended check stops the run. */
  lemma SSMClientErrorIgnored()
    ensures var b := Backend((cs: ContainerSecret) => Success(SSMServiceName),
                             (c: int, cs: ContainerSecret) => Success("plaintext"));
            var ssmInit := ClientInit(0, Some("no credentials for SSM"));
            var smInit := ClientInit(1, None);
            && DecryptSecrets(b, ssmInit, smInit, []) == Success(map[])
            && DecryptSecretsChecked(b, ssmInit, smInit, []).Failure?
  {
  }
}
