/**
 The secret scanner of `local up` (`readSecrets`): every label whose key
 starts with the secret prefix names a secret that a container needs. The
 secret's name is the last `.`-separated segment of the key, and the
 label's value is the reference (an ARN or parameter name) to fetch it by.
 */
module Scanner {
  import opened Strings
  import opened Compose
  import opened Sequences

  /** Key prefix of labels that carry secrets. */
  const SecretLabelPrefix: string := "ecs-local.secret."

  /** A secret one Compose service needs: the service, the name of the
      environment variable to expose it as, and the reference to fetch it by. */
  datatype ContainerSecret = ContainerSecret(service: string, name: string, ref: string)

  predicate IsSecretLabel(key: string)
  {
    HasPrefix(key, SecretLabelPrefix)
  }

  /** The record a secret label of service `service` gives rise to. */
  function FromLabel(service: string, l: Label): (cs: ContainerSecret)
  {
    ContainerSecret(service, LastSegment(l.key, '.'), l.value)
  }

  /** The secret labels among `labels`, in their order: the reference
      against which the scanner is specified. */
  ghost function SecretLabels(labels: seq<Label>): (kept: seq<Label>)
    ensures |kept| <= |labels|
    ensures forall l :: l in kept <==> l in labels && IsSecretLabel(l.key)
  {
    if |labels| == 0 then []
    else (if IsSecretLabel(labels[0].key) then [labels[0]] else []) + SecretLabels(labels[1..])
  }

  /** Number of secret labels over all `services`. */
  ghost function SecretLabelCount(services: seq<Service>): (n: nat)
  {
    if |services| == 0 then 0
    else |SecretLabels(services[0].labels)| + SecretLabelCount(services[1..])
  }

  /** `cs` is the record of one of the secret labels of `s`. */
  ghost predicate Yields(s: Service, cs: ContainerSecret)
  {
    exists l :: l in s.labels && IsSecretLabel(l.key) && cs == FromLabel(s.name, l)
  }

  /** The inner loop of the scan: the records of one service's labels, in
      label order. */
  function ScanLabels(service: string, labels: seq<Label>): (found: seq<ContainerSecret>)
  {
    if |labels| == 0 then []
    else
      var l := labels[0];
      (if IsSecretLabel(l.key) then [FromLabel(service, l)] else []) + ScanLabels(service, labels[1..])
  }

  /** Exactly one record per secret label, in label order, carrying the
      service's name, the key's last segment and the label's value; a service
      without secret labels contributes nothing. */
  lemma {:induction false} ScanLabelsOnePerSecretLabel(service: string, labels: seq<Label>)
    ensures var found := ScanLabels(service, labels);
            && |found| == |SecretLabels(labels)|
            && (forall i :: 0 <= i < |found| ==> found[i] == FromLabel(service, SecretLabels(labels)[i]))
            && ((forall l :: l in labels ==> !IsSecretLabel(l.key)) ==> found == [])
  {
    if |labels| > 0 {
      ScanLabelsOnePerSecretLabel(service, labels[1..]);
    }
  }

  /** A record is among a service's records exactly when some secret label
      of the service gives rise to it. */
  lemma {:induction false} ScanLabelsMembership(service: string, labels: seq<Label>)
    ensures forall cs :: cs in ScanLabels(service, labels) <==>
              exists l :: l in labels && IsSecretLabel(l.key) && cs == FromLabel(service, l)
  {
    if |labels| > 0 {
      ScanLabelsMembership(service, labels[1..]);
      assert labels == [labels[0]] + labels[1..];
    }
  }

  /** The scan of a whole Compose configuration, service by service in the
      order of the parsed configuration's `Services` slice. */
  function ReadSecrets(services: seq<Service>): (found: seq<ContainerSecret>)
  {
    if |services| == 0 then []
    else ScanLabels(services[0].name, services[0].labels) + ReadSecrets(services[1..])
  }

  /** The scan yields one record per secret label over all services. */
  lemma {:induction false} ReadSecretsCount(services: seq<Service>)
    ensures |ReadSecrets(services)| == SecretLabelCount(services)
  {
    if |services| > 0 {
      ReadSecretsCount(services[1..]);
      ScanLabelsOnePerSecretLabel(services[0].name, services[0].labels);
    }
  }

  /** Every record stems from a secret label of some service. */
  lemma {:induction false} ReadSecretsSound(services: seq<Service>)
    ensures forall cs :: cs in ReadSecrets(services) ==> exists j :: 0 <= j < |services| && Yields(services[j], cs)
  {
    if |services| > 0 {
      var head := ScanLabels(services[0].name, services[0].labels);
      var rest := ReadSecrets(services[1..]);
      ReadSecretsSound(services[1..]);
      ScanLabelsMembership(services[0].name, services[0].labels);
      forall cs | cs in ReadSecrets(services)
        ensures exists j :: 0 <= j < |services| && Yields(services[j], cs)
      {
        if cs in head {
          assert Yields(services[0], cs);
        } else {
          assert cs in rest;
          var j :| 0 <= j < |services[1..]| && Yields(services[1..][j], cs);
          assert Yields(services[j + 1], cs);
        }
      }
    }
  }

  /** Every secret label of every service yields its record. */
  lemma {:induction false} ReadSecretsComplete(services: seq<Service>)
    ensures forall j, l :: 0 <= j < |services| && l in services[j].labels && IsSecretLabel(l.key) ==>
              FromLabel(services[j].name, l) in ReadSecrets(services)
  {
    if |services| > 0 {
      ReadSecretsComplete(services[1..]);
      ScanLabelsMembership(services[0].name, services[0].labels);
      forall j, l | 0 <= j < |services| && l in services[j].labels && IsSecretLabel(l.key)
        ensures FromLabel(services[j].name, l) in ReadSecrets(services)
      {
        if j > 0 {
          assert services[1..][j - 1] == services[j];
        }
      }
    }
  }

  /** Scanning distributes over concatenation of label sequences. */
  lemma {:induction false} ScanAppend(service: string, a: seq<Label>, b: seq<Label>)
    ensures ScanLabels(service, a + b) == ScanLabels(service, a) + ScanLabels(service, b)
  {
    if |a| > 0 {
      ScanAppend(service, a[1..], b);
      assert (a + b)[0] == a[0];
      assert (a + b)[1..] == a[1..] + b;
    } else {
      assert a + b == b;
    }
  }

  /** Removing the label at `j` removes exactly its records from the scan. */
  lemma ScanLabelsWithout(service: string, b: seq<Label>, j: int)
    requires 0 <= j < |b|
    ensures multiset(ScanLabels(service, b)) ==
              multiset(ScanLabels(service, b[..j] + b[j + 1..])) + multiset(ScanLabels(service, [b[j]]))
  {
    var pre, x, post := b[..j], b[j], b[j + 1..];
    SplitAround(b, j);
    var front, mid, back := ScanLabels(service, pre), ScanLabels(service, [x]), ScanLabels(service, post);
    ScanAppend(service, pre + [x], post);
    ScanAppend(service, pre, [x]);
    ScanAppend(service, pre, post);
    assert ScanLabels(service, b) == front + mid + back;
    assert multiset(front + mid + back) == multiset(front + back) + multiset(mid);
  }

  /** The records of a service do not depend on the order in which its label
      mapping is visited: any two visiting orders of the same labels yield
      the same records, with the same multiplicities. */
  lemma {:induction false} ScanIgnoresLabelOrder(service: string, a: seq<Label>, b: seq<Label>)
    requires multiset(a) == multiset(b)
    ensures multiset(ScanLabels(service, a)) == multiset(ScanLabels(service, b))
    decreases |a|
  {
    if |a| == 0 {
      assert |b| == |multiset(b)| == 0;
    } else {
      var x := a[0];
      var j := FirstElsewhere(a, b);
      var b' := b[..j] + b[j + 1..];
      SplitAround(b, j);
      SplitAround(a, 0);
      assert a[..0] + [x] + a[1..] == [x] + a[1..];
      ScanIgnoresLabelOrder(service, a[1..], b');
      ScanLabelsWithout(service, b, j);
      ScanAppend(service, [x], a[1..]);
    }
  }

  /** The whole scan does not depend on label order either: for a given
      `Services` slice, permuting any service's labels leaves the multiset of
      records unchanged. */
  lemma {:induction false} ReadSecretsIgnoresLabelOrder(a: seq<Service>, b: seq<Service>)
    requires |a| == |b|
    requires forall j :: 0 <= j < |a| ==> a[j].name == b[j].name && multiset(a[j].labels) == multiset(b[j].labels)
    ensures multiset(ReadSecrets(a)) == multiset(ReadSecrets(b))
  {
    if |a| > 0 {
      ScanIgnoresLabelOrder(a[0].name, a[0].labels, b[0].labels);
      ReadSecretsIgnoresLabelOrder(a[1..], b[1..]);
    }
  }

  /** Scanning distributes over concatenation of service sequences. */
  lemma {:induction false} ReadSecretsAppend(a: seq<Service>, b: seq<Service>)
    ensures ReadSecrets(a + b) == ReadSecrets(a) + ReadSecrets(b)
  {
    if |a| > 0 {
      ReadSecretsAppend(a[1..], b);
      assert (a + b)[0] == a[0];
      assert (a + b)[1..] == a[1..] + b;
    } else {
      assert a + b == b;
    }
  }

  /** Removing the service at `j` from the slice removes exactly its
      records from the scan. */
  lemma ReadSecretsWithout(b: seq<Service>, j: int)
    requires 0 <= j < |b|
    ensures multiset(ReadSecrets(b)) ==
              multiset(ReadSecrets(b[..j] + b[j + 1..])) + multiset(ReadSecrets([b[j]]))
  {
    var pre, x, post := b[..j], b[j], b[j + 1..];
    SplitAround(b, j);
    var front, mid, back := ReadSecrets(pre), ReadSecrets([x]), ReadSecrets(post);
    ReadSecretsAppend(pre + [x], post);
    ReadSecretsAppend(pre, [x]);
    ReadSecretsAppend(pre, post);
    assert ReadSecrets(b) == front + mid + back;
    assert multiset(front + mid + back) == multiset(front + back) + multiset(mid);
  }

  /** The order of the services does not change which records the scan
      yields, only their order (and with it which record of a shared name
      is resolved last). */
  lemma {:induction false} ReadSecretsIgnoresServiceOrder(a: seq<Service>, b: seq<Service>)
    requires multiset(a) == multiset(b)
    ensures multiset(ReadSecrets(a)) == multiset(ReadSecrets(b))
    decreases |a|
  {
    if |a| == 0 {
      assert |b| == |multiset(b)| == 0;
    } else {
      var x := a[0];
      var j := FirstElsewhere(a, b);
      var b' := b[..j] + b[j + 1..];
      SplitAround(b, j);
      SplitAround(a, 0);
      assert a[..0] + [x] + a[1..] == [x] + a[1..];
      ReadSecretsIgnoresServiceOrder(a[1..], b');
      ReadSecretsWithout(b, j);
      ReadSecretsAppend([x], a[1..]);
    }
  }

  /** The distinct keys among `labels` that carry the secret prefix. */
  ghost function PrefixedKeys(labels: seq<Label>): (keys: set<string>)
  {
    set l | l in labels && IsSecretLabel(l.key) :: l.key
  }

  /** How the prefixed keys of a label sequence arise from its first label
      and the rest. */
  lemma PrefixedKeysUncons(labels: seq<Label>)
    requires |labels| > 0
    ensures PrefixedKeys(labels) ==
              PrefixedKeys(labels[1..]) + (if IsSecretLabel(labels[0].key) then {labels[0].key} else {})
  {
    assert forall l :: l in labels <==> l == labels[0] || l in labels[1..];
  }

  /** In a mapping, the first key does not recur among the rest. */
  lemma FirstKeyNotRepeated(labels: seq<Label>)
    requires |labels| > 0 && DistinctKeys(labels)
    ensures labels[0].key !in PrefixedKeys(labels[1..])
  {
    var rest := labels[1..];
    forall l | l in rest
      ensures l.key != labels[0].key
    {
      var i :| 0 <= i < |rest| && rest[i] == l;
      assert labels[i + 1] == l;
    }
  }

  /** When the labels come from a mapping (distinct keys), the number of
      records equals the number of distinct keys that carry the prefix. */
  lemma {:induction false} SecretCountIsPrefixedKeyCount(labels: seq<Label>)
    requires DistinctKeys(labels)
    ensures |SecretLabels(labels)| == |PrefixedKeys(labels)|
  {
    if |labels| == 0 {
      assert PrefixedKeys(labels) == {};
    } else {
      var rest := labels[1..];
      assert DistinctKeys(rest);
      SecretCountIsPrefixedKeyCount(rest);
      PrefixedKeysUncons(labels);
      FirstKeyNotRepeated(labels);
      assert SecretLabels(labels) == (if IsSecretLabel(labels[0].key) then [labels[0]] else []) + SecretLabels(rest);
    }
  }

  /** For a prefix that ends in `.`, as `SecretLabelPrefix` does, a
      secret's name never reaches back into the prefix: it is the last
      segment of what follows the prefix, and so a suffix of it (the whole
      remainder when that contains no further `.`). */
  lemma SecretNameWithinRemainder(prefix: string, key: string)
    requires |prefix| > 0 && prefix[|prefix| - 1] == '.'
    requires HasPrefix(key, prefix)
    ensures var name := LastSegment(key, '.');
            var remainder := key[|prefix|..];
            && name == LastSegment(remainder, '.')
            && |name| <= |remainder| && remainder[|remainder| - |name|..] == name
            && ('.' !in remainder ==> name == remainder)
  {
    var remainder := key[|prefix|..];
    var r1, r2 := LastSegment(key, '.'), LastSegment(remainder, '.');
    assert key[|prefix| - 1] == '.';
    assert key[|key| - |r2|..] == r2;
    // both names are preceded by a `.` in `key`, and neither contains one
    assert key[|key| - |r1| - 1] == '.';
    assert key[|key| - |r2| - 1] == '.';
    assert forall i :: |key| - |r1| <= i < |key| ==> key[i] == r1[i - (|key| - |r1|)];
    assert forall i :: |key| - |r2| <= i < |key| ==> key[i] == r2[i - (|key| - |r2|)];
  }
}
