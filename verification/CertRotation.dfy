/** The certgen job (jobs/pkg/kube/secret.go, jobs/pkg/run/run.go), sequentially: reading, building and rotating the
    TLS secret. X.509 is abstracted to the generation a certificate, key or CA belongs to. */
module CertRotation {
  import opened Common

  /** One PEM block. The server certificate of a generation is issued by that generation's CA. */
  datatype Pem = CaCert(gen: nat) | ServerCert(gen: nat) | PrivateKey(gen: nat)

  type Bytes = seq<Pem>

  datatype Certificates = Certificates(caCertificate: Bytes, serverCertificate: Bytes, serverCertKey: Bytes)

  function GenCerts(gen: nat): Certificates {
    Certificates([CaCert(gen)], [ServerCert(gen)], [PrivateKey(gen)])
  }

  /** The names under which the secret's data is stored. */
  datatype Files = Files(key: string, cert: string, caBundle: string)

  predicate DistinctFiles(f: Files) {
    f.key != f.cert && f.key != f.caBundle && f.cert != f.caBundle
  }

  datatype TlsSecret = TlsSecret(files: Files, privateKey: Bytes, cert: Bytes, caBundle: Bytes)

  /** The data of a Kubernetes secret; name, namespace and type never change. */
  type SecretData = map<string, Bytes>

  function MakeTlsSecret(t: TlsSecret): SecretData {
    map[t.files.key := t.privateKey][t.files.cert := t.cert][t.files.caBundle := t.caBundle]
  }

  function Entry(data: SecretData, file: string): Bytes {
    if file in data then data[file] else []
  }

  function ParseTlsSecret(data: SecretData, files: Files): TlsSecret {
    TlsSecret(files, Entry(data, files.key), Entry(data, files.cert), Entry(data, files.caBundle))
  }

  /** Writing a secret and reading it back is lossless exactly when file names that coincide carry the same bytes;
      distinct names always do. */
  lemma ParseMakeRoundTrip(t: TlsSecret)
    ensures ParseTlsSecret(MakeTlsSecret(t), t.files) == t
       <==> && (t.files.cert == t.files.caBundle ==> t.cert == t.caBundle)
            && (t.files.key == t.files.caBundle ==> t.privateKey == t.caBundle)
            && (t.files.key == t.files.cert != t.files.caBundle ==> t.privateKey == t.cert)
  {
  }

  lemma MakeParseRoundTrip(data: SecretData, files: Files)
    requires DistinctFiles(files) && data.Keys == {files.key, files.cert, files.caBundle}
    ensures MakeTlsSecret(ParseTlsSecret(data, files)) == data
  {
    var back := MakeTlsSecret(ParseTlsSecret(data, files));
    assert back.Keys == data.Keys;
  }

  // ---- is there a usable secret, and is it about to expire? ----

  datatype Cert = Cert(notBefore: int, notAfter: int, validForService: bool)

  datatype Existing = NoUsableSecret | Usable(expiringSoon: bool)

  predicate InValidity(c: Cert, now: int) {
    c.notBefore <= now <= c.notAfter
  }

  predicate Expiring(c: Cert, now: int, renewBefore: int) {
    c.validForService && now > c.notAfter - renewBefore
  }

  /** The certificates up to and including i are in validity and the i-th one is the service's and expires soon. */
  ghost predicate ExpiresAt(certs: seq<Cert>, now: int, renewBefore: int, i: int) {
    0 <= i < |certs| && Expiring(certs[i], now, renewBefore) && forall j :: 0 <= j <= i ==> InValidity(certs[j], now)
  }

  ghost predicate ExpiringSoon(certs: seq<Cert>, now: int, renewBefore: int) {
    exists i :: ExpiresAt(certs, now, renewBefore, i)
  }

  /** Everything is in validity, nothing expires soon, and some certificate is the service's. */
  ghost predicate StillGood(certs: seq<Cert>, now: int, renewBefore: int) {
    && (forall i :: 0 <= i < |certs| ==> InValidity(certs[i], now) && !Expiring(certs[i], now, renewBefore))
    && exists i :: 0 <= i < |certs| && certs[i].validForService
  }

  /** The decision loop of `GetExistingValidTlsSecret`. */
  method CheckExistingCerts(certs: seq<Cert>, now: int, renewBefore: int) returns (r: Existing)
    ensures r == Usable(true) <==> ExpiringSoon(certs, now, renewBefore)
    ensures r == Usable(false) <==> StillGood(certs, now, renewBefore)
  {
    var matchesSvc := false;
    for i := 0 to |certs|
      invariant forall j :: 0 <= j < i ==> InValidity(certs[j], now) && !Expiring(certs[j], now, renewBefore)
      invariant matchesSvc <==> exists j :: 0 <= j < i && certs[j].validForService
    {
      if now < certs[i].notBefore || now > certs[i].notAfter {
        return NoUsableSecret;
      }
      if certs[i].validForService && now > certs[i].notAfter - renewBefore {
        assert ExpiresAt(certs, now, renewBefore, i);
        return Usable(true);
      }
      if certs[i].validForService {
        matchesSvc := true;
      }
    }
    if !matchesSvc {
      return NoUsableSecret;
    }
    return Usable(false);
  }

  // ---- rotation ----

  /** The three versions a rotation writes, in order: both CAs, new certificate, new CA only. */
  function RotationPlan(current: TlsSecret, next: Certificates): seq<TlsSecret> {
    var both := current.(caBundle := current.caBundle + next.caCertificate);
    var switched := both.(cert := next.serverCertificate, privateKey := next.serverCertKey);
    [both, switched, switched.(caBundle := next.caCertificate)]
  }

  /** What the ticker and the context deliver while waiting. */
  datatype WaitEvent = Tick(t: int) | Done

  ghost predicate Ends(e: WaitEvent, end: int) {
    e.Done? || e.t > end
  }

  /** The first event that ends the wait is the ticker passing `end`, not the cancelled context. */
  ghost predicate Settles(events: seq<WaitEvent>, end: int) {
    exists i :: 0 <= i < |events| && events[i].Tick? && events[i].t > end && forall j :: 0 <= j < i ==> !Ends(events[j], end)
  }

  /** A wait whose events run out without ending it is one in which the process died. */
  method WaitGracePeriod(events: seq<WaitEvent>, end: int) returns (settled: bool)
    ensures settled <==> Settles(events, end)
  {
    for i := 0 to |events|
      invariant forall j :: 0 <= j < i ==> !Ends(events[j], end)
    {
      match events[i] {
        case Done => return false;
        case Tick(t) =>
          if t > end {
            return true;
          }
      }
    }
    return false;
  }

  /** The API server, as the sequence of versions of the secret it has stored. */
  class SecretClient {
    var versions: seq<SecretData>

    constructor (initial: seq<SecretData>)
      ensures versions == initial
    {
      versions := initial;
    }

    method Update(data: SecretData, accepted: bool)
      modifies this
      ensures versions == old(versions) + if accepted then [data] else []
    {
      if accepted {
        versions := versions + [data];
      }
    }
  }

  /** What the world does to one rotation: whether each update is accepted while the context lives, and the two waits. */
  datatype World = World(accepts: seq<bool>, waits: seq<seq<WaitEvent>>, end: int)

  /** How many of the three writes succeed: a write needs the wait before it to settle. */
  ghost function Writes(w: World): nat
    requires |w.accepts| == 3 && |w.waits| == 2
  {
    if !w.accepts[0] then 0
    else if !Settles(w.waits[0], w.end) || !w.accepts[1] then 1
    else if !Settles(w.waits[1], w.end) || !w.accepts[2] then 2
    else 3
  }

  /** Writes a prefix of the plan and reports success exactly when the whole plan was written. An update with a
      cancelled context fails, so nothing follows a wait that did not settle. */
  method RotateCerts(client: SecretClient, initial: TlsSecret, next: Certificates, world: World) returns (r: Option<SecretData>)
    requires |world.accepts| == 3 && |world.waits| == 2
    modifies client
    ensures |client.versions| == |old(client.versions)| + Writes(world)
    ensures old(client.versions) <= client.versions
    ensures forall i :: 0 <= i < Writes(world) ==>
      client.versions[|old(client.versions)| + i] == MakeTlsSecret(RotationPlan(initial, next)[i])
    ensures r.Some? <==> Writes(world) == 3
    ensures r.Some? ==> r.value == MakeTlsSecret(RotationPlan(initial, next)[2])
  {
    var current := initial;
    current := current.(caBundle := current.caBundle + next.caCertificate);
    client.Update(MakeTlsSecret(current), world.accepts[0]);
    if !world.accepts[0] {
      return None;
    }
    var settled := WaitGracePeriod(world.waits[0], world.end);

    current := current.(cert := next.serverCertificate);
    current := current.(privateKey := next.serverCertKey);
    client.Update(MakeTlsSecret(current), settled && world.accepts[1]);
    if !(settled && world.accepts[1]) {
      return None;
    }
    settled := WaitGracePeriod(world.waits[1], world.end);

    current := current.(caBundle := next.caCertificate);
    client.Update(MakeTlsSecret(current), settled && world.accepts[2]);
    if !(settled && world.accepts[2]) {
      return None;
    }
    return Some(MakeTlsSecret(current));
  }

  // ---- the job ----

  /** What `CreateTlsSecret` stores, whether it creates the secret or replaces an existing one. */
  function CreatedData(files: Files, next: Certificates): SecretData {
    MakeTlsSecret(TlsSecret(files, next.serverCertKey, next.serverCertificate, next.caCertificate))
  }

  /** The created version, entry by entry: each file holds what it is named for, and there is nothing else. */
  lemma CreatedEntries(files: Files, next: Certificates)
    requires DistinctFiles(files)
    ensures var data := CreatedData(files, next);
      && data.Keys == {files.key, files.cert, files.caBundle}
      && data[files.key] == next.serverCertKey && data[files.cert] == next.serverCertificate && data[files.caBundle] == next.caCertificate
  {
  }

  /** The three written versions, entry by entry: the bundle grows by the new CA, then certificate and key change together,
      then only the new CA is left. */
  lemma WrittenEntries(data: SecretData, files: Files, next: Certificates, step: nat)
    requires DistinctFiles(files) && step < 3
    ensures var written := MakeTlsSecret(RotationPlan(ParseTlsSecret(data, files), next)[step]);
      && written.Keys == {files.key, files.cert, files.caBundle}
      && written[files.key] == (if step == 0 then Entry(data, files.key) else next.serverCertKey)
      && written[files.cert] == (if step == 0 then Entry(data, files.cert) else next.serverCertificate)
      && written[files.caBundle] == (if step == 2 then next.caCertificate else Entry(data, files.caBundle) + next.caCertificate)
  {
  }

  /** The certificate needs replacing and a usable secret is there to rotate from. */
  ghost predicate Rotates(certs: Option<seq<Cert>>, now: int, renewBefore: int, forced: bool) {
    certs.Some? && (ExpiringSoon(certs.value, now, renewBefore) || (forced && StillGood(certs.value, now, renewBefore)))
  }

  ghost predicate Keeps(certs: Option<seq<Cert>>, now: int, renewBefore: int, forced: bool) {
    certs.Some? && !forced && StillGood(certs.value, now, renewBefore)
  }

  /** `Run` up to the webhook patch; `certs` are the decoded certificates of the stored secret, if there is one. */
  method Run(client: SecretClient, certs: Option<seq<Cert>>, now: int, renewBefore: int, forceRotation: bool,
             files: Files, next: Certificates, createAccepted: bool, world: World) returns (secret: Option<SecretData>)
    requires certs.Some? ==> client.versions != []
    requires |world.accepts| == 3 && |world.waits| == 2
    modifies client
    ensures Keeps(certs, now, renewBefore, forceRotation) ==>
      client.versions == old(client.versions) && secret == Some(client.versions[|client.versions| - 1])
    ensures Rotates(certs, now, renewBefore, forceRotation) ==>
      var n, current := |old(client.versions)|, ParseTlsSecret(old(client.versions)[|old(client.versions)| - 1], files);
      && |client.versions| == n + Writes(world) && old(client.versions) <= client.versions
      && (forall i :: 0 <= i < Writes(world) ==> client.versions[n + i] == MakeTlsSecret(RotationPlan(current, next)[i]))
      && (secret.Some? <==> Writes(world) == 3)
    ensures !Keeps(certs, now, renewBefore, forceRotation) && !Rotates(certs, now, renewBefore, forceRotation) ==>
      && client.versions == old(client.versions) + (if createAccepted then [CreatedData(files, next)] else [])
      && secret == if createAccepted then Some(CreatedData(files, next)) else None
  {
    hide ExpiringSoon, StillGood, MakeTlsSecret, RotationPlan;
    var existing := NoUsableSecret;
    if certs.Some? {
      existing := CheckExistingCerts(certs.value, now, renewBefore);
    }
    if existing.NoUsableSecret? {
      client.Update(CreatedData(files, next), createAccepted);
      return if createAccepted then Some(CreatedData(files, next)) else None;
    }
    var stored := client.versions[|client.versions| - 1];
    if existing.expiringSoon || forceRotation {
      secret := RotateCerts(client, ParseTlsSecret(stored, files), next, world);
    } else {
      secret := Some(stored);
    }
  }
}
