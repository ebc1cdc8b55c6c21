/** An account's devices: enrollment, revocation, compaction. */
module IdentityModel {
  import opened Foundations
  import opened Wire

  datatype Device = Device(id: string, mailbox: string, signingPublic: Bytes, signingPrivate: Private,
                           encryptionPublic: Bytes, encryptionPrivate: Private,
                           signature: Signature, revoked: bool, revokedAt: int)

  datatype Identity = Identity(accountId: string, currentId: string, accountPublic: Bytes, accountPrivate: Private, devices: seq<Device>)

  datatype Pending = Pending(accountId: string, device: Device)

  datatype EnrollmentRequest = EnrollmentRequest(accountId: string, deviceId: string, mailbox: string, device: Device)

  datatype Payload = Payload(accountId: string, accountPublic: Bytes, accountPrivate: Private,
                             devices: seq<DeviceBundle>, currentId: string)

  /** An anonymous box opens for the holder of the receiver's private key. */
  datatype AnonymousBox = AnonymousBox(receiver: Bytes, payload: Payload) | NotABox

  datatype Approval = Approval(accountId: string, ciphertext: AnonymousBox)

  datatype CompleteError = AccountMismatch | BadKeyPair | CannotOpen | WrongDevice | InvalidIdentity

  datatype Completion = Completed(identity: Identity) | NotCompleted(error: CompleteError)

  function Bundle(d: Device): DeviceBundle {
    DeviceBundle(d.id, d.mailbox, d.signingPublic, d.encryptionPublic, d.signature, d.revoked, d.revokedAt)
  }

  function PublicOnly(d: Device): Device {
    d.(signingPrivate := NoPrivate, encryptionPrivate := NoPrivate)
  }

  /** The first device with the ID, or -1. */
  function ById(devices: seq<Device>, id: string): (i: int)
    ensures -1 <= i < |devices| && (i >= 0 ==> devices[i].id == id)
    ensures i < 0 <==> forall j :: 0 <= j < |devices| ==> devices[j].id != id
  {
    First(devices, (d: Device) => d.id == id)
  }

  function ByMailbox(devices: seq<Device>, mailbox: string): (i: int)
    ensures -1 <= i < |devices| && (i >= 0 ==> devices[i].mailbox == mailbox)
    ensures i < 0 <==> forall j :: 0 <= j < |devices| ==> devices[j].mailbox != mailbox
  {
    First(devices, (d: Device) => d.mailbox == mailbox)
  }

  function First(devices: seq<Device>, p: Device -> bool): (i: int)
    ensures -1 <= i < |devices|
    ensures i >= 0 ==> p(devices[i]) && forall j :: 0 <= j < i ==> !p(devices[j])
    ensures i < 0 ==> forall j :: 0 <= j < |devices| ==> !p(devices[j])
  {
    if devices == [] then -1
    else
      var i := First(devices[..|devices| - 1], p);
      if i >= 0 then i else if p(devices[|devices| - 1]) then |devices| - 1 else -1
  }

  function CurrentDevice(i: Identity): Option<Device> {
    var k := ById(i.devices, i.currentId);
    if k < 0 || i.devices[k].revoked then None else Some(i.devices[k])
  }

  predicate DeviceVerifies(i: Identity, d: Device) {
    VerifyDeviceBundle(i.accountId, i.accountPublic, Bundle(d))
  }

  predicate Validate(i: Identity) {
    && i.accountId != "" && |i.accountPublic| == KEY_BYTES && i.accountPrivate.PrivateFor?
    && CurrentDevice(i).Some?
    && forall d :: d in i.devices ==> DeviceVerifies(i, d)
  }

  function StatementOf(accountId: string, id: string, mailbox: string, d: Device): Statement {
    DeviceStatement(accountId, id, mailbox, d.signingPublic, d.encryptionPublic)
  }

  /** Fresh keys and a fresh device ID are parameters. */
  function NewDevice(id: string, mailbox: string, signing: Bytes, encryption: Bytes): Device {
    Device(id, mailbox, signing, PrivateFor(signing), encryption, PrivateFor(encryption), Garbage([]), false, 0)
  }

  function NewIdentity(accountId: string, account: Bytes, d: Device): Identity {
    Identity(accountId, d.id, account, PrivateFor(account),
             [d.(signature := Sign(PrivateFor(account), StatementOf(accountId, d.id, d.mailbox, d)))])
  }

  function RequestOf(p: Pending): EnrollmentRequest {
    EnrollmentRequest(p.accountId, p.device.id, p.device.mailbox, PublicOnly(p.device))
  }

  /** The first device that shares ID or mailbox with the new one. */
  function Matching(devices: seq<Device>, id: string, mailbox: string): (i: int)
    ensures -1 <= i < |devices|
    ensures i >= 0 ==> devices[i].id == id || devices[i].mailbox == mailbox
    ensures i < 0 ==> forall j :: 0 <= j < |devices| ==> devices[j].id != id && devices[j].mailbox != mailbox
  {
    First(devices, (d: Device) => d.id == id || d.mailbox == mailbox)
  }

  /** An existing device keeps its ID, mailbox and private keys. */
  function Upsert(devices: seq<Device>, d: Device): seq<Device> {
    var k := Matching(devices, d.id, d.mailbox);
    if k < 0 then devices + [d]
    else devices[k := devices[k].(signingPublic := d.signingPublic, encryptionPublic := d.encryptionPublic,
                                  signature := d.signature, revoked := d.revoked, revokedAt := d.revokedAt)]
  }

  function Enrolled(i: Identity, r: EnrollmentRequest): Device
    requires i.accountPrivate.PrivateFor?
  {
    PublicOnly(r.device).(id := r.deviceId, mailbox := r.mailbox,
                          signature := Sign(i.accountPrivate, StatementOf(i.accountId, r.deviceId, r.mailbox, r.device)))
  }

  /** None is an error; the device list has changed before the key length is looked at. */
  function Approve(i: Identity, r: EnrollmentRequest): (Identity, Option<Approval>)
    requires i.accountPrivate.PrivateFor?
  {
    if r.accountId != i.accountId then (i, None)
    else
      var d := Enrolled(i, r);
      var i' := i.(devices := Upsert(i.devices, d));
      if |d.encryptionPublic| != KEY_BYTES then (i', None)
      else (i', Some(Approval(i.accountId, AnonymousBox(d.encryptionPublic,
                                             Payload(i.accountId, i.accountPublic, i.accountPrivate, Bundles(i'.devices), d.id)))))
  }

  function Bundles(devices: seq<Device>): seq<DeviceBundle> {
    seq(|devices|, k requires 0 <= k < |devices| => Bundle(devices[k]))
  }

  function FromBundle(b: DeviceBundle, own: bool, p: Device): Device {
    Device(b.id, b.mailbox, b.signingPublic, if own then p.signingPrivate else NoPrivate,
           b.encryptionPublic, if own then p.encryptionPrivate else NoPrivate, b.signature, b.revoked, b.revokedAt)
  }

  function FromBundles(bundles: seq<DeviceBundle>, p: Device): seq<Device> {
    seq(|bundles|, k requires 0 <= k < |bundles| => FromBundle(bundles[k], bundles[k].id == p.id, p))
  }

  predicate HasKeyPair(d: Device) {
    |d.encryptionPublic| == KEY_BYTES && d.encryptionPrivate.PrivateFor?
  }

  /** The identity an approval's payload describes to the pending device. */
  function Unpacked(p: Pending, payload: Payload): Identity {
    Identity(payload.accountId, p.device.id, payload.accountPublic, payload.accountPrivate, FromBundles(payload.devices, p.device))
  }

  function Complete(p: Pending, a: Approval): Completion {
    if a.accountId != p.accountId then NotCompleted(AccountMismatch)
    else if !HasKeyPair(p.device) then NotCompleted(BadKeyPair)
    else if a.ciphertext.NotABox? || a.ciphertext.receiver != p.device.encryptionPublic
            || p.device.encryptionPrivate != PrivateFor(a.ciphertext.receiver) then NotCompleted(CannotOpen)
    else
      var payload := a.ciphertext.payload;
      if payload.currentId != p.device.id then NotCompleted(WrongDevice)
      else
        var i := Unpacked(p, payload);
        if Validate(i) then Completed(i) else NotCompleted(InvalidIdentity)
  }

  /** The device an identifier names: by ID first, then by mailbox. */
  function Named(devices: seq<Device>, identifier: string): (i: int)
    ensures -1 <= i < |devices|
  {
    if ById(devices, identifier) >= 0 then ById(devices, identifier) else ByMailbox(devices, identifier)
  }

  function Revoke(i: Identity, identifier: string, now: int): (Identity, bool) {
    var k := Named(i.devices, identifier);
    if k < 0 || i.devices[k].id == i.currentId then (i, false)
    else (i.(devices := i.devices[k := i.devices[k].(revoked := true, revokedAt := now)]), true)
  }

  function Keeps(currentId: string, cutoff: int): Device -> bool {
    (d: Device) => d.id == currentId || !d.revoked || d.revokedAt == 0 || d.revokedAt > cutoff
  }

  function Compact(i: Identity, cutoff: int): Identity {
    i.(devices := Filter(Keeps(i.currentId, cutoff), i.devices))
  }
}

/** What every run of enrollments, revocations and compactions keeps. */
module IdentityLifecycle {
  import opened Foundations
  import opened Wire
  import opened IdentityModel

  ghost predicate DistinctDevices(devices: seq<Device>) {
    forall j, k :: 0 <= j < k < |devices| ==> devices[j].id != devices[k].id && devices[j].mailbox != devices[k].mailbox
  }

  predicate Keyed(d: Device) {
    d.signingPrivate == PrivateFor(d.signingPublic) && d.encryptionPrivate == PrivateFor(d.encryptionPublic)
  }

  /** Valid, without shared IDs or mailboxes, and holding the current device's and the account's private keys. */
  ghost predicate Sound(i: Identity) {
    && Validate(i) && DistinctDevices(i.devices)
    && i.accountPrivate == PrivateFor(i.accountPublic)
    && Keyed(CurrentDevice(i).value)
  }

  /** A pending enrollment as NewPendingEnrollment makes it. */
  ghost predicate Genuine(p: Pending) {
    && p.device.id != "" && p.device.mailbox != "" && Keyed(p.device) && !p.device.revoked
    && |p.device.signingPublic| == KEY_BYTES && |p.device.encryptionPublic| == KEY_BYTES
  }

  ghost predicate Unused(i: Identity, p: Pending) {
    forall d :: d in i.devices ==> d.id != p.device.id && d.mailbox != p.device.mailbox
  }

  /** With generated keys and ID, a new identity is sound exactly if account and mailbox are named. */
  lemma {:induction false} NewIsSound(accountId: string, mailbox: string, account: Bytes, id: string, signing: Bytes, encryption: Bytes)
    requires id != "" && |account| == |signing| == |encryption| == KEY_BYTES
    ensures Sound(NewIdentity(accountId, account, NewDevice(id, mailbox, signing, encryption))) <==> accountId != "" && mailbox != ""
  {
    var i := NewIdentity(accountId, account, NewDevice(id, mailbox, signing, encryption));
    assert i.devices[0].id == id && i.devices[0] in i.devices;
  }

  // ---- enrollment ----

  /** The requested device is named and has keys of the right length; the device it overwrites, if any, has both its ID and its mailbox. */
  ghost predicate Enrollable(i: Identity, r: EnrollmentRequest) {
    var k := Matching(i.devices, r.deviceId, r.mailbox);
    && |r.device.signingPublic| == KEY_BYTES && |r.device.encryptionPublic| == KEY_BYTES
    && if k < 0 then r.deviceId != "" && r.mailbox != "" else i.devices[k].id == r.deviceId && i.devices[k].mailbox == r.mailbox
  }

  /** The request can be approved with a valid identity as the result: a caller can check this before the call. */
  ghost predicate Approvable(i: Identity, r: EnrollmentRequest) {
    Enrollable(i, r) && !(r.deviceId == i.currentId && r.device.revoked)
  }

  lemma {:induction false} UpsertedDevice(i: Identity, r: EnrollmentRequest)
    requires Sound(i) && r.accountId == i.accountId
    ensures var k := Matching(i.devices, r.deviceId, r.mailbox);
      var devices := Approve(i, r).0.devices;
      var d := if k < 0 then devices[|i.devices|] else devices[k];
      && (DeviceVerifies(i, d) <==>
            && |r.device.signingPublic| == KEY_BYTES && |r.device.encryptionPublic| == KEY_BYTES
            && d.id == r.deviceId && d.mailbox == r.mailbox && d.id != "" && d.mailbox != "")
      && (forall j :: 0 <= j < |i.devices| && j != k ==> devices[j] == i.devices[j])
      && d in devices
  {
    var k := Matching(i.devices, r.deviceId, r.mailbox);
    var devices := Approve(i, r).0.devices;
    assert (if k < 0 then devices[|i.devices|] else devices[k]) in devices;
  }

  lemma {:induction false} AllVerifyIff(i: Identity, r: EnrollmentRequest)
    requires Sound(i) && r.accountId == i.accountId
    ensures (forall d :: d in Approve(i, r).0.devices ==> DeviceVerifies(i, d)) <==> Enrollable(i, r)
  {
    var k := Matching(i.devices, r.deviceId, r.mailbox);
    var devices := Approve(i, r).0.devices;
    UpsertedDevice(i, r);
    assert k >= 0 ==> i.devices[k] in i.devices && DeviceVerifies(i, i.devices[k]);
    if Enrollable(i, r) {
      forall d | d in devices ensures DeviceVerifies(i, d) {
        var j :| 0 <= j < |devices| && devices[j] == d;
        assert j < |i.devices| && j != k ==> d == i.devices[j] && d in i.devices;
      }
    }
  }

  /** Exactly then does an approval leave the identity valid. */
  lemma {:induction false} ApproveKeepsValidIff(i: Identity, r: EnrollmentRequest)
    requires Sound(i) && r.accountId == i.accountId
    ensures Validate(Approve(i, r).0) <==> Approvable(i, r)
  {
    var k := Matching(i.devices, r.deviceId, r.mailbox);
    var i' := Approve(i, r).0;
    var c := ById(i.devices, i.currentId);
    AllVerifyIff(i, r);
    UpsertedDevice(i, r);
    SameIds(i, i', c);
    assert forall d :: DeviceVerifies(i', d) == DeviceVerifies(i, d);
    if k >= 0 && i.devices[k].id == i.currentId { DistinctById(i, c, k); }
  }

  /** A request that shares only the ID of the one enrolled device spoils a sound identity. */
  lemma {:induction false} SharedIdSpoils(key: Bytes)
    requires |key| == KEY_BYTES
    ensures var i := NewIdentity("account", key, NewDevice("device", "mailbox", key, key));
      var r := EnrollmentRequest("account", "device", "other", PublicOnly(NewDevice("device", "other", key, key)));
      Sound(i) && !Validate(Approve(i, r).0) && Approve(i, r).1.Some?
  {
    var i := NewIdentity("account", key, NewDevice("device", "mailbox", key, key));
    var r := EnrollmentRequest("account", "device", "other", PublicOnly(NewDevice("device", "other", key, key)));
    NewIsSound("account", "mailbox", key, "device", key, key);
    assert i.devices[0].id == r.deviceId;
    ApproveKeepsValidIff(i, r);
  }

  lemma {:induction false} SameIds(i: Identity, i': Identity, c: int)
    requires |i'.devices| >= |i.devices| && forall j :: 0 <= j < |i.devices| ==> i'.devices[j].id == i.devices[j].id
    requires c == ById(i.devices, i.currentId) && c >= 0 && i'.currentId == i.currentId && DistinctDevices(i.devices)
    ensures ById(i'.devices, i.currentId) == c
  {
    var c' := ById(i'.devices, i.currentId);
    assert i'.devices[c].id == i.currentId;
    assert c' <= c;
    DistinctById(i, c', c);
  }

  lemma DistinctById(i: Identity, c: int, k: int)
    requires DistinctDevices(i.devices) && 0 <= c < |i.devices| && 0 <= k < |i.devices| && i.devices[c].id == i.devices[k].id
    ensures c == k
  {
  }

  /** Enrolling a genuine device with an unused ID and mailbox. */
  lemma {:induction false} ApproveKeepsSound(i: Identity, p: Pending)
    requires Sound(i) && Genuine(p) && Unused(i, p) && p.accountId == i.accountId
    ensures Sound(Approve(i, RequestOf(p)).0)
    ensures Approve(i, RequestOf(p)).0.devices == i.devices + [Enrolled(i, RequestOf(p))]
    ensures Approve(i, RequestOf(p)).1.Some?
  {
    var r := RequestOf(p);
    var i' := Approve(i, r).0;
    var k := Matching(i.devices, r.deviceId, r.mailbox);
    assert k < 0 by { assert forall j :: 0 <= j < |i.devices| ==> i.devices[j] in i.devices; }
    ApproveKeepsValidIff(i, r);
    SameIds(i, i', ById(i.devices, i.currentId));
    forall j | 0 <= j < |i.devices| ensures i.devices[j].id != p.device.id && i.devices[j].mailbox != p.device.mailbox {
      assert i.devices[j] in i.devices;
    }
  }

  /** A request in the current device's name has the current device's public keys. */
  ghost predicate KeepsOwnKeys(i: Identity, r: EnrollmentRequest) {
    r.deviceId == i.currentId && CurrentDevice(i).Some? ==>
      && r.device.signingPublic == CurrentDevice(i).value.signingPublic
      && r.device.encryptionPublic == CurrentDevice(i).value.encryptionPublic
  }

  /** Requests for other accounts are refused; of the others these do no harm. */
  ghost predicate Harmless(i: Identity, r: EnrollmentRequest) {
    r.accountId == i.accountId ==> Approvable(i, r) && KeepsOwnKeys(i, r)
  }

  lemma {:induction false} ApprovedStaysDistinct(i: Identity, r: EnrollmentRequest)
    requires Sound(i) && r.accountId == i.accountId && Approvable(i, r)
    ensures DistinctDevices(Approve(i, r).0.devices)
  {
    var k := Matching(i.devices, r.deviceId, r.mailbox);
    if k >= 0 { DistinctAfterRevoke(i.devices, Approve(i, r).0.devices); }
  }

  /** Where the current device is after an approval, and that it has its private keys exactly if its public ones are unchanged. */
  lemma {:induction false} CurrentAfterApprove(i: Identity, r: EnrollmentRequest)
    requires Sound(i) && r.accountId == i.accountId && Approvable(i, r)
    ensures CurrentDevice(Approve(i, r).0).Some?
    ensures Keyed(CurrentDevice(Approve(i, r).0).value) <==> KeepsOwnKeys(i, r)
  {
    var k := Matching(i.devices, r.deviceId, r.mailbox);
    var i' := Approve(i, r).0;
    var c := ById(i.devices, i.currentId);
    ApproveKeepsValidIff(i, r);
    SameIds(i, i', c);
    if k >= 0 && r.deviceId == i.currentId { DistinctById(i, c, k); }
  }

  /** Exactly then does an approval keep the identity sound, with the current device's private keys still its own. */
  lemma {:induction false} ApproveKeepsSoundIff(i: Identity, r: EnrollmentRequest)
    requires Sound(i) && i.accountPrivate.PrivateFor?
    ensures Sound(Approve(i, r).0) <==> Harmless(i, r)
  {
    hide Approvable, Validate, CurrentDevice, Keyed, KeepsOwnKeys, Upsert;
    if r.accountId == i.accountId {
      ApproveKeepsValidIff(i, r);
      if Approvable(i, r) {
        ApprovedStaysDistinct(i, r);
        CurrentAfterApprove(i, r);
      }
    }
  }

  /** A valid request under the current device's ID with other keys leaves an identity without its private keys. */
  lemma {:induction false} OwnIdSpoils(key: Bytes, other: Bytes)
    requires |key| == |other| == KEY_BYTES && key != other
    ensures var i := NewIdentity("account", key, NewDevice("device", "mailbox", key, key));
      var r := EnrollmentRequest("account", "device", "mailbox", PublicOnly(NewDevice("device", "mailbox", other, other)));
      Sound(i) && Validate(Approve(i, r).0) && !Sound(Approve(i, r).0)
  {
    var i := NewIdentity("account", key, NewDevice("device", "mailbox", key, key));
    var r := EnrollmentRequest("account", "device", "mailbox", PublicOnly(NewDevice("device", "mailbox", other, other)));
    NewIsSound("account", "mailbox", key, "device", key, key);
    assert i.devices[0].id == r.deviceId;
    ApproveKeepsValidIff(i, r);
    ApproveKeepsSoundIff(i, r);
  }

  // ---- revocation and compaction ----

  lemma {:induction false} RevokeKeepsSound(i: Identity, identifier: string, now: int)
    requires Sound(i)
    ensures Sound(Revoke(i, identifier, now).0)
  {
    var k := Named(i.devices, identifier);
    var i' := Revoke(i, identifier, now).0;
    var c := ById(i.devices, i.currentId);
    if i' != i {
      SameIds(i, i', c);
      forall d | d in i'.devices ensures DeviceVerifies(i', d) {
        var j :| 0 <= j < |i'.devices| && i'.devices[j] == d;
        assert i.devices[j] in i.devices;
        assert DeviceVerifies(i, i.devices[j]);
      }
      DistinctAfterRevoke(i.devices, i'.devices);
    }
  }

  lemma DistinctAfterRevoke(a: seq<Device>, b: seq<Device>)
    requires DistinctDevices(a) && |a| == |b| && forall j :: 0 <= j < |a| ==> a[j].id == b[j].id && a[j].mailbox == b[j].mailbox
    ensures DistinctDevices(b)
  {
  }

  lemma {:induction false} FilterKeepsDistinct(keep: Device -> bool, devices: seq<Device>)
    requires DistinctDevices(devices)
    ensures DistinctDevices(Filter(keep, devices))
  {
    if devices != [] {
      var front, last := devices[..|devices| - 1], devices[|devices| - 1];
      FilterKeepsDistinct(keep, front);
      FilterMembers(keep, front);
      var f := Filter(keep, front);
      forall j | 0 <= j < |f| ensures f[j].id != last.id && f[j].mailbox != last.mailbox {
        assert f[j] in front;
        var k :| 0 <= k < |front| && front[k] == f[j];
        assert devices[k] == f[j] && devices[|front|] == last;
      }
    }
  }

  lemma {:induction false} CompactKeepsSound(i: Identity, cutoff: int)
    requires Sound(i)
    ensures Sound(Compact(i, cutoff)) && CurrentDevice(Compact(i, cutoff)) == CurrentDevice(i)
  {
    var i' := Compact(i, cutoff);
    FilterKeepsDistinct(Keeps(i.currentId, cutoff), i.devices);
    FilterMembers(Keeps(i.currentId, cutoff), i.devices);
    var c := ById(i.devices, i.currentId);
    var current := i.devices[c];
    assert current in i'.devices;
    var j :| 0 <= j < |i'.devices| && i'.devices[j] == current;
    assert ById(i'.devices, i.currentId) >= 0;
    DistinctById(i', ById(i'.devices, i.currentId), j);
  }

  // ---- what the two do to the list ----

  /** Compaction drops exactly the other devices that were revoked at a known time not after the cutoff; the rest stay in order. */
  lemma {:induction false} CompactDropsIff(i: Identity, cutoff: int)
    ensures forall d :: d in i.devices ==>
      (d !in Compact(i, cutoff).devices <==> d.id != i.currentId && d.revoked && 0 != d.revokedAt <= cutoff)
    ensures forall d :: d in Compact(i, cutoff).devices ==> d in i.devices
    ensures Compact(i, cutoff) == i.(devices := Compact(i, cutoff).devices)
  {
    FilterMembers(Keeps(i.currentId, cutoff), i.devices);
  }

  /** The unrevoked devices, in order. */
  function ActiveOf(devices: seq<Device>): seq<Device> {
    Filter((d: Device) => !d.revoked, devices)
  }

  lemma {:induction false} CompactKeepsActive(i: Identity, cutoff: int)
    ensures ActiveOf(Compact(i, cutoff).devices) == ActiveOf(i.devices)
  {
    FilterFilter(Keeps(i.currentId, cutoff), (d: Device) => !d.revoked, i.devices);
  }

  /** The device an identifier names, by its ID or else by its mailbox. */
  ghost predicate IsNamed(devices: seq<Device>, identifier: string, d: Device) {
    d in devices && (d.id == identifier || (d.mailbox == identifier && forall x :: x in devices ==> x.id != identifier))
  }

  /**
   Revocation works exactly if the identifier names a device and that is not
   the current one; then that device is revoked as of now and nothing else
   changes. If it does not work nothing changes.
   */
  lemma {:induction false} RevokeIff(i: Identity, identifier: string, now: int)
    requires DistinctDevices(i.devices)
    ensures var (i', ok) := Revoke(i, identifier, now);
      && (ok <==> exists d :: IsNamed(i.devices, identifier, d) && d.id != i.currentId)
      && (!ok ==> i' == i)
      && (ok ==> i' == i.(devices := i'.devices) && |i'.devices| == |i.devices|)
      && (ok ==> forall j :: 0 <= j < |i.devices| ==>
            i'.devices[j] == if IsNamed(i.devices, identifier, i.devices[j]) then i.devices[j].(revoked := true, revokedAt := now)
                             else i.devices[j])
  {
    var k := Named(i.devices, identifier);
    assert forall j :: 0 <= j < |i.devices| ==> i.devices[j] in i.devices;
    if k >= 0 {
      assert IsNamed(i.devices, identifier, i.devices[k]);
      forall j | 0 <= j < |i.devices| && IsNamed(i.devices, identifier, i.devices[j]) ensures j == k {
        assert ById(i.devices, identifier) >= 0 ==> i.devices[k].id == identifier;
      }
    }
    forall d | IsNamed(i.devices, identifier, d) ensures k >= 0 && d == i.devices[k] {
      var j :| 0 <= j < |i.devices| && i.devices[j] == d;
      assert d.mailbox == identifier ==> ByMailbox(i.devices, identifier) >= 0;
      assert ById(i.devices, identifier) >= 0 ==> i.devices[k].id == identifier;
    }
  }

  /**
   What approving a request does to the list: a device that shares ID or
   mailbox with it is overwritten in place, the first if there are two, and
   keeps ID, mailbox and private keys; otherwise the requested device is added
   at the end, without private keys. Nothing else changes.
   */
  lemma {:induction false} ApproveMeaning(i: Identity, r: EnrollmentRequest)
    requires i.accountPrivate.PrivateFor?
    ensures var (i', approval) := Approve(i, r);
      var statement := DeviceStatement(i.accountId, r.deviceId, r.mailbox, r.device.signingPublic, r.device.encryptionPublic);
      var signature := Signed(i.accountPrivate.pub, statement);
      var shares := (d: Device) => d.id == r.deviceId || d.mailbox == r.mailbox;
      && (r.accountId != i.accountId ==> (i', approval) == (i, None))
      && i' == i.(devices := i'.devices)
      && (r.accountId == i.accountId && (forall d :: d in i.devices ==> !shares(d)) ==>
            i'.devices == i.devices + [Device(r.deviceId, r.mailbox, r.device.signingPublic, NoPrivate, r.device.encryptionPublic, NoPrivate,
                                              signature, r.device.revoked, r.device.revokedAt)])
      && (r.accountId == i.accountId ==>
            forall k :: 0 <= k < |i.devices| && shares(i.devices[k]) && (forall j :: 0 <= j < k ==> !shares(i.devices[j])) ==>
              i'.devices == i.devices[k := i.devices[k].(signingPublic := r.device.signingPublic, encryptionPublic := r.device.encryptionPublic,
                                                         signature := signature, revoked := r.device.revoked,
                                                         revokedAt := r.device.revokedAt)])
      && (approval.Some? <==> r.accountId == i.accountId && |r.device.encryptionPublic| == 32)
  {
    var m := Matching(i.devices, r.deviceId, r.mailbox);
    assert forall j :: 0 <= j < |i.devices| ==> i.devices[j] in i.devices;
    if forall d :: d in i.devices ==> d.id != r.deviceId && d.mailbox != r.mailbox { assert m < 0; }
    forall k | 0 <= k < |i.devices| && (i.devices[k].id == r.deviceId || i.devices[k].mailbox == r.mailbox)
      && (forall j :: 0 <= j < k ==> i.devices[j].id != r.deviceId && i.devices[j].mailbox != r.mailbox)
      ensures m == k
    {
      assert m >= 0;
    }
  }

  // ---- whole runs ----

  datatype LifeEvent = Enroll(request: EnrollmentRequest) | RevokeNamed(identifier: string, now: int) | CompactBefore(cutoff: int)

  function Live(i: Identity, ev: LifeEvent): Identity
    requires i.accountPrivate.PrivateFor?
  {
    match ev
    case Enroll(r) => Approve(i, r).0
    case RevokeNamed(identifier, now) => Revoke(i, identifier, now).0
    case CompactBefore(cutoff) => Compact(i, cutoff)
  }

  /** A life: the states an identity goes through. */
  ghost predicate Life(states: seq<Identity>, events: seq<LifeEvent>) {
    && |states| == |events| + 1
    && forall k :: 0 <= k < |events| ==> states[k].accountPrivate.PrivateFor? && states[k + 1] == Live(states[k], events[k])
  }

  ghost predicate AllSound(states: seq<Identity>) {
    forall n :: 0 <= n < |states| ==> Sound(states[n])
  }

  ghost predicate AllHarmless(states: seq<Identity>, events: seq<LifeEvent>)
    requires |states| == |events| + 1
  {
    forall k :: 0 <= k < |events| ==> HarmlessEvent(states[k], events[k])
  }

  ghost predicate HarmlessEvent(i: Identity, ev: LifeEvent) {
    ev.Enroll? ==> Harmless(i, ev.request)
  }

  lemma {:induction false} LiveKeepsSoundIff(i: Identity, ev: LifeEvent)
    requires Sound(i) && i.accountPrivate.PrivateFor?
    ensures Sound(Live(i, ev)) <==> HarmlessEvent(i, ev)
  {
    hide Sound, Harmless, Approve, Revoke, Compact;
    match ev {
      case Enroll(r) => ApproveKeepsSoundIff(i, r);
      case RevokeNamed(identifier, now) => RevokeKeepsSound(i, identifier, now);
      case CompactBefore(cutoff) => CompactKeepsSound(i, cutoff);
    }
  }

  /**
   A life is sound all along exactly if every request it approves is harmless
   where it is approved; whatever happens, the account keys and the current
   device's ID are constant.
   */
  lemma {:induction false} LifeStaysSoundIff(states: seq<Identity>, events: seq<LifeEvent>)
    requires Life(states, events) && Sound(states[0])
    ensures AllSound(states) <==> AllHarmless(states, events)
    ensures forall n :: 0 <= n <= |events| ==>
      && states[n].accountId == states[0].accountId && states[n].accountPublic == states[0].accountPublic
      && states[n].currentId == states[0].currentId
  {
    hide Sound, HarmlessEvent, Live;
    var n := |events|;
    if n > 0 {
      var i := states[n - 1];
      assert Life(states[..n], events[..n - 1]);
      LifeStaysSoundIff(states[..n], events[..n - 1]);
      LiveKeepsAccount(i, events[n - 1]);
      assert AllSound(states) <==> AllSound(states[..n]) && Sound(states[n]);
      assert AllHarmless(states, events) <==> AllHarmless(states[..n], events[..n - 1]) && HarmlessEvent(i, events[n - 1]);
      if AllSound(states[..n]) {
        assert Sound(states[..n][n - 1]);
        LiveKeepsSoundIff(i, events[n - 1]);
      }
    }
  }

  /** A device that was never revoked is in the list. */
  ghost predicate Present(i: Identity, id: string, mailbox: string) {
    exists k :: 0 <= k < |i.devices| && i.devices[k].id == id && i.devices[k].mailbox == mailbox
  }

  lemma {:induction false} LiveKeepsDevice(i: Identity, ev: LifeEvent, d: Device)
    requires i.accountPrivate.PrivateFor? && d in i.devices && (ev.CompactBefore? ==> !d.revoked || d.id == i.currentId)
    ensures Present(Live(i, ev), d.id, d.mailbox)
  {
    var i' := Live(i, ev);
    var k :| 0 <= k < |i.devices| && i.devices[k] == d;
    match ev {
      case Enroll(r) => assert i'.devices[k].id == d.id && i'.devices[k].mailbox == d.mailbox;
      case RevokeNamed(identifier, now) => assert i'.devices[k].id == d.id && i'.devices[k].mailbox == d.mailbox;
      case CompactBefore(cutoff) =>
        CompactDropsIff(i, cutoff);
        assert d in i'.devices;
    }
  }

  /** Over a stretch of any life only compactions remove devices: the current one never, and no device while it is unrevoked. */
  lemma {:induction false} NeverRevokedStays(states: seq<Identity>, events: seq<LifeEvent>, id: string, mailbox: string)
    requires Life(states, events) && Present(states[0], id, mailbox)
    requires forall n, d :: 0 <= n < |events| && d in states[n].devices && d.id == id && d.mailbox == mailbox ==>
      !d.revoked || id == states[n].currentId
    ensures Present(states[|events|], id, mailbox)
  {
    var n := |events|;
    if n > 0 {
      assert Life(states[..n], events[..n - 1]);
      assert forall m, d :: 0 <= m < n - 1 && d in states[..n][m].devices ==> d in states[m].devices;
      NeverRevokedStays(states[..n], events[..n - 1], id, mailbox);
      var i := states[n - 1];
      var k :| 0 <= k < |i.devices| && i.devices[k].id == id && i.devices[k].mailbox == mailbox;
      assert i.devices[k] in i.devices;
      LiveKeepsDevice(i, events[n - 1], i.devices[k]);
    }
  }

  lemma LiveKeepsAccount(i: Identity, ev: LifeEvent)
    requires i.accountPrivate.PrivateFor?
    ensures var i' := Live(i, ev);
      i'.accountId == i.accountId && i'.accountPublic == i.accountPublic && i'.currentId == i.currentId
  {
  }

  /** Genuine enrollments with an unused ID and mailbox are harmless. */
  lemma {:induction false} GenuineIsHarmless(i: Identity, p: Pending)
    requires Sound(i) && Genuine(p) && Unused(i, p)
    ensures Harmless(i, RequestOf(p))
  {
    if p.accountId == i.accountId {
      ApproveKeepsSound(i, p);
      ApproveKeepsSoundIff(i, RequestOf(p));
    }
  }

  // ---- completing an enrollment ----

  /** The pending enrollment an approval of the request completes: on the account, and with the request's device ID and key. */
  predicate Answers(i: Identity, r: EnrollmentRequest, p: Pending) {
    && p.accountId == i.accountId && p.device.id == r.deviceId
    && p.device.encryptionPublic == r.device.encryptionPublic && p.device.encryptionPrivate == PrivateFor(r.device.encryptionPublic)
  }

  /** Whatever approval completes, from whoever it comes: it is for this account and device, and opened with the device's own key pair. */
  lemma {:induction false} CompletedMeans(p: Pending, a: Approval)
    requires Complete(p, a).Completed?
    ensures a.accountId == p.accountId && |p.device.encryptionPublic| == 32
    ensures a.ciphertext.AnonymousBox? && a.ciphertext.receiver == p.device.encryptionPublic
    ensures p.device.encryptionPrivate == PrivateFor(p.device.encryptionPublic)
    ensures var i, sent := Complete(p, a).identity, a.ciphertext.payload;
      && i.currentId == p.device.id == sent.currentId && Bundles(i.devices) == sent.devices
      && i.accountId == sent.accountId && i.accountPublic == sent.accountPublic && i.accountPrivate == sent.accountPrivate
      && CurrentDevice(i).Some? && CurrentDevice(i).value.encryptionPrivate == p.device.encryptionPrivate
      && forall d :: d in i.devices ==> DeviceVerifies(i, d)
  {
    var i := Complete(p, a).identity;
    var k := ById(i.devices, i.currentId);
    assert Bundles(i.devices) == a.ciphertext.payload.devices;
    assert i.devices[k].id == p.device.id;
  }

  /** The approver's identity as the pending device unpacks it. */
  function Described(i: Identity, p: Pending): Identity {
    Identity(i.accountId, p.device.id, i.accountPublic, i.accountPrivate, FromBundles(Bundles(i.devices), p.device))
  }

  lemma {:induction false} DescribedVerifies(i: Identity, p: Pending)
    ensures var own := Described(i, p);
      (forall d :: d in own.devices ==> DeviceVerifies(own, d)) <==> forall d :: d in i.devices ==> DeviceVerifies(i, d)
  {
    hide ById, VerifyDeviceBundle;
    var own := Described(i, p);
    forall k | 0 <= k < |i.devices|
      ensures DeviceVerifies(own, own.devices[k]) == DeviceVerifies(i, i.devices[k])
      ensures own.devices[k] in own.devices && i.devices[k] in i.devices
    {
      assert Bundle(own.devices[k]) == Bundle(i.devices[k]);
    }
  }

  lemma {:induction false} SameIdsSameFirst(a: seq<Device>, b: seq<Device>, id: string)
    requires |a| == |b| && forall k :: 0 <= k < |a| ==> a[k].id == b[k].id
    ensures ById(a, id) == ById(b, id)
  {
    var c, c' := ById(a, id), ById(b, id);
    assert c >= 0 ==> b[c].id == id;
    assert c' >= 0 ==> a[c'].id == id;
  }

  /** The requested device is where its ID leads. */
  lemma {:induction false} RequestedIsFound(i: Identity, r: EnrollmentRequest)
    requires Sound(i) && r.accountId == i.accountId && Enrollable(i, r)
    ensures var devices := Approve(i, r).0.devices;
      ById(devices, r.deviceId) >= 0 && devices[ById(devices, r.deviceId)].revoked == r.device.revoked
  {
    var k := Matching(i.devices, r.deviceId, r.mailbox);
    var devices := Approve(i, r).0.devices;
    UpsertedDevice(i, r);
    var at := if k < 0 then |i.devices| else k;
    assert devices[at].id == r.deviceId && devices[at].revoked == r.device.revoked;
    var c := ById(devices, r.deviceId);
    assert c < |i.devices| ==> i.devices[c].id == r.deviceId;
    if k >= 0 { DistinctById(i, c, k); }
  }

  lemma {:induction false} DescribedValidIff(i: Identity, r: EnrollmentRequest, p: Pending)
    requires Sound(i) && r.accountId == i.accountId && p.device.id == r.deviceId
    ensures Validate(Described(Approve(i, r).0, p)) <==> Enrollable(i, r) && !r.device.revoked
  {
    hide Enrollable;
    var i' := Approve(i, r).0;
    var own := Described(i', p);
    assert forall d :: DeviceVerifies(i', d) == DeviceVerifies(i, d);
    AllVerifyIff(i, r);
    DescribedVerifies(i', p);
    SameIdsSameFirst(own.devices, i'.devices, p.device.id);
    if Enrollable(i, r) { RequestedIsFound(i, r); }
  }

  /**
   Whatever request a sound identity approves, the approval completes a
   pending enrollment exactly if the enrollment answers to the request, the
   requested device is not a revoked one, and the request could be approved
   without spoiling the approver.
   */
  lemma {:induction false} ApprovalCompletesIff(i: Identity, r: EnrollmentRequest, p: Pending)
    requires Sound(i) && Approve(i, r).1.Some?
    ensures Complete(p, Approve(i, r).1.value).Completed? <==> Answers(i, r, p) && !r.device.revoked && Approvable(i, r)
  {
    hide Validate, Upsert, Enrollable;
    var (i', a) := Approve(i, r);
    assert Unpacked(p, a.value.ciphertext.payload) == Described(i', p);
    if Answers(i, r, p) { DescribedValidIff(i, r, p); }
  }

  /** The devices differ in their private keys at most. */
  predicate SamePublic(a: Device, b: Device) {
    && a.id == b.id && a.mailbox == b.mailbox && a.signingPublic == b.signingPublic && a.encryptionPublic == b.encryptionPublic
    && a.signature == b.signature && a.revoked == b.revoked && a.revokedAt == b.revokedAt
  }

  /** A request shows no private key, and otherwise what the pending device is. */
  lemma RequestIsPublic(p: Pending)
    ensures var r := RequestOf(p);
      && r.accountId == p.accountId && r.deviceId == p.device.id && r.mailbox == p.device.mailbox
      && Bundle(r.device) == Bundle(p.device) && r.device.signingPrivate == NoPrivate && r.device.encryptionPrivate == NoPrivate
  {
  }

  /**
   The pending device opens its approval and obtains a sound identity: the same
   account and public devices as the approver, itself as the current device,
   and its own private keys there.
   */
  lemma {:induction false} CompleteAfterApprove(i: Identity, p: Pending)
    requires Sound(i) && Genuine(p) && Unused(i, p) && p.accountId == i.accountId
    ensures var (i', approval) := Approve(i, RequestOf(p));
      && approval.Some? && Complete(p, approval.value).Completed?
      && var own := Complete(p, approval.value).identity;
         && Sound(own) && own.accountId == i.accountId && own.accountPublic == i.accountPublic && own.currentId == p.device.id
         && Bundles(own.devices) == Bundles(i'.devices)
         && (forall k :: 0 <= k < |own.devices| ==> k < |i'.devices| && SamePublic(own.devices[k], i'.devices[k]))
         && CurrentDevice(own).value.signingPrivate == p.device.signingPrivate
         && CurrentDevice(own).value.encryptionPrivate == p.device.encryptionPrivate
         && (forall d :: d in own.devices && d.id != p.device.id ==> d.signingPrivate == NoPrivate && d.encryptionPrivate == NoPrivate)
  {
    ApproveKeepsSound(i, p);
    var i' := Approve(i, RequestOf(p)).0;
    var devices := FromBundles(Bundles(i'.devices), p.device);
    var own := Identity(i.accountId, p.device.id, i.accountPublic, i.accountPrivate, devices);
    assert Bundles(devices) == Bundles(i'.devices);
    var last := |i.devices|;
    assert devices[last].id == p.device.id;
    DistinctAfterRevoke(i'.devices, devices);
    DistinctById(own, ById(devices, p.device.id), last);
    forall d | d in devices ensures DeviceVerifies(own, d) {
      var j :| 0 <= j < |devices| && devices[j] == d;
      assert i'.devices[j] in i'.devices;
      assert DeviceVerifies(i', i'.devices[j]);
      assert Bundle(d) == Bundle(i'.devices[j]);
    }
  }
}

/** The identity object: its device list is written in place. */
module IdentityObjects {
  import opened Foundations
  import opened InPlace
  import opened Wire
  import opened IdentityModel

  class Account {
    const accountId: string
    const currentId: string
    const accountPublic: Bytes
    const accountPrivate: Private
    var devices: array<Device>

    ghost function View(): Identity
      reads this, devices
    {
      Identity(accountId, currentId, accountPublic, accountPrivate, devices[..])
    }

    constructor (i: Identity)
      ensures View() == i && fresh(devices)
    {
      accountId, currentId, accountPublic, accountPrivate := i.accountId, i.currentId, i.accountPublic, i.accountPrivate;
      devices := new Device[|i.devices|](k requires 0 <= k < |i.devices| => i.devices[k]);
      new;
      assert devices[..] == i.devices;
    }

    method Find(p: Device -> bool) returns (k: int)
      ensures k == First(devices[..], p)
    {
      var i := 0;
      while i < devices.Length
        invariant 0 <= i <= devices.Length
        invariant First(devices[..i], p) == -1
      {
        assert devices[..i + 1][..i] == devices[..i];
        if p(devices[i]) {
          FirstOfPrefix(devices[..], i, p);
          return i;
        }
        i := i + 1;
      }
      assert devices[..i] == devices[..];
      return -1;
    }

    method UpsertDevice(d: Device)
      modifies this`devices, devices
      ensures View() == old(View()).(devices := Upsert(old(devices[..]), d))
      ensures devices == old(devices) || fresh(devices)
    {
      var k := Find((x: Device) => x.id == d.id || x.mailbox == d.mailbox);
      if k >= 0 {
        devices[k] := devices[k].(signingPublic := d.signingPublic, encryptionPublic := d.encryptionPublic,
                                  signature := d.signature, revoked := d.revoked, revokedAt := d.revokedAt);
      } else {
        var list := devices[..] + [d];
        devices := new Device[|list|](j requires 0 <= j < |list| => list[j]);
        assert devices[..] == list;
      }
    }

    method Approve(r: EnrollmentRequest) returns (approval: Option<Approval>)
      requires accountPrivate.PrivateFor?
      modifies this`devices, devices
      ensures (View(), approval) == IdentityModel.Approve(old(View()), r)
    {
      if r.accountId != accountId {
        return None;
      }
      var d := r.device.(signingPrivate := NoPrivate, encryptionPrivate := NoPrivate, id := r.deviceId, mailbox := r.mailbox);
      d := d.(signature := Sign(accountPrivate, DeviceStatement(accountId, d.id, d.mailbox, d.signingPublic, d.encryptionPublic)));
      UpsertDevice(d);
      if |d.encryptionPublic| != KEY_BYTES {
        return None;
      }
      approval := Some(Approval(accountId, AnonymousBox(d.encryptionPublic,
                                             Payload(accountId, accountPublic, accountPrivate, Bundles(devices[..]), d.id))));
    }

    method RevokeDevice(identifier: string, now: int) returns (ok: bool)
      modifies devices
      ensures (View(), ok) == Revoke(old(View()), identifier, now)
    {
      var k := Find((d: Device) => d.id == identifier);
      if k < 0 {
        k := Find((d: Device) => d.mailbox == identifier);
      }
      if k < 0 {
        return false;
      }
      if devices[k].id == currentId {
        return false;
      }
      devices[k] := devices[k].(revoked := true, revokedAt := now);
      return true;
    }

    /** The kept devices overwrite the front of the same array. */
    method CompactRevokedDevices(cutoff: int)
      modifies this`devices, devices
      ensures View() == Compact(old(View()), cutoff)
    {
      var n := FilterInPlace(devices, Keeps(currentId, cutoff));
      var kept := devices[..n];
      devices := new Device[n](k requires 0 <= k < |kept| => kept[k]);
      assert devices[..] == kept;
    }
  }

  lemma {:induction false} FirstOfPrefix(devices: seq<Device>, i: nat, p: Device -> bool)
    requires i < |devices| && p(devices[i]) && First(devices[..i], p) == -1
    ensures First(devices, p) == i
  {
    if |devices| > i + 1 {
      var front := devices[..|devices| - 1];
      assert front[..i] == devices[..i];
      FirstOfPrefix(front, i, p);
    } else {
      assert devices[..|devices| - 1] == devices[..i];
    }
  }

  /** Complete's list, built bundle by bundle. */
  method DevicesFromBundles(bundles: seq<DeviceBundle>, p: Device) returns (devices: seq<Device>)
    ensures devices == FromBundles(bundles, p)
  {
    devices := [];
    var k := 0;
    while k < |bundles|
      invariant 0 <= k <= |bundles|
      invariant devices == FromBundles(bundles[..k], p)
    {
      assert bundles[..k + 1] == bundles[..k] + [bundles[k]];
      var own := bundles[k].id == p.id;
      devices := devices + [FromBundle(bundles[k], own, p)];
      k := k + 1;
    }
    assert bundles[..k] == bundles;
  }
}
