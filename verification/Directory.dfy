/**
 The relay's directory: account mailbox to published entry, and the two index
 maps from device mailbox to owning account and to claimed device key.
 */
module DirectoryModel {
  import opened Foundations
  import opened Wire
  import DirectorySigning

  /** Bolt treats an empty stored value as absent and refuses some keys; the plain maps do neither. */
  datatype Backend = Memory | Bolt

  datatype Dir = Dir(entries: map<string, SignedDirectoryEntry>, accounts: map<string, string>, claims: map<string, Bytes>)

  datatype PutResult = Published | DirectoryConflict | ClaimConflict | NotStorable

  const EMPTY := Dir(map[], map[], map[])

  function Account(b: Backend, accounts: map<string, string>, mailbox: string): Option<string> {
    if mailbox in accounts && (b.Memory? || accounts[mailbox] != "") then Some(accounts[mailbox]) else None
  }

  function Claim(b: Backend, claims: map<string, Bytes>, mailbox: string): Option<Bytes> {
    if mailbox in claims && (b.Memory? || claims[mailbox] != []) then Some(claims[mailbox]) else None
  }

  function ActiveDevices(devices: seq<DeviceBundle>): map<string, Bytes> {
    if devices == [] then map[]
    else
      var rest, d := ActiveDevices(devices[..|devices| - 1]), devices[|devices| - 1];
      if d.revoked then rest else rest[d.mailbox := d.signingPublic]
  }

  /** Mailbox to signing key of an entry's unrevoked devices; nothing for the zero entry. */
  function Active(e: SignedDirectoryEntry): map<string, Bytes> {
    if e.entry.mailbox == "" then map[] else ActiveDevices(e.entry.bundle.devices)
  }

  predicate Blocks(b: Backend, dir: Dir, account: string, mailbox: string, key: Bytes) {
    || (var owner := Account(b, dir.accounts, mailbox); owner.Some? && owner.value != account)
    || (var claim := Claim(b, dir.claims, mailbox); claim.Some? && claim.value != key)
  }

  predicate Blocked(b: Backend, dir: Dir, next: SignedDirectoryEntry) {
    var active := Active(next);
    exists m :: m in active && Blocks(b, dir, next.entry.mailbox, m, active[m])
  }

  /** The mailboxes a republication gives up before it claims the new ones. */
  function Released(b: Backend, dir: Dir, previous: Option<SignedDirectoryEntry>): set<string> {
    if previous.None? then {}
    else set m | m in Active(previous.value) && Account(b, dir.accounts, m) == Some(previous.value.entry.mailbox)
  }

  function Owners(account: string, active: map<string, Bytes>): map<string, string> {
    map m | m in active :: account
  }

  /** Every key a publication puts is one the backend takes. */
  predicate Storable(b: Backend, next: SignedDirectoryEntry) {
    b.Bolt? ==> StorableKey(next.entry.mailbox) && forall m :: m in Active(next) ==> StorableKey(m)
  }

  /** The account is published under another signing key. */
  predicate KeyChanged(dir: Dir, next: SignedDirectoryEntry) {
    var account := next.entry.mailbox;
    account in dir.entries && dir.entries[account].entry.bundle.accountSigningPublic != next.entry.bundle.accountSigningPublic
  }

  /** A failed put undoes the whole transaction. */
  function Publish(b: Backend, dir: Dir, next: SignedDirectoryEntry): (Dir, PutResult) {
    if KeyChanged(dir, next) then (dir, DirectoryConflict)
    else if Blocked(b, dir, next) then (dir, ClaimConflict)
    else if !Storable(b, next) then (dir, NotStorable)
    else
      var account := next.entry.mailbox;
      var previous := if account in dir.entries then Some(dir.entries[account]) else None;
      var gone := Released(b, dir, previous);
      (Dir(dir.entries[account := next],
           (dir.accounts - gone) + Owners(account, Active(next)),
           (dir.claims - gone) + Active(next)), Published)
  }

  function Authorize(b: Backend, dir: Dir, mailbox: string, key: Bytes): (Dir, bool) {
    var existing := if mailbox in dir.claims then dir.claims[mailbox] else [];
    if existing != [] then (dir, existing == key)
    else if b.Bolt? && !StorableKey(mailbox) then (dir, false)
    else (dir.(claims := dir.claims[mailbox := key]), true)
  }

  function Lookup(b: Backend, dir: Dir, mailbox: string): Option<SignedDirectoryEntry> {
    var account := Account(b, dir.accounts, mailbox);
    if account.None? || account.value !in dir.entries then None else Some(dir.entries[account.value])
  }

  // ---- runs ----

  datatype Op = PublishOp(entry: SignedDirectoryEntry) | AuthorizeOp(mailbox: string, key: Bytes)

  /** Entries are verified before they reach the store. */
  predicate Genuine(op: Op) {
    op.PublishOp? ==> DirectorySigning.VerifySignedDirectoryEntry(op.entry)
  }

  ghost predicate AllGenuine(ops: seq<Op>) {
    forall i :: 0 <= i < |ops| ==> Genuine(ops[i])
  }

  datatype Answer = Put(result: PutResult) | Authorized(ok: bool)

  function Perform(b: Backend, dir: Dir, op: Op): (Dir, Answer) {
    match op
    case PublishOp(entry) => var (dir', result) := Publish(b, dir, entry); (dir', Put(result))
    case AuthorizeOp(mailbox, key) => var (dir', ok) := Authorize(b, dir, mailbox, key); (dir', Authorized(ok))
  }

  function Apply(b: Backend, dir: Dir, op: Op): Dir {
    Perform(b, dir, op).0
  }

  function Run(b: Backend, ops: seq<Op>): Dir {
    if ops == [] then EMPTY else Apply(b, Run(b, ops[..|ops| - 1]), ops[|ops| - 1])
  }
}

/** The index maps agree with the published entries, in every reachable directory. */
module DirectoryAgreement {
  import opened Foundations
  import opened Wire
  import opened DirectoryModel
  import DirectorySigning

  /** What verification leaves for the index maps to rely on: a mailbox, and keys of the right length. */
  ghost predicate Sound(e: SignedDirectoryEntry) {
    e.entry.mailbox != "" && forall m :: m in Active(e) ==> |Active(e)[m]| == KEY_BYTES
  }

  ghost predicate Agreement(dir: Dir) {
    && (forall a :: a in dir.entries ==> Sound(dir.entries[a]) && dir.entries[a].entry.mailbox == a)
    && (forall m :: m in dir.accounts ==> m in dir.claims && dir.accounts[m] in dir.entries && m in Active(dir.entries[dir.accounts[m]]))
    && DevicesOwned(dir)
  }

  /** Every active device of every entry is owned by its account, under its key. */
  ghost predicate DevicesOwned(dir: Dir) {
    forall a, m :: a in dir.entries && m in Active(dir.entries[a]) ==>
      m in dir.accounts && dir.accounts[m] == a && m in dir.claims && dir.claims[m] == Active(dir.entries[a])[m]
  }

  lemma {:induction false} ActiveIsADevice(devices: seq<DeviceBundle>, m: string)
    ensures m in ActiveDevices(devices) <==> exists d :: d in devices && !d.revoked && d.mailbox == m
    ensures m in ActiveDevices(devices) ==>
      exists d :: d in devices && !d.revoked && d.mailbox == m && d.signingPublic == ActiveDevices(devices)[m]
  {
    if devices != [] {
      var front, last := devices[..|devices| - 1], devices[|devices| - 1];
      ActiveIsADevice(front, m);
      assert devices == front + [last];
      assert last in devices && forall d :: d in front ==> d in devices;
      if m in ActiveDevices(front) {
        var d :| d in front && !d.revoked && d.mailbox == m && d.signingPublic == ActiveDevices(front)[m];
        assert d in devices;
      }
      if exists d :: d in devices && !d.revoked && d.mailbox == m {
        var d :| d in devices && !d.revoked && d.mailbox == m;
        assert d == last || d in front;
      }
    }
  }

  /** A verified entry is sound. */
  lemma {:induction false} VerifiedIsSound(e: SignedDirectoryEntry)
    requires DirectorySigning.VerifySignedDirectoryEntry(e)
    ensures Sound(e)
  {
    forall m | m in Active(e) ensures |Active(e)[m]| == KEY_BYTES {
      ActiveIsADevice(e.entry.bundle.devices, m);
    }
  }

  lemma {:induction false} OwnedIsVisible(b: Backend, dir: Dir, m: string)
    requires Agreement(dir)
    ensures Account(b, dir.accounts, m) == if m in dir.accounts then Some(dir.accounts[m]) else None
    ensures m in dir.accounts ==> Claim(b, dir.claims, m) == Some(dir.claims[m])
  {
    hide DirectorySigning.VerifySignedDirectoryEntry, ActiveDevices;
  }

  /** An unblocked publication, as far as the index maps are concerned. */
  lemma {:induction false} PublishEffect(b: Backend, dir: Dir, next: SignedDirectoryEntry)
    requires Agreement(dir) && Sound(next) && Publish(b, dir, next).1 == Published
    ensures var dir', account := Publish(b, dir, next).0, next.entry.mailbox;
      && (forall m :: m in Active(next) ==> (m in dir.accounts ==> dir.accounts[m] == account))
      && (forall m :: m in Active(next) && m in dir.accounts ==> dir.claims[m] == Active(next)[m])
      && (forall m :: m in dir'.accounts <==> m in Active(next) || (m in dir.accounts && dir.accounts[m] != account))
      && (forall m :: m in dir'.accounts ==> dir'.accounts[m] == if m in Active(next) then account else dir.accounts[m])
      && (forall m :: m in dir'.accounts ==> m in dir'.claims)
      && (forall m :: m in dir'.accounts ==> dir'.claims[m] == if m in Active(next) then Active(next)[m] else dir.claims[m])
  {
    hide DirectorySigning.VerifySignedDirectoryEntry, ActiveDevices;
    var account := next.entry.mailbox;
    var previous := if account in dir.entries then Some(dir.entries[account]) else None;
    var gone := Released(b, dir, previous);
    forall m ensures m in gone <==> m in dir.accounts && dir.accounts[m] == account {
      OwnedIsVisible(b, dir, m);
    }
    forall m | m in Active(next) && m in dir.accounts ensures dir.accounts[m] == account && dir.claims[m] == Active(next)[m] {
      OwnedIsVisible(b, dir, m);
      assert !Blocks(b, dir, account, m, Active(next)[m]);
    }
  }

  lemma {:induction false} PublishedDevicesAreOwned(b: Backend, dir: Dir, next: SignedDirectoryEntry, a: string, m: string)
    requires Agreement(dir) && Sound(next) && Publish(b, dir, next).1 == Published
    requires a in dir.entries[next.entry.mailbox := next] && m in Active(dir.entries[next.entry.mailbox := next][a])
    ensures var dir', entries := Publish(b, dir, next).0, dir.entries[next.entry.mailbox := next];
      m in dir'.accounts && dir'.accounts[m] == a && m in dir'.claims && dir'.claims[m] == Active(entries[a])[m]
  {
    hide Active, Blocked, Released, Owners;
    PublishEffect(b, dir, next);
    if a != next.entry.mailbox {
      assert m in dir.accounts && dir.accounts[m] == a;
      assert m !in Active(next);
    }
  }

  lemma {:induction false} PublishKeepsDevicesOwned(b: Backend, dir: Dir, next: SignedDirectoryEntry)
    requires Agreement(dir) && Sound(next) && Publish(b, dir, next).1 == Published
    ensures DevicesOwned(Publish(b, dir, next).0)
  {
    hide Active, Blocked, Released, Owners, Sound, Agreement;
    var dir' := Publish(b, dir, next).0;
    assert dir'.entries == dir.entries[next.entry.mailbox := next];
    forall a, m | a in dir'.entries && m in Active(dir'.entries[a])
      ensures m in dir'.accounts && dir'.accounts[m] == a && m in dir'.claims && dir'.claims[m] == Active(dir'.entries[a])[m]
    {
      PublishedDevicesAreOwned(b, dir, next, a, m);
    }
  }

  lemma {:induction false} PublishKeepsAgreement(b: Backend, dir: Dir, next: SignedDirectoryEntry)
    requires Agreement(dir) && Sound(next)
    ensures Agreement(Publish(b, dir, next).0)
  {
    hide Active, Blocked, Released, Owners, Sound, DevicesOwned;
    if Publish(b, dir, next).1 == Published {
      PublishEffect(b, dir, next);
      PublishKeepsDevicesOwned(b, dir, next);
    }
  }

  lemma {:induction false} AuthorizeKeepsAgreement(b: Backend, dir: Dir, mailbox: string, key: Bytes)
    requires Agreement(dir)
    ensures Agreement(Authorize(b, dir, mailbox, key).0)
    ensures mailbox in dir.accounts ==> Authorize(b, dir, mailbox, key).0 == dir
  {
    hide DirectorySigning.VerifySignedDirectoryEntry, ActiveDevices;
  }

  lemma {:induction false} ApplyKeepsAgreement(b: Backend, dir: Dir, op: Op)
    requires Agreement(dir) && Genuine(op)
    ensures Agreement(Apply(b, dir, op))
  {
    hide DirectorySigning.VerifySignedDirectoryEntry, ActiveDevices;
    match op {
      case PublishOp(entry) =>
        VerifiedIsSound(entry);
        PublishKeepsAgreement(b, dir, entry);
      case AuthorizeOp(mailbox, key) => AuthorizeKeepsAgreement(b, dir, mailbox, key);
    }
  }

  /** Every reachable directory agrees with its index maps, on both backends. */
  lemma {:induction false} ReachableAgreement(b: Backend, ops: seq<Op>)
    requires AllGenuine(ops)
    ensures Agreement(Run(b, ops))
  {
    hide DirectorySigning.VerifySignedDirectoryEntry, ActiveDevices;
    if ops != [] {
      ReachableAgreement(b, ops[..|ops| - 1]);
      ApplyKeepsAgreement(b, Run(b, ops[..|ops| - 1]), ops[|ops| - 1]);
    }
  }

  ghost predicate HasActiveDevice(e: SignedDirectoryEntry, m: string) {
    exists d :: d in e.entry.bundle.devices && !d.revoked && d.mailbox == m
  }

  /** The claimed key is that of an unrevoked device with the mailbox in the account's entry. */
  ghost predicate ClaimsListedKey(b: Backend, dir: Dir, m: string, a: string) {
    && a in dir.entries
    && exists d :: d in dir.entries[a].entry.bundle.devices && !d.revoked && d.mailbox == m
         && Claim(b, dir.claims, m) == Some(d.signingPublic)
  }

  /**
   The index maps say exactly what the entries say: a mailbox is owned by an
   account iff it is an unrevoked device of that account's entry, and then the
   claimed key is that of such a device.
   */
  lemma {:induction false} OwnershipIffPublished(b: Backend, ops: seq<Op>, m: string, a: string)
    requires AllGenuine(ops)
    ensures var dir := Run(b, ops);
      && (Account(b, dir.accounts, m) == Some(a) <==> a in dir.entries && HasActiveDevice(dir.entries[a], m))
      && (Account(b, dir.accounts, m) == Some(a) ==>
            ClaimsListedKey(b, dir, m, a))
  {
    hide DirectorySigning.VerifySignedDirectoryEntry;
    ReachableAgreement(b, ops);
    OwnershipIffListed(b, Run(b, ops), m, a);
  }

  lemma {:induction false} OwnershipIffListed(b: Backend, dir: Dir, m: string, a: string)
    requires Agreement(dir)
    ensures Account(b, dir.accounts, m) == Some(a) <==> a in dir.entries && HasActiveDevice(dir.entries[a], m)
    ensures Account(b, dir.accounts, m) == Some(a) ==>
      ClaimsListedKey(b, dir, m, a)
  {
    OwnedIsVisible(b, dir, m);
    if a in dir.entries {
      ActiveIsADevice(dir.entries[a].entry.bundle.devices, m);
    }
  }

  ghost predicate Lists(dir: Dir, a: string, m: string) {
    a in dir.entries && HasActiveDevice(dir.entries[a], m)
  }

  /** The two-step lookup finds what a scan over all entries finds, and there is at most one match. */
  lemma {:induction false} LookupIsScan(b: Backend, ops: seq<Op>, m: string, a: string)
    requires AllGenuine(ops)
    ensures var dir := Run(b, ops);
      && (a in dir.entries && HasActiveDevice(dir.entries[a], m) ==> Lookup(b, dir, m) == Some(dir.entries[a]))
      && (Lookup(b, dir, m).Some? ==> HasActiveDevice(Lookup(b, dir, m).value, m) && Lookup(b, dir, m).value in dir.entries.Values)
      && (forall a2 :: Lists(dir, a, m) && Lists(dir, a2, m) ==> a == a2)
  {
    hide DirectorySigning.VerifySignedDirectoryEntry;
    var dir := Run(b, ops);
    ReachableAgreement(b, ops);
    OwnedIsVisible(b, dir, m);
    OwnershipIffPublished(b, ops, m, a);
    if m in dir.accounts { OwnershipIffPublished(b, ops, m, dir.accounts[m]); }
    forall a2 | Lists(dir, a, m) && Lists(dir, a2, m) ensures a == a2 {
      OwnershipIffPublished(b, ops, m, a2);
    }
  }
}

/** When a publication succeeds and what it then changes, in terms of the entries and claims alone. */
module DirectoryAnswers {
  import opened Foundations
  import opened Wire
  import opened DirectoryModel
  import opened DirectoryAgreement
  import DirectorySigning

  /** The last unrevoked device with the mailbox has the key. */
  ghost predicate LastKey(devices: seq<DeviceBundle>, m: string, key: Bytes) {
    exists k :: 0 <= k < |devices| && !devices[k].revoked && devices[k].mailbox == m && devices[k].signingPublic == key
      && NoneAfter(devices, k, m)
  }

  ghost predicate NoneAfter(devices: seq<DeviceBundle>, k: int, m: string) {
    forall j :: k < j < |devices| && 0 <= j ==> devices[j].revoked || devices[j].mailbox != m
  }

  lemma {:induction false} ActiveIsLast(devices: seq<DeviceBundle>, m: string, key: Bytes)
    ensures m in ActiveDevices(devices) && ActiveDevices(devices)[m] == key <==> LastKey(devices, m, key)
  {
    if devices != [] {
      var k := |devices| - 1;
      var front, last := devices[..k], devices[k];
      ActiveIsLast(front, m, key);
      if !last.revoked && last.mailbox == m {
        assert NoneAfter(devices, k, m);
        forall j | 0 <= j < k ensures !NoneAfter(devices, j, m) { assert devices[k] == last; }
      } else {
        forall j | 0 <= j < k ensures front[j] == devices[j] && (NoneAfter(front, j, m) <==> NoneAfter(devices, j, m)) {
          assert forall n :: 0 <= n < k ==> front[n] == devices[n];
        }
      }
    }
  }

  /** No other account lists the mailbox, and it is unclaimed or claimed with the key; Bolt takes an empty claim for none. */
  ghost predicate Free(b: Backend, dir: Dir, account: string, m: string, key: Bytes) {
    && (forall a :: a in dir.entries && a != account ==> !HasActiveDevice(dir.entries[a], m))
    && (m !in dir.claims || dir.claims[m] == key || (b == Bolt && dir.claims[m] == []))
  }

  /** The account is new or keeps its signing key. */
  ghost predicate SameAccountKey(dir: Dir, next: SignedDirectoryEntry) {
    next.entry.mailbox in dir.entries ==>
      dir.entries[next.entry.mailbox].entry.bundle.accountSigningPublic == next.entry.bundle.accountSigningPublic
  }

  ghost predicate AllFree(b: Backend, dir: Dir, next: SignedDirectoryEntry) {
    forall m, key :: LastKey(next.entry.bundle.devices, m, key) ==> Free(b, dir, next.entry.mailbox, m, key)
  }

  ghost predicate KeysFit(b: Backend, next: SignedDirectoryEntry) {
    b == Bolt ==>
      && 1 <= |next.entry.mailbox| <= 32768
      && forall d :: d in next.entry.bundle.devices && !d.revoked ==> 1 <= |d.mailbox| <= 32768
  }

  lemma {:induction false} FreeIffUnblocked(b: Backend, dir: Dir, account: string, m: string, key: Bytes)
    requires Agreement(dir) && key != []
    ensures Free(b, dir, account, m, key) <==> !Blocks(b, dir, account, m, key)
  {
    hide ActiveDevices, HasActiveDevice;
    OwnedIsVisible(b, dir, m);
    if m in dir.accounts {
      OwnershipIffListed(b, dir, m, dir.accounts[m]);
      assert dir.claims[m] == Active(dir.entries[dir.accounts[m]])[m];
      assert Sound(dir.entries[dir.accounts[m]]);
    }
    forall a | a in dir.entries && HasActiveDevice(dir.entries[a], m) ensures m in dir.accounts && dir.accounts[m] == a {
      OwnershipIffListed(b, dir, m, a);
    }
  }

  lemma {:induction false} AllFreeIffUnblocked(b: Backend, dir: Dir, next: SignedDirectoryEntry)
    requires Agreement(dir) && Sound(next)
    ensures AllFree(b, dir, next) <==> !Blocked(b, dir, next)
  {
    hide Agreement, Blocks, Free, LastKey, ActiveDevices;
    var devices, active := next.entry.bundle.devices, Active(next);
    forall m, key ensures LastKey(devices, m, key) <==> m in active && active[m] == key { ActiveIsLast(devices, m, key); }
    forall m | m in active ensures Free(b, dir, next.entry.mailbox, m, active[m]) <==> !Blocks(b, dir, next.entry.mailbox, m, active[m]) {
      assert |active[m]| == KEY_BYTES;
      FreeIffUnblocked(b, dir, next.entry.mailbox, m, active[m]);
    }
    if AllFree(b, dir, next) {
      forall m | m in active ensures !Blocks(b, dir, next.entry.mailbox, m, active[m]) { assert LastKey(devices, m, active[m]); }
    }
  }

  lemma {:induction false} KeysFitIff(b: Backend, next: SignedDirectoryEntry)
    requires Sound(next)
    ensures KeysFit(b, next) <==> Storable(b, next)
  {
    hide ActiveDevices;
    forall m ensures m in Active(next) <==> exists d :: d in next.entry.bundle.devices && !d.revoked && d.mailbox == m {
      ActiveIsADevice(next.entry.bundle.devices, m);
    }
    forall d | d in next.entry.bundle.devices && !d.revoked ensures d.mailbox in Active(next) { }
  }

  /**
   The answer to a publication. It is published exactly if the account is new
   or keeps its signing key, every mailbox it lists unrevoked is listed by no
   other account and unclaimed or claimed with the device's key, and the
   backend takes the keys; otherwise the first of the three that fails decides
   the refusal, and nothing changes.
   */
  lemma {:induction false} PublishedIff(b: Backend, dir: Dir, next: SignedDirectoryEntry)
    requires Agreement(dir) && Sound(next)
    ensures var (dir', result) := Publish(b, dir, next);
      && (result == Published <==> SameAccountKey(dir, next) && AllFree(b, dir, next) && KeysFit(b, next))
      && (result == DirectoryConflict <==> !SameAccountKey(dir, next))
      && (result == ClaimConflict <==> SameAccountKey(dir, next) && !AllFree(b, dir, next))
      && (result == Published ==> dir'.entries == dir.entries[next.entry.mailbox := next] && Agreement(dir'))
      && (result != Published ==> dir' == dir)
  {
    hide Agreement, Sound, Blocked, Storable, AllFree, KeysFit, Active, Released, Owners;
    AllFreeIffUnblocked(b, dir, next);
    KeysFitIff(b, next);
    PublishKeepsAgreement(b, dir, next);
  }

  /** What a publication does to the claims: listed devices claim their mailboxes, those no longer listed are unclaimed, others stay. */
  lemma {:induction false} ClaimsAfterPublish(b: Backend, dir: Dir, next: SignedDirectoryEntry, m: string)
    requires Agreement(dir) && Sound(next) && Publish(b, dir, next).1 == Published
    ensures var dir', a := Publish(b, dir, next).0, next.entry.mailbox;
      var listed := a in dir.entries && HasActiveDevice(dir.entries[a], m);
      && (forall key :: LastKey(next.entry.bundle.devices, m, key) ==> m in dir'.claims && dir'.claims[m] == key)
      && (!HasActiveDevice(next, m) && listed ==> m !in dir'.claims)
      && (!HasActiveDevice(next, m) && !listed ==>
            (m in dir'.claims <==> m in dir.claims) && (m in dir.claims ==> dir'.claims[m] == dir.claims[m]))
  {
    hide Blocked, Storable, Owners, ActiveDevices, Blocks;
    var devices := next.entry.bundle.devices;
    ActiveIsADevice(devices, m);
    forall key | LastKey(devices, m, key) ensures m in Active(next) && Active(next)[m] == key { ActiveIsLast(devices, m, key); }
    OwnedIsVisible(b, dir, m);
    if next.entry.mailbox in dir.entries {
      var previous := dir.entries[next.entry.mailbox];
      ActiveIsADevice(previous.entry.bundle.devices, m);
      OwnershipIffListed(b, dir, m, next.entry.mailbox);
      assert m in Released(b, dir, Some(previous)) <==> m in Active(previous) && Account(b, dir.accounts, m) == Some(next.entry.mailbox);
    }
  }

  lemma {:induction false} StoredEntriesFit(b: Backend, ops: seq<Op>, a: string)
    requires AllGenuine(ops) && a in Run(b, ops).entries
    ensures KeysFit(b, Run(b, ops).entries[a])
  {
    hide DirectorySigning.VerifySignedDirectoryEntry, KeysFit, AllFree;
    var k := |ops| - 1;
    var front, op := ops[..k], ops[k];
    ReachableAgreement(b, front);
    if op.PublishOp? {
      VerifiedIsSound(op.entry);
      PublishedIff(b, Run(b, front), op.entry);
    }
    if Run(b, ops).entries != Run(b, front).entries && a == op.entry.entry.mailbox {
    } else {
      StoredEntriesFit(b, front, a);
    }
  }

  /** Any account can publish its stored entry again, at any time. */
  lemma {:induction false} RepublishWorks(b: Backend, ops: seq<Op>, a: string)
    requires AllGenuine(ops) && a in Run(b, ops).entries
    ensures Publish(b, Run(b, ops), Run(b, ops).entries[a]).1 == Published
    ensures Publish(b, Run(b, ops), Run(b, ops).entries[a]).0.entries == Run(b, ops).entries
  {
    hide KeysFit, DirectorySigning.VerifySignedDirectoryEntry, ActiveDevices, LastKey;
    var dir := Run(b, ops);
    var e := dir.entries[a];
    ReachableAgreement(b, ops);
    StoredEntriesFit(b, ops, a);
    forall m, key | LastKey(e.entry.bundle.devices, m, key) ensures Free(b, dir, a, m, key) {
      ActiveIsLast(e.entry.bundle.devices, m, key);
      OwnedIsVisible(b, dir, m);
      forall other | other in dir.entries && HasActiveDevice(dir.entries[other], m) ensures other == a {
        OwnershipIffListed(b, dir, m, other);
      }
    }
    PublishedIff(b, dir, e);
  }

  /** Authorizing a key: an unclaimed mailbox is claimed, a claimed one is left alone and only its own key passes. */
  lemma {:induction false} AuthorizedIff(b: Backend, dir: Dir, m: string, key: Bytes)
    ensures var (dir', ok) := Authorize(b, dir, m, key);
      var unclaimed := m !in dir.claims || dir.claims[m] == [];
      && (ok <==> if unclaimed then b == Memory || 1 <= |m| <= 32768 else dir.claims[m] == key)
      && (ok && unclaimed ==> dir' == Dir(dir.entries, dir.accounts, dir'.claims) && dir'.claims == dir.claims[m := key])
      && (!ok || !unclaimed ==> dir' == dir)
  {
  }
}

/** How ownership may change: only by being given up first. */
module DirectoryOwnership {
  import opened Foundations
  import opened Wire
  import opened DirectoryModel
  import opened DirectoryAgreement
  import DirectorySigning

  lemma {:induction false} MailboxStep(b: Backend, dir: Dir, op: Op, m: string)
    requires Agreement(dir) && Genuine(op)
    requires Account(b, dir.accounts, m).Some? && Account(b, Apply(b, dir, op).accounts, m).Some?
    ensures var dir' := Apply(b, dir, op);
      Account(b, dir'.accounts, m) == Account(b, dir.accounts, m) && Claim(b, dir'.claims, m) == Claim(b, dir.claims, m)
  {
    hide DirectorySigning.VerifySignedDirectoryEntry, ActiveDevices;
    ApplyKeepsAgreement(b, dir, op);
    OwnedIsVisible(b, dir, m);
    OwnedIsVisible(b, Apply(b, dir, op), m);
    match op {
      case PublishOp(entry) =>
        VerifiedIsSound(entry);
        if Publish(b, dir, entry).1 == Published { PublishEffect(b, dir, entry); }
      case AuthorizeOp(mailbox, key) =>
        AuthorizeKeepsAgreement(b, dir, mailbox, key);
    }
  }

  /** In one step an owned mailbox keeps its owner and key or becomes free; an account keeps its signing key. */
  lemma {:induction false} OwnershipStep(b: Backend, dir: Dir, op: Op)
    requires Agreement(dir) && Genuine(op)
    ensures var dir' := Apply(b, dir, op);
      && (forall m :: Account(b, dir.accounts, m).Some? && Account(b, dir'.accounts, m).Some? ==>
            Account(b, dir'.accounts, m) == Account(b, dir.accounts, m) && Claim(b, dir'.claims, m) == Claim(b, dir.claims, m))
      && (forall a :: a in dir.entries ==>
            (a in dir'.entries && dir'.entries[a].entry.bundle.accountSigningPublic == dir.entries[a].entry.bundle.accountSigningPublic))
  {
    hide DirectorySigning.VerifySignedDirectoryEntry, Active, Blocked, Released, Agreement;
    var dir' := Apply(b, dir, op);
    forall m | Account(b, dir.accounts, m).Some? && Account(b, dir'.accounts, m).Some?
      ensures Account(b, dir'.accounts, m) == Account(b, dir.accounts, m) && Claim(b, dir'.claims, m) == Claim(b, dir.claims, m)
    {
      MailboxStep(b, dir, op, m);
    }
  }

  /** Only a publication by the owning account frees a mailbox. */
  lemma {:induction false} FreedOnlyByOwner(b: Backend, dir: Dir, op: Op, m: string)
    requires Agreement(dir) && Genuine(op) && m in dir.accounts && m !in Apply(b, dir, op).accounts
    ensures op.PublishOp? && op.entry.entry.mailbox == dir.accounts[m]
    ensures op.entry.entry.bundle.accountSigningPublic == dir.entries[dir.accounts[m]].entry.bundle.accountSigningPublic
    ensures !HasActiveDevice(op.entry, m)
  {
    hide DirectorySigning.VerifySignedDirectoryEntry, Blocked, Released, Owners, Storable;
    match op {
      case PublishOp(entry) =>
        VerifiedIsSound(entry);
        if Publish(b, dir, entry).1 == Published {
          PublishEffect(b, dir, entry);
          ActiveIsADevice(entry.entry.bundle.devices, m);
        }
      case AuthorizeOp(mailbox, key) =>
    }
  }

  /** While a mailbox stays owned, over any stretch of any run, owner and key are constant. */
  lemma {:induction false} OwnershipOverRuns(b: Backend, ops: seq<Op>, from: nat, m: string)
    requires AllGenuine(ops) && from <= |ops|
    requires forall n :: from <= n <= |ops| ==> Account(b, Run(b, ops[..n]).accounts, m).Some?
    ensures var early, late := Run(b, ops[..from]), Run(b, ops);
      Account(b, late.accounts, m) == Account(b, early.accounts, m) && Claim(b, late.claims, m) == Claim(b, early.claims, m)
    decreases |ops|
  {
    hide DirectorySigning.VerifySignedDirectoryEntry, ActiveDevices;
    assert ops[..|ops|] == ops;
    if from < |ops| {
      var front := ops[..|ops| - 1];
      assert forall n :: 0 <= n <= |front| ==> front[..n] == ops[..n];
      OwnershipOverRuns(b, front, from, m);
      ReachableAgreement(b, front);
      OwnershipStep(b, Run(b, front), ops[|ops| - 1]);
    }
  }

  /** A published account stays published, under the signing key it first used. */
  lemma {:induction false} AccountKeyOverRuns(b: Backend, ops: seq<Op>, from: nat, a: string)
    requires AllGenuine(ops) && from <= |ops| && a in Run(b, ops[..from]).entries
    ensures a in Run(b, ops).entries
    ensures Run(b, ops).entries[a].entry.bundle.accountSigningPublic == Run(b, ops[..from]).entries[a].entry.bundle.accountSigningPublic
    decreases |ops|
  {
    hide DirectorySigning.VerifySignedDirectoryEntry, ActiveDevices;
    if from == |ops| {
      assert ops[..from] == ops;
    } else {
      var front := ops[..|ops| - 1];
      assert front[..from] == ops[..from];
      AccountKeyOverRuns(b, front, from, a);
      ReachableAgreement(b, front);
      OwnershipStep(b, Run(b, front), ops[|ops| - 1]);
    }
  }

  // ---- the two backends ----

  ghost predicate EmptyClaim(dir: Dir, next: SignedDirectoryEntry) {
    exists m :: m in Active(next) && m in dir.claims && dir.claims[m] == []
  }

  /** What tells the backends apart: an empty claim only the plain maps see, or a key only they take. */
  ghost predicate TellsApart(dir: Dir, op: Op) {
    match op
    case PublishOp(next) => !KeyChanged(dir, next) && !Blocked(Bolt, dir, next) && (EmptyClaim(dir, next) || !Storable(Bolt, next))
    case AuthorizeOp(mailbox, _) => Claim(Bolt, dir.claims, mailbox) == None && !StorableKey(mailbox)
  }

  lemma {:induction false} MemoryBlocks(dir: Dir, next: SignedDirectoryEntry)
    requires Agreement(dir) && Sound(next)
    ensures Blocked(Memory, dir, next) <==> Blocked(Bolt, dir, next) || EmptyClaim(dir, next)
  {
    hide Active;
    var active, account := Active(next), next.entry.mailbox;
    forall m | m in active
      ensures Blocks(Memory, dir, account, m, active[m]) <==>
        Blocks(Bolt, dir, account, m, active[m]) || (m in dir.claims && dir.claims[m] == [])
    {
      OwnedIsVisible(Memory, dir, m);
      OwnedIsVisible(Bolt, dir, m);
    }
  }

  lemma {:induction false} SameReleased(dir: Dir, previous: Option<SignedDirectoryEntry>)
    requires Agreement(dir)
    ensures Released(Memory, dir, previous) == Released(Bolt, dir, previous)
  {
    hide Active, Agreement;
    forall m ensures Account(Memory, dir.accounts, m) == Account(Bolt, dir.accounts, m) {
      OwnedIsVisible(Memory, dir, m);
      OwnedIsVisible(Bolt, dir, m);
    }
  }

  /** On one directory the backends answer differently exactly then; where the answers agree, so do the new directories. */
  lemma {:induction false} AnswersDifferIff(dir: Dir, op: Op)
    requires Agreement(dir) && Genuine(op)
    ensures Perform(Memory, dir, op).1 != Perform(Bolt, dir, op).1 <==> TellsApart(dir, op)
    ensures !TellsApart(dir, op) ==> Perform(Memory, dir, op) == Perform(Bolt, dir, op)
  {
    hide DirectorySigning.VerifySignedDirectoryEntry, Agreement, Active, Blocked, Released, EmptyClaim;
    if op.PublishOp? {
      var account := op.entry.entry.mailbox;
      VerifiedIsSound(op.entry);
      MemoryBlocks(dir, op.entry);
      SameReleased(dir, if account in dir.entries then Some(dir.entries[account]) else None);
    }
  }

  /** The answers of both backends agree over the whole run. */
  ghost predicate SameAnswers(ops: seq<Op>) {
    forall n :: 0 <= n < |ops| ==> Perform(Memory, Run(Memory, ops[..n]), ops[n]).1 == Perform(Bolt, Run(Bolt, ops[..n]), ops[n]).1
  }

  ghost predicate NeverToldApart(ops: seq<Op>) {
    forall n :: 0 <= n < |ops| ==> !TellsApart(Run(Bolt, ops[..n]), ops[n])
  }

  lemma {:induction false} SamePrefixes(ops: seq<Op>, k: nat)
    requires AllGenuine(ops) && k <= |ops|
    ensures AllGenuine(ops[..k]) && forall n :: 0 <= n < k ==> ops[..k][n] == ops[n] && ops[..k][..n] == ops[..n]
  {
    assert forall n :: 0 <= n < k ==> ops[..k][n] == ops[n] && ops[..k][..n] == ops[..n];
  }

  lemma {:induction false} NotToldApartAgree(ops: seq<Op>)
    requires AllGenuine(ops) && NeverToldApart(ops)
    ensures Run(Memory, ops) == Run(Bolt, ops)
  {
    hide TellsApart, Perform, AllGenuine, Agreement;
    if ops != [] {
      var k := |ops| - 1;
      SamePrefixes(ops, k);
      NotToldApartAgree(ops[..k]);
      ReachableAgreement(Bolt, ops[..k]);
      GenuineAt(ops, k);
      AnswersDifferIff(Run(Bolt, ops[..k]), ops[k]);
    }
  }

  lemma GenuineAt(ops: seq<Op>, k: nat)
    requires AllGenuine(ops) && k < |ops|
    ensures Genuine(ops[k])
  {
  }

  lemma {:induction false} SameAnswersNotToldApart(ops: seq<Op>)
    requires AllGenuine(ops) && SameAnswers(ops)
    ensures NeverToldApart(ops)
  {
    hide TellsApart, Perform, AllGenuine, Agreement, Run;
    if ops != [] {
      var k := |ops| - 1;
      SamePrefixes(ops, k);
      SameAnswersNotToldApart(ops[..k]);
      NotToldApartAgree(ops[..k]);
      ReachableAgreement(Bolt, ops[..k]);
      GenuineAt(ops, k);
      AnswersDifferIff(Run(Bolt, ops[..k]), ops[k]);
    }
  }

  /** Over a whole run the backends give the same answers exactly if no step tells them apart, and then reach the same directory. */
  lemma {:induction false} BackendsAgreeIff(ops: seq<Op>)
    requires AllGenuine(ops)
    ensures SameAnswers(ops) <==> NeverToldApart(ops)
    ensures NeverToldApart(ops) ==> Run(Memory, ops) == Run(Bolt, ops)
  {
    hide TellsApart, Perform, AllGenuine, Agreement, Run;
    if SameAnswers(ops) { SameAnswersNotToldApart(ops); }
    if NeverToldApart(ops) {
      NotToldApartAgree(ops);
      forall n | 0 <= n < |ops|
        ensures Perform(Memory, Run(Memory, ops[..n]), ops[n]).1 == Perform(Bolt, Run(Bolt, ops[..n]), ops[n]).1
      {
        SamePrefixes(ops, n);
        NotToldApartAgree(ops[..n]);
        ReachableAgreement(Bolt, ops[..n]);
        GenuineAt(ops, n);
        AnswersDifferIff(Run(Bolt, ops[..n]), ops[n]);
      }
    }
  }

  /** Operations that name only storable mailboxes and no empty key cannot tell the backends apart. */
  predicate Plain(op: Op) {
    match op
    case PublishOp(next) => Storable(Bolt, next)
    case AuthorizeOp(mailbox, key) => StorableKey(mailbox) && key != []
  }

  lemma {:induction false} PlainRunsAgree(ops: seq<Op>)
    requires AllGenuine(ops) && forall i :: 0 <= i < |ops| ==> Plain(ops[i])
    ensures SameAnswers(ops) && Run(Memory, ops) == Run(Bolt, ops)
  {
    forall n | 0 <= n < |ops| ensures !TellsApart(Run(Bolt, ops[..n]), ops[n]) {
      assert forall i :: 0 <= i < n ==> ops[..n][i] == ops[i];
      PlainLeavesNoEmptyClaim(ops[..n]);
    }
    BackendsAgreeIff(ops);
  }

  lemma {:induction false} PlainLeavesNoEmptyClaim(ops: seq<Op>)
    requires AllGenuine(ops) && forall i :: 0 <= i < |ops| ==> Plain(ops[i])
    ensures forall m :: m in Run(Bolt, ops).claims ==> Run(Bolt, ops).claims[m] != []
  {
    hide DirectorySigning.VerifySignedDirectoryEntry, Active, Blocked, Released;
    if ops != [] {
      PlainLeavesNoEmptyClaim(ops[..|ops| - 1]);
      var op := ops[|ops| - 1];
      if op.PublishOp? { VerifiedIsSound(op.entry); }
    }
  }

  /** After an empty claim the plain maps refuse the owner and Bolt publishes. */
  lemma {:induction false} EmptyClaimTellsBackendsApart(next: SignedDirectoryEntry, m: string)
    requires DirectorySigning.VerifySignedDirectoryEntry(next) && m in Active(next) && Storable(Bolt, next)
    requires Active(next).Keys == {m}
    ensures Publish(Memory, Authorize(Memory, EMPTY, m, []).0, next).1 == ClaimConflict
    ensures Publish(Bolt, Authorize(Bolt, EMPTY, m, []).0, next).1 == Published
  {
    VerifiedIsSound(next);
    assert Blocks(Memory, Authorize(Memory, EMPTY, m, []).0, next.entry.mailbox, m, Active(next)[m]);
  }

  /** The plain maps let an unnamed mailbox be claimed, and Bolt does not. */
  lemma {:induction false} EmptyMailboxTellsBackendsApart(key: Bytes)
    ensures Authorize(Memory, EMPTY, "", key) == (Dir(map[], map[], map["" := key]), true)
    ensures Authorize(Bolt, EMPTY, "", key) == (EMPTY, false)
  {
  }
}

/** The store object: sync's loops over Go maps, whose iteration order is arbitrary. */
module DirectoryStores {
  import opened Foundations
  import opened Wire
  import opened DirectoryModel

  lemma OwnersPut(account: string, done: map<string, Bytes>, mailbox: string, key: Bytes)
    ensures Owners(account, done)[mailbox := account] == Owners(account, done[mailbox := key])
  {
  }

  class DirectoryStore {
    const backend: Backend
    var entries: map<string, SignedDirectoryEntry>
    var accounts: map<string, string>
    var claims: map<string, Bytes>

    ghost function View(): Dir
      reads this
    {
      Dir(entries, accounts, claims)
    }

    constructor (backend: Backend)
      ensures this.backend == backend && View() == EMPTY
    {
      this.backend := backend;
      entries, accounts, claims := map[], map[], map[];
    }

    /** activeDirectoryDevices; None stands for the zero entry of an account that was never published. */
    method ActiveDirectoryDevices(e: Option<SignedDirectoryEntry>) returns (devices: map<string, Bytes>)
      ensures devices == if e.None? then map[] else Active(e.value)
    {
      devices := map[];
      if e.None? || e.value.entry.mailbox == "" {
        return;
      }
      var list := e.value.entry.bundle.devices;
      var i := 0;
      while i < |list|
        invariant 0 <= i <= |list|
        invariant devices == ActiveDevices(list[..i])
      {
        assert list[..i + 1][..i] == list[..i];
        if !list[i].revoked {
          devices := devices[list[i].mailbox := list[i].signingPublic];
        }
        i := i + 1;
      }
      assert list[..i] == list;
    }

    method CheckOwners(account: string, active: map<string, Bytes>) returns (ok: bool)
      ensures ok <==> !exists m :: m in active && Blocks(backend, View(), account, m, active[m])
    {
      var left := active.Keys;
      while left != {}
        invariant left <= active.Keys
        invariant forall m :: m in active && m !in left ==> !Blocks(backend, View(), account, m, active[m])
        decreases left
      {
        var mailbox :| mailbox in left;
        left := left - {mailbox};
        var owner := Account(backend, accounts, mailbox);
        if owner.Some? && owner.value != account {
          return false;
        }
        var claim := Claim(backend, claims, mailbox);
        if claim.Some? && claim.value != active[mailbox] {
          return false;
        }
      }
      return true;
    }

    method ReleaseOwners(account: string, mailboxes: set<string>)
      modifies this`accounts, this`claims
      ensures var gone := set m | m in mailboxes && Account(backend, old(accounts), m) == Some(account);
        accounts == old(accounts) - gone && claims == old(claims) - gone
    {
      var left := mailboxes;
      ghost var gone: set<string> := {};
      while left != {}
        invariant left <= mailboxes
        invariant gone == set m | m in mailboxes && m !in left && Account(backend, old(accounts), m) == Some(account)
        invariant accounts == old(accounts) - gone && claims == old(claims) - gone
        decreases left
      {
        var mailbox :| mailbox in left;
        left := left - {mailbox};
        if Account(backend, accounts, mailbox) == Some(account) {
          accounts := accounts - {mailbox};
          claims := claims - {mailbox};
          gone := gone + {mailbox};
        }
      }
    }

    /** Stops at the first put the backend refuses. */
    method PutOwners(account: string, active: map<string, Bytes>) returns (ok: bool)
      modifies this`accounts, this`claims
      ensures ok <==> backend.Memory? || forall m :: m in active ==> StorableKey(m)
      ensures ok ==> accounts == old(accounts) + Owners(account, active) && claims == old(claims) + active
    {
      var left := active.Keys;
      ghost var done: map<string, Bytes> := map[];
      while left != {}
        invariant left <= active.Keys
        invariant done.Keys == active.Keys - left && forall m :: m in done ==> done[m] == active[m]
        invariant accounts == old(accounts) + Owners(account, done)
        invariant claims == old(claims) + done
        invariant backend.Memory? || forall m :: m in done ==> StorableKey(m)
        decreases left
      {
        var mailbox :| mailbox in left;
        left := left - {mailbox};
        if backend.Bolt? && !StorableKey(mailbox) {
          return false;
        }
        accounts := accounts[mailbox := account];
        claims := claims[mailbox := active[mailbox]];
        PutAfterMerge(old(accounts), Owners(account, done), mailbox, account);
        PutAfterMerge(old(claims), done, mailbox, active[mailbox]);
        OwnersPut(account, done, mailbox, active[mailbox]);
        hide Owners;
        done := done[mailbox := active[mailbox]];
      }
      assert done == active;
      return true;
    }

    /** mailboxOwnerSync.sync: a refused put may leave some mailboxes written. */
    method Sync(previous: Option<SignedDirectoryEntry>, next: SignedDirectoryEntry) returns (result: PutResult)
      modifies this`accounts, this`claims
      ensures result != DirectoryConflict
      ensures result == ClaimConflict <==> Blocked(backend, old(View()), next)
      ensures result == ClaimConflict ==> View() == old(View())
      ensures result == Published <==>
        !Blocked(backend, old(View()), next) && (backend.Memory? || forall m :: m in Active(next) ==> StorableKey(m))
      ensures result == Published ==>
        var gone := Released(backend, old(View()), previous);
        && accounts == (old(accounts) - gone) + Owners(next.entry.mailbox, Active(next))
        && claims == (old(claims) - gone) + Active(next)
    {
      hide Active, Owners;
      var active := ActiveDirectoryDevices(Some(next));
      var ok := CheckOwners(next.entry.mailbox, active);
      if !ok {
        return ClaimConflict;
      }
      var former := ActiveDirectoryDevices(previous);
      if previous.Some? {
        ReleaseOwners(previous.value.entry.mailbox, former.Keys);
      }
      assert accounts == old(accounts) - Released(backend, old(View()), previous);
      assert claims == old(claims) - Released(backend, old(View()), previous);
      ok := PutOwners(next.entry.mailbox, active);
      result := if ok then Published else NotStorable;
    }

    /**
     Whatever the iteration order, the result and the final maps are those of
     the specification. Bolt works in a transaction, which a failed put undoes.
     */
    method PutDirectoryEntry(next: SignedDirectoryEntry) returns (result: PutResult)
      modifies this`entries, this`accounts, this`claims
      ensures (View(), result) == Publish(backend, old(View()), next)
      ensures result != Published ==> View() == old(View())
    {
      hide Active, Owners, Released, Blocked;
      var account := next.entry.mailbox;
      var before := (accounts, claims);
      var previous := if account in entries then Some(entries[account]) else None;
      if previous.Some? && previous.value.entry.bundle.accountSigningPublic != next.entry.bundle.accountSigningPublic {
        return DirectoryConflict;
      }
      result := Sync(previous, next);
      if result == Published && backend.Bolt? && !StorableKey(account) {
        result := NotStorable;
      }
      if result == Published {
        entries := entries[account := next];
      } else {
        accounts, claims := before.0, before.1;
      }
    }

    method AuthorizeMailbox(mailbox: string, key: Bytes) returns (ok: bool)
      modifies this`claims
      ensures (View(), ok) == Authorize(backend, old(View()), mailbox, key)
    {
      var existing := if mailbox in claims then claims[mailbox] else [];
      if existing == [] {
        if backend.Bolt? && !StorableKey(mailbox) {
          return false;
        }
        claims := claims[mailbox := key];
        return true;
      }
      return existing == key;
    }

    method LookupDirectoryEntryByDeviceMailbox(mailbox: string) returns (e: Option<SignedDirectoryEntry>)
      ensures e == Lookup(backend, View(), mailbox)
    {
      if mailbox !in accounts || (backend.Bolt? && accounts[mailbox] == "") {
        return None;
      }
      var account := accounts[mailbox];
      if account !in entries {
        return None;
      }
      return Some(entries[account]);
    }
  }
}
