/**
 Keys, signatures and the public records that are signed. Cryptography is
 ideal: a signature is the pair of a public key and what was signed, and a
 private key is known by the public key it belongs to. Lengths are kept, since
 the code checks them.
 */
module Wire {
  import opened Foundations

  const KEY_BYTES := 32

  datatype Private = NoPrivate | PrivateFor(pub: Bytes)

  datatype Signature = Signed(signer: Bytes, statement: Statement) | Garbage(bytes: Bytes)

  datatype DeviceBundle = DeviceBundle(id: string, mailbox: string, signingPublic: Bytes, encryptionPublic: Bytes,
                                       signature: Signature, revoked: bool, revokedAt: int)

  /**
   Everything that gets signed, by purpose. The bytes of the first two are JSON
   and determine their fields. Those of a subscription do as long as no
   challenge nonce that is signed has a line break (JoinedLines.SubscriptionBound);
   the relay's are UUIDs. An envelope's bytes do not, so the joined text itself
   is the statement.
   */
  datatype Statement =
    | DeviceStatement(accountId: string, deviceId: string, deviceMailbox: string, deviceSigning: Bytes, deviceEncryption: Bytes)
    | DirectoryStatement(mailbox: string, account: string, accountKey: Bytes, devices: seq<DeviceBundle>,
                         discoverable: bool, publishedAt: int, version: int)
    | SubscribeStatement(subscribeMailbox: string, nonce: string, expiresAt: int)
    | EnvelopeStatement(text: string)

  /** An authenticated box: only the named receiver opens it, and only as coming from the named sender. */
  datatype Box = Sealed(plaintext: string, boxNonce: Bytes, receiver: Bytes, sender: Bytes)

  /** What is carried as base64: a box or any other bytes. */
  datatype Content = Boxed(box: Box) | Raw(bytes: Bytes)

  datatype Codec = Codec(encode: Content -> string, decode: string -> Option<Content>)

  /** What envelopes rely on: base64 decodes back, and neither line breaks nor '-' are in its alphabet; decoding skips line breaks. */
  ghost predicate IsBase64(b: Codec) {
    && (forall x :: b.decode(b.encode(x)) == Some(x))
    && (forall x :: '\n' !in b.encode(x) && '-' !in b.encode(x))
    && (forall s :: b.decode(s).Some? ==> '-' !in s)
  }

  datatype InviteBundle = InviteBundle(accountId: string, accountSigningPublic: Bytes, devices: seq<DeviceBundle>)

  datatype DirectoryEntry = DirectoryEntry(mailbox: string, bundle: InviteBundle, discoverable: bool, publishedAt: int, version: int)

  datatype SignedDirectoryEntry = SignedDirectoryEntry(entry: DirectoryEntry, signature: Signature)

  function Sign(key: Private, statement: Statement): Signature
    requires key.PrivateFor?
  {
    Signed(key.pub, statement)
  }

  predicate Verifies(pub: Bytes, statement: Statement, signature: Signature) {
    signature == Signed(pub, statement)
  }

  predicate VerifyDeviceBundle(accountId: string, accountPublic: Bytes, d: DeviceBundle) {
    && d.id != "" && d.mailbox != ""
    && |d.signingPublic| == KEY_BYTES && |d.encryptionPublic| == KEY_BYTES
    && Verifies(accountPublic, DeviceStatement(accountId, d.id, d.mailbox, d.signingPublic, d.encryptionPublic), d.signature)
  }

  predicate VerifyInvite(b: InviteBundle) {
    && b.accountId != "" && |b.accountSigningPublic| == KEY_BYTES && b.devices != []
    && forall d :: d in b.devices && !d.revoked ==> VerifyDeviceBundle(b.accountId, b.accountSigningPublic, d)
  }
}

/** Taking apart what was joined with line breaks. */
module JoinedLines {
  /** Texts without a line break are read off the front one by one. */
  lemma {:induction false} FirstLine(a: string, x: string, b: string, y: string)
    requires '\n' !in a && '\n' !in b && a + "\n" + x == b + "\n" + y
    ensures a == b && x == y
  {
    var s, t := a + "\n" + x, b + "\n" + y;
    assert s[|a|] == '\n' && t[|b|] == '\n';
    assert forall k :: 0 <= k < |a| ==> s[k] == a[k];
    assert forall k :: 0 <= k < |b| ==> t[k] == b[k];
    assert a == s[..|a|] && b == t[..|b|] && x == s[|a| + 1..] && y == t[|b| + 1..];
  }

  function FourLines(a: string, b: string, c: string, d: string): string {
    a + "\n" + (b + "\n" + (c + "\n" + d))
  }

  /** Four texts of one line each share their joined form with no other four texts. */
  lemma {:induction false} FourLinesBound(a: string, b: string, c: string, d: string, a': string, b': string, c': string, d': string)
    requires '\n' !in a && '\n' !in b && '\n' !in c && '\n' !in d
    requires FourLines(a, b, c, d) == FourLines(a', b', c', d')
    ensures a == a' && b == b' && c == c' && d == d'
  {
    assert multiset(FourLines(a, b, c, d)) == multiset(a) + multiset(b) + multiset(c) + multiset(d) + multiset{'\n', '\n', '\n'};
    assert multiset(FourLines(a', b', c', d')) == multiset(a') + multiset(b') + multiset(c') + multiset(d') + multiset{'\n', '\n', '\n'};
    assert '\n' !in multiset(a) && '\n' !in multiset(b) && '\n' !in multiset(c) && '\n' !in multiset(d);
    assert multiset(FourLines(a, b, c, d))['\n'] == 3;
    assert multiset(a')['\n'] == 0 && multiset(b')['\n'] == 0 && multiset(c')['\n'] == 0;
    FirstLine(a, b + "\n" + (c + "\n" + d), a', b' + "\n" + (c' + "\n" + d'));
    FirstLine(b, c + "\n" + d, b', c' + "\n" + d');
    FirstLine(c, d, c', d');
  }

  /** The last text without a line break is read off the back. */
  lemma {:induction false} LastLine(a: string, x: string, b: string, y: string)
    requires '\n' !in x && '\n' !in y && a + "\n" + x == b + "\n" + y
    ensures a == b && x == y
  {
    var s, t := a + "\n" + x, b + "\n" + y;
    assert s[|a|] == '\n' && t[|b|] == '\n';
    assert forall k :: |a| < k < |s| ==> s[k] == x[k - |a| - 1];
    assert forall k :: |b| < k < |t| ==> t[k] == y[k - |b| - 1];
    assert a == s[..|a|] && b == t[..|b|] && x == s[|a| + 1..] && y == t[|b| + 1..];
  }

  function SubscriptionText(mailbox: string, nonce: string, expiry: string): string {
    "subscribe\n" + mailbox + "\n" + nonce + "\n" + expiry
  }

  /** Signed subscriptions with nonces and times of one line determine their fields, whatever the mailbox. */
  lemma {:induction false} SubscriptionBound(mailbox: string, nonce: string, expiry: string, mailbox': string, nonce': string, expiry': string)
    requires '\n' !in nonce && '\n' !in nonce' && '\n' !in expiry && '\n' !in expiry'
    requires SubscriptionText(mailbox, nonce, expiry) == SubscriptionText(mailbox', nonce', expiry')
    ensures mailbox == mailbox' && nonce == nonce' && expiry == expiry'
  {
    var head := "subscribe\n";
    LastLine(head + mailbox + "\n" + nonce, expiry, head + mailbox' + "\n" + nonce', expiry');
    LastLine(head + mailbox, nonce, head + mailbox', nonce');
    assert mailbox == (head + mailbox)[|head|..] && mailbox' == (head + mailbox')[|head|..];
  }

  /** A marker with a '-' separates what precedes it from what follows without one. */
  lemma {:induction false} LastMarker(p: string, q: string, p': string, q': string, marker: string, dash: nat)
    requires '-' !in q && '-' !in q' && p + marker + q == p' + marker + q'
    requires dash < |marker| && marker[dash] == '-' && '-' !in marker[dash + 1..]
    ensures p == p' && q == q'
  {
    var s, s' := p + marker + q, p' + marker + q';
    assert s[|p| + dash] == '-' && s'[|p'| + dash] == '-';
    assert forall k :: |p| + dash < k < |s| ==> s[k] == (marker[dash + 1..] + q)[k - |p| - dash - 1] != '-';
    assert forall k :: |p'| + dash < k < |s'| ==> s'[k] == (marker[dash + 1..] + q')[k - |p'| - dash - 1] != '-';
    assert p == s[..|p|] && p' == s'[..|p'|] && q == s[|p| + |marker|..] && q' == s'[|p'| + |marker|..];
  }
}

/** There are encodings as envelopes rely on: numbers in unary, 'B' after each, 'C' between lists. */
module CodecWitness {
  import opened Foundations
  import opened Wire

  /** What comes before the first separator determines the text together with what comes after. */
  lemma {:induction false} FirstSeparator(c: char, a: string, x: string, b: string, y: string)
    requires c !in a && c !in b && a + [c] + x == b + [c] + y
    ensures a == b && x == y
  {
    var s, t := a + [c] + x, b + [c] + y;
    assert s[|a|] == c && t[|b|] == c;
    assert forall k :: 0 <= k < |a| ==> s[k] == a[k];
    assert forall k :: 0 <= k < |b| ==> t[k] == b[k];
    assert a == s[..|a|] && b == t[..|b|] && x == s[|a| + 1..] && y == t[|b| + 1..];
  }

  function Unary(n: nat): (s: string)
    ensures |s| == n && forall k :: 0 <= k < n ==> s[k] == 'A'
  {
    seq(n, _ => 'A')
  }

  /** Each number in unary, followed by 'B'. */
  function Numbers(ns: seq<nat>): (s: string)
    ensures forall k :: 0 <= k < |s| ==> s[k] in {'A', 'B'}
    ensures s == [] <==> ns == []
  {
    if ns == [] then [] else Unary(ns[0]) + ['B'] + Numbers(ns[1..])
  }

  lemma {:induction false} NumbersInjective(a: seq<nat>, b: seq<nat>)
    requires Numbers(a) == Numbers(b)
    ensures a == b
  {
    if a != [] {
      FirstSeparator('B', Unary(a[0]), Numbers(a[1..]), Unary(b[0]), Numbers(b[1..]));
      NumbersInjective(a[1..], b[1..]);
      assert a == [a[0]] + a[1..] && b == [b[0]] + b[1..];
    }
  }

  function OfBytes(bytes: Bytes): seq<nat> {
    seq(|bytes|, k requires 0 <= k < |bytes| => bytes[k] as nat)
  }

  function OfText(text: string): seq<nat> {
    seq(|text|, k requires 0 <= k < |text| => text[k] as nat)
  }

  lemma {:induction false} OfBytesInjective(a: Bytes, b: Bytes)
    requires OfBytes(a) == OfBytes(b)
    ensures a == b
  {
    forall k | 0 <= k < |a| ensures k < |b| && a[k] == b[k] {
      assert OfBytes(a)[k] == OfBytes(b)[k];
    }
    assert |OfBytes(a)| == |OfBytes(b)|;
  }

  lemma {:induction false} OfTextInjective(a: string, b: string)
    requires OfText(a) == OfText(b)
    ensures a == b
  {
    forall k | 0 <= k < |a| ensures k < |b| && a[k] == b[k] {
      assert OfText(a)[k] == OfText(b)[k];
    }
    assert |OfText(a)| == |OfText(b)|;
  }

  function Encode(x: Content): (s: string)
    ensures forall k :: 0 <= k < |s| ==> s[k] in {'A', 'B', 'C', 'D'}
    ensures x.Boxed? <==> s != [] && s[0] == 'D'
  {
    match x
    case Raw(bytes) => Numbers(OfBytes(bytes))
    case Boxed(box) =>
      ['D'] + Numbers(OfText(box.plaintext)) + ['C'] + (Numbers(OfBytes(box.boxNonce)) + ['C']
      + (Numbers(OfBytes(box.receiver)) + ['C'] + Numbers(OfBytes(box.sender))))
  }

  lemma {:induction false} EncodeInjective(x: Content, y: Content)
    requires Encode(x) == Encode(y)
    ensures x == y
  {
    if x.Boxed? && y.Boxed? {
      var a, b := x.box, y.box;
      var a3 := Numbers(OfBytes(a.receiver)) + ['C'] + Numbers(OfBytes(a.sender));
      var b3 := Numbers(OfBytes(b.receiver)) + ['C'] + Numbers(OfBytes(b.sender));
      var a2, b2 := Numbers(OfBytes(a.boxNonce)) + ['C'] + a3, Numbers(OfBytes(b.boxNonce)) + ['C'] + b3;
      FirstSeparator('C', ['D'] + Numbers(OfText(a.plaintext)), a2, ['D'] + Numbers(OfText(b.plaintext)), b2);
      FirstSeparator('C', Numbers(OfBytes(a.boxNonce)), a3, Numbers(OfBytes(b.boxNonce)), b3);
      FirstSeparator('C', Numbers(OfBytes(a.receiver)), Numbers(OfBytes(a.sender)), Numbers(OfBytes(b.receiver)), Numbers(OfBytes(b.sender)));
      assert Numbers(OfText(a.plaintext)) == (['D'] + Numbers(OfText(a.plaintext)))[1..];
      assert Numbers(OfText(b.plaintext)) == (['D'] + Numbers(OfText(b.plaintext)))[1..];
      NumbersInjective(OfText(a.plaintext), OfText(b.plaintext));
      NumbersInjective(OfBytes(a.boxNonce), OfBytes(b.boxNonce));
      NumbersInjective(OfBytes(a.receiver), OfBytes(b.receiver));
      NumbersInjective(OfBytes(a.sender), OfBytes(b.sender));
      OfTextInjective(a.plaintext, b.plaintext);
      OfBytesInjective(a.boxNonce, b.boxNonce);
      OfBytesInjective(a.receiver, b.receiver);
      OfBytesInjective(a.sender, b.sender);
    } else if x.Raw? && y.Raw? {
      NumbersInjective(OfBytes(x.bytes), OfBytes(y.bytes));
      OfBytesInjective(x.bytes, y.bytes);
    }
  }

  ghost function Decode(s: string): (x: Option<Content>)
    ensures x.Some? <==> exists y :: Encode(y) == s
    ensures x.Some? ==> Encode(x.value) == s
  {
    if exists y :: Encode(y) == s then
      var y :| Encode(y) == s;
      Some(y)
    else None
  }

  lemma {:induction false} SomeBase64()
    ensures exists b :: IsBase64(b)
  {
    var b := Codec(Encode, s => Decode(s));
    forall x ensures b.decode(b.encode(x)) == Some(x) {
      EncodeInjective(x, Decode(Encode(x)).value);
    }
    assert IsBase64(b);
  }
}

/** The directory entry's signature, which does not depend on the order of the devices. */
module DirectorySigning {
  import opened Wire
  import opened Sorting
  import Names
  import StringOrder

  predicate DeviceLess(a: DeviceBundle, b: DeviceBundle) {
    if a.mailbox == b.mailbox then StringOrder.Less(a.id, b.id) else StringOrder.Less(a.mailbox, b.mailbox)
  }

  lemma {:induction false} DeviceOrder()
    ensures StrictWeakOrder(DeviceLess)
  {
    StringOrder.Total();
  }

  function StatementFor(e: DirectoryEntry, devices: seq<DeviceBundle>): Statement {
    DirectoryStatement(e.mailbox, e.bundle.accountId, e.bundle.accountSigningPublic, devices, e.discoverable, e.publishedAt, e.version)
  }

  /** The payloads sort.Slice may lead to. */
  ghost predicate MaySign(e: DirectoryEntry, payload: Statement) {
    && payload.DirectoryStatement?
    && SortedPermutation(DeviceLess, e.bundle.devices, payload.devices)
    && payload == StatementFor(e, payload.devices)
  }

  function SigningPayload(e: DirectoryEntry): Statement {
    StatementFor(e, Sort(DeviceLess, e.bundle.devices))
  }

  method DirectoryEntrySigningBytes(e: DirectoryEntry) returns (payload: Statement)
    ensures MaySign(e, payload) && payload == SigningPayload(e)
  {
    var devices: seq<DeviceBundle> := [];
    var i := 0;
    while i < |e.bundle.devices|
      invariant 0 <= i <= |e.bundle.devices|
      invariant devices == e.bundle.devices[..i]
    {
      var d := e.bundle.devices[i];
      devices := devices + [DeviceBundle(d.id, d.mailbox, d.signingPublic, d.encryptionPublic, d.signature, d.revoked, d.revokedAt)];
      i := i + 1;
    }
    assert devices == e.bundle.devices;
    DeviceOrder();
    SortSorts(DeviceLess, devices);
    payload := StatementFor(e, Sort(DeviceLess, devices));
  }

  /** No two different devices share both mailbox and ID. */
  ghost predicate DistinctDevices(devices: seq<DeviceBundle>) {
    forall a, b :: a in devices && b in devices && a.mailbox == b.mailbox && a.id == b.id ==> a == b
  }

  lemma {:induction false} DistinctIffSeparated(devices: seq<DeviceBundle>)
    ensures DistinctDevices(devices) <==> Separates(DeviceLess, devices)
  {
    StringOrder.Total();
  }

  /** The payload is the same for every device order and every way of sorting. */
  lemma {:induction false} PayloadIgnoresOrder(e: DirectoryEntry, devices: seq<DeviceBundle>, p: Statement, q: Statement)
    requires multiset(devices) == multiset(e.bundle.devices) && DistinctDevices(e.bundle.devices)
    requires MaySign(e, p) && MaySign(e.(bundle := e.bundle.(devices := devices)), q)
    ensures p == q
  {
    DistinctIffSeparated(e.bundle.devices);
    SeparatedSortings(DeviceLess, e.bundle.devices, p.devices, q.devices);
  }

  /** Exactly then: an entry has one payload iff no two different devices share mailbox and ID. */
  lemma {:induction false} UniquePayloadIff(e: DirectoryEntry)
    ensures (forall p, q :: MaySign(e, p) && MaySign(e, q) ==> p == q) <==> DistinctDevices(e.bundle.devices)
  {
    DeviceOrder();
    DistinctIffSeparated(e.bundle.devices);
    if DistinctDevices(e.bundle.devices) {
      forall p, q | MaySign(e, p) && MaySign(e, q) ensures p == q {
        PayloadIgnoresOrder(e, e.bundle.devices, p, q);
      }
    } else {
      var a, b := TiedSortings(DeviceLess, e.bundle.devices);
      assert MaySign(e, StatementFor(e, a)) && MaySign(e, StatementFor(e, b));
      assert StatementFor(e, a).devices != StatementFor(e, b).devices;
    }
  }

  function SignDirectoryEntry(e: DirectoryEntry, key: Private): SignedDirectoryEntry
    requires key.PrivateFor?
  {
    SignedDirectoryEntry(e, Sign(key, SigningPayload(e)))
  }

  predicate VerifySignedDirectoryEntry(s: SignedDirectoryEntry) {
    && Names.TrimSpace(s.entry.mailbox) != ""
    && s.entry.publishedAt != 0
    && VerifyInvite(s.entry.bundle)
    && s.entry.bundle.accountId == s.entry.mailbox
    && Verifies(s.entry.bundle.accountSigningPublic, SigningPayload(s.entry), s.signature)
  }

  /** An entry signed with its devices in one order verifies with them in any order. */
  lemma {:induction false} SignedInOneOrderVerifiesInAll(e: DirectoryEntry, key: Private, devices: seq<DeviceBundle>)
    requires key == PrivateFor(e.bundle.accountSigningPublic) && DistinctDevices(e.bundle.devices)
    requires multiset(devices) == multiset(e.bundle.devices)
    requires VerifySignedDirectoryEntry(SignDirectoryEntry(e, key))
    ensures VerifySignedDirectoryEntry(SignDirectoryEntry(e, key).(entry := e.(bundle := e.bundle.(devices := devices))))
  {
    var e' := e.(bundle := e.bundle.(devices := devices));
    DeviceOrder();
    SortSorts(DeviceLess, e.bundle.devices);
    SortSorts(DeviceLess, devices);
    PayloadIgnoresOrder(e, devices, SigningPayload(e), SigningPayload(e'));
    PermutationMembers(devices, e.bundle.devices);
  }

  // ---- what verification requires, and what a signature binds ----

  /** An invite is accepted exactly if account and key are there, it lists a device, and the account key signed every unrevoked one's own fields. */
  lemma {:induction false} InviteAcceptedIff(b: InviteBundle)
    ensures VerifyInvite(b) <==>
      && b.accountId != "" && |b.accountSigningPublic| == 32 && |b.devices| > 0
      && forall k :: 0 <= k < |b.devices| && !b.devices[k].revoked ==>
           var d := b.devices[k];
           && d.id != "" && d.mailbox != "" && |d.signingPublic| == 32 && |d.encryptionPublic| == 32
           && d.signature == Signed(b.accountSigningPublic,
                                    DeviceStatement(b.accountId, d.id, d.mailbox, d.signingPublic, d.encryptionPublic))
  {
    assert forall k :: 0 <= k < |b.devices| ==> b.devices[k] in b.devices;
  }

  /** One device signature is accepted for one account, ID, mailbox and pair of keys only. */
  lemma {:induction false} DeviceSignatureBinds(b: InviteBundle, c: InviteBundle, d: DeviceBundle, e: DeviceBundle)
    requires VerifyInvite(b) && VerifyInvite(c) && d in b.devices && e in c.devices && !d.revoked && !e.revoked
    requires d.signature == e.signature
    ensures b.accountId == c.accountId && b.accountSigningPublic == c.accountSigningPublic
    ensures d.id == e.id && d.mailbox == e.mailbox && d.signingPublic == e.signingPublic && d.encryptionPublic == e.encryptionPublic
  {
    InviteAcceptedIff(b);
    InviteAcceptedIff(c);
    var j :| 0 <= j < |b.devices| && b.devices[j] == d;
    var k :| 0 <= k < |c.devices| && c.devices[k] == e;
  }

  /** Two entries that verify under one signature say the same, but for the order of their devices. */
  lemma {:induction false} EntrySignatureBinds(s: SignedDirectoryEntry, t: SignedDirectoryEntry)
    requires VerifySignedDirectoryEntry(s) && VerifySignedDirectoryEntry(t) && s.signature == t.signature
    ensures s.entry == t.entry.(bundle := t.entry.bundle.(devices := s.entry.bundle.devices))
    ensures multiset(s.entry.bundle.devices) == multiset(t.entry.bundle.devices)
  {
    DeviceOrder();
    SortSorts(DeviceLess, s.entry.bundle.devices);
    SortSorts(DeviceLess, t.entry.bundle.devices);
  }

  /** What an account signs verifies exactly if the mailbox is the account's, not blank, the time is set and the invite is accepted. */
  lemma {:induction false} SignedVerifiesIff(e: DirectoryEntry)
    ensures VerifySignedDirectoryEntry(SignDirectoryEntry(e, PrivateFor(e.bundle.accountSigningPublic))) <==>
      && (exists k :: 0 <= k < |e.mailbox| && !Names.IsSpace(e.mailbox[k])) && e.publishedAt != 0 && e.bundle.accountId == e.mailbox
      && VerifyInvite(e.bundle)
  {
    Names.TrimmedIsBlankIff(e.mailbox);
  }

  /** What is signed lists the devices by mailbox, and those with the same mailbox by ID. */
  lemma {:induction false} PayloadInOrder(e: DirectoryEntry, payload: Statement, i: nat, j: nat)
    requires MaySign(e, payload) && i < j < |payload.devices|
    ensures var d, f := payload.devices[i], payload.devices[j];
      StringOrder.Less(d.mailbox, f.mailbox) || (d.mailbox == f.mailbox && (d.id == f.id || StringOrder.Less(d.id, f.id)))
  {
    StringOrder.Total();
    assert !DeviceLess(payload.devices[j], payload.devices[i]);
  }

  /** What somebody else signs does not. */
  lemma {:induction false} OthersCannotSign(e: DirectoryEntry, key: Private)
    requires key.PrivateFor? && key.pub != e.bundle.accountSigningPublic
    ensures !VerifySignedDirectoryEntry(SignDirectoryEntry(e, key))
  {
    assert SignDirectoryEntry(e, key).signature.signer != e.bundle.accountSigningPublic;
  }
}
