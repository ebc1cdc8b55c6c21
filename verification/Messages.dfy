/** Contacts, and messages encrypted once per active device of the recipient. */
module MessageModel {
  import opened Foundations
  import opened Wire
  import opened IdentityModel

  const NONCE_BYTES := 24
  const BOX_ENCODING := "box-sealed-v1"

  datatype ContactDevice = ContactDevice(id: string, mailbox: string, signingPublic: Bytes, encryptionPublic: Bytes,
                                         revoked: bool, revokedAt: int)

  datatype Contact = Contact(accountId: string, accountPublic: Bytes, devices: seq<ContactDevice>)

  datatype Envelope = Envelope(clientMessageId: string, senderMailbox: string, recipientMailbox: string, body: string, bodyEncoding: string,
                               ciphertext: string, nonce: string, senderSigning: string, senderEncryption: string, signature: Signature)

  datatype EncryptError = NoCurrentDevice | BadSenderKeys | NoActiveDevices | BadRecipientKey

  datatype Encryption = Envelopes(envelopes: seq<Envelope>) | NotEncrypted(error: EncryptError)

  datatype DecryptError =
    | UnsupportedEncoding | UnknownSender | RevokedSender | SigningKeyMismatch | EncryptionKeyMismatch
    | InvalidSignature | BadNonce | BadCiphertext | BadRecipientKeys | BoxNotOpened

  datatype Decryption = Plaintext(text: string) | NotDecrypted(error: DecryptError)

  function ActiveBundles(devices: seq<Device>): seq<DeviceBundle> {
    if devices == [] then []
    else if devices[|devices| - 1].revoked then ActiveBundles(devices[..|devices| - 1])
    else ActiveBundles(devices[..|devices| - 1]) + [Bundle(devices[|devices| - 1])]
  }

  function Invite(i: Identity): InviteBundle {
    InviteBundle(i.accountId, i.accountPublic, ActiveBundles(i.devices))
  }

  function ToContactDevice(b: DeviceBundle): ContactDevice {
    ContactDevice(b.id, b.mailbox, b.signingPublic, b.encryptionPublic, b.revoked, b.revokedAt)
  }

  function ContactFromInvite(b: InviteBundle): Option<Contact> {
    if !VerifyInvite(b) then None
    else Some(Contact(b.accountId, b.accountSigningPublic,
                      seq(|b.devices|, k requires 0 <= k < |b.devices| => ToContactDevice(b.devices[k]))))
  }

  function ActiveDevices(c: Contact): seq<ContactDevice> {
    Filter((d: ContactDevice) => !d.revoked, c.devices)
  }

  /** The first device with the mailbox. */
  function DeviceByMailbox(devices: seq<ContactDevice>, mailbox: string): Option<ContactDevice> {
    if devices == [] then None
    else
      var earlier := DeviceByMailbox(devices[..|devices| - 1], mailbox);
      if earlier.Some? then earlier
      else if devices[|devices| - 1].mailbox == mailbox then Some(devices[|devices| - 1]) else None
  }

  /** The fields joined by line breaks. */
  function SigningBytes(e: Envelope): string {
    e.senderMailbox + "\n" + e.recipientMailbox + "\n" + e.bodyEncoding + "\n" + e.nonce + "\n" + e.ciphertext + "\n"
    + e.senderSigning + "\n" + e.senderEncryption
  }

  function EnvelopeFor(base64: Codec, sender: Device, to: ContactDevice, text: string, messageId: string, nonce: Bytes): Envelope
    requires sender.signingPrivate.PrivateFor? && sender.encryptionPrivate.PrivateFor?
  {
    var box := Sealed(text, nonce, to.encryptionPublic, sender.encryptionPrivate.pub);
    var e := Envelope(messageId, sender.mailbox, to.mailbox, "", BOX_ENCODING, base64.encode(Boxed(box)), base64.encode(Raw(nonce)),
                      base64.encode(Raw(sender.signingPublic)), base64.encode(Raw(sender.encryptionPublic)), Garbage([]));
    e.(signature := Sign(sender.signingPrivate, EnvelopeStatement(SigningBytes(e))))
  }

  /** nonces are the random nonces drawn for the active devices, in order. */
  function Encrypt(base64: Codec, sender: Identity, c: Contact, text: string, messageId: string, nonces: seq<Bytes>): Encryption
    requires |nonces| >= |ActiveDevices(c)|
    requires CurrentDevice(sender).Some? ==> CurrentDevice(sender).value.signingPrivate.PrivateFor?
  {
    var current := CurrentDevice(sender);
    var to := ActiveDevices(c);
    if current.None? then NotEncrypted(NoCurrentDevice)
    else if !HasKeyPair(current.value) then NotEncrypted(BadSenderKeys)
    else if to == [] then NotEncrypted(NoActiveDevices)
    else if exists d :: d in to && |d.encryptionPublic| != KEY_BYTES then NotEncrypted(BadRecipientKey)
    else Envelopes(seq(|to|, k requires 0 <= k < |to| => EnvelopeFor(base64, current.value, to[k], text, messageId, nonces[k])))
  }

  /** A box opens with either end's private key, given the other end's public key. */
  function Open(c: Content, nonce: Bytes, other: Bytes, key: Private): Option<string> {
    if c.Boxed? && c.box.boxNonce == nonce
       && ((key == PrivateFor(c.box.receiver) && other == c.box.sender) || (key == PrivateFor(c.box.sender) && other == c.box.receiver))
    then Some(c.box.plaintext) else None
  }

  /** Decrypt from where the signature has been checked. */
  function OpenFrom(base64: Codec, recipient: Identity, d: ContactDevice, e: Envelope): Decryption {
    var nonce, ciphertext, current := base64.decode(e.nonce), base64.decode(e.ciphertext), CurrentDevice(recipient);
    if nonce.None? || nonce.value.Boxed? || |nonce.value.bytes| != NONCE_BYTES then NotDecrypted(BadNonce)
    else if ciphertext.None? then NotDecrypted(BadCiphertext)
    else if current.None? || !HasKeyPair(current.value) || |d.encryptionPublic| != KEY_BYTES then NotDecrypted(BadRecipientKeys)
    else
      var text := Open(ciphertext.value, nonce.value.bytes, d.encryptionPublic, current.value.encryptionPrivate);
      if text.None? then NotDecrypted(BoxNotOpened) else Plaintext(text.value)
  }

  function Decrypt(base64: Codec, recipient: Identity, sender: Contact, e: Envelope): Decryption {
    if e.bodyEncoding == "" then Plaintext(e.body)
    else if e.bodyEncoding != BOX_ENCODING then NotDecrypted(UnsupportedEncoding)
    else
      var found := DeviceByMailbox(sender.devices, e.senderMailbox);
      if found.None? then NotDecrypted(UnknownSender)
      else
        var d := found.value;
        if d.revoked then NotDecrypted(RevokedSender)
        else if base64.decode(e.senderSigning) != Some(Raw(d.signingPublic)) then NotDecrypted(SigningKeyMismatch)
        else if base64.decode(e.senderEncryption) != Some(Raw(d.encryptionPublic)) then NotDecrypted(EncryptionKeyMismatch)
        else if !Verifies(d.signingPublic, EnvelopeStatement(SigningBytes(e)), e.signature) then NotDecrypted(InvalidSignature)
        else OpenFrom(base64, recipient, d, e)
  }

  /** session.Encrypt's loop. */
  method EncryptForDevices(base64: Codec, sender: Identity, c: Contact, text: string, messageId: string, nonces: seq<Bytes>)
    returns (r: Encryption)
    requires |nonces| >= |ActiveDevices(c)|
    requires CurrentDevice(sender).Some? ==> CurrentDevice(sender).value.signingPrivate.PrivateFor?
    ensures r == Encrypt(base64, sender, c, text, messageId, nonces)
  {
    var current := CurrentDevice(sender);
    if current.None? {
      return NotEncrypted(NoCurrentDevice);
    }
    if !HasKeyPair(current.value) {
      return NotEncrypted(BadSenderKeys);
    }
    var devices := ActiveDevices(c);
    if |devices| == 0 {
      return NotEncrypted(NoActiveDevices);
    }
    var envelopes := [];
    var k := 0;
    while k < |devices|
      invariant 0 <= k <= |devices|
      invariant forall d :: d in devices[..k] ==> |d.encryptionPublic| == KEY_BYTES
      invariant envelopes == seq(k, j requires 0 <= j < k => EnvelopeFor(base64, current.value, devices[j], text, messageId, nonces[j]))
    {
      var d := devices[k];
      if |d.encryptionPublic| != KEY_BYTES {
        assert d in devices;
        return NotEncrypted(BadRecipientKey);
      }
      assert devices[..k + 1] == devices[..k] + [d];
      envelopes := envelopes + [EnvelopeFor(base64, current.value, d, text, messageId, nonces[k])];
      k := k + 1;
    }
    assert devices[..k] == devices;
    r := Envelopes(envelopes);
  }
}

/** Every active device can read what is encrypted for the account. */
module MessageFanOut {
  import opened Foundations
  import opened Wire
  import opened IdentityModel
  import opened IdentityLifecycle
  import opened MessageModel

  lemma {:induction false} BundlesOfActive(devices: seq<Device>)
    ensures |ActiveBundles(devices)| == |ActiveOf(devices)|
    ensures forall k :: 0 <= k < |ActiveOf(devices)| ==>
      ActiveBundles(devices)[k] == Bundle(ActiveOf(devices)[k]) && ActiveOf(devices)[k] in devices && !ActiveOf(devices)[k].revoked
  {
    if devices != [] {
      var front, last := devices[..|devices| - 1], devices[|devices| - 1];
      assert devices == front + [last];
      BundlesOfActive(front);
    }
  }

  lemma {:induction false} CurrentIsActive(i: Identity)
    requires Sound(i)
    ensures ActiveOf(i.devices) != [] && CurrentDevice(i).value in ActiveOf(i.devices)
  {
    FilterMembers((d: Device) => !d.revoked, i.devices);
    assert CurrentDevice(i).value in i.devices;
  }

  function AsContact(d: Device): ContactDevice {
    ToContactDevice(Bundle(d))
  }

  /** The invite of a sound identity is accepted, and lists exactly the active devices. */
  lemma {:induction false} InviteBecomesContact(i: Identity)
    requires Sound(i)
    ensures ContactFromInvite(Invite(i)).Some?
    ensures var c := ContactFromInvite(Invite(i)).value;
      && |c.devices| == |ActiveOf(i.devices)|
      && (forall k :: 0 <= k < |c.devices| ==> c.devices[k] == AsContact(ActiveOf(i.devices)[k]))
      && ActiveDevices(c) == c.devices
  {
    var b := Invite(i);
    BundlesOfActive(i.devices);
    CurrentIsActive(i);
    forall d | d in b.devices && !d.revoked ensures VerifyDeviceBundle(b.accountId, b.accountSigningPublic, d) {
      var k :| 0 <= k < |b.devices| && b.devices[k] == d;
      assert DeviceVerifies(i, ActiveOf(i.devices)[k]);
    }
    var c := ContactFromInvite(b).value;
    forall d | d in c.devices ensures !d.revoked {
      var k :| 0 <= k < |c.devices| && c.devices[k] == d;
      assert b.devices[k] == Bundle(ActiveOf(i.devices)[k]);
    }
    FilterAll((d: ContactDevice) => !d.revoked, c.devices);
  }

  lemma {:induction false} FindsDistinct(devices: seq<ContactDevice>, k: nat)
    requires k < |devices| && forall i, j :: 0 <= i < j < |devices| ==> devices[i].mailbox != devices[j].mailbox
    ensures DeviceByMailbox(devices, devices[k].mailbox) == Some(devices[k])
  {
    var front := devices[..|devices| - 1];
    if k < |front| {
      FindsDistinct(front, k);
      assert front[k] == devices[k];
    } else {
      FindsNone(front, devices[k].mailbox);
    }
  }

  lemma {:induction false} FindsNone(devices: seq<ContactDevice>, mailbox: string)
    requires forall i :: 0 <= i < |devices| ==> devices[i].mailbox != mailbox
    ensures DeviceByMailbox(devices, mailbox) == None
  {
    if devices != [] { FindsNone(devices[..|devices| - 1], mailbox); }
  }

  lemma {:induction false} SameActiveSameInvite(i: Identity, j: Identity)
    requires i.accountId == j.accountId && i.accountPublic == j.accountPublic && ActiveOf(i.devices) == ActiveOf(j.devices)
    ensures Invite(i) == Invite(j)
  {
    BundlesOfActive(i.devices);
    BundlesOfActive(j.devices);
    assert ActiveBundles(i.devices) == ActiveBundles(j.devices);
  }

  /** Compaction on saving changes nothing for others: the invite is the same, and so is all that is encrypted for it. */
  lemma {:induction false} CompactKeepsInvite(i: Identity, cutoff: int)
    ensures Invite(Compact(i, cutoff)) == Invite(i)
  {
    CompactDropsIff(i, cutoff);
    CompactKeepsActive(i, cutoff);
    SameActiveSameInvite(Compact(i, cutoff), i);
  }

  /** Only accepted invites become contacts, with the account and, device by device, the invite's fields. */
  lemma {:induction false} ContactMeaning(b: InviteBundle)
    ensures ContactFromInvite(b).Some? <==> VerifyInvite(b)
    ensures ContactFromInvite(b).Some? ==>
      var c := ContactFromInvite(b).value;
      && c.accountId == b.accountId && c.accountPublic == b.accountSigningPublic && |c.devices| == |b.devices|
      && forall k :: 0 <= k < |b.devices| ==>
           var d, listed := c.devices[k], b.devices[k];
           && d.id == listed.id && d.mailbox == listed.mailbox && d.signingPublic == listed.signingPublic
           && d.encryptionPublic == listed.encryptionPublic && d.revoked == listed.revoked && d.revokedAt == listed.revokedAt
  {
  }

  /** Of several devices with one mailbox the first is found. */
  lemma {:induction false} FirstIsFound(devices: seq<ContactDevice>, mailbox: string, k: nat)
    requires k < |devices|
    requires devices[k].mailbox == mailbox && forall j :: 0 <= j < k ==> devices[j].mailbox != mailbox
    ensures DeviceByMailbox(devices, mailbox) == Some(devices[k])
  {
    var front := devices[..|devices| - 1];
    if k < |front| { FirstIsFound(front, mailbox, k); } else { FindsNone(front, mailbox); }
  }

  /** The sender's contact entry leads back to the device it sends from. */
  lemma {:induction false} SenderIsFound(sender: Identity)
    requires Sound(sender)
    ensures ContactFromInvite(Invite(sender)).Some?
    ensures var d := CurrentDevice(sender).value;
      DeviceByMailbox(ContactFromInvite(Invite(sender)).value.devices, d.mailbox) == Some(AsContact(d))
  {
    InviteBecomesContact(sender);
    CurrentIsActive(sender);
    var active := ActiveOf(sender.devices);
    var c := ContactFromInvite(Invite(sender)).value;
    FilterKeepsDistinct((d: Device) => !d.revoked, sender.devices);
    var k :| 0 <= k < |active| && active[k] == CurrentDevice(sender).value;
    assert forall i, j :: 0 <= i < j < |c.devices| ==> c.devices[i].mailbox != c.devices[j].mailbox;
    FindsDistinct(c.devices, k);
  }

  /** An identity as held on device d: it is the current device there, with its private keys. */
  predicate HeldOn(i: Identity, d: Device) {
    && CurrentDevice(i).Some? && Bundle(CurrentDevice(i).value) == Bundle(d) && Keyed(CurrentDevice(i).value)
  }

  /** The contact lists the device first under its mailbox, unrevoked and with its two keys. */
  predicate Lists(contact: Contact, d: Device) {
    var listed := DeviceByMailbox(contact.devices, d.mailbox);
    && listed.Some? && !listed.value.revoked
    && listed.value.signingPublic == d.signingPublic && listed.value.encryptionPublic == d.encryptionPublic
  }

  /** The reader's current device has the private key of an encryption key. */
  predicate Holds(reader: Identity, key: Bytes) {
    && CurrentDevice(reader).Some?
    && |CurrentDevice(reader).value.encryptionPublic| == KEY_BYTES
    && CurrentDevice(reader).value.encryptionPrivate == PrivateFor(key)
  }

  /** A sender as Encrypt needs it, with keys that belong together. */
  predicate CanSend(i: Identity) {
    CurrentDevice(i).Some? && HasKeyPair(CurrentDevice(i).value) && Keyed(CurrentDevice(i).value)
  }

  lemma {:induction false} EnvelopeReadIff(base64: Codec, sender: Identity, to: ContactDevice, text: string, messageId: string, nonce: Bytes,
                                           reader: Identity, contact: Contact)
    requires IsBase64(base64) && CanSend(sender) && |to.encryptionPublic| == KEY_BYTES && |nonce| == NONCE_BYTES
    ensures var d := CurrentDevice(sender).value;
      var r := Decrypt(base64, reader, contact, EnvelopeFor(base64, d, to, text, messageId, nonce));
      && (r.Plaintext? <==> Lists(contact, d) && Holds(reader, to.encryptionPublic))
      && (r.Plaintext? ==> r.text == text)
  {
    var d := CurrentDevice(sender).value;
    var e := EnvelopeFor(base64, d, to, text, messageId, nonce);
    assert base64.decode(e.nonce) == Some(Raw(nonce)) && base64.decode(e.senderSigning) == Some(Raw(d.signingPublic));
    assert base64.decode(e.senderEncryption) == Some(Raw(d.encryptionPublic));
    assert base64.decode(e.ciphertext) == Some(Boxed(Sealed(text, nonce, to.encryptionPublic, d.encryptionPublic)));
    assert SigningBytes(e) == SigningBytes(e.(signature := Garbage([])));
  }

  /**
   Who reads what: of the envelopes Encrypt makes for any contact, the k-th is
   read exactly by those who hold the key of the contact's k-th active device
   and whose entry for the sender lists the sending device unrevoked. Whoever
   reads it reads the text.
   */
  lemma {:induction false} ReadByHoldersOnly(base64: Codec, sender: Identity, c: Contact, text: string, messageId: string, nonces: seq<Bytes>)
    requires IsBase64(base64) && CanSend(sender) && |nonces| == |ActiveDevices(c)|
    requires forall k :: 0 <= k < |nonces| ==> |nonces[k]| == NONCE_BYTES
    ensures var r := Encrypt(base64, sender, c, text, messageId, nonces);
      r.Envelopes? ==>
        && |r.envelopes| == |ActiveDevices(c)|
        && forall k, reader, contact {:trigger Decrypt(base64, reader, contact, r.envelopes[k])} :: 0 <= k < |r.envelopes| ==>
             var read := Decrypt(base64, reader, contact, r.envelopes[k]);
             && (read.Plaintext? <==> Lists(contact, CurrentDevice(sender).value) && Holds(reader, ActiveDevices(c)[k].encryptionPublic))
             && (read.Plaintext? ==> read.text == text)
  {
    hide Decrypt, SigningBytes, Lists, Holds;
    var r := Encrypt(base64, sender, c, text, messageId, nonces);
    if r.Envelopes? {
      forall k, reader, contact | 0 <= k < |r.envelopes|
        ensures var read := Decrypt(base64, reader, contact, r.envelopes[k]);
          && (read.Plaintext? <==> Lists(contact, CurrentDevice(sender).value) && Holds(reader, ActiveDevices(c)[k].encryptionPublic))
          && (read.Plaintext? ==> read.text == text)
      {
        assert ActiveDevices(c)[k] in ActiveDevices(c);
        EnvelopeReadIff(base64, sender, ActiveDevices(c)[k], text, messageId, nonces[k], reader, contact);
      }
    }
  }

  /**
   A signed envelope from a listed device, whatever box it carries: it is read
   exactly if the box has the envelope's nonce and is between that device and
   the reader, in either direction.
   */
  lemma {:induction false} BoxOpensIff(base64: Codec, reader: Identity, contact: Contact, e: Envelope, d: ContactDevice, box: Box, nonce: Bytes)
    requires e.bodyEncoding == "box-sealed-v1" && DeviceByMailbox(contact.devices, e.senderMailbox) == Some(d) && !d.revoked
    requires base64.decode(e.senderSigning) == Some(Raw(d.signingPublic)) && base64.decode(e.senderEncryption) == Some(Raw(d.encryptionPublic))
    requires e.signature == Signed(d.signingPublic, EnvelopeStatement(SigningBytes(e))) && |d.encryptionPublic| == 32
    requires base64.decode(e.nonce) == Some(Raw(nonce)) && |nonce| == 24 && base64.decode(e.ciphertext) == Some(Boxed(box))
    requires CurrentDevice(reader).Some? && Keyed(CurrentDevice(reader).value) && |CurrentDevice(reader).value.encryptionPublic| == 32
    ensures var own, r := CurrentDevice(reader).value.encryptionPublic, Decrypt(base64, reader, contact, e);
      && (r.Plaintext? <==>
            box.boxNonce == nonce
            && ((box.sender == d.encryptionPublic && box.receiver == own) || (box.sender == own && box.receiver == d.encryptionPublic)))
      && (r.Plaintext? ==> r.text == box.plaintext)
  {
  }

  /** When encrypting works, and which refusal comes first when it does not. */
  lemma {:induction false} EncryptsIff(base64: Codec, sender: Identity, c: Contact, text: string, messageId: string, nonces: seq<Bytes>)
    requires |nonces| >= |ActiveDevices(c)|
    requires CurrentDevice(sender).Some? ==> CurrentDevice(sender).value.signingPrivate.PrivateFor?
    ensures var r := Encrypt(base64, sender, c, text, messageId, nonces);
      var keys := CurrentDevice(sender).Some? && |CurrentDevice(sender).value.encryptionPublic| == 32
                  && CurrentDevice(sender).value.encryptionPrivate.PrivateFor?;
      var active := exists k :: 0 <= k < |c.devices| && !c.devices[k].revoked;
      var long := forall k :: 0 <= k < |c.devices| && !c.devices[k].revoked ==> |c.devices[k].encryptionPublic| == 32;
      && (r.Envelopes? <==> keys && active && long)
      && (r == NotEncrypted(NoCurrentDevice) <==> CurrentDevice(sender).None?)
      && (r == NotEncrypted(BadSenderKeys) <==> CurrentDevice(sender).Some? && !keys)
      && (r == NotEncrypted(NoActiveDevices) <==> keys && !active)
  {
    FilterMembers((d: ContactDevice) => !d.revoked, c.devices);
    assert forall k :: 0 <= k < |c.devices| ==> c.devices[k] in c.devices;
    assert ActiveDevices(c) != [] ==> ActiveDevices(c)[0] in ActiveDevices(c);
  }

  /** The envelopes share the message's ID and name the sending device; each is addressed to its own device, in the contact's order. */
  lemma {:induction false} EnvelopesAreAddressed(base64: Codec, sender: Identity, c: Contact, text: string, messageId: string,
                                                 nonces: seq<Bytes>, k: nat)
    requires |nonces| >= |ActiveDevices(c)|
    requires CurrentDevice(sender).Some? ==> CurrentDevice(sender).value.signingPrivate.PrivateFor?
    requires Encrypt(base64, sender, c, text, messageId, nonces).Envelopes? && k < |ActiveDevices(c)|
    ensures var envelopes := Encrypt(base64, sender, c, text, messageId, nonces).envelopes;
      && |envelopes| == |ActiveDevices(c)|
      && envelopes[k].clientMessageId == messageId && envelopes[k].body == "" && envelopes[k].bodyEncoding == "box-sealed-v1"
      && envelopes[k].senderMailbox == CurrentDevice(sender).value.mailbox
      && envelopes[k].recipientMailbox == ActiveDevices(c)[k].mailbox
  {
  }

  /** A plain body is passed on unread; another encoding or a nonce that is not 24 bytes long is refused. */
  lemma {:induction false} OtherEncodings(base64: Codec, reader: Identity, contact: Contact, e: Envelope)
    ensures e.bodyEncoding != "" && (forall n :: base64.decode(e.nonce) == Some(Raw(n)) ==> |n| != 24) ==>
      Decrypt(base64, reader, contact, e).NotDecrypted?
    ensures e.bodyEncoding == "" ==> Decrypt(base64, reader, contact, e) == Plaintext(e.body)
    ensures e.bodyEncoding != "" && e.bodyEncoding != "box-sealed-v1" ==> Decrypt(base64, reader, contact, e).NotDecrypted?
  {
  }

  /** Sound identities can write to each other: every active device gets an envelope. */
  lemma {:induction false} EncryptSucceeds(base64: Codec, sender: Identity, recipient: Identity, text: string, messageId: string,
                                           nonces: seq<Bytes>)
    requires Sound(sender) && Sound(recipient) && |nonces| == |ActiveOf(recipient.devices)|
    ensures CanSend(sender) && ContactFromInvite(Invite(recipient)).Some?
    ensures var c := ContactFromInvite(Invite(recipient)).value;
      && ActiveDevices(c) == c.devices && |ActiveDevices(c)| == |nonces| >= 1
      && (forall k :: 0 <= k < |nonces| ==> c.devices[k] == AsContact(ActiveOf(recipient.devices)[k]))
      && Encrypt(base64, sender, c, text, messageId, nonces).Envelopes?
  {
    InviteBecomesContact(recipient);
    CurrentIsActive(recipient);
    BundlesOfActive(recipient.devices);
    var active := ActiveOf(recipient.devices);
    var c := ContactFromInvite(Invite(recipient)).value;
    assert CurrentDevice(sender).value in sender.devices;
    assert DeviceVerifies(sender, CurrentDevice(sender).value);
    forall d | d in ActiveDevices(c) ensures |d.encryptionPublic| == KEY_BYTES {
      var k :| 0 <= k < |c.devices| && c.devices[k] == d;
      assert DeviceVerifies(recipient, active[k]);
    }
  }

  /**
   Fan-out: encrypting to the contact made from an account's invite gives one
   envelope per active device, addressed to it, and whoever holds the account
   on that device reads the text, knowing the sender by the sender's invite.
   */
  lemma {:induction false} EveryActiveDeviceReads(base64: Codec, sender: Identity, recipient: Identity, text: string, messageId: string,
                                                  nonces: seq<Bytes>)
    requires IsBase64(base64) && Sound(sender) && Sound(recipient) && |nonces| == |ActiveOf(recipient.devices)|
    requires forall k :: 0 <= k < |nonces| ==> |nonces[k]| == NONCE_BYTES
    ensures ContactFromInvite(Invite(recipient)).Some? && ContactFromInvite(Invite(sender)).Some?
    ensures |ActiveDevices(ContactFromInvite(Invite(recipient)).value)| == |nonces| && CanSend(sender)
    ensures var active := ActiveOf(recipient.devices);
      var r := Encrypt(base64, sender, ContactFromInvite(Invite(recipient)).value, text, messageId, nonces);
      && r.Envelopes? && |r.envelopes| == |active| >= 1
      && forall k, held :: 0 <= k < |active| && HeldOn(held, active[k]) ==>
           r.envelopes[k].recipientMailbox == active[k].mailbox
           && Decrypt(base64, held, ContactFromInvite(Invite(sender)).value, r.envelopes[k]) == Plaintext(text)
  {
    hide Decrypt, SigningBytes, Invite, ContactFromInvite;
    EncryptSucceeds(base64, sender, recipient, text, messageId, nonces);
    SenderIsFound(sender);
    var c, from := ContactFromInvite(Invite(recipient)).value, ContactFromInvite(Invite(sender)).value;
    var r, active := Encrypt(base64, sender, c, text, messageId, nonces), ActiveOf(recipient.devices);
    ReadByHoldersOnly(base64, sender, c, text, messageId, nonces);
    forall k, held | 0 <= k < |active| && HeldOn(held, active[k])
      ensures r.envelopes[k].recipientMailbox == active[k].mailbox
      ensures Decrypt(base64, held, from, r.envelopes[k]) == Plaintext(text)
    {
      assert c.devices[k] == AsContact(active[k]) && c.devices[k] in ActiveDevices(c);
      assert Lists(from, CurrentDevice(sender).value);
      assert Holds(held, active[k].encryptionPublic);
      assert Decrypt(base64, held, from, r.envelopes[k]).Plaintext?;
    }
  }

  /**
   And nobody else does: with whatever key a reader holds, it reads the k-th
   envelope exactly if that is the k-th active device's key.
   */
  lemma {:induction false} ReadWithItsKeyOnly(base64: Codec, sender: Identity, recipient: Identity, text: string, messageId: string,
                                              nonces: seq<Bytes>)
    requires IsBase64(base64) && Sound(sender) && Sound(recipient) && |nonces| == |ActiveOf(recipient.devices)|
    requires forall k :: 0 <= k < |nonces| ==> |nonces[k]| == NONCE_BYTES
    ensures ContactFromInvite(Invite(recipient)).Some? && ContactFromInvite(Invite(sender)).Some?
    ensures |ActiveDevices(ContactFromInvite(Invite(recipient)).value)| == |nonces| && CanSend(sender)
    ensures var active, from := ActiveOf(recipient.devices), ContactFromInvite(Invite(sender)).value;
      var r := Encrypt(base64, sender, ContactFromInvite(Invite(recipient)).value, text, messageId, nonces);
      && r.Envelopes? && |r.envelopes| == |active|
      && forall k, reader, key :: 0 <= k < |active| && Holds(reader, key) ==>
           (Decrypt(base64, reader, from, r.envelopes[k]).Plaintext? <==> key == active[k].encryptionPublic)
  {
    hide Decrypt, SigningBytes, Invite, ContactFromInvite;
    EncryptSucceeds(base64, sender, recipient, text, messageId, nonces);
    SenderIsFound(sender);
    var c, from := ContactFromInvite(Invite(recipient)).value, ContactFromInvite(Invite(sender)).value;
    var r, active := Encrypt(base64, sender, c, text, messageId, nonces), ActiveOf(recipient.devices);
    ReadByHoldersOnly(base64, sender, c, text, messageId, nonces);
    assert Lists(from, CurrentDevice(sender).value);
    forall k, reader, key | 0 <= k < |active| && Holds(reader, key)
      ensures Decrypt(base64, reader, from, r.envelopes[k]).Plaintext? <==> key == active[k].encryptionPublic
    {
      assert c.devices[k] == AsContact(active[k]);
      assert Holds(reader, active[k].encryptionPublic) <==> key == active[k].encryptionPublic;
    }
  }

  /** A newly enrolled device reads what is sent from then on. */
  lemma {:induction false} EnrolledDeviceReads(base64: Codec, sender: Identity, approver: Identity, p: Pending, text: string, messageId: string,
                                               nonces: seq<Bytes>)
    requires IsBase64(base64) && Sound(sender) && Sound(approver)
    requires Genuine(p) && Unused(approver, p) && p.accountId == approver.accountId
    requires var after := Approve(approver, RequestOf(p)).0;
      |nonces| == |ActiveOf(after.devices)| && forall k :: 0 <= k < |nonces| ==> |nonces[k]| == NONCE_BYTES
    ensures var (after, approval) := Approve(approver, RequestOf(p));
      && Sound(after) && approval.Some? && Complete(p, approval.value).Completed?
      && ContactFromInvite(Invite(after)).Some? && ContactFromInvite(Invite(sender)).Some?
      && |ActiveDevices(ContactFromInvite(Invite(after)).value)| == |nonces|
      && var r := Encrypt(base64, sender, ContactFromInvite(Invite(after)).value, text, messageId, nonces);
         && r.Envelopes?
         && (exists e :: e in r.envelopes && e.recipientMailbox == p.device.mailbox &&
               Decrypt(base64, Complete(p, approval.value).identity, ContactFromInvite(Invite(sender)).value, e) == Plaintext(text))
  {
    hide Encrypt, Decrypt, ContactFromInvite, Invite, ActiveDevices;
    ApproveKeepsSound(approver, p);
    CompleteAfterApprove(approver, p);
    var (after, approval) := Approve(approver, RequestOf(p));
    var own := Complete(p, approval.value).identity;
    EveryActiveDeviceReads(base64, sender, after, text, messageId, nonces);
    var last := after.devices[|approver.devices|];
    var active := ActiveOf(after.devices);
    assert after.devices == approver.devices + [last];
    assert active[|active| - 1] == last;
    NewDeviceHolds(approver, p);
    var r := Encrypt(base64, sender, ContactFromInvite(Invite(after)).value, text, messageId, nonces);
    assert HeldOn(own, active[|active| - 1]);
    assert r.envelopes[|active| - 1] in r.envelopes;
  }

  lemma {:induction false} NewDeviceHolds(approver: Identity, p: Pending)
    requires Sound(approver) && Genuine(p) && Unused(approver, p) && p.accountId == approver.accountId
    ensures var (after, approval) := Approve(approver, RequestOf(p));
      && approval.Some? && Complete(p, approval.value).Completed?
      && |after.devices| == |approver.devices| + 1
      && HeldOn(Complete(p, approval.value).identity, after.devices[|approver.devices|])
  {
    ApproveKeepsSound(approver, p);
    CompleteAfterApprove(approver, p);
    var (after, approval) := Approve(approver, RequestOf(p));
    var own := Complete(p, approval.value).identity;
    var n := |approver.devices|;
    assert Bundles(own.devices)[n] == Bundle(after.devices[n]);
    assert own.devices[n].id == p.device.id;
    DistinctById(own, ById(own.devices, own.currentId), n);
  }

  /** The device is unlisted after its revocation, and so is its key unless another device has the same. */
  lemma {:induction false} RevokedIsUnlisted(owner: Identity, identifier: string, now: int)
    requires Sound(owner) && Revoke(owner, identifier, now).1
    ensures var k, after := Named(owner.devices, identifier), Revoke(owner, identifier, now).0;
      && k >= 0 && Sound(after)
      && forall n :: 0 <= n < |ActiveOf(after.devices)| ==>
           && ActiveOf(after.devices)[n].mailbox != owner.devices[k].mailbox
           && exists j :: 0 <= j < |owner.devices| && j != k && ActiveOf(after.devices)[n] == owner.devices[j]
  {
    RevokeKeepsSound(owner, identifier, now);
    var k, after := Named(owner.devices, identifier), Revoke(owner, identifier, now).0;
    var active := ActiveOf(after.devices);
    BundlesOfActive(after.devices);
    forall n | 0 <= n < |active|
      ensures active[n].mailbox != owner.devices[k].mailbox
      ensures exists j :: 0 <= j < |owner.devices| && j != k && active[n] == owner.devices[j]
    {
      var j :| 0 <= j < |after.devices| && after.devices[j] == active[n];
      assert j != k && owner.devices[j] == active[n];
    }
  }

  /**
   Revocation cuts off: after it, nothing encrypted to the account's new invite
   is read with the revoked device's key, unless another device has the same,
   and nothing from its mailbox is read by those who have the new invite.
   */
  lemma {:induction false} RevokedIsCutOff(base64: Codec, owner: Identity, identifier: string, now: int,
                                           sender: Identity, text: string, messageId: string, nonces: seq<Bytes>)
    requires IsBase64(base64) && Sound(owner) && Revoke(owner, identifier, now).1 && Sound(sender)
    requires |nonces| == |ActiveOf(Revoke(owner, identifier, now).0.devices)|
    requires forall k :: 0 <= k < |nonces| ==> |nonces[k]| == NONCE_BYTES
    ensures var k, after := Named(owner.devices, identifier), Revoke(owner, identifier, now).0;
      && k >= 0 && ContactFromInvite(Invite(after)).Some? && CanSend(sender)
      && var c, d := ContactFromInvite(Invite(after)).value, owner.devices[k];
         && |ActiveDevices(c)| == |nonces|
         && var r := Encrypt(base64, sender, c, text, messageId, nonces);
            && r.Envelopes?
            && ((forall j :: 0 <= j < |owner.devices| && j != k ==> owner.devices[j].encryptionPublic != d.encryptionPublic) ==>
                  forall reader, contact, e :: Holds(reader, d.encryptionPublic) && e in r.envelopes ==>
                    Decrypt(base64, reader, contact, e).NotDecrypted?)
            && (forall reader, e: Envelope :: e.senderMailbox == d.mailbox && e.bodyEncoding != "" ==>
                  Decrypt(base64, reader, c, e).NotDecrypted?)
  {
    RevokedIsUnlisted(owner, identifier, now);
    var k, after := Named(owner.devices, identifier), Revoke(owner, identifier, now).0;
    EncryptSucceeds(base64, sender, after, text, messageId, nonces);
    var c, d := ContactFromInvite(Invite(after)).value, owner.devices[k];
    ReadByHoldersOnly(base64, sender, c, text, messageId, nonces);
    FindsNone(c.devices, d.mailbox);
    var r := Encrypt(base64, sender, c, text, messageId, nonces);
    if forall j :: 0 <= j < |owner.devices| && j != k ==> owner.devices[j].encryptionPublic != d.encryptionPublic {
      forall reader, contact, e | Holds(reader, d.encryptionPublic) && e in r.envelopes
        ensures Decrypt(base64, reader, contact, e).NotDecrypted?
      {
        var n :| 0 <= n < |r.envelopes| && r.envelopes[n] == e;
        assert c.devices[n] == AsContact(ActiveOf(after.devices)[n]);
        assert !Holds(reader, ActiveDevices(c)[n].encryptionPublic);
      }
    }
  }
}

/** What an envelope's signature binds: its content always, its two addresses only as they are joined. */
module MessageBinding {
  import opened Foundations
  import opened Wire
  import opened JoinedLines
  import opened IdentityModel
  import opened MessageModel
  import opened MessageFanOut

  function Addresses(e: Envelope): string {
    e.senderMailbox + "\n" + e.recipientMailbox
  }

  /** What follows the body encoding. */
  function SignedContent(e: Envelope): string {
    FourLines(e.nonce, e.ciphertext, e.senderSigning, e.senderEncryption)
  }

  lemma {:induction false} SigningParts(e: Envelope)
    requires e.bodyEncoding == BOX_ENCODING
    ensures SigningBytes(e) == Addresses(e) + ("\n" + BOX_ENCODING + "\n") + SignedContent(e)
  {
  }

  /** Text that is read through its decoding has no '-'. */
  lemma {:induction false} ReadHasNoDash(base64: Codec, reader: Identity, contact: Contact, e: Envelope)
    requires IsBase64(base64) && e.bodyEncoding != "" && Decrypt(base64, reader, contact, e).Plaintext?
    ensures e.bodyEncoding == BOX_ENCODING && '-' !in SignedContent(e)
  {
    assert base64.decode(e.nonce).Some? && base64.decode(e.ciphertext).Some?;
    assert base64.decode(e.senderSigning).Some? && base64.decode(e.senderEncryption).Some?;
  }

  /** Under the signature of an encrypted envelope only the same text, nonce and keys are read, and the same joined addresses. */
  lemma {:induction false} ContentIsBound(base64: Codec, sender: Identity, to: ContactDevice, text: string, messageId: string, nonce: Bytes,
                                          reader: Identity, contact: Contact, e: Envelope)
    requires IsBase64(base64) && CanSend(sender) && e.bodyEncoding != ""
    requires e.signature == EnvelopeFor(base64, CurrentDevice(sender).value, to, text, messageId, nonce).signature
    requires Decrypt(base64, reader, contact, e).Plaintext?
    ensures var sent := EnvelopeFor(base64, CurrentDevice(sender).value, to, text, messageId, nonce);
      && Decrypt(base64, reader, contact, e) == Plaintext(text)
      && e.bodyEncoding == sent.bodyEncoding && e.nonce == sent.nonce && e.ciphertext == sent.ciphertext
      && e.senderSigning == sent.senderSigning && e.senderEncryption == sent.senderEncryption
      && Addresses(e) == Addresses(sent)
  {
    var sent := EnvelopeFor(base64, CurrentDevice(sender).value, to, text, messageId, nonce);
    SigningParts(e);
    SigningParts(sent);
    ReadHasNoDash(base64, reader, contact, e);
    assert SigningBytes(e) == SigningBytes(sent);
    assert '-' !in SignedContent(sent);
    var marker := "\n" + BOX_ENCODING + "\n";
    assert marker[4] == '-' && marker[11] == '-' && '-' !in marker[12..];
    LastMarker(Addresses(e), SignedContent(e), Addresses(sent), SignedContent(sent), marker, 11);
    FourLinesBound(sent.nonce, sent.ciphertext, sent.senderSigning, sent.senderEncryption,
                   e.nonce, e.ciphertext, e.senderSigning, e.senderEncryption);
  }

  // ---- the two addresses ----

  /** Nobody with a contact from a verified invite reads anything under the signature with other addresses. */
  ghost predicate AddressesBound(base64: Codec, sent: Envelope) {
    forall reader: Identity, invite: InviteBundle, e: Envelope ::
      VerifyInvite(invite) && e.signature == sent.signature && e.bodyEncoding != ""
      && Decrypt(base64, reader, ContactFromInvite(invite).value, e).Plaintext? ==>
        e.senderMailbox == sent.senderMailbox && e.recipientMailbox == sent.recipientMailbox
  }

  /** The joined addresses can be taken apart in one way only; no listed mailbox is empty. */
  predicate OneSplit(senderMailbox: string, recipientMailbox: string)
    requires senderMailbox != ""
  {
    '\n' !in senderMailbox[1..] && '\n' !in recipientMailbox
  }

  /** The same joined addresses, split at position p. */
  function SplitAt(sent: Envelope, p: nat): Envelope
    requires p < |Addresses(sent)|
  {
    sent.(senderMailbox := Addresses(sent)[..p], recipientMailbox := Addresses(sent)[p + 1..])
  }

  lemma {:induction false} SplitSignsTheSame(sent: Envelope, p: nat)
    requires p < |Addresses(sent)| && Addresses(sent)[p] == '\n' && sent.bodyEncoding == BOX_ENCODING
    ensures Addresses(SplitAt(sent, p)) == Addresses(sent) && SigningBytes(SplitAt(sent, p)) == SigningBytes(sent)
  {
    var e := SplitAt(sent, p);
    assert Addresses(e) == Addresses(sent);
    SigningParts(e);
    SigningParts(sent);
  }

  /** A valid invite of some other account that lists the device under another mailbox. */
  function InviteListing(account: Bytes, d: Device, mailbox: string): InviteBundle {
    var statement := DeviceStatement("account", "device", mailbox, d.signingPublic, d.encryptionPublic);
    InviteBundle("account", account,
                 [DeviceBundle("device", mailbox, d.signingPublic, d.encryptionPublic, Signed(account, statement), false, 0)])
  }

  /** An identity whose current device has the encryption key. */
  function Holder(key: Bytes): Identity {
    Identity("reader", "device", key, PrivateFor(key), [NewDevice("device", "mailbox", key, key)])
  }

  lemma {:induction false} InviteListingLists(account: Bytes, d: Device, mailbox: string)
    requires mailbox != "" && |account| == |d.signingPublic| == |d.encryptionPublic| == KEY_BYTES
    ensures VerifyInvite(InviteListing(account, d, mailbox))
    ensures Lists(ContactFromInvite(InviteListing(account, d, mailbox)).value, d.(mailbox := mailbox))
  {
    var devices := ContactFromInvite(InviteListing(account, d, mailbox)).value.devices;
    assert DeviceByMailbox(devices[..0], mailbox) == None;
  }

  lemma {:induction false} HolderHolds(key: Bytes)
    requires |key| == KEY_BYTES
    ensures Holds(Holder(key), key)
  {
    var i := Holder(key);
    assert i.devices[0].id == i.currentId;
  }

  /** An envelope split elsewhere is read, if someone lists the sender's keys under the other mailbox. */
  lemma {:induction false} SplitIsRead(base64: Codec, account: Bytes, sender: Identity, to: ContactDevice, text: string, messageId: string,
                                       nonce: Bytes, p: nat)
    requires IsBase64(base64) && CanSend(sender) && |account| == |CurrentDevice(sender).value.signingPublic| == KEY_BYTES
    requires |to.encryptionPublic| == KEY_BYTES && |nonce| == NONCE_BYTES
    requires var sent := EnvelopeFor(base64, CurrentDevice(sender).value, to, text, messageId, nonce);
      0 < p < |Addresses(sent)| && Addresses(sent)[p] == '\n'
    ensures var d := CurrentDevice(sender).value;
      var sent := EnvelopeFor(base64, d, to, text, messageId, nonce);
      var e := SplitAt(sent, p);
      VerifyInvite(InviteListing(account, d, e.senderMailbox)) && e.signature == sent.signature
      && Decrypt(base64, Holder(to.encryptionPublic), ContactFromInvite(InviteListing(account, d, e.senderMailbox)).value, e) == Plaintext(text)
  {
    hide Lists, Holds, InviteListing, Holder;
    var d := CurrentDevice(sender).value;
    var sent := EnvelopeFor(base64, d, to, text, messageId, nonce);
    var e := SplitAt(sent, p);
    InviteListingLists(account, d, e.senderMailbox);
    HolderHolds(to.encryptionPublic);
    SplitSignsTheSame(sent, p);
    var s' := sender.(devices := [d.(mailbox := e.senderMailbox)], currentId := d.id);
    assert s'.devices[0].id == s'.currentId;
    var to' := to.(mailbox := e.recipientMailbox);
    var e' := EnvelopeFor(base64, CurrentDevice(s').value, to', text, messageId, nonce);
    assert SigningBytes(e') == SigningBytes(e);
    assert e' == e;
    EnvelopeReadIff(base64, s', to', text, messageId, nonce, Holder(to.encryptionPublic),
                    ContactFromInvite(InviteListing(account, d, e.senderMailbox)).value);
  }

  lemma {:induction false} ListedMailboxIsNamed(invite: InviteBundle, mailbox: string)
    requires VerifyInvite(invite)
    requires var found := DeviceByMailbox(ContactFromInvite(invite).value.devices, mailbox); found.Some? && !found.value.revoked
    ensures mailbox != ""
  {
    var devices := ContactFromInvite(invite).value.devices;
    FoundIsListed(devices, mailbox);
    var k :| 0 <= k < |devices| && devices[k].mailbox == mailbox && !devices[k].revoked;
    assert invite.devices[k] in invite.devices;
  }

  lemma {:induction false} FoundIsListed(devices: seq<ContactDevice>, mailbox: string)
    requires DeviceByMailbox(devices, mailbox).Some?
    ensures exists k :: 0 <= k < |devices| && devices[k] == DeviceByMailbox(devices, mailbox).value && devices[k].mailbox == mailbox
  {
    var front := devices[..|devices| - 1];
    if DeviceByMailbox(front, mailbox).Some? {
      FoundIsListed(front, mailbox);
      var k :| 0 <= k < |front| && front[k] == DeviceByMailbox(front, mailbox).value && front[k].mailbox == mailbox;
      assert devices[k] == front[k];
    }
  }

  /** Non-empty senders with the same joined addresses are the same, if there is no line break besides the joining one. */
  lemma {:induction false} OneSplitIsUnique(a: string, b: string, a': string, b': string)
    requires a != "" && a' != "" && OneSplit(a, b) && a + "\n" + b == a' + "\n" + b'
    ensures a == a' && b == b'
  {
    var s, t := a + "\n" + b, a' + "\n" + b';
    assert s[|a'|] == '\n' && t[|a|] == '\n';
    assert forall k :: 1 <= k < |a| ==> s[k] == a[1..][k - 1];
    assert forall k :: |a| < k < |s| ==> s[k] == b[k - |a| - 1];
    assert a == s[..|a|] && b == s[|a| + 1..] && a' == t[..|a'|] && b' == t[|a'| + 1..];
  }

  /** The addresses of a sent envelope are bound by its signature exactly if its mailboxes leave one way to split them. */
  lemma {:induction false} AddressesBoundIff(base64: Codec, sender: Identity, to: ContactDevice, text: string, messageId: string, nonce: Bytes)
    requires IsBase64(base64) && CanSend(sender) && |to.encryptionPublic| == KEY_BYTES && |nonce| == NONCE_BYTES
    requires CurrentDevice(sender).value.mailbox != "" && |CurrentDevice(sender).value.signingPublic| == KEY_BYTES
    ensures AddressesBound(base64, EnvelopeFor(base64, CurrentDevice(sender).value, to, text, messageId, nonce))
       <==> OneSplit(CurrentDevice(sender).value.mailbox, to.mailbox)
  {
    var d := CurrentDevice(sender).value;
    var sent := EnvelopeFor(base64, d, to, text, messageId, nonce);
    if OneSplit(d.mailbox, to.mailbox) {
      forall reader: Identity, invite: InviteBundle, e: Envelope
        | VerifyInvite(invite) && e.signature == sent.signature && e.bodyEncoding != ""
          && Decrypt(base64, reader, ContactFromInvite(invite).value, e).Plaintext?
        ensures e.senderMailbox == sent.senderMailbox && e.recipientMailbox == sent.recipientMailbox
      {
        ContentIsBound(base64, sender, to, text, messageId, nonce, reader, ContactFromInvite(invite).value, e);
        ListedMailboxIsNamed(invite, e.senderMailbox);
        OneSplitIsUnique(d.mailbox, to.mailbox, e.senderMailbox, e.recipientMailbox);
      }
    } else {
      var p := OtherBreak(d.mailbox, to.mailbox);
      SplitIsRead(base64, seq(KEY_BYTES, _ => 0), sender, to, text, messageId, nonce, p);
      assert |SplitAt(sent, p).senderMailbox| == p != |d.mailbox|;
    }
  }

  lemma {:induction false} OtherBreak(a: string, b: string) returns (p: nat)
    requires a != "" && !OneSplit(a, b)
    ensures 0 < p < |a + "\n" + b| && p != |a| && (a + "\n" + b)[p] == '\n'
  {
    if '\n' in a[1..] {
      var k :| 0 <= k < |a| - 1 && a[1..][k] == '\n';
      p := k + 1;
    } else {
      var k :| 0 <= k < |b| && b[k] == '\n';
      p := |a| + 1 + k;
    }
  }

  /** A concrete one: what "a" sends to "b\nc" is also read as coming from "a\nb" and going to "c". */
  lemma {:induction false} AddressesCanShift(base64: Codec, signing: Bytes, encryption: Bytes, other: Bytes, account: Bytes,
                                             text: string, messageId: string, nonce: Bytes)
    requires IsBase64(base64) && |signing| == |encryption| == |other| == |account| == KEY_BYTES && |nonce| == NONCE_BYTES
    ensures var d, to := NewDevice("device", "a", signing, encryption), ContactDevice("other", "b\nc", other, other, false, 0);
      var e := EnvelopeFor(base64, d, to, text, messageId, nonce).(senderMailbox := "a\nb", recipientMailbox := "c");
      && VerifyInvite(InviteListing(account, d, "a\nb"))
      && Decrypt(base64, Holder(other), ContactFromInvite(InviteListing(account, d, "a\nb")).value, e) == Plaintext(text)
  {
    var d, to := NewDevice("device", "a", signing, encryption), ContactDevice("other", "b\nc", other, other, false, 0);
    var sender := Identity("account", "device", signing, PrivateFor(signing), [d]);
    assert sender.devices[0].id == sender.currentId;
    var sent := EnvelopeFor(base64, d, to, text, messageId, nonce);
    assert Addresses(sent) == "a\nb\nc";
    assert SplitAt(sent, 3) == sent.(senderMailbox := "a\nb", recipientMailbox := "c");
    SplitIsRead(base64, account, sender, to, text, messageId, nonce, 3);
  }
}
