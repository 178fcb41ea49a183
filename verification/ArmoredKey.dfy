/** scripts/generate_keystore.go: the two key files, from the seed to the armored text and back. */
module ArmoredKey {
  import opened Bytes
  import opened Wrappers
  import Armor
  import Key = OpenPgpKey

  function PrivateFile(c: Key.Crypto, seed: seq<Byte>, uid: seq<Byte>): string
    requires c.Lawful()
  {
    Armor.Text("PGP PRIVATE KEY BLOCK", Key.TransferableSecretKey(c, seed, uid))
  }

  function PublicFile(c: Key.Crypto, seed: seq<Byte>, uid: seq<Byte>): string
    requires c.Lawful()
  {
    Armor.Text("PGP PUBLIC KEY BLOCK", Key.TransferablePublicKey(c, seed, uid))
  }

  /** Reading an armored file of the given type; Dearmor checks the checksum. */
  ghost function Open(text: string, blockType: string): Option<seq<Byte>> {
    var block :- Armor.Dearmor(text);
    if block.blockType == blockType then Some(block.data) else None
  }

  /** The header lines are those of section 6.2 of RFC 4880. */
  ghost function ReadPrivateFile(text: string): Option<Key.Certified<Key.SecretKey>> {
    var data :- Open(text, "PGP PRIVATE KEY BLOCK");
    Key.ReadSecretKey(data)
  }

  ghost function ReadPublicFile(text: string): Option<Key.Certified<Key.PublicKey>> {
    var data :- Open(text, "PGP PUBLIC KEY BLOCK");
    Key.ReadPublicKey(data)
  }

  lemma OpensBack(blockType: string, data: seq<Byte>)
    requires '\n' !in blockType
    ensures Open(Armor.Text(blockType, data), blockType) == Some(data)
  {
    Armor.ArmorRoundTrip(blockType, data);
  }

  lemma PrivateOpens(c: Key.Crypto, seed: seq<Byte>, uid: seq<Byte>)
    requires c.Lawful()
    ensures ReadPrivateFile(PrivateFile(c, seed, uid)) == Key.ReadSecretKey(Key.TransferableSecretKey(c, seed, uid))
  {
    OpensBack("PGP PRIVATE KEY BLOCK", Key.TransferableSecretKey(c, seed, uid));
  }

  lemma PublicOpens(c: Key.Crypto, seed: seq<Byte>, uid: seq<Byte>)
    requires c.Lawful()
    ensures ReadPublicFile(PublicFile(c, seed, uid)) == Key.ReadPublicKey(Key.TransferablePublicKey(c, seed, uid))
  {
    OpensBack("PGP PUBLIC KEY BLOCK", Key.TransferablePublicKey(c, seed, uid));
  }

  /**
   * The private file gives back the seed and a certification of its key and the user id; the public
   * file the same public key, user id and signature.
   */
  lemma FilesReadBack(c: Key.Crypto, seed: seq<Byte>, uid: seq<Byte>)
    requires c.Lawful() && |seed| == 32 && |uid| < 0x1_0000_0000
    ensures var secret, public := ReadPrivateFile(PrivateFile(c, seed, uid)), ReadPublicFile(PublicFile(c, seed, uid));
      && secret.Some? && public.Some?
      && secret.value.key.seed == seed && secret.value.uid == uid && Key.SelfCertified(c, secret.value)
      && public.value == Key.Certified(secret.value.key.public, uid, secret.value.signature)
  {
    PrivateOpens(c, seed, uid);
    PublicOpens(c, seed, uid);
    Key.SecretKeyRoundTrip(c, seed, uid);
    Key.PublicKeyRoundTrip(c, seed, uid);
    Key.CertificationCoversKey(c, seed, uid);
  }
}
