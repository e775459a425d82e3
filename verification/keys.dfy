/** Error kinds, and keys as the text the library shows them in (src/error.rs, `decode_key` of src/parsed.rs). */
module Keys {
  import opened Base64
  import opened Netlink
  import opened Wrappers

  datatype ErrorKind = Bug | NetlinkError | DecodeError | InvalidKey | InvalidInput

  function KeyText(key: Key): string {
    Encode(key)
  }

  function DecodeKey(text: string): (key: Result<Key, ErrorKind>)
    ensures key.Err? ==> key.error == InvalidKey
  {
    var bytes := Decode(text);
    if bytes.None? || |bytes.value| != KEY_LEN then Err(InvalidKey) else Ok(bytes.value)
  }

  /** The key of a text that holds one, and the zero key for any other text. */
  function KeyOf(text: string): Key {
    var key := DecodeKey(text);
    if key.Ok? then key.value else seq(KEY_LEN, i => 0)
  }

  predicate IsKeyText(text: string) {
    DecodeKey(text).Ok?
  }

  /** Texts that decode and keys are in one-to-one correspondence. */
  lemma KeyTextRoundTrip(key: Key)
    ensures DecodeKey(KeyText(key)) == Ok(key) && KeyOf(KeyText(key)) == key
  {
    DecodeEncode(key);
  }

  lemma KeyTextIsCanonical(text: string)
    requires IsKeyText(text)
    ensures KeyText(KeyOf(text)) == text
  {
    EncodeDecode(text);
  }
}
