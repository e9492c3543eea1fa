/** Standard-library and cryptographic routines the directory relies on, with the laws assumed of them. */
module Library {
  import opened Prelude
  import opened Text

  // Times are nanoseconds since Go's zero time, 1 January of year 1.
  const SECOND: int := 1_000_000_000
  const YEAR_10000: int := 315_537_897_600 * SECOND

  type Key = string

  const KEY_PREFIX: string := "ed25519:"

  /** A signing key pair: the private half is what turns a message into signature bytes. */
  datatype Identity = Identity(pub: Key, sign: string -> string)

  datatype Library = Library(
    encode64: string -> string,             // base64.StdEncoding
    decode64: string -> Option<string>,
    formatTime: int -> string,              // time.RFC3339 in UTC
    parseTime: string -> Option<int>,
    itoa: nat -> string,                    // %d and strconv.Atoi
    atoi: string -> Option<int>,
    hostPort: string -> bool,               // net.SplitHostPort succeeds
    edVerify: (Key, string, string) -> bool // key, message, signature bytes
  ) {
    /** Base64, decimal and time texts are single words that read back as what they were made from. */
    ghost predicate Sound() {
      && (forall s :: decode64(encode64(s)) == Some(s) && NoSpace(encode64(s)) && (encode64(s) == "" ==> s == ""))
      && (forall n: nat :: atoi(itoa(n)) == Some(n) && NoSpace(itoa(n)) && itoa(n) != "")
      && (forall t :: NoSpace(formatTime(t)) && formatTime(t) != "")
      && (forall t :: 0 < t < YEAR_10000 && t % SECOND == 0 ==> parseTime(formatTime(t)) == Some(t))
    }

    /** A time that its own printed form denotes exactly. */
    predicate Printable(t: int) {
      parseTime(formatTime(t)) == Some(t)
    }

    function EncodeKey(key: Key): string {
      KEY_PREFIX + encode64(key)
    }

    function DecodeKey(s: string): Option<Key> {
      var t := TrimSpace(s);
      if t == "" then None
      else
        match decode64(if HasPrefix(t, KEY_PREFIX) then t[|KEY_PREFIX|..] else t)
        case None => None
        case Some(key) => if |key| == 32 then Some(key) else None
    }

    predicate ValidPin(s: string) {
      var t := TrimSpace(s);
      t != "" &&
      (var raw := decode64(if HasPrefix(t, "sha256/") then t[7..] else t); raw.Some? && |raw.value| == 32)
    }

    predicate VerifySignature(key: Key, message: string, sig: string) {
      var raw := decode64(TrimSpace(sig));
      raw.Some? && |raw.value| == 64 && edVerify(key, message, raw.value)
    }

    lemma KeyText(key: Key)
      requires Sound() && |key| == 32
      ensures DecodeKey(EncodeKey(key)) == Some(key) && NoSpace(EncodeKey(key)) && Tidy(EncodeKey(key))
    {
      var s := EncodeKey(key);
      assert NoSpace(s) by {
        assert forall c :: c in s ==> c in KEY_PREFIX || c in encode64(key);
        assert NoSpace(KEY_PREFIX);
      }
      assert s[0] in s && s[|s| - 1] in s;
      TidyUntouched(s);
      assert s[|KEY_PREFIX|..] == encode64(key);
    }

    /** A key text is good exactly when it holds the 32 bytes of an Ed25519 key. */
    lemma KeyTextIff(key: Key)
      requires Sound()
      ensures DecodeKey(EncodeKey(key)) == if |key| == 32 then Some(key) else None
    {
      if |key| == 32 {
        KeyText(key);
      } else {
        WordAfter(KEY_PREFIX, key);
      }
    }

    /** A pin is good exactly when it holds a SHA-256 digest, with or without its prefix. */
    lemma PinTextIff(digest: string)
      requires Sound()
      ensures ValidPin("sha256/" + encode64(digest)) <==> |digest| == 32
      ensures !HasPrefix(encode64(digest), "sha256/") ==> (ValidPin(encode64(digest)) <==> |digest| == 32)
    {
      WordAfter("sha256/", digest);
      WordAfter("", digest);
      assert "" + encode64(digest) == encode64(digest);
    }

    lemma WordAfter(prefix: string, bytes: string)
      requires Sound() && NoSpace(prefix)
      ensures TrimSpace(prefix + encode64(bytes)) == prefix + encode64(bytes)
      ensures HasPrefix(prefix + encode64(bytes), prefix) && (prefix + encode64(bytes))[|prefix|..] == encode64(bytes)
    {
      var s := prefix + encode64(bytes);
      assert forall c :: c in s ==> c in prefix || c in encode64(bytes);
      if s != "" {
        assert s[0] in s && s[|s| - 1] in s;
      }
      TidyUntouched(s);
    }

    /** The private half of this pair makes 64-byte signatures that check under the public half. */
    ghost predicate KeyPair(id: Identity) {
      |id.pub| == 32 && forall m :: |id.sign(m)| == 64 && edVerify(id.pub, m, id.sign(m))
    }

    /** Such a signature, as the text that is published, checks. */
    lemma SignatureText(id: Identity, message: string)
      requires Sound() && KeyPair(id)
      ensures var sig := encode64(id.sign(message)); VerifySignature(id.pub, message, sig) && NoSpace(sig) && Tidy(sig)
    {
      var sig := encode64(id.sign(message));
      assert sig[0] in sig && sig[|sig| - 1] in sig;
      TidyUntouched(sig);
    }
  }
}
