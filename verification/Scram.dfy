/**
 * contrib/crypto.c and io_stream.c: key derivation for SCRAM-SHA-1.  The hash is a parameter of which only the
 * digest size matters; the standards are RFC 2104 (HMAC) and RFC 5802 (Hi and the proofs).
 */
module Scram {
  import Bytes

  type octets = seq<bv8>

  const DIGEST_SIZE := 20
  const BLOCK_SIZE := 64

  type Hash = octets -> octets

  ghost predicate IsHash(h: Hash) {
    forall x :: |h(x)| == DIGEST_SIZE
  }

  // --- the standards ---

  function XorWith(a: octets, c: bv8): octets {
    seq(|a|, i requires 0 <= i < |a| => a[i] ^ c)
  }

  function Xor(a: octets, b: octets): octets
    requires |a| == |b|
  {
    seq(|a|, i requires 0 <= i < |a| => a[i] ^ b[i])
  }

  function Zeros(n: nat): octets {
    seq(n, i => 0)
  }

  /** Section 2 of RFC 2104: a long key is hashed, then zeros fill the block. */
  function BlockKey(h: Hash, key: octets): octets {
    var k := if |key| > BLOCK_SIZE then h(key) else key;
    if |k| <= BLOCK_SIZE then k + Zeros(BLOCK_SIZE - |k|) else k
  }

  /** H(K XOR opad, H(K XOR ipad, text)) */
  function Hmac(h: Hash, key: octets, text: octets): octets {
    h(XorWith(BlockKey(h, key), 0x5C) + h(XorWith(BlockKey(h, key), 0x36) + text))
  }

  /** U1 := HMAC(str, salt + INT(1)), Un := HMAC(str, Un-1): section 2.2 of RFC 5802. */
  function U(h: Hash, str: octets, salt: octets, n: nat): octets
    requires n >= 1
  {
    if n == 1 then Hmac(h, str, salt + [0, 0, 0, 1]) else Hmac(h, str, U(h, str, salt, n - 1))
  }

  /** Hi := U1 XOR U2 XOR ... XOR Ui */
  function Hi(h: Hash, str: octets, salt: octets, i: nat): (r: octets)
    requires i >= 1 && IsHash(h)
    ensures |r| == DIGEST_SIZE
  {
    if i == 1 then U(h, str, salt, 1) else Xor(Hi(h, str, salt, i - 1), U(h, str, salt, i))
  }

  // --- the code ---

  /** A hash context that data is fed into piece by piece. */
  class Context {
    const h: Hash
    var fed: octets

    constructor (h: Hash)
      ensures this.h == h && fed == []
    {
      this.h, fed := h, [];
    }

    method Init()
      modifies this
      ensures fed == []
    {
      fed := [];
    }

    method Update(data: octets)
      modifies this
      ensures fed == old(fed) + data
    {
      fed := fed + data;
    }

    method Final(out: array<bv8>)
      requires IsHash(h) && DIGEST_SIZE <= out.Length
      modifies out
      ensures out[..DIGEST_SIZE] == h(fed) && out[DIGEST_SIZE..] == old(out[DIGEST_SIZE..])
    {
      var digest := h(fed);
      forall i | 0 <= i < DIGEST_SIZE {
        out[i] := digest[i];
      }
    }
  }

  lemma XorWithEach(a: octets, c: bv8)
    ensures |XorWith(a, c)| == |a| && forall k :: 0 <= k < |a| ==> XorWith(a, c)[k] == a[k] ^ c
  {
  }

  /** php_mongo_hash_string_xor_char; `out` may be `in_`. */
  method StringXorChar(out: array<bv8>, in_: array<bv8>, with: bv8, length: nat)
    requires length <= out.Length && length <= in_.Length
    modifies out
    ensures out[..length] == XorWith(old(in_[..length]), with) && out[length..] == old(out[length..])
  {
    hide XorWith;
    ghost var was, target := in_[..], XorWith(in_[..length], with);
    XorWithEach(was[..length], with);
    var i := 0;
    while i < length
      invariant i <= length
      invariant forall k :: 0 <= k < i ==> out[k] == target[k]
      invariant forall k :: i <= k < length ==> in_[k] == was[k]
      invariant forall k :: length <= k < out.Length ==> out[k] == old(out[k])
    {
      out[i] := in_[i] ^ with;
      i := i + 1;
    }
  }

  /** php_mongo_hash_string_xor; `out` may be `in_`. */
  method StringXor(out: array<bv8>, in_: array<bv8>, with: array<bv8>, length: nat)
    requires length <= out.Length && length <= in_.Length && length <= with.Length && out != with
    modifies out
    ensures out[..length] == Xor(old(in_[..length]), with[..length]) && out[length..] == old(out[length..])
  {
    ghost var was, target := in_[..], Xor(in_[..length], with[..length]);
    var i := 0;
    while i < length
      invariant i <= length
      invariant forall k :: 0 <= k < i ==> out[k] == target[k]
      invariant forall k :: i <= k < length ==> in_[k] == was[k]
      invariant forall k :: length <= k < out.Length ==> out[k] == old(out[k])
    {
      out[i] := in_[i] ^ with[i];
      i := i + 1;
    }
  }

  /** php_mongo_hash_hmac_prep_key: K becomes the inner padded key. */
  method PrepKey(K: array<bv8>, context: Context, key: octets)
    requires IsHash(context.h) && K.Length == BLOCK_SIZE
    modifies K, context
    ensures K[..] == XorWith(BlockKey(context.h, key), 0x36)
  {
    forall i | 0 <= i < BLOCK_SIZE {
      K[i] := 0;
    }
    if |key| > BLOCK_SIZE {
      context.Init();
      context.Update(key);
      context.Final(K);
      assert context.fed == key;
      assert K[..] == K[..DIGEST_SIZE] + K[DIGEST_SIZE..];
    } else {
      forall i | 0 <= i < |key| {
        K[i] := key[i];
      }
    }
    assert K[..] == BlockKey(context.h, key);
    assert K[..] == K[..BLOCK_SIZE];
    StringXorChar(K, K, 0x36, BLOCK_SIZE);
    assert K[..] == K[..BLOCK_SIZE];
  }

  /** php_mongo_hash_hmac_round; the digest may overwrite the data it was made from. */
  method HmacRound(final: array<bv8>, context: Context, key: array<bv8>, data: octets)
    requires IsHash(context.h) && key.Length == BLOCK_SIZE && DIGEST_SIZE <= final.Length
    modifies final, context
    ensures final[..DIGEST_SIZE] == context.h(old(key[..]) + data) && final[DIGEST_SIZE..] == old(final[DIGEST_SIZE..])
  {
    context.Init();
    context.Update(key[..]);
    context.Update(data);
    assert context.fed == old(key[..]) + data;
    context.Final(final);
  }

  lemma InnerToOuter(k: octets)
    ensures XorWith(XorWith(k, 0x36), 0x6A) == XorWith(k, 0x5C)
  {
    forall i | 0 <= i < |k|
      ensures (k[i] ^ 0x36) ^ 0x6A == k[i] ^ 0x5C
    {
      PadsMeet(k[i]);
    }
  }

  lemma PadsMeet(b: bv8)
    ensures (b ^ 0x36) ^ 0x6A == b ^ 0x5C
  {
  }

  /** php_mongo_hmac */
  method HmacOf(h: Hash, data: octets, key: octets, returnValue: array<bv8>)
    requires IsHash(h) && DIGEST_SIZE <= returnValue.Length
    modifies returnValue
    ensures returnValue[..DIGEST_SIZE] == Hmac(h, key, data)
    ensures returnValue[DIGEST_SIZE..] == old(returnValue[DIGEST_SIZE..])
  {
    var context := new Context(h);
    var K := new bv8[BLOCK_SIZE];
    PrepKey(K, context, key);
    HmacRound(returnValue, context, K, data);
    assert K[..] == K[..BLOCK_SIZE];
    StringXorChar(K, K, 0x6A, BLOCK_SIZE);
    assert K[..] == K[..BLOCK_SIZE];
    InnerToOuter(BlockKey(h, key));
    HmacRound(returnValue, context, K, returnValue[..DIGEST_SIZE]);
    forall i | 0 <= i < BLOCK_SIZE {
      K[i] := 0;
    }
  }

  /** pack("N", i) */
  function BigEndian(i: nat): octets {
    [(i / 0x100_0000 % 256) as bv8, (i / 0x1_0000 % 256) as bv8, (i / 0x100 % 256) as bv8, (i % 256) as bv8]
  }

  /** Both rounds of one HMAC with prepared keys, in place. */
  method TwoRounds(digest: array<bv8>, context: Context, K1: array<bv8>, K2: array<bv8>, data: octets,
                   ghost key: octets)
    requires IsHash(context.h) && K1.Length == K2.Length == BLOCK_SIZE && digest.Length == DIGEST_SIZE
    requires digest != K1 && digest != K2
    requires K1[..] == XorWith(BlockKey(context.h, key), 0x36) && K2[..] == XorWith(BlockKey(context.h, key), 0x5C)
    modifies digest, context
    ensures digest[..] == Hmac(context.h, key, data)
  {
    HmacRound(digest, context, K1, data);
    assert digest[..] == digest[..DIGEST_SIZE];
    HmacRound(digest, context, K2, digest[..]);
    assert digest[..] == digest[..DIGEST_SIZE];
  }

  /** The iterations for one block of PBKDF2. */
  method Iterate(digest: array<bv8>, temp: array<bv8>, context: Context, K1: array<bv8>, K2: array<bv8>,
                 computedSalt: octets, iterations: nat, ghost key: octets, ghost salt: octets)
    requires IsHash(context.h) && K1.Length == K2.Length == BLOCK_SIZE && digest.Length == temp.Length == DIGEST_SIZE
    requires digest != K1 && digest != K2 && temp != K1 && temp != K2 && temp != digest && iterations >= 1
    requires computedSalt == salt + [0, 0, 0, 1]
    requires K1[..] == XorWith(BlockKey(context.h, key), 0x36) && K2[..] == XorWith(BlockKey(context.h, key), 0x5C)
    modifies digest, temp, context
    ensures temp[..] == Hi(context.h, key, salt, iterations)
  {
    hide Hmac, BlockKey, Xor, XorWith;
    TwoRounds(digest, context, K1, K2, computedSalt, key);
    forall i | 0 <= i < DIGEST_SIZE {
      temp[i] := digest[i];
    }
    assert temp[..] == digest[..];
    var j := 1;
    while j < iterations
      invariant 1 <= j <= iterations
      invariant digest[..] == U(context.h, key, salt, j)
      invariant temp[..] == Hi(context.h, key, salt, j)
    {
      TwoRounds(digest, context, K1, K2, digest[..], key);
      assert temp[..] == temp[..DIGEST_SIZE] && digest[..] == digest[..DIGEST_SIZE];
      StringXor(temp, temp, digest, DIGEST_SIZE);
      assert temp[..] == temp[..DIGEST_SIZE];
      j := j + 1;
    }
  }

  lemma FirstBlock()
    ensures BigEndian(1) == [0, 0, 0, 1]
  {
  }

  /** The blocks of key material, of which there is one. */
  method Derive(context: Context, K1: array<bv8>, K2: array<bv8>, salt: octets, iterations: nat, loops: nat,
                ghost key: octets)
    returns (result: array<bv8>)
    requires IsHash(context.h) && K1.Length == K2.Length == BLOCK_SIZE && iterations >= 1 && loops == 1
    requires K1[..] == XorWith(BlockKey(context.h, key), 0x36) && K2[..] == XorWith(BlockKey(context.h, key), 0x5C)
    modifies context
    ensures fresh(result) && result[..] == Hi(context.h, key, salt, iterations)
  {
    hide Hmac, BlockKey, Hi, XorWith, BigEndian;
    result := new bv8[loops * DIGEST_SIZE];
    var digest, temp := new bv8[DIGEST_SIZE], new bv8[DIGEST_SIZE];
    var i := 1;
    while i <= loops
      invariant 1 <= i <= loops + 1
      invariant i == 2 ==> result[..] == Hi(context.h, key, salt, iterations)
      invariant K1[..] == old(K1[..]) && K2[..] == old(K2[..])
      modifies result, digest, temp, context
    {
      var computedSalt := salt + BigEndian(i);
      FirstBlock();
      Iterate(digest, temp, context, K1, K2, computedSalt, iterations, key, salt);
      forall k | 0 <= k < DIGEST_SIZE {
        result[(i - 1) * DIGEST_SIZE + k] := temp[k];
      }
      assert result[..] == temp[..];
      i := i + 1;
    }
  }

  /** php_mongo_hash_pbkdf2_sha1: one digest of key material. */
  method Pbkdf2(h: Hash, password: octets, salt: octets, iterations: int, returnValue: array<bv8>)
    returns (ok: bool, length: nat)
    requires IsHash(h) && DIGEST_SIZE <= returnValue.Length
    modifies returnValue
    ensures ok <==> 0 < iterations && |salt| <= Bytes.INT_MAX - 4
    ensures ok ==> length == DIGEST_SIZE && returnValue[..DIGEST_SIZE] == Hi(h, password, salt, iterations)
    ensures !ok ==> returnValue[..] == old(returnValue[..])
  {
    hide Hmac, BlockKey, Hi;
    if iterations <= 0 || |salt| > Bytes.INT_MAX - 4 {
      return false, 0;
    }
    var context := new Context(h);
    var K1, K2 := new bv8[BLOCK_SIZE], new bv8[BLOCK_SIZE];
    PrepKey(K1, context, password);
    assert K1[..] == K1[..BLOCK_SIZE];
    StringXorChar(K2, K1, 0x6A, BLOCK_SIZE);
    assert K2[..] == K2[..BLOCK_SIZE];
    InnerToOuter(BlockKey(h, password));
    length := DIGEST_SIZE;
    var result := Derive(context, K1, K2, salt, iterations, (length + DIGEST_SIZE - 1) / DIGEST_SIZE, password);
    forall k | 0 <= k < length {
      returnValue[k] := result[k];
    }
    assert returnValue[..DIGEST_SIZE] == result[..];
    ok := true;
  }

  // --- the proof: section 3 of RFC 5802 ---

  function Text(s: string): octets {
    seq(|s|, i requires 0 <= i < |s| => (s[i] as int % 256) as bv8)
  }

  function ClientKey(h: Hash, saltedPassword: octets): octets {
    Hmac(h, saltedPassword, Text("Client Key"))
  }

  function ServerKey(h: Hash, saltedPassword: octets): octets {
    Hmac(h, saltedPassword, Text("Server Key"))
  }

  function StoredKey(h: Hash, saltedPassword: octets): octets {
    h(ClientKey(h, saltedPassword))
  }

  /** client-first-message-bare, server-first-message and client-final-message-without-proof, joined by commas. */
  function AuthMessage(saslName: octets, cNonce: octets, serverFirst: octets, nonce: octets): octets {
    (Text("n=") + saslName + Text(",r=") + cNonce) + Text(",") + serverFirst + Text(",") + (Text("c=biws,") + nonce)
  }

  function ClientProof(h: Hash, saltedPassword: octets, auth: octets): octets
    requires IsHash(h)
  {
    Xor(ClientKey(h, saltedPassword), Hmac(h, StoredKey(h, saltedPassword), auth))
  }

  /** php_mongo_io_make_client_proof, with the salt decoded and the proof not yet encoded. */
  method MakeClientProof(h: Hash, username: octets, password: octets, salt: octets, iterations: int,
                         serverFirst: octets, cNonce: octets, sNonce: octets, serverSignature: array<bv8>)
    returns (proof: octets)
    requires IsHash(h) && DIGEST_SIZE <= serverSignature.Length
    requires 0 < iterations && |salt| <= Bytes.INT_MAX - 4
    modifies serverSignature
    ensures var salted := Hi(h, password, salt, iterations);
            var auth := AuthMessage(username, cNonce, serverFirst, sNonce);
            && proof == ClientProof(h, salted, auth)
            && serverSignature[..DIGEST_SIZE] == Hmac(h, ServerKey(h, salted), auth)
  {
    hide Hmac, Hi, Text, AuthMessage, Xor;
    var saltedPassword, clientKey := new bv8[DIGEST_SIZE], new bv8[DIGEST_SIZE];
    var clientSignature, serverKey := new bv8[DIGEST_SIZE], new bv8[DIGEST_SIZE];
    var ok, length := Pbkdf2(h, password, salt, iterations, saltedPassword);
    var salted := saltedPassword[..length];
    HmacOf(h, Text("Client Key"), salted, clientKey);
    var key := clientKey[..DIGEST_SIZE];
    var auth := Text("n=") + username + Text(",r=") + cNonce + Text(",") + serverFirst + Text(",c=biws,") + sNonce;
    AuthMessageIsJoined(username, cNonce, serverFirst, sNonce);
    HmacOf(h, auth, h(key), clientSignature);
    proof := ProofBytes(key, clientSignature[..DIGEST_SIZE]);
    HmacOf(h, Text("Server Key"), salted, serverKey);
    HmacOf(h, auth, serverKey[..DIGEST_SIZE], serverSignature);
  }

  /** The loop that fills client_proof. */
  method ProofBytes(clientKey: octets, clientSignature: octets) returns (proof: octets)
    requires |clientKey| == |clientSignature| == DIGEST_SIZE
    ensures proof == Xor(clientKey, clientSignature)
  {
    var clientProof := new bv8[DIGEST_SIZE];
    var i := 0;
    while i < DIGEST_SIZE
      invariant i <= DIGEST_SIZE
      invariant clientProof[..i] == Xor(clientKey, clientSignature)[..i]
    {
      clientProof[i] := clientKey[i] ^ clientSignature[i];
      i := i + 1;
    }
    proof := clientProof[..DIGEST_SIZE];
  }

  lemma AuthMessageIsJoined(u: octets, c: octets, s: octets, n: octets)
    ensures Text("n=") + u + Text(",r=") + c + Text(",") + s + Text(",c=biws,") + n == AuthMessage(u, c, s, n)
  {
    hide Text;
    CommaApart();
    Rejoined(Text("n=") + u + Text(",r=") + c + Text(",") + s, Text(","), Text("c=biws,"), n);
  }

  lemma CommaApart()
    ensures Text(",c=biws,") == Text(",") + Text("c=biws,")
  {
    hide Text;
    TextJoins(",", "c=biws,");
    assert ",c=biws," == "," + "c=biws,";
  }

  lemma TextJoins(s: string, t: string)
    ensures Text(s + t) == Text(s) + Text(t)
  {
  }

  lemma Rejoined(a: octets, b: octets, c: octets, d: octets)
    ensures a + (b + c) + d == a + b + (c + d)
  {
  }

  lemma XorTwice(a: octets, b: octets)
    requires |a| == |b|
    ensures Xor(Xor(a, b), b) == a
  {
    forall i | 0 <= i < |a|
      ensures (a[i] ^ b[i]) ^ b[i] == a[i]
    {
      BitsTwice(a[i], b[i]);
    }
  }

  lemma BitsTwice(a: bv8, b: bv8)
    ensures (a ^ b) ^ b == a
  {
  }

  /** Each iteration adds its U to what Hi was before, and nothing is lost of that. */
  lemma EachIterationCounts(h: Hash, str: octets, salt: octets, i: nat)
    requires i >= 1 && IsHash(h)
    ensures |U(h, str, salt, i + 1)| == DIGEST_SIZE
    ensures Xor(Hi(h, str, salt, i + 1), Hi(h, str, salt, i)) == U(h, str, salt, i + 1)
    ensures Xor(Hi(h, str, salt, i + 1), U(h, str, salt, i + 1)) == Hi(h, str, salt, i)
  {
    hide Hmac;
    var was, more := Hi(h, str, salt, i), U(h, str, salt, i + 1);
    HmacSize(h, str, U(h, str, salt, i));
    XorTwice(was, more);
    XorTwice(more, was);
    XorSwaps(was, more);
  }

  lemma HmacSize(h: Hash, key: octets, text: octets)
    requires IsHash(h)
    ensures |Hmac(h, key, text)| == DIGEST_SIZE
  {
  }

  lemma XorSwaps(a: octets, b: octets)
    requires |a| == |b|
    ensures Xor(a, b) == Xor(b, a)
  {
    forall i | 0 <= i < |a|
      ensures a[i] ^ b[i] == b[i] ^ a[i]
    {
      BitsSwap(a[i], b[i]);
    }
  }

  lemma BitsSwap(a: bv8, b: bv8)
    ensures a ^ b == b ^ a
  {
  }

  /** A key of more than one block stands for its hash, and a shorter one for itself with zeros behind it. */
  lemma KeysAreFitted(h: Hash, key: octets, text: octets, zeros: nat)
    requires IsHash(h)
    ensures |key| > 64 ==> Hmac(h, key, text) == Hmac(h, h(key), text)
    ensures |key| + zeros <= 64 ==> Hmac(h, key + Zeros(zeros), text) == Hmac(h, key, text)
  {
    if |key| > 64 {
      assert BlockKey(h, h(key)) == BlockKey(h, key);
    }
    if |key| + zeros <= 64 {
      assert BlockKey(h, key + Zeros(zeros)) == BlockKey(h, key);
    }
  }

  /**
   * A server that only knows StoredKey accepts the proof: taking the client signature off again gives a key that
   * hashes to StoredKey.  Nothing else of the digest's size would give that key.
   */
  lemma ProofHashesToStoredKey(h: Hash, saltedPassword: octets, auth: octets, other: octets)
    requires IsHash(h)
    ensures var signature := Hmac(h, StoredKey(h, saltedPassword), auth);
            var proof := ClientProof(h, saltedPassword, auth);
            && |proof| == |signature|
            && h(Xor(proof, signature)) == StoredKey(h, saltedPassword)
            && (|other| == |signature| && Xor(other, signature) == ClientKey(h, saltedPassword) ==> other == proof)
  {
    var signature := Hmac(h, StoredKey(h, saltedPassword), auth);
    XorTwice(ClientKey(h, saltedPassword), signature);
    if |other| == |signature| {
      XorTwice(other, signature);
    }
  }

  // --- user names in messages ---

  const COMMA: bv8 := 44
  const EQUALS: bv8 := 61
  const TWO: bv8 := 50
  const THREE: bv8 := 51
  const UPPER_C: bv8 := 67
  const UPPER_D: bv8 := 68

  /** Every occurrence of c replaced. */
  function Replaced(s: octets, c: bv8, with: octets): octets {
    if s == [] then []
    else Replaced(s[..|s| - 1], c, with) + if s[|s| - 1] == c then with else [s[|s| - 1]]
  }

  /** php_str_to_str for a needle of one character */
  method StrToStr(s: octets, c: bv8, with: octets) returns (r: octets)
    ensures r == Replaced(s, c, with)
  {
    r := [];
    var i := 0;
    while i < |s|
      invariant i <= |s| && r == Replaced(s[..i], c, with)
    {
      assert s[..i + 1][..i] == s[..i];
      r := r + if s[i] == c then with else [s[i]];
      i := i + 1;
    }
    assert s[..i] == s;
  }

  function SaslName(username: octets): octets {
    Replaced(Replaced(username, EQUALS, [EQUALS, THREE, UPPER_D]), COMMA, [EQUALS, TWO, UPPER_C])
  }

  /** The saslname of the exchange */
  method EscapeUsername(username: octets) returns (escaped: octets)
    ensures escaped == SaslName(username)
  {
    var tmp := StrToStr(username, EQUALS, [EQUALS, THREE, UPPER_D]);
    escaped := StrToStr(tmp, COMMA, [EQUALS, TWO, UPPER_C]);
  }

  datatype Name = Invalid | Name(octets: octets)

  /** How a server reads a saslname (section 5.1 of RFC 5802): other uses of '=' and any ',' are refused. */
  function Unescaped(s: octets): Name {
    if s == [] then Name([])
    else if s[0] == COMMA then Invalid
    else if s[0] != EQUALS then Prepend(s[0], Unescaped(s[1..]))
    else if |s| >= 3 && s[1] == TWO && s[2] == UPPER_C then Prepend(COMMA, Unescaped(s[3..]))
    else if |s| >= 3 && s[1] == THREE && s[2] == UPPER_D then Prepend(EQUALS, Unescaped(s[3..]))
    else Invalid
  }

  function Prepend(c: bv8, n: Name): Name {
    if n.Invalid? then Invalid else Name([c] + n.octets)
  }

  lemma {:induction false} ReplacedOfConcat(a: octets, b: octets, c: bv8, with: octets)
    ensures Replaced(a + b, c, with) == Replaced(a, c, with) + Replaced(b, c, with)
  {
    hide Replaced;
    if b == [] {
      assert a + b == a && Replaced([], c, with) == [] by { ReplacedNothing(c, with); }
    } else {
      var last := |b| - 1;
      ReplacedOfConcat(a, b[..last], c, with);
      assert b == b[..last] + [b[last]] && a + b == (a + b[..last]) + [b[last]];
      ReplacedLast(a + b[..last], b[last], c, with);
      ReplacedLast(b[..last], b[last], c, with);
    }
  }

  lemma ReplacedNothing(c: bv8, with: octets)
    ensures Replaced([], c, with) == []
  {
  }

  lemma ReplacedLast(s: octets, x: bv8, c: bv8, with: octets)
    ensures Replaced(s + [x], c, with) == Replaced(s, c, with) + if x == c then with else [x]
  {
    assert (s + [x])[..|s|] == s;
  }

  lemma ReplacedOne(s: bv8, c: bv8, with: octets)
    ensures Replaced([s], c, with) == if s == c then with else [s]
  {
    assert [s][..0] == [] && Replaced([], c, with) == [];
  }

  lemma SaslNameOfOne(c: bv8)
    ensures SaslName([c]) == if c == EQUALS then [EQUALS, THREE, UPPER_D]
                             else if c == COMMA then [EQUALS, TWO, UPPER_C] else [c]
  {
    ReplacedOne(c, EQUALS, [EQUALS, THREE, UPPER_D]);
    if c == EQUALS {
      NoComma([EQUALS, THREE, UPPER_D]);
    } else {
      ReplacedOne(c, COMMA, [EQUALS, TWO, UPPER_C]);
    }
  }

  lemma {:induction false} NoComma(s: octets)
    requires COMMA !in s
    ensures Replaced(s, COMMA, [EQUALS, TWO, UPPER_C]) == s
  {
    hide Replaced;
    if s == [] {
      ReplacedNothing(COMMA, [EQUALS, TWO, UPPER_C]);
    } else {
      var front := s[..|s| - 1];
      NoComma(front);
      ReplacedLast(front, s[|s| - 1], COMMA, [EQUALS, TWO, UPPER_C]);
      assert s == front + [s[|s| - 1]];
    }
  }

  /** Every user name survives the exchange, so different names are sent differently. */
  lemma {:induction false} SaslNameIsReadBack(username: octets)
    ensures Unescaped(SaslName(username)) == Name(username)
  {
    if username == [] {
    } else {
      var c, rest := username[0], username[1..];
      assert username == [c] + rest;
      SaslNameIsReadBack(rest);
      ReplacedOfConcat([c], rest, EQUALS, [EQUALS, THREE, UPPER_D]);
      ReplacedOfConcat(Replaced([c], EQUALS, [EQUALS, THREE, UPPER_D]),
                       Replaced(rest, EQUALS, [EQUALS, THREE, UPPER_D]),
                       COMMA, [EQUALS, TWO, UPPER_C]);
      SaslNameOfOne(c);
      Unfold(c, SaslName(rest));
    }
  }

  lemma Unfold(c: bv8, tail: octets)
    ensures Unescaped(SaslName([c]) + tail) == Prepend(c, Unescaped(tail))
  {
    SaslNameOfOne(c);
    var s := SaslName([c]) + tail;
    if c == EQUALS || c == COMMA {
      assert s[3..] == tail;
    } else {
      assert s[1..] == tail;
    }
  }
}
