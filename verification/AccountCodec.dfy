/**
 Virtual accounts: an NFT owns things through an account id that spells out its key.
 The id is the SCALE encoding of (salt, collection, nft), cut or zero-extended to the
 width of an account id.
 */
module AccountCodec {
  import opened Prelude

  /** The key of an NFT: `(CollectionId, NftId)`. */
  datatype Item = Item(collection: u32, id: u32)

  type byte = x: int | 0 <= x < 256

  /** b"RmrkNft/" */
  const SALT: seq<byte> := [0x52, 0x6D, 0x72, 0x6B, 0x4E, 0x66, 0x74, 0x2F]

  function Pow256(k: nat): nat {
    if k == 0 then 1 else 0x100 * Pow256(k - 1)
  }

  /** SCALE encoding of an unsigned integer of `k` bytes: fixed width, little end first. */
  function EncodeUint(n: nat, k: nat): (b: seq<byte>)
    ensures |b| == k
    decreases k
  {
    if k == 0 then [] else [n % 0x100] + EncodeUint(n / 0x100, k - 1)
  }

  function DecodeUint(b: seq<byte>): (n: nat)
    ensures n < Pow256(|b|)
  {
    if b == [] then 0
    else
      var low: int := b[0];
      low + 0x100 * DecodeUint(b[1..])
  }

  lemma {:induction false} UintRoundTrip(n: nat, k: nat)
    requires n < Pow256(k)
    ensures DecodeUint(EncodeUint(n, k)) == n
    decreases k
  {
    if k > 0 {
      UintRoundTrip(n / 0x100, k - 1);
      assert EncodeUint(n, k)[1..] == EncodeUint(n / 0x100, k - 1);
    }
  }

  lemma {:induction false} UintCanonical(b: seq<byte>)
    ensures EncodeUint(DecodeUint(b), |b|) == b
  {
    if b != [] {
      UintCanonical(b[1..]);
    }
  }

  lemma DivTwice(n: nat, a: nat, b: nat)
    requires a > 0 && b > 0
    ensures a * b > 0 && n / a / b == n / (a * b)
  {
    var q, r := n / a / b, n / a % b;
    assert n == a * (b * q + r) + n % a;
    assert a * (b * q + r) == a * b * q + a * r;
    assert a * r <= a * (b - 1) by { SameFactor(a, r, b - 1); }
    assert 0 <= a * r + n % a < a * b;
    Quotient(n, a * b, q, a * r + n % a);
  }

  lemma SameFactor(a: nat, x: nat, y: nat)
    requires x <= y
    ensures a * x <= a * y
  {
  }

  lemma Quotient(n: nat, d: nat, q: nat, r: nat)
    requires n == d * q + r && r < d
    ensures n / d == q
  {
    var p := n / d;
    assert n == d * p + n % d;
    if p < q {
      SameFactor(d, p + 1, q);
    } else if q < p {
      SameFactor(d, q + 1, p);
    }
  }

  /** Byte `i` of an encoded number is its digit `i` to base 256, counted from the lowest. */
  lemma {:induction false} EncodedDigit(n: nat, k: nat, i: nat)
    requires i < k
    ensures Pow256(i) > 0 && EncodeUint(n, k)[i] == n / Pow256(i) % 0x100
    decreases k
  {
    if i > 0 {
      EncodedDigit(n / 0x100, k - 1, i - 1);
      DivTwice(n, 0x100, Pow256(i - 1));
    }
  }

  function EncodeU32(n: u32): (b: seq<byte>)
    ensures |b| == 4
  {
    EncodeUint(n, 4)
  }

  function DecodeU32(b: seq<byte>): u32
    requires |b| == 4
  {
    DecodeUint(b)
  }

  lemma U32RoundTrip(n: u32)
    ensures DecodeU32(EncodeU32(n)) == n
  {
    UintRoundTrip(n, 4);
  }

  lemma U32Canonical(b: seq<byte>)
    requires |b| == 4
    ensures EncodeU32(DecodeU32(b)) == b
  {
    UintCanonical(b);
  }

  function Zeros(k: nat): (z: seq<byte>)
    ensures |z| == k
    ensures AllZero(z)
  {
    seq(k, _ => 0)
  }

  predicate AllZero(s: seq<byte>) {
    forall i :: 0 <= i < |s| ==> s[i] == 0
  }

  /** `nft_to_account_id`: an account id type of `width` bytes, read from a zero-extended input. */
  function NftToAccountId(width: nat, nft: Item): (account: seq<byte>)
    ensures |account| == width
  {
    (SALT + EncodeU32(nft.collection) + EncodeU32(nft.id) + Zeros(width))[..width]
  }

  /** `decode_nft_account_id` */
  function DecodeNftAccountId(account: seq<byte>): Option<Item> {
    if |account| < 16 then None
    else if account[..8] == SALT && AllZero(account[16..]) then
      Some(Item(DecodeU32(account[8..12]), DecodeU32(account[12..16])))
    else None
  }

  const SALT_TEXT := "RmrkNft/"

  /** The bytes of a virtual account: the salt as text, then collection and NFT id, lowest digit first, then zeros. */
  lemma AccountLayout(width: nat, nft: Item, i: nat)
    requires width >= 16 && i < width
    ensures i < 8 ==> NftToAccountId(width, nft)[i] as int == SALT_TEXT[i] as int
    ensures 8 <= i < 12 ==>
              Pow256(i - 8) > 0 && NftToAccountId(width, nft)[i] == nft.collection / Pow256(i - 8) % 0x100
    ensures 12 <= i < 16 ==>
              Pow256(i - 12) > 0 && NftToAccountId(width, nft)[i] == nft.id / Pow256(i - 12) % 0x100
    ensures 16 <= i ==> NftToAccountId(width, nft)[i] == 0
  {
    if 8 <= i < 12 {
      EncodedDigit(nft.collection, 4, i - 8);
    } else if 12 <= i < 16 {
      EncodedDigit(nft.id, 4, i - 12);
    }
  }

  /** The documented width condition is exact: 16 bytes are needed and enough. */
  lemma DecodeEncode(width: nat, nft: Item)
    ensures DecodeNftAccountId(NftToAccountId(width, nft)) == Some(nft) <==> width >= 16
  {
    var account := NftToAccountId(width, nft);
    if width >= 16 {
      assert account[..8] == SALT;
      var spelled := SALT + EncodeU32(nft.collection) + EncodeU32(nft.id);
      assert account[8..12] == spelled[8..12] == EncodeU32(nft.collection);
      assert account[12..16] == spelled[12..16] == EncodeU32(nft.id);
      assert account[16..] == Zeros(width)[..width - 16];
      U32RoundTrip(nft.collection);
      U32RoundTrip(nft.id);
    }
  }

  /** No second account decodes to an NFT: the salt and the zero suffix pin every byte. */
  lemma EncodeDecode(account: seq<byte>, nft: Item)
    requires DecodeNftAccountId(account) == Some(nft)
    ensures account == NftToAccountId(|account|, nft)
  {
    hide EncodeU32, DecodeU32;
    U32Canonical(account[8..12]);
    U32Canonical(account[12..16]);
    var spelled := SALT + EncodeU32(nft.collection) + EncodeU32(nft.id);
    assert account[..16] == account[..8] + account[8..12] + account[12..16];
    assert account[..16] == spelled;
    assert NftToAccountId(|account|, nft) == spelled + Zeros(|account|)[..|account| - 16];
    assert account == account[..16] + account[16..];
    assert account[16..] == Zeros(|account|)[..|account| - 16];
  }

  /**
   What the pallets can tell about an account: whether it decodes to an NFT, and which.
   The storage model works with accounts in this form; `ViewIsExact` says nothing is lost.
   */
  datatype Account = User(bytes: seq<byte>) | Virtual(item: Item)

  function View(account: seq<byte>): Account {
    match DecodeNftAccountId(account)
    case None => User(account)
    case Some(nft) => Virtual(nft)
  }

  function Bytes(width: nat, account: Account): seq<byte> {
    match account
    case User(bytes) => bytes
    case Virtual(nft) => NftToAccountId(width, nft)
  }

  /** On account ids of any fixed width of at least 16 bytes, `View` is a bijection. */
  lemma ViewIsExact(width: nat, account: seq<byte>, nft: Item)
    requires width >= 16 && |account| == width
    ensures Bytes(width, View(account)) == account
    ensures View(NftToAccountId(width, nft)) == Virtual(nft)
    ensures View(account) == Virtual(nft) <==> account == NftToAccountId(width, nft)
  {
    DecodeEncode(width, nft);
    if DecodeNftAccountId(account).Some? {
      EncodeDecode(account, DecodeNftAccountId(account).value);
    }
  }
}
