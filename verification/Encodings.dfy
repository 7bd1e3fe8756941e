/**
 Hashes and signatures that meet what the ledger assumes of them: encodings that can be read
 back off the front of a byte string.
 */
module Encodings {
  import opened Wrappers
  import opened Ledger

  function EncodeNat(n: nat): (e: Bytes)
    ensures e != []
  {
    if n == 0 then [1] else [0] + EncodeNat(n - 1)
  }

  function EncodeInt(i: int): Bytes {
    EncodeNat(if i >= 0 then 2 * i else -2 * i - 1)
  }

  function EncodeBytes(b: Bytes): Bytes {
    EncodeNat(|b|) + b
  }

  function EncodeKeys(keys: seq<Key>): Bytes {
    if keys == [] then [0] else [1] + EncodeBytes(keys[0]) + EncodeKeys(keys[1..])
  }

  function EncodeInput(input: Input): Bytes {
    match input
    case Data(bytes) => [0] + EncodeBytes(bytes)
    case Command(order, variation, keys) => [1] + EncodeCommand(input)
  }

  function EncodeCommand(input: Input): Bytes
    requires input.Command?
  {
    EncodeInt(input.order) + (EncodeInt(input.variation) + EncodeKeys(input.newValidatorSet))
  }

  function EncodeTransaction(t: Transaction): Bytes {
    EncodeBytes(t.hash)
    + (EncodeBytes(t.signature) + (EncodeBytes(t.from) + (EncodeInput(t.input) + EncodeInt(t.timestamp))))
  }

  function EncodeAll(txs: seq<Transaction>): Bytes {
    if txs == [] then [0] else [1] + EncodeTransaction(txs[0]) + EncodeAll(txs[1..])
  }

  lemma {:induction false} NatReadsBack(m: nat, n: nat, r: Bytes, s: Bytes)
    requires EncodeNat(m) + r == EncodeNat(n) + s
    ensures m == n && r == s
  {
    assert (EncodeNat(m) + r)[0] == EncodeNat(m)[0] && (EncodeNat(n) + s)[0] == EncodeNat(n)[0];
    assert (EncodeNat(m) + r)[1..] == EncodeNat(m)[1..] + r && (EncodeNat(n) + s)[1..] == EncodeNat(n)[1..] + s;
    if m > 0 && n > 0 {
      NatReadsBack(m - 1, n - 1, r, s);
    }
  }

  lemma IntReadsBack(i: int, j: int, r: Bytes, s: Bytes)
    requires EncodeInt(i) + r == EncodeInt(j) + s
    ensures i == j && r == s
  {
    NatReadsBack(if i >= 0 then 2 * i else -2 * i - 1, if j >= 0 then 2 * j else -2 * j - 1, r, s);
  }

  lemma BytesReadBack(a: Bytes, b: Bytes, r: Bytes, s: Bytes)
    requires EncodeBytes(a) + r == EncodeBytes(b) + s
    ensures a == b && r == s
  {
    assert EncodeBytes(a) + r == EncodeNat(|a|) + (a + r) && EncodeBytes(b) + s == EncodeNat(|b|) + (b + s);
    NatReadsBack(|a|, |b|, a + r, b + s);
    assert a == (a + r)[..|a|] && b == (b + s)[..|a|] && r == (a + r)[|a|..] && s == (b + s)[|a|..];
  }

  lemma {:induction false} KeysReadBack(a: seq<Key>, b: seq<Key>, r: Bytes, s: Bytes)
    requires EncodeKeys(a) + r == EncodeKeys(b) + s
    ensures a == b && r == s
  {
    hide EncodeBytes;
    var x, y := EncodeKeys(a) + r, EncodeKeys(b) + s;
    assert x[0] == EncodeKeys(a)[0] && y[0] == EncodeKeys(b)[0];
    if a == [] || b == [] {
      assert a == b;
      assert r == x[1..] && s == y[1..];
    } else {
      assert x[1..] == EncodeBytes(a[0]) + (EncodeKeys(a[1..]) + r)
        && y[1..] == EncodeBytes(b[0]) + (EncodeKeys(b[1..]) + s);
      BytesReadBack(a[0], b[0], EncodeKeys(a[1..]) + r, EncodeKeys(b[1..]) + s);
      KeysReadBack(a[1..], b[1..], r, s);
      assert a == [a[0]] + a[1..] && b == [b[0]] + b[1..];
    }
  }

  lemma InputReadsBack(a: Input, b: Input, r: Bytes, s: Bytes)
    requires EncodeInput(a) + r == EncodeInput(b) + s
    ensures a == b && r == s
  {
    hide EncodeBytes, EncodeCommand;
    var x, y := Tail(a), Tail(b);
    assert EncodeInput(a) == [if a.Data? then 0 else 1] + x && EncodeInput(b) == [if b.Data? then 0 else 1] + y;
    OneByte(if a.Data? then 0 else 1, x, r);
    OneByte(if b.Data? then 0 else 1, y, s);
    if a.Data? && b.Data? {
      BytesReadBack(a.bytes, b.bytes, r, s);
    } else if a.Command? && b.Command? {
      CommandReadsBack(a, b, r, s);
    }
  }

  function Tail(input: Input): Bytes {
    if input.Data? then EncodeBytes(input.bytes) else EncodeCommand(input)
  }

  lemma OneByte(c: Byte, x: Bytes, r: Bytes)
    ensures ([c] + x + r)[0] == c && ([c] + x + r)[1..] == x + r
  {
  }

  lemma CommandReadsBack(a: Input, b: Input, r: Bytes, s: Bytes)
    requires a.Command? && b.Command? && EncodeCommand(a) + r == EncodeCommand(b) + s
    ensures a == b && r == s
  {
    hide EncodeInt, EncodeKeys;
    var a1, b1 := EncodeKeys(a.newValidatorSet) + r, EncodeKeys(b.newValidatorSet) + s;
    var a2, b2 := EncodeInt(a.variation) + a1, EncodeInt(b.variation) + b1;
    assert EncodeCommand(a) + r == EncodeInt(a.order) + a2;
    assert EncodeCommand(b) + s == EncodeInt(b.order) + b2;
    IntReadsBack(a.order, b.order, a2, b2);
    IntReadsBack(a.variation, b.variation, a1, b1);
    KeysReadBack(a.newValidatorSet, b.newValidatorSet, r, s);
  }

  lemma TransactionReadsBack(a: Transaction, b: Transaction, r: Bytes, s: Bytes)
    requires EncodeTransaction(a) + r == EncodeTransaction(b) + s
    ensures a == b && r == s
  {
    hide EncodeBytes, EncodeInt, EncodeInput;
    var a1, b1 := EncodeInt(a.timestamp) + r, EncodeInt(b.timestamp) + s;
    var a2, b2 := EncodeInput(a.input) + a1, EncodeInput(b.input) + b1;
    var a3, b3 := EncodeBytes(a.from) + a2, EncodeBytes(b.from) + b2;
    var a4, b4 := EncodeBytes(a.signature) + a3, EncodeBytes(b.signature) + b3;
    assert EncodeTransaction(a) + r == EncodeBytes(a.hash) + a4;
    assert EncodeTransaction(b) + s == EncodeBytes(b.hash) + b4;
    BytesReadBack(a.hash, b.hash, a4, b4);
    BytesReadBack(a.signature, b.signature, a3, b3);
    BytesReadBack(a.from, b.from, a2, b2);
    InputReadsBack(a.input, b.input, a1, b1);
    IntReadsBack(a.timestamp, b.timestamp, r, s);
  }

  lemma {:induction false} AllReadBack(a: seq<Transaction>, b: seq<Transaction>, r: Bytes, s: Bytes)
    requires EncodeAll(a) + r == EncodeAll(b) + s
    ensures a == b && r == s
  {
    hide EncodeTransaction;
    var x, y := EncodeAll(a) + r, EncodeAll(b) + s;
    assert x[0] == EncodeAll(a)[0] && y[0] == EncodeAll(b)[0];
    if a == [] || b == [] {
      assert a == b;
      assert r == x[1..] && s == y[1..];
    } else {
      assert x[1..] == EncodeTransaction(a[0]) + (EncodeAll(a[1..]) + r)
        && y[1..] == EncodeTransaction(b[0]) + (EncodeAll(b[1..]) + s);
      TransactionReadsBack(a[0], b[0], EncodeAll(a[1..]) + r, EncodeAll(b[1..]) + s);
      AllReadBack(a[1..], b[1..], r, s);
      assert a == [a[0]] + a[1..] && b == [b[0]] + b[1..];
    }
  }

  function HashBlock(t: int, l: Bytes, x: seq<Transaction>): Bytes {
    EncodeInt(t) + (EncodeBytes(l) + EncodeAll(x))
  }

  function Sign(k: Key, m: Bytes): Bytes {
    EncodeBytes(k) + m
  }

  function EncodedCrypto(): Crypto {
    Crypto((t, l, x) => HashBlock(t, l, x), (k, m) => Sign(k, m), t => true)
  }

  lemma EncodedIsSound()
    ensures Sound(EncodedCrypto())
  {
    hide EncodeInt, EncodeBytes, EncodeAll;
    forall t, l, x, t', l', x' | HashBlock(t, l, x) == HashBlock(t', l', x')
      ensures t == t' && l == l' && x == x'
    {
      IntReadsBack(t, t', EncodeBytes(l) + EncodeAll(x), EncodeBytes(l') + EncodeAll(x'));
      BytesReadBack(l, l', EncodeAll(x), EncodeAll(x'));
      assert EncodeAll(x) + [] == EncodeAll(x') + [];
      AllReadBack(x, x', [], []);
    }
    forall t, l, x
      ensures HashBlock(t, l, x) != []
    {
      IntIsLong(t);
    }
    forall k, m, k', m' | Sign(k, m) == Sign(k', m')
      ensures k == k' && m == m'
    {
      BytesReadBack(k, k', m, m');
    }
  }

  lemma IntIsLong(i: int)
    ensures EncodeInt(i) != []
  {
  }
}
