/** Wire primitives shared by every component: bytes, little-endian fields,
    the NetBIOS (NBT) session prefix and the flattening of a list of frames
    into the byte stream a socket carries.
 */
module Wire {

  type byte = b: int | 0 <= b < 256

  type bytes = seq<byte>

  datatype Option<+T> = None | Some(value: T)

  function Min(a: int, b: int): int { if a < b then a else b }

  function Max(a: int, b: int): int { if a < b then b else a }

  function Pow256(k: nat): (p: nat)
    ensures p >= 1
  {
    if k == 0 then 1 else 256 * Pow256(k - 1)
  }

  /** The low `k` bytes of `n`, least significant first. Writing a value into a
      narrower field keeps only its low bytes, as the narrowing casts do. */
  function Le(n: nat, k: nat): (s: bytes)
    ensures |s| == k
  {
    if k == 0 then [] else [n % 256] + Le(n / 256, k - 1)
  }

  function FromLe(s: bytes): nat {
    if s == [] then 0 else s[0] + 256 * FromLe(s[1..])
  }

  /** The values one, two, four and eight bytes can hold. */
  lemma PowWidths()
    ensures Pow256(1) == 0x100 && Pow256(2) == 0x1_0000
    ensures Pow256(4) == 0x1_0000_0000 && Pow256(8) == 0x1_0000_0000_0000_0000
  {
    assert Pow256(2) == 256 * Pow256(1);
    assert Pow256(4) == 256 * (256 * Pow256(2));
    assert Pow256(6) == 256 * (256 * Pow256(4));
    assert Pow256(8) == 256 * (256 * Pow256(6));
  }

  function Zeros(n: nat): (s: bytes)
    ensures |s| == n && forall i :: 0 <= i < n ==> s[i] == 0
  {
    seq(n, _ => 0)
  }

  /** A little-endian field holds a value exactly when the value fits. */
  lemma {:induction false} LeRoundTrip(n: nat, k: nat)
    ensures FromLe(Le(n, k)) == n <==> n < Pow256(k)
    ensures FromLe(Le(n, k)) < Pow256(k)
  {
    if k > 0 {
      var s := Le(n, k);
      assert s[1..] == Le(n / 256, k - 1);
      LeRoundTrip(n / 256, k - 1);
    }
  }

  lemma {:induction false} FromLeZeros(n: nat)
    ensures FromLe(Zeros(n)) == 0
  {
    if n > 0 {
      assert Zeros(n)[1..] == Zeros(n - 1);
      FromLeZeros(n - 1);
    }
  }

  // ------------------------------------------------------------- alignment

  /** The padding up to the next multiple of eight. */
  function Pad8(n: nat): nat {
    if n >= 8 then Pad8(n - 8) else if n == 0 then 0 else 8 - n
  }

  lemma {:induction false} PadUp(n: nat)
    ensures (n + Pad8(n)) % 8 == 0 && 0 <= Pad8(n) < 8
  {
    if n >= 8 { PadUp(n - 8); }
  }

  lemma AddEighths(a: nat, b: nat)
    requires a % 8 == 0 && b % 8 == 0
    ensures (a + b) % 8 == 0
  {
  }

  // ------------------------------------------------------------ NBT frames

  /** The NBT session prefix for a payload of `n` bytes; only the low 24 bits of
      the length are carried. */
  function NbtPrefix(n: nat): (p: bytes)
    ensures |p| == 4
  {
    [0, n / 0x1_0000 % 256, n / 256 % 256, n % 256]
  }

  /** The payload length a prefix declares. */
  function NbtLength(p: bytes): nat
    requires |p| >= 4
  {
    p[1] as int * 0x1_0000 + p[2] as int * 256 + p[3] as int
  }

  /** One whole session message: the prefix declares exactly the payload that follows. */
  predicate Framed(f: bytes) {
    |f| >= 4 && f[0] == 0 && NbtLength(f) == |f| - 4
  }

  predicate AllFramed(fs: seq<bytes>) {
    forall i :: 0 <= i < |fs| ==> Framed(fs[i])
  }

  /** A prefix plus a payload is a whole frame exactly when the length fits 24 bits. */
  lemma FramedIff(payload: bytes)
    ensures Framed(NbtPrefix(|payload|) + payload) <==> |payload| < 0x100_0000
  {
    var n := |payload|;
    var f := NbtPrefix(n) + payload;
    assert f[0] == 0 && f[1] == n / 0x1_0000 % 256 && f[2] == n / 256 % 256 && f[3] == n % 256;
    assert n / 256 == n / 0x1_0000 * 256 + n / 256 % 256;
    if n < 0x100_0000 {
      assert n / 0x1_0000 % 256 == n / 0x1_0000;
    }
  }

  function Flatten(fs: seq<bytes>): bytes {
    if fs == [] then [] else Flatten(fs[..|fs| - 1]) + fs[|fs| - 1]
  }

  lemma FlattenSnoc(fs: seq<bytes>, f: bytes)
    ensures Flatten(fs + [f]) == Flatten(fs) + f
  {
    assert (fs + [f])[..|fs|] == fs;
  }

  lemma {:induction false} FlattenAppend(fs: seq<bytes>, gs: seq<bytes>)
    ensures Flatten(fs + gs) == Flatten(fs) + Flatten(gs)
  {
    if gs == [] {
      assert fs + gs == fs;
    } else {
      var k := |gs| - 1;
      assert fs + gs == (fs + gs[..k]) + [gs[k]];
      FlattenSnoc(fs + gs[..k], gs[k]);
      FlattenAppend(fs, gs[..k]);
    }
  }

  lemma InitLast<T>(s: seq<T>)
    requires s != []
    ensures s == s[..|s| - 1] + [s[|s| - 1]]
  {
  }

  lemma Assoc<T>(a: seq<T>, b: seq<T>, c: seq<T>)
    ensures a + b + c == a + (b + c)
  {
  }

  lemma Cut<T>(s: seq<T>, i: nat)
    requires i < |s|
    ensures s == s[..i] + [s[i]] + s[i + 1..]
  {
  }
}
