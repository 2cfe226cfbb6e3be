/** The little-endian byte stream the nav-file decoder reads from.
    The stream is an immutable byte sequence plus a byte position: every read the
    decoder makes is a whole number of bytes on a byte-aligned stream, so the bit
    cursor of the underlying reader never stands between two bytes. */
module Wire {

  newtype u8 = x: int | 0 <= x < 0x100
  newtype u16 = x: int | 0 <= x < 0x1_0000
  newtype u32 = x: int | 0 <= x < 0x1_0000_0000

  /** An IEEE-754 single-precision value, kept as its 32-bit pattern.
      The decoder only copies floats, it never computes with them. */
  datatype F32 = F32(bits: u32)

  /** Positive zero, the value a defaulted float field holds. */
  const ZeroF32: F32 := F32(0)

  /** The reader's error: a read asked for more bits than are left. */
  datatype StreamError = NotEnoughData(requested: nat, bitsLeft: nat)

  /** The outcome of one read at a position: the value and the position after it,
      or the error that stopped it. */
  datatype Res<+T> = Ok(value: T, next: nat) | Fail(error: StreamError)

  /** A reader of one value at a position of a byte sequence. */
  type Decoder<T> = (seq<u8>, nat) -> Res<T>

  /** Number of bits between position `pos` and the end of `s`. */
  function BitsLeft(s: seq<u8>, pos: nat): nat {
    if pos <= |s| then 8 * (|s| - pos) else 0
  }

  /** The error a read of `n` bytes at `pos` reports when the data is too short. */
  function Short(s: seq<u8>, pos: nat, n: nat): StreamError {
    NotEnoughData(8 * n, BitsLeft(s, pos))
  }

  function Pow256(n: nat): (r: nat)
    ensures r >= 1
  {
    if n == 0 then 1 else 256 * Pow256(n - 1)
  }

  lemma {:induction false} Pow256Monotone(m: nat, n: nat)
    requires m <= n
    ensures Pow256(m) <= Pow256(n)
  {
    if m < n { Pow256Monotone(m, n - 1); }
  }

  /** The unsigned integer whose little-endian bytes are `b`. */
  function LittleEndian(b: seq<u8>): (v: nat)
    ensures v < Pow256(|b|)
  {
    if b == [] then 0 else b[0] as nat + 256 * LittleEndian(b[1..])
  }

  /** The `n` little-endian bytes of `v` (the low `8 * n` bits of `v`). */
  function EncodeUInt(v: nat, n: nat): (e: seq<u8>)
    ensures |e| == n
  {
    if n == 0 then [] else [(v % 256) as u8] + EncodeUInt(v / 256, n - 1)
  }

  lemma {:induction false} LittleEndianOfEncode(v: nat, n: nat)
    requires v < Pow256(n)
    ensures LittleEndian(EncodeUInt(v, n)) == v
  {
    if n > 0 {
      LittleEndianOfEncode(v / 256, n - 1);
      assert EncodeUInt(v, n)[1..] == EncodeUInt(v / 256, n - 1);
    }
  }

  lemma {:induction false} EncodeOfLittleEndian(b: seq<u8>)
    ensures EncodeUInt(LittleEndian(b), |b|) == b
  {
    if b != [] {
      var v := LittleEndian(b);
      assert v % 256 == b[0] as nat && v / 256 == LittleEndian(b[1..]);
      EncodeOfLittleEndian(b[1..]);
    }
  }

  function EncodeU8(v: u8): seq<u8> { EncodeUInt(v as nat, 1) }
  function EncodeU16(v: u16): seq<u8> { EncodeUInt(v as nat, 2) }
  function EncodeU32(v: u32): seq<u8> { EncodeUInt(v as nat, 4) }
  function EncodeF32(f: F32): seq<u8> { EncodeU32(f.bits) }

  /** Read an `n`-byte little-endian unsigned integer (the reader's `read_int`
      with `8 * n` bits). */
  function ReadUInt(s: seq<u8>, pos: nat, n: nat): (r: Res<nat>)
    ensures r.Ok? <==> pos + n <= |s|
    ensures r.Ok? ==> r.next == pos + n && r.value < Pow256(n)
    ensures r.Fail? ==> r.error == Short(s, pos, n)
  {
    if pos + n <= |s| then
      Ok(LittleEndian(s[pos..pos + n]), pos + n)
    else Fail(Short(s, pos, n))
  }

  function ReadU8(s: seq<u8>, pos: nat): Res<u8> {
    match ReadUInt(s, pos, 1) case Fail(err) => Fail(err) case Ok(v, q) =>
    Ok(v as u8, q)
  }

  function ReadU16(s: seq<u8>, pos: nat): Res<u16> {
    match ReadUInt(s, pos, 2) case Fail(err) => Fail(err) case Ok(v, q) =>
    Ok(v as u16, q)
  }

  function ReadU32(s: seq<u8>, pos: nat): Res<u32> {
    match ReadUInt(s, pos, 4) case Fail(err) => Fail(err) case Ok(v, q) =>
    Ok(v as u32, q)
  }

  /** A float is read as the 32-bit pattern of its little-endian bytes. */
  function ReadF32(s: seq<u8>, pos: nat): Res<F32> {
    match ReadU32(s, pos) case Fail(err) => Fail(err) case Ok(v, q) =>
    Ok(F32(v), q)
  }

  /** Read `n` raw bytes (the reader's fixed-length string read). */
  function ReadBytes(s: seq<u8>, pos: nat, n: nat): (r: Res<seq<u8>>)
    ensures r.Ok? <==> pos + n <= |s|
    ensures r.Ok? ==> r.next == pos + n && r.value == s[pos..pos + n]
    ensures r.Fail? ==> r.error == Short(s, pos, n)
  {
    if pos + n <= |s| then Ok(s[pos..pos + n], pos + n) else Fail(Short(s, pos, n))
  }

  /** Skip `n` bytes without interpreting them. */
  function SkipBytes(s: seq<u8>, pos: nat, n: nat): (r: Res<()>)
    ensures r.Ok? <==> pos + n <= |s|
    ensures r.Ok? ==> r.next == pos + n
    ensures r.Fail? ==> r.error == Short(s, pos, n)
  {
    if pos + n <= |s| then Ok((), pos + n) else Fail(Short(s, pos, n))
  }

  /** `s` holds the bytes `e` starting at position `pos`. Written byte by byte so
      that the verifier treats a layout fact as a unit until a lemma opens it. */
  predicate At(s: seq<u8>, pos: nat, e: seq<u8>)
    ensures At(s, pos, e) ==> pos + |e| <= |s|
    decreases |e|
  {
    if e == [] then pos <= |s| else pos < |s| && s[pos] == e[0] && At(s, pos + 1, e[1..])
  }

  /** `At` is the slice of `s` at `pos` being `e`. */
  lemma {:induction false} AtSlice(s: seq<u8>, pos: nat, e: seq<u8>)
    ensures At(s, pos, e) <==> pos + |e| <= |s| && s[pos..pos + |e|] == e
    decreases |e|
  {
    if e != [] {
      AtSlice(s, pos + 1, e[1..]);
      if pos + |e| <= |s| {
        assert s[pos..pos + |e|] == [s[pos]] + s[pos + 1..pos + 1 + |e[1..]|];
        assert e == [e[0]] + e[1..];
      }
    }
  }

  lemma AtConcat(s: seq<u8>, pos: nat, a: seq<u8>, b: seq<u8>)
    ensures At(s, pos, a + b) <==> At(s, pos, a) && At(s, pos + |a|, b)
  {
    AtSlice(s, pos, a + b);
    AtSlice(s, pos, a);
    AtSlice(s, pos + |a|, b);
    if At(s, pos, a) && At(s, pos + |a|, b) {
      assert s[pos..pos + |a + b|] == s[pos..pos + |a|] + s[pos + |a|..pos + |a| + |b|];
    }
    if At(s, pos, a + b) {
      assert s[pos..pos + |a|] == (a + b)[..|a|];
      assert s[pos + |a|..pos + |a| + |b|] == (a + b)[|a|..];
    }
  }

  /** Three encodings one after another stand at `pos` exactly when each stands where
      the previous ends. */
  lemma At3(s: seq<u8>, pos: nat, a: seq<u8>, b: seq<u8>, c: seq<u8>)
    ensures At(s, pos, a + b + c) <==> At(s, pos, a) && At(s, pos + |a|, b) && At(s, pos + |a| + |b|, c)
  {
    AtConcat(s, pos, a + b, c);
    AtConcat(s, pos, a, b);
  }

  /** A non-empty sequence is its first element followed by the rest. */
  lemma HeadRest<T>(xs: seq<T>, x: T, rest: seq<T>)
    requires |xs| > 0 && x == xs[0] && rest == xs[1..]
    ensures xs == [x] + rest
  {
  }

  /** Two encodings one after another at `pos`, split at the given ends. */
  lemma At2Split(s: seq<u8>, pos: nat, a: seq<u8>, b: seq<u8>, p1: nat, p2: nat)
    requires At(s, pos, a + b)
    requires p1 == pos + |a| && p2 == pos + |a + b|
    ensures At(s, pos, a) && At(s, p1, b) && p2 == p1 + |b|
  {
    AtConcat(s, pos, a, b);
  }

  /** Three encodings one after another at `pos`, split at the given ends. */
  lemma At3Split(s: seq<u8>, pos: nat, a: seq<u8>, b: seq<u8>, c: seq<u8>, p1: nat, p2: nat, p3: nat)
    requires At(s, pos, a + b + c)
    requires p1 == pos + |a| && p2 == p1 + |b| && p3 == p2 + |c|
    ensures At(s, pos, a) && At(s, p1, b) && At(s, p2, c) && p3 == pos + |a + b + c|
  {
    At3(s, pos, a, b, c);
  }

  /** Three encodings, each standing where the previous ends, joined at `pos`. */
  lemma At3Join(s: seq<u8>, pos: nat, a: seq<u8>, b: seq<u8>, c: seq<u8>, p1: nat, p2: nat, p3: nat)
    requires At(s, pos, a) && p1 == pos + |a| && At(s, p1, b) && p2 == p1 + |b| && At(s, p2, c) && p3 == p2 + |c|
    ensures At(s, pos, a + b + c) && p3 == pos + |a + b + c|
  {
    At3(s, pos, a, b, c);
  }

  /** Four encodings one after another stand at `pos` exactly when each stands where
      the previous ends. */
  lemma At4(s: seq<u8>, pos: nat, a: seq<u8>, b: seq<u8>, c: seq<u8>, d: seq<u8>)
    ensures At(s, pos, a + b + c + d) <==>
      At(s, pos, a) && At(s, pos + |a|, b) && At(s, pos + |a| + |b|, c) && At(s, pos + |a| + |b| + |c|, d)
  {
    AtConcat(s, pos, a + b + c, d);
    AtConcat(s, pos, a + b, c);
    AtConcat(s, pos, a, b);
  }

  /** Five encodings one after another at `pos`, split at the given ends: each stands
      where the previous ends. */
  lemma At5Split(s: seq<u8>, pos: nat, a: seq<u8>, b: seq<u8>, c: seq<u8>, d: seq<u8>, e: seq<u8>,
                 p1: nat, p2: nat, p3: nat, p4: nat, p5: nat)
    requires At(s, pos, a + b + c + d + e)
    requires p1 == pos + |a| && p2 == p1 + |b| && p3 == p2 + |c| && p4 == p3 + |d| && p5 == p4 + |e|
    ensures At(s, pos, a) && At(s, p1, b) && At(s, p2, c) && At(s, p3, d) && At(s, p4, e)
    ensures p5 == pos + |a + b + c + d + e|
  {
    At4(s, pos, a + b, c, d, e);
    AtConcat(s, pos, a, b);
  }

  /** Five encodings, each standing where the previous ends, joined at `pos`. */
  lemma At5Join(s: seq<u8>, pos: nat, a: seq<u8>, b: seq<u8>, c: seq<u8>, d: seq<u8>, e: seq<u8>,
                p1: nat, p2: nat, p3: nat, p4: nat, p5: nat)
    requires At(s, pos, a) && p1 == pos + |a| && At(s, p1, b) && p2 == p1 + |b|
    requires At(s, p2, c) && p3 == p2 + |c| && At(s, p3, d) && p4 == p3 + |d| && At(s, p4, e) && p5 == p4 + |e|
    ensures At(s, pos, a + b + c + d + e) && p5 == pos + |a + b + c + d + e|
  {
    AtConcat(s, pos, a, b);
    At4(s, pos, a + b, c, d, e);
  }

  /** Six encodings one after another at `pos`, split at the given ends: each stands
      where the previous ends. */
  lemma At6Split(s: seq<u8>, pos: nat, a: seq<u8>, b: seq<u8>, c: seq<u8>, d: seq<u8>, e: seq<u8>, f: seq<u8>,
                 p1: nat, p2: nat, p3: nat, p4: nat, p5: nat, p6: nat)
    requires At(s, pos, a + b + c + d + e + f)
    requires p1 == pos + |a| && p2 == p1 + |b| && p3 == p2 + |c| && p4 == p3 + |d| && p5 == p4 + |e|
    requires p6 == p5 + |f|
    ensures At(s, pos, a) && At(s, p1, b) && At(s, p2, c) && At(s, p3, d) && At(s, p4, e) && At(s, p5, f)
    ensures p6 == pos + |a + b + c + d + e + f|
  {
    At4(s, pos, a + b + c, d, e, f);
    AtConcat(s, pos, a + b, c);
    AtConcat(s, pos, a, b);
  }

  /** Six encodings, each standing where the previous ends, joined at `pos`. */
  lemma At6Join(s: seq<u8>, pos: nat, a: seq<u8>, b: seq<u8>, c: seq<u8>, d: seq<u8>, e: seq<u8>, f: seq<u8>,
                p1: nat, p2: nat, p3: nat, p4: nat, p5: nat, p6: nat)
    requires At(s, pos, a) && p1 == pos + |a| && At(s, p1, b) && p2 == p1 + |b| && At(s, p2, c) && p3 == p2 + |c|
    requires At(s, p3, d) && p4 == p3 + |d| && At(s, p4, e) && p5 == p4 + |e| && At(s, p5, f) && p6 == p5 + |f|
    ensures At(s, pos, a + b + c + d + e + f) && p6 == pos + |a + b + c + d + e + f|
  {
    AtConcat(s, pos, a, b);
    AtConcat(s, pos, a + b, c);
    At4(s, pos, a + b + c, d, e, f);
  }

  lemma ReadUIntAt(s: seq<u8>, pos: nat, v: nat, n: nat)
    requires v < Pow256(n) && At(s, pos, EncodeUInt(v, n))
    ensures ReadUInt(s, pos, n) == Ok(v, pos + n)
  {
    AtSlice(s, pos, EncodeUInt(v, n));
    LittleEndianOfEncode(v, n);
  }

  lemma ReadU8At(s: seq<u8>, pos: nat, v: u8)
    requires At(s, pos, EncodeU8(v))
    ensures ReadU8(s, pos) == Ok(v, pos + 1)
  {
    ReadUIntAt(s, pos, v as nat, 1);
  }

  lemma ReadU16At(s: seq<u8>, pos: nat, v: u16)
    requires At(s, pos, EncodeU16(v))
    ensures ReadU16(s, pos) == Ok(v, pos + 2)
  {
    ReadUIntAt(s, pos, v as nat, 2);
  }

  lemma ReadU32At(s: seq<u8>, pos: nat, v: u32)
    requires At(s, pos, EncodeU32(v))
    ensures ReadU32(s, pos) == Ok(v, pos + 4)
  {
    ReadUIntAt(s, pos, v as nat, 4);
  }

  lemma ReadF32At(s: seq<u8>, pos: nat, f: F32)
    requires At(s, pos, EncodeF32(f))
    ensures ReadF32(s, pos) == Ok(f, pos + 4)
  {
    ReadU32At(s, pos, f.bits);
  }

  // A successful read consumed exactly the encoding of the value it returned.

  lemma ReadUIntEncodes(s: seq<u8>, pos: nat, n: nat)
    ensures var r := ReadUInt(s, pos, n); r.Ok? ==> At(s, pos, EncodeUInt(r.value, n))
  {
    var r := ReadUInt(s, pos, n);
    if r.Ok? {
      EncodeOfLittleEndian(s[pos..pos + n]);
      AtSlice(s, pos, EncodeUInt(r.value, n));
    }
  }

  lemma ReadU8Encodes(s: seq<u8>, pos: nat)
    ensures var r := ReadU8(s, pos); r.Ok? ==> At(s, pos, EncodeU8(r.value)) && r.next == pos + 1
  {
    ReadUIntEncodes(s, pos, 1);
    Pow256Values();
  }

  lemma ReadU16Encodes(s: seq<u8>, pos: nat)
    ensures var r := ReadU16(s, pos); r.Ok? ==> At(s, pos, EncodeU16(r.value)) && r.next == pos + 2
  {
    ReadUIntEncodes(s, pos, 2);
    Pow256Values();
  }

  lemma ReadU32Encodes(s: seq<u8>, pos: nat)
    ensures var r := ReadU32(s, pos); r.Ok? ==> At(s, pos, EncodeU32(r.value)) && r.next == pos + 4
  {
    ReadUIntEncodes(s, pos, 4);
    Pow256Values();
  }

  lemma ReadF32Encodes(s: seq<u8>, pos: nat)
    ensures var r := ReadF32(s, pos); r.Ok? ==> At(s, pos, EncodeF32(r.value)) && r.next == pos + 4
  {
    ReadU32Encodes(s, pos);
  }

  /** Every successful read by `d` consumed exactly the encoding `enc` of what it returned. */
  ghost predicate Encodes<T>(d: Decoder<T>, enc: T -> seq<u8>) {
    forall s: seq<u8>, pos: nat ::
      d(s, pos).Ok? ==> At(s, pos, enc(d(s, pos).value)) && d(s, pos).next == pos + |enc(d(s, pos).value)|
  }

  /** Reading by `d` where the encoding of a well-formed `x` stands gives back `x`. */
  ghost predicate Inverts<T(!new)>(d: Decoder<T>, enc: T -> seq<u8>, wf: T -> bool) {
    forall x: T, s: seq<u8>, pos: nat ::
      wf(x) && At(s, pos, enc(x)) ==> d(s, pos) == Ok(x, pos + |enc(x)|)
  }

  /** `d` always reads exactly `k` bytes, and fails exactly when fewer are left. */
  ghost predicate FixedWidth<T>(d: Decoder<T>, k: nat) {
    forall s: seq<u8>, pos: nat ::
      (d(s, pos).Ok? <==> pos + k <= |s|) && (d(s, pos).Ok? ==> d(s, pos).next == pos + k)
  }

  /** Read `n` values one after another with `d` (the reader's `read_sized` for a
      vector); the first failure aborts the whole read. */
  function DecodeMany<T>(s: seq<u8>, pos: nat, n: nat, d: Decoder<T>): (r: Res<seq<T>>)
    ensures r.Ok? ==> |r.value| == n
    decreases n
  {
    if n == 0 then Ok([], pos)
    else
      match d(s, pos) case Fail(err) => Fail(err) case Ok(x, p) =>
      match DecodeMany(s, p, n - 1, d) case Fail(err) => Fail(err) case Ok(xs, q) =>
      Ok([x] + xs, q)
  }

  /** The encodings of `xs`, one after another, without a count. */
  function EncodeMany<T>(xs: seq<T>, enc: T -> seq<u8>): seq<u8> {
    if xs == [] then [] else enc(xs[0]) + EncodeMany(xs[1..], enc)
  }

  lemma {:induction false} DecodeManyEncodes<T>(s: seq<u8>, pos: nat, n: nat, d: Decoder<T>, enc: T -> seq<u8>)
    requires Encodes(d, enc) && pos <= |s|
    ensures var r := DecodeMany(s, pos, n, d);
      r.Ok? ==> At(s, pos, EncodeMany(r.value, enc)) && r.next == pos + |EncodeMany(r.value, enc)|
    decreases n
  {
    var r := DecodeMany(s, pos, n, d);
    if n > 0 && r.Ok? {
      var h := d(s, pos);
      assert h.Ok?;
      var t := DecodeMany(s, h.next, n - 1, d);
      assert t.Ok? && r.value == [h.value] + t.value && r.next == t.next;
      DecodeManyEncodes(s, h.next, n - 1, d, enc);
      assert At(s, pos, enc(h.value)) && h.next == pos + |enc(h.value)|;
      AtConcat(s, pos, enc(h.value), EncodeMany(t.value, enc));
      assert r.value[0] == h.value && r.value[1..] == t.value;
      assert EncodeMany(r.value, enc) == enc(h.value) + EncodeMany(t.value, enc);
    }
  }

  lemma {:induction false} DecodeManyInverts<T(!new)>(s: seq<u8>, pos: nat, xs: seq<T>, d: Decoder<T>, enc: T -> seq<u8>, wf: T -> bool)
    requires Inverts(d, enc, wf)
    requires forall i :: 0 <= i < |xs| ==> wf(xs[i])
    requires At(s, pos, EncodeMany(xs, enc))
    ensures DecodeMany(s, pos, |xs|, d) == Ok(xs, pos + |EncodeMany(xs, enc)|)
    decreases |xs|
  {
    if xs != [] {
      var e0, rest := enc(xs[0]), EncodeMany(xs[1..], enc);
      assert EncodeMany(xs, enc) == e0 + rest;
      AtConcat(s, pos, e0, rest);
      assert wf(xs[0]);
      assert d(s, pos) == Ok(xs[0], pos + |e0|);
      DecodeManyInverts(s, pos + |e0|, xs[1..], d, enc, wf);
      assert [xs[0]] + xs[1..] == xs;
    }
  }

  lemma {:induction false} DecodeManyFixedWidth<T>(s: seq<u8>, pos: nat, n: nat, d: Decoder<T>, k: nat)
    requires FixedWidth(d, k) && pos <= |s|
    ensures var r := DecodeMany(s, pos, n, d);
      (r.Ok? <==> pos + n * k <= |s|) && (r.Ok? ==> r.next == pos + n * k)
    decreases n
  {
    if n > 0 {
      var h := d(s, pos);
      assert n * k == k + (n - 1) * k;
      if h.Ok? {
        assert h.next == pos + k;
        DecodeManyFixedWidth(s, pos + k, n - 1, d, k);
      } else {
        assert pos + k > |s|;
      }
    }
  }

  lemma {:induction false} EncodeManyLength<T>(xs: seq<T>, enc: T -> seq<u8>, k: nat)
    requires forall i :: 0 <= i < |xs| ==> |enc(xs[i])| == k
    ensures |EncodeMany(xs, enc)| == |xs| * k
    decreases |xs|
  {
    if xs != [] {
      assert forall i :: 0 <= i < |xs[1..]| ==> xs[1..][i] == xs[i + 1];
      EncodeManyLength(xs[1..], enc, k);
      assert |EncodeMany(xs, enc)| == k + |xs[1..]| * k;
      assert (|xs| - 1) * k + k == |xs| * k;
    }
  }

  /** A list preceded by its length as a `width`-byte little-endian count. */
  function DecodeCounted<T>(s: seq<u8>, pos: nat, width: nat, d: Decoder<T>): (r: Res<seq<T>>)
    ensures r.Ok? ==> |r.value| < Pow256(width)
  {
    match ReadUInt(s, pos, width) case Fail(err) => Fail(err) case Ok(n, p) =>
    DecodeMany(s, p, n, d)
  }

  function EncodeCounted<T>(xs: seq<T>, width: nat, enc: T -> seq<u8>): seq<u8> {
    EncodeUInt(|xs|, width) + EncodeMany(xs, enc)
  }

  lemma DecodeCountedEncodes<T>(s: seq<u8>, pos: nat, width: nat, d: Decoder<T>, enc: T -> seq<u8>)
    requires Encodes(d, enc)
    ensures var r := DecodeCounted(s, pos, width, d);
      r.Ok? ==> At(s, pos, EncodeCounted(r.value, width, enc)) && r.next == pos + |EncodeCounted(r.value, width, enc)|
  {
    var c := ReadUInt(s, pos, width);
    ReadUIntEncodes(s, pos, width);
    if c.Ok? {
      DecodeManyEncodes(s, c.next, c.value, d, enc);
      var r := DecodeMany(s, c.next, c.value, d);
      if r.Ok? {
        AtConcat(s, pos, EncodeUInt(c.value, width), EncodeMany(r.value, enc));
      }
    }
  }

  lemma DecodeCountedInverts<T(!new)>(s: seq<u8>, pos: nat, xs: seq<T>, width: nat, d: Decoder<T>, enc: T -> seq<u8>, wf: T -> bool)
    requires Inverts(d, enc, wf)
    requires forall i :: 0 <= i < |xs| ==> wf(xs[i])
    requires |xs| < Pow256(width)
    requires At(s, pos, EncodeCounted(xs, width, enc))
    ensures DecodeCounted(s, pos, width, d) == Ok(xs, pos + |EncodeCounted(xs, width, enc)|)
  {
    AtConcat(s, pos, EncodeUInt(|xs|, width), EncodeMany(xs, enc));
    ReadUIntAt(s, pos, |xs|, width);
    DecodeManyInverts(s, pos + width, xs, d, enc, wf);
  }

  /** The well-formedness condition of a record type that places no restriction. */
  predicate Always<T>(x: T) { true }

  /** Put `xs` in front of the list a successful read returned; a failure stays a failure. */
  function Prepend<T>(xs: seq<T>, r: Res<seq<T>>): (r': Res<seq<T>>)
    ensures r'.Ok? <==> r.Ok?
  {
    match r
    case Ok(v, q) => Ok(xs + v, q)
    case Fail(e) => Fail(e)
  }

  /** One more element read off the front of a list read with `d`. */
  lemma DecodeManyStep<T>(s: seq<u8>, pos: nat, n: nat, d: Decoder<T>, xs: seq<T>, x: T, p: nat)
    requires n > 0 && d(s, pos) == Ok(x, p)
    ensures Prepend(xs, DecodeMany(s, pos, n, d)) == Prepend(xs + [x], DecodeMany(s, p, n - 1, d))
  {
    var t := DecodeMany(s, p, n - 1, d);
    if t.Ok? {
      assert xs + ([x] + t.value) == (xs + [x]) + t.value;
    }
  }

  /** When the first element fails, so do the list and anything prepended to it. */
  lemma DecodeManyFirstFails<T>(s: seq<u8>, pos: nat, n: nat, d: Decoder<T>, xs: seq<T>, r: Res<seq<T>>)
    requires n > 0 && d(s, pos).Fail? && r == Prepend(xs, DecodeMany(s, pos, n, d))
    ensures r == Fail(d(s, pos).error)
  {
  }

  lemma Pow256Values()
    ensures Pow256(1) == 0x100 && Pow256(2) == 0x1_0000 && Pow256(4) == 0x1_0000_0000
  {
    assert Pow256(1) == 256 * Pow256(0);
    assert Pow256(2) == 256 * Pow256(1);
    assert Pow256(3) == 256 * Pow256(2);
    assert Pow256(4) == 256 * Pow256(3);
  }

  /** A 32-bit read is exactly the four little-endian bytes of its value. */
  lemma U32Codec()
    ensures Encodes(ReadU32, EncodeU32) && Inverts(ReadU32, EncodeU32, Always) && FixedWidth(ReadU32, 4)
  {
    forall s: seq<u8>, pos: nat | ReadU32(s, pos).Ok?
      ensures At(s, pos, EncodeU32(ReadU32(s, pos).value))
    {
      ReadU32Encodes(s, pos);
    }
    forall x: u32, s: seq<u8>, pos: nat | Always(x) && At(s, pos, EncodeU32(x))
      ensures ReadU32(s, pos) == Ok(x, pos + |EncodeU32(x)|)
    {
      ReadU32At(s, pos, x);
    }
  }

  lemma PrependNothing<T>(xs: seq<T>, r: Res<seq<T>>, q: nat)
    ensures Prepend([], r) == r
    ensures Prepend(xs, Ok([], q)) == Ok(xs, q)
  {
    if r.Ok? { assert [] + r.value == r.value; }
    assert xs + [] == xs;
  }

  /** Every value a successful list read returns was returned by `d` at some position,
      so a property of all of `d`'s results holds of all elements. */
  lemma {:induction false} DecodeManyAll<T>(s: seq<u8>, pos: nat, n: nat, d: Decoder<T>, P: T -> bool)
    requires forall t: seq<u8>, q: nat :: d(t, q).Ok? ==> P(d(t, q).value)
    ensures var r := DecodeMany(s, pos, n, d); r.Ok? ==> forall i :: 0 <= i < |r.value| ==> P(r.value[i])
    decreases n
  {
    var r := DecodeMany(s, pos, n, d);
    if n > 0 && r.Ok? {
      var h := d(s, pos);
      DecodeManyAll(s, h.next, n - 1, d, P);
      var rest := DecodeMany(s, h.next, n - 1, d).value;
      assert r.value == [h.value] + rest;
      forall i | 0 <= i < |r.value|
        ensures P(r.value[i])
      {
        if i > 0 { assert r.value[i] == rest[i - 1]; }
      }
    }
  }
  /** The layout of a counted list of records whose decoder and encoder agree: a
      successful read consumed the count and the encodings of well-formed records, and
      reading where such a list is written gives it back. */
  lemma CountedLayout<T(!new)>(s: seq<u8>, pos: nat, width: nat, d: Decoder<T>, enc: T -> seq<u8>,
                               wf: T -> bool, xs: seq<T>)
    requires Encodes(d, enc) && Inverts(d, enc, wf)
    requires forall t: seq<u8>, q: nat :: d(t, q).Ok? ==> wf(d(t, q).value)
    ensures var r := DecodeCounted(s, pos, width, d);
      r.Ok? ==> (forall i :: 0 <= i < |r.value| ==> wf(r.value[i]))
                && At(s, pos, EncodeCounted(r.value, width, enc))
                && r.next == pos + |EncodeCounted(r.value, width, enc)|
    ensures |xs| < Pow256(width) && (forall i :: 0 <= i < |xs| ==> wf(xs[i]))
            && At(s, pos, EncodeCounted(xs, width, enc)) ==>
      DecodeCounted(s, pos, width, d) == Ok(xs, pos + |EncodeCounted(xs, width, enc)|)
  {
    DecodeCountedEncodes(s, pos, width, d, enc);
    var c := ReadUInt(s, pos, width);
    if c.Ok? {
      DecodeManyAll(s, c.next, c.value, d, wf);
    }
    if |xs| < Pow256(width) && (forall i :: 0 <= i < |xs| ==> wf(xs[i]))
       && At(s, pos, EncodeCounted(xs, width, enc)) {
      DecodeCountedInverts(s, pos, xs, width, d, enc, wf);
    }
  }

  // ---------------------------------------------------------------------------
  // Reads look only at the bytes they consume

  /** Data that continues `s` holds what `s` already holds. */
  lemma AtExtends(s: seq<u8>, s': seq<u8>, pos: nat, e: seq<u8>)
    requires At(s, pos, e) && s <= s'
    ensures At(s', pos, e)
  {
    AtSlice(s, pos, e);
    AtSlice(s', pos, e);
    assert s'[pos..pos + |e|] == s[pos..pos + |e|];
  }

  /** A reader whose successful reads give the same on data that continues the input. */
  ghost predicate Stable<T>(d: Decoder<T>) {
    forall s: seq<u8>, s': seq<u8>, pos: nat :: s <= s' && d(s, pos).Ok? ==> d(s', pos) == d(s, pos)
  }

  /** A list read with a stable reader is itself stable. */
  lemma {:induction false} DecodeManyExtends<T>(s: seq<u8>, s': seq<u8>, pos: nat, n: nat, d: Decoder<T>)
    requires Stable(d) && s <= s'
    ensures DecodeMany(s, pos, n, d).Ok? ==> DecodeMany(s', pos, n, d) == DecodeMany(s, pos, n, d)
    decreases n
  {
    if n > 0 && DecodeMany(s, pos, n, d).Ok? {
      DecodeManyExtends(s, s', d(s, pos).next, n - 1, d);
    }
  }

  /** Data that begins with `e` holds `e` at position 0. */
  lemma AtPrefix(e: seq<u8>, t: seq<u8>)
    ensures At(e + t, 0, e)
  {
    AtSlice(e + t, 0, e);
    assert (e + t)[0..|e|] == e;
  }

  lemma ReadU32Extends(s: seq<u8>, s': seq<u8>, pos: nat)
    requires s <= s'
    ensures ReadU32(s, pos).Ok? ==> ReadU32(s', pos) == ReadU32(s, pos)
  {
    var r := ReadU32(s, pos);
    if r.Ok? {
      ReadU32Encodes(s, pos);
      AtExtends(s, s', pos, EncodeU32(r.value));
      ReadU32At(s', pos, r.value);
    }
  }
}
