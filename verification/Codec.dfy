/** The byte codec of built-in types: every value prints to bytes, and the bytes parse back. */
module Codec {
  import opened Prelude
  import opened VarInt

  /** The types with a codec; tuples and ranges are nested pairs ending in a unit or a last component. */
  datatype Schema =
    | UInt(width: nat)
    | SInt(width: nat)
    | NonZero(inner: Schema)
    | Bool
    | Char
    | Unit
    | Opt(inner: Schema)
    | Res(ok: Schema, err: Schema)
    | Pair(first: Schema, second: Schema)
    | Arr(length: nat, inner: Schema)
    | Vec(inner: Schema)
    | Str

  datatype Value =
    | Num(n: int)
    | Truth(b: bool)
    | Code(c: nat)
    | Void
    | Nothing
    | Just(v: Value)
    | Okay(v: Value)
    | Bad(v: Value)
    | Both(first: Value, second: Value)
    | List(items: seq<Value>)
    | Text(bytes: Bytes)

  /** Which byte strings are valid UTF-8. */
  type Utf8 = Bytes -> bool

  // ---- Integers ----

  function Pow256(w: nat): (r: nat)
    ensures r > 0
  {
    if w == 0 then 1 else 256 * Pow256(w - 1)
  }

  /** Little-endian digits. */
  function ToLe(n: nat, w: nat): (r: Bytes)
    ensures |r| == w
  {
    if w == 0 then [] else [(n % 256) as Byte] + ToLe(n / 256, w - 1)
  }

  function FromLe(bytes: Bytes): nat {
    if bytes == [] then 0 else bytes[0] + 256 * FromLe(bytes[1..])
  }

  lemma {:induction false} FromToLe(n: nat, w: nat)
    requires n < Pow256(w)
    ensures FromLe(ToLe(n, w)) == n
  {
    if w > 0 {
      FromToLe(n / 256, w - 1);
      assert ToLe(n, w)[1..] == ToLe(n / 256, w - 1);
    }
  }

  lemma {:induction false} ToFromLe(bytes: Bytes)
    ensures FromLe(bytes) < Pow256(|bytes|) && ToLe(FromLe(bytes), |bytes|) == bytes
  {
    if bytes != [] {
      ToFromLe(bytes[1..]);
      var m := FromLe(bytes[1..]);
      assert (bytes[0] + 256 * m) % 256 == bytes[0] && (bytes[0] + 256 * m) / 256 == m;
      assert bytes == [bytes[0]] + bytes[1..];
    }
  }

  /** Two's complement. */
  function Wrap(n: int, w: nat): nat
    requires -(Pow256(w) as int) <= 2 * n < Pow256(w)
  {
    if n < 0 then n + Pow256(w) else n
  }

  function Unwrap(u: nat, w: nat): int {
    if 2 * u < Pow256(w) then u else u - Pow256(w)
  }

  predicate Scalar(c: nat) {
    c <= 0x10_FFFF && !(0xD800 <= c <= 0xDFFF)
  }

  // ---- Values of a type ----

  predicate Typed(utf8: Utf8, s: Schema, v: Value)
    decreases s
  {
    match s
    case UInt(w) => v.Num? && 0 <= v.n < Pow256(w)
    case SInt(w) => v.Num? && -(Pow256(w) as int) <= 2 * v.n < Pow256(w)
    case NonZero(inner) => (inner.UInt? || inner.SInt?) && Typed(utf8, inner, v) && v != Num(0)
    case Bool => v.Truth?
    case Char => v.Code? && Scalar(v.c)
    case Unit => v.Void?
    case Opt(inner) => v.Nothing? || (v.Just? && Typed(utf8, inner, v.v))
    case Res(ok, err) => (v.Okay? && Typed(utf8, ok, v.v)) || (v.Bad? && Typed(utf8, err, v.v))
    case Pair(first, second) => v.Both? && Typed(utf8, first, v.first) && Typed(utf8, second, v.second)
    case Arr(length, inner) => v.List? && |v.items| == length && forall x :: x in v.items ==> Typed(utf8, inner, x)
    case Vec(inner) => v.List? && forall x :: x in v.items ==> Typed(utf8, inner, x)
    case Str => v.Text? && utf8(v.bytes)
  }

  /** Every length fits its u32 prefix. */
  predicate Encodable(s: Schema, v: Value)
    decreases s
  {
    match s
    case Opt(inner) => v.Just? ==> Encodable(inner, v.v)
    case Res(ok, err) => (v.Okay? ==> Encodable(ok, v.v)) && (v.Bad? ==> Encodable(err, v.v))
    case Pair(first, second) => v.Both? ==> Encodable(first, v.first) && Encodable(second, v.second)
    case Arr(_, inner) => v.List? ==> forall x :: x in v.items ==> Encodable(inner, x)
    case Vec(inner) => v.List? ==> |v.items| <= U32_MAX && forall x :: x in v.items ==> Encodable(inner, x)
    case Str => v.Text? ==> |v.bytes| <= U32_MAX
    case _ => true
  }

  // ---- Printing ----

  function Enc(utf8: Utf8, s: Schema, v: Value): Bytes
    requires Typed(utf8, s, v)
    decreases s, 0
  {
    match s
    case UInt(w) => ToLe(v.n, w)
    case SInt(w) => ToLe(Wrap(v.n, w), w)
    case NonZero(inner) => Enc(utf8, inner, v)
    case Bool => [if v.b then 1 else 0]
    case Char => ToLe(v.c, 4)
    case Unit => []
    case Opt(inner) => if v.Nothing? then [0] else [1] + Enc(utf8, inner, v.v)
    case Res(ok, err) => if v.Okay? then [0] + Enc(utf8, ok, v.v) else [1] + Enc(utf8, err, v.v)
    case Pair(first, second) => Enc(utf8, first, v.first) + Enc(utf8, second, v.second)
    case Arr(_, inner) => EncItems(utf8, inner, v.items)
    case Vec(inner) => Encoded(|v.items|) + EncItems(utf8, inner, v.items)
    case Str => Encoded(|v.bytes|) + v.bytes
  }

  function EncItems(utf8: Utf8, s: Schema, items: seq<Value>): Bytes
    requires forall x :: x in items ==> Typed(utf8, s, x)
    decreases s, |items| + 1
  {
    if items == [] then [] else Enc(utf8, s, items[0]) + EncItems(utf8, s, items[1..])
  }

  // ---- The format, byte by byte ----

  lemma DivideTwice(n: nat, m: nat)
    requires m > 0
    ensures (n / 256) / m == n / (256 * m)
  {
    var q, r := (n / 256) / m, (n / 256) % m;
    assert n == 256 * (q * m + r) + n % 256;
    assert n == (256 * m) * q + (256 * r + n % 256);
    assert 256 * r + n % 256 < 256 * m;
    Quotient(n, 256 * m, q, 256 * r + n % 256);
  }

  lemma Quotient(n: nat, m: nat, q: nat, r: nat)
    requires m > 0 && n == m * q + r && r < m
    ensures n / m == q
  {
    var d := n / m - q;
    assert m * d == m * (n / m) - m * q;
    if d != 0 {
      AtLeast(m, d);
    }
  }

  lemma {:induction false} AtLeast(m: nat, d: int)
    requires d != 0
    ensures if d > 0 then m * d >= m else m * d + m <= 0
    decreases if d > 0 then d else -d
  {
    if d > 1 {
      AtLeast(m, d - 1);
      assert m * d == m * (d - 1) + m;
    } else if d < -1 {
      AtLeast(m, d + 1);
      assert m * d == m * (d + 1) - m;
    }
  }

  /** Byte `i` holds the digit of weight 256 to the power of `i`. */
  lemma {:induction false} LittleEndian(n: nat, w: nat, i: nat)
    requires i < w
    ensures ToLe(n, w)[i] == (n / Pow256(i)) % 256
  {
    if i > 0 {
      LittleEndian(n / 256, w - 1, i - 1);
      DivideTwice(n, Pow256(i - 1));
    }
  }

  lemma Weights()
    ensures Pow256(0) == 1 && Pow256(1) == 0x100 && Pow256(2) == 0x1_0000 && Pow256(3) == 0x100_0000
    ensures Pow256(4) == 0x1_0000_0000 && Pow256(8) == 0x1_0000_0000_0000_0000
  {
    assert Pow256(5) == 0x100_0000_0000 && Pow256(6) == 0x1_0000_0000_0000 && Pow256(7) == 0x100_0000_0000_0000;
  }

  /** Integers and characters: fixed width, little-endian, negative ones in two's complement. */
  lemma NumberBytes(utf8: Utf8, s: Schema, v: Value, i: nat)
    requires Typed(utf8, s, v) && (s.UInt? || s.SInt? || s.Char?)
    requires i < if s.Char? then 4 else s.width
    ensures |Enc(utf8, s, v)| == if s.Char? then 4 else s.width
    ensures s.UInt? ==> Enc(utf8, s, v)[i] == (v.n / Pow256(i)) % 256
    ensures s.SInt? && v.n >= 0 ==> Enc(utf8, s, v)[i] == (v.n / Pow256(i)) % 256
    ensures s.SInt? && v.n < 0 ==> Enc(utf8, s, v)[i] == ((v.n + Pow256(s.width)) / Pow256(i)) % 256
    ensures s.Char? ==> Enc(utf8, s, v)[i] == (v.c / Pow256(i)) % 256
  {
    LittleEndian(if s.Char? then v.c else if s.SInt? then Wrap(v.n, s.width) else v.n, |Enc(utf8, s, v)|, i);
  }

  /** Truth values and tags: one byte, 1 for true, `Just` and `Bad`, 0 for false, `Nothing` and `Okay`. */
  lemma TagBytes(utf8: Utf8, s: Schema, v: Value)
    requires Typed(utf8, s, v)
    ensures s.Bool? ==> Enc(utf8, s, v) == if v == Truth(true) then [1] else [0]
    ensures s.Unit? ==> Enc(utf8, s, v) == []
    ensures s.Opt? && v == Nothing ==> Enc(utf8, s, v) == [0]
    ensures s.Opt? && v.Just? ==> Enc(utf8, s, v)[..1] == [1] && Enc(utf8, s, v)[1..] == Enc(utf8, s.inner, v.v)
    ensures s.Res? && v.Okay? ==> Enc(utf8, s, v)[..1] == [0] && Enc(utf8, s, v)[1..] == Enc(utf8, s.ok, v.v)
    ensures s.Res? && v.Bad? ==> Enc(utf8, s, v)[..1] == [1] && Enc(utf8, s, v)[1..] == Enc(utf8, s.err, v.v)
  {
  }

  /** Strings: the number of bytes as a varint, then the bytes. Vectors: the number of elements, then their prints. */
  lemma PrefixBytes(utf8: Utf8, s: Schema, v: Value) returns (n: nat)
    requires Typed(utf8, s, v) && (s.Str? || s.Vec?)
    ensures 0 < n <= |Enc(utf8, s, v)|
    ensures s.Str? ==> Leb128(Enc(utf8, s, v)[..n]) == Some(|v.bytes|) && Enc(utf8, s, v)[n..] == v.bytes
    ensures s.Vec? ==> Leb128(Enc(utf8, s, v)[..n]) == Some(|v.items|)
                       && Enc(utf8, s, v)[n..] == EncItems(utf8, s.inner, v.items)
  {
    var length := if s.Str? then |v.bytes| else |v.items|;
    var rest := if s.Str? then v.bytes else EncItems(utf8, s.inner, v.items);
    n := |Encoded(length)|;
    EncodedIsLeb128(length);
    assert Enc(utf8, s, v) == Encoded(length) + rest;
    hide *;
    assert (Encoded(length) + rest)[..n] == Encoded(length) && (Encoded(length) + rest)[n..] == rest;
  }

  /** Lists: any front part, then the rest. */
  lemma {:induction false} PartBytes(utf8: Utf8, s: Schema, items: seq<Value>, k: nat)
    requires (forall x :: x in items ==> Typed(utf8, s, x)) && k <= |items|
    ensures EncItems(utf8, s, items) == EncItems(utf8, s, items[..k]) + EncItems(utf8, s, items[k..])
    decreases k
  {
    hide Enc, Typed, EncItems;
    NoItems(utf8, s);
    if k == 0 {
      assert items[..0] == [] && items[0..] == items;
    } else {
      PartBytes(utf8, s, items[1..], k - 1);
      EncItemsHead(utf8, s, items);
      EncItemsHead(utf8, s, items[..k]);
      assert items[..k][1..] == items[1..][..k - 1] && items[1..][k - 1..] == items[k..];
    }
  }

  lemma NoItems(utf8: Utf8, s: Schema)
    ensures EncItems(utf8, s, []) == []
  {
  }

  lemma EncItemsHead(utf8: Utf8, s: Schema, items: seq<Value>)
    requires (forall x :: x in items ==> Typed(utf8, s, x)) && items != []
    ensures EncItems(utf8, s, items) == Enc(utf8, s, items[0]) + EncItems(utf8, s, items[1..])
    ensures |items| == 1 ==> EncItems(utf8, s, items) == Enc(utf8, s, items[0])
  {
    hide Enc, Typed;
  }

  // ---- Parsing ----

  function Dec(utf8: Utf8, s: Schema, buf: Bytes): (r: Result<(Value, nat), BytesError>)
    ensures r.Ok? ==> r.value.1 <= |buf|
    decreases s, 0
  {
    match s
    case UInt(w) => if |buf| < w then Err(UnexpectedEof) else Ok((Num(FromLe(buf[..w])), w))
    case SInt(w) => if |buf| < w then Err(UnexpectedEof) else Ok((Num(Unwrap(FromLe(buf[..w]), w)), w))
    case NonZero(inner) =>
      (match Dec(utf8, inner, buf)
       case Ok((v, n)) => if (inner.UInt? || inner.SInt?) && v != Num(0) then Ok((v, n)) else Err(InvalidData)
       case Err(e) => Err(e))
    case Bool =>
      if buf == [] then Err(UnexpectedEof)
      else if buf[0] == 0 then Ok((Truth(false), 1))
      else if buf[0] == 1 then Ok((Truth(true), 1))
      else Err(InvalidData)
    case Char =>
      if |buf| < 4 then Err(UnexpectedEof)
      else if Scalar(FromLe(buf[..4])) then Ok((Code(FromLe(buf[..4])), 4))
      else Err(InvalidData)
    case Unit => Ok((Void, 0))
    case Opt(inner) =>
      if buf == [] then Err(UnexpectedEof)
      else if buf[0] == 0 then Ok((Nothing, 1))
      else if buf[0] == 1 then
        (match Dec(utf8, inner, buf[1..])
         case Ok((v, n)) => Ok((Just(v), 1 + n))
         case Err(e) => Err(e))
      else Err(InvalidData)
    case Res(ok, err) =>
      if buf == [] then Err(UnexpectedEof)
      else if buf[0] == 0 then
        (match Dec(utf8, ok, buf[1..])
         case Ok((v, n)) => Ok((Okay(v), 1 + n))
         case Err(e) => Err(e))
      else if buf[0] == 1 then
        (match Dec(utf8, err, buf[1..])
         case Ok((v, n)) => Ok((Bad(v), 1 + n))
         case Err(e) => Err(e))
      else Err(InvalidData)
    case Pair(first, second) =>
      (match Dec(utf8, first, buf)
       case Ok((a, n)) =>
         (match Dec(utf8, second, buf[n..])
          case Ok((b, m)) => Ok((Both(a, b), n + m))
          case Err(e) => Err(e))
       case Err(e) => Err(e))
    case Arr(length, inner) =>
      (match DecItems(utf8, inner, length, buf)
       case Ok((items, n)) => Ok((List(items), n))
       case Err(e) => Err(e))
    case Vec(inner) =>
      (match Decode(buf)
       case Ok((length, n)) =>
         if length > |buf| - n then Err(UnexpectedEof)
         else
           (match DecItems(utf8, inner, length, buf[n..])
            case Ok((items, m)) => Ok((List(items), n + m))
            case Err(e) => Err(e))
       case Err(e) => Err(e))
    case Str =>
      (match Decode(buf)
       case Ok((length, n)) =>
         if |buf| - n < length then Err(UnexpectedEof)
         else if utf8(buf[n..n + length]) then Ok((Text(buf[n..n + length]), n + length))
         else Err(InvalidData)
       case Err(e) => Err(e))
  }

  function DecItems(utf8: Utf8, s: Schema, count: nat, buf: Bytes): (r: Result<(seq<Value>, nat), BytesError>)
    ensures r.Ok? ==> r.value.1 <= |buf| && |r.value.0| == count
    decreases s, count + 1
  {
    if count == 0 then Ok(([], 0))
    else
      match Dec(utf8, s, buf)
      case Ok((v, n)) =>
        (match DecItems(utf8, s, count - 1, buf[n..])
         case Ok((vs, m)) => Ok(([v] + vs, n + m))
         case Err(e) => Err(e))
      case Err(e) => Err(e)
  }

  /** Four bytes are a character exactly if they number a code point that is no surrogate. */
  lemma CharAccepted(utf8: Utf8, buf: Bytes)
    requires |buf| >= 4
    ensures var b := seq(4, i requires 0 <= i < 4 => buf[i] as nat);
            var c := b[0] + 0x100 * b[1] + 0x1_0000 * b[2] + 0x100_0000 * b[3];
            Dec(utf8, Char, buf) == if c < 0xD800 || 0xE000 <= c < 0x11_0000 then Ok((Code(c), 4)) else Err(InvalidData)
  {
    var b0 := buf[..4];
    var b1, b2, b3 := b0[1..], b0[1..][1..], b0[1..][1..][1..];
    assert b3[1..] == [] && b1[0] == buf[1] && b2[0] == buf[2] && b3[0] == buf[3];
    assert FromLe(b3) == buf[3] && FromLe(b2) == buf[2] + 256 * FromLe(b3);
    assert FromLe(b1) == buf[1] + 256 * FromLe(b2) && FromLe(b0) == buf[0] + 256 * FromLe(b1);
  }

  /** Bytes that are there but no print: a tag above 1, a zero where none may be, text that is not UTF-8. */
  lemma Malformed(utf8: Utf8, s: Schema, buf: Bytes, w: nat, n: nat, length: nat)
    ensures (s.Bool? || s.Opt? || s.Res?) && buf != [] && buf[0] > 1 ==> Dec(utf8, s, buf) == Err(InvalidData)
    ensures s in {NonZero(UInt(w)), NonZero(SInt(w))} && |buf| >= w && (forall i :: 0 <= i < w ==> buf[i] == 0) ==>
              Dec(utf8, s, buf) == Err(InvalidData)
    ensures s == Str && Decode(buf) == Ok((length, n)) && n + length <= |buf| && !utf8(buf[n..n + length]) ==>
              Dec(utf8, s, buf) == Err(InvalidData)
  {
    if |buf| >= w && forall i :: 0 <= i < w ==> buf[i] == 0 {
      ZeroFromLe(buf[..w]);
    }
  }

  lemma {:induction false} ZeroFromLe(bytes: Bytes)
    requires forall i :: 0 <= i < |bytes| ==> bytes[i] == 0
    ensures FromLe(bytes) == 0
  {
    if bytes != [] {
      ZeroFromLe(bytes[1..]);
    }
  }

  /** What is refused is refused as cut short or as malformed, and as nothing else. */
  lemma {:induction false} Refusals(utf8: Utf8, s: Schema, buf: Bytes)
    ensures Dec(utf8, s, buf).Err? ==> Refusal(Dec(utf8, s, buf).error)
    decreases s, 0
  {
    match s
    case NonZero(inner) => Refusals(utf8, inner, buf);
    case Opt(inner) =>
      if buf != [] {
        Refusals(utf8, inner, buf[1..]);
      }
    case Res(ok, err) =>
      if buf != [] {
        Refusals(utf8, ok, buf[1..]);
        Refusals(utf8, err, buf[1..]);
      }
    case Pair(first, second) =>
      Refusals(utf8, first, buf);
      if Dec(utf8, first, buf).Ok? {
        Refusals(utf8, second, buf[Dec(utf8, first, buf).value.1..]);
      }
    case Arr(length, inner) => RefusalsItems(utf8, inner, length, buf);
    case Vec(inner) =>
      DecodeEof(buf);
      if Decode(buf).Ok? {
        RefusalsItems(utf8, inner, Decode(buf).value.0, buf[Decode(buf).value.1..]);
      }
    case Str => DecodeEof(buf);
    case _ =>
  }

  predicate Refusal(e: BytesError) {
    e.UnexpectedEof? || e.InvalidData?
  }

  lemma {:induction false} RefusalsItems(utf8: Utf8, s: Schema, count: nat, buf: Bytes)
    ensures DecItems(utf8, s, count, buf).Err? ==> Refusal(DecItems(utf8, s, count, buf).error)
    decreases s, count + 1
  {
    if count > 0 {
      Refusals(utf8, s, buf);
      if Dec(utf8, s, buf).Ok? {
        RefusalsItems(utf8, s, count - 1, buf[Dec(utf8, s, buf).value.1..]);
      }
    }
  }

  // ---- The length guard ----

  /**
   * Whether the value decodes when `tail` more bytes follow: a vector's length must not exceed the bytes left after
   * its prefix, which it can only do if its elements print to nothing.
   */
  predicate Guarded(utf8: Utf8, s: Schema, v: Value, tail: nat)
    requires Typed(utf8, s, v)
    decreases s, 0
  {
    match s
    case Opt(inner) => v.Just? ==> Guarded(utf8, inner, v.v, tail)
    case Res(ok, err) => if v.Okay? then Guarded(utf8, ok, v.v, tail) else Guarded(utf8, err, v.v, tail)
    case Pair(first, second) =>
      && Guarded(utf8, first, v.first, |Enc(utf8, second, v.second)| + tail)
      && Guarded(utf8, second, v.second, tail)
    case Arr(_, inner) => GuardedItems(utf8, inner, v.items, tail)
    case Vec(inner) => |v.items| <= |EncItems(utf8, inner, v.items)| + tail && GuardedItems(utf8, inner, v.items, tail)
    case _ => true
  }

  predicate GuardedItems(utf8: Utf8, s: Schema, items: seq<Value>, tail: nat)
    requires forall x :: x in items ==> Typed(utf8, s, x)
    decreases s, |items| + 1
  {
    items == []
    || (&& Guarded(utf8, s, items[0], |EncItems(utf8, s, items[1..])| + tail)
        && GuardedItems(utf8, s, items[1..], tail))
  }

  /** A type whose every value prints to at least one byte. */
  predicate NonEmpty(s: Schema)
    decreases s
  {
    match s
    case UInt(w) => w > 0
    case SInt(w) => w > 0
    case NonZero(inner) => NonEmpty(inner)
    case Unit => false
    case Pair(first, second) => NonEmpty(first) || NonEmpty(second)
    case Arr(length, inner) => length > 0 && NonEmpty(inner)
    case _ => true
  }

  /** No vector of elements that may print to nothing. */
  predicate Sized(s: Schema)
    decreases s
  {
    match s
    case NonZero(inner) => Sized(inner)
    case Opt(inner) => Sized(inner)
    case Res(ok, err) => Sized(ok) && Sized(err)
    case Pair(first, second) => Sized(first) && Sized(second)
    case Arr(_, inner) => Sized(inner)
    case Vec(inner) => NonEmpty(inner) && Sized(inner)
    case _ => true
  }

  // ---- Round trip ----

  lemma WrapRound(n: int, w: nat)
    requires -(Pow256(w) as int) <= 2 * n < Pow256(w)
    ensures Wrap(n, w) < Pow256(w) && Unwrap(Wrap(n, w), w) == n
  {
  }

  lemma UnwrapRound(u: nat, w: nat)
    requires u < Pow256(w)
    ensures -(Pow256(w) as int) <= 2 * Unwrap(u, w) < Pow256(w) && Wrap(Unwrap(u, w), w) == u
  {
  }

  lemma Front(a: Bytes, b: Bytes)
    ensures (a + b)[..|a|] == a && (a + b)[|a|..] == b && |a + b| == |a| + |b|
  {
  }

  predicate Leaf(s: Schema) {
    s.UInt? || s.SInt? || s.Bool? || s.Char? || s.Unit? || s.Str?
  }

  lemma LeafRoundTrip(utf8: Utf8, s: Schema, v: Value, rest: Bytes)
    requires Leaf(s) && Typed(utf8, s, v) && Encodable(s, v)
    ensures Dec(utf8, s, Enc(utf8, s, v) + rest) == Ok((v, |Enc(utf8, s, v)|))
  {
    Front(Enc(utf8, s, v), rest);
    match s {
      case UInt(w) => FromToLe(v.n, w);
      case SInt(w) =>
        WrapRound(v.n, w);
        FromToLe(Wrap(v.n, w), w);
      case Char =>
        assert Pow256(4) == 0x1_0000_0000;
        FromToLe(v.c, 4);
      case Str =>
        assert Encoded(|v.bytes|) + v.bytes + rest == Encoded(|v.bytes|) + (v.bytes + rest);
        DecodeEncoded(|v.bytes|, v.bytes + rest);
        Front(Encoded(|v.bytes|), v.bytes + rest);
        assert (Enc(utf8, s, v) + rest)[|Encoded(|v.bytes|)|..|Enc(utf8, s, v)|] == v.bytes;
      case _ =>
    }
  }

  /** Decoding what was printed gives the value back if the length guard lets it, and fails otherwise. */
  ghost predicate Returns(utf8: Utf8, s: Schema, v: Value, rest: Bytes)
    requires Typed(utf8, s, v)
  {
    && (Guarded(utf8, s, v, |rest|) ==> Dec(utf8, s, Enc(utf8, s, v) + rest) == Ok((v, |Enc(utf8, s, v)|)))
    && (!Guarded(utf8, s, v, |rest|) ==> Dec(utf8, s, Enc(utf8, s, v) + rest) == Err(UnexpectedEof))
  }

  ghost predicate ReturnsItems(utf8: Utf8, s: Schema, items: seq<Value>, rest: Bytes)
    requires forall x :: x in items ==> Typed(utf8, s, x)
  {
    && (GuardedItems(utf8, s, items, |rest|) ==>
          DecItems(utf8, s, |items|, EncItems(utf8, s, items) + rest) == Ok((items, |EncItems(utf8, s, items)|)))
    && (!GuardedItems(utf8, s, items, |rest|) ==>
          DecItems(utf8, s, |items|, EncItems(utf8, s, items) + rest) == Err(UnexpectedEof))
  }

  lemma Tagged(tag: Byte, body: Bytes, rest: Bytes)
    ensures ([tag] + body + rest)[0] == tag && ([tag] + body + rest)[1..] == body + rest
  {
  }

  lemma LeafReturns(utf8: Utf8, s: Schema, v: Value, rest: Bytes)
    requires (Leaf(s) || s.NonZero?) && Typed(utf8, s, v) && Encodable(s, v)
    ensures Returns(utf8, s, v, rest)
  {
    LeafRoundTrip(utf8, if s.NonZero? then s.inner else s, v, rest);
  }

  lemma OptReturns(utf8: Utf8, inner: Schema, v: Value, rest: Bytes)
    requires Typed(utf8, Opt(inner), v) && (v.Just? ==> Returns(utf8, inner, v.v, rest))
    ensures Returns(utf8, Opt(inner), v, rest)
  {
    hide EncItems, DecItems, GuardedItems, Decode, Encoded, ToLe, FromLe;
    if v.Just? {
      Tagged(1, Enc(utf8, inner, v.v), rest);
    } else {
      assert ([0] + rest)[0] == 0;
    }
  }

  lemma ResReturns(utf8: Utf8, ok: Schema, err: Schema, v: Value, rest: Bytes)
    requires Typed(utf8, Res(ok, err), v)
    requires (v.Okay? ==> Returns(utf8, ok, v.v, rest)) && (v.Bad? ==> Returns(utf8, err, v.v, rest))
    ensures Returns(utf8, Res(ok, err), v, rest)
  {
    if v.Okay? {
      OkayReturns(utf8, ok, err, v, rest);
    } else {
      BadReturns(utf8, ok, err, v, rest);
    }
  }

  lemma OkayReturns(utf8: Utf8, ok: Schema, err: Schema, v: Value, rest: Bytes)
    requires v.Okay? && Typed(utf8, ok, v.v) && Returns(utf8, ok, v.v, rest)
    ensures Returns(utf8, Res(ok, err), v, rest)
  {
    hide EncItems, DecItems, GuardedItems, Decode, Encoded, ToLe, FromLe;
    Tagged(0, Enc(utf8, ok, v.v), rest);
  }

  lemma BadReturns(utf8: Utf8, ok: Schema, err: Schema, v: Value, rest: Bytes)
    requires v.Bad? && Typed(utf8, err, v.v) && Returns(utf8, err, v.v, rest)
    ensures Returns(utf8, Res(ok, err), v, rest)
  {
    hide EncItems, DecItems, GuardedItems, Decode, Encoded, ToLe, FromLe;
    Tagged(1, Enc(utf8, err, v.v), rest);
  }

  lemma PairReturns(utf8: Utf8, first: Schema, second: Schema, v: Value, rest: Bytes)
    requires Typed(utf8, Pair(first, second), v)
    requires Returns(utf8, first, v.first, Enc(utf8, second, v.second) + rest) && Returns(utf8, second, v.second, rest)
    ensures Returns(utf8, Pair(first, second), v, rest)
  {
    hide Enc, Dec, Guarded, Typed;
    PairParts(utf8, first, second, v);
    PairGuarded(utf8, first, second, v, |rest|);
    var a, b := Enc(utf8, first, v.first), Enc(utf8, second, v.second);
    assert a + b + rest == a + (b + rest);
    PairDef(utf8, first, second, a + (b + rest));
    Front(a, b + rest);
  }

  lemma PairGuarded(utf8: Utf8, first: Schema, second: Schema, v: Value, tail: nat)
    requires Typed(utf8, Pair(first, second), v)
    ensures Guarded(utf8, Pair(first, second), v, tail) <==>
              && Guarded(utf8, first, v.first, |Enc(utf8, second, v.second)| + tail)
              && Guarded(utf8, second, v.second, tail)
  {
    hide Enc;
  }

  lemma ArrReturns(utf8: Utf8, length: nat, inner: Schema, v: Value, rest: Bytes)
    requires Typed(utf8, Arr(length, inner), v) && ReturnsItems(utf8, inner, v.items, rest)
    ensures Returns(utf8, Arr(length, inner), v, rest)
  {
  }

  // One unfolding of the mutually recursive functions.

  lemma EncItemsDef(utf8: Utf8, s: Schema, items: seq<Value>)
    requires items != [] && forall x :: x in items ==> Typed(utf8, s, x)
    ensures EncItems(utf8, s, items) == Enc(utf8, s, items[0]) + EncItems(utf8, s, items[1..])
  {
    hide Enc, Typed;
  }

  lemma GuardedItemsDef(utf8: Utf8, s: Schema, items: seq<Value>, tail: nat)
    requires items != [] && forall x :: x in items ==> Typed(utf8, s, x)
    ensures GuardedItems(utf8, s, items, tail) <==>
              && Guarded(utf8, s, items[0], |EncItems(utf8, s, items[1..])| + tail)
              && GuardedItems(utf8, s, items[1..], tail)
  {
    hide Enc, EncItems, Guarded, Typed;
  }

  lemma DecItemsDef(utf8: Utf8, s: Schema, count: nat, buf: Bytes)
    requires count > 0
    ensures Dec(utf8, s, buf).Err? ==> DecItems(utf8, s, count, buf) == Err(Dec(utf8, s, buf).error)
    ensures Dec(utf8, s, buf).Ok? ==>
              var (v, n) := Dec(utf8, s, buf).value;
              var rest := DecItems(utf8, s, count - 1, buf[n..]);
              && (rest.Err? ==> DecItems(utf8, s, count, buf) == Err(rest.error))
              && (rest.Ok? ==> DecItems(utf8, s, count, buf) == Ok(([v] + rest.value.0, n + rest.value.1)))
  {
    hide Dec;
  }

  lemma PairDef(utf8: Utf8, first: Schema, second: Schema, buf: Bytes)
    ensures Dec(utf8, first, buf).Err? ==> Dec(utf8, Pair(first, second), buf) == Err(Dec(utf8, first, buf).error)
    ensures Dec(utf8, first, buf).Ok? ==>
              var (a, n) := Dec(utf8, first, buf).value;
              var rest := Dec(utf8, second, buf[n..]);
              && (rest.Err? ==> Dec(utf8, Pair(first, second), buf) == Err(rest.error))
              && (rest.Ok? ==> Dec(utf8, Pair(first, second), buf) == Ok((Both(a, rest.value.0), n + rest.value.1)))
  {
    hide *;
    if Dec(utf8, first, buf).Ok? {
      PairGoesOn(utf8, first, second, buf);
    } else {
      PairStops(utf8, first, second, buf);
    }
  }

  lemma PairStops(utf8: Utf8, first: Schema, second: Schema, buf: Bytes)
    requires Dec(utf8, first, buf).Err?
    ensures Dec(utf8, Pair(first, second), buf) == Err(Dec(utf8, first, buf).error)
  {
    hide DecItems, Decode, FromLe, Unwrap, Scalar;
  }

  lemma PairGoesOn(utf8: Utf8, first: Schema, second: Schema, buf: Bytes)
    requires Dec(utf8, first, buf).Ok?
    ensures var (a, n) := Dec(utf8, first, buf).value;
            var rest := Dec(utf8, second, buf[n..]);
            && (rest.Err? ==> Dec(utf8, Pair(first, second), buf) == Err(rest.error))
            && (rest.Ok? ==> Dec(utf8, Pair(first, second), buf) == Ok((Both(a, rest.value.0), n + rest.value.1)))
  {
    hide DecItems, Decode, FromLe, Unwrap, Scalar;
  }

  lemma VecReturns(utf8: Utf8, inner: Schema, v: Value, rest: Bytes)
    requires Typed(utf8, Vec(inner), v) && Encodable(Vec(inner), v) && ReturnsItems(utf8, inner, v.items, rest)
    ensures Returns(utf8, Vec(inner), v, rest)
  {
    hide Enc, EncItems, Dec, DecItems, Guarded, GuardedItems, Typed, Encodable, Decode, Encoded;
    VecPrints(utf8, inner, v, |rest|);
    var prefix, body := Encoded(|v.items|), EncItems(utf8, inner, v.items);
    assert prefix + body + rest == prefix + (body + rest);
    DecodeEncoded(|v.items|, body + rest);
    Front(prefix, body + rest);
    VecDef(utf8, inner, prefix + (body + rest));
  }

  lemma VecPrints(utf8: Utf8, inner: Schema, v: Value, tail: nat)
    requires Typed(utf8, Vec(inner), v) && Encodable(Vec(inner), v)
    ensures v.List? && (forall x :: x in v.items ==> Typed(utf8, inner, x)) && |v.items| <= U32_MAX
    ensures Enc(utf8, Vec(inner), v) == Encoded(|v.items|) + EncItems(utf8, inner, v.items)
    ensures Guarded(utf8, Vec(inner), v, tail) <==>
              |v.items| <= |EncItems(utf8, inner, v.items)| + tail && GuardedItems(utf8, inner, v.items, tail)
  {
    hide Encoded, EncItems, GuardedItems;
  }

  lemma VecDef(utf8: Utf8, inner: Schema, buf: Bytes)
    requires Decode(buf).Ok?
    ensures var (length, n) := Decode(buf).value;
            && (length > |buf| - n ==> Dec(utf8, Vec(inner), buf) == Err(UnexpectedEof))
            && (length <= |buf| - n ==>
                  var items := DecItems(utf8, inner, length, buf[n..]);
                  && (items.Err? ==> Dec(utf8, Vec(inner), buf) == Err(items.error))
                  && (items.Ok? ==> Dec(utf8, Vec(inner), buf) == Ok((List(items.value.0), n + items.value.1))))
  {
    hide DecItems, Decode;
  }

  lemma ItemsReturn(utf8: Utf8, s: Schema, items: seq<Value>, rest: Bytes)
    requires (forall x :: x in items ==> Typed(utf8, s, x)) && items != []
    requires Returns(utf8, s, items[0], EncItems(utf8, s, items[1..]) + rest) && ReturnsItems(utf8, s, items[1..], rest)
    ensures ReturnsItems(utf8, s, items, rest)
  {
    hide Enc, EncItems, Dec, DecItems, Guarded, GuardedItems, Typed;
    var a, b := Enc(utf8, s, items[0]), EncItems(utf8, s, items[1..]);
    EncItemsDef(utf8, s, items);
    GuardedItemsDef(utf8, s, items, |rest|);
    DecItemsDef(utf8, s, |items|, a + (b + rest));
    assert a + b + rest == a + (b + rest);
    Front(a, b + rest);
    assert items == [items[0]] + items[1..];
  }

  lemma {:induction false} RoundTrip(utf8: Utf8, s: Schema, v: Value, rest: Bytes)
    requires Typed(utf8, s, v) && Encodable(s, v)
    ensures Returns(utf8, s, v, rest)
    decreases s, 0
  {
    hide Returns, ReturnsItems, Enc, EncItems, Dec, DecItems;
    match s {
      case Opt(inner) =>
        if v.Just? {
          RoundTrip(utf8, inner, v.v, rest);
        }
        OptReturns(utf8, inner, v, rest);
      case Res(ok, err) =>
        if v.Okay? {
          RoundTrip(utf8, ok, v.v, rest);
        } else {
          RoundTrip(utf8, err, v.v, rest);
        }
        ResReturns(utf8, ok, err, v, rest);
      case Pair(first, second) =>
        RoundTrip(utf8, first, v.first, Enc(utf8, second, v.second) + rest);
        RoundTrip(utf8, second, v.second, rest);
        PairReturns(utf8, first, second, v, rest);
      case Arr(length, inner) =>
        RoundTripItems(utf8, inner, v.items, rest);
        ArrReturns(utf8, length, inner, v, rest);
      case Vec(inner) =>
        RoundTripItems(utf8, inner, v.items, rest);
        VecReturns(utf8, inner, v, rest);
      case _ => LeafReturns(utf8, s, v, rest);
    }
  }

  lemma {:induction false} RoundTripItems(utf8: Utf8, s: Schema, items: seq<Value>, rest: Bytes)
    requires forall x :: x in items ==> Typed(utf8, s, x) && Encodable(s, x)
    ensures ReturnsItems(utf8, s, items, rest)
    decreases s, |items| + 1
  {
    if items == [] {
      assert EncItems(utf8, s, []) == [];
    } else {
      hide Returns, ReturnsItems, Enc, EncItems, Dec, DecItems;
      RoundTrip(utf8, s, items[0], EncItems(utf8, s, items[1..]) + rest);
      RoundTripItems(utf8, s, items[1..], rest);
      ItemsReturn(utf8, s, items, rest);
    }
  }

  lemma {:induction false} NonEmptyPrints(utf8: Utf8, s: Schema, v: Value)
    requires NonEmpty(s) && Typed(utf8, s, v)
    ensures |Enc(utf8, s, v)| >= 1
    decreases s
  {
    match s {
      case NonZero(inner) => NonEmptyPrints(utf8, inner, v);
      case Pair(first, second) =>
        if NonEmpty(first) {
          NonEmptyPrints(utf8, first, v.first);
        } else {
          NonEmptyPrints(utf8, second, v.second);
        }
      case Arr(_, inner) =>
        NonEmptyPrints(utf8, inner, v.items[0]);
      case _ =>
    }
  }

  lemma {:induction false} ItemsFit(utf8: Utf8, s: Schema, items: seq<Value>)
    requires NonEmpty(s) && forall x :: x in items ==> Typed(utf8, s, x)
    ensures |items| <= |EncItems(utf8, s, items)|
    decreases |items|
  {
    if items != [] {
      NonEmptyPrints(utf8, s, items[0]);
      ItemsFit(utf8, s, items[1..]);
    }
  }

  /** Without vectors of possibly empty elements the guard never fails, whatever follows. */
  lemma {:induction false} SizedGuarded(utf8: Utf8, s: Schema, v: Value, tail: nat)
    requires Sized(s) && Typed(utf8, s, v)
    ensures Guarded(utf8, s, v, tail)
    decreases s, 0
  {
    match s {
      case Opt(inner) =>
        if v.Just? {
          SizedGuarded(utf8, inner, v.v, tail);
        }
      case Res(ok, err) =>
        if v.Okay? {
          SizedGuarded(utf8, ok, v.v, tail);
        } else {
          SizedGuarded(utf8, err, v.v, tail);
        }
      case Pair(first, second) =>
        SizedGuarded(utf8, first, v.first, |Enc(utf8, second, v.second)| + tail);
        SizedGuarded(utf8, second, v.second, tail);
      case Arr(_, inner) => SizedItems(utf8, inner, v.items, tail);
      case Vec(inner) =>
        ItemsFit(utf8, inner, v.items);
        SizedItems(utf8, inner, v.items, tail);
      case _ =>
    }
  }

  lemma {:induction false} SizedItems(utf8: Utf8, s: Schema, items: seq<Value>, tail: nat)
    requires Sized(s) && forall x :: x in items ==> Typed(utf8, s, x)
    ensures GuardedItems(utf8, s, items, tail)
    decreases s, |items| + 1
  {
    if items != [] {
      SizedGuarded(utf8, s, items[0], |EncItems(utf8, s, items[1..])| + tail);
      SizedItems(utf8, s, items[1..], tail);
    }
  }

  /** The law the codec is for. */
  lemma DecodesWhatItPrints(utf8: Utf8, s: Schema, v: Value, rest: Bytes)
    requires Sized(s) && Typed(utf8, s, v) && Encodable(s, v)
    ensures Dec(utf8, s, Enc(utf8, s, v) + rest) == Ok((v, |Enc(utf8, s, v)|))
  {
    SizedGuarded(utf8, s, v, |rest|);
    RoundTrip(utf8, s, v, rest);
  }

  /** A vector of units prints to its length alone and does not decode on its own. */
  lemma UnitsDoNotDecode(utf8: Utf8)
    ensures Typed(utf8, Vec(Unit), List([Void])) && Dec(utf8, Vec(Unit), Enc(utf8, Vec(Unit), List([Void]))).Err?
  {
    RoundTrip(utf8, Vec(Unit), List([Void]), []);
    assert EncItems(utf8, Unit, [Void]) == [];
    assert Enc(utf8, Vec(Unit), List([Void])) + [] == Enc(utf8, Vec(Unit), List([Void]));
  }

  // ---- Cut short ----

  ghost predicate Cuts(utf8: Utf8, s: Schema, v: Value, k: nat)
    requires Typed(utf8, s, v)
  {
    k < |Enc(utf8, s, v)| ==> Dec(utf8, s, Enc(utf8, s, v)[..k]) == Err(UnexpectedEof)
  }

  ghost predicate CutsItems(utf8: Utf8, s: Schema, items: seq<Value>, k: nat)
    requires forall x :: x in items ==> Typed(utf8, s, x)
  {
    k < |EncItems(utf8, s, items)| ==> DecItems(utf8, s, |items|, EncItems(utf8, s, items)[..k]) == Err(UnexpectedEof)
  }

  lemma LeafCuts(utf8: Utf8, s: Schema, v: Value, k: nat)
    requires (Leaf(s) || s.NonZero?) && Typed(utf8, s, v) && Encodable(s, v)
    ensures Cuts(utf8, s, v, k)
  {
    if s.Str? && k < |Enc(utf8, s, v)| {
      var prefix, buf := Encoded(|v.bytes|), Enc(utf8, s, v)[..k];
      if k < |prefix| {
        assert buf == prefix[..k];
        DecodeCut(|v.bytes|, k);
      } else {
        assert buf == prefix + v.bytes[..k - |prefix|];
        DecodeEncoded(|v.bytes|, v.bytes[..k - |prefix|]);
      }
    }
  }

  lemma TagCuts(utf8: Utf8, s: Schema, v: Value, inner: Schema, body: Value, k: nat)
    requires Typed(utf8, s, v) && Typed(utf8, inner, body)
    requires || (s == Opt(inner) && v == Just(body)) || (s.Res? && s.ok == inner && v == Okay(body))
             || (s.Res? && s.err == inner && v == Bad(body))
    requires k > 0 ==> Cuts(utf8, inner, body, k - 1)
    ensures Cuts(utf8, s, v, k)
  {
    if 0 < k < |Enc(utf8, s, v)| {
      assert Enc(utf8, s, v)[..k][1..] == Enc(utf8, inner, body)[..k - 1];
    }
  }

  lemma PairCuts(utf8: Utf8, first: Schema, second: Schema, v: Value, k: nat)
    requires Typed(utf8, Pair(first, second), v)
    requires Cuts(utf8, first, v.first, k)
    requires var n := |Enc(utf8, first, v.first)|;
             n <= k < n + |Enc(utf8, second, v.second)| ==>
               && Cuts(utf8, second, v.second, k - n)
               && Returns(utf8, first, v.first, Enc(utf8, second, v.second)[..k - n])
    ensures Cuts(utf8, Pair(first, second), v, k)
  {
    hide Enc, Dec, Guarded, Typed, Returns;
    PairParts(utf8, first, second, v);
    var a, b := Enc(utf8, first, v.first), Enc(utf8, second, v.second);
    if k < |a| {
      assert (a + b)[..k] == a[..k];
      PairDef(utf8, first, second, a[..k]);
    } else if k < |a + b| {
      CutLater(a, b, k);
      PairCutLater(utf8, first, second, v.first, b[..k - |a|]);
    }
  }

  lemma CutLater(a: Bytes, b: Bytes, k: nat)
    requires |a| <= k <= |a + b|
    ensures (a + b)[..k] == a + b[..k - |a|]
  {
  }

  lemma PairParts(utf8: Utf8, first: Schema, second: Schema, v: Value)
    requires Typed(utf8, Pair(first, second), v)
    ensures v.Both? && Typed(utf8, first, v.first) && Typed(utf8, second, v.second)
    ensures Enc(utf8, Pair(first, second), v) == Enc(utf8, first, v.first) + Enc(utf8, second, v.second)
  {
  }

  lemma PairCutLater(utf8: Utf8, first: Schema, second: Schema, v: Value, rest: Bytes)
    requires Typed(utf8, first, v) && Returns(utf8, first, v, rest) && Dec(utf8, second, rest) == Err(UnexpectedEof)
    ensures Dec(utf8, Pair(first, second), Enc(utf8, first, v) + rest) == Err(UnexpectedEof)
  {
    hide Enc, Dec, Guarded, Typed;
    var a := Enc(utf8, first, v);
    PairDef(utf8, first, second, a + rest);
    Front(a, rest);
  }

  lemma ItemsCut(utf8: Utf8, s: Schema, items: seq<Value>, k: nat)
    requires (forall x :: x in items ==> Typed(utf8, s, x)) && items != []
    requires Cuts(utf8, s, items[0], k)
    requires var n := |Enc(utf8, s, items[0])|;
             n <= k < n + |EncItems(utf8, s, items[1..])| ==>
               && CutsItems(utf8, s, items[1..], k - n)
               && Returns(utf8, s, items[0], EncItems(utf8, s, items[1..])[..k - n])
    ensures CutsItems(utf8, s, items, k)
  {
    hide Enc, EncItems, Dec, DecItems, Guarded, Typed, Returns;
    EncItemsDef(utf8, s, items);
    assert |items[1..]| == |items| - 1;
    var a, b := Enc(utf8, s, items[0]), EncItems(utf8, s, items[1..]);
    if k < |a| {
      assert (a + b)[..k] == a[..k];
      DecItemsDef(utf8, s, |items|, a[..k]);
    } else if k < |a + b| {
      CutLater(a, b, k);
      ItemsCutLater(utf8, s, items, b[..k - |a|]);
    }
  }

  lemma ItemsCutLater(utf8: Utf8, s: Schema, items: seq<Value>, rest: Bytes)
    requires items != [] && Typed(utf8, s, items[0]) && Returns(utf8, s, items[0], rest)
    requires DecItems(utf8, s, |items| - 1, rest) == Err(UnexpectedEof)
    ensures DecItems(utf8, s, |items|, Enc(utf8, s, items[0]) + rest) == Err(UnexpectedEof)
  {
    hide Enc, Dec, DecItems, Guarded, Typed;
    var a := Enc(utf8, s, items[0]);
    DecItemsDef(utf8, s, |items|, a + rest);
    Front(a, rest);
  }

  lemma VecCuts(utf8: Utf8, inner: Schema, v: Value, k: nat)
    requires Typed(utf8, Vec(inner), v) && Encodable(Vec(inner), v)
    requires var n := |Encoded(|v.items|)|; k >= n ==> CutsItems(utf8, inner, v.items, k - n)
    ensures Cuts(utf8, Vec(inner), v, k)
  {
    VecPrints(utf8, inner, v, 0);
    hide Enc, EncItems, Dec, DecItems, Guarded, GuardedItems, Typed, Encodable;
    var prefix, body := Encoded(|v.items|), EncItems(utf8, inner, v.items);
    if k < |prefix + body| {
      var buf := (prefix + body)[..k];
      if k < |prefix| {
        assert buf == prefix[..k];
        DecodeCut(|v.items|, k);
        VecFailsAs(utf8, inner, buf);
      } else {
        assert buf == prefix + body[..k - |prefix|];
        DecodeEncoded(|v.items|, body[..k - |prefix|]);
        Front(prefix, body[..k - |prefix|]);
        VecDef(utf8, inner, buf);
      }
    }
  }

  lemma VecFailsAs(utf8: Utf8, inner: Schema, buf: Bytes)
    requires Decode(buf).Err?
    ensures Dec(utf8, Vec(inner), buf) == Err(Decode(buf).error)
  {
    hide DecItems, Decode;
  }

  /** A print that was cut short is refused for want of bytes, wherever it was cut. */
  lemma {:induction false} CutShort(utf8: Utf8, s: Schema, v: Value, k: nat)
    requires Typed(utf8, s, v) && Encodable(s, v)
    ensures k < |Enc(utf8, s, v)| ==> Dec(utf8, s, Enc(utf8, s, v)[..k]) == Err(UnexpectedEof)
    decreases s, 0
  {
    CutsHere(utf8, s, v, k);
  }

  lemma {:induction false} CutsHere(utf8: Utf8, s: Schema, v: Value, k: nat)
    requires Typed(utf8, s, v) && Encodable(s, v)
    ensures Cuts(utf8, s, v, k)
    decreases s, 0
  {
    hide Cuts, CutsItems, Returns, Enc, EncItems, Dec, DecItems;
    match s {
      case Opt(inner) =>
        if v.Just? {
          if k > 0 {
            CutsHere(utf8, inner, v.v, k - 1);
          }
          TagCuts(utf8, s, v, inner, v.v, k);
        } else {
          NothingCuts(utf8, s, v, k);
        }
      case Res(ok, err) =>
        var inner := if v.Okay? then ok else err;
        if k > 0 {
          CutsHere(utf8, inner, v.v, k - 1);
        }
        TagCuts(utf8, s, v, inner, v.v, k);
      case Pair(first, second) =>
        CutsHere(utf8, first, v.first, k);
        var a, b := Enc(utf8, first, v.first), Enc(utf8, second, v.second);
        if |a| <= k < |a| + |b| {
          CutsHere(utf8, second, v.second, k - |a|);
          RoundTrip(utf8, first, v.first, b[..k - |a|]);
        }
        PairCuts(utf8, first, second, v, k);
      case Arr(length, inner) =>
        CutsInItems(utf8, inner, v.items, k);
        ArrCuts(utf8, s, v, k);
      case Vec(inner) =>
        var n := |Encoded(|v.items|)|;
        if k >= n {
          CutsInItems(utf8, inner, v.items, k - n);
        }
        VecCuts(utf8, inner, v, k);
      case _ => LeafCuts(utf8, s, v, k);
    }
  }

  lemma NothingCuts(utf8: Utf8, s: Schema, v: Value, k: nat)
    requires Typed(utf8, s, v) && s.Opt? && v == Nothing
    ensures Cuts(utf8, s, v, k)
  {
  }

  lemma ArrCuts(utf8: Utf8, s: Schema, v: Value, k: nat)
    requires s.Arr? && Typed(utf8, s, v) && CutsItems(utf8, s.inner, v.items, k)
    ensures Cuts(utf8, s, v, k)
  {
  }

  lemma {:induction false} CutsInItems(utf8: Utf8, s: Schema, items: seq<Value>, k: nat)
    requires forall x :: x in items ==> Typed(utf8, s, x) && Encodable(s, x)
    ensures CutsItems(utf8, s, items, k)
    decreases s, |items| + 1
  {
    if items == [] {
      NoItems(utf8, s);
    } else {
      hide Cuts, CutsItems, Returns, Enc, EncItems, Dec, DecItems;
      CutsHere(utf8, s, items[0], k);
      var a, b := Enc(utf8, s, items[0]), EncItems(utf8, s, items[1..]);
      if |a| <= k < |a| + |b| {
        CutsInItems(utf8, s, items[1..], k - |a|);
        RoundTrip(utf8, s, items[0], b[..k - |a|]);
      }
      ItemsCut(utf8, s, items, k);
    }
  }

  // ---- One accepted form ----

  lemma LeafCanonical(utf8: Utf8, s: Schema, buf: Bytes)
    requires Leaf(s) && Dec(utf8, s, buf).Ok?
    ensures var (v, n) := Dec(utf8, s, buf).value; Typed(utf8, s, v) && Encodable(s, v) && Enc(utf8, s, v) == buf[..n]
  {
    match s {
      case UInt(w) => ToFromLe(buf[..w]);
      case SInt(w) =>
        ToFromLe(buf[..w]);
        UnwrapRound(FromLe(buf[..w]), w);
      case Char => ToFromLe(buf[..4]);
      case Bool => assert buf[..1] == [buf[0]];
      case Str =>
        DecodeCanonical(buf);
        var (length, n) := Decode(buf).value;
        assert buf[..n] + buf[n..n + length] == buf[..n + length];
      case _ =>
    }
  }

  /** What is accepted is a value of the type, and printing it gives exactly the bytes consumed. */
  ghost predicate Reprints(utf8: Utf8, s: Schema, buf: Bytes) {
    Dec(utf8, s, buf).Ok? ==>
      var (v, n) := Dec(utf8, s, buf).value;
      Typed(utf8, s, v) && Encodable(s, v) && Enc(utf8, s, v) == buf[..n]
  }

  ghost predicate ReprintsItems(utf8: Utf8, s: Schema, count: nat, buf: Bytes) {
    DecItems(utf8, s, count, buf).Ok? ==>
      var (vs, n) := DecItems(utf8, s, count, buf).value;
      && (forall x :: x in vs ==> Typed(utf8, s, x) && Encodable(s, x))
      && EncItems(utf8, s, vs) == buf[..n]
  }

  lemma TaggedTake(buf: Bytes, n: nat)
    requires 1 + n <= |buf|
    ensures [buf[0]] + buf[1..][..n] == buf[..1 + n]
  {
  }

  lemma OptReprints(utf8: Utf8, inner: Schema, buf: Bytes)
    requires buf != [] ==> Reprints(utf8, inner, buf[1..])
    ensures Reprints(utf8, Opt(inner), buf)
  {
    if Dec(utf8, Opt(inner), buf).Ok? {
      if buf[0] == 1 {
        TaggedTake(buf, Dec(utf8, inner, buf[1..]).value.1);
      } else {
        assert buf[..1] == [0];
      }
    }
  }

  lemma ResReprints(utf8: Utf8, ok: Schema, err: Schema, buf: Bytes)
    requires buf != [] ==> Reprints(utf8, ok, buf[1..]) && Reprints(utf8, err, buf[1..])
    ensures Reprints(utf8, Res(ok, err), buf)
  {
    if Dec(utf8, Res(ok, err), buf).Ok? {
      TaggedTake(buf, Dec(utf8, if buf[0] == 0 then ok else err, buf[1..]).value.1);
    }
  }

  lemma PairReprints(utf8: Utf8, first: Schema, second: Schema, buf: Bytes)
    requires Reprints(utf8, first, buf)
    requires Dec(utf8, first, buf).Ok? ==> Reprints(utf8, second, buf[Dec(utf8, first, buf).value.1..])
    ensures Reprints(utf8, Pair(first, second), buf)
  {
    hide Dec, Enc, Typed, Encodable;
    PairDef(utf8, first, second, buf);
    if Dec(utf8, Pair(first, second), buf).Ok? {
      var (a, n) := Dec(utf8, first, buf).value;
      var (b, m) := Dec(utf8, second, buf[n..]).value;
      PairPrints(utf8, first, second, a, b);
      assert buf[..n] + buf[n..][..m] == buf[..n + m];
    }
  }

  lemma PairPrints(utf8: Utf8, first: Schema, second: Schema, a: Value, b: Value)
    requires Typed(utf8, first, a) && Encodable(first, a) && Typed(utf8, second, b) && Encodable(second, b)
    ensures Typed(utf8, Pair(first, second), Both(a, b)) && Encodable(Pair(first, second), Both(a, b))
    ensures Enc(utf8, Pair(first, second), Both(a, b)) == Enc(utf8, first, a) + Enc(utf8, second, b)
  {
  }

  lemma VecReprints(utf8: Utf8, inner: Schema, buf: Bytes)
    requires Decode(buf).Ok? ==>
               var (length, n) := Decode(buf).value; length <= |buf| - n ==>
                 ReprintsItems(utf8, inner, length, buf[n..])
    ensures Reprints(utf8, Vec(inner), buf)
  {
    hide Dec, DecItems, Enc, EncItems, Typed, Encodable, Decode, Encoded;
    VecFails(utf8, inner, buf);
    if Dec(utf8, Vec(inner), buf).Ok? {
      DecodeCanonical(buf);
      VecDef(utf8, inner, buf);
      var (length, n) := Decode(buf).value;
      var (items, m) := DecItems(utf8, inner, length, buf[n..]).value;
      VecOf(utf8, inner, items);
      assert buf[..n] + buf[n..][..m] == buf[..n + m];
    }
  }

  lemma VecFails(utf8: Utf8, inner: Schema, buf: Bytes)
    ensures Decode(buf).Err? ==> Dec(utf8, Vec(inner), buf).Err?
  {
    hide DecItems, Decode;
  }

  lemma VecOf(utf8: Utf8, inner: Schema, items: seq<Value>)
    requires |items| <= U32_MAX && forall x :: x in items ==> Typed(utf8, inner, x) && Encodable(inner, x)
    ensures Typed(utf8, Vec(inner), List(items)) && Encodable(Vec(inner), List(items))
    ensures Enc(utf8, Vec(inner), List(items)) == Encoded(|items|) + EncItems(utf8, inner, items)
  {
    hide Encoded, EncItems;
  }

  lemma ItemsReprint(utf8: Utf8, s: Schema, count: nat, buf: Bytes)
    requires count > 0 && Reprints(utf8, s, buf)
    requires Dec(utf8, s, buf).Ok? ==> ReprintsItems(utf8, s, count - 1, buf[Dec(utf8, s, buf).value.1..])
    ensures ReprintsItems(utf8, s, count, buf)
  {
    hide Dec, DecItems, Enc, EncItems, Typed, Encodable;
    DecItemsDef(utf8, s, count, buf);
    if DecItems(utf8, s, count, buf).Ok? {
      var (v, n) := Dec(utf8, s, buf).value;
      var (vs, m) := DecItems(utf8, s, count - 1, buf[n..]).value;
      var all := [v] + vs;
      assert all[1..] == vs && all[0] == v;
      EncItemsDef(utf8, s, all);
      assert buf[..n] + buf[n..][..m] == buf[..n + m];
    }
  }

  lemma {:induction false} Canonical(utf8: Utf8, s: Schema, buf: Bytes)
    ensures Reprints(utf8, s, buf)
    decreases s, 0
  {
    hide Reprints, ReprintsItems, Dec, DecItems;
    match s {
      case NonZero(inner) => NonZeroReprints(utf8, inner, buf);
      case Opt(inner) =>
        if buf != [] {
          Canonical(utf8, inner, buf[1..]);
        }
        OptReprints(utf8, inner, buf);
      case Res(ok, err) =>
        if buf != [] {
          Canonical(utf8, ok, buf[1..]);
          Canonical(utf8, err, buf[1..]);
        }
        ResReprints(utf8, ok, err, buf);
      case Pair(first, second) =>
        Canonical(utf8, first, buf);
        if Dec(utf8, first, buf).Ok? {
          Canonical(utf8, second, buf[Dec(utf8, first, buf).value.1..]);
        }
        PairReprints(utf8, first, second, buf);
      case Arr(length, inner) =>
        CanonicalItems(utf8, inner, length, buf);
        ArrReprints(utf8, length, inner, buf);
      case Vec(inner) =>
        if Decode(buf).Ok? {
          CanonicalItems(utf8, inner, Decode(buf).value.0, buf[Decode(buf).value.1..]);
        }
        VecReprints(utf8, inner, buf);
      case _ => LeafReprints(utf8, s, buf);
    }
  }

  lemma NonZeroReprints(utf8: Utf8, inner: Schema, buf: Bytes)
    ensures Reprints(utf8, NonZero(inner), buf)
  {
    if Dec(utf8, NonZero(inner), buf).Ok? {
      LeafCanonical(utf8, inner, buf);
    }
  }

  lemma ArrReprints(utf8: Utf8, length: nat, inner: Schema, buf: Bytes)
    requires ReprintsItems(utf8, inner, length, buf)
    ensures Reprints(utf8, Arr(length, inner), buf)
  {
  }

  lemma LeafReprints(utf8: Utf8, s: Schema, buf: Bytes)
    requires Leaf(s)
    ensures Reprints(utf8, s, buf)
  {
    if Dec(utf8, s, buf).Ok? {
      LeafCanonical(utf8, s, buf);
    }
  }

  lemma {:induction false} CanonicalItems(utf8: Utf8, s: Schema, count: nat, buf: Bytes)
    ensures ReprintsItems(utf8, s, count, buf)
    decreases s, count + 1
  {
    if count > 0 {
      hide Reprints, ReprintsItems, Dec, DecItems;
      Canonical(utf8, s, buf);
      if Dec(utf8, s, buf).Ok? {
        CanonicalItems(utf8, s, count - 1, buf[Dec(utf8, s, buf).value.1..]);
      }
      ItemsReprint(utf8, s, count, buf);
    }
  }
}
