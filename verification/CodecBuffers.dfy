/** The codec over buffers: writing and reading loops, size hints, and serialization into a fresh buffer. */
module CodecBuffers {
  import opened Prelude
  import opened VarInt
  import opened Codec

  // ---- Sizes ----

  function MaxOf(a: Option<nat>, b: Option<nat>): Option<nat> {
    if a.Some? && b.Some? then Some(Max(a.value, b.value)) else None
  }

  function Plus(a: Option<nat>, b: Option<nat>): Option<nat> {
    if a.Some? && b.Some? then Some(a.value + b.value) else None
  }

  function Times(a: Option<nat>, n: nat): Option<nat> {
    if a.Some? then Some(a.value * n) else None
  }

  /** The size bound known for a type. */
  function MaxSize(s: Schema): Option<nat>
    decreases s
  {
    match s
    case UInt(w) => Some(w)
    case SInt(w) => Some(w)
    case NonZero(inner) => MaxSize(inner)
    case Bool => Some(1)
    case Char => Some(4)
    case Unit => Some(0)
    case Opt(inner) => Plus(Some(1), MaxSize(inner))
    case Res(ok, err) => Plus(Some(1), MaxOf(MaxSize(ok), MaxSize(err)))
    case Pair(first, second) => Plus(MaxSize(first), MaxSize(second))
    case Arr(length, inner) => Times(MaxSize(inner), length)
    case Vec(_) => None
    case Str => None
  }

  /** The size hint of a value. An option has no hint of its own: it falls back on the bound of its type. */
  function ByteLen(utf8: Utf8, s: Schema, v: Value): Option<nat>
    requires Typed(utf8, s, v)
    decreases s, 0
  {
    match s
    case Res(ok, err) =>
      if v.Okay? then Plus(Some(1), ByteLen(utf8, ok, v.v)) else Plus(Some(1), ByteLen(utf8, err, v.v))
    case Pair(first, second) => Plus(ByteLen(utf8, first, v.first), ByteLen(utf8, second, v.second))
    case Arr(_, inner) => ByteLenItems(utf8, inner, v.items)
    case Vec(inner) =>
      if |v.items| > U32_MAX then None else Plus(Some(Len(|v.items|)), ByteLenItems(utf8, inner, v.items))
    case Str => if |v.bytes| > U32_MAX then None else Some(Len(|v.bytes|) + |v.bytes|)
    case _ => MaxSize(s)
  }

  function ByteLenItems(utf8: Utf8, s: Schema, items: seq<Value>): Option<nat>
    requires forall x :: x in items ==> Typed(utf8, s, x)
    decreases s, |items| + 1
  {
    if items == [] then Some(0) else Plus(ByteLen(utf8, s, items[0]), ByteLenItems(utf8, s, items[1..]))
  }

  lemma {:induction false} ItemsBound(utf8: Utf8, s: Schema, items: seq<Value>, m: nat)
    requires forall x :: x in items ==> Typed(utf8, s, x) && |Enc(utf8, s, x)| <= m
    ensures |EncItems(utf8, s, items)| <= m * |items|
    decreases |items|
  {
    if items != [] {
      EncItemsDef(utf8, s, items);
      ItemsBound(utf8, s, items[1..], m);
      hide Enc, EncItems, Typed;
      assert m * |items| == m + m * (|items| - 1);
    }
  }

  /** The type's bound holds for each of its values, and such values have no length prefix to overflow. */
  lemma {:induction false} MaxSizeBounds(utf8: Utf8, s: Schema, v: Value)
    requires Typed(utf8, s, v) && MaxSize(s).Some?
    ensures |Enc(utf8, s, v)| <= MaxSize(s).value && Encodable(s, v)
    decreases s
  {
    match s {
      case NonZero(inner) => MaxSizeBounds(utf8, inner, v);
      case Opt(inner) =>
        if v.Just? {
          MaxSizeBounds(utf8, inner, v.v);
        }
      case Res(ok, err) => MaxSizeBounds(utf8, if v.Okay? then ok else err, v.v);
      case Pair(first, second) =>
        MaxSizeBounds(utf8, first, v.first);
        MaxSizeBounds(utf8, second, v.second);
      case Arr(length, inner) =>
        forall x | x in v.items ensures |Enc(utf8, inner, x)| <= MaxSize(inner).value && Encodable(inner, x) {
          MaxSizeBounds(utf8, inner, x);
        }
        ItemsBound(utf8, inner, v.items, MaxSize(inner).value);
      case _ =>
    }
  }

  /** A hint, where there is one, is large enough. */
  lemma {:induction false} ByteLenBounds(utf8: Utf8, s: Schema, v: Value)
    requires Typed(utf8, s, v) && ByteLen(utf8, s, v).Some?
    ensures |Enc(utf8, s, v)| <= ByteLen(utf8, s, v).value && Encodable(s, v)
    decreases s, 0
  {
    match s {
      case Res(ok, err) => ByteLenBounds(utf8, if v.Okay? then ok else err, v.v);
      case Pair(first, second) =>
        ByteLenBounds(utf8, first, v.first);
        ByteLenBounds(utf8, second, v.second);
      case Arr(_, inner) => ByteLenItemsBound(utf8, inner, v.items);
      case Vec(inner) =>
        ByteLenItemsBound(utf8, inner, v.items);
        LenEncoded(|v.items|);
      case Str => LenEncoded(|v.bytes|);
      case _ => MaxSizeBounds(utf8, s, v);
    }
  }

  lemma {:induction false} ByteLenItemsBound(utf8: Utf8, s: Schema, items: seq<Value>)
    requires (forall x :: x in items ==> Typed(utf8, s, x)) && ByteLenItems(utf8, s, items).Some?
    ensures |EncItems(utf8, s, items)| <= ByteLenItems(utf8, s, items).value
    ensures forall x :: x in items ==> Encodable(s, x)
    decreases s, |items| + 1
  {
    if items != [] {
      EncItemsDef(utf8, s, items);
      ByteLenBounds(utf8, s, items[0]);
      ByteLenItemsBound(utf8, s, items[1..]);
      assert items == [items[0]] + items[1..];
    }
  }

  lemma {:induction false} MaxSizeHints(utf8: Utf8, s: Schema, v: Value)
    requires Typed(utf8, s, v) && MaxSize(s).Some?
    ensures ByteLen(utf8, s, v).Some?
    decreases s, 0
  {
    match s {
      case Res(ok, err) => MaxSizeHints(utf8, if v.Okay? then ok else err, v.v);
      case Pair(first, second) =>
        MaxSizeHints(utf8, first, v.first);
        MaxSizeHints(utf8, second, v.second);
      case Arr(_, inner) => MaxSizeHintsItems(utf8, inner, v.items);
      case _ =>
    }
  }

  lemma {:induction false} MaxSizeHintsItems(utf8: Utf8, s: Schema, items: seq<Value>)
    requires (forall x :: x in items ==> Typed(utf8, s, x)) && MaxSize(s).Some?
    ensures ByteLenItems(utf8, s, items).Some?
    decreases s, |items| + 1
  {
    if items != [] {
      MaxSizeHints(utf8, s, items[0]);
      MaxSizeHintsItems(utf8, s, items[1..]);
    }
  }

  /** No option inside. */
  predicate Plain(s: Schema)
    decreases s
  {
    match s
    case Opt(_) => false
    case NonZero(inner) => Plain(inner)
    case Res(ok, err) => Plain(ok) && Plain(err)
    case Pair(first, second) => Plain(first) && Plain(second)
    case Arr(_, inner) => Plain(inner)
    case Vec(inner) => Plain(inner)
    case _ => true
  }

  /** Without options the hint is exact, and there is one whenever the value can be printed. */
  lemma {:induction false} ByteLenExact(utf8: Utf8, s: Schema, v: Value)
    requires Typed(utf8, s, v) && Plain(s)
    ensures ByteLen(utf8, s, v) == if Encodable(s, v) then Some(|Enc(utf8, s, v)|) else None
    decreases s, 0
  {
    match s {
      case Res(ok, err) => ByteLenExact(utf8, if v.Okay? then ok else err, v.v);
      case Pair(first, second) =>
        ByteLenExact(utf8, first, v.first);
        ByteLenExact(utf8, second, v.second);
      case Arr(_, inner) => ByteLenItemsExact(utf8, inner, v.items);
      case Vec(inner) =>
        ByteLenItemsExact(utf8, inner, v.items);
        if |v.items| <= U32_MAX {
          LenEncoded(|v.items|);
        }
      case Str =>
        if |v.bytes| <= U32_MAX {
          LenEncoded(|v.bytes|);
        }
      case NonZero(inner) => assert MaxSize(inner) == Some(inner.width) && |Enc(utf8, inner, v)| == inner.width;
      case _ =>
    }
  }

  lemma {:induction false} ByteLenItemsExact(utf8: Utf8, s: Schema, items: seq<Value>)
    requires (forall x :: x in items ==> Typed(utf8, s, x)) && Plain(s)
    ensures ByteLenItems(utf8, s, items)
         == if forall x :: x in items ==> Encodable(s, x) then Some(|EncItems(utf8, s, items)|) else None
    decreases s, |items| + 1
  {
    if items != [] {
      EncItemsDef(utf8, s, items);
      ByteLenExact(utf8, s, items[0]);
      ByteLenItemsExact(utf8, s, items[1..]);
      hide Enc, EncItems, Typed, Encodable, ByteLen, Plain;
      FirstOrRest(items);
    }
  }

  lemma FirstOrRest(items: seq<Value>)
    requires items != []
    ensures forall x :: x in items <==> x == items[0] || x in items[1..]
  {
    assert items == [items[0]] + items[1..];
  }

  /** No vector or string inside, and numbers that can differ from zero where they have to. */
  predicate Bounded(s: Schema)
    decreases s
  {
    match s
    case NonZero(inner) => (inner.UInt? || inner.SInt?) && inner.width > 0
    case Opt(inner) => Bounded(inner)
    case Res(ok, err) => Bounded(ok) && Bounded(err)
    case Pair(first, second) => Bounded(first) && Bounded(second)
    case Arr(_, inner) => Bounded(inner)
    case Vec(_) => false
    case Str => false
    case _ => true
  }

  /** The bound of a type is reached by a value of it; an option has its bound for a hint. */
  lemma {:induction false} MaxSizeReached(utf8: Utf8, s: Schema) returns (v: Value)
    requires Bounded(s)
    ensures Typed(utf8, s, v) && MaxSize(s) == Some(|Enc(utf8, s, v)|)
    ensures s.Opt? ==> ByteLen(utf8, s, v) == MaxSize(s)
    decreases s
  {
    match s {
      case UInt(w) => v := Num(0);
      case SInt(w) => v := Num(0);
      case NonZero(inner) =>
        v := Num(if inner.UInt? then 1 else -1);
      case Bool => v := Truth(true);
      case Char => v := Code(0);
      case Unit => v := Void;
      case Opt(inner) =>
        v := MaxSizeReached(utf8, inner);
        v := Just(v);
      case Res(ok, err) =>
        var a := MaxSizeReached(utf8, ok);
        var b := MaxSizeReached(utf8, err);
        v := if |Enc(utf8, ok, a)| < |Enc(utf8, err, b)| then Bad(b) else Okay(a);
      case Pair(first, second) =>
        var a := MaxSizeReached(utf8, first);
        var b := MaxSizeReached(utf8, second);
        v := Both(a, b);
      case Arr(length, inner) =>
        v := MaxSizeReached(utf8, inner);
        Repeated(utf8, inner, v, length);
        v := List(seq(length, i => v));
    }
  }

  lemma {:induction false} Repeated(utf8: Utf8, s: Schema, v: Value, length: nat)
    requires Typed(utf8, s, v)
    ensures |EncItems(utf8, s, seq(length, i => v))| == |Enc(utf8, s, v)| * length
    decreases length
  {
    var items := seq(length, i => v);
    if length > 0 {
      EncItemsDef(utf8, s, items);
      Repeated(utf8, s, v, length - 1);
      hide Enc, EncItems, Typed;
      assert items[1..] == seq(length - 1, i => v);
      OneMore(|Enc(utf8, s, v)|, length);
    }
  }

  lemma OneMore(m: nat, n: nat)
    requires n > 0
    ensures m * n == m + m * (n - 1)
  {
  }

  // ---- Writing ----

  /** Copies bytes into the buffer if they fit. */
  method WriteBytes(bytes: Bytes, buf: array<Byte>, offset: nat) returns (r: Result<nat, BytesError>)
    requires offset <= buf.Length
    modifies buf
    ensures buf[..offset] == old(buf[..offset])
    ensures r.Ok? <==> offset + |bytes| <= buf.Length
    ensures r.Ok? ==> r.value == |bytes| && buf[offset..offset + |bytes|] == bytes
    ensures r.Err? ==> r.error == BufferTooSmall
  {
    if buf.Length - offset < |bytes| {
      return Err(BufferTooSmall);
    }
    for k := 0 to |bytes|
      invariant buf[..offset] == old(buf[..offset])
      invariant buf[offset..offset + k] == bytes[..k]
    {
      buf[offset + k] := bytes[k];
    }
    r := Ok(|bytes|);
  }

  /** Whether `bytes` stand at `offset` after a write that returned `r`; it fails exactly if it has to. */
  ghost predicate Wrote(bytes: Bytes, encodable: bool, after: Bytes, offset: nat, r: Result<nat, BytesError>)
    requires offset <= |after|
  {
    && (r.Ok? <==> encodable && offset + |bytes| <= |after|)
    && (r.Ok? ==> r.value == |bytes| && after[offset..offset + |bytes|] == bytes)
    && (r.Err? && encodable ==> r.error == BufferTooSmall)
    && (r.Err? && offset + |bytes| <= |after| ==> r.error == Custom)
    && (r.Err? ==> r.error == BufferTooSmall || r.error == Custom)
  }

  lemma WroteTwo(a: Bytes, b: Bytes, ea: bool, eb: bool, mid: Bytes, after: Bytes, offset: nat,
                 r1: Result<nat, BytesError>, r2: Result<nat, BytesError>)
    requires offset <= |mid| == |after| && Wrote(a, ea, mid, offset, r1) && r1.Ok?
    requires Wrote(b, eb, after, offset + |a|, r2) && after[..offset + |a|] == mid[..offset + |a|]
    ensures Wrote(a + b, ea && eb, after, offset, if r2.Ok? then Ok(r1.value + r2.value) else r2)
    ensures after[..offset] == mid[..offset]
  {
    if r2.Ok? {
      assert after[offset..offset + |a + b|] == after[offset..offset + |a|] + after[offset + |a|..offset + |a| + |b|];
      assert after[offset..offset + |a|] == after[..offset + |a|][offset..] == mid[..offset + |a|][offset..];
    }
    assert after[..offset] == after[..offset + |a|][..offset] == mid[..offset + |a|][..offset];
  }

  lemma WroteFits(a: Bytes, ea: bool, mid: Bytes, offset: nat, r1: Result<nat, BytesError>)
    requires offset <= |mid| && Wrote(a, ea, mid, offset, r1) && r1.Ok?
    ensures r1.value == |a| && offset + |a| <= |mid|
  {
  }

  lemma WroteFirst(a: Bytes, b: Bytes, ea: bool, eb: bool, mid: Bytes, offset: nat, r1: Result<nat, BytesError>)
    requires offset <= |mid| && Wrote(a, ea, mid, offset, r1) && r1.Err?
    ensures Wrote(a + b, ea && eb, mid, offset, r1)
  {
  }

  predicate AllEncodable(s: Schema, items: seq<Value>) {
    forall x :: x in items ==> Encodable(s, x)
  }

  lemma {:induction false} EncItemsSplit(utf8: Utf8, s: Schema, items: seq<Value>, k: nat)
    requires k <= |items| && forall x :: x in items ==> Typed(utf8, s, x)
    ensures EncItems(utf8, s, items) == EncItems(utf8, s, items[..k]) + EncItems(utf8, s, items[k..])
    decreases k
  {
    hide *;
    if k == 0 {
      assert items[0..] == items;
      EncItemsNone(utf8, s, items[..0]);
    } else {
      EncItemsSplit(utf8, s, items[1..], k - 1);
      assert items[1..][..k - 1] == items[..k][1..] && items[1..][k - 1..] == items[k..] && items[0] == items[..k][0];
      EncItemsDef(utf8, s, items);
      EncItemsDef(utf8, s, items[..k]);
    }
  }

  lemma AllEncodableSplit(s: Schema, items: seq<Value>, k: nat)
    requires k <= |items|
    ensures AllEncodable(s, items) <==> AllEncodable(s, items[..k]) && AllEncodable(s, items[k..])
  {
    hide Encodable;
    assert items == items[..k] + items[k..];
  }

  lemma EncItemsOne(utf8: Utf8, s: Schema, items: seq<Value>, k: nat)
    requires k < |items| && forall x :: x in items ==> Typed(utf8, s, x)
    ensures EncItems(utf8, s, items[..k + 1]) == EncItems(utf8, s, items[..k]) + Enc(utf8, s, items[k])
    ensures AllEncodable(s, items[..k + 1]) <==> AllEncodable(s, items[..k]) && Encodable(s, items[k])
  {
    hide Enc, EncItems, Typed, Encodable;
    var some := items[..k + 1];
    assert some[..k] == items[..k] && some[k..] == [items[k]];
    EncItemsSplit(utf8, s, some, k);
    AllEncodableSplit(s, some, k);
    EncItemsDef(utf8, s, [items[k]]);
    EncItemsNone(utf8, s, [items[k]][1..]);
  }

  lemma EncItemsNone(utf8: Utf8, s: Schema, items: seq<Value>)
    requires items == []
    ensures EncItems(utf8, s, items) == [] && AllEncodable(s, items)
  {
  }

  lemma WroteNone(after: Bytes, offset: nat)
    requires offset <= |after|
    ensures Wrote([], true, after, offset, Ok(0))
  {
  }

  /** A length that fits u32, or the program's error. */
  function CheckedLen(length: nat): Result<nat, BytesError> {
    if length <= U32_MAX then Ok(length) else Err(Custom)
  }

  /** Prints a value at `offset`; fails exactly if a length overflows its prefix or the buffer is too short. */
  method ToBytes(utf8: Utf8, s: Schema, v: Value, buf: array<Byte>, offset: nat) returns (r: Result<nat, BytesError>)
    requires Typed(utf8, s, v) && offset <= buf.Length
    modifies buf
    ensures buf[..offset] == old(buf[..offset])
    ensures Wrote(Enc(utf8, s, v), Encodable(s, v), buf[..], offset, r)
    decreases s, 1
  {
    hide EncItems, Wrote;
    match s {
      case NonZero(inner) => r := ToBytes(utf8, inner, v, buf, offset);
      case Opt(inner) =>
        if v.Nothing? {
          r := WritePlain([0], buf, offset);
        } else {
          r := WriteTagged(1, utf8, inner, v.v, buf, offset);
        }
      case Res(ok, err) =>
        if v.Okay? {
          r := WriteTagged(0, utf8, ok, v.v, buf, offset);
        } else {
          r := WriteTagged(1, utf8, err, v.v, buf, offset);
        }
      case Pair(first, second) => r := WritePair(utf8, first, v.first, second, v.second, buf, offset);
      case Arr(_, inner) => r := WriteItems(utf8, inner, v.items, buf, offset);
      case Vec(inner) => r := WriteVec(utf8, inner, v.items, buf, offset);
      case Str => r := WriteText(v.bytes, buf, offset);
      case UInt(w) => r := WritePlain(ToLe(v.n, w), buf, offset);
      case SInt(w) => r := WritePlain(ToLe(Wrap(v.n, w), w), buf, offset);
      case Bool => r := WritePlain([if v.b then 1 else 0], buf, offset);
      case Char => r := WritePlain(ToLe(v.c, 4), buf, offset);
      case Unit => r := WritePlain([], buf, offset);
    }
  }

  method WritePlain(bytes: Bytes, buf: array<Byte>, offset: nat) returns (r: Result<nat, BytesError>)
    requires offset <= buf.Length
    modifies buf
    ensures buf[..offset] == old(buf[..offset]) && Wrote(bytes, true, buf[..], offset, r)
  {
    r := WriteBytes(bytes, buf, offset);
    assert r.Ok? ==> buf[..][offset..offset + |bytes|] == buf[offset..offset + |bytes|];
  }

  /** Goes on with a second value, unless the first write failed. */
  method WriteNext(ghost a: Bytes, ghost ea: bool, first: Result<nat, BytesError>, utf8: Utf8, s: Schema, v: Value,
                   buf: array<Byte>, offset: nat)
    returns (r: Result<nat, BytesError>)
    requires Typed(utf8, s, v) && offset <= buf.Length && Wrote(a, ea, buf[..], offset, first)
    modifies buf
    ensures buf[..offset] == old(buf[..offset])
    ensures Wrote(a + Enc(utf8, s, v), ea && Encodable(s, v), buf[..], offset, r)
    decreases s, 2
  {
    hide *;
    ghost var mid := buf[..];
    if first.Err? {
      WroteFirst(a, Enc(utf8, s, v), ea, Encodable(s, v), mid, offset, first);
      return first;
    }
    WroteFits(a, ea, mid, offset, first);
    var second := ToBytes(utf8, s, v, buf, offset + first.value);
    WroteTwo(a, Enc(utf8, s, v), ea, Encodable(s, v), mid, buf[..], offset, first, second);
    r := if second.Ok? then Ok(first.value + second.value) else second;
  }

  method WriteTagged(
      tag: Byte, utf8: Utf8, s: Schema, v: Value, buf: array<Byte>, offset: nat)
    returns (r: Result<nat, BytesError>)
    requires Typed(utf8, s, v) && offset <= buf.Length
    modifies buf
    ensures buf[..offset] == old(buf[..offset])
    ensures Wrote([tag] + Enc(utf8, s, v), Encodable(s, v), buf[..], offset, r)
    decreases s, 3
  {
    hide *;
    var first := WritePlain([tag], buf, offset);
    r := WriteNext([tag], true, first, utf8, s, v, buf, offset);
  }

  method WritePair(utf8: Utf8, s: Schema, v: Value, t: Schema, u: Value, buf: array<Byte>, offset: nat)
    returns (r: Result<nat, BytesError>)
    requires Typed(utf8, s, v) && Typed(utf8, t, u) && offset <= buf.Length
    modifies buf
    ensures buf[..offset] == old(buf[..offset])
    ensures Wrote(Enc(utf8, s, v) + Enc(utf8, t, u), Encodable(s, v) && Encodable(t, u), buf[..], offset, r)
    decreases Pair(s, t), 0
  {
    hide *;
    var first := ToBytes(utf8, s, v, buf, offset);
    r := WriteNext(Enc(utf8, s, v), Encodable(s, v), first, utf8, t, u, buf, offset);
  }

  method WriteItems(
      utf8: Utf8, s: Schema, items: seq<Value>, buf: array<Byte>, offset: nat)
    returns (r: Result<nat, BytesError>)
    requires (forall x :: x in items ==> Typed(utf8, s, x)) && offset <= buf.Length
    modifies buf
    ensures buf[..offset] == old(buf[..offset])
    ensures Wrote(EncItems(utf8, s, items), AllEncodable(s, items), buf[..], offset, r)
    decreases s, 2
  {
    hide Enc, EncItems, Encodable, AllEncodable, Typed;
    var n := 0;
    EncItemsNone(utf8, s, items[..0]);
    WroteNone(buf[..], offset);
    for k := 0 to |items|
      invariant offset + n <= buf.Length && buf[..offset] == old(buf[..offset])
      invariant Wrote(EncItems(utf8, s, items[..k]), AllEncodable(s, items[..k]), buf[..], offset, Ok(n))
    {
      ghost var mid := buf[..];
      EncItemsOne(utf8, s, items, k);
      var next := ToBytes(utf8, s, items[k], buf, offset + n);
      WroteTwo(EncItems(utf8, s, items[..k]), Enc(utf8, s, items[k]), AllEncodable(s, items[..k]),
               Encodable(s, items[k]),
               mid, buf[..], offset, Ok(n), next);
      if next.Err? {
        EncItemsSplit(utf8, s, items, k + 1);
        AllEncodableSplit(s, items, k + 1);
        WroteFirst(EncItems(utf8, s, items[..k + 1]), EncItems(utf8, s, items[k + 1..]),
                   AllEncodable(s, items[..k + 1]),
                   AllEncodable(s, items[k + 1..]), buf[..], offset, next);
        return next;
      }
      n := n + next.value;
    }
    assert items[..|items|] == items;
    r := Ok(n);
  }

  method WriteVec(
      utf8: Utf8, s: Schema, items: seq<Value>, buf: array<Byte>, offset: nat)
    returns (r: Result<nat, BytesError>)
    requires (forall x :: x in items ==> Typed(utf8, s, x)) && offset <= buf.Length
    modifies buf
    ensures buf[..offset] == old(buf[..offset])
    ensures Wrote(Encoded(|items|) + EncItems(utf8, s, items), |items| <= U32_MAX && AllEncodable(s, items), buf[..],
                  offset, r)
    decreases s, 3
  {
    hide Enc, EncItems, Encoded, Encodable, AllEncodable, Typed;
    var length := CheckedLen(|items|);
    if length.Err? {
      return length;
    }
    var first := EncodeInto(length.value, buf, offset);
    ghost var mid := buf[..];
    assert first.Ok? ==> mid[offset..offset + first.value] == buf[offset..offset + first.value];
    if first.Err? {
      WroteFirst(Encoded(|items|), EncItems(utf8, s, items), true, AllEncodable(s, items), mid, offset, first);
      return first;
    }
    var second := WriteItems(utf8, s, items, buf, offset + first.value);
    WroteTwo(Encoded(|items|), EncItems(utf8, s, items), true, AllEncodable(s, items), mid, buf[..], offset, first,
             second);
    r := if second.Ok? then Ok(first.value + second.value) else second;
  }

  method WriteText(bytes: Bytes, buf: array<Byte>, offset: nat) returns (r: Result<nat, BytesError>)
    requires offset <= buf.Length
    modifies buf
    ensures buf[..offset] == old(buf[..offset])
    ensures Wrote(Encoded(|bytes|) + bytes, |bytes| <= U32_MAX, buf[..], offset, r)
  {
    hide Encoded;
    var length := CheckedLen(|bytes|);
    if length.Err? {
      return length;
    }
    var first := EncodeInto(length.value, buf, offset);
    ghost var mid := buf[..];
    assert first.Ok? ==> mid[offset..offset + first.value] == buf[offset..offset + first.value];
    if first.Err? {
      WroteFirst(Encoded(|bytes|), bytes, true, true, mid, offset, first);
      return first;
    }
    var second := WritePlain(bytes, buf, offset + first.value);
    WroteTwo(Encoded(|bytes|), bytes, true, true, mid, buf[..], offset, first, second);
    r := if second.Ok? then Ok(first.value + second.value) else second;
  }

  // ---- Serializing into a fresh buffer ----

  const DEFAULT_HINT: nat := 256

  function Or(a: Option<nat>, b: Option<nat>): (r: Option<nat>)
    ensures r.Some? <==> a.Some? || b.Some?
  {
    if a.Some? then a else b
  }

  /** One try with the hint, and after a buffer that was too small one more with the exact size or twice the hint. */
  method Serialize(utf8: Utf8, s: Schema, v: Value) returns (r: Result<Bytes, BytesError>)
    requires Typed(utf8, s, v)
    ensures r.Ok? <==> Encodable(s, v) && (ByteLen(utf8, s, v).Some? || |Enc(utf8, s, v)| <= 512)
    ensures r.Ok? ==> r.value == Enc(utf8, s, v)
    ensures r.Err? && Encodable(s, v) ==> r.error == BufferTooSmall
    ensures r.Err? ==> r.error == BufferTooSmall || r.error == Custom
  {
    hide Enc, Encodable, Typed, ByteLen, MaxSize;
    var known := ByteLen(utf8, s, v);
    var bound := MaxSize(s);
    if bound.Some? {
      MaxSizeHints(utf8, s, v);
    }
    if known.Some? {
      ByteLenBounds(utf8, s, v);
    }
    var hint := Or(Or(known, bound), Some(DEFAULT_HINT)).value;
    var buf := new Byte[hint](_ => 0);
    var n := ToBytes(utf8, s, v, buf, 0);
    if n.Err? && n.error == BufferTooSmall {
      var exact := Or(known, Some(buf.Length * 2)).value;
      buf := new Byte[exact](_ => 0);
      n := ToBytes(utf8, s, v, buf, 0);
    }
    if n.Err? {
      return Err(n.error);
    }
    assert buf[..][0..n.value] == buf[..n.value];
    r := Ok(buf[..n.value]);
  }

  /** Trailing bytes are ignored. */
  function Deserialize(utf8: Utf8, s: Schema, bytes: Bytes): Result<Value, BytesError> {
    match Dec(utf8, s, bytes)
    case Ok((v, _)) => Ok(v)
    case Err(e) => Err(e)
  }

  /** What was serialized deserializes to the same value, so a serializer over these types round-trips. */
  lemma SerializerRoundTrips(utf8: Utf8, s: Schema, v: Value)
    requires Sized(s) && Typed(utf8, s, v) && Encodable(s, v)
    ensures Deserialize(utf8, s, Enc(utf8, s, v)) == Ok(v)
  {
    DecodesWhatItPrints(utf8, s, v, []);
    assert Enc(utf8, s, v) + [] == Enc(utf8, s, v);
  }

  /** An optional string of 512 bytes or more is not serialized, although it is within every limit of its format. */
  lemma LongOptionRefused(utf8: Utf8, bytes: Bytes)
    requires utf8(bytes) && 512 <= |bytes| <= U32_MAX
    ensures var s, v := Opt(Str), Just(Text(bytes));
            && Typed(utf8, s, v) && Encodable(s, v)
            && ByteLen(utf8, s, v).None? && |Enc(utf8, s, v)| > 512
  {
  }

  // ---- Reading ----

  /** Reads a value off the front of the bytes, part by part, and item by item for arrays and vectors. */
  method FromBytes(utf8: Utf8, s: Schema, buf: Bytes) returns (r: Result<(Value, nat), BytesError>)
    ensures r == Dec(utf8, s, buf)
    decreases s, 1
  {
    match s {
      case NonZero(inner) =>
        r := FromBytes(utf8, inner, buf);
        if r.Ok? && !((inner.UInt? || inner.SInt?) && r.value.0 != Num(0)) {
          r := Err(InvalidData);
        }
      case Opt(inner) => r := ReadOption(utf8, inner, buf);
      case Res(ok, err) => r := ReadResult(utf8, ok, err, buf);
      case Str => r := ReadText(utf8, buf);
      case Pair(first, second) =>
        var a := FromBytes(utf8, first, buf);
        if a.Err? {
          return Err(a.error);
        }
        var b := FromBytes(utf8, second, buf[a.value.1..]);
        r := if b.Ok? then Ok((Both(a.value.0, b.value.0), a.value.1 + b.value.1)) else Err(b.error);
      case Arr(length, inner) =>
        var items := ReadItems(utf8, inner, length, buf);
        r := if items.Ok? then Ok((List(items.value.0), items.value.1)) else Err(items.error);
      case Vec(inner) =>
        var prefix := DecodeBytes(buf);
        if prefix.Err? {
          return Err(prefix.error);
        }
        var (length, n) := prefix.value;
        if length > |buf| - n {
          return Err(UnexpectedEof);
        }
        var items := ReadItems(utf8, inner, length, buf[n..]);
        r := if items.Ok? then Ok((List(items.value.0), n + items.value.1)) else Err(items.error);
      case _ => r := Dec(utf8, s, buf);
    }
  }

  method ReadOption(utf8: Utf8, inner: Schema, buf: Bytes) returns (r: Result<(Value, nat), BytesError>)
    ensures r == Dec(utf8, Opt(inner), buf)
    decreases Opt(inner), 0
  {
    if buf == [] {
      return Err(UnexpectedEof);
    }
    if buf[0] == 0 {
      return Ok((Nothing, 1));
    }
    if buf[0] != 1 {
      return Err(InvalidData);
    }
    var part := FromBytes(utf8, inner, buf[1..]);
    r := if part.Ok? then Ok((Just(part.value.0), 1 + part.value.1)) else Err(part.error);
  }

  lemma ResDef(utf8: Utf8, ok: Schema, err: Schema, buf: Bytes)
    ensures buf == [] ==> Dec(utf8, Res(ok, err), buf) == Err(UnexpectedEof)
    ensures buf != [] && buf[0] == 0 ==>
              Dec(utf8, Res(ok, err), buf)
              == match Dec(utf8, ok, buf[1..]) case Ok((v, n)) => Ok((Okay(v), 1 + n)) case Err(e) => Err(e)
    ensures buf != [] && buf[0] == 1 ==>
              Dec(utf8, Res(ok, err), buf)
              == match Dec(utf8, err, buf[1..]) case Ok((v, n)) => Ok((Bad(v), 1 + n)) case Err(e) => Err(e)
    ensures buf != [] && buf[0] != 0 && buf[0] != 1 ==> Dec(utf8, Res(ok, err), buf) == Err(InvalidData)
  {
  }

  method ReadResult(utf8: Utf8, ok: Schema, err: Schema, buf: Bytes) returns (r: Result<(Value, nat), BytesError>)
    ensures r == Dec(utf8, Res(ok, err), buf)
    decreases Res(ok, err), 0
  {
    ResDef(utf8, ok, err, buf);
    hide Dec;
    if buf == [] {
      return Err(UnexpectedEof);
    }
    if buf[0] == 0 {
      var part := FromBytes(utf8, ok, buf[1..]);
      return if part.Ok? then Ok((Okay(part.value.0), 1 + part.value.1)) else Err(part.error);
    }
    if buf[0] != 1 {
      return Err(InvalidData);
    }
    var part := FromBytes(utf8, err, buf[1..]);
    r := if part.Ok? then Ok((Bad(part.value.0), 1 + part.value.1)) else Err(part.error);
  }

  method ReadText(utf8: Utf8, buf: Bytes) returns (r: Result<(Value, nat), BytesError>)
    ensures r == Dec(utf8, Str, buf)
  {
    var prefix := DecodeBytes(buf);
    if prefix.Err? {
      return Err(prefix.error);
    }
    var (length, n) := prefix.value;
    if |buf| - n < length {
      return Err(UnexpectedEof);
    }
    r := if utf8(buf[n..n + length]) then Ok((Text(buf[n..n + length]), n + length)) else Err(InvalidData);
  }

  method ReadItems(utf8: Utf8, s: Schema, count: nat, buf: Bytes) returns (r: Result<(seq<Value>, nat), BytesError>)
    ensures r == DecItems(utf8, s, count, buf)
    decreases s, 2
  {
    hide Dec, DecItems;
    var items: seq<Value>, offset: nat := [], 0;
    ReadNothing(utf8, s, count, buf);
    for k := 0 to count
      invariant offset <= |buf| && Ahead(utf8, s, count, buf, k, items, offset)
    {
      var item := FromBytes(utf8, s, buf[offset..]);
      ReadStep(utf8, s, count, buf, k, items, offset);
      if item.Err? {
        return Err(item.error);
      }
      items := items + [item.value.0];
      offset := offset + item.value.1;
    }
    ReadEverything(utf8, s, count, buf, items, offset);
    r := Ok((items, offset));
  }

  /** What the whole read gives, in terms of what is read and what is to come. */
  ghost predicate Ahead(utf8: Utf8, s: Schema, count: nat, buf: Bytes, k: nat, items: seq<Value>, offset: nat) {
    && k <= count && offset <= |buf|
    && match DecItems(utf8, s, count - k, buf[offset..])
       case Ok((vs, n)) => DecItems(utf8, s, count, buf) == Ok((items + vs, offset + n))
       case Err(e) => DecItems(utf8, s, count, buf) == Err(e)
  }

  lemma ReadNothing(utf8: Utf8, s: Schema, count: nat, buf: Bytes)
    ensures Ahead(utf8, s, count, buf, 0, [], 0)
  {
    hide Dec, DecItems;
    assert buf[0..] == buf;
    if DecItems(utf8, s, count, buf).Ok? {
      assert [] + DecItems(utf8, s, count, buf).value.0 == DecItems(utf8, s, count, buf).value.0;
    }
  }

  lemma ReadStep(utf8: Utf8, s: Schema, count: nat, buf: Bytes, k: nat, items: seq<Value>, offset: nat)
    requires k < count && Ahead(utf8, s, count, buf, k, items, offset)
    ensures match Dec(utf8, s, buf[offset..])
            case Ok((v, n)) => offset + n <= |buf| && Ahead(utf8, s, count, buf, k + 1, items + [v], offset + n)
            case Err(e) => DecItems(utf8, s, count, buf) == Err(e)
  {
    hide Dec, DecItems;
    DecItemsNext(utf8, s, count - k, buf[offset..]);
    if Dec(utf8, s, buf[offset..]).Ok? {
      var (v, n) := Dec(utf8, s, buf[offset..]).value;
      assert buf[offset..][n..] == buf[offset + n..];
      Shifted(items, v, if DecItems(utf8, s, count - k - 1, buf[offset + n..]).Ok?
                        then DecItems(utf8, s, count - k - 1, buf[offset + n..]).value.0 else []);
    }
  }

  lemma Shifted(items: seq<Value>, v: Value, vs: seq<Value>)
    ensures items + ([v] + vs) == items + [v] + vs
  {
  }

  lemma DecItemsNext(utf8: Utf8, s: Schema, count: nat, buf: Bytes)
    requires count > 0
    ensures match Dec(utf8, s, buf)
            case Err(e) => DecItems(utf8, s, count, buf) == Err(e)
            case Ok((v, n)) =>
              match DecItems(utf8, s, count - 1, buf[n..])
              case Err(e) => DecItems(utf8, s, count, buf) == Err(e)
              case Ok((vs, m)) => DecItems(utf8, s, count, buf) == Ok(([v] + vs, n + m))
  {
    hide Dec;
  }

  lemma ReadEverything(utf8: Utf8, s: Schema, count: nat, buf: Bytes, items: seq<Value>, offset: nat)
    requires Ahead(utf8, s, count, buf, count, items, offset)
    ensures DecItems(utf8, s, count, buf) == Ok((items, offset))
  {
    hide Dec;
    assert DecItems(utf8, s, 0, buf[offset..]) == Ok(([], 0));
    assert items + [] == items;
  }
}
