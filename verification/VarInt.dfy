/** Length prefixes: unsigned LEB128 (section 7.6 of DWARF 5) restricted to u32 and to minimal length. */
module VarInt {
  import opened Prelude

  datatype BytesError = BufferTooSmall | InvalidData | UnexpectedEof | Custom

  const MAX_VAR_INT_LEN: nat := 5

  /** Seven bits a byte, low bits first, the high bit on all but the last byte. */
  function Encoded(n: nat): (r: Bytes)
    ensures |r| > 0
  {
    if n < 128 then [n as Byte] else [(n % 128 + 128) as Byte] + Encoded(n / 128)
  }

  lemma EncodedStep(n: nat)
    ensures n < 128 ==> Encoded(n) == [n as Byte]
    ensures n >= 128 ==> Encoded(n) == [(n % 128 + 128) as Byte] + Encoded(n / 128)
  {
  }

  /** The number of bytes, as the program tabulates it. */
  function Len(n: nat): nat {
    if n < 0x80 then 1 else if n < 0x4000 then 2 else if n < 0x20_0000 then 3 else if n < 0x1000_0000 then 4 else 5
  }

  lemma LenEncoded(n: nat)
    requires n <= U32_MAX
    ensures |Encoded(n)| == Len(n)
  {
    if n >= 128 {
      LenSmall(n / 128, 0x200_0000);
    }
  }

  lemma {:induction false} LenSmall(n: nat, bound: nat)
    requires n < bound <= 0x200_0000
    ensures |Encoded(n)| == Len(n)
    decreases n
  {
    if n >= 128 {
      LenSmall(n / 128, bound);
    }
  }

  /** The value a byte string stands for when read as unsigned LEB128, if it is one. */
  function Leb128(bytes: Bytes): Option<nat> {
    if bytes == [] then None
    else if |bytes| == 1 then if bytes[0] < 128 then Some(bytes[0]) else None
    else if bytes[0] < 128 then None
    else
      var rest := Leb128(bytes[1..]);
      if rest.Some? then Some(bytes[0] - 128 + 128 * rest.value) else None
  }

  lemma {:induction false} EncodedIsLeb128(n: nat)
    ensures Leb128(Encoded(n)) == Some(n)
  {
    if n >= 128 {
      EncodedIsLeb128(n / 128);
      assert Encoded(n)[1..] == Encoded(n / 128);
    }
  }

  /** No unsigned LEB128 form of a number is shorter than the encoding, and none of the same length differs. */
  lemma {:induction false} EncodedMinimal(bytes: Bytes)
    requires Leb128(bytes).Some?
    ensures |Encoded(Leb128(bytes).value)| <= |bytes|
    ensures |Encoded(Leb128(bytes).value)| == |bytes| ==> Encoded(Leb128(bytes).value) == bytes
    decreases |bytes|
  {
    if |bytes| > 1 {
      var rest := bytes[1..];
      EncodedMinimal(rest);
      var m := Leb128(rest).value;
      var n := bytes[0] - 128 + 128 * m;
      DivMod(bytes[0] - 128, m);
      assert n % 128 == bytes[0] - 128 && n / 128 == m;
      EncodedStep(n);
      hide Encoded, Leb128;
      assert bytes == [bytes[0]] + rest;
    }
  }

  lemma DivMod(low: nat, m: nat)
    requires low < 128
    ensures (low + 128 * m) % 128 == low && (low + 128 * m) / 128 == m
  {
  }

  // ---- Decoding ----

  /** Reads from byte `i` on; the fifth byte may carry four bits only. */
  function DecodeFrom(buf: Bytes, i: nat): (r: Result<(nat, nat), BytesError>)
    ensures r.Ok? ==> i < r.value.1 <= |buf| && r.value.1 <= MAX_VAR_INT_LEN
    decreases |buf| - i
  {
    if i >= |buf| then Err(UnexpectedEof)
    else if i >= MAX_VAR_INT_LEN then Err(InvalidData)
    else if i == 4 && buf[i] > 0x0F then Err(InvalidData)
    else if buf[i] < 128 then Ok((buf[i], i + 1))
    else
      match DecodeFrom(buf, i + 1)
      case Ok((v, c)) => Ok((buf[i] - 128 + 128 * v, c))
      case Err(e) => Err(e)
  }

  /** The number at the front of `buf` and its length; longer forms than necessary are refused. */
  function Decode(buf: Bytes): (r: Result<(nat, nat), BytesError>)
    ensures r.Ok? ==> r.value.1 <= |buf|
  {
    match DecodeFrom(buf, 0)
    case Ok((v, c)) => if c == Len(v) then Ok((v, c)) else Err(InvalidData)
    case Err(e) => Err(e)
  }

  /** Bytes are wanting exactly if fewer than five were given and each of them announces another. */
  lemma DecodeEof(buf: Bytes)
    ensures Decode(buf) == Err(UnexpectedEof) <==> |buf| < 5 && forall i :: 0 <= i < |buf| ==> buf[i] >= 128
    ensures Decode(buf).Err? ==> Decode(buf).error.UnexpectedEof? || Decode(buf).error.InvalidData?
  {
    DecodeFromEof(buf, 0);
  }

  lemma {:induction false} DecodeFromEof(buf: Bytes, i: nat)
    requires i <= |buf| && i <= 4
    ensures DecodeFrom(buf, i) == Err(UnexpectedEof) <==> |buf| < 5 && forall j :: i <= j < |buf| ==> buf[j] >= 128
    ensures DecodeFrom(buf, i).Err? ==> DecodeFrom(buf, i).error.UnexpectedEof? || DecodeFrom(buf, i).error.InvalidData?
    decreases |buf| - i
  {
    if i < |buf| && i < 4 {
      DecodeFromEof(buf, i + 1);
    }
  }

  /** A prefix that was cut short is refused for want of bytes. */
  lemma DecodeCut(n: nat, k: nat)
    requires n <= U32_MAX && k < |Encoded(n)|
    ensures Decode(Encoded(n)[..k]) == Err(UnexpectedEof)
  {
    LenEncoded(n);
    DecodeFromCut([], n, k);
    assert [] + Encoded(n)[..k] == Encoded(n)[..k];
  }

  lemma {:induction false} DecodeFromCut(front: Bytes, n: nat, k: nat)
    requires k < |Encoded(n)| && |front| + |Encoded(n)| <= 5
    ensures DecodeFrom(front + Encoded(n)[..k], |front|) == Err(UnexpectedEof)
    decreases k
  {
    if k > 0 {
      EncodedStep(n);
      var byte := (n % 128 + 128) as Byte;
      assert Encoded(n)[..k] == [byte] + Encoded(n / 128)[..k - 1];
      assert front + Encoded(n)[..k] == (front + [byte]) + Encoded(n / 128)[..k - 1];
      DecodeFromCut(front + [byte], n / 128, k - 1);
    }
  }

  /** Decoding reads exactly the byte strings that are LEB128 of a number below the remaining range. */
  lemma {:induction false} DecodeFromMeans(buf: Bytes, i: nat)
    requires i < MAX_VAR_INT_LEN && DecodeFrom(buf, i).Ok?
    ensures var (v, c) := DecodeFrom(buf, i).value;
            Leb128(buf[i..c]) == Some(v) && v < Range(i)
    decreases |buf| - i
  {
    var (v, c) := DecodeFrom(buf, i).value;
    if buf[i] < 128 {
      assert buf[i..c] == [buf[i]];
    } else {
      DecodeFromMeans(buf, i + 1);
      assert buf[i..c][1..] == buf[i + 1..c];
    }
  }

  /** How large the number from byte `i` on may be: 2^32 divided by 128^i, at least 16. */
  function Range(i: nat): nat {
    if i == 0 then 0x1_0000_0000
    else if i == 1 then 0x200_0000
    else if i == 2 then 0x4_0000
    else if i == 3 then 0x800
    else 16
  }

  lemma {:induction false} DecodeFromEncoded(pre: Bytes, n: nat, rest: Bytes)
    requires |pre| < MAX_VAR_INT_LEN && n < Range(|pre|)
    ensures DecodeFrom(pre + Encoded(n) + rest, |pre|) == Ok((n, |pre| + |Encoded(n)|))
    decreases n
  {
    var buf := pre + Encoded(n) + rest;
    assert buf[|pre|] == Encoded(n)[0];
    if n >= 128 {
      var pre' := pre + [Encoded(n)[0]];
      DecodeFromEncoded(pre', n / 128, rest);
      assert buf == pre' + Encoded(n / 128) + rest;
    }
  }

  lemma DecodeEncoded(n: nat, rest: Bytes)
    requires n <= U32_MAX
    ensures Decode(Encoded(n) + rest) == Ok((n, |Encoded(n)|))
  {
    assert [] + Encoded(n) + rest == Encoded(n) + rest;
    DecodeFromEncoded([], n, rest);
    LenEncoded(n);
  }

  /** Whatever is accepted is the encoding of the value, so every number has one accepted form. */
  lemma DecodeCanonical(buf: Bytes)
    requires Decode(buf).Ok?
    ensures var (n, c) := Decode(buf).value; n <= U32_MAX && buf[..c] == Encoded(n)
  {
    var (n, c) := Decode(buf).value;
    DecodeFromMeans(buf, 0);
    assert buf[0..c] == buf[..c];
    LenEncoded(n);
    EncodedMinimal(buf[..c]);
  }

  // ---- The loops ----

  /** Writes the encoding at `offset`; fails exactly if it does not fit. */
  method EncodeInto(n: nat, buf: array<Byte>, offset: nat) returns (r: Result<nat, BytesError>)
    requires offset <= buf.Length
    modifies buf
    ensures buf[..offset] == old(buf[..offset])
    ensures r.Ok? <==> offset + |Encoded(n)| <= buf.Length
    ensures r.Ok? ==> r.value == |Encoded(n)| && buf[offset..offset + r.value] == Encoded(n)
    ensures r.Err? ==> r.error == BufferTooSmall
  {
    var value, i := n, 0;
    while true
      invariant offset + i <= buf.Length
      invariant buf[..offset] == old(buf[..offset])
      invariant buf[offset..offset + i] + Encoded(value) == Encoded(n)
      decreases value
    {
      if offset + i >= buf.Length {
        return Err(BufferTooSmall);
      }
      EncodedStep(value);
      ghost var done := buf[offset..offset + i];
      if value < 128 {
        buf[offset + i] := value as Byte;
        assert buf[offset..offset + i + 1] == done + [value as Byte];
        return Ok(i + 1);
      }
      buf[offset + i] := (value % 128 + 128) as Byte;
      assert buf[offset..offset + i + 1] == done + [(value % 128 + 128) as Byte];
      value := value / 128;
      i := i + 1;
    }
  }

  function Weight(i: nat): nat {
    if i == 0 then 1 else 128 * Weight(i - 1)
  }

  /** Reads bytes until one without the continuation bit. */
  method DecodeRaw(buf: Bytes) returns (r: Result<(nat, nat), BytesError>)
    ensures r == DecodeFrom(buf, 0)
  {
    var result: nat, i: nat := 0, 0;
    while i < |buf|
      invariant i <= |buf|
      invariant match DecodeFrom(buf, i)
                case Ok((v, c)) => DecodeFrom(buf, 0) == Ok((result + Weight(i) * v, c))
                case Err(e) => DecodeFrom(buf, 0) == Err(e)
    {
      if i >= MAX_VAR_INT_LEN {
        return Err(InvalidData);
      }
      if i == 4 && buf[i] > 0x0F {
        return Err(InvalidData);
      }
      if buf[i] < 128 {
        Distribute(Weight(i), buf[i], 0);
        return Ok((result + Weight(i) * buf[i], i + 1));
      }
      Accumulate(buf, result, i);
      result := result + Weight(i) * (buf[i] - 128);
      i := i + 1;
    }
    r := Err(UnexpectedEof);
  }

  lemma Accumulate(buf: Bytes, result: nat, i: nat)
    requires i < |buf| && i < MAX_VAR_INT_LEN && buf[i] >= 128 && (i == 4 ==> buf[i] <= 0x0F)
    ensures DecodeFrom(buf, i + 1).Ok? ==>
              var v := DecodeFrom(buf, i + 1).value.0;
              result + Weight(i) * (buf[i] - 128 + 128 * v) == result + Weight(i) * (buf[i] - 128) + Weight(i + 1) * v
    ensures Weight(i) * (buf[i] - 128) >= 0
  {
    Distribute(Weight(i), buf[i] - 128, 0);
    if DecodeFrom(buf, i + 1).Ok? {
      Distribute(Weight(i), buf[i] - 128, DecodeFrom(buf, i + 1).value.0);
    }
  }

  lemma Distribute(w: nat, a: nat, v: nat)
    ensures w * (a + 128 * v) == w * a + (128 * w) * v && w * a >= 0
  {
  }

  method DecodeBytes(buf: Bytes) returns (r: Result<(nat, nat), BytesError>)
    ensures r == Decode(buf)
  {
    r := DecodeRaw(buf);
    if r.Ok? && r.value.1 != Len(r.value.0) {
      r := Err(InvalidData);
    }
  }
}
