/**
 The protobuf wire codec: base-128 varints, length-delimited fields and the field walker.
 Byte strings are the specification; the methods push into a buffer and advance a cursor as
 wire.rs does and are proved against it.
 */
module Wire {
  import opened Bits
  import opened Wrappers

  datatype FieldVal = Varint(n: u64) | Bytes(data: seq<byte>)

  datatype Field = Field(num: u64, val: FieldVal)

  // A growing Vec<u8>.
  class Buffer {
    var bytes: seq<byte>

    constructor ()
      ensures bytes == []
    {
      bytes := [];
    }
  }

  // A slice with the read index that read_varint advances.
  class Cursor {
    const buf: seq<byte>
    var pos: nat

    constructor (buf: seq<byte>)
      ensures this.buf == buf && pos == 0
    {
      this.buf := buf;
      pos := 0;
    }
  }

  // ---------------------------------------------------------------- varints

  // The value of base-128 digits, least significant first, continuation bits ignored.
  function Base128(s: seq<byte>): nat {
    if s == [] then 0 else s[0] % 128 + 128 * Base128(s[1..])
  }

  function VarintOf(v: nat): (s: seq<byte>)
    ensures s != []
  {
    if v < 128 then [v] else [v % 128 + 128] + VarintOf(v / 128)
  }

  // A varint: every byte but the last has its continuation bit set.
  predicate IsVarint(s: seq<byte>) {
    s != [] && s[|s| - 1] < 128 && forall i :: 0 <= i < |s| - 1 ==> s[i] >= 128
  }

  // The number of bytes the leading varint takes, if it ends within `limit` bytes of `s`.
  function VarintLength(s: seq<byte>, limit: nat): (r: Option<nat>)
    ensures r.Some? ==> 1 <= r.value <= limit && r.value <= |s|
  {
    if s == [] || limit == 0 then None
    else if s[0] < 128 then Some(1)
    else
      match VarintLength(s[1..], limit - 1)
      case None => None
      case Some(n) => Some(n + 1)
  }

  // It is found exactly when some prefix within the limit is a varint, and it is that prefix.
  lemma {:induction false} VarintLengthFinds(s: seq<byte>, limit: nat, n: nat)
    ensures 1 <= n <= limit && n <= |s| && IsVarint(s[..n]) <==> VarintLength(s, limit) == Some(n)
  {
    if s != [] && limit > 0 {
      if s[0] < 128 {
        if 1 < n <= |s| {
          assert s[..n][0] < 128;
        }
      } else if 1 < n <= |s| {
        VarintLengthFinds(s[1..], limit - 1, n - 1);
        var t := s[1..][..n - 1];
        assert s[..n] == [s[0]] + t;
        assert IsVarint(s[..n]) <==> IsVarint(t) by {
          assert forall i :: 0 <= i < n - 1 ==> s[..n][i + 1] == t[i];
        }
      }
    }
  }

  // The value and the size of the varint that `s` begins with; a u64 takes at most ten bytes.
  function ReadVarintOf(s: seq<byte>): (r: Option<(u64, nat)>)
    ensures r.Some? ==> 1 <= r.value.1 <= 10 && r.value.1 <= |s|
  {
    match VarintLength(s, 10)
    case None => None
    case Some(n) => Some((Base128(s[..n]) % TWO64, n))
  }

  lemma Pow2By7(m: nat)
    ensures Pow2(7 * (m + 1)) == 128 * Pow2(7 * m)
  {
    hide Pow2;
    Pow2Small();
    Pow2Add(7, 7 * m);
  }

  // Base 128 Varints: v is the sum of its seven-bit groups, the encoding is the shortest one.
  lemma {:induction false} VarintMeaning(v: nat)
    ensures IsVarint(VarintOf(v)) && Base128(VarintOf(v)) == v
    ensures v < Pow2(7 * |VarintOf(v)|)
    ensures |VarintOf(v)| > 1 ==> Pow2(7 * (|VarintOf(v)| - 1)) <= v
  {
    hide Pow2;
    Pow2Small();
    var s := VarintOf(v);
    if v >= 128 {
      VarintMeaning(v / 128);
      var t := VarintOf(v / 128);
      assert s[1..] == t;
      Pow2By7(|t|);
      if |t| > 1 {
        Pow2By7(|t| - 1);
      }
    }
  }

  lemma VarintSize(v: u64)
    ensures 1 <= |VarintOf(v)| <= 10
  {
    VarintMeaning(v);
    Pow2Values();
    if |VarintOf(v)| > 10 {
      Pow2Monotonic(64, 7 * (|VarintOf(v)| - 1));
    }
  }

  // A well-formed varint is read whole, whatever follows it.
  lemma ReadWhole(s: seq<byte>, rest: seq<byte>)
    requires IsVarint(s) && |s| <= 10
    ensures ReadVarintOf(s + rest) == Some((Base128(s) % TWO64, |s|))
  {
    assert (s + rest)[..|s|] == s;
    VarintLengthFinds(s + rest, 10, |s|);
  }

  lemma VarintRoundTrip(v: u64, rest: seq<byte>)
    ensures ReadVarintOf(VarintOf(v) + rest) == Some((v, |VarintOf(v)|))
  {
    hide VarintOf, IsVarint, Base128, ReadVarintOf, Pow2;
    VarintMeaning(v);
    VarintSize(v);
    ReadWhole(VarintOf(v), rest);
  }

  // What is read from `s` is read from every extension of `s`.
  lemma ReadPrefix(s: seq<byte>, rest: seq<byte>)
    requires ReadVarintOf(s).Some?
    ensures ReadVarintOf(s + rest) == ReadVarintOf(s)
  {
    var n := ReadVarintOf(s).value.1;
    VarintLengthFinds(s, 10, n);
    assert s + rest == s[..n] + (s[n..] + rest);
    ReadWhole(s[..n], s[n..] + rest);
  }

  lemma Commute(a: nat, d: nat, p: nat)
    ensures a * (d * p) == d * (a * p)
  {
  }

  lemma SnocScale(d: nat, m: nat)
    ensures 128 * (d * Pow2(7 * m)) == d * Pow2(7 * (m + 1))
    ensures Pow2(7 * (m + 1)) == 128 * Pow2(7 * m)
  {
    hide Pow2;
    Pow2By7(m);
    Commute(128, d, Pow2(7 * m));
  }

  lemma {:induction false} Base128Snoc(s: seq<byte>, b: byte)
    ensures Base128(s + [b]) == Base128(s) + b % 128 * Pow2(7 * |s|)
    ensures Base128(s) < Pow2(7 * |s|)
  {
    if s == [] {
      assert s + [b] == [b];
    } else {
      Base128Snoc(s[1..], b);
      assert (s + [b])[1..] == s[1..] + [b];
      SnocScale(b % 128, |s| - 1);
    }
  }

  lemma VarintStep(v: nat)
    ensures VarintOf(v) == if v / 128 == 0 then [v] else [v % 128 + 128] + VarintOf(v / 128)
  {
  }

  lemma ContinuationBit(b: nat)
    requires b < 128
    ensures Or(b, 0x80) == b + 0x80
  {
    hide Or;
    Pow2Small();
    OrDisjoint(b, 1, 7);
  }

  method PutVarint(out: Buffer, value: u64)
    modifies out
    ensures out.bytes == old(out.bytes) + VarintOf(value)
  {
    hide VarintOf, Or, Pow2;
    var v := value;
    ghost var done: seq<byte> := [];
    while true
      invariant out.bytes == old(out.bytes) + done
      invariant done + VarintOf(v) == VarintOf(value)
      decreases v
    {
      ghost var rest := VarintOf(v);
      VarintStep(v);
      var b := v % 128;
      ContinuationBit(b);
      v := v / 128;
      if v != 0 {
        b := Or(b, 0x80);
      }
      out.bytes := out.bytes + [b];
      done := done + [b];
      if v == 0 {
        break;
      }
      assert rest == [b] + VarintOf(v);
    }
  }

  lemma NoDigits(s: seq<byte>)
    ensures Base128(s[..0]) == 0
  {
  }

  lemma DigitSum(r: nat, d: nat, m: nat)
    requires m <= 64 && r < Pow2(m)
    ensures Or(r, d * Pow2(m) % Pow2(64)) == (r + d * Pow2(m)) % TWO64
  {
    hide Pow2, Or;
    OrShifted(r, d, m);
    Pow2Values();
  }

  // Or-ing the next digit in place adds it, modulo 2^64, and exactly below 64 bits.
  lemma DigitAdded(s: seq<byte>, n: nat)
    requires n < |s| && n <= 9
    ensures Base128(s[..n]) < Pow2(7 * n)
    ensures var sum := Or(Base128(s[..n]), s[n] % 128 * Pow2(7 * n) % Pow2(64));
            sum == Base128(s[..n + 1]) % TWO64 && (n < 9 ==> sum == Base128(s[..n + 1]))
  {
    hide Pow2, Base128, Or;
    assert s[..n + 1] == s[..n] + [s[n]];
    Base128Snoc(s[..n], s[n]);
    DigitSum(Base128(s[..n]), s[n] % 128, 7 * n);
    if n < 9 {
      Pow2Values();
      Base128Snoc(s[..n + 1], 0);
      Pow2Monotonic(7 * (n + 1), 64);
    }
  }

  lemma NoVarint(s: seq<byte>, n: nat)
    requires n <= |s| && (n == |s| || n == 10)
    requires forall i :: 0 <= i < n ==> s[i] >= 128
    ensures ReadVarintOf(s) == None
  {
    var m := VarintLength(s, 10);
    if m.Some? {
      VarintLengthFinds(s, 10, m.value);
    }
  }

  method ReadVarint(cur: Cursor) returns (r: Option<u64>)
    requires cur.pos <= |cur.buf|
    modifies cur
    ensures match ReadVarintOf(cur.buf[old(cur.pos)..])
            case None => r == None
            case Some((v, n)) => r == Some(v) && cur.pos == old(cur.pos) + n
    ensures old(cur.pos) <= cur.pos <= |cur.buf| && cur.pos <= old(cur.pos) + 10
  {
    hide Pow2, Base128, Or, ReadVarintOf;
    ghost var s := cur.buf[cur.pos..];
    ghost var n := 0;
    NoDigits(s);
    var result, shift := 0, 0;
    while true
      invariant n <= 9 && n <= |s| && shift == 7 * n && cur.pos == old(cur.pos) + n
      invariant forall i :: 0 <= i < n ==> s[i] >= 128
      invariant result == Base128(s[..n])
      decreases 10 - n
    {
      if cur.pos >= |cur.buf| {
        NoVarint(s, n);
        return None;
      }
      var b := cur.buf[cur.pos];
      cur.pos := cur.pos + 1;
      DigitAdded(s, n);
      result := Or(result, b % 128 * Pow2(shift) % Pow2(64));
      n := n + 1;
      if b < 0x80 {
        assert s == s[..n] + s[n..];
        ReadWhole(s[..n], s[n..]);
        return Some(result);
      }
      shift := shift + 7;
      if shift >= 64 {
        NoVarint(s, n);
        return None;
      }
    }
  }

  // ---------------------------------------------------------------- fields

  // One field at the start of `s`, which begins at index `off` of the whole buffer, and its size.
  function ReadFieldOf(s: seq<byte>, off: nat): (r: Result<(Field, nat), string>)
    ensures r.Ok? ==> 1 <= r.value.1 <= |s|
  {
    match ReadVarintOf(s)
    case None => Err("truncated field key")
    case Some((key, n)) =>
      var num := key / 8;
      if key % 8 == 0 then
        match ReadVarintOf(s[n..])
        case None => Err("truncated varint value")
        case Some((v, m)) => Ok((Field(num, Varint(v)), n + m))
      else if key % 8 == 2 then
        match ReadVarintOf(s[n..])
        case None => Err("truncated length")
        case Some((len, m)) =>
          var start := n + m;
          if off + start + len >= TWO64 then Err("length overflow")
          else if start + len > |s| then Err("length exceeds buffer")
          else Ok((Field(num, Bytes(s[start..start + len])), start + len))
      else Err("unsupported wire type " + ["01234567"[key % 8]])
  }

  // A key is a field number and a wire type; only varints and length-delimited bytes are read, and
  // the bytes must lie in the buffer.
  lemma ReadFieldMeaning(num: u64, wire: nat, rest: seq<byte>, off: nat)
    requires num < 0x2000_0000_0000_0000 && wire < 8 && off + |rest| <= MAX_LEN - 10
    ensures var k := |VarintOf(8 * num + wire)|;
            var r := ReadFieldOf(VarintOf(8 * num + wire) + rest, off);
            var x := ReadVarintOf(rest);
            if wire == 0 then
              r == if x.None? then Err("truncated varint value") else Ok((Field(num, Varint(x.value.0)), k + x.value.1))
            else if wire == 2 then
              r == if x.None? then Err("truncated length")
                   else if off + k + x.value.1 + x.value.0 >= TWO64 then Err("length overflow")
                   else if x.value.1 + x.value.0 > |rest| then Err("length exceeds buffer")
                   else Ok((Field(num, Bytes(rest[x.value.1..x.value.1 + x.value.0])), k + x.value.1 + x.value.0))
            else r == Err("unsupported wire type " + ["01234567"[wire]])
  {
    hide VarintOf, ReadVarintOf;
    var key := VarintOf(8 * num + wire);
    var s := key + rest;
    VarintRoundTrip(8 * num + wire, rest);
    assert s[|key|..] == rest;
    if wire == 2 && ReadVarintOf(rest).Some? {
      var (len, m) := ReadVarintOf(rest).value;
      if m + len <= |rest| {
        assert s[|key| + m..|key| + m + len] == rest[m..m + len];
      }
    }
  }

  // Without a complete key nothing is read.
  lemma ReadFieldNeedsKey(s: seq<byte>, off: nat)
    ensures ReadVarintOf(s) == None ==> ReadFieldOf(s, off) == Err("truncated field key")
  {
  }

  function Prepend(fs: seq<Field>, r: Result<seq<Field>, string>): Result<seq<Field>, string> {
    if r.Ok? then Ok(fs + r.value) else r
  }

  lemma PrependNothing(r: Result<seq<Field>, string>)
    ensures Prepend([], r) == r
  {
    if r.Ok? {
      assert [] + r.value == r.value;
    }
  }

  lemma PrependTwice(a: seq<Field>, b: seq<Field>, r: Result<seq<Field>, string>)
    ensures Prepend(a, Prepend(b, r)) == Prepend(a + b, r)
  {
    if r.Ok? {
      assert a + (b + r.value) == (a + b) + r.value;
    }
  }

  function WalkFrom(s: seq<byte>, off: nat): Result<seq<Field>, string>
    decreases |s|
  {
    if s == [] then Ok([]) else
      match ReadFieldOf(s, off)
      case Err(e) => Err(e)
      case Ok((f, n)) => Prepend([f], WalkFrom(s[n..], off + n))
  }

  // The fields of a buffer in order, or what is wrong with it.
  function Walk(buf: seq<byte>): Result<seq<Field>, string> {
    WalkFrom(buf, 0)
  }

  // The effect of the walker's callback over a list of fields.
  function Fold<S>(f: (S, Field) -> S, s: S, fs: seq<Field>): S {
    if fs == [] then s else Fold(f, f(s, fs[0]), fs[1..])
  }

  lemma {:induction false} FoldAppend<S>(f: (S, Field) -> S, s: S, a: seq<Field>, b: seq<Field>)
    ensures Fold(f, s, a + b) == Fold(f, Fold(f, s, a), b)
  {
    if a == [] {
      assert a + b == b;
    } else {
      assert (a + b)[1..] == a[1..] + b;
      FoldAppend(f, f(s, a[0]), a[1..], b);
    }
  }

  lemma FoldSnoc<S>(f: (S, Field) -> S, s: S, a: seq<Field>, x: Field)
    ensures Fold(f, s, a + [x]) == f(Fold(f, s, a), x)
  {
    FoldAppend(f, s, a, [x]);
  }

  lemma SliceOfSuffix(s: seq<byte>, off: nat, from: nat, to: nat)
    requires off <= from <= to <= |s|
    ensures s[off..][from - off..to - off] == s[from..to]
  {
  }

  // The body of the walker's loop.
  method ReadField(cur: Cursor) returns (r: Result<Field, string>)
    requires cur.pos < |cur.buf| <= MAX_LEN
    modifies cur
    ensures match ReadFieldOf(cur.buf[old(cur.pos)..], old(cur.pos))
            case Err(e) => r == Err(e)
            case Ok((f, n)) => r == Ok(f) && cur.pos == old(cur.pos) + n
    ensures cur.pos <= |cur.buf|
  {
    hide Base128, VarintLength, ReadVarintOf;
    ghost var (s, off) := (cur.buf[cur.pos..], cur.pos);
    var key := ReadVarint(cur);
    if key == None {
      return Err("truncated field key");
    }
    assert s[cur.pos - off..] == cur.buf[cur.pos..];
    var num, wire := key.value / 8, key.value % 8;
    if wire == 0 {
      var v := ReadVarint(cur);
      if v == None {
        return Err("truncated varint value");
      }
      return Ok(Field(num, Varint(v.value)));
    } else if wire == 2 {
      var len := ReadVarint(cur);
      if len == None {
        return Err("truncated length");
      }
      if cur.pos + len.value >= TWO64 {
        return Err("length overflow");
      }
      var end := cur.pos + len.value;
      if end > |cur.buf| {
        return Err("length exceeds buffer");
      }
      SliceOfSuffix(cur.buf, off, cur.pos, end);
      r := Ok(Field(num, Bytes(cur.buf[cur.pos..end])));
      cur.pos := end;
    } else {
      return Err("unsupported wire type " + ["01234567"[wire]]);
    }
  }

  method WalkFields<S>(buf: seq<byte>, f: (S, Field) -> S, init: S) returns (r: Result<(), string>, state: S)
    requires |buf| <= MAX_LEN
    ensures match Walk(buf)
            case Ok(fs) => r == Ok(()) && state == Fold(f, init, fs)
            case Err(e) => r == Err(e)
  {
    hide ReadFieldOf;
    var cur := new Cursor(buf);
    state := init;
    ghost var seen: seq<Field> := [];
    assert buf[0..] == buf;
    PrependNothing(Walk(buf));
    while cur.pos < |buf|
      invariant cur.pos <= |buf| && cur.buf == buf
      invariant Walk(buf) == Prepend(seen, WalkFrom(buf[cur.pos..], cur.pos))
      invariant state == Fold(f, init, seen)
      decreases |buf| - cur.pos
    {
      ghost var (s, off) := (buf[cur.pos..], cur.pos);
      var x := ReadField(cur);
      if x.Err? {
        return Err(x.error), state;
      }
      assert s[cur.pos - off..] == buf[cur.pos..];
      FoldSnoc(f, init, seen, x.value);
      PrependTwice(seen, [x.value], WalkFrom(buf[cur.pos..], cur.pos));
      state := f(state, x.value);
      seen := seen + [x.value];
    }
    assert seen + [] == seen;
    return Ok(()), state;
  }

  // ---------------------------------------------------------------- composition of the walker

  lemma ReadFieldPrefix(a: seq<byte>, b: seq<byte>, off: nat)
    requires ReadFieldOf(a, off).Ok?
    ensures ReadFieldOf(a + b, off) == ReadFieldOf(a, off)
  {
    var (key, n) := ReadVarintOf(a).value;
    ReadPrefix(a, b);
    assert (a + b)[n..] == a[n..] + b;
    ReadPrefix(a[n..], b);
    var (_, m) := ReadVarintOf(a[n..]).value;
    if key % 8 == 2 {
      var end := ReadFieldOf(a, off).value.1;
      assert (a + b)[n + m..end] == a[n + m..end];
    }
  }

  // The walk of a well-formed prefix does not depend on what follows it, and what follows is
  // walked as if it stood alone, up to which of the two length errors is reported.
  lemma {:induction false} WalkAppendFrom(a: seq<byte>, b: seq<byte>, off: nat)
    requires off + |a| + |b| <= MAX_LEN
    requires WalkFrom(a, off).Ok?
    ensures WalkFrom(a + b, off) == Prepend(WalkFrom(a, off).value, WalkFrom(b, off + |a|))
    decreases |a|
  {
    hide ReadFieldOf;
    if a == [] {
      assert a + b == b;
      PrependNothing(WalkFrom(b, off));
    } else {
      var (f, n) := ReadFieldOf(a, off).value;
      ReadFieldPrefix(a, b, off);
      assert (a + b)[n..] == a[n..] + b;
      WalkAppendFrom(a[n..], b, off + n);
      PrependTwice([f], WalkFrom(a[n..], off + n).value, WalkFrom(b, off + |a|));
    }
  }

  lemma ReadFieldOffset(s: seq<byte>, off: nat, off': nat)
    requires off + |s| <= MAX_LEN && off' + |s| <= MAX_LEN
    ensures ReadFieldOf(s, off).Ok? == ReadFieldOf(s, off').Ok?
    ensures ReadFieldOf(s, off).Ok? ==> ReadFieldOf(s, off) == ReadFieldOf(s, off')
  {
  }

  lemma {:induction false} WalkOffset(s: seq<byte>, off: nat, off': nat)
    ensures off + |s| <= MAX_LEN && off' + |s| <= MAX_LEN ==> WalkFrom(s, off).Ok? == WalkFrom(s, off').Ok?
    ensures off + |s| <= MAX_LEN && off' + |s| <= MAX_LEN && WalkFrom(s, off).Ok? ==>
        WalkFrom(s, off) == WalkFrom(s, off')
    decreases |s|
  {
    hide ReadFieldOf;
    if s != [] && off + |s| <= MAX_LEN && off' + |s| <= MAX_LEN {
      ReadFieldOffset(s, off, off');
      if ReadFieldOf(s, off).Ok? {
        var (_, n) := ReadFieldOf(s, off).value;
        WalkOffset(s[n..], off + n, off' + n);
      }
    }
  }

  lemma WalkAppend(a: seq<byte>, b: seq<byte>)
    requires |a| + |b| <= MAX_LEN
    requires Walk(a).Ok?
    ensures Walk(b).Ok? ==> Walk(a + b) == Ok(Walk(a).value + Walk(b).value)
    ensures Walk(b).Err? ==> Walk(a + b).Err?
  {
    WalkAppendFrom(a, b, 0);
    WalkOffset(b, 0, |a|);
  }

  // ---------------------------------------------------------------- encoding fields

  predicate Encodable(f: Field) {
    f.num < 0x2000_0000_0000_0000 && (f.val.Bytes? ==> |f.val.data| <= MAX_LEN)
  }

  function FieldBytes(f: Field): seq<byte>
    requires Encodable(f)
  {
    match f.val
    case Varint(v) => VarintOf(8 * f.num) + VarintOf(v)
    case Bytes(data) => VarintOf(8 * f.num + 2) + VarintOf(|data|) + data
  }

  function EncodeFields(fs: seq<Field>): seq<byte>
    requires forall f :: f in fs ==> Encodable(f)
  {
    if fs == [] then [] else FieldBytes(fs[0]) + EncodeFields(fs[1..])
  }

  lemma {:induction false} EncodeAppend(a: seq<Field>, b: seq<Field>)
    requires forall f :: f in a ==> Encodable(f)
    requires forall f :: f in b ==> Encodable(f)
    ensures EncodeFields(a + b) == EncodeFields(a) + EncodeFields(b)
  {
    if a == [] {
      assert a + b == b;
    } else {
      assert (a + b)[1..] == a[1..] + b;
      EncodeAppend(a[1..], b);
    }
  }

  lemma ReadEncodedVarint(num: u64, v: u64, rest: seq<byte>, off: nat)
    requires Encodable(Field(num, Varint(v)))
    ensures var b := FieldBytes(Field(num, Varint(v)));
            ReadFieldOf(b + rest, off) == Ok((Field(num, Varint(v)), |b|))
  {
    hide VarintOf, ReadVarintOf;
    var (k, n) := (VarintOf(8 * num), VarintOf(v));
    var s := k + n + rest;
    assert s == k + (n + rest) && s[|k|..] == n + rest;
    VarintRoundTrip(8 * num, n + rest);
    VarintRoundTrip(v, rest);
  }

  lemma ReadBytesField(s: seq<byte>, off: nat, num: u64, k: nat, len: u64, m: nat)
    requires 8 * num + 2 < TWO64 && k <= |s|
    requires ReadVarintOf(s) == Some((8 * num + 2, k)) && ReadVarintOf(s[k..]) == Some((len, m))
    requires off + |s| <= MAX_LEN && k + m + len <= |s|
    ensures ReadFieldOf(s, off) == Ok((Field(num, Bytes(s[k + m..k + m + len])), k + m + len))
  {
    hide ReadVarintOf;
  }

  lemma ReadEncodedBytes(num: u64, data: seq<byte>, rest: seq<byte>, off: nat)
    requires Encodable(Field(num, Bytes(data)))
    requires off + |FieldBytes(Field(num, Bytes(data)))| + |rest| <= MAX_LEN
    ensures var b := FieldBytes(Field(num, Bytes(data)));
            ReadFieldOf(b + rest, off) == Ok((Field(num, Bytes(data)), |b|))
  {
    hide VarintOf, ReadVarintOf, ReadFieldOf;
    var (k, n) := (VarintOf(8 * num + 2), VarintOf(|data|));
    var s := k + n + data + rest;
    var tail := n + (data + rest);
    assert s == k + tail;
    VarintRoundTrip(8 * num + 2, tail);
    VarintRoundTrip(|data|, data + rest);
    assert s[|k|..] == tail;
    assert s[|k| + |n|..|k| + |n| + |data|] == data;
    ReadBytesField(s, off, num, |k|, |data|, |n|);
  }

  lemma ReadEncodedField(f: Field, rest: seq<byte>, off: nat)
    requires Encodable(f)
    requires off + |FieldBytes(f)| + |rest| <= MAX_LEN
    ensures ReadFieldOf(FieldBytes(f) + rest, off) == Ok((f, |FieldBytes(f)|))
  {
    match f.val
    case Varint(v) => ReadEncodedVarint(f.num, v, rest, off);
    case Bytes(data) => ReadEncodedBytes(f.num, data, rest, off);
  }

  // Printing any list of fields and walking the bytes gives the list back.
  lemma {:induction false} WalkEncodedFrom(fs: seq<Field>, off: nat)
    requires forall f :: f in fs ==> Encodable(f)
    requires off + |EncodeFields(fs)| <= MAX_LEN
    ensures WalkFrom(EncodeFields(fs), off) == Ok(fs)
  {
    hide ReadFieldOf, FieldBytes;
    if fs != [] {
      var (b, rest) := (FieldBytes(fs[0]), EncodeFields(fs[1..]));
      ReadEncodedField(fs[0], rest, off);
      assert (b + rest)[|b|..] == rest;
      WalkEncodedFrom(fs[1..], off + |b|);
      assert [fs[0]] + fs[1..] == fs;
    }
  }

  lemma WalkEncoded(fs: seq<Field>)
    requires forall f :: f in fs ==> Encodable(f)
    requires |EncodeFields(fs)| <= MAX_LEN
    ensures Walk(EncodeFields(fs)) == Ok(fs)
  {
    WalkEncodedFrom(fs, 0);
  }

  lemma FieldKey(num: nat)
    ensures num * Pow2(3) == 8 * num && Or(2, num * Pow2(3)) == 8 * num + 2
  {
    hide Pow2, Or;
    Pow2Small();
    OrDisjoint(2, num, 3);
  }

  method PutLenField(out: Buffer, num: u64, data: seq<byte>)
    requires Encodable(Field(num, Bytes(data)))
    modifies out
    ensures out.bytes == old(out.bytes) + FieldBytes(Field(num, Bytes(data)))
  {
    hide VarintOf, Pow2, Or;
    FieldKey(num);
    PutVarint(out, Or(2, num * Pow2(3)));
    PutVarint(out, |data|);
    out.bytes := out.bytes + data;
  }

  method PutVarintField(out: Buffer, num: u64, v: u64)
    requires Encodable(Field(num, Varint(v)))
    modifies out
    ensures out.bytes == old(out.bytes) + FieldBytes(Field(num, Varint(v)))
  {
    hide VarintOf, Pow2;
    FieldKey(num);
    PutVarint(out, num * Pow2(3));
    PutVarint(out, v);
  }
}
