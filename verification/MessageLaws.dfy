/**
 What the gifter messages guarantee: every message survives encoding and decoding, and decoding
 depends on nothing but the last value of each known field.
 */
module MessageLaws {
  import opened Bits
  import opened Wrappers
  import opened Text
  import opened Wire
  import opened Messages

  // ---------------------------------------------------------------- values of field lists

  lemma {:induction false} ValuesAppend(a: seq<Field>, b: seq<Field>, num: u64)
    ensures Values(a + b, num) == Values(a, num) + Values(b, num)
  {
    if b == [] {
      assert a + b == a;
    } else {
      var c := b[..|b| - 1];
      assert (a + b)[..|a + b| - 1] == a + c;
      ValuesAppend(a, c, num);
    }
  }

  lemma {:induction false} LastAbsent(fs: seq<Field>, num: u64)
    requires forall f :: f in fs ==> f.num != num
    ensures Last(fs, num) == None
  {
    if fs != [] {
      LastAbsent(fs[..|fs| - 1], num);
    }
  }

  lemma {:induction false} LastDistinct(fs: seq<Field>, i: nat)
    requires i < |fs| && forall j :: i < j < |fs| ==> fs[j].num != fs[i].num
    ensures Last(fs, fs[i].num) == Some(fs[i].val)
  {
    LastSnoc(fs, fs[i].num);
    if i < |fs| - 1 {
      LastDistinct(fs[..|fs| - 1], i);
    }
  }

  // ---------------------------------------------------------------- responses

  predicate SubMessagesDecode(fs: seq<Field>) {
    forall f :: f in fs ==>
      && (f.num == 4 ==> DecodeSuccess(BytesOr(Some(f.val))).Ok?)
      && (f.num == 5 ==> DecodeFailure(BytesOr(Some(f.val))).Ok?)
  }

  function SuccessIn(v: Option<FieldVal>): Option<Success> {
    if v.Some? && DecodeSuccess(BytesOr(v)).Ok? then Some(DecodeSuccess(BytesOr(v)).value) else None
  }

  function FailureIn(v: Option<FieldVal>): Option<Failure> {
    if v.Some? && DecodeFailure(BytesOr(v)).Ok? then Some(DecodeFailure(BytesOr(v)).value) else None
  }

  function ResponseOf(fs: seq<Field>): Response {
    Response(StringOr(Last(fs, 1)), U64Or(Last(fs, 2)) != 0, OptionalString(Last(fs, 3)), SuccessIn(Last(fs, 4)),
        FailureIn(Last(fs, 5)))
  }

  lemma {:induction false} ResponseByLast(fs: seq<Field>)
    ensures SubMessagesDecode(fs) ==>
              Fold(ResponseStep, NO_RESPONSE, fs)
                  == ResponseAcc(ResponseOf(fs), None, Last(fs, 1).Some?, Last(fs, 2).Some?)
    ensures !SubMessagesDecode(fs) ==> Fold(ResponseStep, NO_RESPONSE, fs).subErr.Some?
  {
    hide Fold, Last, FromUtf8Lossy, DecodeSuccess, DecodeFailure;
    if fs == [] {
      NoFields();
      FoldNothing(ResponseStep, NO_RESPONSE);
    } else {
      var (a, x) := (fs[..|fs| - 1], fs[|fs| - 1]);
      ResponseByLast(a);
      assert fs == a + [x];
      assert SubMessagesDecode(fs) <==> SubMessagesDecode(a) && SubMessagesDecode([x]);
      assert x in [x];
      LastSnoc(fs, 1);
      LastSnoc(fs, 2);
      LastSnoc(fs, 3);
      LastSnoc(fs, 4);
      LastSnoc(fs, 5);
      FoldSnoc(ResponseStep, NO_RESPONSE, a, x);
    }
  }

  // ---------------------------------------------------------------- round trips

  lemma RequestRoundTrip(m: Request)
    requires Fits(RequestFields(m))
    ensures DecodeRequest(EncodeFields(RequestFields(m))) == Ok(m)
  {
    hide EncodeFields, Walk, Fold, Last, Utf8, FromUtf8Lossy;
    var fs := RequestFields(m);
    WalkEncoded(fs);
    RequestByLast(fs);
    LastDistinct(fs, 0);
    LastDistinct(fs, 1);
    LastDistinct(fs, 2);
    LastDistinct(fs, 3);
    if m.rateLimit.Some? {
      LastDistinct(fs, 4);
    } else {
      LastAbsent(fs, 5);
    }
    Utf8RoundTrip(m.requestId);
  }

  lemma SuccessRoundTrip(m: Success)
    requires Fits(SuccessFields(m))
    ensures DecodeSuccess(EncodeFields(SuccessFields(m))) == Ok(m)
  {
    hide EncodeFields, Walk, Fold, Last, Utf8, FromUtf8Lossy;
    var fs := SuccessFields(m);
    WalkEncoded(fs);
    SuccessByLast(fs);
    LastDistinct(fs, 0);
    LastDistinct(fs, 1);
    LastDistinct(fs, 2);
    LastDistinct(fs, 3);
    if m.configAccount.Some? {
      LastDistinct(fs, 4);
      Utf8RoundTrip(m.configAccount.value);
    } else {
      LastAbsent(fs, 100);
    }
  }

  lemma FailureRoundTrip(m: Failure)
    requires Fits(FailureFields(m))
    ensures DecodeFailure(EncodeFields(FailureFields(m))) == Ok(m)
  {
    hide EncodeFields, Walk, Fold, Last, Utf8, FromUtf8Lossy;
    var fs := FailureFields(m);
    WalkEncoded(fs);
    FailureByLast(fs);
    LastDistinct(fs, 0);
    Utf8RoundTrip(m.message);
  }

  lemma SubMessagesPrinted(m: Response)
    requires ResponseFits(m)
    ensures SubMessagesDecode(ResponseFields(m))
  {
    hide EncodeFields, Utf8, DecodeSuccess, DecodeFailure, SuccessFields, FailureFields, FieldBytes;
    if m.success.Some? {
      SuccessRoundTrip(m.success.value);
    }
    if m.failure.Some? {
      FailureRoundTrip(m.failure.value);
    }
  }

  // The single occurrence of each printed field.
  function PrintedValue(m: Response, num: u64): Option<FieldVal>
    requires ResponseFits(m)
  {
    match num
    case 1 => Some(Bytes(Utf8(m.requestId)))
    case 2 => Some(Varint(Digit(m.authSuccess)))
    case 3 => (match m.error { case None => None case Some(t) => Some(Bytes(Utf8(t))) })
    case 4 => (match m.success { case None => None case Some(x) => Some(Bytes(EncodeFields(SuccessFields(x)))) })
    case 5 => (match m.failure { case None => None case Some(x) => Some(Bytes(EncodeFields(FailureFields(x)))) })
    case _ => None
  }

  lemma LastPrinted(m: Response, num: u64, i: nat)
    requires ResponseFits(m)
    requires var fs := ResponseFields(m);
             if PrintedValue(m, num).Some? then i < |fs| && fs[i] == Field(num, PrintedValue(m, num).value)
                 else forall f :: f in fs ==> f.num != num
    requires forall j :: i < j < |ResponseFields(m)| ==> ResponseFields(m)[j].num != num
    ensures Last(ResponseFields(m), num) == PrintedValue(m, num)
  {
    hide ResponseFields, Last, PrintedValue;
    if PrintedValue(m, num).Some? {
      LastDistinct(ResponseFields(m), i);
    } else {
      LastAbsent(ResponseFields(m), num);
    }
  }

  lemma LastsPrinted(m: Response)
    requires ResponseFits(m)
    ensures forall num: u64 :: 1 <= num <= 5 ==> Last(ResponseFields(m), num) == PrintedValue(m, num)
  {
    hide EncodeFields, Last, Utf8, SuccessFields, FailureFields;
    var i := 2 + if m.error.Some? then 1 else 0;
    var j := i + if m.success.Some? then 1 else 0;
    LastPrinted(m, 1, 0);
    LastPrinted(m, 2, 1);
    LastPrinted(m, 3, 2);
    LastPrinted(m, 4, i);
    LastPrinted(m, 5, j);
  }

  lemma ResponsePrinted(m: Response)
    requires ResponseFits(m)
    ensures var fs := ResponseFields(m);
            ResponseOf(fs) == m && Last(fs, 1).Some? && Last(fs, 2).Some?
  {
    hide EncodeFields, Last, Utf8, FromUtf8Lossy, DecodeSuccess, DecodeFailure, SuccessFields, FailureFields;
    hide ResponseFields;
    LastsPrinted(m);
    Utf8RoundTrip(m.requestId);
    if m.error.Some? {
      Utf8RoundTrip(m.error.value);
    }
    if m.success.Some? {
      SuccessRoundTrip(m.success.value);
    }
    if m.failure.Some? {
      FailureRoundTrip(m.failure.value);
    }
  }

  lemma ResponseRoundTrip(m: Response)
    requires ResponseFits(m)
    ensures DecodeResponse(EncodeFields(ResponseFields(m))) == Ok(m)
  {
    hide EncodeFields, Walk, Fold, ResponseOf, ResponseFields, SubMessagesDecode, Utf8, FromUtf8Lossy;
    var fs := ResponseFields(m);
    WalkEncoded(fs);
    ResponseByLast(fs);
    SubMessagesPrinted(m);
    ResponsePrinted(m);
  }

  // ---------------------------------------------------------------- last value wins

  // Same success, or both fail.
  predicate Agree<T(==)>(x: Result<T, string>, y: Result<T, string>) {
    x.Ok? == y.Ok? && (x.Ok? ==> x == y)
  }

  // A request decodes exactly when its id and commitment fields occur, and then to the last
  // value of each of its fields.
  lemma DecodeRequestMeaning(buf: seq<byte>)
    ensures match Walk(buf)
            case Err(e) => DecodeRequest(buf) == Err(e)
            case Ok(fs) =>
              && (DecodeRequest(buf).Ok? <==> Last(fs, 1).Some? && Last(fs, 4).Some?)
              && (DecodeRequest(buf).Ok? ==> DecodeRequest(buf).value == RequestOf(fs))
  {
    hide Walk, Fold, Last;
    if Walk(buf).Ok? {
      RequestByLast(Walk(buf).value);
    }
  }

  lemma DecodeResponseMeaning(buf: seq<byte>)
    ensures match Walk(buf)
            case Err(e) => DecodeResponse(buf) == Err(e)
            case Ok(fs) =>
              && (DecodeResponse(buf).Ok? <==> SubMessagesDecode(fs) && Last(fs, 1).Some? && Last(fs, 2).Some?)
              && (DecodeResponse(buf).Ok? ==> DecodeResponse(buf).value == ResponseOf(fs))
  {
    hide Walk, Fold, Last, DecodeSuccess, DecodeFailure;
    if Walk(buf).Ok? {
      ResponseByLast(Walk(buf).value);
    }
  }

  predicate SameKnownValues(fs: seq<Field>, gs: seq<Field>) {
    forall num: u64 :: 1 <= num <= 5 ==> Values(fs, num) == Values(gs, num)
  }

  lemma {:induction false} InValues(fs: seq<Field>, f: Field)
    ensures f in fs <==> f.val in Values(fs, f.num)
  {
    if fs != [] {
      InValues(fs[..|fs| - 1], f);
      assert fs == fs[..|fs| - 1] + [fs[|fs| - 1]];
    }
  }

  lemma SameSubMessages(fs: seq<Field>, gs: seq<Field>)
    requires SameKnownValues(fs, gs) && SubMessagesDecode(fs)
    ensures SubMessagesDecode(gs)
  {
    forall g | g in gs && (g.num == 4 || g.num == 5) ensures g in fs {
      InValues(gs, g);
      InValues(fs, g);
    }
  }

  // Buffers whose known fields carry the same values in the same per-field order decode alike:
  // unknown fields and the interleaving of different fields do not matter.
  lemma DecodeDependsOnKnownValues(x: seq<byte>, y: seq<byte>)
    requires Walk(x).Ok? && Walk(y).Ok? && SameKnownValues(Walk(x).value, Walk(y).value)
    ensures DecodeRequest(x) == DecodeRequest(y)
    ensures Agree(DecodeResponse(x), DecodeResponse(y))
  {
    hide Walk, Fold, Values, DecodeSuccess, DecodeFailure;
    var (fs, gs) := (Walk(x).value, Walk(y).value);
    assert forall num: u64 :: 1 <= num <= 5 ==> Last(fs, num) == Last(gs, num);
    RequestByLast(fs);
    RequestByLast(gs);
    DecodeResponseMeaning(x);
    DecodeResponseMeaning(y);
    if SubMessagesDecode(fs) {
      SameSubMessages(fs, gs);
    } else if SubMessagesDecode(gs) {
      SameSubMessages(gs, fs);
    }
  }

  // The nested messages: what they decode to depends on the values of their own fields only.
  lemma NestedDependOnKnownValues(x: seq<byte>, y: seq<byte>)
    requires Walk(x).Ok? && Walk(y).Ok?
    ensures (forall num: u64 :: 1 <= num <= 4 || num == 100 ==>
        Values(Walk(x).value, num) == Values(Walk(y).value, num)) ==>
              DecodeSuccess(x) == DecodeSuccess(y)
    ensures Values(Walk(x).value, 1) == Values(Walk(y).value, 1) ==> DecodeFailure(x) == DecodeFailure(y)
  {
    hide Walk, Fold, Values;
    var (fs, gs) := (Walk(x).value, Walk(y).value);
    SuccessByLast(fs);
    SuccessByLast(gs);
    FailureByLast(fs);
    FailureByLast(gs);
  }

  lemma NoValues(fs: seq<Field>, num: u64)
    requires forall f :: f in fs ==> f.num != num
    ensures Values(fs, num) == []
  {
    LastAbsent(fs, num);
  }

  lemma InsertedValues(fa: seq<Field>, fu: seq<Field>, fb: seq<Field>, num: u64)
    requires forall f :: f in fu ==> f.num != num
    ensures Values(fa + fu + fb, num) == Values(fa + fb, num)
  {
    ValuesAppend(fa + fu, fb, num);
    ValuesAppend(fa, fu, num);
    ValuesAppend(fa, fb, num);
    NoValues(fu, num);
  }

  // Unknown fields inside a nested message are ignored, at any field boundary.
  lemma NestedUnknownFieldsIgnored(a: seq<byte>, u: seq<byte>, b: seq<byte>)
    requires |a| + |u| + |b| <= MAX_LEN
    requires Walk(a).Ok? && Walk(u).Ok?
    ensures (forall f :: f in Walk(u).value ==> !(1 <= f.num <= 4) && f.num != 100) ==>
              Agree(DecodeSuccess(a + u + b), DecodeSuccess(a + b))
    ensures (forall f :: f in Walk(u).value ==> f.num != 1) ==> Agree(DecodeFailure(a + u + b), DecodeFailure(a + b))
  {
    hide Walk, Fold, Values;
    WalkAppend(a, u);
    WalkAppend(a + u, b);
    WalkAppend(a, b);
    if Walk(b).Ok? {
      var (fa, fu, fb) := (Walk(a).value, Walk(u).value, Walk(b).value);
      forall num: u64 | forall f :: f in fu ==> f.num != num ensures Values(fa + fu + fb, num) == Values(fa + fb, num) {
        InsertedValues(fa, fu, fb, num);
      }
      NestedDependOnKnownValues(a + u + b, a + b);
    }
  }

  lemma UnwalkableNested(buf: seq<byte>)
    ensures Walk(buf).Err? ==> DecodeSuccess(buf).Err? && DecodeFailure(buf).Err?
  {
  }

  lemma SwappedWalks(a: seq<byte>, x: seq<byte>, y: seq<byte>, b: seq<byte>, f: Field, g: Field)
    requires |a| + |x| + |y| + |b| <= MAX_LEN
    requires Walk(a).Ok? && Walk(x) == Ok([f]) && Walk(y) == Ok([g])
    ensures if Walk(b).Err? then Walk(a + x + y + b).Err? && Walk(a + y + x + b).Err?
            else
              && Walk(a + x + y + b) == Ok(Walk(a).value + [f] + [g] + Walk(b).value)
              && Walk(a + y + x + b) == Ok(Walk(a).value + [g] + [f] + Walk(b).value)
  {
    hide Walk;
    WalkAppend(a, x);
    WalkAppend(a + x, y);
    WalkAppend(a + x + y, b);
    WalkAppend(a, y);
    WalkAppend(a + y, x);
    WalkAppend(a + y + x, b);
  }

  lemma SingleValue(f: Field, num: u64)
    ensures Values([f], num) == if f.num == num then [f.val] else []
  {
    assert [f][..0] == [];
  }

  lemma SwappedValues(fa: seq<Field>, fb: seq<Field>, f: Field, g: Field, num: u64)
    requires f.num != g.num
    ensures Values(fa + [f] + [g] + fb, num) == Values(fa + [g] + [f] + fb, num)
  {
    ValuesAppend(fa + [f] + [g], fb, num);
    ValuesAppend(fa + [f], [g], num);
    ValuesAppend(fa, [f], num);
    ValuesAppend(fa + [g] + [f], fb, num);
    ValuesAppend(fa + [g], [f], num);
    ValuesAppend(fa, [g], num);
    SingleValue(f, num);
    SingleValue(g, num);
  }

  // Neighbouring fields with different numbers inside a nested message may change places.
  lemma NestedFieldsCommute(a: seq<byte>, x: seq<byte>, y: seq<byte>, b: seq<byte>, f: Field, g: Field)
    requires |a| + |x| + |y| + |b| <= MAX_LEN
    requires Walk(a).Ok? && Walk(x) == Ok([f]) && Walk(y) == Ok([g]) && f.num != g.num
    ensures Agree(DecodeSuccess(a + x + y + b), DecodeSuccess(a + y + x + b))
    ensures Agree(DecodeFailure(a + x + y + b), DecodeFailure(a + y + x + b))
  {
    hide Walk, Fold, Values, DecodeSuccess, DecodeFailure;
    SwappedWalks(a, x, y, b, f, g);
    if Walk(b).Ok? {
      var (fa, fb) := (Walk(a).value, Walk(b).value);
      forall num: u64 ensures Values(fa + [f] + [g] + fb, num) == Values(fa + [g] + [f] + fb, num) {
        SwappedValues(fa, fb, f, g, num);
      }
      NestedDependOnKnownValues(a + x + y + b, a + y + x + b);
    } else {
      UnwalkableNested(a + x + y + b);
      UnwalkableNested(a + y + x + b);
    }
  }

  // Well-formed bytes holding only unknown fields can be inserted at any field boundary.
  lemma UnknownFieldsIgnored(a: seq<byte>, u: seq<byte>, b: seq<byte>)
    requires |a| + |u| + |b| <= MAX_LEN
    requires Walk(a).Ok? && Walk(u).Ok?
    requires forall f :: f in Walk(u).value ==> !(1 <= f.num <= 5)
    ensures Agree(DecodeRequest(a + u + b), DecodeRequest(a + b))
    ensures Agree(DecodeResponse(a + u + b), DecodeResponse(a + b))
  {
    hide Walk, Fold, Values, DecodeSuccess, DecodeFailure;
    WalkAppend(a, u);
    WalkAppend(a + u, b);
    WalkAppend(a, b);
    if Walk(b).Ok? {
      var (fa, fu, fb) := (Walk(a).value, Walk(u).value, Walk(b).value);
      forall num: u64 | 1 <= num <= 5 ensures Values(fa + fu + fb, num) == Values(fa + fb, num) {
        InsertedValues(fa, fu, fb, num);
      }
      DecodeDependsOnKnownValues(a + u + b, a + b);
    }
  }

  // Two neighbouring fields with different numbers may change places.
  lemma FieldsCommute(a: seq<byte>, x: seq<byte>, y: seq<byte>, b: seq<byte>, f: Field, g: Field)
    requires |a| + |x| + |y| + |b| <= MAX_LEN
    requires Walk(a).Ok? && Walk(x) == Ok([f]) && Walk(y) == Ok([g]) && f.num != g.num
    ensures Agree(DecodeRequest(a + x + y + b), DecodeRequest(a + y + x + b))
    ensures Agree(DecodeResponse(a + x + y + b), DecodeResponse(a + y + x + b))
  {
    hide Walk, Fold, DecodeSuccess, DecodeFailure;
    SwappedWalks(a, x, y, b, f, g);
    if Walk(b).Ok? {
      var (fa, fb) := (Walk(a).value, Walk(b).value);
      forall num: u64 ensures Values(fa + [f] + [g] + fb, num) == Values(fa + [g] + [f] + fb, num) {
        SwappedValues(fa, fb, f, g, num);
      }
      DecodeDependsOnKnownValues(a + x + y + b, a + y + x + b);
    }
  }
}
