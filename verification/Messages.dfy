/**
 The four gifter messages. Each is specified by its list of protobuf fields; decoding folds a
 step function over the walked fields, exactly as the source's walker callback does.
 */
module Messages {
  import opened Bits
  import opened Wrappers
  import opened Text
  import opened Wire

  datatype Request = Request(
    requestId: string,
    authType: seq<byte>,
    authPayload: seq<byte>,
    idCommitment: seq<byte>,
    rateLimit: Option<u64>)

  datatype Success = Success(
    leafIndex: u64,
    merkleRoot: seq<byte>,
    blockNumber: u64,
    txHash: seq<byte>,
    configAccount: Option<string>)

  datatype Failure = Failure(message: string)

  datatype Response = Response(
    requestId: string,
    authSuccess: bool,
    error: Option<string>,
    success: Option<Success>,
    failure: Option<Failure>)

  // ---------------------------------------------------------------- field values

  function AsBytes(v: FieldVal): seq<byte> {
    match v
    case Bytes(b) => b
    case Varint(_) => []
  }

  function AsString(v: FieldVal): string {
    match v
    case Bytes(b) => FromUtf8Lossy(b)
    case Varint(_) => ""
  }

  function AsU64(v: FieldVal): u64 {
    match v
    case Varint(n) => n
    case Bytes(_) => 0
  }

  function BytesField(num: u64, data: seq<byte>): Field {
    Field(num, Bytes(data))
  }

  function StringField(num: u64, s: string): Field {
    Field(num, Bytes(Utf8(s)))
  }

  function Optional(num: u64, s: Option<string>): seq<Field> {
    match s
    case None => []
    case Some(t) => [StringField(num, t)]
  }

  // ---------------------------------------------------------------- messages as fields

  function RequestFields(m: Request): seq<Field> {
    [StringField(1, m.requestId), BytesField(2, m.authType), BytesField(3, m.authPayload),
        BytesField(4, m.idCommitment)]
    + match m.rateLimit { case None => [] case Some(r) => [Field(5, Varint(r))] }
  }

  function SuccessFields(m: Success): seq<Field> {
    [Field(1, Varint(m.leafIndex)), BytesField(2, m.merkleRoot), Field(3, Varint(m.blockNumber)),
        BytesField(4, m.txHash)]
    + Optional(100, m.configAccount)
  }

  function FailureFields(m: Failure): seq<Field> {
    [StringField(1, m.message)]
  }

  // The encoding fits in memory: no Vec is longer than isize::MAX.
  predicate Fits(fs: seq<Field>) {
    (forall f :: f in fs ==> Encodable(f)) && |EncodeFields(fs)| <= MAX_LEN
  }

  function ResponseFields(m: Response): seq<Field>
    requires m.success.Some? ==> Fits(SuccessFields(m.success.value))
    requires m.failure.Some? ==> Fits(FailureFields(m.failure.value))
  {
    [StringField(1, m.requestId), Field(2, Varint(Digit(m.authSuccess)))]
    + Optional(3, m.error)
    + (match m.success { case None => [] case Some(s) => [BytesField(4, EncodeFields(SuccessFields(s)))] })
    + (match m.failure { case None => [] case Some(f) => [BytesField(5, EncodeFields(FailureFields(f)))] })
  }

  predicate ResponseFits(m: Response) {
    && (m.success.Some? ==> Fits(SuccessFields(m.success.value)))
    && (m.failure.Some? ==> Fits(FailureFields(m.failure.value)))
    && Fits(ResponseFields(m))
  }

  // ---------------------------------------------------------------- encoders

  lemma EncodeEmpty()
    ensures forall fs: seq<Field> :: EncodeFields(fs[..0]) == []
  {
  }

  lemma PutNext(fs: seq<Field>, n: nat)
    requires n < |fs| && forall f :: f in fs ==> Encodable(f)
    ensures EncodeFields(fs[..n + 1]) == EncodeFields(fs[..n]) + FieldBytes(fs[n])
  {
    assert fs[..n + 1] == fs[..n] + [fs[n]];
    EncodeAppend(fs[..n], [fs[n]]);
    assert EncodeFields([fs[n]]) == FieldBytes(fs[n]) + EncodeFields([]);
  }

  method EncodeRequest(m: Request) returns (out: Buffer)
    requires Fits(RequestFields(m))
    ensures fresh(out) && out.bytes == EncodeFields(RequestFields(m))
  {
    hide EncodeFields, FieldBytes, Utf8;
    out := new Buffer();
    ghost var fs := RequestFields(m);
    EncodeEmpty();
    PutNext(fs, 0);
    PutLenField(out, 1, Utf8(m.requestId));
    PutNext(fs, 1);
    PutLenField(out, 2, m.authType);
    PutNext(fs, 2);
    PutLenField(out, 3, m.authPayload);
    PutNext(fs, 3);
    PutLenField(out, 4, m.idCommitment);
    if m.rateLimit.Some? {
      PutNext(fs, 4);
      PutVarintField(out, 5, m.rateLimit.value);
    }
    assert fs[..|fs|] == fs;
  }

  method EncodeSuccess(m: Success) returns (out: Buffer)
    requires Fits(SuccessFields(m))
    ensures fresh(out) && out.bytes == EncodeFields(SuccessFields(m))
  {
    hide EncodeFields, FieldBytes, Utf8;
    out := new Buffer();
    ghost var fs := SuccessFields(m);
    EncodeEmpty();
    PutNext(fs, 0);
    PutVarintField(out, 1, m.leafIndex);
    PutNext(fs, 1);
    PutLenField(out, 2, m.merkleRoot);
    PutNext(fs, 2);
    PutVarintField(out, 3, m.blockNumber);
    PutNext(fs, 3);
    PutLenField(out, 4, m.txHash);
    if m.configAccount.Some? {
      PutNext(fs, 4);
      PutLenField(out, 100, Utf8(m.configAccount.value));
    }
    assert fs[..|fs|] == fs;
  }

  method EncodeFailure(m: Failure) returns (out: Buffer)
    requires Fits(FailureFields(m))
    ensures fresh(out) && out.bytes == EncodeFields(FailureFields(m))
  {
    hide EncodeFields, FieldBytes, Utf8;
    out := new Buffer();
    ghost var fs := FailureFields(m);
    EncodeEmpty();
    PutNext(fs, 0);
    PutLenField(out, 1, Utf8(m.message));
    assert fs[..|fs|] == fs;
  }

  method EncodeResponse(m: Response) returns (out: Buffer)
    requires ResponseFits(m)
    ensures fresh(out) && out.bytes == EncodeFields(ResponseFields(m))
  {
    hide EncodeFields, FieldBytes, Utf8, SuccessFields, FailureFields;
    out := new Buffer();
    ghost var fs := ResponseFields(m);
    EncodeEmpty();
    PutNext(fs, 0);
    PutLenField(out, 1, Utf8(m.requestId));
    PutNext(fs, 1);
    PutVarintField(out, 2, if m.authSuccess then 1 else 0);
    ghost var n := 2;
    if m.error.Some? {
      PutNext(fs, n);
      PutLenField(out, 3, Utf8(m.error.value));
      n := n + 1;
    }
    if m.success.Some? {
      var s := EncodeSuccess(m.success.value);
      PutNext(fs, n);
      PutLenField(out, 4, s.bytes);
      n := n + 1;
    }
    if m.failure.Some? {
      var f := EncodeFailure(m.failure.value);
      PutNext(fs, n);
      PutLenField(out, 5, f.bytes);
      n := n + 1;
    }
    assert fs[..n] == fs;
  }

  // ---------------------------------------------------------------- decoders

  datatype RequestAcc = RequestAcc(m: Request, haveId: bool, haveIdc: bool)

  const NO_REQUEST := RequestAcc(Request("", [], [], [], None), false, false)

  function RequestStep(a: RequestAcc, f: Field): RequestAcc {
    var v := f.val;
    match f.num
    case 1 => a.(m := a.m.(requestId := AsString(v)), haveId := true)
    case 2 => a.(m := a.m.(authType := AsBytes(v)))
    case 3 => a.(m := a.m.(authPayload := AsBytes(v)))
    case 4 => a.(m := a.m.(idCommitment := AsBytes(v)), haveIdc := true)
    case 5 => a.(m := a.m.(rateLimit := Some(AsU64(v))))
    case _ => a
  }

  function FinishRequest(a: RequestAcc): Result<Request, string> {
    if !a.haveId then Err("missing request_id")
    else if !a.haveIdc then Err("missing identity_commitment")
    else Ok(a.m)
  }

  function DecodeRequest(buf: seq<byte>): Result<Request, string> {
    match Walk(buf)
    case Err(e) => Err(e)
    case Ok(fs) => FinishRequest(Fold(RequestStep, NO_REQUEST, fs))
  }

  const NO_SUCCESS := Success(0, [], 0, [], None)

  function SuccessStep(m: Success, f: Field): Success {
    var v := f.val;
    match f.num
    case 1 => m.(leafIndex := AsU64(v))
    case 2 => m.(merkleRoot := AsBytes(v))
    case 3 => m.(blockNumber := AsU64(v))
    case 4 => m.(txHash := AsBytes(v))
    case 100 => m.(configAccount := Some(AsString(v)))
    case _ => m
  }

  function DecodeSuccess(buf: seq<byte>): Result<Success, string> {
    match Walk(buf)
    case Err(e) => Err(e)
    case Ok(fs) => Ok(Fold(SuccessStep, NO_SUCCESS, fs))
  }

  function FailureStep(m: Failure, f: Field): Failure {
    if f.num == 1 then Failure(AsString(f.val)) else m
  }

  function DecodeFailure(buf: seq<byte>): Result<Failure, string> {
    match Walk(buf)
    case Err(e) => Err(e)
    case Ok(fs) => Ok(Fold(FailureStep, Failure(""), fs))
  }

  datatype ResponseAcc = ResponseAcc(m: Response, subErr: Option<string>, haveId: bool, haveAuth: bool)

  const NO_RESPONSE := ResponseAcc(Response("", false, None, None, None), None, false, false)

  function ResponseStep(a: ResponseAcc, f: Field): ResponseAcc {
    var v := f.val;
    match f.num
    case 1 => a.(m := a.m.(requestId := AsString(v)), haveId := true)
    case 2 => a.(m := a.m.(authSuccess := AsU64(v) != 0), haveAuth := true)
    case 3 => a.(m := a.m.(error := Some(AsString(v))))
    case 4 =>
      (match DecodeSuccess(AsBytes(v))
       case Ok(s) => a.(m := a.m.(success := Some(s)))
       case Err(e) => a.(subErr := Some(e)))
    case 5 =>
      (match DecodeFailure(AsBytes(v))
       case Ok(x) => a.(m := a.m.(failure := Some(x)))
       case Err(e) => a.(subErr := Some(e)))
    case _ => a
  }

  function FinishResponse(a: ResponseAcc): Result<Response, string> {
    if a.subErr.Some? then Err(a.subErr.value)
    else if !a.haveId then Err("missing request_id")
    else if !a.haveAuth then Err("missing auth_success")
    else Ok(a.m)
  }

  function DecodeResponse(buf: seq<byte>): Result<Response, string> {
    match Walk(buf)
    case Err(e) => Err(e)
    case Ok(fs) => FinishResponse(Fold(ResponseStep, NO_RESPONSE, fs))
  }

  method ReadRequest(buf: seq<byte>) returns (r: Result<Request, string>)
    requires |buf| <= MAX_LEN
    ensures r == DecodeRequest(buf)
  {
    hide Walk, Fold;
    var w, a := WalkFields(buf, RequestStep, NO_REQUEST);
    if w.Err? {
      return Err(w.error);
    }
    if !a.haveId {
      return Err("missing request_id");
    }
    if !a.haveIdc {
      return Err("missing identity_commitment");
    }
    return Ok(a.m);
  }

  method ReadResponse(buf: seq<byte>) returns (r: Result<Response, string>)
    requires |buf| <= MAX_LEN
    ensures r == DecodeResponse(buf)
  {
    hide Walk, Fold;
    var w, a := WalkFields(buf, ResponseStep, NO_RESPONSE);
    if w.Err? {
      return Err(w.error);
    }
    if a.subErr.Some? {
      return Err(a.subErr.value);
    }
    if !a.haveId {
      return Err("missing request_id");
    }
    if !a.haveAuth {
      return Err("missing auth_success");
    }
    return Ok(a.m);
  }

  // ---------------------------------------------------------------- what decoding depends on

  // The values of the fields numbered `num`, in order.
  function Values(fs: seq<Field>, num: u64): seq<FieldVal> {
    if fs == [] then []
    else
      var x := fs[|fs| - 1];
      Values(fs[..|fs| - 1], num) + if x.num == num then [x.val] else []
  }

  // The last value of a field; earlier occurrences are overwritten.
  function Last(fs: seq<Field>, num: u64): Option<FieldVal> {
    var vs := Values(fs, num);
    if vs == [] then None else Some(vs[|vs| - 1])
  }

  // The text of a field; a varint in its place reads as nothing.
  function StringOr(v: Option<FieldVal>): string {
    match v
    case Some(Bytes(b)) => FromUtf8Lossy(b)
    case _ => ""
  }

  function BytesOr(v: Option<FieldVal>): seq<byte> {
    match v
    case Some(Bytes(b)) => b
    case _ => []
  }

  function U64Or(v: Option<FieldVal>): u64 {
    match v
    case Some(Varint(n)) => n
    case _ => 0
  }

  function OptionalString(v: Option<FieldVal>): Option<string> {
    if v.None? then None else Some(StringOr(v))
  }

  function RequestOf(fs: seq<Field>): Request {
    Request(StringOr(Last(fs, 1)), BytesOr(Last(fs, 2)), BytesOr(Last(fs, 3)), BytesOr(Last(fs, 4)),
            if Last(fs, 5).None? then None else Some(U64Or(Last(fs, 5))))
  }

  function SuccessOf(fs: seq<Field>): Success {
    Success(U64Or(Last(fs, 1)), BytesOr(Last(fs, 2)), U64Or(Last(fs, 3)), BytesOr(Last(fs, 4)),
        OptionalString(Last(fs, 100)))
  }

  // The fields split at the end, for inductions that follow the walker.
  lemma LastSnoc(fs: seq<Field>, num: u64)
    requires fs != []
    ensures var (a, x) := (fs[..|fs| - 1], fs[|fs| - 1]);
            fs == a + [x] && Last(fs, num) == if x.num == num then Some(x.val) else Last(a, num)
  {
  }

  lemma NoFields()
    ensures forall num: u64 :: Last([], num) == None
  {
  }

  lemma FoldNothing<S>(f: (S, Field) -> S, s: S)
    ensures Fold(f, s, []) == s
  {
  }

  lemma {:induction false} RequestByLast(fs: seq<Field>)
    ensures Fold(RequestStep, NO_REQUEST, fs) == RequestAcc(RequestOf(fs), Last(fs, 1).Some?, Last(fs, 4).Some?)
  {
    hide Fold, Last, FromUtf8Lossy;
    if fs == [] {
      NoFields();
      FoldNothing(RequestStep, NO_REQUEST);
    } else {
      var (a, x) := (fs[..|fs| - 1], fs[|fs| - 1]);
      RequestByLast(a);
      LastSnoc(fs, 1);
      LastSnoc(fs, 2);
      LastSnoc(fs, 3);
      LastSnoc(fs, 4);
      LastSnoc(fs, 5);
      FoldSnoc(RequestStep, NO_REQUEST, a, x);
    }
  }

  lemma {:induction false} SuccessByLast(fs: seq<Field>)
    ensures Fold(SuccessStep, NO_SUCCESS, fs) == SuccessOf(fs)
  {
    hide Fold, Last, FromUtf8Lossy;
    if fs == [] {
      NoFields();
      FoldNothing(SuccessStep, NO_SUCCESS);
    } else {
      var (a, x) := (fs[..|fs| - 1], fs[|fs| - 1]);
      SuccessByLast(a);
      LastSnoc(fs, 1);
      LastSnoc(fs, 2);
      LastSnoc(fs, 3);
      LastSnoc(fs, 4);
      LastSnoc(fs, 100);
      FoldSnoc(SuccessStep, NO_SUCCESS, a, x);
    }
  }

  lemma {:induction false} FailureByLast(fs: seq<Field>)
    ensures Fold(FailureStep, Failure(""), fs) == Failure(StringOr(Last(fs, 1)))
  {
    hide Fold, Last, FromUtf8Lossy;
    if fs == [] {
      NoFields();
      FoldNothing(FailureStep, Failure(""));
    } else {
      var (a, x) := (fs[..|fs| - 1], fs[|fs| - 1]);
      FailureByLast(a);
      LastSnoc(fs, 1);
      FoldSnoc(FailureStep, Failure(""), a, x);
    }
  }
}
