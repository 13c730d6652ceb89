/**
 The minting tool's TLV printer and the two TLV parsers: the attestation verifier's, which takes
 short, 0x81 and 0x82 lengths, and the card client's, which takes any number of length octets.
 */
module Tlv {
  import opened Bits
  import opened Wrappers
  import opened Text
  import opened BigEndian

  // ---------------------------------------------------------------- printing

  // Python raises when the length does not fit two octets.
  function Print(tag: byte, value: seq<byte>): (r: seq<byte>)
    requires |value| < 0x1_0000
  {
    if |value| < 0x80 then [tag, |value|] + value
    else if |value| <= 0xFF then [tag, 0x81, |value|] + value
    else [tag, 0x82, |value| / 256, |value| % 256] + value
  }

  lemma BigEndianOne(a: byte)
    ensures FromBE([a]) == a
  {
    assert [a][..0] == [];
  }

  lemma BigEndianTwo(a: byte, b: byte)
    ensures FromBE([a, b]) == 256 * (a as int) + b
  {
    BigEndianOne(a);
    assert [a, b][..1] == [a];
  }

  // The length is in its shortest form (ITU-T X.690, section 10.1): one octet below 128, then 0x81
  // and one octet below 256, then 0x82 and two octets, big-endian.
  lemma PrintMeaning(tag: byte, value: seq<byte>)
    requires |value| < 0x1_0000
    ensures var p := Print(tag, value);
            var n := |p| - |value|;
            && n == (if |value| < 128 then 2 else if |value| < 256 then 3 else 4)
            && p[0] == tag && p[n..] == value
            && (n == 2 ==> p[1] == |value|)
            && (n > 2 ==> p[1] == 0x80 + (n - 2) && FromBE(p[2..n]) == |value|)
  {
    var p := Print(tag, value);
    var n := |p| - |value|;
    if n == 3 {
      assert p[2..3] == [|value|];
      BigEndianOne(|value|);
    } else if n == 4 {
      assert p[2..4] == [|value| / 256, |value| % 256];
      BigEndianTwo(|value| / 256, |value| % 256);
    }
  }

  // ---------------------------------------------------------------- the verifier's parser

  // The value length and the number of length octets at index i.
  function ReadLen(buf: seq<byte>, i: nat): (r: Result<(nat, nat), string>)
    ensures r.Ok? ==> r.value.0 < 0x1_0000 && 1 <= r.value.1 <= 3 && i + r.value.1 <= |buf|
  {
    if i >= |buf| then Err("tlv length truncated")
    else
      var l0 := buf[i];
      if l0 < 0x80 then Ok((l0, 1))
      else if l0 == 0x81 then
        if i + 1 >= |buf| then Err("tlv len81") else Ok((buf[i + 1], 2))
      else if l0 == 0x82 then
        if i + 2 >= |buf| then Err("tlv len82") else Ok((buf[i + 1] as int * 256 + buf[i + 2], 3))
      else Err("unsupported tlv length form")
  }

  // Where the value of the element at index i starts and ends.
  function Element(buf: seq<byte>, i: nat): (r: Result<(nat, nat), string>)
    ensures r.Ok? ==> i + 2 <= r.value.0 <= r.value.1 <= |buf|
  {
    match ReadLen(buf, i + 1)
    case Err(e) => Err(e)
    case Ok((len, hdr)) =>
      var start := i + 1 + hdr;
      if start + len <= |buf| then Ok((start, start + len)) else Err("tlv value out of range")
  }

  function NotFound(tag: byte): string {
    "tlv tag 0x" + HexEncode([tag]) + " not found"
  }

  // The value and the full bytes of the first element with this tag from index i on.
  function FindFrom(buf: seq<byte>, i: nat, tag: byte): Result<(seq<byte>, seq<byte>), string>
    decreases |buf| - i
  {
    if i + 1 >= |buf| then Err(NotFound(tag))
    else
      match Element(buf, i)
      case Err(e) => Err(e)
      case Ok((start, end)) =>
        if buf[i] == tag then Ok((buf[start..end], buf[i..end])) else FindFrom(buf, end, tag)
  }

  function Find(buf: seq<byte>, tag: byte): Result<(seq<byte>, seq<byte>), string> {
    FindFrom(buf, 0, tag)
  }

  method FindTag(buf: seq<byte>, tag: byte) returns (r: Result<(seq<byte>, seq<byte>), string>)
    ensures r == Find(buf, tag)
  {
    var i := 0;
    while i + 1 < |buf|
      invariant i <= |buf|
      invariant Find(buf, tag) == FindFrom(buf, i, tag)
    {
      var len := ReadLen(buf, i + 1);
      if len.Err? {
        return Err(len.error);
      }
      var start := i + 1 + len.value.1;
      var end := start + len.value.0;
      if end > |buf| {
        return Err("tlv value out of range");
      }
      if buf[i] == tag {
        return Ok((buf[start..end], buf[i..end]));
      }
      i := end;
    }
    return Err(NotFound(tag));
  }

  // ---------------------------------------------------------------- the card client's parser

  // usize arithmetic that leaves 64 bits panics; `len << 8` only drops high bits.
  datatype Lookup = Found(value: seq<byte>) | Missing | Panicked

  // The big-endian length in n octets at index i, carried on from `acc`.
  function LongLen(buf: seq<byte>, i: nat, n: nat, acc: u64): Option<(u64, nat)>
    decreases n
  {
    if n == 0 then Some((acc, i))
    else if i >= |buf| then None
    else LongLen(buf, i + 1, n - 1, acc * 256 % TWO64 + buf[i])
  }

  // The value length at index i and the index after the length octets.
  function ReadApduLen(buf: seq<byte>, i: nat): (r: Option<(u64, nat)>)
    requires i < |buf|
  {
    if buf[i] < 0x80 then Some((buf[i], i + 1)) else LongLen(buf, i + 1, buf[i] - 0x80, 0)
  }

  lemma {:induction false} LongLenBound(buf: seq<byte>, i: nat, n: nat, acc: u64)
    requires i <= |buf|
    ensures LongLen(buf, i, n, acc).Some? ==> LongLen(buf, i, n, acc).value.1 == i + n <= |buf|
    decreases n
  {
    if n > 0 && i < |buf| {
      LongLenBound(buf, i + 1, n - 1, acc * 256 % TWO64 + buf[i]);
    }
  }

  lemma ShiftOctet(v: nat, b: byte)
    ensures v % TWO64 * 256 % TWO64 + b == (256 * v + b) % TWO64
  {
    var (q, r) := (v / TWO64, v % TWO64);
    assert r * 256 % TWO64 <= TWO64 - 256 by {
      assert r * 256 % TWO64 % 256 == 0;
    }
    var k := r * 256 / TWO64;
    assert 256 * v + b == (256 * q + k) * TWO64 + (r * 256 % TWO64 + b);
  }

  lemma {:induction false} LongLenFrom(buf: seq<byte>, from: nat, i: nat, n: nat, acc: u64)
    requires from <= i <= |buf| && acc == FromBE(buf[from..i]) % TWO64
    ensures LongLen(buf, i, n, acc)
            == if i + n <= |buf| then Some((FromBE(buf[from..i + n]) % TWO64, i + n)) else None
    decreases n
  {
    if n > 0 && i < |buf| {
      var s := buf[from..i + 1];
      assert s[..|s| - 1] == buf[from..i] && s[|s| - 1] == buf[i];
      ShiftOctet(FromBE(buf[from..i]), buf[i]);
      LongLenFrom(buf, from, i + 1, n - 1, acc * 256 % TWO64 + buf[i]);
    }
  }

  // n octets give their big-endian value modulo 2^64, for any n, exactly when the buffer has them.
  lemma LongLenMeaning(buf: seq<byte>, i: nat, n: nat)
    requires i <= |buf|
    ensures LongLen(buf, i, n, 0)
            == if i + n <= |buf| then Some((FromBE(buf[i..i + n]) % TWO64, i + n)) else None
  {
    assert buf[i..i] == [];
    LongLenFrom(buf, i, i, n, 0);
  }

  function FindApduFrom(buf: seq<byte>, i: nat, tag: byte): Lookup
    requires |buf| <= MAX_LEN && i <= |buf|
    decreases |buf| - i
  {
    if i + 1 >= |buf| then Missing
    else
      LongLenBound(buf, i + 2, if buf[i + 1] < 0x80 then 0 else buf[i + 1] - 0x80, 0);
      match ReadApduLen(buf, i + 1)
      case None => Missing
      case Some((len, start)) =>
        if start + len >= TWO64 then Panicked
        else if start + len > |buf| then Missing
        else if buf[i] == tag then Found(buf[start..start + len])
        else FindApduFrom(buf, start + len, tag)
  }

  function FindApdu(buf: seq<byte>, tag: byte): Lookup
    requires |buf| <= MAX_LEN
  {
    FindApduFrom(buf, 0, tag)
  }

  method ReadApduLength(buf: seq<byte>, i: nat) returns (r: Option<u64>, next: nat)
    requires i < |buf|
    ensures match ReadApduLen(buf, i)
            case None => r == None
            case Some((len, j)) => r == Some(len) && next == j <= |buf|
    ensures next > i
    ensures buf[i] < 0x80 ==> r == Some(buf[i]) && next == i + 1
    ensures buf[i] >= 0x80 ==>
              var (first, last) := (i + 1, i + 1 + (buf[i] - 0x80));
              if last > |buf| then r == None else r == Some(FromBE(buf[first..last]) % TWO64) && next == last
  {
    ghost var n' := if buf[i] < 0x80 then 0 else buf[i] - 0x80;
    LongLenMeaning(buf, i + 1, n');
    var b := buf[i];
    next := i + 1;
    if b < 0x80 {
      return Some(b), next;
    }
    var n := b - 0x80;
    var len: u64 := 0;
    for k := 0 to n
      invariant i < next == i + 1 + k <= |buf|
      invariant ReadApduLen(buf, i) == LongLen(buf, next, n - k, len)
    {
      if next >= |buf| {
        return None, next;
      }
      len := len * 256 % TWO64 + buf[next];
      next := next + 1;
    }
    return Some(len), next;
  }

  method FindApduTag(buf: seq<byte>, tag: byte) returns (r: Lookup)
    requires |buf| <= MAX_LEN
    ensures r == FindApdu(buf, tag)
  {
    var i := 0;
    while i < |buf|
      invariant i <= |buf|
      invariant FindApdu(buf, tag) == FindApduFrom(buf, i, tag)
      decreases |buf| - i
    {
      var t := buf[i];
      i := i + 1;
      if i >= |buf| {
        return Missing;
      }
      var len, next := ReadApduLength(buf, i);
      i := next;
      if len == None {
        return Missing;
      }
      if i + len.value >= TWO64 {
        return Panicked;
      }
      if i + len.value > |buf| {
        return Missing;
      }
      if t == tag {
        return Found(buf[i..i + len.value]);
      }
      i := i + len.value;
    }
    return Missing;
  }

  // ---------------------------------------------------------------- overflow

  // The element at index i would end at 2^64 or beyond.
  predicate Overflows(buf: seq<byte>, i: nat) {
    i + 1 < |buf| &&
    match ReadApduLen(buf, i + 1)
    case None => false
    case Some((len, start)) => start + len >= TWO64
  }

  // The search passes from index i to index j over elements without the tag.
  predicate Passes(buf: seq<byte>, i: nat, tag: byte, j: nat)
    decreases |buf| - i
  {
    i == j ||
    (i + 1 < |buf| && buf[i] != tag &&
     match ReadApduLen(buf, i + 1)
     case None => false
     case Some((len, start)) => i < start && start + len <= |buf| && Passes(buf, start + len, tag, j))
  }

  predicate Ends(buf: seq<byte>, i: nat) {
    i + 1 < |buf| &&
    match ReadApduLen(buf, i + 1)
    case None => false
    case Some((len, start)) => start + len <= |buf|
  }

  lemma ElementStart(buf: seq<byte>, i: nat)
    requires i + 1 < |buf|
    ensures ReadApduLen(buf, i + 1).Some? ==> i + 2 <= ReadApduLen(buf, i + 1).value.1 <= |buf|
  {
    LongLenBound(buf, i + 2, if buf[i + 1] < 0x80 then 0 else buf[i + 1] - 0x80, 0);
  }

  lemma {:induction false} PanickedFrom(buf: seq<byte>, i: nat, tag: byte)
    requires |buf| <= MAX_LEN && i <= |buf|
    ensures FindApduFrom(buf, i, tag).Panicked? <==> exists j :: Passes(buf, i, tag, j) && Overflows(buf, j)
    decreases |buf| - i
  {
    hide LongLen, ReadApduLen;
    if i + 1 < |buf| {
      ElementStart(buf, i);
      if Overflows(buf, i) {
        assert Passes(buf, i, tag, i);
      } else if Ends(buf, i) && buf[i] != tag {
        var (len, start) := ReadApduLen(buf, i + 1).value;
        PanickedFrom(buf, start + len, tag);
        forall j | Passes(buf, start + len, tag, j) && Overflows(buf, j) ensures Passes(buf, i, tag, j) {
        }
      }
    }
  }

  // With overflow checks the search panics exactly when it comes to an element whose end
  // leaves 64 bits.
  lemma PanickedMeaning(buf: seq<byte>, tag: byte)
    requires |buf| <= MAX_LEN
    ensures FindApdu(buf, tag) == Panicked <==> exists j :: Passes(buf, 0, tag, j) && Overflows(buf, j)
  {
    PanickedFrom(buf, 0, tag);
  }

  // A build without overflow checks: index sums wrap around, and only a slice that ends before
  // it starts panics.
  datatype Move = At(i: nat) | Stopped(value: Option<seq<byte>>) | Aborted

  function WrappingMove(buf: seq<byte>, i: nat, tag: byte): Move {
    if i + 1 >= |buf| then Stopped(None)
    else
      match ReadApduLen(buf, i + 1)
      case None => Stopped(None)
      case Some((len, start)) =>
        var end := (start + len) % TWO64;
        if end > |buf| then Stopped(None)
        else if buf[i] != tag then At(end)
        else if start <= end then Stopped(Some(buf[start..end]))
        else Aborted
  }

  function WrappingSearch(buf: seq<byte>, i: nat, tag: byte, moves: nat): Move
    decreases moves
  {
    if moves == 0 then At(i)
    else
      match WrappingMove(buf, i, tag)
      case At(j) => WrappingSearch(buf, j, tag, moves - 1)
      case stop => stop
  }

  function ResultOf(r: Lookup): Option<seq<byte>> {
    if r.Found? then Some(r.value) else None
  }

  // One move of the unchecked search follows the checked one unless that panics.
  lemma MoveFollows(buf: seq<byte>, i: nat, tag: byte)
    requires |buf| <= MAX_LEN && i <= |buf|
    requires !FindApduFrom(buf, i, tag).Panicked?
    ensures if Ends(buf, i) && buf[i] != tag then
              var (len, start) := ReadApduLen(buf, i + 1).value;
              && i < start + len <= |buf| && WrappingMove(buf, i, tag) == At(start + len)
              && FindApduFrom(buf, i, tag) == FindApduFrom(buf, start + len, tag)
            else WrappingMove(buf, i, tag) == Stopped(ResultOf(FindApduFrom(buf, i, tag)))
  {
    hide LongLen, ReadApduLen;
    if i + 1 < |buf| {
      ElementStart(buf, i);
    }
  }

  lemma {:induction false} WrappingAgreesFrom(buf: seq<byte>, i: nat, tag: byte) returns (moves: nat)
    requires |buf| <= MAX_LEN && i <= |buf|
    requires !FindApduFrom(buf, i, tag).Panicked?
    ensures WrappingSearch(buf, i, tag, moves) == Stopped(ResultOf(FindApduFrom(buf, i, tag)))
    decreases |buf| - i
  {
    hide ReadApduLen, FindApduFrom, WrappingMove, ResultOf;
    MoveFollows(buf, i, tag);
    if Ends(buf, i) && buf[i] != tag {
      var (len, start) := ReadApduLen(buf, i + 1).value;
      var rest := WrappingAgreesFrom(buf, start + len, tag);
      moves := rest + 1;
    } else {
      moves := 1;
    }
  }

  // Without overflow checks the search ends with the same result whenever the checked one does
  // not panic.
  lemma WrappingAgrees(buf: seq<byte>, tag: byte)
    requires |buf| <= MAX_LEN && FindApdu(buf, tag) != Panicked
    ensures exists moves :: WrappingSearch(buf, 0, tag, moves) == Stopped(ResultOf(FindApdu(buf, tag)))
  {
    var moves := WrappingAgreesFrom(buf, 0, tag);
  }

  lemma LongLenStep(buf: seq<byte>, i: nat, n: nat, acc: u64)
    requires n > 0 && i < |buf|
    ensures LongLen(buf, i, n, acc) == LongLen(buf, i + 1, n - 1, acc * 256 % TWO64 + buf[i])
  {
  }

  lemma LongLenDone(buf: seq<byte>, i: nat, acc: u64)
    ensures LongLen(buf, i, 0, acc) == Some((acc, i))
  {
  }

  lemma LargestLength(buf: seq<byte>)
    requires |buf| == 10 && buf[1] == 0x88 && buf[9] == 0xF6 && forall k :: 2 <= k < 9 ==> buf[k] == 0xFF
    ensures ReadApduLen(buf, 1).Some? && ReadApduLen(buf, 1).value == (TWO64 - 10, 10)
  {
    hide LongLen;
    LongLenStep(buf, 2, 8, 0);
    LongLenStep(buf, 3, 7, 0xFF);
    LongLenStep(buf, 4, 6, 0xFFFF);
    LongLenStep(buf, 5, 5, 0xFF_FFFF);
    LongLenStep(buf, 6, 4, 0xFFFF_FFFF);
    LongLenStep(buf, 7, 3, 0xFF_FFFF_FFFF);
    LongLenStep(buf, 8, 2, 0xFFFF_FFFF_FFFF);
    LongLenStep(buf, 9, 1, 0xFF_FFFF_FFFF_FFFF);
    LongLenDone(buf, 10, TWO64 - 10);
  }

  // And when it does, the unchecked search may never end: it returns to index 0 forever.
  lemma {:induction false} WrappingMayLoop(other: byte, tag: byte, moves: nat)
    requires other != tag
    ensures var buf := [other, 0x88, 0xFF, 0xFF, 0xFF, 0xFF, 0xFF, 0xFF, 0xFF, 0xF6];
            FindApdu(buf, tag) == Panicked && WrappingSearch(buf, 0, tag, moves) == At(0)
  {
    var buf: seq<byte> := [other, 0x88, 0xFF, 0xFF, 0xFF, 0xFF, 0xFF, 0xFF, 0xFF, 0xF6];
    LargestLength(buf);
    if moves > 0 {
      WrappingMayLoop(other, tag, moves - 1);
    }
  }

  // ---------------------------------------------------------------- printing and finding

  datatype Item = Item(tag: byte, value: seq<byte>)

  predicate Printable(items: seq<Item>) {
    forall x :: x in items ==> |x.value| < 0x1_0000
  }

  function PrintAll(items: seq<Item>): seq<byte>
    requires Printable(items)
  {
    if items == [] then [] else Print(items[0].tag, items[0].value) + PrintAll(items[1..])
  }

  function FirstWith(items: seq<Item>, tag: byte): (r: Option<Item>)
    ensures r.Some? ==> r.value in items
  {
    if items == [] then None
    else if items[0].tag == tag then Some(items[0])
    else FirstWith(items[1..], tag)
  }

  // The element printed at index |pre| of a buffer is delimited exactly.
  lemma PrintedElement(pre: seq<byte>, x: Item, post: seq<byte>)
    requires |x.value| < 0x1_0000
    ensures var (buf, n) := (pre + Print(x.tag, x.value) + post, |Print(x.tag, x.value)|);
            Element(buf, |pre|) == Ok((|pre| + n - |x.value|, |pre| + n))
  {
    var p := Print(x.tag, x.value);
    var buf := pre + p + post;
    var i := |pre| + 1;
    assert buf[i] == p[1];
    if |x.value| >= 0x80 {
      assert buf[i + 1] == p[2];
      if |x.value| > 0xFF {
        assert buf[i + 2] == p[3];
      }
    }
  }

  lemma FindNothing(pre: seq<byte>, tag: byte)
    ensures FindFrom(pre + [], |pre|, tag).Err?
  {
  }

  // The search takes a printed element with the tag and passes one without it.
  lemma FindStep(pre: seq<byte>, x: Item, post: seq<byte>, tag: byte)
    requires |x.value| < 0x1_0000
    ensures var p := Print(x.tag, x.value);
            FindFrom(pre + p + post, |pre|, tag)
            == if x.tag == tag then Ok((x.value, p)) else FindFrom(pre + p + post, |pre + p|, tag)
  {
    hide Element, Print, FromBE;
    var p := Print(x.tag, x.value);
    var buf := pre + p + post;
    PrintMeaning(x.tag, x.value);
    PrintedElement(pre, x, post);
    assert buf[|pre|] == p[0];
    assert buf[|pre|..|pre| + |p|] == p;
    assert buf[|pre| + |p| - |x.value|..|pre| + |p|] == p[|p| - |x.value|..];
  }

  lemma {:induction false} FindPrintedFrom(pre: seq<byte>, items: seq<Item>, tag: byte)
    requires Printable(items)
    ensures match FirstWith(items, tag)
            case Some(x) => FindFrom(pre + PrintAll(items), |pre|, tag) == Ok((x.value, Print(x.tag, x.value)))
            case None => FindFrom(pre + PrintAll(items), |pre|, tag).Err?
    decreases |items|
  {
    hide FindFrom, Print;
    if items != [] {
      var x := items[0];
      var (p, rest) := (Print(x.tag, x.value), PrintAll(items[1..]));
      assert pre + PrintAll(items) == pre + p + rest;
      FindStep(pre, x, rest, tag);
      if x.tag != tag {
        FindPrintedFrom(pre + p, items[1..], tag);
      }
    } else {
      FindNothing(pre, tag);
    }
  }

  // Searching printed elements finds the first one with the tag, whatever the lengths.
  lemma FindPrinted(items: seq<Item>, tag: byte)
    requires Printable(items)
    ensures match FirstWith(items, tag)
            case Some(x) => Find(PrintAll(items), tag) == Ok((x.value, Print(x.tag, x.value)))
            case None => Find(PrintAll(items), tag).Err?
  {
    FindPrintedFrom([], items, tag);
    assert [] + PrintAll(items) == PrintAll(items);
  }

  // ---------------------------------------------------------------- the two parsers agree

  // Every length the card client's search reads on its way is short, 0x81 or 0x82.
  predicate CommonForms(buf: seq<byte>, i: nat, tag: byte)
    requires |buf| <= MAX_LEN && i <= |buf|
    decreases |buf| - i
  {
    i + 1 >= |buf| ||
    (&& (buf[i + 1] < 0x80 || buf[i + 1] == 0x81 || buf[i + 1] == 0x82)
     && (Element(buf, i).Ok? && buf[i] != tag ==> CommonForms(buf, Element(buf, i).value.1, tag)))
  }

  lemma LongLenOne(buf: seq<byte>, i: nat)
    ensures match LongLen(buf, i, 1, 0)
            case None => i >= |buf|
            case Some((len, j)) => i < |buf| && len == buf[i] && j == i + 1
  {
  }

  lemma LongLenTwo(buf: seq<byte>, i: nat)
    ensures match LongLen(buf, i, 2, 0)
            case None => i + 1 >= |buf|
            case Some((len, j)) => i + 1 < |buf| && len == buf[i] as int * 256 + buf[i + 1] && j == i + 2
  {
    if i < |buf| {
      assert LongLen(buf, i, 2, 0) == LongLen(buf, i + 1, 1, buf[i]);
      if i + 1 < |buf| {
        assert LongLen(buf, i + 1, 1, buf[i]) == LongLen(buf, i + 2, 0, buf[i] as int * 256 + buf[i + 1]);
      }
    }
  }

  lemma CommonElement(buf: seq<byte>, i: nat)
    requires |buf| <= MAX_LEN && i + 1 < |buf|
    requires buf[i + 1] < 0x80 || buf[i + 1] == 0x81 || buf[i + 1] == 0x82
    ensures match ReadApduLen(buf, i + 1)
            case None => Element(buf, i).Err?
            case Some((len, start)) =>
              && start + len < TWO64
              && (Element(buf, i).Ok? <==> start + len <= |buf|)
              && (Element(buf, i).Ok? ==> Element(buf, i).value == (start, start + len))
  {
    if buf[i + 1] == 0x81 {
      LongLenOne(buf, i + 2);
    } else if buf[i + 1] == 0x82 {
      LongLenTwo(buf, i + 2);
    }
  }

  lemma {:induction false} ParsersAgreeFrom(buf: seq<byte>, i: nat, tag: byte)
    requires |buf| <= MAX_LEN && i <= |buf|
    ensures FindFrom(buf, i, tag).Ok? <==> CommonForms(buf, i, tag) && FindApduFrom(buf, i, tag).Found?
    ensures FindFrom(buf, i, tag).Ok? ==> FindApduFrom(buf, i, tag) == Found(FindFrom(buf, i, tag).value.0)
    ensures CommonForms(buf, i, tag) ==> !FindApduFrom(buf, i, tag).Panicked?
    decreases |buf| - i
  {
    hide LongLen, ReadApduLen;
    if i + 1 < |buf| {
      if buf[i + 1] < 0x80 || buf[i + 1] == 0x81 || buf[i + 1] == 0x82 {
        CommonElement(buf, i);
        if Element(buf, i).Ok? && buf[i] != tag {
          ParsersAgreeFrom(buf, Element(buf, i).value.1, tag);
        }
      }
    }
  }

  // The verifier's search succeeds exactly when the card client's does over common length
  // forms, and then with the same value; over those forms the card client never panics.
  lemma ParsersAgree(buf: seq<byte>, tag: byte)
    requires |buf| <= MAX_LEN
    ensures Find(buf, tag).Ok? <==> CommonForms(buf, 0, tag) && FindApdu(buf, tag).Found?
    ensures Find(buf, tag).Ok? ==> FindApdu(buf, tag) == Found(Find(buf, tag).value.0)
    ensures CommonForms(buf, 0, tag) ==> (FindApdu(buf, tag) == Missing <==> Find(buf, tag).Err?)
  {
    ParsersAgreeFrom(buf, 0, tag);
  }
}
